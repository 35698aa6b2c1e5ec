/** Which value stands under which heading, from the items and from the document to the parsed file. */
module ToonColumns {
  import opened Text
  import opened ToonPrinter
  import opened ToonParser
  import opened ItemTable
  import ItemCodes
  import ItemTree
  import Sanitizer
  import ToonRoundTrip
  import ToonSurvival

  /** The headings of the file, in the order of its columns. */
  predicate Headings(headers: seq<string>) {
    headers == ["category", "name", "code", "price", "cost", "supplier", "unit"]
  }

  /** The columns under these headings hold the item's fields of the same names, as `show` spells them. */
  ghost predicate Shows(row: seq<string>, item: Item, show: string -> string) {
    |row| == 7 &&
    row[0] == show(Printed(item.category)) && row[1] == show(Printed(item.name)) &&
    row[2] == show(Printed(item.code)) && row[3] == show(Printed(item.price)) &&
    row[4] == show(Printed(item.cost)) && row[5] == show(Printed(item.supplier)) &&
    row[6] == show(Printed(item.unit))
  }

  lemma RowShows(item: Item, show: string -> string, row: seq<string>)
    requires |row| == 7 && forall j :: 0 <= j < 7 ==> row[j] == show(Row(item)[j])
    ensures Shows(row, item, show)
  {
  }

  function Same(s: string): string {
    s
  }

  /** Printed and parsed: each row of the file shows its item, field by field under its heading. */
  lemma DirectColumns(items: seq<Item>)
    requires ToonRoundTrip.AllFields(Rows(items), ToonRoundTrip.CleanWithoutQuote)
    ensures var r := Parsed(Encoded(items));
            r.Ok? && Headings(r.headers) && |r.rows| == |items| &&
            forall i :: 0 <= i < |items| ==> Shows(r.rows[i], items[i], Same)
  {
    ToonRoundTrip.DirectRoundTripIff(items);
    forall i | 0 <= i < |items| ensures Shows(Rows(items)[i], items[i], Same) {
      RowShows(items[i], Same, Rows(items)[i]);
    }
  }

  /**
   * Printed, sanitized and parsed: each row of the file shows its item, field by field under its heading, with every
   * `"` read as `'`.
   */
  lemma PipelineColumns(items: seq<Item>)
    requires ToonRoundTrip.AllFields(Rows(items), Clean) && ToonSurvival.AllSurvive(Rows(items))
    ensures var r := Parsed(Sanitizer.Sanitized(Encoded(items)));
            r.Ok? && Headings(r.headers) && |r.rows| == |items| &&
            forall i :: 0 <= i < |items| ==> Shows(r.rows[i], items[i], ToonRoundTrip.Apostrophes)
  {
    ToonSurvival.PipelineExact(items);
    var rows := ToonRoundTrip.ApostropheRows(Rows(items));
    forall i | 0 <= i < |items| ensures Shows(rows[i], items[i], ToonRoundTrip.Apostrophes) {
      RowShows(items[i], ToonRoundTrip.Apostrophes, rows[i]);
    }
  }

  /**
   * The columns a row of the table is shown in: category, name, price, cost, supplier and unit from the first, second,
   * seventh, eighth, eleventh and fifth cell; the code from the third, or else a draw.
   */
  ghost predicate ShowsCells(row: seq<string>, num: Numbers, draws: seq<string>, cells: seq<string>,
                             show: string -> string) {
    |row| == 7 &&
    row[0] == show(ItemCodes.Cell(cells, 0)) && row[1] == show(ItemCodes.Cell(cells, 1)) &&
    row[3] == show(Printed(num.price(ItemCodes.Cell(cells, 6)))) &&
    row[4] == show(Printed(num.price(ItemCodes.Cell(cells, 7)))) &&
    row[5] == show(ItemCodes.Cell(cells, 10)) && row[6] == show(num.unit(ItemCodes.Cell(cells, 4))) &&
    var own := WithoutSpaces(ItemCodes.Cell(cells, 2));
    if own != "" then row[2] == show(StoredCode(own))
    else exists k :: 0 <= k < |draws| && row[2] == show(StoredCode(draws[k]))
  }

  lemma CellsShown(row: seq<string>, num: Numbers, draws: seq<string>, cells: seq<string>, item: Item,
                   show: string -> string)
    requires Shows(row, item, show) && ItemCodes.MadeOf(num, draws, cells, item)
    ensures ShowsCells(row, num, draws, cells, show)
  {
  }

  /**
   * From document to file: when the draws last and every row survives the repair, the rows of the parsed file show, one
   * each and in document order, the non-empty body rows that are no placeholder, cell by cell under their headings.
   */
  lemma DocumentColumns(num: Numbers, draws: seq<string>, f: ItemTree.Forest)
    requires ItemTree.WellNested(f, ItemTree.Outside) && ItemTree.PrintsClean(num)
    requires forall i :: 0 <= i < |draws| ==> Digits(draws[i])
    ensures var out := Run(num, Initial(draws), ItemTree.Events(f)).out;
            var kept := ItemCodes.Kept(ItemTree.TableRows(f));
            var r := Parsed(Sanitizer.Sanitized(Encoded(out.items)));
            !out.spinning && ToonSurvival.AllSurvive(Rows(out.items)) ==>
              r.Ok? && Headings(r.headers) && |r.rows| == |kept| &&
              forall k :: 0 <= k < |kept| ==>
                            ShowsCells(r.rows[k], num, draws, kept[k], ToonRoundTrip.Apostrophes)
  {
    var out := Run(num, Initial(draws), ItemTree.Events(f)).out;
    var kept := ItemCodes.Kept(ItemTree.TableRows(f));
    if !out.spinning && ToonSurvival.AllSurvive(Rows(out.items)) {
      ItemTree.TableItems(num, draws, f);
      ItemTree.RunPrintable(num, Initial(draws), ItemTree.Events(f));
      ItemTree.RowsClean(out.items);
      PipelineColumns(out.items);
      var r := Parsed(Sanitizer.Sanitized(Encoded(out.items)));
      forall k | 0 <= k < |kept| ensures ShowsCells(r.rows[k], num, draws, kept[k], ToonRoundTrip.Apostrophes) {
        assert out.items[0 + k] == out.items[k];
        CellsShown(r.rows[k], num, draws, kept[k], out.items[k], ToonRoundTrip.Apostrophes);
      }
    }
  }
}
