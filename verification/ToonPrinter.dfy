/** scripts/extract_items.py, `encode_toon`: the printer of the .toon format. */
module ToonPrinter {
  import opened Text

  /** One output item. Numbers are given as the text Python's `str` prints for them; `None` is `None`. */
  datatype Item = Item(
    category: Option<string>, name: Option<string>, code: Option<string>, price: Option<string>,
    cost: Option<string>, supplier: Option<string>, unit: Option<string>)

  const OUTPUT_FIELDS: seq<string> := ["category", "name", "code", "price", "cost", "supplier", "unit"]

  /** Seven names with commas between them. */
  function CommaList(n: seq<string>): string
    requires |n| == 7
  {
    n[0] + [','] + (n[1] + [','] + (n[2] + [','] + (n[3] + [','] + (n[4] + [','] + (n[5] + [','] + n[6])))))
  }

  /** The field names as the header spells them. */
  const FIELD_LIST: string := CommaList(OUTPUT_FIELDS)

  function Printed(v: Option<string>): string {
    if v.None? then "" else v.value
  }

  /** The seven column texts of an item, in the order the header announces. */
  function Row(item: Item): (r: seq<string>)
    ensures |r| == |OUTPUT_FIELDS|
  {
    [Printed(item.category), Printed(item.name), Printed(item.code), Printed(item.price), Printed(item.cost),
     Printed(item.supplier), Printed(item.unit)]
  }

  function EscapeQuotes(s: string): string {
    if s == "" then ""
    else (if s[0] == '"' then ['\\', '"'] else [s[0]]) + EscapeQuotes(s[1..])
  }

  /** `escape`. */
  function Escape(s: string): string {
    var e := EscapeQuotes(s);
    if ',' in e || '"' in s then ['"'] + e + ['"'] else e
  }

  function EscapeRow(row: seq<string>): (r: seq<string>)
    ensures |r| == |row| && forall i :: 0 <= i < |row| ==> r[i] == Escape(row[i])
  {
    Map(Escape, row)
  }

  function Line(row: seq<string>): string {
    Join(EscapeRow(row), ',')
  }

  function HeaderOf(count: string, names: string): string {
    "items[" + (count + ("," + ("]{" + (names + "}:"))))
  }

  function Header(n: nat): string {
    HeaderOf(Decimal(n), FIELD_LIST)
  }

  function Rows(items: seq<Item>): (r: seq<seq<string>>)
    ensures |r| == |items| && forall i :: 0 <= i < |items| ==> r[i] == Row(items[i])
  {
    Map(Row, items)
  }

  function Lines(rows: seq<seq<string>>): (r: seq<string>)
    ensures |r| == |rows| && forall i :: 0 <= i < |rows| ==> r[i] == Line(rows[i])
  {
    Map(Line, rows)
  }

  function Encoded(items: seq<Item>): string {
    Join([Header(|items|)] + Lines(Rows(items)), '\n') + "\n"
  }

  method EncodeToon(items: seq<Item>) returns (text: string)
    ensures text == Encoded(items)
  {
    var lines := [Header(|items|)];
    for i := 0 to |items|
      invariant |lines| == 1 + i && lines[0] == Header(|items|)
      invariant forall j :: 0 <= j < i ==> lines[1 + j] == Line(Row(items[j]))
    {
      var item := items[i];
      var row := [
        Escape(Printed(item.category)), Escape(Printed(item.name)), Escape(Printed(item.code)),
        Escape(Printed(item.price)), Escape(Printed(item.cost)), Escape(Printed(item.supplier)),
        Escape(Printed(item.unit))];
      assert row == EscapeRow(Row(item));
      lines := lines + [Join(row, ',')];
    }
    assert lines == [Header(|items|)] + Lines(Rows(items));
    text := Join(lines, '\n') + "\n";
  }

  // ----- facts about the printed text -----

  /**
   * A value is printed as it is exactly when it holds no comma and no quote; any other is wrapped, a quote-free one
   * unchanged.
   */
  lemma EscapeExact(s: string)
    ensures Escape(s) == s <==> ',' !in s && '"' !in s
    ensures ',' in s && '"' !in s ==> Escape(s) == ['"'] + s + ['"']
    ensures '"' in s ==> |Escape(s)| >= 2 && Escape(s)[0] == '"' == Escape(s)[|Escape(s)| - 1]
  {
    EscapeQuotesHas(s, ',');
    if '"' !in s {
      EscapeQuotesPlain(s);
    }
    EscapeQuotesLonger(s);
  }

  lemma {:induction false} EscapeQuotesLonger(s: string)
    ensures |EscapeQuotes(s)| >= |s|
  {
    if s != "" {
      EscapeQuotesLonger(s[1..]);
    }
  }

  lemma {:induction false} EscapeQuotesPlain(s: string)
    requires '"' !in s
    ensures EscapeQuotes(s) == s
  {
    if s != "" {
      EscapeQuotesPlain(s[1..]);
    }
  }

  lemma {:induction false} EscapeQuotesHas(s: string, c: char)
    requires c != '\\'
    ensures c in EscapeQuotes(s) <==> c in s
  {
    if s != "" {
      EscapeQuotesHas(s[1..], c);
      assert s == [s[0]] + s[1..];
    }
  }

  /** Each quote costs exactly one backslash. */
  lemma {:induction false} EscapeQuotesCount(s: string)
    ensures Count(EscapeQuotes(s), '\\') == Count(s, '\\') + Count(s, '"')
  {
    if s != "" {
      EscapeQuotesCount(s[1..]);
      var h := if s[0] == '"' then ['\\', '"'] else [s[0]];
      CountAppend(h, EscapeQuotes(s[1..]), '\\');
      assert h[1..] == if s[0] == '"' then ['"'] else "";
    }
  }

  lemma EscapeCount(s: string)
    ensures Count(Escape(s), '\\') == Count(s, '\\') + Count(s, '"')
  {
    EscapeQuotesCount(s);
    var e := EscapeQuotes(s);
    CountAppend(['"'], e, '\\');
    CountAppend(['"'] + e, ['"'], '\\');
    CountZero(['"'], '\\');
  }

  lemma EscapeHas(s: string, c: char)
    requires c != '\\' && c != '"'
    ensures c in Escape(s) <==> c in s
  {
    EscapeQuotesHas(s, c);
  }
}
