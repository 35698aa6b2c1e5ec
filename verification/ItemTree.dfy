/** The table handlers against the table they read, and the items against the format they are printed in. */
module ItemTree {
  import opened Text
  import opened ToonPrinter
  import opened ToonParser
  import opened ItemTable
  import Sanitizer
  import ToonRoundTrip
  import ToonSurvival
  import ItemCodes

  /** A well-nested document, as its first node and what follows it. */
  datatype Forest =
    | Empty
    | Words(text: string, rest: Forest)
    | Elem(tag: Tag, kids: Forest, rest: Forest)

  function Events(f: Forest): seq<Event> {
    match f
    case Empty => []
    case Words(text, rest) => [Data(text)] + Events(rest)
    case Elem(tag, kids, rest) => [Start(tag)] + Events(kids) + [End(tag)] + Events(rest)
  }

  datatype Place = Outside | InBody | InRow | InCell | InX

  /**
   * The tables the handlers are written for: bodies, rows and cells are not nested in their own kind, and a currency
   * label holds no table part and no label. Other tags may stand anywhere, and rows and cells outside a body too.
   */
  predicate WellNested(f: Forest, p: Place) {
    match f
    case Empty => true
    case Words(_, rest) => WellNested(rest, p)
    case Elem(tag, kids, rest) =>
      WellNested(rest, p) &&
      match tag
      case Other(_) => WellNested(kids, p)
      case X => p != InX && WellNested(kids, InX)
      case Tbody => p == Outside && WellNested(kids, InBody)
      case Tr => (p == Outside && WellNested(kids, Outside)) || (p == InBody && WellNested(kids, InRow))
      case Td => ((p == Outside || p == InBody) && WellNested(kids, p)) || (p == InRow && WellNested(kids, InCell))
  }

  /** The text of a cell without its currency labels. */
  function CellText(f: Forest): string {
    match f
    case Empty => ""
    case Words(text, rest) => text + CellText(rest)
    case Elem(tag, kids, rest) => (if tag == X then "" else CellText(kids)) + CellText(rest)
  }

  function RowCells(f: Forest): seq<string> {
    match f
    case Empty => []
    case Words(_, rest) => RowCells(rest)
    case Elem(tag, kids, rest) =>
      (if tag == Td then [PyStrip(CellText(kids))] else if tag == X then [] else RowCells(kids)) + RowCells(rest)
  }

  /** The rows of a body that have a cell, in document order. */
  function BodyRows(f: Forest): seq<seq<string>> {
    match f
    case Empty => []
    case Words(_, rest) => BodyRows(rest)
    case Elem(tag, kids, rest) =>
      (if tag == X then []
       else if tag != Tr then BodyRows(kids)
       else if RowCells(kids) == [] then []
       else [RowCells(kids)]) + BodyRows(rest)
  }

  function TableRows(f: Forest): seq<seq<string>> {
    match f
    case Empty => []
    case Words(_, rest) => TableRows(rest)
    case Elem(tag, kids, rest) =>
      (if tag == X then [] else if tag == Tbody then BodyRows(kids) else TableRows(kids)) + TableRows(rest)
  }

  // ----- running the handlers over a tree -----

  lemma {:induction false} RunAppend(num: Numbers, st: Scan, a: seq<Event>, b: seq<Event>)
    ensures Run(num, st, a + b) == Run(num, Run(num, st, a), b)
    decreases |a|
  {
    if a == [] {
      assert a + b == b;
    } else {
      TailAppend(a, b);
      RunAppend(num, Step(num, st, a[0]), a[1..], b);
    }
  }

  /** An element is its start, its content, its end and what follows. */
  lemma RunElem(num: Numbers, st: Scan, tag: Tag, kids: Forest, rest: Forest)
    ensures Run(num, st, Events(Elem(tag, kids, rest))) ==
            Run(num, OnEnd(num, Run(num, OnStart(st, tag), Events(kids)), tag), Events(rest))
  {
    RunAppend(num, st, [Start(tag)] + Events(kids) + [End(tag)], Events(rest));
    RunAppend(num, st, [Start(tag)] + Events(kids), [End(tag)]);
    RunAppend(num, st, [Start(tag)], Events(kids));
  }

  lemma RunWords(num: Numbers, st: Scan, text: string, rest: Forest)
    ensures Run(num, st, Events(Words(text, rest))) == Run(num, Step(num, st, Data(text)), Events(rest))
  {
    assert ([Data(text)] + Events(rest))[1..] == Events(rest);
  }

  lemma {:induction false} RunLabel(num: Numbers, st: Scan, f: Forest)
    requires WellNested(f, InX) && st.inX
    ensures Run(num, st, Events(f)) == st
  {
    match f
    case Empty =>
    case Words(text, rest) =>
      RunWords(num, st, text, rest);
      RunLabel(num, st, rest);
    case Elem(tag, kids, rest) =>
      RunElem(num, st, tag, kids, rest);
      RunLabel(num, st, kids);
      RunLabel(num, st, rest);
  }

  /** A label leaves no trace, wherever it stands. */
  lemma RunX(num: Numbers, st: Scan, kids: Forest, rest: Forest)
    requires WellNested(kids, InX) && !st.inX
    ensures Run(num, st, Events(Elem(X, kids, rest))) == Run(num, st, Events(rest))
  {
    RunElem(num, st, X, kids, rest);
    RunLabel(num, st.(inX := true), kids);
  }

  lemma {:induction false} RunCell(num: Numbers, st: Scan, f: Forest)
    requires WellNested(f, InCell) && st.inCell && !st.inX
    ensures Run(num, st, Events(f)) == st.(cellText := st.cellText + CellText(f))
    decreases f
  {
    match f
    case Empty =>
    case Words(text, rest) =>
      RunWords(num, st, text, rest);
      RunCell(num, st.(cellText := st.cellText + text), rest);
      Assoc(st.cellText, text, CellText(rest));
    case Elem(tag, kids, rest) =>
      if tag == X {
        RunX(num, st, kids, rest);
        RunCell(num, st, rest);
        Nothing(CellText(rest));
      } else {
        RunElem(num, st, tag, kids, rest);
        RunCell(num, st, kids);
        RunCell(num, st.(cellText := st.cellText + CellText(kids)), rest);
        Assoc(st.cellText, CellText(kids), CellText(rest));
      }
  }

  /** The state up to the text of the last cell. */
  function NoText(st: Scan): Scan {
    st.(cellText := "")
  }

  lemma {:induction false} RunRow(num: Numbers, st: Scan, f: Forest)
    requires WellNested(f, InRow) && st.inRow && !st.inCell && !st.inX
    ensures NoText(Run(num, st, Events(f))) == NoText(st.(cells := st.cells + RowCells(f)))
    decreases f, 1
  {
    match f
    case Empty =>
    case Words(text, rest) =>
      RunWords(num, st, text, rest);
      RunRow(num, st, rest);
    case Elem(tag, kids, rest) =>
      if tag == X {
        RunX(num, st, kids, rest);
        RunRow(num, st, rest);
        Nothing(RowCells(rest));
      } else {
        var mid := RunRowElem(num, st, f);
        RunElem(num, st, tag, kids, rest);
        RunRow(num, mid, rest);
        Assoc(st.cells, CellsHere(tag, kids), RowCells(rest));
      }
  }

  /** The cells one element of a row contributes. */
  function CellsHere(tag: Tag, kids: Forest): seq<string> {
    if tag == Td then [PyStrip(CellText(kids))] else if tag == X then [] else RowCells(kids)
  }

  lemma {:induction false} RunRowElem(num: Numbers, st: Scan, f: Forest) returns (mid: Scan)
    requires WellNested(f, InRow) && st.inRow && !st.inCell && !st.inX && f.Elem? && f.tag != X
    ensures mid == OnEnd(num, Run(num, OnStart(st, f.tag), Events(f.kids)), f.tag)
    ensures NoText(mid) == NoText(st.(cells := st.cells + CellsHere(f.tag, f.kids)))
    decreases f, 0
  {
    mid := OnEnd(num, Run(num, OnStart(st, f.tag), Events(f.kids)), f.tag);
    if f.tag == Td {
      RunCell(num, OnStart(st, f.tag), f.kids);
      Nothing(CellText(f.kids));
    } else {
      RunRow(num, st, f.kids);
    }
  }

  /** The state up to the row being read. */
  function NoRow(st: Scan): Scan {
    st.(cellText := "", cells := [])
  }

  lemma {:induction false} EmitAppend(num: Numbers, out: Output, a: seq<seq<string>>, b: seq<seq<string>>)
    ensures EmitAll(num, out, a + b) == EmitAll(num, EmitAll(num, out, a), b)
    decreases |a|
  {
    if a == [] {
      assert a + b == b;
    } else {
      TailAppend(a, b);
      EmitAppend(num, Emit(num, out, a[0]), a[1..], b);
    }
  }

  lemma {:induction false} RunBody(num: Numbers, st: Scan, f: Forest)
    requires WellNested(f, InBody) && st.inTbody && !st.inRow && !st.inCell && !st.inX
    ensures NoRow(Run(num, st, Events(f))) == NoRow(st.(out := EmitAll(num, st.out, BodyRows(f))))
    decreases f
  {
    match f
    case Empty =>
    case Words(text, rest) =>
      RunWords(num, st, text, rest);
      RunBody(num, st, rest);
    case Elem(tag, kids, rest) =>
      if tag == X {
        RunX(num, st, kids, rest);
        RunBody(num, st, rest);
        Nothing(BodyRows(rest));
      } else {
        RunElem(num, st, tag, kids, rest);
        var mid := OnEnd(num, Run(num, OnStart(st, tag), Events(kids)), tag);
        if tag == Tr {
          RunRow(num, OnStart(st, tag), kids);
          Nothing(RowCells(kids));
        } else {
          RunBody(num, st, kids);
        }
        var here := if tag != Tr then BodyRows(kids) else if RowCells(kids) == [] then [] else [RowCells(kids)];
        assert mid.out == EmitAll(num, st.out, here);
        RunBody(num, mid, rest);
        EmitAppend(num, st.out, here, BodyRows(rest));
      }
  }

  lemma {:induction false} RunOutside(num: Numbers, st: Scan, f: Forest)
    requires WellNested(f, Outside) && !st.inTbody && !st.inRow && !st.inCell && !st.inX
    ensures NoRow(Run(num, st, Events(f))) == NoRow(st.(out := EmitAll(num, st.out, TableRows(f))))
    decreases f
  {
    match f
    case Empty =>
    case Words(text, rest) =>
      RunWords(num, st, text, rest);
      RunOutside(num, st, rest);
    case Elem(tag, kids, rest) =>
      if tag == X {
        RunX(num, st, kids, rest);
        RunOutside(num, st, rest);
        Nothing(TableRows(rest));
      } else {
        RunElem(num, st, tag, kids, rest);
        var mid := OnEnd(num, Run(num, OnStart(st, tag), Events(kids)), tag);
        if tag == Tbody {
          RunBody(num, OnStart(st, tag), kids);
        } else {
          RunOutside(num, st, kids);
        }
        var here := if tag == Tbody then BodyRows(kids) else TableRows(kids);
        RunOutside(num, mid, rest);
        EmitAppend(num, st.out, here, TableRows(rest));
      }
  }

  /**
   * The streaming handlers refine the table: over the events of every well-nested document they emit exactly its
   * non-empty body rows, in order, each with its cells' text minus the currency labels.
   */
  lemma HandlersReadTheTable(num: Numbers, draws: seq<string>, f: Forest)
    requires WellNested(f, Outside)
    ensures Run(num, Initial(draws), Events(f)).out == EmitAll(num, Initial(draws).out, TableRows(f))
  {
    RunOutside(num, Initial(draws), f);
  }

  /**
   * From document to items: while the draws last, the handlers make, of every well-nested document, one item for each
   * non-empty body row that is no placeholder, in document order, each of its own cells.
   */
  lemma TableItems(num: Numbers, draws: seq<string>, f: Forest)
    requires WellNested(f, Outside)
    ensures var out := Run(num, Initial(draws), Events(f)).out;
            !out.spinning ==> ItemCodes.AllMade(num, draws, ItemCodes.Kept(TableRows(f)), out.items, 0)
  {
    HandlersReadTheTable(num, draws, f);
    if !Run(num, Initial(draws), Events(f)).out.spinning {
      ItemCodes.EmitAllExact(num, Initial(draws).out, TableRows(f));
    }
  }

  // ----- every emitted item is printable -----

  /** The only white space left is the plain blank. */
  predicate Blanks(s: string) {
    forall c :: c in s && PySpace(c) ==> c == ' '
  }

  lemma {:induction false} CollapseBlanks(s: string)
    ensures Blanks(Collapse(s))
    decreases |s|
  {
    if s != "" {
      if PySpace(s[0]) {
        StripLeftFacts(s[1..], PySpace);
        CollapseBlanks(StripLeft(s[1..], PySpace));
      } else {
        CollapseBlanks(s[1..]);
      }
    }
  }

  lemma NormalizeClean(s: string)
    ensures Clean(Normalize(s)) && Blanks(Normalize(s))
  {
    CollapseBlanks(s);
    StripTrims(Collapse(s), PySpace);
  }

  predicate NoSpaces(s: string) {
    forall c :: c in s ==> !PySpace(c)
  }

  lemma NoSpacesClean(s: string)
    requires NoSpaces(s)
    ensures Clean(s)
  {
    assert s != "" ==> s[0] in s && s[|s| - 1] in s;
  }

  lemma {:induction false} WithoutSpacesHasNone(s: string)
    requires Blanks(s)
    ensures NoSpaces(WithoutSpaces(s))
  {
    if s != "" {
      assert s == [s[0]] + s[1..];
      WithoutSpacesHasNone(s[1..]);
    }
  }

  lemma {:induction false} StoredCodeNoSpaces(s: string)
    requires NoSpaces(s)
    ensures NoSpaces(WithoutLeadingZeros(s)) && NoSpaces(StoredCode(s))
  {
    if |s| > 1 && s[0] == '0' {
      StoredCodeNoSpaces(s[1..]);
    }
  }

  ghost predicate PrintsClean(num: Numbers) {
    forall t :: Clean(Printed(num.price(t))) && Clean(num.unit(t))
  }

  predicate ItemClean(item: Item) {
    forall j :: 0 <= j < |OUTPUT_FIELDS| ==> Clean(Row(item)[j])
  }

  /** Only clean items, and only draws of digits. */
  predicate Printable(out: Output) {
    (forall i :: 0 <= i < |out.items| ==> ItemClean(out.items[i])) &&
    (forall i :: 0 <= i < |out.draws| ==> Digits(out.draws[i]))
  }

  lemma RowClean(item: Item)
    requires Clean(Printed(item.category)) && Clean(Printed(item.name)) && Clean(Printed(item.code))
    requires Clean(Printed(item.price)) && Clean(Printed(item.cost)) && Clean(Printed(item.supplier))
    requires Clean(Printed(item.unit))
    ensures ItemClean(item)
  {
  }

  lemma ColumnClean(cells: seq<string>, j: nat)
    requires j < COLUMN_COUNT
    ensures Clean(Columns(cells)[j]) && Clean(Printed(OrNone(Columns(cells)[j])))
  {
    NormalizeClean(if j < |cells| then cells[j] else "");
  }

  lemma ItemFromClean(num: Numbers, cells: seq<string>, code: string)
    requires PrintsClean(num) && NoSpaces(code)
    ensures ItemClean(ItemFrom(num, Columns(cells), code))
  {
    var row := Columns(cells);
    ColumnClean(cells, 0);
    ColumnClean(cells, 1);
    ColumnClean(cells, 10);
    StoredCodeNoSpaces(code);
    NoSpacesClean(StoredCode(code));
    assert Clean(Printed(num.price(row[6]))) && Clean(Printed(num.price(row[7]))) && Clean(num.unit(row[4]));
    RowClean(ItemFrom(num, row, code));
  }

  lemma EmitPrintable(num: Numbers, out: Output, cells: seq<string>)
    requires PrintsClean(num) && Printable(out)
    ensures Printable(Emit(num, out, cells))
  {
    var row := Columns(cells);
    NormalizeClean(if 2 < |cells| then cells[2] else "");
    WithoutSpacesHasNone(row[2]);
    var code := WithoutSpaces(row[2]);
    var next := NextCode(out.draws, out.seen);
    if code != "" {
      ItemFromClean(num, cells, code);
    } else if next.Some? {
      assert Digits(next.value.0);
      ItemFromClean(num, cells, next.value.0);
    }
  }

  lemma StepPrintable(num: Numbers, st: Scan, e: Event)
    requires PrintsClean(num) && Printable(st.out)
    ensures Printable(Step(num, st, e).out)
  {
    if e.End? {
      if e.tag == Tr && st.inRow && st.cells != [] {
        EmitPrintable(num, st.out, st.cells);
      } else {
        EndWithoutRow(num, st, e.tag);
      }
    }
  }

  /** Whatever the event stream, every item the handlers emit is trimmed and on one line in each column. */
  lemma {:induction false} RunPrintable(num: Numbers, st: Scan, es: seq<Event>)
    requires PrintsClean(num) && Printable(st.out)
    ensures Printable(Run(num, st, es).out)
    decreases |es|
  {
    if es != [] {
      StepPrintable(num, st, es[0]);
      RunPrintable(num, Step(num, st, es[0]), es[1..]);
    }
  }

  /**
   * From table to spreadsheet: the items of any well-nested document, printed, sanitized and parsed, are the emitted
   * rows with every inch mark read as an apostrophe, exactly when every row survives the repair.
   */
  lemma TableToSpreadsheet(num: Numbers, draws: seq<string>, f: Forest)
    requires WellNested(f, Outside) && PrintsClean(num)
    requires forall i :: 0 <= i < |draws| ==> Digits(draws[i])
    ensures var items := Run(num, Initial(draws), Events(f)).out.items;
            items == EmitAll(num, Initial(draws).out, TableRows(f)).items &&
            (Parsed(Sanitizer.Sanitized(Encoded(items))) ==
             Ok(OUTPUT_FIELDS, ToonRoundTrip.ApostropheRows(Rows(items))) <==>
             ToonSurvival.AllSurvive(Rows(items)))
  {
    HandlersReadTheTable(num, draws, f);
    RunPrintable(num, Initial(draws), Events(f));
    PrintableSurvives(Run(num, Initial(draws), Events(f)).out.items);
  }

  lemma PrintableSurvives(items: seq<Item>)
    requires forall i :: 0 <= i < |items| ==> ItemClean(items[i])
    ensures Parsed(Sanitizer.Sanitized(Encoded(items))) ==
            Ok(OUTPUT_FIELDS, ToonRoundTrip.ApostropheRows(Rows(items))) <==>
            ToonSurvival.AllSurvive(Rows(items))
  {
    RowsClean(items);
    ToonSurvival.PipelineExact(items);
  }

  lemma RowsClean(items: seq<Item>)
    requires forall i :: 0 <= i < |items| ==> ItemClean(items[i])
    ensures ToonRoundTrip.AllFields(Rows(items), Clean)
  {
    var rows := Rows(items);
    forall i, j | 0 <= i < |rows| && 0 <= j < |rows[i]| ensures Clean(rows[i][j]) {
      assert ItemClean(items[i]);
    }
  }
}
