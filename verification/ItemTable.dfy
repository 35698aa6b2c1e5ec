/**
 * scripts/extract_items.py, `ItemTableParser`: the streaming handlers that turn table events into items.
 * Number parsing and formatting (`Numbers`) and the stream of random draws are inputs.
 */
module ItemTable {
  import opened Text
  import opened ToonPrinter
  import opened ToonParser

  datatype Tag = Tbody | Tr | Td | X | Other(name: string)
  datatype Event = Start(tag: Tag) | End(tag: Tag) | Data(text: string)

  /** `price` is `parse_number` printed by `str`; `unit` is the unit rule of `_emit_row` printed by `str`. */
  datatype Numbers = Numbers(price: string -> Option<string>, unit: string -> string)

  const COLUMN_COUNT := 14

  // ----- one row -----

  /** `re.sub(r"\s+", " ", v)`. */
  function Collapse(s: string): string
    decreases |s|
  {
    if s == "" then ""
    else if PySpace(s[0]) then
      StripLeftFacts(s[1..], PySpace);
      [' '] + Collapse(StripLeft(s[1..], PySpace))
    else [s[0]] + Collapse(s[1..])
  }

  function Normalize(s: string): string {
    PyStrip(Collapse(s))
  }

  /** The cells cut or padded to the column list, each with normalized whitespace. */
  function Columns(cells: seq<string>): (r: seq<string>)
    ensures |r| == COLUMN_COUNT
    ensures forall i :: 0 <= i < COLUMN_COUNT ==> r[i] == if i < |cells| then Normalize(cells[i]) else Normalize("")
  {
    seq(COLUMN_COUNT, i requires 0 <= i < COLUMN_COUNT => if i < |cells| then Normalize(cells[i]) else Normalize(""))
  }

  function WithoutSpaces(s: string): string {
    if s == "" then "" else (if s[0] == ' ' then "" else [s[0]]) + WithoutSpaces(s[1..])
  }

  predicate Digits(s: string) {
    s != "" && forall i :: 0 <= i < |s| ==> Digit(s[i])
  }

  /** `str(int(s))` for a text of digits. */
  function WithoutLeadingZeros(s: string): string {
    if |s| > 1 && s[0] == '0' then WithoutLeadingZeros(s[1..]) else s
  }

  function StoredCode(text: string): string {
    if Digits(text) then WithoutLeadingZeros(text) else text
  }

  function OrNone(v: string): Option<string> {
    if v == "" then None else Some(v)
  }

  /** The first draw that is no code seen before, with the draws that are left. */
  function NextCode(draws: seq<string>, seen: set<string>): (r: Option<(string, seq<string>)>)
    ensures r.Some? ==>
              var k := |draws| - |r.value.1| - 1;
              0 <= k < |draws| && r.value == (draws[k], draws[k + 1..]) && draws[k] !in seen &&
              forall i :: 0 <= i < k ==> draws[i] in seen
    ensures r.None? ==> forall d :: d in draws ==> d in seen
  {
    if draws == [] then None
    else if draws[0] !in seen then Some((draws[0], draws[1..]))
    else
      var r := NextCode(draws[1..], seen);
      if r.None? then None else
        var k := |draws| - |r.value.1| - 1;
        assert forall i :: 1 <= i < |draws| ==> draws[i] == draws[1..][i - 1];
        assert draws[1..][k..] == draws[k + 1..];
        r
  }

  /** Items so far, codes seen, random draws not yet made; `spinning` when the code loop has used up the draws. */
  datatype Output = Output(items: seq<Item>, seen: set<string>, draws: seq<string>, spinning: bool)

  function ItemFrom(num: Numbers, row: seq<string>, code: string): Item
    requires |row| == COLUMN_COUNT
  {
    Item(OrNone(row[0]), OrNone(row[1]), Some(StoredCode(code)), num.price(row[6]), num.price(row[7]), OrNone(row[10]),
         Some(num.unit(row[4])))
  }

  function WithItem(num: Numbers, out: Output, row: seq<string>, code: string): Output
    requires |row| == COLUMN_COUNT
  {
    out.(items := out.items + [ItemFrom(num, row, code)], seen := out.seen + {code})
  }

  /** `_emit_row`. */
  function Emit(num: Numbers, out: Output, cells: seq<string>): Output {
    var row := Columns(cells);
    if out.spinning || row[1] == "_undefined" then out
    else
      var code := WithoutSpaces(row[2]);
      if code != "" then WithItem(num, out, row, code)
      else
        var next := NextCode(out.draws, out.seen);
        if next.None? then out.(draws := [], spinning := true)
        else WithItem(num, out.(draws := next.value.1), row, next.value.0)
  }

  function EmitAll(num: Numbers, out: Output, rows: seq<seq<string>>): Output
    decreases |rows|
  {
    if rows == [] then out else EmitAll(num, Emit(num, out, rows[0]), rows[1..])
  }

  // ----- the handlers -----

  datatype Scan = Scan(
    inTbody: bool, inRow: bool, inCell: bool, inX: bool, cells: seq<string>, cellText: string, out: Output)

  function OnStart(st: Scan, tag: Tag): Scan {
    if tag == Tbody then st.(inTbody := true)
    else if tag == Tr && st.inTbody then st.(inRow := true, cells := [])
    else if tag == Td && st.inRow then st.(inCell := true, cellText := "")
    else if tag == X then st.(inX := true)
    else st
  }

  function OnEnd(num: Numbers, st: Scan, tag: Tag): Scan {
    if tag == Tbody then st.(inTbody := false)
    else if tag == Tr && st.inRow then
      st.(inRow := false, out := if st.cells != [] then Emit(num, st.out, st.cells) else st.out)
    else if tag == Td && st.inCell then st.(inCell := false, cells := st.cells + [PyStrip(st.cellText)])
    else if tag == X then st.(inX := false)
    else st
  }

  lemma EndWithRow(num: Numbers, st: Scan)
    requires st.inRow && st.cells != []
    ensures OnEnd(num, st, Tr).out == Emit(num, st.out, st.cells)
  {
  }

  lemma EndWithoutRow(num: Numbers, st: Scan, tag: Tag)
    requires !(tag == Tr && st.inRow && st.cells != [])
    ensures OnEnd(num, st, tag).out == st.out
  {
  }

  function Step(num: Numbers, st: Scan, e: Event): Scan {
    match e
    case Start(tag) => OnStart(st, tag)
    case End(tag) => OnEnd(num, st, tag)
    case Data(text) => if st.inCell && !st.inX then st.(cellText := st.cellText + text) else st
  }

  function Run(num: Numbers, st: Scan, es: seq<Event>): Scan
    decreases |es|
  {
    if es == [] then st else Run(num, Step(num, st, es[0]), es[1..])
  }

  /** Pad or truncate to the column count, then normalize each value. */
  method PadRow(cells: seq<string>) returns (row: seq<string>)
    ensures row == Columns(cells)
  {
    row := if |cells| <= COLUMN_COUNT then cells else cells[..COLUMN_COUNT];
    while |row| < COLUMN_COUNT
      invariant |row| <= COLUMN_COUNT
      invariant forall i :: 0 <= i < |row| ==> row[i] == if i < |cells| then cells[i] else ""
      invariant |row| == COLUMN_COUNT || |cells| <= |row|
    {
      row := row + [""];
    }
    row := Map(Normalize, row);
  }

  class ItemTableParser {
    const num: Numbers
    var items: seq<Item>
    var seenCodes: set<string>
    var draws: seq<string>
    var spinning: bool
    var inTbody: bool
    var inRow: bool
    var inCell: bool
    var inXTag: bool
    var cells: seq<string>
    var cellText: string

    ghost function Out(): Output
      reads this
    {
      Output(items, seenCodes, draws, spinning)
    }

    ghost function View(): Scan
      reads this
    {
      Scan(inTbody, inRow, inCell, inXTag, cells, cellText, Out())
    }

    constructor (num: Numbers, draws: seq<string>)
      ensures this.num == num
      ensures View() == Initial(draws)
    {
      this.num := num;
      items, seenCodes, this.draws, spinning := [], {}, draws, false;
      inTbody, inRow, inCell, inXTag := false, false, false, false;
      cells, cellText := [], "";
    }

    method HandleStartTag(tag: Tag)
      modifies this
      ensures View() == OnStart(old(View()), tag)
    {
      if tag == Tbody {
        inTbody := true;
      } else if tag == Tr && inTbody {
        inRow := true;
        cells := [];
      } else if tag == Td && inRow {
        inCell := true;
        cellText := "";
      } else if tag == X {
        inXTag := true;
      }
    }

    method HandleEndTag(tag: Tag)
      modifies this
      ensures View() == OnEnd(num, old(View()), tag)
    {
      if tag == Tbody {
        inTbody := false;
      } else if tag == Tr && inRow {
        inRow := false;
        if cells != [] {
          EmitRow();
        }
      } else if tag == Td && inCell {
        inCell := false;
        cells := cells + [PyStrip(cellText)];
      } else if tag == X {
        inXTag := false;
      }
    }

    method HandleData(data: string)
      modifies this
      ensures View() == Step(num, old(View()), Data(data))
    {
      if inCell && !inXTag {
        cellText := cellText + data;
      }
    }

    method EmitRow()
      modifies `items, `seenCodes, `draws, `spinning
      ensures Out() == Emit(num, old(Out()), cells)
    {
      var row := PadRow(cells);
      if spinning || row[1] == "_undefined" {
        return;
      }
      var code := WithoutSpaces(row[2]);
      if code == "" {
        var generated := GenerateRandomCode();
        if generated.None? {
          return;
        }
        code := generated.value;
      }
      seenCodes := seenCodes + {code};
      items := items + [ItemFrom(num, row, code)];
    }

    /** `_generate_random_code`; no result stands for a loop that is still drawing. */
    method GenerateRandomCode() returns (generated: Option<string>)
      modifies `draws, `spinning
      ensures var next := NextCode(old(draws), seenCodes);
              if next.None? then generated == None && draws == [] && spinning
              else generated == Some(next.value.0) && draws == next.value.1 && spinning == old(spinning)
    {
      while draws != []
        invariant NextCode(draws, seenCodes) == NextCode(old(draws), seenCodes)
        invariant spinning == old(spinning)
        decreases |draws|
      {
        var draw := draws[0];
        draws := draws[1..];
        if draw !in seenCodes {
          return Some(draw);
        }
      }
      spinning := true;
      generated := None;
    }

    method Feed(events: seq<Event>)
      modifies this
      ensures View() == Run(num, old(View()), events)
    {
      for i := 0 to |events|
        invariant Run(num, View(), events[i..]) == Run(num, old(View()), events)
      {
        assert events[i..][1..] == events[i + 1..];
        match events[i]
        case Start(tag) => HandleStartTag(tag);
        case End(tag) => HandleEndTag(tag);
        case Data(text) => HandleData(text);
      }
    }
  }

  function Initial(draws: seq<string>): Scan {
    Scan(false, false, false, false, [], "", Output([], {}, draws, false))
  }
}
