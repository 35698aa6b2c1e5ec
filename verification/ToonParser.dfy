/** scripts/toon_to_excel.py, `parse_toon`: header, lines and the quote-aware field loop. */
module ToonParser {
  import opened Text

  datatype ParseError = EmptyFile | InvalidHeader(line: string)
  datatype Result = Ok(headers: seq<string>, rows: seq<seq<string>>) | Err(error: ParseError)

  function PyStrip(s: string): string {
    Strip(s, PySpace)
  }

  // ----- lines -----

  function FirstBreak(s: string): (k: nat)
    ensures k <= |s| && forall i :: 0 <= i < k ==> !PyBreak(s[i])
    ensures k < |s| ==> PyBreak(s[k])
  {
    if s == "" || PyBreak(s[0]) then 0 else
      var k := 1 + FirstBreak(s[1..]);
      assert forall i :: 1 <= i < k ==> s[i] == s[1..][i - 1];
      k
  }

  /** `str.splitlines`: a carriage return with its line feed ends one line, and no empty last line is added. */
  function SplitLines(s: string): seq<string> {
    var k := FirstBreak(s);
    if k == |s| then (if s == "" then [] else [s])
    else if s[k] == '\r' && k + 1 < |s| && s[k + 1] == '\n' then [s[..k]] + SplitLines(s[k + 2..])
    else [s[..k]] + SplitLines(s[k + 1..])
  }

  // ----- header: items\[\d+,?\]\{(.+)\}: -----

  function DigitRun(s: string): (k: nat)
    ensures k <= |s| && (forall i :: 0 <= i < k ==> Digit(s[i])) && (k < |s| ==> !Digit(s[k]))
  {
    if s != "" && Digit(s[0]) then
      var k := 1 + DigitRun(s[1..]);
      assert forall i :: 1 <= i < |s| ==> s[i] == s[1..][i - 1];
      k
    else 0
  }

  /** The greedy group ends at the last closing brace with a colon that leaves it non-empty. */
  function GroupEnd(s: string, k: nat): (r: Option<nat>)
    requires k + 1 < |s|
    ensures r.Some? ==> 1 <= r.value <= k
    decreases k
  {
    if k == 0 then None else if s[k] == '}' && s[k + 1] == ':' then Some(k) else GroupEnd(s, k - 1)
  }

  /** What follows a prefix. */
  function After(s: string, prefix: string): Option<string> {
    if prefix <= s then Some(s[|prefix|..]) else None
  }

  /** What follows the count and its optional comma. */
  function AfterCount(s: string): Option<string> {
    var d := DigitRun(s);
    if d == 0 then None else if d < |s| && s[d] == ',' then Some(s[d + 1..]) else Some(s[d..])
  }

  function Group(s: string): Option<string> {
    if |s| < 2 then None
    else
      var e := GroupEnd(s, |s| - 2);
      if e.None? then None else Some(s[..e.value])
  }

  function HeaderGroup(line: string): Option<string> {
    var s := After(line, "items[");
    if s.None? then None else
      var t := AfterCount(s.value);
      if t.None? then None else
        var g := After(t.value, "]{");
        if g.None? then None else Group(g.value)
  }

  function HeaderFields(line: string): Option<seq<string>> {
    var group := HeaderGroup(line);
    if group.None? then None else Some(Map(PyStrip, Split(group.value, ',')))
  }

  // ----- fields -----

  /** The field loop as a function of what is left of the line, the field so far and the quote flag. */
  function Fields(s: string, current: string, inQuotes: bool): seq<string>
    decreases |s|
  {
    if s == "" then [PyStrip(current)]
    else if s[0] == '"' && !inQuotes then Fields(s[1..], current, true)
    else if s[0] == '"' then
      if |s| > 1 && s[1] == '"' then Fields(s[2..], current + ['"'], true) else Fields(s[1..], current, false)
    else if s[0] == ',' && !inQuotes then [PyStrip(current)] + Fields(s[1..], "", false)
    else Fields(s[1..], current + [s[0]], inQuotes)
  }

  function ParseLines(lines: seq<string>): seq<seq<string>> {
    if lines == [] then []
    else
      var last := PyStrip(lines[|lines| - 1]);
      ParseLines(lines[..|lines| - 1]) + (if last == "" then [] else [Fields(last, "", false)])
  }

  function Parsed(text: string): Result {
    var lines := SplitLines(PyStrip(text));
    if lines == [] then Err(EmptyFile)
    else
      var headers := HeaderFields(lines[0]);
      if headers.None? then Err(InvalidHeader(lines[0])) else Ok(headers.value, ParseLines(lines[1..]))
  }

  method ParseFields(line: string) returns (fields: seq<string>)
    ensures fields == Fields(line, "", false)
  {
    fields := [];
    var current := "";
    var inQuotes := false;
    var i := 0;
    while i < |line|
      invariant 0 <= i <= |line|
      invariant fields + Fields(line[i..], current, inQuotes) == Fields(line, "", false)
    {
      var ch := line[i];
      assert line[i..][1..] == line[i + 1..];
      if ch == '"' && !inQuotes {
        inQuotes := true;
        i := i + 1;
        continue;
      } else if ch == '"' && inQuotes {
        if i + 1 < |line| && line[i + 1] == '"' {
          assert line[i..][2..] == line[i + 2..];
          current := current + ['"'];
          i := i + 2;
          continue;
        }
        inQuotes := false;
        i := i + 1;
        continue;
      } else if ch == ',' && !inQuotes {
        assert Fields(line[i..], current, inQuotes) == [PyStrip(current)] + Fields(line[i + 1..], "", false);
        fields := fields + [PyStrip(current)];
        current := "";
        i := i + 1;
        continue;
      } else {
        current := current + [ch];
        i := i + 1;
      }
    }
    assert line[i..] == "";
    fields := fields + [PyStrip(current)];
  }

  method ParseToon(text: string) returns (r: Result)
    ensures r == Parsed(text)
  {
    var lines := SplitLines(PyStrip(text));
    if lines == [] {
      return Err(EmptyFile);
    }
    var headers := HeaderFields(lines[0]);
    if headers.None? {
      return Err(InvalidHeader(lines[0]));
    }
    var rows := [];
    var body := lines[1..];
    for i := 0 to |body|
      invariant rows == ParseLines(body[..i])
    {
      assert body[..i + 1][..i] == body[..i];
      var line := PyStrip(body[i]);
      if line == "" {
        continue;
      }
      var fields := ParseFields(line);
      rows := rows + [fields];
    }
    assert body[..|body|] == body;
    r := Ok(headers.value, rows);
  }

  // ----- what every parse produces -----

  /** A field the parser can produce: trimmed, and on one line. */
  predicate Clean(f: string) {
    Trimmed(f, PySpace) && NoBreak(f)
  }

  predicate NoBreak(s: string) {
    forall c :: c in s ==> !PyBreak(c)
  }

  lemma {:induction false} FieldsClean(s: string, current: string, inQuotes: bool)
    requires NoBreak(s) && NoBreak(current)
    ensures forall f :: f in Fields(s, current, inQuotes) ==> Clean(f)
    decreases |s|
  {
    StripTrims(current, PySpace);
    if s == "" {
    } else if s[0] == '"' && !inQuotes {
      FieldsClean(s[1..], current, true);
    } else if s[0] == '"' {
      if |s| > 1 && s[1] == '"' {
        FieldsClean(s[2..], current + ['"'], true);
      } else {
        FieldsClean(s[1..], current, false);
      }
    } else if s[0] == ',' && !inQuotes {
      FieldsClean(s[1..], "", false);
    } else {
      FieldsClean(s[1..], current + [s[0]], inQuotes);
    }
  }

  lemma {:induction false} SplitLinesNoBreak(s: string)
    ensures forall l :: l in SplitLines(s) ==> NoBreak(l)
    decreases |s|
  {
    var k := FirstBreak(s);
    if k < |s| {
      SplitLinesNoBreak(s[k + 1..]);
      if k + 1 < |s| {
        SplitLinesNoBreak(s[k + 2..]);
      }
    }
  }

  lemma {:induction false} ParseLinesClean(lines: seq<string>)
    requires forall l :: l in lines ==> NoBreak(l)
    ensures forall r, f :: r in ParseLines(lines) && f in r ==> Clean(f)
  {
    if lines != [] {
      ParseLinesClean(lines[..|lines| - 1]);
      var last := lines[|lines| - 1];
      assert NoBreak(PyStrip(last)) by {
        assert last in lines;
        StripTrims(last, PySpace);
      }
      FieldsClean(PyStrip(last), "", false);
    }
  }

  /** Whatever the file holds, every field of every row comes out trimmed and without a line break. */
  lemma ParsedClean(text: string)
    ensures Parsed(text).Ok? ==> forall r, f :: r in Parsed(text).rows && f in r ==> Clean(f)
  {
    var lines := SplitLines(PyStrip(text));
    SplitLinesNoBreak(PyStrip(text));
    if lines != [] {
      ParseLinesClean(lines[1..]);
    }
  }

  function TotalCount(fields: seq<string>, c: char): nat {
    if fields == [] then 0 else Count(fields[0], c) + TotalCount(fields[1..], c)
  }

  /** The field loop drops quotes, separating commas and outer spaces, and nothing else. */
  lemma {:induction false} FieldsKeep(s: string, current: string, inQuotes: bool, c: char)
    requires c != '"' && c != ',' && !PySpace(c)
    ensures TotalCount(Fields(s, current, inQuotes), c) == Count(current, c) + Count(s, c)
    decreases |s|
  {
    CountStrip(current, PySpace, c);
    if s == "" {
    } else if s[0] == '"' && !inQuotes {
      FieldsKeep(s[1..], current, true, c);
    } else if s[0] == '"' {
      if |s| > 1 && s[1] == '"' {
        FieldsKeep(s[2..], current + ['"'], true, c);
        CountAppend(current, ['"'], c);
        assert s[1..][1..] == s[2..];
      } else {
        FieldsKeep(s[1..], current, false, c);
      }
    } else if s[0] == ',' && !inQuotes {
      FieldsKeep(s[1..], "", false, c);
    } else {
      FieldsKeep(s[1..], current + [s[0]], inQuotes, c);
      CountAppend(current, [s[0]], c);
    }
  }
}
