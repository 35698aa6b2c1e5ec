/**
 * Printer, sanitizer and parser together: what survives a trip through the .toon format.
 */
module ToonPipeline {
  import opened Text
  import opened ToonPrinter
  import opened ToonParser

  // ----- the parser inverts quoted and bare cells -----

  function Doubled(v: string): string {
    if v == "" then "" else (if v[0] == '"' then ['"', '"'] else [v[0]]) + Doubled(v[1..])
  }

  /** A field in the quoted form of section 2 of RFC 4180. */
  function Quoted(v: string): string {
    ['"'] + Doubled(v) + ['"']
  }

  predicate Plain(v: string) {
    '"' !in v && ',' !in v
  }

  /** The cell text `p` stands for the value `v`. */
  predicate Denotes(p: string, v: string) {
    (p == v && Plain(v)) || p == Quoted(v)
  }

  lemma {:induction false} DoubledPlain(v: string)
    requires '"' !in v
    ensures Doubled(v) == v
  {
    if v != "" {
      DoubledPlain(v[1..]);
    }
  }

  lemma SnocTail(a: string, b: string)
    requires b != ""
    ensures a + [b[0]] + b[1..] == a + b
  {
  }

  lemma {:induction false} FieldsBare(v: string, t: string, current: string)
    requires Plain(v)
    ensures Fields(v + t, current, false) == Fields(t, current + v, false)
  {
    if v == "" {
      assert v + t == t && current + v == current;
    } else {
      TailAppend(v, t);
      FieldsBare(v[1..], t, current + [v[0]]);
      SnocTail(current, v);
    }
  }

  lemma {:induction false} FieldsInside(v: string, t: string, current: string)
    requires t == "" || t[0] != '"'
    ensures Fields(Doubled(v) + ['"'] + t, current, true) == Fields(t, current + v, false)
  {
    var s := Doubled(v) + ['"'] + t;
    if v == "" {
      assert s == ['"'] + t && s[1..] == t && current + v == current;
    } else {
      var rest := Doubled(v[1..]) + ['"'] + t;
      FieldsInside(v[1..], t, current + [v[0]]);
      SnocTail(current, v);
      if v[0] == '"' {
        assert s == ['"', '"'] + rest;
        assert s[0] == '"' && s[1] == '"' && s[2..] == rest;
        assert Fields(s, current, true) == Fields(rest, current + ['"'], true);
      } else {
        assert s == [v[0]] + rest;
        assert s[0] == v[0] && s[1..] == rest;
        assert Fields(s, current, true) == Fields(rest, current + [v[0]], true);
      }
    }
  }

  lemma FieldsCell(p: string, v: string, t: string)
    requires Denotes(p, v)
    requires t == "" || t[0] == ','
    ensures Fields(p + t, "", false) == Fields(t, v, false)
  {
    if p == v && Plain(v) {
      FieldsBare(v, t, "");
      assert "" + v == v;
    } else {
      FieldsQuoted(v, t);
    }
  }

  lemma FieldsQuoted(v: string, t: string)
    requires t == "" || t[0] != '"'
    ensures Fields(Quoted(v) + t, "", false) == Fields(t, v, false)
  {
    var inside := Doubled(v) + ['"'] + t;
    assert Quoted(v) + t == ['"'] + inside;
    assert (['"'] + inside)[0] == '"' && (['"'] + inside)[1..] == inside;
    FieldsInside(v, t, "");
    assert "" + v == v;
  }

  /** Reading a row of cells gives the trimmed values they stand for, one for each. */
  lemma {:induction false} FieldsRow(ps: seq<string>, vs: seq<string>)
    requires |ps| == |vs| > 0 && forall i :: 0 <= i < |ps| ==> Denotes(ps[i], vs[i])
    ensures Fields(Join(ps, ','), "", false) == Map(PyStrip, vs)
  {
    if |ps| == 1 {
      assert ps[0] + "" == ps[0];
      FieldsCell(ps[0], vs[0], "");
    } else {
      var rest := Join(ps[1..], ',');
      assert ps[0] + [','] + rest == ps[0] + ([','] + rest);
      FieldsCell(ps[0], vs[0], [','] + rest);
      assert ([','] + rest)[1..] == rest;
      FieldsRow(ps[1..], vs[1..]);
      assert Map(PyStrip, vs) == [PyStrip(vs[0])] + Map(PyStrip, vs[1..]);
    }
  }

  /** The field loop inverts the quoted form: for every non-empty list of values, up to trimming. */
  lemma QuotedRoundTrip(vs: seq<string>)
    requires vs != []
    ensures ParseLines([Join(Map(Quoted, vs), ',')]) == [Map(PyStrip, vs)]
  {
    var ps := Map(Quoted, vs);
    FieldsRow(ps, vs);
    var line := Join(ps, ',');
    JoinTrimmed(ps);
    StripTrims(line, PySpace);
    assert [line][..0] == [];
  }

  lemma {:induction false} JoinTrimmed(ps: seq<string>)
    requires |ps| > 0 && forall i :: 0 <= i < |ps| ==> Trimmed(ps[i], PySpace)
    ensures Trimmed(Join(ps, ','), PySpace)
    ensures |ps| > 1 || ps[0] != "" ==> Join(ps, ',') != ""
  {
    if |ps| > 1 {
      JoinTrimmed(ps[1..]);
      var rest := Join(ps[1..], ',');
      var line := ps[0] + [','] + rest;
      assert line[0] == if ps[0] == "" then ',' else ps[0][0];
      assert line[|line| - 1] == if rest == "" then ',' else rest[|rest| - 1];
    }
  }

  lemma {:induction false} JoinNoBreak(ps: seq<string>)
    requires forall i :: 0 <= i < |ps| ==> NoBreak(ps[i])
    ensures NoBreak(Join(ps, ','))
  {
    if |ps| > 1 {
      JoinNoBreak(ps[1..]);
    }
  }

  // ----- a whole document -----

  predicate LineLike(l: string) {
    l != "" && NoBreak(l) && Trimmed(l, PySpace)
  }

  lemma FirstBreakAt(a: string, b: string)
    requires NoBreak(a)
    ensures FirstBreak(a + ['\n'] + b) == |a| && FirstBreak(a) == |a|
  {
    var s := a + ['\n'] + b;
    assert s[|a|] == '\n';
    assert forall i :: 0 <= i < |a| ==> s[i] == a[i] && a[i] in a;
  }

  lemma {:induction false} DigitRunOf(d: string, t: string)
    requires forall c :: c in d ==> Digit(c)
    requires t != "" && !Digit(t[0])
    ensures DigitRun(d + t) == |d|
  {
    if d == "" {
      assert d + t == t;
    } else {
      TailAppend(d, t);
      DigitRunOf(d[1..], t);
    }
  }

  lemma HeaderGroupOf(d: string, names: string)
    requires d != "" && forall c :: c in d ==> Digit(c)
    requires names != ""
    ensures HeaderGroup(HeaderOf(d, names)) == Some(names)
  {
    assert names + "}:" + "" == names + "}:";
    assert forall i :: 0 <= i < |d| ==> d[i] in d;
    assert forall j :: |names| < j ==> !ClosesAt(names + "}:" + "", j);
    SpelledIsRead(HeaderOf(d, names), d, ",", names, "");
  }

  predicate ListChars(s: string) {
    forall i :: 0 <= i < |s| ==> 'a' <= s[i] <= 'z' || s[i] == ','
  }

  predicate Lowercase(f: string) {
    f != "" && forall i :: 0 <= i < |f| ==> 'a' <= f[i] <= 'z'
  }

  lemma CommaListJoins(n: seq<string>)
    requires |n| == 7
    ensures CommaList(n) == Join(n, ',')
  {
    assert n[1..][1..] == n[2..] && n[2..][1..] == n[3..] && n[3..][1..] == n[4..] && n[4..][1..] == n[5..];
    assert n[5..][1..] == n[6..];
    assert Join(n[6..], ',') == n[6];
    assert Join(n[5..], ',') == n[5] + [','] + n[6];
    assert Join(n[4..], ',') == n[4] + [','] + (n[5] + [','] + n[6]);
    assert Join(n[3..], ',') == n[3] + [','] + (n[4] + [','] + (n[5] + [','] + n[6]));
    assert Join(n[2..], ',') == n[2] + [','] + (n[3] + [','] + (n[4] + [','] + (n[5] + [','] + n[6])));
    assert Join(n[1..], ',') ==
           n[1] + [','] + (n[2] + [','] + (n[3] + [','] + (n[4] + [','] + (n[5] + [','] + n[6]))));
  }

  lemma LowercaseFacts(f: string)
    requires Lowercase(f)
    ensures ',' !in f && PyStrip(f) == f
  {
    StripTrims(f, PySpace);
  }

  lemma StripAll(n: seq<string>)
    requires forall i :: 0 <= i < |n| ==> PyStrip(n[i]) == n[i]
    ensures Map(PyStrip, n) == n
  {
  }

  lemma NamesRead(n: seq<string>)
    requires |n| > 0 && forall i :: 0 <= i < |n| ==> Lowercase(n[i])
    ensures Map(PyStrip, Split(Join(n, ','), ',')) == n
  {
    forall i | 0 <= i < |n| ensures ',' !in n[i] && PyStrip(n[i]) == n[i] {
      LowercaseFacts(n[i]);
    }
    StripAll(n);
    SplitJoin(n, ',');
  }

  lemma HeaderLineLike(d: string, names: string)
    requires NoBreak(d) && NoBreak(names) && '"' !in d && '"' !in names
    ensures LineLike(HeaderOf(d, names)) && '"' !in HeaderOf(d, names)
  {
    var h := HeaderOf(d, names);
    assert h[0] == 'i' && h[|h| - 1] == ':';
    forall c | c in h ensures !PyBreak(c) && c != '"' {
      assert c in "items[" || c in d || c in ",]{" || c in names || c in "}:";
    }
  }

  lemma HeaderOfReads(d: string, n: seq<string>, list: string)
    requires d != "" && forall c :: c in d ==> Digit(c)
    requires |n| == 7 && list == CommaList(n) && forall i :: 0 <= i < 7 ==> Lowercase(n[i])
    ensures LineLike(HeaderOf(d, list)) && '"' !in HeaderOf(d, list) && HeaderFields(HeaderOf(d, list)) == Some(n)
  {
    CommaListChars(n);
    HeaderLineLike(d, list);
    HeaderGroupOf(d, list);
    CommaListJoins(n);
    NamesRead(n);
  }

  lemma CommaListChars(n: seq<string>)
    requires |n| == 7 && forall i :: 0 <= i < 7 ==> Lowercase(n[i])
    ensures ListChars(CommaList(n)) && CommaList(n) != ""
  {
    ListCharsCons(n[5], n[6]);
    var r := n[5] + [','] + n[6];
    ListCharsCons(n[4], r);
    r := n[4] + [','] + r;
    ListCharsCons(n[3], r);
    r := n[3] + [','] + r;
    ListCharsCons(n[2], r);
    r := n[2] + [','] + r;
    ListCharsCons(n[1], r);
    r := n[1] + [','] + r;
    ListCharsCons(n[0], r);
  }

  lemma ListCharsCons(f: string, rest: string)
    requires Lowercase(f) && ListChars(rest)
    ensures ListChars(f + [','] + rest)
  {
  }

  lemma FieldNamesLowercase()
    ensures |OUTPUT_FIELDS| == 7 && forall i :: 0 <= i < 7 ==> Lowercase(OUTPUT_FIELDS[i])
  {
    assert Lowercase("category") && Lowercase("name") && Lowercase("code") && Lowercase("price");
    assert Lowercase("cost") && Lowercase("supplier") && Lowercase("unit");
  }

  /**
   * The header every file is printed with: one trimmed line without quotes, read back as the field names and the count.
   */
  lemma HeaderReads(n: nat)
    ensures LineLike(Header(n)) && '"' !in Header(n)
    ensures HeaderCount(Header(n)) == n
    ensures HeaderFields(Header(n)) == Some(OUTPUT_FIELDS)
  {
    FieldNamesLowercase();
    HeaderOfReads(Decimal(n), OUTPUT_FIELDS, FIELD_LIST);
    HeaderCountOf(Decimal(n), FIELD_LIST);
    NumberOfDecimal(n);
  }

  /** The number of items a header announces. */
  function HeaderCount(line: string): int {
    if |line| < 6 then 0 else Number(line[6..][..DigitRun(line[6..])])
  }

  lemma HeaderCountOf(d: string, names: string)
    requires forall c :: c in d ==> Digit(c)
    ensures HeaderCount(HeaderOf(d, names)) == Number(d)
  {
    var t := "," + ("]{" + (names + "}:"));
    Cut("items[", d + t);
    Cut(d, t);
    DigitRunOf(d, t);
  }

  lemma ParseLast(ls: seq<string>)
    requires ls != [] && LineLike(ls[|ls| - 1])
    ensures ParseLines(ls) == ParseLines(ls[..|ls| - 1]) + [Fields(ls[|ls| - 1], "", false)]
  {
    StripTrims(ls[|ls| - 1], PySpace);
  }

  /** The rows of a list of lines, line by line. */
  lemma {:induction false} ParseLinesOf(ls: seq<string>)
    requires forall i :: 0 <= i < |ls| ==> LineLike(ls[i])
    ensures |ParseLines(ls)| == |ls|
    ensures forall i :: 0 <= i < |ls| ==> ParseLines(ls)[i] == Fields(ls[i], "", false)
  {
    if ls != [] {
      ParseLast(ls);
      ParseLinesOf(ls[..|ls| - 1]);
    }
  }

  lemma ParsedFromLines(text: string, lines: seq<string>, names: seq<string>)
    requires SplitLines(PyStrip(text)) == lines && lines != [] && HeaderFields(lines[0]) == Some(names)
    ensures Parsed(text) == Ok(names, ParseLines(lines[1..]))
  {
  }


  // ----- exactly which headers are read -----

  lemma AfterIff(s: string, prefix: string, rest: string)
    ensures After(s, prefix) == Some(rest) <==> s == prefix + rest
  {
    Cut(prefix, rest);
    if prefix <= s {
      assert s == prefix + s[|prefix|..];
    }
  }

  predicate AllDigits(d: string) {
    d != "" && forall i :: 0 <= i < |d| ==> Digit(d[i])
  }

  lemma CountRead(d: string, comma: string, t: string)
    requires AllDigits(d) && (comma == "" || comma == ",") && t != "" && t[0] == ']'
    ensures AfterCount(d + (comma + t)) == Some(t)
  {
    var u := comma + t;
    assert u[0] == if comma == "" then ']' else ',';
    DigitRunOf(d, u);
    Cut(d, u);
    Cut(comma, t);
    assert (d + u)[|d|] == u[0] && (d + u)[|d| + 1..] == u[1..];
  }

  lemma CountSpelled(s: string) returns (d: string, comma: string)
    requires AfterCount(s).Some?
    ensures AllDigits(d) && (comma == "" || comma == ",") && s == d + (comma + AfterCount(s).value)
  {
    var k := DigitRun(s);
    d := s[..k];
    comma := if k < |s| && s[k] == ',' then "," else "";
    assert s[k..] == comma + AfterCount(s).value;
    assert s == d + s[k..];
  }

  predicate ClosesAt(s: string, j: int) {
    0 <= j && j + 1 < |s| && s[j] == '}' && s[j + 1] == ':'
  }

  lemma {:induction false} GroupEndIff(s: string, k: nat, e: nat)
    requires k + 1 < |s|
    ensures GroupEnd(s, k) == Some(e) <==> 1 <= e <= k && ClosesAt(s, e) && forall j :: e < j <= k ==> !ClosesAt(s, j)
    decreases k
  {
    assert ClosesAt(s, k) <==> s[k] == '}' && s[k + 1] == ':';
    if k > 0 {
      GroupEndIff(s, k - 1, e);
    }
  }

  /** The text is a group with its closing and what follows, in which nothing closes it again. */
  ghost predicate GroupSpelled(s: string, group: string, rest: string) {
    s == group + "}:" + rest && group != "" && forall j :: |group| < j ==> !ClosesAt(s, j)
  }

  lemma GroupRead(s: string, group: string, rest: string)
    requires GroupSpelled(s, group, rest)
    ensures Group(s) == Some(group)
  {
    assert s[|group|] == '}' && s[|group| + 1] == ':' && s[..|group|] == group;
    GroupEndIff(s, |s| - 2, |group|);
  }

  lemma GroupFound(s: string) returns (rest: string)
    requires Group(s).Some?
    ensures GroupSpelled(s, Group(s).value, rest)
  {
    var e := GroupEnd(s, |s| - 2).value;
    GroupEndIff(s, |s| - 2, e);
    rest := s[e + 2..];
    SplitAtClosing(s, e);
    forall j | e < j ensures !ClosesAt(s, j) {
      if j <= |s| - 2 {
        assert !ClosesAt(s, j);
      }
    }
  }

  lemma SplitAtClosing(s: string, e: nat)
    requires ClosesAt(s, e)
    ensures s == s[..e] + "}:" + s[e + 2..] && |s[..e]| == e
  {
  }

  /**
   * The line is `items[`, digits, an optional comma, `]{`, the group, `}:` and whatever follows, and nothing after the
   * group closes it again.
   */
  ghost predicate HeaderSpelled(line: string, digits: string, comma: string, group: string, rest: string) {
    line == "items[" + (digits + (comma + ("]{" + (group + "}:" + rest)))) &&
    AllDigits(digits) && (comma == "" || comma == ",") && GroupSpelled(group + "}:" + rest, group, rest)
  }

  lemma SpelledIsRead(line: string, digits: string, comma: string, group: string, rest: string)
    requires HeaderSpelled(line, digits, comma, group, rest)
    ensures HeaderGroup(line) == Some(group)
  {
    var g := group + "}:" + rest;
    AfterIff(line, "items[", digits + (comma + ("]{" + g)));
    CountRead(digits, comma, "]{" + g);
    AfterIff("]{" + g, "]{", g);
    GroupRead(g, group, rest);
  }

  lemma ReadIsSpelled(line: string) returns (digits: string, comma: string, rest: string)
    requires HeaderGroup(line).Some?
    ensures HeaderSpelled(line, digits, comma, HeaderGroup(line).value, rest)
  {
    var s := After(line, "items[").value;
    AfterIff(line, "items[", s);
    digits, comma := CountSpelled(s);
    var t := AfterCount(s).value;
    var g := After(t, "]{").value;
    AfterIff(t, "]{", g);
    rest := GroupFound(g);
  }

  /** A line is read as a header with this group exactly when it is so spelled. */
  lemma HeaderGroupIff(line: string, group: string)
    ensures HeaderGroup(line) == Some(group) <==>
            exists digits, comma, rest :: HeaderSpelled(line, digits, comma, group, rest)
  {
    if HeaderGroup(line) == Some(group) {
      var digits, comma, rest := ReadIsSpelled(line);
      assert HeaderSpelled(line, digits, comma, group, rest);
    }
    if digits, comma, rest :| HeaderSpelled(line, digits, comma, group, rest) {
      SpelledIsRead(line, digits, comma, group, rest);
    }
  }
}
