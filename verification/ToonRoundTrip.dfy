/** Encode then parse, with its exact limit, and what the repair makes of a printed line. */
module ToonRoundTrip {
  import opened Text
  import opened Sanitizer
  import opened ToonPrinter
  import opened ToonParser
  import opened ToonPipeline
  import opened ToonDocument

  predicate AllFields(rows: seq<seq<string>>, p: string -> bool) {
    forall i, j :: 0 <= i < |rows| && 0 <= j < |rows[i]| ==> p(rows[i][j])
  }

  // ----- lines of clean rows -----

  lemma EscapeClean(v: string)
    requires Clean(v)
    ensures Clean(Escape(v))
  {
    forall c | c in Escape(v) ensures !PyBreak(c) {
      if c != '\\' && c != '"' {
        EscapeHas(v, c);
      }
    }
    if '"' !in v {
      EscapeQuotesPlain(v);
    }
  }

  lemma CleanLine(ps: seq<string>)
    requires |ps| > 1 && forall i :: 0 <= i < |ps| ==> Clean(ps[i])
    ensures LineLike(Join(ps, ','))
  {
    JoinTrimmed(ps);
    JoinNoBreak(ps);
  }

  lemma PrintedLines(rows: seq<seq<string>>)
    requires AllFields(rows, Clean) && forall i :: 0 <= i < |rows| ==> |rows[i]| > 1
    ensures forall i :: 0 <= i < |rows| ==> LineLike(Lines(rows)[i])
  {
    forall i | 0 <= i < |rows| ensures LineLike(Lines(rows)[i]) {
      forall j | 0 <= j < |rows[i]| ensures Clean(Escape(rows[i][j])) {
        EscapeClean(rows[i][j]);
      }
      CleanLine(EscapeRow(rows[i]));
    }
  }

  lemma EncodedParses(items: seq<Item>)
    requires AllFields(Rows(items), Clean)
    ensures var ls := Lines(Rows(items));
            Parsed(Encoded(items)) == Ok(OUTPUT_FIELDS, ParseLines(ls)) && |ParseLines(ls)| == |items| &&
            forall i :: 0 <= i < |items| ==> ParseLines(ls)[i] == Fields(Line(Row(items[i])), "", false)
  {
    var ls := Lines(Rows(items));
    PrintedLines(Rows(items));
    HeaderReads(|items|);
    DocumentRows(Header(|items|), OUTPUT_FIELDS, ls);
    ParseLinesOf(ls);
  }

  // ----- encode, then parse -----

  lemma EscapeDenotes(v: string)
    requires '"' !in v
    ensures Denotes(Escape(v), v)
  {
    EscapeQuotesPlain(v);
    DoubledPlain(v);
  }

  lemma QuoteFreeRow(row: seq<string>)
    requires |row| > 0 && forall j :: 0 <= j < |row| ==> Clean(row[j]) && '"' !in row[j]
    ensures Fields(Line(row), "", false) == row
  {
    forall j | 0 <= j < |row| ensures Denotes(EscapeRow(row)[j], row[j]) && PyStrip(row[j]) == row[j] {
      EscapeDenotes(row[j]);
      StripTrims(row[j], PySpace);
    }
    FieldsRow(EscapeRow(row), row);
    StripAll(row);
  }

  /** Every quote of a row leaves one backslash more in its line. */
  lemma {:induction false} LineCount(row: seq<string>)
    ensures Count(Line(row), '\\') == TotalCount(row, '\\') + TotalCount(row, '"')
  {
    if row != [] {
      EscapeCount(row[0]);
      LineCount(row[1..]);
      if |row| > 1 {
        var rest := Line(row[1..]);
        assert EscapeRow(row)[1..] == EscapeRow(row[1..]);
        CountAppend(Escape(row[0]), [','], '\\');
        CountAppend(Escape(row[0]) + [','], rest, '\\');
        CountZero([','], '\\');
      } else {
        assert Line(row) == Escape(row[0]);
      }
    }
  }

  lemma {:induction false} TotalZero(row: seq<string>, c: char)
    requires TotalCount(row, c) == 0
    ensures forall j :: 0 <= j < |row| ==> c !in row[j]
  {
    if row != [] {
      CountZero(row[0], c);
      TotalZero(row[1..], c);
    }
  }

  /** A row read back unchanged held no quote: the parser keeps the backslash each quote was escaped with. */
  lemma UnchangedRowQuoteFree(row: seq<string>)
    requires Fields(Line(row), "", false) == row
    ensures forall j :: 0 <= j < |row| ==> '"' !in row[j]
  {
    LineCount(row);
    FieldsKeep(Line(row), "", false, '\\');
    TotalZero(row, '"');
  }

  predicate CleanWithoutQuote(f: string) {
    Clean(f) && '"' !in f
  }

  lemma QuoteFreeParses(items: seq<Item>)
    requires AllFields(Rows(items), CleanWithoutQuote)
    ensures Parsed(Encoded(items)) == Ok(OUTPUT_FIELDS, Rows(items))
  {
    var rows := Rows(items);
    forall i, j | 0 <= i < |rows| && 0 <= j < |rows[i]| ensures Clean(rows[i][j]) {
      assert CleanWithoutQuote(rows[i][j]);
    }
    EncodedParses(items);
    forall i | 0 <= i < |rows| ensures Fields(Line(rows[i]), "", false) == rows[i] {
      QuoteFreeRow(rows[i]);
    }
    assert ParseLines(Lines(rows)) == rows;
  }

  lemma UnchangedIsQuoteFree(items: seq<Item>)
    ensures Parsed(Encoded(items)) == Ok(OUTPUT_FIELDS, Rows(items)) ==> AllFields(Rows(items), CleanWithoutQuote)
  {
    var rows := Rows(items);
    if Parsed(Encoded(items)) == Ok(OUTPUT_FIELDS, rows) {
      ParsedClean(Encoded(items));
      forall i, j | 0 <= i < |rows| && 0 <= j < |rows[i]| ensures Clean(rows[i][j]) {
        assert rows[i] in rows && rows[i][j] in rows[i];
      }
      EncodedParses(items);
      forall i | 0 <= i < |rows| ensures forall j :: 0 <= j < |rows[i]| ==> '"' !in rows[i][j] {
        UnchangedRowQuoteFree(rows[i]);
      }
    }
  }

  /**
   * Parsing what was printed gives back every row exactly when each field is trimmed, on one line and free of
   * double quotes. No condition is put on the items.
   */
  lemma DirectRoundTripIff(items: seq<Item>)
    ensures Parsed(Encoded(items)) == Ok(OUTPUT_FIELDS, Rows(items)) <==> AllFields(Rows(items), CleanWithoutQuote)
  {
    if AllFields(Rows(items), CleanWithoutQuote) {
      QuoteFreeParses(items);
    }
    UnchangedIsQuoteFree(items);
  }

  // ----- encode, sanitize, then parse -----

  /** The value with every inch mark written as an apostrophe. */
  function Apostrophes(v: string): (r: string)
    ensures |r| == |v| && forall i :: 0 <= i < |v| ==> r[i] == if v[i] == '"' then '\'' else v[i]
  {
    seq(|v|, i requires 0 <= i < |v| => if v[i] == '"' then '\'' else v[i])
  }

  /** Each backslash that starts a pair is followed by something other than a quote. */
  predicate Paired(v: string) {
    v == "" ||
    (v[0] != '\\' && Paired(v[1..])) ||
    (|v| >= 2 && v[0] == '\\' && v[1] != '"' && Paired(v[2..]))
  }

  /** A value whose backslashes cannot be mistaken for the printer's own: never quoted, or with paired backslashes. */
  predicate WellEscaped(v: string) {
    Plain(v) || Paired(v)
  }

  /** What the cell of `v` reads after the repair. */
  function RepairedCell(v: string): string {
    var a := Apostrophes(v);
    if ',' in v then ['"'] + a + ['"'] else a
  }

  lemma {:induction false} NoBackslashPaired(v: string)
    requires '\\' !in v
    ensures Paired(v)
  {
    if v != "" {
      NoBackslashPaired(v[1..]);
    }
  }

  lemma {:induction false} EscapedTokens(v: string)
    requires Paired(v) && '\n' !in v
    ensures Tokens(EscapeQuotes(v))
    decreases |v|
  {
    var e := EscapeQuotes(v);
    if v == "" {
    } else if v[0] != '\\' {
      EscapedTokens(v[1..]);
      if v[0] == '"' {
        assert e[2..] == EscapeQuotes(v[1..]);
      } else {
        assert e[1..] == EscapeQuotes(v[1..]);
      }
    } else {
      EscapedTokens(v[2..]);
      assert v[1..][1..] == v[2..];
      assert EscapeQuotes(v[1..]) == [v[1]] + EscapeQuotes(v[2..]);
      assert e == [v[0]] + ([v[1]] + EscapeQuotes(v[2..]));
      assert e[2..] == EscapeQuotes(v[2..]);
    }
  }

  /** The replacement undoes the printer's escaping, up to the apostrophes; this needs no pairing. */
  lemma {:induction false} UnescapeEscaped(v: string)
    ensures Unescape(EscapeQuotes(v)) == Apostrophes(v)
    decreases |v|
  {
    if v != "" {
      var e, rest := EscapeQuotes(v), EscapeQuotes(v[1..]);
      UnescapeEscaped(v[1..]);
      assert Apostrophes(v) == [if v[0] == '"' then '\'' else v[0]] + Apostrophes(v[1..]);
      if v[0] == '"' {
        assert e[2..] == rest;
      } else {
        assert e[1..] == rest;
        assert rest == "" || rest[0] != '"';
      }
    }
  }

  lemma ApostrophesHave(v: string)
    ensures ',' in Apostrophes(v) <==> ',' in v
    ensures '"' !in Apostrophes(v)
    ensures '"' !in v ==> Apostrophes(v) == v
  {
    if ',' in v {
      var i :| 0 <= i < |v| && v[i] == ',';
      assert Apostrophes(v)[i] == ',';
    }
  }

  lemma ApostrophesClean(v: string)
    ensures Clean(Apostrophes(v)) <==> Clean(v)
  {
    var a := Apostrophes(v);
    if Clean(v) {
      forall c | c in a ensures !PyBreak(c) {
        var i :| 0 <= i < |a| && a[i] == c;
        assert v[i] in v;
      }
    }
    if Clean(a) {
      forall c | c in v ensures !PyBreak(c) {
        var i :| 0 <= i < |v| && v[i] == c;
        assert a[i] in a;
      }
    }
  }

  /** What a wrapped cell is replaced by: the repaired cell. */
  lemma ReplacementOfEscaped(v: string)
    ensures Replacement(EscapeQuotes(v)) == RepairedCell(v)
  {
    UnescapeEscaped(v);
    ApostrophesHave(v);
  }

  /** The repair rewrites the cell of a well-escaped value on its own, whatever follows. */
  lemma FixCell(v: string, t: string)
    requires WellEscaped(v) && '\n' !in v
    ensures Fix(Escape(v) + t) == RepairedCell(v) + Fix(t)
  {
    var e := EscapeQuotes(v);
    EscapeQuotesHas(v, ',');
    if Plain(v) {
      EscapeQuotesPlain(v);
      ApostrophesHave(v);
      FixPlain(v, t);
    } else {
      EscapedTokens(v);
      FixField(e, t);
      ReplacementOfEscaped(v);
    }
  }

  function RepairedRow(row: seq<string>): (r: seq<string>)
    ensures |r| == |row| && forall j :: 0 <= j < |row| ==> r[j] == RepairedCell(row[j])
  {
    Map(RepairedCell, row)
  }

  lemma {:induction false} FixRow(row: seq<string>)
    requires forall j :: 0 <= j < |row| ==> WellEscaped(row[j]) && '\n' !in row[j]
    ensures Fix(Line(row)) == Join(RepairedRow(row), ',')
  {
    if |row| == 1 {
      assert Escape(row[0]) + "" == Escape(row[0]);
      FixCell(row[0], "");
    } else if |row| > 1 {
      var rest := Line(row[1..]);
      assert EscapeRow(row)[1..] == EscapeRow(row[1..]) && RepairedRow(row)[1..] == RepairedRow(row[1..]);
      assert Line(row) == Escape(row[0]) + ([','] + rest);
      FixCell(row[0], [','] + rest);
      FixPlain([','], rest);
      FixRow(row[1..]);
    }
  }

  lemma {:induction false} EscapedQuoteIn(v: string)
    requires '"' in v
    ensures HasEscapedQuote(EscapeQuotes(v))
  {
    var e := EscapeQuotes(v);
    if v[0] == '"' {
      assert e[0] == '\\' && e[1] == '"';
    } else {
      EscapedQuoteIn(v[1..]);
      var i :| 0 <= i < |EscapeQuotes(v[1..])| - 1 && EscapeQuotes(v[1..])[i] == '\\' &&
          EscapeQuotes(v[1..])[i + 1] == '"';
      assert e[i + 1] == '\\' && e[i + 2] == '"';
    }
  }

  lemma EscapedQuoteWithin(a: string, s: string, b: string)
    requires HasEscapedQuote(s)
    ensures HasEscapedQuote(a + s + b)
  {
    var i :| 0 <= i < |s| - 1 && s[i] == '\\' && s[i + 1] == '"';
    var w := a + s + b;
    assert w[|a| + i] == '\\' && w[|a| + i + 1] == '"';
  }

  lemma LineHasEscapedQuote(row: seq<string>, j: nat)
    requires j < |row| && '"' in row[j]
    ensures HasEscapedQuote(Line(row))
  {
    EscapedQuoteIn(row[j]);
    EscapedQuoteWithin(['"'], EscapeQuotes(row[j]), ['"']);
    JoinHas(EscapeRow(row), ',', j);
    var a, b :| Line(row) == a + EscapeRow(row)[j] + b;
    EscapedQuoteWithin(a, Escape(row[j]), b);
  }

  lemma RepairedPlain(v: string)
    requires '"' !in v
    ensures RepairedCell(v) == Escape(v)
  {
    EscapeQuotesPlain(v);
    ApostrophesHave(v);
  }

  lemma FixPrintedLine(row: seq<string>)
    requires forall j :: 0 <= j < |row| ==> WellEscaped(row[j]) && '\n' !in row[j]
    ensures FixLine(Line(row)) == Join(RepairedRow(row), ',')
  {
    FixRow(row);
    if !HasEscapedQuote(Line(row)) {
      forall j | 0 <= j < |row| ensures RepairedRow(row)[j] == EscapeRow(row)[j] {
        if '"' in row[j] {
          LineHasEscapedQuote(row, j);
        }
        RepairedPlain(row[j]);
      }
      assert RepairedRow(row) == EscapeRow(row);
    }
  }

  lemma {:induction false} JoinFinal(ls: seq<string>)
    requires ls != []
    ensures Join(ls + [""], '\n') == Join(ls, '\n') + "\n"
  {
    if |ls| > 1 {
      JoinFinal(ls[1..]);
      assert (ls + [""])[1..] == ls[1..] + [""];
    } else {
      assert (ls + [""])[1..] == [""];
    }
  }

  lemma LineHasNoFeed(row: seq<string>)
    requires forall j :: 0 <= j < |row| ==> '\n' !in row[j]
    ensures '\n' !in Line(row)
  {
    forall p | p in EscapeRow(row) ensures '\n' !in p {
      var j :| 0 <= j < |row| && p == EscapeRow(row)[j];
      EscapeHas(row[j], '\n');
    }
    JoinHasNo(EscapeRow(row), ',', '\n');
  }

  lemma SanitizedLines(h: string, ls: seq<string>, fixed: seq<string>)
    requires '\n' !in h && '"' !in h
    requires |fixed| == |ls| && forall i :: 0 <= i < |ls| ==> '\n' !in ls[i] && FixLine(ls[i]) == fixed[i]
    ensures Sanitized(Join([h] + ls, '\n') + "\n") == Join([h] + fixed, '\n') + "\n"
  {
    var all, out := [h] + ls + [""], [h] + fixed + [""];
    JoinFinal([h] + ls);
    JoinFinal([h] + fixed);
    forall i | 0 <= i < |all| ensures '\n' !in all[i] && FixLine(all[i]) == out[i] {
      assert 0 < i <= |ls| ==> all[i] == ls[i - 1] && out[i] == fixed[i - 1];
    }
    SplitJoin(all, '\n');
    assert FixLines(all) == out;
  }

  /** The printed file, line by line: the header, one line for each item, and a line end after the last. */
  lemma EncodedLines(items: seq<Item>)
    requires AllFields(Rows(items), f => '\n' !in f)
    ensures Split(Encoded(items), '\n') == [Header(|items|)] + Lines(Rows(items)) + [""]
  {
    var h, ls := Header(|items|), Lines(Rows(items));
    var all := [h] + ls + [""];
    HeaderReads(|items|);
    JoinFinal([h] + ls);
    forall i | 0 <= i < |all| ensures '\n' !in all[i] {
      if i == 0 {
        assert PyBreak('\n');
      } else if i <= |ls| {
        assert all[i] == ls[i - 1];
        LineHasNoFeed(Rows(items)[i - 1]);
      }
    }
    SplitJoin(all, '\n');
  }

  lemma RepairedDenotes(v: string)
    ensures Denotes(RepairedCell(v), Apostrophes(v))
  {
    ApostrophesHave(v);
    DoubledPlain(Apostrophes(v));
  }

  function ApostropheRow(row: seq<string>): (r: seq<string>)
    ensures |r| == |row| && forall j :: 0 <= j < |row| ==> r[j] == Apostrophes(row[j])
  {
    Map(Apostrophes, row)
  }

  function ApostropheRows(rows: seq<seq<string>>): (r: seq<seq<string>>)
    ensures |r| == |rows| && forall i :: 0 <= i < |rows| ==> r[i] == ApostropheRow(rows[i])
  {
    Map(ApostropheRow, rows)
  }

  lemma ApostropheRowsClean(rows: seq<seq<string>>)
    requires forall r, f :: r in ApostropheRows(rows) && f in r ==> Clean(f)
    ensures AllFields(rows, Clean)
  {
    forall i, j | 0 <= i < |rows| && 0 <= j < |rows[i]| ensures Clean(rows[i][j]) {
      assert ApostropheRows(rows)[i] in ApostropheRows(rows) && ApostropheRow(rows[i])[j] in ApostropheRow(rows[i]);
      ApostrophesClean(rows[i][j]);
    }
  }

  // ----- exactly which values survive the repair -----

  lemma {:induction false} TokensAppend(a: string, b: string)
    requires Tokens(a) && Tokens(b)
    ensures Tokens(a + b)
    decreases |a|
  {
    if a == "" {
      assert a + b == b;
    } else if a[0] != '\\' {
      TokensAppend(a[1..], b);
      TailAppend(a, b);
    } else {
      TokensAppend(a[2..], b);
      assert (a + b)[2..] == a[2..] + b;
    }
  }

  lemma {:induction false} EscapeQuotesAppend(a: string, b: string)
    ensures EscapeQuotes(a + b) == EscapeQuotes(a) + EscapeQuotes(b)
  {
    if a == "" {
      assert a + b == b;
    } else {
      EscapeQuotesAppend(a[1..], b);
      var h := if a[0] == '"' then ['\\', '"'] else [a[0]];
      TailAppend(a, b);
      assert h + (EscapeQuotes(a[1..]) + EscapeQuotes(b)) == h + EscapeQuotes(a[1..]) + EscapeQuotes(b);
    }
  }

  /** An unpaired value has a first backslash that stands before a quote or at the end. */
  lemma {:induction false} FirstUnpaired(v: string) returns (u: string, w: string)
    requires !Paired(v)
    ensures Paired(u) && (v == u + ['\\'] || v == u + ['\\', '"'] + w)
    decreases |v|
  {
    if v[0] != '\\' {
      u, w := FirstUnpaired(v[1..]);
      u := [v[0]] + u;
      assert Paired(u[1..]);
    } else if |v| == 1 {
      u, w := "", "";
    } else if v[1] == '"' {
      u, w := "", v[2..];
      assert v == ['\\', '"'] + v[2..];
    } else {
      var u';
      u', w := FirstUnpaired(v[2..]);
      u := v[..2] + u';
      assert u[2..] == u';
    }
  }

  lemma EscapeEarly(u: string, w: string)
    ensures var v, x := u + ['\\', '"'] + w, u + ['\\', '\\'];
            EscapeQuotes(x) == EscapeQuotes(u) + ['\\', '\\'] &&
            Escape(v) == ['"'] + EscapeQuotes(x) + ['"'] + (EscapeQuotes(w) + ['"'])
  {
    var v, x := u + ['\\', '"'] + w, u + ['\\', '\\'];
    EscapeTwo();
    EscapeQuotesAppend(u, ['\\', '"']);
    EscapeQuotesAppend(u + ['\\', '"'], w);
    EscapeQuotesAppend(u, ['\\', '\\']);
    assert v[|u| + 1] == '"';
    RegroupEarly(EscapeQuotes(u), EscapeQuotes(w));
  }

  lemma RegroupEarly(e: string, f: string)
    ensures ['"'] + (e + ['\\', '\\', '"'] + f) + ['"'] == ['"'] + (e + ['\\', '\\']) + ['"'] + (f + ['"'])
  {
  }

  lemma EscapeTwo()
    ensures EscapeQuotes(['\\', '"']) == ['\\', '\\', '"']
    ensures EscapeQuotes(['\\', '\\']) == ['\\', '\\']
    ensures EscapeQuotes(['\\']) == ['\\'] && EscapeQuotes(['"']) == ['\\', '"']
    ensures Tokens(['\\', '\\']) && Tokens(['\\', '"'])
  {
    assert ['\\', '"'][1..] == ['"'] && ['\\', '\\'][1..] == ['\\'];
  }

  // ----- what the fixed count counts -----

  predicate HasQuote(row: seq<string>) {
    exists j :: 0 <= j < |row| && '"' in row[j]
  }

  lemma {:induction false} ApostrophesCount(v: string)
    ensures Count(Apostrophes(v), '\\') == Count(v, '\\')
  {
    if v != "" {
      ApostrophesCount(v[1..]);
      assert Apostrophes(v)[1..] == Apostrophes(v[1..]);
    }
  }

  lemma {:induction false} TotalPositive(row: seq<string>, j: nat)
    requires j < |row| && '"' in row[j]
    ensures TotalCount(row, '"') > 0
  {
    if j == 0 {
      CountZero(row[0], '"');
    } else {
      TotalPositive(row[1..], j - 1);
    }
  }
}
