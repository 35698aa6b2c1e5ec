/**
 * Which rows come through the repair: a theorem for every row of trimmed one-line fields, with any backslashes and
 * quotes, and for every list of items whatsoever.
 */
module ToonSurvival {
  import opened Text
  import opened Sanitizer
  import opened ToonPrinter
  import opened ToonParser
  import opened ToonPipeline
  import opened ToonDocument
  import opened ToonRoundTrip

  /**
   * Every field is well escaped; or the first that is not holds no quote and no later field needs quotes, so that
   * nothing later closes what its backslash has opened.
   */
  predicate Survives(row: seq<string>) {
    row == [] ||
    (WellEscaped(row[0]) && Survives(row[1..])) ||
    ('"' !in row[0] && AllPlain(row[1..]))
  }

  predicate AllPlain(row: seq<string>) {
    forall j :: 0 <= j < |row| ==> Plain(row[j])
  }

  // ----- what the first field of a line begins with -----

  /** A text that begins and ends with something other than white space. */
  predicate Solid(a: string) {
    a != "" && !PySpace(a[0]) && !PySpace(a[|a| - 1])
  }

  /** The first field is the field so far with something more, trimmed. */
  lemma {:induction false} FirstField(s: string, current: string, inQuotes: bool) returns (more: string)
    ensures Fields(s, current, inQuotes) != [] && Fields(s, current, inQuotes)[0] == PyStrip(current + more)
    decreases |s|
  {
    if s == "" || (s[0] == ',' && !inQuotes) {
      more := "";
      assert current + more == current;
    } else if s[0] == '"' && !inQuotes {
      more := FirstField(s[1..], current, true);
    } else if s[0] == '"' {
      if |s| > 1 && s[1] == '"' {
        more := FirstField(s[2..], current + ['"'], true);
        Assoc(current, ['"'], more);
        more := ['"'] + more;
      } else {
        more := FirstField(s[1..], current, false);
      }
    } else {
      more := FirstField(s[1..], current + [s[0]], inQuotes);
      Assoc(current, [s[0]], more);
      more := [s[0]] + more;
    }
  }

  lemma SolidPrefix(a: string, more: string)
    requires Solid(a)
    ensures a <= PyStrip(a + more)
  {
    var s := a + more;
    assert s[0] == a[0];
    assert StripLeft(s, PySpace) == s;
    StripRightFacts(s, PySpace);
    var r := StripRight(s, PySpace);
    assert s[|a| - 1] == a[|a| - 1];
    assert r == s[..|r|];
  }

  lemma {:induction false} FieldsInQuotes(a: string, z: string, current: string)
    requires '"' !in a
    ensures Fields(a + z, current, true) == Fields(z, current + a, true)
  {
    if a == "" {
      Nothing(z);
      assert current + a == current;
    } else {
      TailAppend(a, z);
      FieldsInQuotes(a[1..], z, current + [a[0]]);
      SnocTail(current, a);
    }
  }

  /** A line that opens a quote and then holds `a`: its first field begins with `a`. */
  lemma QuotedStart(a: string, z: string)
    requires Solid(a) && '"' !in a
    ensures var f := Fields(['"'] + (a + z), "", false); f != [] && a <= f[0]
  {
    assert (['"'] + (a + z))[1..] == a + z;
    FieldsInQuotes(a, z, "");
    Nothing(a);
    var more := FirstField(z, a, true);
    SolidPrefix(a, more);
  }

  lemma BareStart(a: string, b: string, z: string)
    requires Solid(a) && Plain(a + b)
    ensures var f := Fields(a + b + z, "", false); f != [] && a <= f[0]
  {
    FieldsBare(a + b, z, "");
    Nothing(a + b);
    var more := FirstField(z, a + b, false);
    Assoc(a, b, more);
    SolidPrefix(a, b + more);
  }

  /** The replacement of a matched group whose repair begins with `a`, whatever follows it. */
  lemma ReplacedStart(inner: string, a: string, b: string, z: string)
    requires Tokens(inner) && Unescape(inner) == a + b && Solid(a)
    ensures var f := Fields(Replacement(inner) + z, "", false); f != [] && a <= f[0]
  {
    UnescapeTokens(inner);
    NoQuoteParts(a, b);
    if ',' in a + b {
      RegroupQuoted(a, b, z);
      QuotedStart(a, b + ['"'] + z);
    } else {
      BareStart(a, b, z);
    }
  }

  lemma NoQuoteParts(a: string, b: string)
    requires '"' !in a + b
    ensures '"' !in a
  {
    assert forall c :: c in a ==> c in a + b;
  }

  lemma RegroupQuoted(a: string, b: string, z: string)
    ensures ['"'] + (a + b) + ['"'] + z == ['"'] + (a + (b + ['"'] + z))
  {
  }

  /** A row whose first field reads differently at one place does not come back. */
  lemma FirstDiffers(fields: seq<string>, row: seq<string>, a: string, k: nat)
    requires fields != [] && a <= fields[0] && row != [] && k < |a| && k < |row[0]|
    requires a[k] != Apostrophes(row[0])[k]
    ensures fields != ApostropheRow(row)
  {
    assert fields[0][k] == a[k];
  }

  // ----- a field that is not well escaped -----

  lemma ApostrophesSolid(u: string, c: char)
    requires (u == "" || !PySpace(u[0])) && !PySpace(c)
    ensures Solid(Apostrophes(u) + [c])
  {
    var a := Apostrophes(u) + [c];
    assert u != "" ==> a[0] == Apostrophes(u)[0];
  }

  lemma CleanStart(u: string, w: string)
    requires Clean(u + w)
    ensures u == "" || !PySpace(u[0])
  {
    assert u != "" ==> (u + w)[0] == u[0];
  }

  /** The repair of a cell with an unpaired backslash before a quote: it is closed right there. */
  lemma FixEarly(u: string, w: string, t: string)
    requires Paired(u) && '\n' !in u
    ensures var inner := EscapeQuotes(u + ['\\', '\\']);
            Tokens(inner) && Unescape(inner) == Apostrophes(u + ['\\', '\\']) &&
            Fix(Escape(u + ['\\', '"'] + w) + t) == Replacement(inner) + Fix(EscapeQuotes(w) + ['"'] + t)
  {
    var inner := EscapeQuotes(u + ['\\', '\\']);
    EscapeEarly(u, w);
    EscapedTokens(u);
    EscapeTwo();
    TokensAppend(EscapeQuotes(u), ['\\', '\\']);
    Assoc(['"'] + inner + ['"'], EscapeQuotes(w) + ['"'], t);
    FixField(inner, EscapeQuotes(w) + ['"'] + t);
    UnescapeEscaped(u + ['\\', '\\']);
  }

  /** An unpaired backslash before a quote loses the row. */
  lemma LostEarly(u: string, w: string, t: string, row: seq<string>)
    requires row != [] && row[0] == u + ['\\', '"'] + w && Clean(row[0]) && Paired(u) && '\n' !in u
    ensures Fields(Fix(Escape(row[0]) + t), "", false) != ApostropheRow(row)
  {
    var a := Apostrophes(u + ['\\', '\\']);
    FixEarly(u, w, t);
    Assoc(u, ['\\', '"'], w);
    CleanStart(u, ['\\', '"'] + w);
    SolidTwo(u);
    assert a + "" == a;
    ReplacedStart(EscapeQuotes(u + ['\\', '\\']), a, "", Fix(EscapeQuotes(w) + ['"'] + t));
    EarlyDiffers(u, w);
    FirstDiffers(Fields(Fix(Escape(row[0]) + t), "", false), row, a, |u| + 1);
  }

  lemma EarlyDiffers(u: string, w: string)
    ensures var x, v := u + ['\\', '\\'], u + ['\\', '"'] + w;
            |u| + 1 < |x| && |u| + 1 < |v| && Apostrophes(x)[|u| + 1] == '\\' && Apostrophes(v)[|u| + 1] == '\''
  {
  }

  lemma SolidTwo(u: string)
    requires u == "" || !PySpace(u[0])
    ensures Solid(Apostrophes(u + ['\\', '\\']))
  {
    var x := u + ['\\', '\\'];
    assert x[0] == if u == "" then '\\' else u[0];
  }

  lemma {:induction false} ClosingTokens(f: string, t: string)
    requires Tokens(f)
    ensures Closing(f + t) == Later(Closing(t), |f|)
    decreases |f|
  {
    if f == "" {
      Nothing(t);
    } else if f[0] != '\\' {
      TailAppend(f, t);
      ClosingTokens(f[1..], t);
    } else {
      assert (f + t)[2..] == f[2..] + t && (f + t)[0] == '\\' && (f + t)[1] == f[1];
      ClosingTokens(f[2..], t);
    }
  }

  lemma {:induction false} UnescapeAppend(v: string, t: string)
    ensures Unescape(EscapeQuotes(v) + ['\\', '"'] + t) == Apostrophes(v) + ['\''] + Unescape(t)
    decreases |v|
  {
    if v == "" {
      Nothing(['\\', '"']);
      UnescapePair(t);
      assert Apostrophes(v) == "";
    } else {
      var e := EscapeQuotes(v[1..]);
      var rest := e + ['\\', '"'] + t;
      UnescapeAppend(v[1..], t);
      var h := if v[0] == '"' then ['\\', '"'] else [v[0]];
      var c := if v[0] == '"' then '\'' else v[0];
      assert Apostrophes(v) == [c] + Apostrophes(v[1..]);
      RegroupHead(h, e, ['\\', '"'], t);
      RegroupHead([c], Apostrophes(v[1..]), ['\''], Unescape(t));
      if v[0] == '"' {
        UnescapePair(rest);
      } else {
        EscapedStart(v[1..], t);
        UnescapeChar(v[0], rest);
      }
    }
  }

  lemma RegroupHead(h: string, e: string, m: string, t: string)
    ensures h + e + m + t == h + (e + m + t)
  {
  }

  lemma EscapedStart(v: string, t: string)
    ensures (EscapeQuotes(v) + ['\\', '"'] + t)[0] != '"'
  {
  }

  /** The printed cell of a value that needs quotes and ends in an unpaired backslash. */
  lemma EscapeLate(u: string, t: string)
    requires !Plain(u + ['\\'])
    ensures Escape(u + ['\\']) + t == ['"'] + (EscapeQuotes(u) + ['\\', '"'] + t)
  {
    EscapeQuotesAppend(u, ['\\']);
    EscapeTwo();
    EscapeQuotesHas(u + ['\\'], ',');
    RegroupOpen(EscapeQuotes(u), t);
  }

  lemma RegroupOpen(e: string, t: string)
    ensures ['"'] + (e + ['\\']) + ['"'] + t == ['"'] + (e + ['\\', '"'] + t)
  {
  }

  /** The repair of such a cell before a quote that closes it: it swallows what stands between. */
  lemma FixLate(u: string, w: string, z: string)
    requires !Plain(u + ['\\']) && Paired(u) && '\n' !in u && Tokens(w)
    ensures var inner := EscapeQuotes(u) + ['\\', '"'] + w;
            Tokens(inner) && Unescape(inner) == Apostrophes(u) + ['\''] + Unescape(w) &&
            Fix(Escape(u + ['\\']) + (w + ['"'] + z)) == Replacement(inner) + Fix(z)
  {
    var f := EscapeQuotes(u) + ['\\', '"'];
    EscapedTokens(u);
    EscapeTwo();
    TokensAppend(EscapeQuotes(u), ['\\', '"']);
    TokensAppend(f, w);
    EscapeLate(u, w + ['"'] + z);
    RegroupClose(f, w, z);
    FixField(f + w, z);
    UnescapeAppend(u, w);
  }

  lemma RegroupClose(f: string, w: string, z: string)
    ensures ['"'] + (f + (w + ['"'] + z)) == ['"'] + (f + w) + ['"'] + z
  {
  }

  lemma SplitAtClosing(t: string) returns (w: string, z: string)
    requires Closing(t).Some?
    ensures t == w + ['"'] + z && Tokens(w)
  {
    ClosingBound(t);
    var k := Closing(t).value;
    w, z := t[..k], t[k + 1..];
  }

  /** An unpaired backslash at the end of a cell, before something that closes it, loses the row. */
  lemma LostLate(u: string, t: string, row: seq<string>)
    requires row != [] && row[0] == u + ['\\'] && Clean(row[0]) && !Plain(row[0]) && Paired(u) && '\n' !in u
    requires Closing(t).Some?
    ensures Fields(Fix(Escape(row[0]) + t), "", false) != ApostropheRow(row)
  {
    var w, z := SplitAtClosing(t);
    FixLate(u, w, z);
    CleanStart(u, ['\\']);
    ApostrophesSolid(u, '\'');
    var a := Apostrophes(u) + ['\''];
    ReplacedStart(EscapeQuotes(u) + ['\\', '"'] + w, a, Unescape(w), Fix(z));
    assert a[|u|] == '\'' && row[0][|u|] == '\\';
    FirstDiffers(Fields(Fix(Escape(row[0]) + t), "", false), row, a, |u|);
  }

  /** Such a cell that nothing closes is left as it was printed, with the rest of the line. */
  lemma LeftAlone(u: string, t: string)
    requires !Plain(u + ['\\']) && Paired(u) && '\n' !in u && '\n' !in t && Closing(t).None?
    ensures Fix(Escape(u + ['\\']) + t) == Escape(u + ['\\']) + t
  {
    var f := EscapeQuotes(u) + ['\\', '"'];
    EscapedTokens(u);
    EscapeTwo();
    TokensAppend(EscapeQuotes(u), ['\\', '"']);
    EscapeLate(u, t);
    ClosingTokens(f, t);
    EscapeQuotesHas(u, '\n');
    FixUnclosed(f + t);
    assert (['"'] + (f + t))[1..] == f + t;
  }

  lemma {:induction false} FirstQuote(u: string) returns (p: string, q: string)
    requires '"' in u
    ensures u == p + ['"'] + q && '"' !in p
  {
    var k := IndexOf(u, '"');
    p, q := u[..k], u[k + 1..];
    assert u == p + ['"'] + q;
  }

  lemma EscapeAtQuote(p: string, q: string, t: string)
    requires '"' !in p
    ensures EscapeQuotes(p + ['"'] + q) + ['\\', '"'] + t == p + ['\\'] + (['"'] + EscapeQuotes(q) + ['\\', '"'] + t)
  {
    EscapeQuotesAppend(p + ['"'], q);
    EscapeQuotesAppend(p, ['"']);
    EscapeQuotesPlain(p);
    EscapeTwo();
    RegroupQuote(p, EscapeQuotes(q), t);
  }

  lemma RegroupQuote(p: string, e: string, t: string)
    ensures p + ['\\', '"'] + e + ['\\', '"'] + t == p + ['\\'] + (['"'] + e + ['\\', '"'] + t)
  {
  }

  /** Left alone with a quote in it, the cell is lost as well: the parser stops at the quote and keeps its backslash. */
  lemma LostQuote(u: string, t: string, row: seq<string>)
    requires row != [] && row[0] == u + ['\\'] && Clean(row[0]) && '"' in u
    ensures Fields(Escape(row[0]) + t, "", false) != ApostropheRow(row)
  {
    var p, q := FirstQuote(u);
    assert row[0][|p|] == '"';
    EscapeLate(u, t);
    EscapeAtQuote(p, q, t);
    SolidSnoc(p, row[0]);
    QuotedStart(p + ['\\'], ['"'] + EscapeQuotes(q) + ['\\', '"'] + t);
    FirstDiffers(Fields(Escape(row[0]) + t, "", false), row, p + ['\\'], |p|);
  }

  lemma SolidSnoc(p: string, v: string)
    requires Clean(v) && p <= v
    ensures Solid(p + ['\\'])
  {
    assert p != "" ==> p[0] == v[0] && (p + ['\\'])[0] == v[0];
  }

  // ----- what closes a cell -----

  lemma {:induction false} NothingCloses(s: string)
    requires '"' !in s
    ensures Closing(s).None?
  {
    ClosingBound(s);
  }

  lemma {:induction false} ClosingThrough(v: string, z: string)
    requires '"' !in v && '\n' !in v && Closing(z).Some?
    ensures Closing(v + ([','] + z)).Some?
    decreases |v|
  {
    var s := v + ([','] + z);
    if v == "" {
      Nothing([','] + z);
      assert s[1..] == z;
    } else if v[0] != '\\' {
      TailAppend(v, [','] + z);
      ClosingThrough(v[1..], z);
    } else if |v| == 1 {
      assert s[0] == '\\' && s[1] == ',' && s[2..] == z;
    } else {
      assert s[0] == '\\' && s[1] == v[1] && s[2..] == v[2..] + ([','] + z);
      ClosingThrough(v[2..], z);
    }
  }

  lemma LineCons(row: seq<string>)
    requires |row| > 1
    ensures Line(row) == Escape(row[0]) + ([','] + Line(row[1..]))
  {
    assert EscapeRow(row)[1..] == EscapeRow(row[1..]);
    Assoc(Escape(row[0]), [','], Line(row[1..]));
  }

  lemma LineOne(row: seq<string>)
    requires |row| == 1
    ensures Line(row) == Escape(row[0]) + ""
  {
  }

  /** The line of a row with a field that needs quotes closes whatever was open before it. */
  lemma {:induction false} QuotesClose(row: seq<string>)
    requires !AllPlain(row) && forall j :: 0 <= j < |row| ==> '\n' !in row[j]
    ensures Closing(Line(row)).Some?
  {
    var v := row[0];
    if |row| > 1 {
      LineCons(row);
    } else {
      LineOne(row);
    }
    EscapeQuotesHas(v, ',');
    if !Plain(v) {
      assert Line(row)[0] == '"';
    } else {
      assert !AllPlain(row[1..]) by {
        var j :| 0 <= j < |row| && !Plain(row[j]);
        assert row[1..][j - 1] == row[j];
      }
      EscapeQuotesPlain(v);
      QuotesClose(row[1..]);
      ClosingThrough(v, Line(row[1..]));
    }
  }

  lemma {:induction false} PlainLine(row: seq<string>)
    requires AllPlain(row)
    ensures '"' !in Line(row)
  {
    forall p | p in EscapeRow(row) ensures '"' !in p {
      var j :| 0 <= j < |row| && p == EscapeRow(row)[j];
      EscapeQuotesPlain(row[j]);
    }
    JoinHasNo(EscapeRow(row), ',', '"');
  }

  // ----- one row -----

  predicate CleanRow(row: seq<string>) {
    row != [] && forall j :: 0 <= j < |row| ==> Clean(row[j])
  }

  lemma CleanHasNoFeed(row: seq<string>)
    requires CleanRow(row)
    ensures forall j :: 0 <= j < |row| ==> '\n' !in row[j]
  {
    forall j | 0 <= j < |row| ensures '\n' !in row[j] {
      assert PyBreak('\n');
    }
  }

  /** The rest of a line after its first cell. */
  function Rest(row: seq<string>): string
    requires row != []
  {
    if |row| == 1 then "" else [','] + Line(row[1..])
  }

  lemma LineIs(row: seq<string>)
    requires row != []
    ensures Line(row) == Escape(row[0]) + Rest(row)
  {
    if |row| > 1 {
      LineCons(row);
    } else {
      LineOne(row);
    }
  }

  /** Something in the rest of the line closes an open cell exactly when a later field needs quotes. */
  lemma RestCloses(row: seq<string>)
    requires CleanRow(row)
    ensures '\n' !in Rest(row)
    ensures Closing(Rest(row)).Some? <==> !AllPlain(row[1..])
  {
    CleanHasNoFeed(row);
    if |row| > 1 {
      var rest := row[1..];
      LineHasNoFeed(rest);
      assert ([','] + Line(rest))[1..] == Line(rest);
      if AllPlain(rest) {
        PlainLine(rest);
        NothingCloses([','] + Line(rest));
      } else {
        QuotesClose(rest);
      }
    }
  }

  lemma ApostropheRowCons(row: seq<string>)
    requires |row| > 1
    ensures ApostropheRow(row) == [Apostrophes(row[0])] + ApostropheRow(row[1..])
  {
  }

  lemma ApostrophesTrimmed(v: string)
    requires Clean(v)
    ensures PyStrip(Apostrophes(v)) == Apostrophes(v)
  {
    ApostrophesClean(v);
    StripTrims(Apostrophes(v), PySpace);
  }

  /** A first cell that stands for its repaired value, before the rest of a line. */
  lemma ReadFirst(p: string, row: seq<string>, rest: string)
    requires CleanRow(row) && Denotes(p, Apostrophes(row[0])) && (rest == "" <==> |row| == 1) &&
             (rest != "" ==> rest[0] == ',')
    ensures Fields(p + rest, "", false) == ApostropheRow(row) <==>
            rest == "" || Fields(rest[1..], "", false) == ApostropheRow(row[1..])
  {
    FieldsCell(p, Apostrophes(row[0]), rest);
    ApostrophesTrimmed(row[0]);
    if rest != "" {
      ApostropheRowCons(row);
      var f := Fields(rest[1..], "", false);
      assert ([Apostrophes(row[0])] + f)[1..] == f;
      assert ApostropheRow(row)[1..] == ApostropheRow(row[1..]);
    } else {
      assert ApostropheRow(row) == [Apostrophes(row[0])];
    }
  }

  /** A first field that is well escaped: the row survives exactly when the rest does. */
  lemma {:induction false} FirstWellEscaped(row: seq<string>)
    requires CleanRow(row) && WellEscaped(row[0])
    ensures Fields(Fix(Line(row)), "", false) == ApostropheRow(row) <==> Survives(row)
    decreases |row|, 0
  {
    var v, t := row[0], Rest(row);
    CleanHasNoFeed(row);
    LineIs(row);
    FixCell(v, t);
    RepairedDenotes(v);
    if |row| > 1 {
      var rest := row[1..];
      FixPlain([','], Line(rest));
      assert ([','] + Fix(Line(rest)))[1..] == Fix(Line(rest));
      RowSurvivesIff(rest);
      if AllPlain(rest) {
        PlainSurvives(rest);
      }
    }
    ReadFirst(RepairedCell(v), row, Fix(t));
  }

  lemma {:induction false} PlainSurvives(row: seq<string>)
    requires AllPlain(row)
    ensures Survives(row)
  {
    if row != [] {
      PlainSurvives(row[1..]);
    }
  }

  /** Left alone without a quote in it, a cell reads as its value, and so does the rest of the line. */
  lemma ReadAlone(row: seq<string>)
    requires CleanRow(row) && !Plain(row[0]) && '"' !in row[0] && AllPlain(row[1..])
    ensures Fields(Escape(row[0]) + Rest(row), "", false) == ApostropheRow(row)
  {
    var v, rest := row[0], row[1..];
    EscapeDenotes(v);
    ApostrophesHave(v);
    if |row| > 1 {
      forall j | 0 <= j < |rest| ensures Clean(rest[j]) && '"' !in rest[j] && Apostrophes(rest[j]) == rest[j] {
        assert rest[j] == row[j + 1];
        ApostrophesHave(rest[j]);
      }
      QuoteFreeRow(rest);
      assert ApostropheRow(rest) == rest;
      assert ([','] + Line(rest))[1..] == Line(rest);
    }
    ReadFirst(Escape(v), row, Rest(row));
  }

  /** A first field that is not well escaped. */
  lemma FirstUnpairedRow(row: seq<string>)
    requires CleanRow(row) && !WellEscaped(row[0])
    ensures Fields(Fix(Line(row)), "", false) == ApostropheRow(row) <==> Survives(row)
  {
    var v, t := row[0], Rest(row);
    CleanHasNoFeed(row);
    LineIs(row);
    RestCloses(row);
    var u, w := FirstUnpaired(v);
    assert '\n' !in u by {
      assert u <= v;
    }
    if v == u + ['\\', '"'] + w {
      assert v[|u| + 1] == '"';
      LostEarly(u, w, t, row);
    } else if Closing(t).Some? {
      LostLate(u, t, row);
    } else {
      LeftAlone(u, t);
      if '"' in u {
        assert forall c :: c in u ==> c in v;
        LostQuote(u, t, row);
      } else {
        ReadAlone(row);
      }
    }
  }

  /**
   * For every row of trimmed one-line fields: the repaired line reads as the row with apostrophes exactly when the row
   * survives.
   */
  lemma {:induction false} RowSurvivesIff(row: seq<string>)
    requires CleanRow(row)
    ensures Fields(Fix(Line(row)), "", false) == ApostropheRow(row) <==> Survives(row)
    decreases |row|, 1
  {
    if WellEscaped(row[0]) {
      FirstWellEscaped(row);
    } else {
      FirstUnpairedRow(row);
    }
  }

  // ----- every line and every file -----

  lemma QuoteAfterBackslash(u: string)
    ensures HasEscapedQuote(['"'] + (u + ['\\']) + ['"'])
  {
    var s := ['"'] + (u + ['\\']) + ['"'];
    assert s[|u| + 1] == '\\' && s[|u| + 2] == '"';
  }

  lemma QuoteWithin(u: string, w: string)
    ensures '"' in u + ['\\', '"'] + w
  {
    assert (u + ['\\', '"'] + w)[|u| + 1] == '"';
  }

  /** A field that is not well escaped marks its line for repair. */
  lemma UnpairedIsMarked(v: string)
    requires !WellEscaped(v) && '"' !in v
    ensures HasEscapedQuote(Escape(v))
  {
    var u, w := FirstUnpaired(v);
    QuoteWithin(u, w);
    EscapeQuotesPlain(v);
    QuoteAfterBackslash(u);
  }

  lemma MarkedCell(row: seq<string>, j: nat)
    requires j < |row| && HasEscapedQuote(Escape(row[j]))
    ensures HasEscapedQuote(Line(row))
  {
    JoinHas(EscapeRow(row), ',', j);
    var a, b :| Line(row) == a + EscapeRow(row)[j] + b;
    EscapedQuoteWithin(a, Escape(row[j]), b);
  }

  /** On a printed line, the shortcut for lines without an escaped quote changes nothing. */
  lemma FixLineIsFix(row: seq<string>)
    requires forall j :: 0 <= j < |row| ==> '\n' !in row[j]
    ensures FixLine(Line(row)) == Fix(Line(row))
  {
    if !HasEscapedQuote(Line(row)) {
      forall j | 0 <= j < |row| ensures WellEscaped(row[j]) {
        if !WellEscaped(row[j]) {
          if '"' in row[j] {
            LineHasEscapedQuote(row, j);
          } else {
            UnpairedIsMarked(row[j]);
            MarkedCell(row, j);
          }
        }
      }
      FixPrintedLine(row);
      FixRow(row);
    }
  }

  lemma FixNoBreak(s: string)
    requires NoBreak(s)
    ensures NoBreak(Fix(s))
  {
    forall c | c in Fix(s) ensures !PyBreak(c) {
      if PyBreak(c) {
        FixHasNo(s, c);
      }
    }
  }

  /**
   * The repaired line of a clean row: on one line still, and reading as the row with apostrophes exactly when it
   * survives.
   */
  lemma RepairedLine(row: seq<string>)
    requires CleanRow(row)
    ensures '\n' !in Line(row) && NoBreak(FixLine(Line(row)))
    ensures Fields(FixLine(Line(row)), "", false) == ApostropheRow(row) <==> Survives(row)
  {
    CleanHasNoFeed(row);
    LineHasNoFeed(row);
    FixLineIsFix(row);
    RowSurvivesIff(row);
    forall j | 0 <= j < |row| ensures NoBreak(EscapeRow(row)[j]) {
      EscapeClean(row[j]);
    }
    JoinNoBreak(EscapeRow(row));
    FixNoBreak(Line(row));
  }

  predicate AllSurvive(rows: seq<seq<string>>) {
    forall i :: 0 <= i < |rows| ==> Survives(rows[i])
  }

  lemma CleanFileExact(h: string, names: seq<string>, rows: seq<seq<string>>)
    requires LineLike(h) && '"' !in h && HeaderFields(h) == Some(names)
    requires forall i :: 0 <= i < |rows| ==> CleanRow(rows[i]) && |rows[i]| > 1
    ensures Parsed(Sanitized(Join([h] + Lines(rows), '\n') + "\n")) == Ok(names, ApostropheRows(rows)) <==>
            AllSurvive(rows)
  {
    var ls, fixed := Lines(rows), FixLines(Lines(rows));
    forall i | 0 <= i < |rows|
      ensures '\n' !in ls[i] && NoBreak(fixed[i])
      ensures Fields(fixed[i], "", false) == ApostropheRow(rows[i]) <==> Survives(rows[i])
    {
      RepairedLine(rows[i]);
    }
    assert '\n' !in h by {
      assert PyBreak('\n');
    }
    SanitizedLines(h, ls, fixed);
    DocumentRows(h, names, fixed);
    RowsExact(fixed, rows);
  }

  /** A line that reads as more than one field is not blank. */
  lemma NotBlank(l: string)
    requires |Fields(l, "", false)| > 1
    ensures PyStrip(l) != ""
  {
    FieldsStrip(l);
    assert |Fields("", "", false)| == 1;
  }

  lemma {:induction false} NoneBlank(ls: seq<string>)
    requires forall i :: 0 <= i < |ls| ==> PyStrip(ls[i]) != ""
    ensures |ParseLines(ls)| == |ls|
  {
    if ls != [] {
      NoneBlank(ls[..|ls| - 1]);
    }
  }

  /** The lines read as the rows with apostrophes exactly when each of them does: no line may be lost on the way. */
  lemma RowsExact(fixed: seq<string>, rows: seq<seq<string>>)
    requires |fixed| == |rows| && forall i :: 0 <= i < |rows| ==> |rows[i]| > 1
    ensures ParseLines(fixed) == ApostropheRows(rows) <==>
            forall i :: 0 <= i < |rows| ==> Fields(fixed[i], "", false) == ApostropheRow(rows[i])
  {
    NoneLost(fixed);
    if ParseLines(fixed) == ApostropheRows(rows) {
      forall i | 0 <= i < |rows| ensures Fields(fixed[i], "", false) == ApostropheRow(rows[i]) {
        assert ParseLines(fixed)[i] == ApostropheRows(rows)[i];
      }
    }
    if forall i :: 0 <= i < |rows| ==> Fields(fixed[i], "", false) == ApostropheRow(rows[i]) {
      forall i | 0 <= i < |fixed| ensures PyStrip(fixed[i]) != "" {
        NotBlank(fixed[i]);
      }
      NoneBlank(fixed);
    }
  }

  /**
   * The end-to-end law, for every list of items and with no condition on them: parsing the sanitized encoding gives the
   * same rows and columns, with every `"` read as `'` and nothing else changed, exactly when every field is trimmed and
   * on one line and every row survives the repair.
   */
  lemma PipelineExact(items: seq<Item>)
    ensures Parsed(Sanitized(Encoded(items))) == Ok(OUTPUT_FIELDS, ApostropheRows(Rows(items))) <==>
            AllFields(Rows(items), Clean) && AllSurvive(Rows(items))
  {
    HeaderReads(|items|);
    FileExact(Header(|items|), OUTPUT_FIELDS, Rows(items));
  }

  lemma FileExact(h: string, names: seq<string>, rows: seq<seq<string>>)
    requires LineLike(h) && '"' !in h && HeaderFields(h) == Some(names)
    requires forall i :: 0 <= i < |rows| ==> |rows[i]| > 1
    ensures Parsed(Sanitized(Join([h] + Lines(rows), '\n') + "\n")) == Ok(names, ApostropheRows(rows)) <==>
            AllFields(rows, Clean) && AllSurvive(rows)
  {
    if AllFields(rows, Clean) {
      forall i | 0 <= i < |rows| ensures CleanRow(rows[i]) {}
      CleanFileExact(h, names, rows);
    } else {
      var text := Sanitized(Join([h] + Lines(rows), '\n') + "\n");
      ParsedClean(text);
      if Parsed(text) == Ok(names, ApostropheRows(rows)) {
        ApostropheRowsClean(rows);
      }
    }
  }

  predicate CleanWithoutBackslash(f: string) {
    Clean(f) && '\\' !in f
  }

  lemma {:induction false} WellEscapedSurvives(row: seq<string>)
    requires forall j :: 0 <= j < |row| ==> WellEscaped(row[j])
    ensures Survives(row)
  {
    if row != [] {
      WellEscapedSurvives(row[1..]);
    }
  }

  /** The case the scripts are used for: no field holds a backslash. */
  lemma PipelineRoundTrip(items: seq<Item>)
    requires AllFields(Rows(items), CleanWithoutBackslash)
    ensures Parsed(Sanitized(Encoded(items))) == Ok(OUTPUT_FIELDS, ApostropheRows(Rows(items)))
  {
    var rows := Rows(items);
    forall i, j | 0 <= i < |rows| && 0 <= j < |rows[i]| ensures Clean(rows[i][j]) && WellEscaped(rows[i][j]) {
      assert CleanWithoutBackslash(rows[i][j]);
      NoBackslashPaired(rows[i][j]);
    }
    forall i | 0 <= i < |rows| ensures Survives(rows[i]) {
      WellEscapedSurvives(rows[i]);
    }
    PipelineExact(items);
  }

  // ----- what the fixed count counts -----

  lemma {:induction false} ApostropheRowCount(row: seq<string>)
    ensures TotalCount(ApostropheRow(row), '\\') == TotalCount(row, '\\')
  {
    if row != [] {
      ApostrophesCount(row[0]);
      ApostropheRowCount(row[1..]);
      assert ApostropheRow(row)[1..] == ApostropheRow(row[1..]);
    }
  }

  /** A surviving row without quotes is printed as the repair leaves it. */
  lemma {:induction false} QuoteFreeUnchanged(row: seq<string>)
    requires CleanRow(row) && Survives(row) && !HasQuote(row)
    ensures Fix(Line(row)) == Line(row)
  {
    var v, t := row[0], Rest(row);
    CleanHasNoFeed(row);
    LineIs(row);
    assert '"' !in v;
    if WellEscaped(v) {
      FixCell(v, t);
      RepairedPlain(v);
      if |row| > 1 {
        var rest := row[1..];
        forall j | 0 <= j < |rest| ensures '"' !in rest[j] && Clean(rest[j]) {
          assert rest[j] == row[j + 1];
        }
        if AllPlain(rest) {
          PlainSurvives(rest);
        }
        FixPlain([','], Line(rest));
        QuoteFreeUnchanged(rest);
      }
    } else {
      var u, w := FirstUnpaired(v);
      QuoteWithin(u, w);
      RestCloses(row);
      assert '\n' !in u by {
        assert u <= v;
      }
      LeftAlone(u, t);
    }
  }

  /** Of the rows that survive, the repair changes the line, and so counts it, exactly when a field holds a quote. */
  lemma LineCountedIff(row: seq<string>)
    requires CleanRow(row) && Survives(row)
    ensures FixLine(Line(row)) != Line(row) <==> HasQuote(row)
  {
    RepairedLine(row);
    CleanHasNoFeed(row);
    FixLineIsFix(row);
    if HasQuote(row) {
      var j :| 0 <= j < |row| && '"' in row[j];
      LineCount(row);
      FieldsKeep(Line(row), "", false, '\\');
      ApostropheRowCount(row);
      TotalPositive(row, j);
    } else {
      QuoteFreeUnchanged(row);
    }
  }

  /** Of the others it may miss one: the field `"\` is left as it was printed, and so is not counted. */
  lemma QuoteNotCounted()
    ensures var row := [['"', '\\']]; HasQuote(row) && !Survives(row) && FixLine(Line(row)) == Line(row)
  {
    var row := [['"', '\\']];
    var v := row[0];
    assert v[0] == '"' && v == ['"'] + ['\\'];
    assert Paired(['"']) by {
      assert ['"'][1..] == "";
    }
    LineIs(row);
    LeftAlone(['"'], "");
    FixLineIsFix(row);
    assert !Paired(v) by {
      assert v[1..] == ['\\'];
      assert !Paired(['\\']);
    }
  }
}
