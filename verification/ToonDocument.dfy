/** How `parse_toon` reads a document: line by line, with blank lines and white space around lines of no consequence. */
module ToonDocument {
  import opened Text
  import opened ToonParser
  import opened ToonPipeline

  lemma {:induction false} StripRightSpaces(a: string, w: string)
    requires forall i :: 0 <= i < |w| ==> PySpace(w[i])
    ensures StripRight(a + w, PySpace) == StripRight(a, PySpace)
  {
    if w == "" {
      assert a + w == a;
    } else {
      var n := |w| - 1;
      assert (a + w)[..|a + w| - 1] == a + w[..n] && (a + w)[|a + w| - 1] == w[n];
      StripRightSpaces(a, w[..n]);
    }
  }

  lemma StripRightStops(a: string)
    requires a != "" && !PySpace(a[|a| - 1])
    ensures StripRight(a, PySpace) == a
  {
  }

  lemma {:induction false} StripLeftSpaces(w: string, a: string)
    requires forall i :: 0 <= i < |w| ==> PySpace(w[i])
    ensures StripLeft(w + a, PySpace) == StripLeft(a, PySpace)
  {
    if w == "" {
      Nothing(a);
    } else {
      TailAppend(w, a);
      StripLeftSpaces(w[1..], a);
    }
  }

  /** What stripping leaves, between the white space it takes. */
  lemma StripParts(s: string) returns (l: string, r: string)
    ensures s == l + PyStrip(s) + r
    ensures (forall i :: 0 <= i < |l| ==> PySpace(l[i])) && (forall i :: 0 <= i < |r| ==> PySpace(r[i]))
  {
    l, r := StripExact(s, PySpace);
  }

  lemma StripAround(l: string, a: string, r: string)
    requires (forall i :: 0 <= i < |l| ==> PySpace(l[i])) && (forall i :: 0 <= i < |r| ==> PySpace(r[i]))
    ensures PyStrip(l + a + r) == PyStrip(a)
  {
    Assoc(l, a, r);
    StripLeftSpaces(l, a + r);
    StripRightThenLeft(a, r);
  }

  lemma {:induction false} StripRightThenLeft(a: string, r: string)
    requires forall i :: 0 <= i < |r| ==> PySpace(r[i])
    ensures PyStrip(a + r) == PyStrip(a)
  {
    if a == "" {
      Nothing(r);
      assert r == r + "";
      StripLeftSpaces(r, "");
    } else if PySpace(a[0]) {
      TailAppend(a, r);
      StripRightThenLeft(a[1..], r);
    } else {
      assert (a + r)[0] == a[0];
      StripRightSpaces(a, r);
    }
  }

  /**
   * White space around a line changes nothing in its fields: what it adds to the first and the last is trimmed away.
   */
  lemma FieldsStrip(line: string)
    ensures Fields(PyStrip(line), "", false) == Fields(line, "", false)
  {
    var l, r := StripParts(line);
    var s := PyStrip(line);
    Assoc(l, s, r);
    FieldsLeading(l, s + r, "");
    Nothing(l);
    assert l + "" == l;
    FieldsPadded(s + r, l, "", false);
    FieldsTrailing(s, r, "", false);
  }

  lemma SpaceIsPlain(c: char)
    requires PySpace(c)
    ensures c != '"' && c != ','
  {
  }

  lemma {:induction false} FieldsLeading(w: string, t: string, current: string)
    requires forall i :: 0 <= i < |w| ==> PySpace(w[i])
    ensures Fields(w + t, current, false) == Fields(t, current + w, false)
  {
    FieldsBare(w, t, current);
  }

  /** White space before the first field. */
  lemma {:induction false} FieldsPadded(s: string, w: string, current: string, inQuotes: bool)
    requires forall i :: 0 <= i < |w| ==> PySpace(w[i])
    ensures Fields(s, w + current, inQuotes) == Fields(s, current, inQuotes)
    decreases |s|
  {
    if s == "" {
      StripLeftSpaces(w, current);
    } else if s[0] == '"' && !inQuotes {
      FieldsPadded(s[1..], w, current, true);
    } else if s[0] == '"' {
      if |s| > 1 && s[1] == '"' {
        Assoc(w, current, ['"']);
        FieldsPadded(s[2..], w, current + ['"'], true);
      } else {
        FieldsPadded(s[1..], w, current, false);
      }
    } else if s[0] == ',' && !inQuotes {
      StripLeftSpaces(w, current);
    } else {
      Assoc(w, current, [s[0]]);
      FieldsPadded(s[1..], w, current + [s[0]], inQuotes);
    }
  }

  lemma {:induction false} FieldsSpaces(r: string, current: string, inQuotes: bool)
    requires forall i :: 0 <= i < |r| ==> PySpace(r[i])
    ensures Fields(r, current, inQuotes) == [PyStrip(current + r)]
  {
    if r == "" {
      assert current + r == current;
    } else {
      SpaceIsPlain(r[0]);
      FieldsSpaces(r[1..], current + [r[0]], inQuotes);
      SnocTail(current, r);
    }
  }

  /** White space after the last field. */
  lemma {:induction false} FieldsTrailing(s: string, r: string, current: string, inQuotes: bool)
    requires forall i :: 0 <= i < |r| ==> PySpace(r[i])
    ensures Fields(s + r, current, inQuotes) == Fields(s, current, inQuotes)
    decreases |s|
  {
    if s == "" {
      Nothing(r);
      FieldsSpaces(r, current, inQuotes);
      StripRightThenLeft(current, r);
    } else {
      TailAppend(s, r);
      if s[0] == '"' && !inQuotes {
        FieldsTrailing(s[1..], r, current, true);
      } else if s[0] == '"' {
        FieldsTrailingQuote(s, r, current);
      } else if s[0] == ',' && !inQuotes {
        FieldsTrailing(s[1..], r, "", false);
      } else {
        FieldsTrailing(s[1..], r, current + [s[0]], inQuotes);
      }
    }
  }

  lemma {:induction false} FieldsTrailingQuote(s: string, r: string, current: string)
    requires s != "" && s[0] == '"' && forall i :: 0 <= i < |r| ==> PySpace(r[i])
    ensures Fields(s + r, current, true) == Fields(s, current, true)
    decreases |s|, 0
  {
    TailAppend(s, r);
    if |s| > 1 && s[1] == '"' {
      assert (s + r)[1] == '"' && (s + r)[2..] == s[2..] + r;
      FieldsTrailing(s[2..], r, current + ['"'], true);
    } else {
      assert |s + r| > 1 ==> (s + r)[1] != '"' by {
        if |s| == 1 && r != "" {
          SpaceIsPlain(r[0]);
        }
      }
      FieldsTrailing(s[1..], r, current, false);
    }
  }

  lemma SplitLinesCons(a: string, b: string)
    requires NoBreak(a)
    ensures SplitLines(a + ['\n'] + b) == [a] + SplitLines(b)
    ensures a != "" ==> SplitLines(a) == [a]
  {
    var s := a + ['\n'] + b;
    FirstBreakAt(a, b);
    assert s[..|a|] == a && s[|a|] == '\n' && s[|a| + 1..] == b;
  }

  /** What ends a line: a carriage return with its line feed, or any other break character alone. */
  predicate LineEnd(e: string, b: string) {
    e == "\r\n" || (|e| == 1 && PyBreak(e[0]) && !(e[0] == '\r' && b != "" && b[0] == '\n'))
  }

  /**
   * The lines of a text are what stands before its first line end and the lines of what follows; nothing has no lines.
   */
  lemma SplitLinesExact(a: string, e: string, b: string)
    requires NoBreak(a) && LineEnd(e, b)
    ensures SplitLines(a + e + b) == [a] + SplitLines(b)
    ensures SplitLines(a) == if a == "" then [] else [a]
  {
    var s := a + e + b;
    assert s[|a|] == e[0];
    assert forall i :: 0 <= i < |a| ==> s[i] == a[i] && a[i] in a;
    assert FirstBreak(s) == |a| && s[..|a|] == a && s[|a| + |e|..] == b;
    assert FirstBreak(a) == |a|;
    if e == "\r\n" {
      assert s[|a| + 1] == '\n';
    } else {
      assert |a| + 1 < |s| ==> s[|a| + 1] == b[0];
    }
  }

  lemma {:induction false} SplitLinesRaw(ls: seq<string>)
    requires |ls| > 0 && ls[|ls| - 1] != "" && forall i :: 0 <= i < |ls| ==> NoBreak(ls[i])
    ensures SplitLines(Join(ls, '\n')) == ls
  {
    if |ls| == 1 {
      SplitLinesCons(ls[0], "");
    } else {
      SplitLinesCons(ls[0], Join(ls[1..], '\n'));
      SplitLinesRaw(ls[1..]);
      assert [ls[0]] + ls[1..] == ls;
    }
  }

  lemma {:induction false} JoinSnoc(ls: seq<string>, last: string)
    requires ls != []
    ensures Join(ls + [last], '\n') == Join(ls, '\n') + (['\n'] + last)
  {
    if |ls| == 1 {
      assert (ls + [last])[1..] == [last];
    } else {
      JoinSnoc(ls[1..], last);
      assert (ls + [last])[1..] == ls[1..] + [last];
    }
  }

  lemma ParseSnoc(ls: seq<string>, last: string)
    ensures ParseLines(ls + [last]) ==
            ParseLines(ls) + (if PyStrip(last) == "" then [] else [Fields(PyStrip(last), "", false)])
  {
    assert (ls + [last])[..|ls|] == ls;
  }

  /** The lines that are left when the white space at the end of a document is gone; they read the same. */
  lemma {:induction false} WithoutTrailing(h: string, ls: seq<string>) returns (kept: seq<string>)
    requires LineLike(h) && forall i :: 0 <= i < |ls| ==> NoBreak(ls[i])
    ensures StripRight(Join([h] + ls, '\n'), PySpace) == Join([h] + kept, '\n')
    ensures (forall i :: 0 <= i < |kept| ==> NoBreak(kept[i])) && (kept != [] ==> kept[|kept| - 1] != "")
    ensures ParseLines(kept) == ParseLines(ls)
  {
    if ls == [] {
      kept := [];
      assert [h] + ls == [h];
      StripRightStops(h);
    } else {
      var n := |ls| - 1;
      var init, last := ls[..n], ls[n];
      assert ls == init + [last];
      Assoc([h], init, [last]);
      JoinSnoc([h] + init, last);
      ParseSnoc(init, last);
      var l, r := StripParts(last);
      if PyStrip(last) == "" {
        StripRightSpaces(Join([h] + init, '\n'), ['\n'] + last);
        kept := WithoutTrailing(h, init);
      } else {
        kept := KeepLast(h, init, l, PyStrip(last), r);
      }
    }
  }

  lemma KeepLast(h: string, init: seq<string>, l: string, s: string, r: string) returns (kept: seq<string>)
    requires s != "" && PyStrip(l + s + r) == s && NoBreak(l + s + r)
    requires (forall i :: 0 <= i < |l| ==> PySpace(l[i])) && (forall i :: 0 <= i < |r| ==> PySpace(r[i]))
    requires forall i :: 0 <= i < |init| ==> NoBreak(init[i])
    ensures StripRight(Join([h] + init, '\n') + (['\n'] + (l + s + r)), PySpace) == Join([h] + kept, '\n')
    ensures (forall i :: 0 <= i < |kept| ==> NoBreak(kept[i])) && kept != [] && kept[|kept| - 1] != ""
    ensures ParseLines(kept) == ParseLines(init) + [Fields(s, "", false)]
  {
    kept := init + [l + s];
    var x := Join([h] + init, '\n');
    Assoc([h], init, [l + s]);
    JoinSnoc([h] + init, l + s);
    StripTrims(l + s + r, PySpace);
    var y := x + (['\n'] + (l + s));
    assert x + (['\n'] + (l + s + r)) == y + r;
    StripRightSpaces(y, r);
    assert y[|y| - 1] == s[|s| - 1];
    StripRightStops(y);
    StripAround(l, s, r);
    StripAround(l, s, "");
    assert l + s + "" == l + s;
    ParseSnoc(init, l + s);
    assert NoBreak(l + s) by {
      assert forall c :: c in l + s ==> c in l + s + r;
    }
  }

  /**
   * A readable header and any lines without breaks: the document is read line by line, blank lines and margins aside.
   */
  lemma DocumentRows(h: string, names: seq<string>, ls: seq<string>)
    requires LineLike(h) && HeaderFields(h) == Some(names)
    requires forall i :: 0 <= i < |ls| ==> NoBreak(ls[i])
    ensures Parsed(Join([h] + ls, '\n') + "\n") == Ok(names, ParseLines(ls))
  {
    var kept := WithoutTrailing(h, ls);
    JoinStarts(h, ls);
    StripEnd(Join([h] + ls, '\n'));
    ConsNoBreak(h, kept);
    SplitLinesRaw([h] + kept);
    ParsedFromLines(Join([h] + ls, '\n') + "\n", [h] + kept, names);
  }

  lemma StripEnd(all: string)
    requires all != "" && !PySpace(all[0])
    ensures PyStrip(all + "\n") == StripRight(all, PySpace)
  {
    assert (all + "\n")[0] == all[0];
    StripRightSpaces(all, "\n");
  }

  lemma ConsNoBreak(h: string, ls: seq<string>)
    requires LineLike(h) && forall i :: 0 <= i < |ls| ==> NoBreak(ls[i])
    requires ls != [] ==> ls[|ls| - 1] != ""
    ensures ([h] + ls)[0] == h && ([h] + ls)[1..] == ls && ([h] + ls)[|ls|] != ""
    ensures forall i :: 0 <= i < |[h] + ls| ==> NoBreak(([h] + ls)[i])
  {
  }

  lemma JoinStarts(h: string, ls: seq<string>)
    requires h != ""
    ensures Join([h] + ls, '\n') != "" && Join([h] + ls, '\n')[0] == h[0]
  {
  }

  /** If no row was lost, each row is the reading of its own line. */
  lemma {:induction false} NoneLost(ls: seq<string>)
    ensures |ParseLines(ls)| <= |ls|
    ensures |ParseLines(ls)| == |ls| ==>
              forall i :: 0 <= i < |ls| ==> ParseLines(ls)[i] == Fields(ls[i], "", false)
  {
    if ls != [] {
      var n := |ls| - 1;
      NoneLost(ls[..n]);
      FieldsStrip(ls[n]);
      ParseSnoc(ls[..n], ls[n]);
      assert ls == ls[..n] + [ls[n]];
    }
  }
}
