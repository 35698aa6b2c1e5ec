/**
 * scripts/extract_items.py, the white-space rule of `_emit_row`: what normalizing a cell computes, told by the text and
 * not by how it is done.
 */
module CellText {
  import opened Text
  import opened ToonParser
  import opened ToonDocument
  import opened ItemTable

  predicate Spaces(w: string) {
    forall i :: 0 <= i < |w| ==> PySpace(w[i])
  }

  /** A text without white space. */
  predicate Word(s: string) {
    s != "" && forall i :: 0 <= i < |s| ==> !PySpace(s[i])
  }

  /** It begins and ends with something other than white space. */
  predicate Tight(s: string) {
    s != "" && !PySpace(s[0]) && !PySpace(s[|s| - 1])
  }

  lemma {:induction false} StripLeftAppend(a: string, t: string)
    requires a != "" && !PySpace(a[|a| - 1])
    ensures StripLeft(a + t, PySpace) == StripLeft(a, PySpace) + t
    ensures var r := StripLeft(a, PySpace); r != "" && |r| <= |a| && r[|r| - 1] == a[|a| - 1] && !PySpace(r[0])
  {
    TailAppend(a, t);
    if PySpace(a[0]) {
      assert |a| > 1 && a[1..][|a| - 2] == a[|a| - 1];
      StripLeftAppend(a[1..], t);
    }
  }

  lemma CollapseSpace(s: string)
    requires s != "" && PySpace(s[0])
    ensures Collapse(s) == [' '] + Collapse(StripLeft(s[1..], PySpace))
  {
  }

  /** Collapsing up to the end of a word does not look at what follows. */
  lemma {:induction false} CollapseAppend(a: string, t: string)
    requires a == "" || !PySpace(a[|a| - 1])
    ensures Collapse(a + t) == Collapse(a) + Collapse(t)
    ensures a != "" ==> Collapse(a) != "" && Collapse(a)[|Collapse(a)| - 1] == a[|a| - 1]
    decreases |a|
  {
    if a == "" {
      Nothing(t);
      Nothing(Collapse(t));
    } else {
      TailAppend(a, t);
      if PySpace(a[0]) {
        assert |a| > 1 && a[1..][|a| - 2] == a[|a| - 1];
        StripLeftAppend(a[1..], t);
        var r := StripLeft(a[1..], PySpace);
        CollapseSpace(a);
        CollapseSpace(a + t);
        CollapseAppend(r, t);
        Assoc([' '], Collapse(r), Collapse(t));
      } else {
        CollapseAppend(a[1..], t);
        Assoc([a[0]], Collapse(a[1..]), Collapse(t));
      }
    }
  }

  lemma CollapseGap(w: string, b: string)
    requires Spaces(w) && w != "" && (b == "" || !PySpace(b[0]))
    ensures Collapse(w + b) == [' '] + Collapse(b)
  {
    TailAppend(w, b);
    StripLeftSpaces(w[1..], b);
    CollapseSpace(w + b);
  }

  lemma CollapseStart(b: string)
    requires b != "" && !PySpace(b[0])
    ensures Collapse(b) != "" && Collapse(b)[0] == b[0]
  {
  }

  lemma TightCollapse(s: string)
    requires Tight(s)
    ensures Tight(Collapse(s)) && Normalize(s) == Collapse(s)
  {
    CollapseAppend(s, "");
    CollapseStart(s);
    StripTrims(Collapse(s), PySpace);
  }

  /** White space between two texts becomes one blank. */
  lemma NormalizeGap(a: string, w: string, b: string)
    requires Tight(a) && Tight(b) && Spaces(w) && w != ""
    ensures Tight(a + w + b) && Normalize(a + w + b) == Normalize(a) + [' '] + Normalize(b)
  {
    Assoc(a, w, b);
    assert (a + w + b)[0] == a[0] && (a + w + b)[|a + w + b| - 1] == b[|b| - 1];
    CollapseAppend(a, w + b);
    CollapseGap(w, b);
    Assoc(Collapse(a), [' '], Collapse(b));
    TightCollapse(a);
    TightCollapse(b);
    TightCollapse(a + w + b);
  }

  /** White space around a text goes. */
  lemma NormalizeMargins(l: string, a: string, r: string)
    requires Spaces(l) && Spaces(r) && Tight(a)
    ensures Normalize(l + a + r) == Normalize(a)
  {
    TightCollapse(a);
    var c := Collapse(a);
    Assoc(l, a, r);
    CollapseAppend(a, r);
    var right := Collapse(r);
    assert right == if r == "" then "" else [' '] by {
      if r != "" {
        CollapseGap(r, "");
        assert r + "" == r;
      }
    }
    var left := if l == "" then "" else [' '];
    if l == "" {
      Nothing(a + r);
      Nothing(c + right);
    } else {
      assert (a + r)[0] == a[0];
      CollapseGap(l, a + r);
    }
    assert Collapse(l + a + r) == left + (c + right);
    Assoc(left, c, right);
    StripAround(left, c, right);
  }

  lemma NormalizeNothing(w: string)
    requires Spaces(w)
    ensures Normalize(w) == ""
  {
    if w != "" {
      assert w + "" == w;
      CollapseGap(w, "");
      assert PyStrip([' ']) == "" by {
        assert StripLeft([' '], PySpace) == StripLeft("", PySpace);
      }
    }
  }

  lemma {:induction false} CollapseWord(s: string)
    requires forall i :: 0 <= i < |s| ==> !PySpace(s[i])
    ensures Collapse(s) == s
  {
    if s != "" {
      CollapseWord(s[1..]);
    }
  }

  /** Words with the given gaps between them. */
  function Spread(words: seq<string>, gaps: seq<string>): string
    requires |words| == |gaps| + 1
  {
    if |words| == 1 then words[0] else words[0] + gaps[0] + Spread(words[1..], gaps[1..])
  }

  predicate Spelled(words: seq<string>, gaps: seq<string>) {
    |words| == |gaps| + 1 &&
    (forall i :: 0 <= i < |words| ==> Word(words[i])) &&
    (forall i :: 0 <= i < |gaps| ==> gaps[i] != "" && Spaces(gaps[i]))
  }

  lemma {:induction false} NormalizeSpread(words: seq<string>, gaps: seq<string>)
    requires Spelled(words, gaps)
    ensures Tight(Spread(words, gaps)) && Normalize(Spread(words, gaps)) == Join(words, ' ')
  {
    var w := words[0];
    CollapseWord(w);
    TightCollapse(w);
    if |words| > 1 {
      NormalizeSpread(words[1..], gaps[1..]);
      NormalizeGap(w, gaps[0], Spread(words[1..], gaps[1..]));
    }
  }

  /**
   * What normalizing computes: of every text made of words with white space between and around them, the words with
   * single blanks between them; and of white space alone, nothing.
   */
  lemma NormalizeExact(l: string, words: seq<string>, gaps: seq<string>, r: string)
    requires Spaces(l) && Spaces(r) && Spelled(words, gaps)
    ensures Normalize(l + Spread(words, gaps) + r) == Join(words, ' ')
    ensures Normalize(l) == ""
  {
    NormalizeSpread(words, gaps);
    NormalizeMargins(l, Spread(words, gaps), r);
    NormalizeNothing(l);
  }

  /** The first run of characters of one kind. */
  function Run(s: string, space: bool): (k: nat)
    ensures k <= |s| && forall i :: 0 <= i < k ==> PySpace(s[i]) == space
    ensures k < |s| ==> PySpace(s[k]) != space
  {
    if s == "" || PySpace(s[0]) != space then 0 else
      var k := 1 + Run(s[1..], space);
      assert forall i :: 1 <= i < |s| ==> s[i] == s[1..][i - 1];
      k
  }

  lemma FirstWord(s: string) returns (l: string, w: string, u: string)
    requires !Spaces(s)
    ensures Spaces(l) && Word(w) && s == l + (w + u) && (u != "" ==> PySpace(u[0]))
  {
    var k := Run(s, true);
    var t := s[k..];
    var n := Run(t, false);
    l, w, u := s[..k], t[..n], t[n..];
    assert t == w + u;
    assert t[0] == s[k];
  }

  lemma Prepend(w: string, l: string, words: seq<string>, gaps: seq<string>, r: string)
    requires Word(w) && Spaces(l) && l != "" && Spelled(words, gaps)
    ensures Spelled([w] + words, [l] + gaps)
    ensures Spread([w] + words, [l] + gaps) + r == w + (l + Spread(words, gaps) + r)
  {
    var ws, gs := [w] + words, [l] + gaps;
    assert ws[1..] == words && gs[1..] == gaps;
    Assoc(w, l, Spread(words, gaps));
    Assoc(w, l + Spread(words, gaps), r);
  }

  /** Every text is white space, or words with white space between and around them: the rule covers all texts. */
  lemma {:induction false} EveryText(s: string) returns (l: string, words: seq<string>, gaps: seq<string>, r: string)
    ensures Spaces(l) && Spaces(r)
    ensures if words == [] then s == l else Spelled(words, gaps) && s == l + Spread(words, gaps) + r
    decreases |s|
  {
    l, words, gaps, r := s, [], [], "";
    if !Spaces(s) {
      var w, u;
      l, w, u := FirstWord(s);
      var l2, words2, gaps2, r2 := EveryText(u);
      if words2 == [] {
        words, gaps, r := [w], [], l2;
      } else {
        StartsWithSpace(u, l2, words2, gaps2, r2);
        Prepend(w, l2, words2, gaps2, r2);
        words, gaps, r := [w] + words2, [l2] + gaps2, r2;
      }
      Assoc(l, Spread(words, gaps), r);
    }
  }

  lemma StartsWithSpace(u: string, l: string, words: seq<string>, gaps: seq<string>, r: string)
    requires u != "" ==> PySpace(u[0])
    requires Spelled(words, gaps) && u == l + Spread(words, gaps) + r
    ensures l != ""
  {
    NormalizeSpread(words, gaps);
    assert u[|l|] == Spread(words, gaps)[0];
  }
}
