/**
 * scripts/sanitize_toon.py: the line-wise repair of escaped quotes.
 *
 * The pattern `"((?:[^"\\]|\\.)*)"` is read as a language (`Tokens`) and as a scanner (`Closing`); the two
 * are proved to agree, so the substitution can be defined by the scanner.
 */
module Sanitizer {
  import opened Text

  /** The language of the group: plain characters, or a backslash with any character that ends no line. */
  predicate Tokens(s: string) {
    s == "" ||
    (s[0] != '"' && s[0] != '\\' && Tokens(s[1..])) ||
    (|s| >= 2 && s[0] == '\\' && s[1] != '\n' && Tokens(s[2..]))
  }

  /** The pattern, tried just after an opening quote, matches with a group of length `k`. */
  predicate MatchesAt(s: string, k: nat) {
    k < |s| && s[k] == '"' && Tokens(s[..k])
  }

  function Later(k: Option<nat>, n: nat): Option<nat> {
    if k.None? then None else Some(k.value + n)
  }

  /** The scanner: where the quote that closes a field stands, if one does. */
  function Closing(s: string): (r: Option<nat>)
    ensures r.Some? ==> r.value < |s|
  {
    if s == "" then None
    else if s[0] == '"' then Some(0)
    else if s[0] != '\\' then Later(Closing(s[1..]), 1)
    else if |s| >= 2 && s[1] != '\n' then Later(Closing(s[2..]), 2)
    else None
  }

  /** The scanner finds exactly the matches of the pattern; in particular there is at most one. */
  lemma {:induction false} ClosingIsTheMatch(s: string, k: nat)
    ensures Closing(s) == Some(k) <==> MatchesAt(s, k)
    decreases |s|
  {
    if s == "" || s[0] == '"' {
      if 0 < k < |s| {
        assert s[..k][0] == '"';
      }
    } else if s[0] != '\\' {
      if k >= 1 {
        ClosingIsTheMatch(s[1..], k - 1);
        if k < |s| {
          assert s[..k][1..] == s[1..][..k - 1];
        }
      }
    } else if |s| >= 2 && s[1] != '\n' {
      if k >= 2 {
        ClosingIsTheMatch(s[2..], k - 2);
        if k < |s| {
          assert s[..k][2..] == s[2..][..k - 2];
        }
      }
    }
  }

  lemma {:induction false} ClosingBound(s: string)
    ensures Closing(s).Some? ==> Closing(s).value < |s| && s[Closing(s).value] == '"' && Tokens(s[..Closing(s).value])
  {
    if Closing(s).Some? {
      ClosingIsTheMatch(s, Closing(s).value);
    }
  }

  /** `inner.replace('\\"', "'")`. */
  function Unescape(s: string): string {
    if s == "" then ""
    else if |s| >= 2 && s[0] == '\\' && s[1] == '"' then ['\''] + Unescape(s[2..])
    else [s[0]] + Unescape(s[1..])
  }

  /** `replace_match`: drop the quotes unless a comma still needs them. */
  function Replacement(inner: string): string {
    var fixed := Unescape(inner);
    if ',' in fixed then ['"'] + fixed + ['"'] else fixed
  }

  /** `_fix_quoted_fields`: substitution of every match, left to right. */
  function Fix(s: string): string {
    if s == "" then ""
    else if s[0] == '"' && Closing(s[1..]).Some? then
      var k := Closing(s[1..]).value;
      Replacement(s[1..][..k]) + Fix(s[1..][k + 1..])
    else [s[0]] + Fix(s[1..])
  }

  predicate HasEscapedQuote(line: string) {
    exists i :: 0 <= i < |line| - 1 && line[i] == '\\' && line[i + 1] == '"'
  }

  function FixLine(line: string): string {
    if HasEscapedQuote(line) then Fix(line) else line
  }

  function ChangedLines(lines: seq<string>): nat {
    if lines == [] then 0
    else ChangedLines(lines[..|lines| - 1]) + (if FixLine(lines[|lines| - 1]) != lines[|lines| - 1] then 1 else 0)
  }

  lemma ChangedNext(lines: seq<string>, i: nat)
    requires i < |lines|
    ensures ChangedLines(lines[..i + 1]) == ChangedLines(lines[..i]) + (if FixLine(lines[i]) != lines[i] then 1 else 0)
  {
    assert lines[..i + 1][..i] == lines[..i];
  }

  function FixLines(lines: seq<string>): (r: seq<string>)
    ensures |r| == |lines| && forall i :: 0 <= i < |lines| ==> r[i] == FixLine(lines[i])
  {
    Map(FixLine, lines)
  }

  lemma FixedNext(lines: seq<string>, i: nat)
    requires i < |lines|
    ensures FixLines(lines[..i + 1]) == FixLines(lines[..i]) + [FixLine(lines[i])]
  {
  }

  function Sanitized(text: string): string {
    Join(FixLines(Split(text, '\n')), '\n')
  }

  /** `sanitize_toon`. */
  method SanitizeToon(text: string) returns (sanitized: string, fixedCount: nat)
    ensures sanitized == Sanitized(text)
    ensures fixedCount == ChangedLines(Split(text, '\n'))
  {
    var lines := Split(text, '\n');
    fixedCount := 0;
    var result := [];
    for i := 0 to |lines|
      invariant result == FixLines(lines[..i])
      invariant fixedCount == ChangedLines(lines[..i])
    {
      var line := lines[i];
      ChangedNext(lines, i);
      FixedNext(lines, i);
      if !HasEscapedQuote(line) {
        result := result + [line];
        continue;
      }
      var fixed := Fix(line);
      if fixed != line {
        fixedCount := fixedCount + 1;
      }
      result := result + [fixed];
    }
    assert lines[..|lines|] == lines;
    sanitized := Join(result, '\n');
  }

  // ----- what one line becomes -----

  /** A line that begins with a matched field is that field, replaced, and the repair of the rest. */
  lemma FixSplit(s: string) returns (inner: string, rest: string)
    requires s != "" && s[0] == '"' && Closing(s[1..]).Some?
    ensures s == ['"'] + inner + ['"'] + rest && Tokens(inner)
    ensures inner == s[1..][..Closing(s[1..]).value] && rest == s[1..][Closing(s[1..]).value + 1..]
    ensures Fix(s) == Replacement(inner) + Fix(rest)
  {
    ClosingBound(s[1..]);
    var k := Closing(s[1..]).value;
    inner, rest := s[1..][..k], s[1..][k + 1..];
    assert s[1..] == inner + ['"'] + rest;
  }

  lemma {:induction false} UnescapePlain(s: string)
    requires '"' !in s
    ensures Unescape(s) == s
  {
    if s != "" {
      assert s == [s[0]] + s[1..];
      UnescapePlain(s[1..]);
    }
  }

  lemma UnescapePair(rest: string)
    ensures Unescape(['\\', '"'] + rest) == ['\''] + Unescape(rest)
  {
    assert (['\\', '"'] + rest)[2..] == rest;
  }

  lemma UnescapeChar(c: char, rest: string)
    requires rest == "" || rest[0] != '"'
    ensures Unescape([c] + rest) == [c] + Unescape(rest)
  {
    assert ([c] + rest)[1..] == rest;
    assert rest != "" ==> ([c] + rest)[1] == rest[0];
  }

  lemma TokensPlain(c: char, t: string)
    requires c != '"' && c != '\\' && Tokens(t)
    ensures Tokens([c] + t)
  {
    assert ([c] + t)[1..] == t;
  }

  lemma TokensPair(c: char, t: string)
    requires c != '\n' && Tokens(t)
    ensures Tokens(['\\', c] + t)
  {
    assert (['\\', c] + t)[2..] == t;
  }

  /** A pair that is no escaped quote is kept. */
  lemma UnescapeOther(c: char, t: string)
    requires c != '"' && Tokens(t)
    ensures Unescape(['\\', c] + t) == ['\\', c] + Unescape(t)
  {
    UnescapeChar(c, t);
    assert ['\\', c] + t == ['\\'] + ([c] + t);
    UnescapeChar('\\', [c] + t);
  }

  /** In a matched group every quote is escaped, so replacing removes every quote and keeps the tokens. */
  lemma {:induction false} UnescapeTokens(s: string)
    requires Tokens(s)
    ensures '"' !in Unescape(s) && Tokens(Unescape(s))
    decreases |s|
  {
    if s == "" {
    } else if s[0] != '\\' {
      UnescapeTokens(s[1..]);
      TokensPlain(s[0], Unescape(s[1..]));
    } else {
      var t := s[2..];
      UnescapeTokens(t);
      assert s == ['\\', s[1]] + t;
      if s[1] == '"' {
        TokensPlain('\'', Unescape(t));
      } else {
        UnescapeOther(s[1], t);
        TokensPair(s[1], Unescape(t));
      }
    }
  }

  lemma {:induction false} ClosingAfterTokens(f: string, t: string)
    requires Tokens(f)
    ensures Closing(f + ['"'] + t) == Some(|f|)
  {
    var s := f + ['"'] + t;
    assert s[..|f|] == f;
    ClosingIsTheMatch(s, |f|);
  }

  lemma FixChar(s: string)
    requires s != "" && s[0] != '"'
    ensures Fix(s) == [s[0]] + Fix(s[1..])
  {
  }

  lemma {:induction false} FixPlain(f: string, t: string)
    requires '"' !in f
    ensures Fix(f + t) == f + Fix(t)
  {
    if f == "" {
      assert f + t == t;
    } else {
      FixPlain(f[1..], t);
      TailAppend(f, t);
      TailAppend(f, Fix(t));
      FixChar(f + t);
    }
  }

  /** A quoted field is replaced on its own, whatever follows it. */
  lemma FixField(inner: string, t: string)
    requires Tokens(inner)
    ensures Fix(['"'] + inner + ['"'] + t) == Replacement(inner) + Fix(t)
  {
    var s := ['"'] + inner + ['"'] + t;
    assert s[1..] == inner + ['"'] + t;
    ClosingAfterTokens(inner, t);
    assert s[1..][..|inner|] == inner;
    assert s[1..][|inner| + 1..] == t;
  }

  /** Once no quote closes a field, no later quote of the line does either: the rest is left alone. */
  lemma {:induction false} FixUnclosed(s: string)
    requires '\n' !in s && Closing(s).None?
    ensures Fix(s) == s
    decreases |s|
  {
    if s == "" {
    } else if s[0] != '\\' {
      FixUnclosed(s[1..]);
    } else if |s| >= 2 {
      FixUnclosed(s[2..]);
      assert s[1..][1..] == s[2..];
      assert Fix(s[1..]) == [s[1]] + s[2..];
    } else {
      assert s[1..] == "";
    }
  }

  lemma {:induction false} UnescapeHasNo(s: string, c: char)
    requires c !in s && c != '\''
    ensures c !in Unescape(s)
    decreases |s|
  {
    if s != "" {
      UnescapeHasNo(s[1..], c);
      if |s| >= 2 {
        UnescapeHasNo(s[2..], c);
      }
    }
  }

  lemma ReplacementHasNo(inner: string, c: char)
    requires c !in inner && c != '\'' && c != '"'
    ensures c !in Replacement(inner)
  {
    UnescapeHasNo(inner, c);
  }

  lemma {:induction false} FixHasNo(s: string, c: char)
    requires c !in s && c != '\'' && c != '"'
    ensures c !in Fix(s)
    decreases |s|
  {
    if s == "" {
    } else if s[0] == '"' && Closing(s[1..]).Some? {
      var inner, rest := FixSplit(s);
      ReplacementHasNo(inner, c);
      FixHasNo(rest, c);
    } else {
      FixHasNo(s[1..], c);
      assert Fix(s) == [s[0]] + Fix(s[1..]);
    }
  }

  /** Repairing a line twice is repairing it once. */
  lemma {:induction false} FixIdempotent(s: string)
    requires '\n' !in s
    ensures Fix(Fix(s)) == Fix(s)
    decreases |s|
  {
    if s == "" {
    } else if s[0] == '"' && Closing(s[1..]).Some? {
      var inner, rest := FixSplit(s);
      FixIdempotent(rest);
      FixReplaced(inner, Fix(rest));
    } else if s[0] == '"' {
      FixUnclosed(s[1..]);
      assert Fix(s) == s;
    } else {
      FixIdempotent(s[1..]);
      assert Fix(s) == [s[0]] + Fix(s[1..]);
      FixPlain([s[0]], Fix(s[1..]));
    }
  }

  lemma FixReplaced(inner: string, t: string)
    requires Tokens(inner)
    ensures Fix(Replacement(inner) + t) == Replacement(inner) + Fix(t)
  {
    var f := Unescape(inner);
    UnescapeTokens(inner);
    if ',' in f {
      FixField(f, t);
      UnescapePlain(f);
    } else {
      FixPlain(f, t);
    }
  }

  lemma FixLineIdempotent(line: string)
    requires '\n' !in line
    ensures FixLine(FixLine(line)) == FixLine(line) && '\n' !in FixLine(line)
  {
    if HasEscapedQuote(line) {
      FixIdempotent(line);
      FixHasNo(line, '\n');
    }
  }

  lemma {:induction false} NoneChange(lines: seq<string>)
    requires forall l :: l in lines ==> FixLine(l) == l
    ensures ChangedLines(lines) == 0
  {
    if lines != [] {
      NoneChange(lines[..|lines| - 1]);
    }
  }

  /** Sanitizing any text whatsoever a second time returns the same text and fixes no line. */
  lemma SanitizeIdempotent(text: string)
    ensures Sanitized(Sanitized(text)) == Sanitized(text)
    ensures ChangedLines(Split(Sanitized(text), '\n')) == 0
  {
    var lines := Split(text, '\n');
    var fixed := FixLines(lines);
    forall i | 0 <= i < |lines| ensures FixLine(fixed[i]) == fixed[i] && '\n' !in fixed[i] {
      assert lines[i] in lines;
      FixLineIdempotent(lines[i]);
    }
    SplitJoin(fixed, '\n');
    assert FixLines(fixed) == fixed;
    NoneChange(fixed);
  }

  /** The count is zero exactly when the text came out as it went in. */
  lemma CountZeroIffUnchanged(text: string)
    ensures ChangedLines(Split(text, '\n')) == 0 <==> Sanitized(text) == text
  {
    var lines := Split(text, '\n');
    var fixed := FixLines(lines);
    JoinSplit(text, '\n');
    forall l | l in fixed ensures '\n' !in l {
      var i :| 0 <= i < |lines| && fixed[i] == l;
      assert lines[i] in lines;
      FixLineIdempotent(lines[i]);
    }
    SplitJoin(fixed, '\n');
    if ChangedLines(lines) == 0 {
      NoneChanged(lines);
      assert fixed == lines;
    } else if Sanitized(text) == text {
      assert forall l :: l in lines ==> FixLine(l) == l by {
        assert fixed == lines;
      }
      NoneChange(lines);
    }
  }

  lemma {:induction false} NoneChanged(lines: seq<string>)
    requires ChangedLines(lines) == 0
    ensures forall i :: 0 <= i < |lines| ==> FixLine(lines[i]) == lines[i]
  {
    if lines != [] {
      NoneChanged(lines[..|lines| - 1]);
    }
  }

  // ----- which lines are counted -----

  /** The groups of the fields the pattern matches in a line, left to right. */
  function Groups(s: string): seq<string> {
    if s == "" then []
    else if s[0] == '"' && Closing(s[1..]).Some? then
      var k := Closing(s[1..]).value;
      [s[1..][..k]] + Groups(s[1..][k + 1..])
    else Groups(s[1..])
  }

  /** A matched field that is put back as it was: it holds no quote and a comma. */
  predicate PutBack(inner: string) {
    '"' !in inner && ',' in inner
  }

  predicate AllPutBack(groups: seq<string>) {
    forall i :: 0 <= i < |groups| ==> PutBack(groups[i])
  }

  lemma {:induction false} UnescapeShortens(s: string)
    requires Tokens(s)
    ensures |Unescape(s)| <= |s| && (|Unescape(s)| == |s| <==> '"' !in s)
    decreases |s|
  {
    if s == "" {
    } else if s[0] != '\\' {
      UnescapeShortens(s[1..]);
      assert s == [s[0]] + s[1..];
    } else {
      var t := s[2..];
      UnescapeShortens(t);
      assert s == ['\\', s[1]] + t;
      if s[1] != '"' {
        UnescapeOther(s[1], t);
      }
    }
  }

  lemma ReplacementShortens(inner: string)
    requires Tokens(inner)
    ensures |Replacement(inner)| <= |inner| + 2
    ensures |Replacement(inner)| == |inner| + 2 <==> PutBack(inner)
    ensures PutBack(inner) ==> Replacement(inner) == ['"'] + inner + ['"']
  {
    UnescapeShortens(inner);
    if '"' !in inner {
      UnescapePlain(inner);
    }
  }

  lemma GroupsCons(g: string, gs: seq<string>)
    ensures AllPutBack([g] + gs) <==> PutBack(g) && AllPutBack(gs)
  {
    if AllPutBack([g] + gs) {
      assert ([g] + gs)[0] == g;
      forall i | 0 <= i < |gs| ensures PutBack(gs[i]) {
        assert ([g] + gs)[i + 1] == gs[i];
      }
    }
  }

  /** The repair never lengthens a line, and leaves it alone exactly when every matched field is put back. */
  lemma {:induction false} FixShortens(s: string)
    ensures |Fix(s)| <= |s| && (|Fix(s)| == |s| <==> AllPutBack(Groups(s)))
    ensures AllPutBack(Groups(s)) ==> Fix(s) == s
    decreases |s|
  {
    if s == "" {
    } else if s[0] == '"' && Closing(s[1..]).Some? {
      var inner, rest := FixSplit(s);
      assert Groups(s) == [inner] + Groups(rest);
      FixShortens(rest);
      ReplacementShortens(inner);
      GroupsCons(inner, Groups(rest));
    } else {
      FixShortens(s[1..]);
    }
  }

  /**
   * For every line whatsoever: it is changed, and so counted, exactly when it holds an escaped quote and a matched
   * field holds a quote or needs no quotes.
   */
  lemma LineChangedIff(line: string)
    ensures FixLine(line) != line <==> HasEscapedQuote(line) && !AllPutBack(Groups(line))
  {
    FixShortens(line);
  }
}
