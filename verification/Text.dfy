/** Strings as the scripts and handlers use them: trimming, splitting, joining, counting. */
module Text {

  datatype Option<+T> = None | Some(value: T)

  /** Python's `str.isspace` for one character, which is also what the pattern `\s` matches. */
  predicate PySpace(c: char) {
    '\U{9}' <= c <= '\U{D}' || '\U{1C}' <= c <= '\U{20}' || c == '\U{85}' || c == '\U{A0}' || c == '\U{1680}' ||
    '\U{2000}' <= c <= '\U{200A}' || c == '\U{2028}' || c == '\U{2029}' || c == '\U{202F}' || c == '\U{205F}' ||
    c == '\U{3000}'
  }

  /** The characters at which Python's `str.splitlines` ends a line. */
  predicate PyBreak(c: char)
    ensures PyBreak(c) ==> PySpace(c)
  {
    '\U{A}' <= c <= '\U{D}' || '\U{1C}' <= c <= '\U{1E}' || c == '\U{85}' || c == '\U{2028}' || c == '\U{2029}'
  }

  /** The characters JavaScript's `String.prototype.trim` removes. */
  predicate JsSpace(c: char) {
    '\U{9}' <= c <= '\U{D}' || c == ' ' || c == '\U{A0}' || c == '\U{1680}' || '\U{2000}' <= c <= '\U{200A}' ||
    c == '\U{2028}' || c == '\U{2029}' || c == '\U{202F}' || c == '\U{205F}' || c == '\U{3000}' || c == '\U{FEFF}'
  }

  predicate Digit(c: char) {
    '0' <= c <= '9'
  }

  /** Taking the head off a concatenation. */
  lemma TailAppend<T>(a: seq<T>, b: seq<T>)
    requires a != []
    ensures (a + b)[0] == a[0] && (a + b)[1..] == a[1..] + b && [a[0]] + (a[1..] + b) == a + b
  {
  }

  /** Splitting a concatenation where it was made. */
  lemma Cut<T>(a: seq<T>, b: seq<T>)
    ensures a <= a + b && (a + b)[..|a|] == a && (a + b)[|a|..] == b
  {
  }

  lemma Assoc<T>(a: seq<T>, b: seq<T>, c: seq<T>)
    ensures a + b + c == a + (b + c)
  {
  }

  lemma Nothing<T>(a: seq<T>)
    ensures [] + a == a
  {
  }

  function StripLeft(s: string, ws: char -> bool): string {
    if s != "" && ws(s[0]) then StripLeft(s[1..], ws) else s
  }

  function StripRight(s: string, ws: char -> bool): string {
    if s != "" && ws(s[|s| - 1]) then StripRight(s[..|s| - 1], ws) else s
  }

  function Strip(s: string, ws: char -> bool): string {
    StripRight(StripLeft(s, ws), ws)
  }

  /** `String.prototype.trim`. */
  function Trim(s: string): string {
    Strip(s, JsSpace)
  }

  predicate Trimmed(s: string, ws: char -> bool) {
    s == "" || (!ws(s[0]) && !ws(s[|s| - 1]))
  }

  lemma {:induction false} StripLeftFacts(s: string, ws: char -> bool)
    ensures var r := StripLeft(s, ws); |r| <= |s| && r == s[|s| - |r|..] && (r != "" ==> !ws(r[0]))
    ensures forall i :: 0 <= i < |s| - |StripLeft(s, ws)| ==> ws(s[i])
  {
    if s != "" && ws(s[0]) {
      StripLeftFacts(s[1..], ws);
      forall i | 0 <= i < |s| - |StripLeft(s, ws)| ensures ws(s[i]) {
        assert i > 0 ==> s[i] == s[1..][i - 1];
      }
    }
  }

  lemma {:induction false} StripRightFacts(s: string, ws: char -> bool)
    ensures var r := StripRight(s, ws); r <= s && (r != "" ==> !ws(r[|r| - 1]))
    ensures forall i :: |StripRight(s, ws)| <= i < |s| ==> ws(s[i])
  {
    if s != "" && ws(s[|s| - 1]) {
      StripRightFacts(s[..|s| - 1], ws);
    }
  }

  /** Stripping gives a trimmed text, and is the identity exactly on trimmed texts. */
  lemma StripTrims(s: string, ws: char -> bool)
    ensures Trimmed(Strip(s, ws), ws)
    ensures Strip(s, ws) == s <==> Trimmed(s, ws)
    ensures forall c :: c in Strip(s, ws) ==> c in s
  {
    StripLeftFacts(s, ws);
    StripRightFacts(StripLeft(s, ws), ws);
  }

  /** Stripping takes exactly the white space at both ends: the text is it, between white space. */
  lemma StripExact(s: string, ws: char -> bool) returns (l: string, r: string)
    ensures s == l + Strip(s, ws) + r && Trimmed(Strip(s, ws), ws)
    ensures (forall i :: 0 <= i < |l| ==> ws(l[i])) && (forall i :: 0 <= i < |r| ==> ws(r[i]))
  {
    StripTrims(s, ws);
    l := StripLeftTakes(s, ws);
    r := StripRightTakes(StripLeft(s, ws), ws);
    Assoc(l, Strip(s, ws), r);
  }

  lemma StripLeftTakes(s: string, ws: char -> bool) returns (l: string)
    ensures s == l + StripLeft(s, ws) && forall i :: 0 <= i < |l| ==> ws(l[i])
  {
    StripLeftFacts(s, ws);
    l := s[..|s| - |StripLeft(s, ws)|];
  }

  lemma StripRightTakes(s: string, ws: char -> bool) returns (r: string)
    ensures s == StripRight(s, ws) + r && forall i :: 0 <= i < |r| ==> ws(r[i])
  {
    StripRightFacts(s, ws);
    var k := |StripRight(s, ws)|;
    r := s[k..];
    forall i | 0 <= i < |r| ensures ws(r[i]) {
      assert r[i] == s[k + i];
    }
  }

  function IndexOf(s: string, c: char): (k: nat)
    ensures k <= |s| && c !in s[..k]
    ensures k < |s| ==> s[k] == c
    ensures k == |s| <==> c !in s
  {
    if s == "" then 0 else if s[0] == c then 0 else
      var k := 1 + IndexOf(s[1..], c);
      assert s[..k] == [s[0]] + s[1..][..k - 1];
      k
  }

  function Split(s: string, sep: char): (parts: seq<string>)
    ensures |parts| > 0
    ensures forall p :: p in parts ==> sep !in p
  {
    var k := IndexOf(s, sep);
    if k == |s| then [s] else [s[..k]] + Split(s[k + 1..], sep)
  }

  function Join(parts: seq<string>, sep: char): string {
    if |parts| == 0 then ""
    else if |parts| == 1 then parts[0]
    else parts[0] + [sep] + Join(parts[1..], sep)
  }

  lemma {:induction false} IndexOfAt(a: string, c: char, b: string)
    requires c !in a
    ensures IndexOf(a + [c] + b, c) == |a|
  {
    var s := a + [c] + b;
    if a != "" {
      IndexOfAt(a[1..], c, b);
      assert s[0] == a[0] && s[1..] == a[1..] + [c] + b;
    }
  }

  lemma SplitAt(a: string, sep: char, b: string)
    requires sep !in a
    ensures Split(a + [sep] + b, sep) == [a] + Split(b, sep)
  {
    var s := a + [sep] + b;
    IndexOfAt(a, sep, b);
    assert s[..|a|] == a && s[|a| + 1..] == b;
  }

  /** Splitting undoes joining whenever no part holds the separator. */
  lemma {:induction false} SplitJoin(parts: seq<string>, sep: char)
    requires |parts| > 0 && forall p :: p in parts ==> sep !in p
    ensures Split(Join(parts, sep), sep) == parts
  {
    assert parts[0] in parts;
    if |parts| > 1 {
      SplitAt(parts[0], sep, Join(parts[1..], sep));
      SplitJoin(parts[1..], sep);
      assert [parts[0]] + parts[1..] == parts;
    }
  }

  lemma JoinCons(p: string, rest: seq<string>, sep: char)
    requires rest != []
    ensures Join([p] + rest, sep) == p + [sep] + Join(rest, sep)
  {
    assert ([p] + rest)[1..] == rest;
  }

  /** A text without the separator, or what stands before the first one and after it. */
  lemma SplitCases(s: string, sep: char) returns (a: string, b: string)
    ensures sep !in s ==> Split(s, sep) == [s]
    ensures sep in s ==> |b| < |s| && s == a + [sep] + b && Split(s, sep) == [a] + Split(b, sep)
  {
    var k := IndexOf(s, sep);
    a, b := s[..k], "";
    if k < |s| {
      b := s[k + 1..];
      assert s == a + [sep] + b;
    }
  }

  lemma {:induction false} JoinSplit(s: string, sep: char)
    ensures Join(Split(s, sep), sep) == s
    decreases |s|
  {
    var a, b := SplitCases(s, sep);
    if sep in s {
      JoinSplit(b, sep);
      JoinCons(a, Split(b, sep), sep);
    }
  }

  lemma {:induction false} JoinHasNo(parts: seq<string>, sep: char, c: char)
    requires c != sep && forall p :: p in parts ==> c !in p
    ensures c !in Join(parts, sep)
  {
    if |parts| > 1 {
      JoinHasNo(parts[1..], sep, c);
    }
  }

  lemma {:induction false} JoinHas(parts: seq<string>, sep: char, k: nat)
    requires k < |parts|
    ensures exists a, b :: Join(parts, sep) == a + parts[k] + b
  {
    if |parts| == 1 {
      assert Join(parts, sep) == "" + parts[k] + "";
    } else if k == 0 {
      assert Join(parts, sep) == "" + parts[0] + ([sep] + Join(parts[1..], sep));
    } else {
      JoinHas(parts[1..], sep, k - 1);
      var a, b :| Join(parts[1..], sep) == a + parts[1..][k - 1] + b;
      assert Join(parts, sep) == (parts[0] + [sep] + a) + parts[k] + b;
    }
  }

  function Count(s: string, c: char): nat {
    if s == "" then 0 else (if s[0] == c then 1 else 0) + Count(s[1..], c)
  }

  lemma {:induction false} CountAppend(a: string, b: string, c: char)
    ensures Count(a + b, c) == Count(a, c) + Count(b, c)
  {
    if a == "" {
      assert a + b == b;
    } else {
      CountAppend(a[1..], b, c);
      TailAppend(a, b);
    }
  }

  lemma {:induction false} CountZero(s: string, c: char)
    ensures Count(s, c) == 0 <==> c !in s
  {
    if s != "" {
      CountZero(s[1..], c);
      assert s == [s[0]] + s[1..];
    }
  }

  lemma {:induction false} CountStrip(s: string, ws: char -> bool, c: char)
    requires !ws(c)
    ensures Count(Strip(s, ws), c) == Count(s, c)
  {
    CountStripLeft(s, ws, c);
    CountStripRight(StripLeft(s, ws), ws, c);
  }

  lemma {:induction false} CountStripLeft(s: string, ws: char -> bool, c: char)
    requires !ws(c)
    ensures Count(StripLeft(s, ws), c) == Count(s, c)
  {
    if s != "" && ws(s[0]) {
      CountStripLeft(s[1..], ws, c);
    }
  }

  lemma {:induction false} CountStripRight(s: string, ws: char -> bool, c: char)
    requires !ws(c)
    ensures Count(StripRight(s, ws), c) == Count(s, c)
  {
    if s != "" && ws(s[|s| - 1]) {
      CountStripRight(s[..|s| - 1], ws, c);
      CountAppend(s[..|s| - 1], s[|s| - 1..], c);
      assert s == s[..|s| - 1] + s[|s| - 1..];
    }
  }

  /** Decimal printing of a count. */
  function Decimal(n: nat): (d: string)
    ensures d != "" && forall c :: c in d ==> Digit(c)
  {
    if n < 10 then [('0' as int + n) as char] else Decimal(n / 10) + Decimal(n % 10)
  }

  /** The number a text of digits writes. */
  function Number(s: string): int {
    if s == "" then 0 else 10 * Number(s[..|s| - 1]) + (s[|s| - 1] as int - '0' as int)
  }

  lemma {:induction false} NumberOfDecimal(n: nat)
    ensures Number(Decimal(n)) == n
  {
    var d := Decimal(n);
    if n >= 10 {
      NumberOfDecimal(n / 10);
      assert d[..|d| - 1] == Decimal(n / 10) && d[|d| - 1] == Decimal(n % 10)[0];
    }
  }

  function Get<K, V>(m: map<K, V>, k: K): Option<V> {
    if k in m then Some(m[k]) else None
  }

  predicate Distinct<T(==)>(s: seq<T>) {
    forall i, j :: 0 <= i < j < |s| ==> s[i] != s[j]
  }

  lemma DistinctTail<T>(s: seq<T>)
    requires Distinct(s) && s != []
    ensures Distinct(s[1..]) && s[0] !in s[1..]
  {
    forall i | 0 <= i < |s[1..]| ensures s[1..][i] != s[0] {
      assert s[1..][i] == s[i + 1];
    }
  }

  lemma DistinctCons<T>(a: T, s: seq<T>)
    requires Distinct(s) && a !in s
    ensures Distinct([a] + s)
  {
    var r := [a] + s;
    forall i, j | 0 <= i < j < |r| ensures r[i] != r[j] {
      assert r[j] == s[j - 1];
      assert i > 0 ==> r[i] == s[i - 1];
    }
  }

  function Map<A, B>(f: A -> B, xs: seq<A>): (ys: seq<B>)
    ensures |ys| == |xs| && forall i :: 0 <= i < |xs| ==> ys[i] == f(xs[i])
  {
    seq(|xs|, i requires 0 <= i < |xs| => f(xs[i]))
  }
}
