/** landing/main.js, `cleanName`: from what a visitor types to the label of a shop's host name. Letters are ASCII. */
module ShopName {
  import opened Text

  const SUFFIX := ".liratek.shop"

  function LowerChar(c: char): char {
    if 'A' <= c <= 'Z' then (c as int + 32) as char else c
  }

  function Lower(s: string): (r: string)
    ensures |r| == |s| && forall i :: 0 <= i < |s| ==> r[i] == LowerChar(s[i])
  {
    Map(LowerChar, s)
  }

  /** `name.replace(/^https?:\/\//, "")`. */
  function WithoutScheme(n: string): string {
    if "http://" <= n then n[7..] else if "https://" <= n then n[8..] else n
  }

  function BeforeSlash(n: string): string {
    n[..IndexOf(n, '/')]
  }

  predicate EndsWith(n: string, suffix: string) {
    |n| >= |suffix| && n[|n| - |suffix|..] == suffix
  }

  function WithoutSuffix(n: string): string {
    if EndsWith(n, SUFFIX) then n[..|n| - |SUFFIX|] else n
  }

  predicate LetterOrDigit(c: char) {
    'a' <= c <= 'z' || Digit(c)
  }

  /** `/^[a-z0-9]([a-z0-9-]{0,61}[a-z0-9])?$/`: a host label as in section 2.1 of RFC 1123. */
  predicate Label(n: string) {
    1 <= |n| <= 63 && LetterOrDigit(n[0]) && LetterOrDigit(n[|n| - 1]) &&
    forall i :: 0 <= i < |n| ==> LetterOrDigit(n[i]) || n[i] == '-'
  }

  function Cleaned(raw: string): Option<string> {
    var name := WithoutSuffix(BeforeSlash(WithoutScheme(Lower(Trim(raw)))));
    if Label(name) then Some(name) else None
  }

  method CleanName(raw: string) returns (r: Option<string>)
    ensures r == Cleaned(raw)
  {
    var name := Lower(Trim(raw));
    name := WithoutScheme(name);
    var bare := RemoveSlashAndSuffix(name);
    return if Label(bare) then Some(bare) else None;
  }

  method RemoveSlashAndSuffix(typed: string) returns (name: string)
    ensures name == WithoutSuffix(BeforeSlash(typed))
  {
    name := typed;
    var slash := IndexOf(name, '/');
    if slash != |name| {
      name := name[..slash];
    }
    assert name == typed[..slash];
    if EndsWith(name, SUFFIX) {
      name := name[..|name| - |SUFFIX|];
    }
  }

  // ----- exactly what is accepted -----

  predicate Scheme(s: string) {
    s == "" || s == "http://" || s == "https://"
  }

  predicate Domain(d: string) {
    d == "" || d == SUFFIX
  }

  predicate Path(p: string) {
    p == "" || p[0] == '/'
  }

  /** The text is the label with an optional scheme, domain and path. */
  predicate Spells(text: string, shop: string, s: string, d: string, p: string) {
    Scheme(s) && Domain(d) && Path(p) && text == s + shop + d + p
  }

  /** A host: the characters a label and the domain are made of. */
  predicate HostText(h: string) {
    forall i :: 0 <= i < |h| ==> LetterOrDigit(h[i]) || h[i] == '-' || h[i] == '.'
  }

  /** Neither scheme can begin a host with a path: its colon comes before any slash. */
  lemma HostHasNoScheme(h: string, p: string)
    requires HostText(h) && Path(p)
    ensures !("http://" <= h + p) && !("https://" <= h + p)
  {
    var n := h + p;
    if |h| > 5 {
      assert n[4] == h[4] && n[5] == h[5];
    } else if |h| == 5 {
      assert n[4] == h[4];
      assert p != "" ==> n[5] == '/';
    } else {
      assert p != "" ==> n[|h|] == '/';
    }
  }

  lemma SchemeRemoved(s: string, h: string, p: string)
    requires Scheme(s) && HostText(h) && Path(p)
    ensures WithoutScheme(s + h + p) == h + p
  {
    var n := s + h + p;
    if s == "" {
      assert n == h + p;
      HostHasNoScheme(h, p);
    } else if s == "http://" {
      assert n[..7] == "http://" && n[7..] == h + p;
    } else {
      assert n[4] == 's' && n[..8] == "https://" && n[8..] == h + p;
    }
  }

  lemma SlashCut(h: string, p: string)
    requires HostText(h) && Path(p)
    ensures BeforeSlash(h + p) == h
  {
    assert '/' !in h;
    if p == "" {
      assert h + p == h;
    } else {
      assert h + p == h + ['/'] + p[1..];
      IndexOfAt(h, '/', p[1..]);
      assert (h + p)[..|h|] == h;
    }
  }

  lemma LabelHasNoDomain(l: string)
    requires Label(l)
    ensures !EndsWith(l, SUFFIX)
  {
    assert |SUFFIX| == 13 && SUFFIX[0] == '.';
    if |l| >= 13 {
      assert l[|l| - 13..][0] == l[|l| - 13];
    }
  }

  lemma SuffixCut(l: string, d: string)
    requires Label(l) && Domain(d)
    ensures WithoutSuffix(l + d) == l
  {
    if d == SUFFIX {
      assert (l + d)[|l|..] == SUFFIX && (l + d)[..|l|] == l;
    } else {
      assert l + d == l;
      LabelHasNoDomain(l);
    }
  }

  function Bare(text: string): string {
    WithoutSuffix(BeforeSlash(WithoutScheme(text)))
  }

  lemma SchemeSplit(text: string) returns (s: string)
    ensures Scheme(s) && text == s + WithoutScheme(text)
  {
    s := text[..|text| - |WithoutScheme(text)|];
    assert text == s + WithoutScheme(text);
    if "http://" <= text {
      assert s == text[..7];
    } else if "https://" <= text {
      assert s == text[..8];
    } else {
      assert s == "";
    }
  }

  lemma SlashSplit(n: string) returns (p: string)
    ensures Path(p) && n == BeforeSlash(n) + p
  {
    p := n[IndexOf(n, '/')..];
  }

  lemma SuffixSplit(h: string) returns (d: string)
    ensures Domain(d) && h == WithoutSuffix(h) + d
  {
    d := h[|WithoutSuffix(h)|..];
    assert h == WithoutSuffix(h) + d;
  }

  lemma Assemble(text: string, s: string, n: string, h: string, p: string, b: string, d: string)
    requires text == s + n && n == h + p && h == b + d
    requires Scheme(s) && Domain(d) && Path(p)
    ensures Spells(text, b, s, d, p)
  {
    assert s + (b + d + p) == s + b + d + p;
  }

  /** What is left is spelled out by the text, with what was removed. */
  lemma BareIsSpelled(text: string)
    ensures exists s, d, p :: Spells(text, Bare(text), s, d, p)
  {
    var s := SchemeSplit(text);
    var p := SlashSplit(WithoutScheme(text));
    var d := SuffixSplit(BeforeSlash(WithoutScheme(text)));
    Assemble(text, s, WithoutScheme(text), BeforeSlash(WithoutScheme(text)), p, Bare(text), d);
  }

  lemma SpelledIsBare(text: string, shop: string, s: string, d: string, p: string)
    requires Label(shop) && Spells(text, shop, s, d, p)
    ensures Bare(text) == shop
  {
    var h := shop + d;
    assert HostText(SUFFIX);
    assert HostText(h);
    assert text == s + h + p;
    SchemeRemoved(s, h, p);
    SlashCut(h, p);
    SuffixCut(shop, d);
  }

  /** Cleaning succeeds with a label exactly on the texts that, trimmed and lower-cased, spell that label. */
  lemma CleanedIff(raw: string, shop: string)
    ensures Cleaned(raw) == Some(shop) <==>
            Label(shop) && exists s, d, p :: Spells(Lower(Trim(raw)), shop, s, d, p)
  {
    var text := Lower(Trim(raw));
    BareIsSpelled(text);
    if Label(shop) {
      forall s, d, p | Spells(text, shop, s, d, p) ensures Bare(text) == shop {
        SpelledIsBare(text, shop, s, d, p);
      }
    }
  }

  lemma LabelIsPlain(shop: string)
    requires Label(shop)
    ensures Lower(Trim(shop)) == shop
  {
    StripTrims(shop, JsSpace);
  }

  /** Cleaning twice is cleaning once. */
  lemma CleanIdempotent(raw: string)
    requires Cleaned(raw).Some?
    ensures Cleaned(Cleaned(raw).value) == Cleaned(raw)
  {
    LabelCleans(Cleaned(raw).value);
  }

  lemma LabelIsBare(shop: string)
    requires Label(shop)
    ensures Bare(shop) == shop
  {
    assert shop == "" + shop + "" + "";
    SpelledIsBare(shop, shop, "", "", "");
  }

  /** A label cleans to itself. */
  lemma LabelCleans(shop: string)
    requires Label(shop)
    ensures Cleaned(shop) == Some(shop)
  {
    LabelIsPlain(shop);
    LabelIsBare(shop);
  }

  lemma LowerAppend(a: string, b: string)
    ensures Lower(a + b) == Lower(a) + Lower(b)
  {
  }

  lemma LowerFixed()
    ensures Lower("") == "" && Lower("http://") == "http://" && Lower("https://") == "https://" &&
            Lower(SUFFIX) == SUFFIX
  {
  }

  lemma TrimmedUrl(shop: string, s: string, d: string, p: string)
    requires Label(shop) && Scheme(s) && Domain(d) && Path(p) && Trimmed(p, JsSpace)
    ensures Trimmed(s + shop + d + p, JsSpace)
  {
    var raw := s + shop + d + p;
    assert raw[0] == if s == "" then shop[0] else 'h';
    assert SUFFIX[|SUFFIX| - 1] == 'p';
    assert raw[|raw| - 1] == if p != "" then p[|p| - 1] else if d != "" then d[|d| - 1] else shop[|shop| - 1];
  }

  lemma LowerUrl(shop: string, s: string, d: string, p: string)
    requires Label(shop) && Scheme(s) && Domain(d)
    ensures Lower(s + shop + d + p) == s + shop + d + Lower(p)
  {
    LabelIsPlain(shop);
    StripTrims(shop, JsSpace);
    LowerFixed();
    LowerAppend(s, shop);
    LowerAppend(s + shop, d);
    LowerAppend(s + shop + d, p);
  }

  /** A label, its host name and every http or https URL on that host clean to the label. */
  lemma HostAndUrlsClean(shop: string, s: string, d: string, p: string)
    requires Label(shop) && Scheme(s) && Domain(d) && Path(p) && Trimmed(p, JsSpace)
    ensures Cleaned(s + shop + d + p) == Some(shop)
  {
    var raw := s + shop + d + p;
    TrimmedUrl(shop, s, d, p);
    StripTrims(raw, JsSpace);
    LowerUrl(shop, s, d, p);
    SpelledIsBare(Lower(raw), shop, s, d, Lower(p));
  }
}
