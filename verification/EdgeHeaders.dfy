/** middleware.js: the plain-address test and the headers sent upstream. */
module EdgeHeaders {
  import opened Text

  const PROXY_AUTH_HEADER := "x-liratek-proxy-auth"
  const CLIENT_IP_FORWARD_HEADER := "x-liratek-client-ip"
  const VERCEL_CLIENT_IP_HEADER := "x-real-ip"
  const MIN_PROXY_SECRET_LENGTH := 32

  /** `25[0-5]|2[0-4]\d|1\d\d|[1-9]?\d`. */
  predicate OctetPattern(s: string) {
    (|s| == 3 && s[0] == '2' && s[1] == '5' && '0' <= s[2] <= '5') ||
    (|s| == 3 && s[0] == '2' && '0' <= s[1] <= '4' && Digit(s[2])) ||
    (|s| == 3 && s[0] == '1' && Digit(s[1]) && Digit(s[2])) ||
    (|s| == 2 && '1' <= s[0] <= '9' && Digit(s[1])) ||
    (|s| == 1 && Digit(s[0]))
  }

  /** The IPv4 pattern as a language: three octets with a dot, then one without. */
  ghost predicate Ipv4Language(v: string) {
    exists a, b, c, d :: SpelledBy(v, a, b, c, d)
  }

  predicate SpelledBy(v: string, a: string, b: string, c: string, d: string) {
    OctetPattern(a) && OctetPattern(b) && OctetPattern(c) && OctetPattern(d) && v == Dotted([a, b, c, d])
  }

  function Dotted(parts: seq<string>): string {
    Join(parts, '.')
  }

  predicate Ipv4(v: string) {
    var parts := Split(v, '.');
    |parts| == 4 && forall i :: 0 <= i < 4 ==> OctetPattern(parts[i])
  }

  function DigitChar(n: nat): char
    requires n < 10
  {
    ('0' as int + n) as char
  }

  type Byte = n: int | 0 <= n < 256

  /** The decimal text of a byte, without leading zeros. */
  function ByteText(n: Byte): string {
    if n < 10 then [DigitChar(n)]
    else if n < 100 then [DigitChar(n / 10), DigitChar(n % 10)]
    else [DigitChar(n / 100), DigitChar(n / 10 % 10), DigitChar(n % 10)]
  }

  datatype Address = Address(a: Byte, b: Byte, c: Byte, d: Byte)

  function AddressText(x: Address): string {
    Dotted([ByteText(x.a), ByteText(x.b), ByteText(x.c), ByteText(x.d)])
  }

  function DigitValue(c: char): int {
    c as int - '0' as int
  }

  /** The value a decimal text of up to three digits writes. */
  function TextValue(s: string): int {
    if |s| == 1 then DigitValue(s[0])
    else if |s| == 2 then 10 * DigitValue(s[0]) + DigitValue(s[1])
    else if |s| == 3 then 100 * DigitValue(s[0]) + 10 * DigitValue(s[1]) + DigitValue(s[2])
    else -1
  }

  lemma OctetOfByte(n: Byte)
    ensures OctetPattern(ByteText(n)) && TextValue(ByteText(n)) == n
  {
    if n >= 100 {
      assert n / 10 % 10 == n / 10 - 10 * (n / 100);
      assert n == 100 * (n / 100) + 10 * (n / 10 % 10) + n % 10;
    }
  }

  /** The octet pattern accepts exactly the decimal texts of the bytes. */
  lemma OctetIsByte(s: string)
    requires OctetPattern(s)
    ensures 0 <= TextValue(s) < 256 && ByteText(TextValue(s)) == s
  {
    var n := TextValue(s);
    if |s| == 3 {
      assert n / 100 == DigitValue(s[0]) && n / 10 == 10 * DigitValue(s[0]) + DigitValue(s[1]) &&
             n % 10 == DigitValue(s[2]);
    } else if |s| == 2 {
      assert n / 10 == DigitValue(s[0]) && n % 10 == DigitValue(s[1]);
    }
  }

  lemma OctetHasNoDot(s: string)
    requires OctetPattern(s)
    ensures '.' !in s
  {
    forall c | c in s ensures c != '.' {
      assert c == s[0] || (|s| > 1 && c == s[1]) || (|s| > 2 && c == s[2]);
    }
  }

  /** The test by splitting recognizes the pattern's language. */
  lemma Ipv4IsLanguage(v: string)
    ensures Ipv4(v) <==> Ipv4Language(v)
  {
    if Ipv4(v) {
      var p := Split(v, '.');
      FourParts(v);
      assert SpelledBy(v, p[0], p[1], p[2], p[3]);
    }
    if a, b, c, d :| SpelledBy(v, a, b, c, d) {
      SplitOctets(a, b, c, d);
    }
  }

  lemma FourParts(v: string)
    requires |Split(v, '.')| == 4
    ensures var p := Split(v, '.'); v == Dotted([p[0], p[1], p[2], p[3]])
  {
    var p := Split(v, '.');
    JoinSplit(v, '.');
    assert p == [p[0], p[1], p[2], p[3]];
  }

  lemma SplitOctets(a: string, b: string, c: string, d: string)
    requires OctetPattern(a) && OctetPattern(b) && OctetPattern(c) && OctetPattern(d)
    ensures Split(Dotted([a, b, c, d]), '.') == [a, b, c, d]
  {
    OctetHasNoDot(a);
    OctetHasNoDot(b);
    OctetHasNoDot(c);
    OctetHasNoDot(d);
    SplitJoin([a, b, c, d], '.');
  }

  /** Printing any four bytes is accepted, and two addresses never print alike. */
  lemma PrintedAccepted(x: Address, y: Address)
    ensures Ipv4(AddressText(x))
    ensures AddressText(x) == AddressText(y) ==> x == y
  {
    OctetsOf(x);
    OctetsOf(y);
  }

  lemma OctetsOf(x: Address)
    ensures var p := Split(AddressText(x), '.');
            p == [ByteText(x.a), ByteText(x.b), ByteText(x.c), ByteText(x.d)] &&
            (forall i :: 0 <= i < 4 ==> OctetPattern(p[i])) &&
            x.a == TextValue(p[0]) && x.b == TextValue(p[1]) && x.c == TextValue(p[2]) && x.d == TextValue(p[3])
  {
    OctetOfByte(x.a);
    OctetOfByte(x.b);
    OctetOfByte(x.c);
    OctetOfByte(x.d);
    SplitOctets(ByteText(x.a), ByteText(x.b), ByteText(x.c), ByteText(x.d));
  }

  /** Every accepted text is the printing of an address. */
  lemma AcceptedPrinted(v: string)
    requires Ipv4(v)
    ensures exists x :: AddressText(x) == v
  {
    var p := Split(v, '.');
    FourParts(v);
    OctetIsByte(p[0]);
    OctetIsByte(p[1]);
    OctetIsByte(p[2]);
    OctetIsByte(p[3]);
    var x := Address(TextValue(p[0]), TextValue(p[1]), TextValue(p[2]), TextValue(p[3]));
    assert AddressText(x) == v;
  }

  // ----- the upstream headers -----

  predicate Ipv6Char(c: char) {
    Digit(c) || 'a' <= c <= 'f' || 'A' <= c <= 'F' || c == ':' || c == '.'
  }

  /** `/^[0-9a-fA-F:.]{2,45}$/`. */
  predicate Ipv6(v: string) {
    2 <= |v| <= 45 && forall i :: 0 <= i < |v| ==> Ipv6Char(v[i])
  }

  function PlainIp(value: Option<string>): Option<string> {
    var v := Trim(if value.Some? then value.value else "");
    if Ipv4(v) then Some(v) else if ':' in v && Ipv6(v) then Some(v) else None
  }

  /** An address is forwarded exactly when, trimmed, it is four printed bytes, or has a colon and the shape of IPv6. */
  lemma PlainIpIff(value: Option<string>, ip: string)
    ensures PlainIp(value) == Some(ip) <==>
            ip == Trim(if value.Some? then value.value else "") &&
            ((exists x :: AddressText(x) == ip) ||
             (':' in ip && 2 <= |ip| <= 45 &&
              forall i :: 0 <= i < |ip| ==>
                            '0' <= ip[i] <= '9' || 'a' <= ip[i] <= 'f' || 'A' <= ip[i] <= 'F' || ip[i] in ":."))
  {
    assert forall c :: c in ":." <==> c == ':' || c == '.';
    if Ipv4(ip) {
      AcceptedPrinted(ip);
    }
    if x :| AddressText(x) == ip {
      PrintedAccepted(x, x);
    }
  }

  /** Header names are lower-case, as the platform's header object keeps them. */
  type Headers = map<string, string>

  /**
   * Upstream, the two headers hold the usable secret and the address the platform saw, or are missing; the host is
   * dropped; every other header is the visitor's.
   */
  ghost predicate Upstream(incoming: Headers, secret: Option<string>, headers: Headers) {
    (var s := Trim(if secret.Some? then secret.value else "");
     Get(headers, "x-liratek-proxy-auth") == if |s| >= 32 then Some(s) else None) &&
    Get(headers, "x-liratek-client-ip") == PlainIp(Get(incoming, "x-real-ip")) &&
    "host" !in headers &&
    forall n :: Ordinary(n) ==> Get(headers, n) == Get(incoming, n)
  }

  predicate Ordinary(name: string) {
    name != PROXY_AUTH_HEADER && name != CLIENT_IP_FORWARD_HEADER && name != "host"
  }

  method BuildUpstreamHeaders(incoming: Headers, secret: Option<string>) returns (headers: Headers)
    ensures Upstream(incoming, secret, headers)
  {
    HeaderNamesDiffer();
    headers := incoming;
    headers := headers - {"host"};
    headers := headers - {PROXY_AUTH_HEADER};
    headers := headers - {CLIENT_IP_FORWARD_HEADER};
    var s := Trim(if secret.Some? then secret.value else "");
    if |s| >= MIN_PROXY_SECRET_LENGTH {
      headers := headers[PROXY_AUTH_HEADER := s];
    }
    var ip := PlainIp(Get(incoming, VERCEL_CLIENT_IP_HEADER));
    if ip.Some? {
      headers := headers[CLIENT_IP_FORWARD_HEADER := ip.value];
    }
  }

  lemma HeaderNamesDiffer()
    ensures PROXY_AUTH_HEADER != CLIENT_IP_FORWARD_HEADER && PROXY_AUTH_HEADER != "host" &&
            CLIENT_IP_FORWARD_HEADER != "host"
  {
    assert |PROXY_AUTH_HEADER| == 20 && |CLIENT_IP_FORWARD_HEADER| == 19 && |"host"| == 4;
  }

  /** What the API is told does not depend on the client's own copies of the two headers, or on its host header. */
  lemma ClientCopiesIgnored(a: Headers, b: Headers, secret: Option<string>, x: Headers, y: Headers)
    requires forall n :: Ordinary(n) ==> Get(a, n) == Get(b, n)
    requires Upstream(a, secret, x) && Upstream(b, secret, y)
    ensures x == y
  {
    assert Ordinary(VERCEL_CLIENT_IP_HEADER) by {
      assert |VERCEL_CLIENT_IP_HEADER| == 9 && |PROXY_AUTH_HEADER| == 20 && |CLIENT_IP_FORWARD_HEADER| == 19 &&
             |"host"| == 4;
    }
    forall n ensures Get(x, n) == Get(y, n) {
      if Ordinary(n) {
        assert Get(a, n) == Get(b, n);
      }
    }
    assert forall n :: (n in x <==> Get(x, n).Some?) && (n in y <==> Get(y, n).Some?);
    assert forall n :: n in x ==> x[n] == Get(x, n).value;
  }
}
