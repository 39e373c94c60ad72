/** IPv4 text and prefix arithmetic: src/net/addr.cc and src/net/subnet.cc, with the parts of the
    Boost address classes they call. Addresses are naturals below 2^32. */
module Ipv4 {
  import opened Text
  import opened Wrappers

  const MAX_PREFIX: nat := 32
  const ADDRESSES: nat := 0x1_0000_0000
  const INT_MAX: nat := 0x7fff_ffff

  datatype Cidr = Cidr(addr: nat, prefix: nat) {
    /** What a parsed network satisfies. */
    predicate Valid() { addr < ADDRESSES && prefix <= MAX_PREFIX }
  }

  // ---------------------------------------------------------------- decimal text

  predicate IsDigit(c: char) { '0' <= c <= '9' }

  predicate AllDigits(s: string) { s != "" && forall c <- s :: IsDigit(c) }

  function Digit(n: nat): (c: char)
    requires n < 10
    ensures IsDigit(c)
  {
    '0' + n as char
  }

  function Dec(n: nat): string {
    if n < 10 then [Digit(n)] else Dec(n / 10) + [Digit(n % 10)]
  }

  /** Numerals are non-empty, made of digits, and have no leading zero. */
  lemma {:induction false} DecIsNumeral(n: nat)
    ensures AllDigits(Dec(n)) && (Dec(n)[0] == '0' <==> n == 0)
  {
    if n >= 10 { DecIsNumeral(n / 10); }
  }

  function DecValue(s: string): nat
    requires forall c <- s :: IsDigit(c)
  {
    if s == "" then 0 else
      var last := s[|s| - 1];
      assert IsDigit(last);
      10 * DecValue(s[..|s| - 1]) + (last as int - '0' as int)
  }

  lemma {:induction false} DecValueOfDec(n: nat)
    ensures AllDigits(Dec(n)) && DecValue(Dec(n)) == n
  {
    DecIsNumeral(n);
    if n >= 10 {
      DecValueOfDec(n / 10);
      assert Dec(n)[..|Dec(n)| - 1] == Dec(n / 10);
    }
  }

  lemma {:induction false} DecOfDecValue(s: string)
    requires AllDigits(s) && (s[0] == '0' ==> s == "0")
    ensures Dec(DecValue(s)) == s
  {
    if |s| == 1 {
      assert s[..0] == "" && IsDigit(s[0]);
      assert DecValue(s) == s[0] as int - '0' as int;
    } else {
      var h := s[..|s| - 1];
      assert h[0] == s[0];
      if h == "0" { assert false; }
      DecOfDecValue(h);
      var last := s[|s| - 1];
      assert IsDigit(last) && s == h + [last];
      var v := DecValue(h);
      assert v == 0 ==> h == "0" by { assert Dec(0) == "0"; }
      var n := DecValue(s);
      assert n == 10 * v + (last as int - '0' as int);
      assert n / 10 == v && Digit(n % 10) == last;
    }
  }

  lemma {:induction false} DecLength(n: nat)
    requires n <= 255
    ensures |Dec(n)| <= 3
  {
    assert n >= 100 ==> Dec(n) == Dec(n / 10 / 10) + [Digit(n / 10 % 10)] + [Digit(n % 10)];
  }

  // ---------------------------------------------------------------- dotted quads

  /** One part of an address: one to three digits, no leading zero, at most 255. */
  function ParseOctet(s: string): (r: Option<nat>)
    ensures r.Some? ==> r.value <= 255
  {
    if AllDigits(s) && |s| <= 3 && (s[0] == '0' ==> |s| == 1) && DecValue(s) <= 255
    then Some(DecValue(s)) else None
  }

  lemma {:induction false} ParseOctetExact(s: string, n: nat)
    requires n <= 255
    ensures ParseOctet(s) == Some(n) <==> s == Dec(n)
  {
    DecIsNumeral(n);
    DecValueOfDec(n);
    DecLength(n);
    if ParseOctet(s).Some? { DecOfDecValue(s); }
  }

  function Octets(a: nat): (r: seq<nat>)
    requires a < ADDRESSES
    ensures |r| == 4 && forall i | 0 <= i < 4 :: r[i] <= 255
  {
    var b := a / 0x100;
    var c := b / 0x100;
    [c / 0x100, c % 0x100, b % 0x100, a % 0x100]
  }

  function FromOctets(a: nat, b: nat, c: nat, d: nat): (n: nat)
    ensures a <= 255 && b <= 255 && c <= 255 && d <= 255 ==> n < ADDRESSES
  {
    ((a * 0x100 + b) * 0x100 + c) * 0x100 + d
  }

  lemma OctetsSum(a: nat)
    requires a < ADDRESSES
    ensures var o := Octets(a); FromOctets(o[0], o[1], o[2], o[3]) == a
  {
  }

  function QuadText(o: seq<string>): string
    requires |o| == 4
  {
    o[0] + "." + o[1] + "." + o[2] + "." + o[3]
  }

  /** `address_v4::to_string`. */
  function RenderQuad(a: nat): string
    requires a < ADDRESSES
  {
    var o := Octets(a);
    QuadText([Dec(o[0]), Dec(o[1]), Dec(o[2]), Dec(o[3])])
  }

  /** `make_address_v4`: four parts separated by dots and nothing after the last. */
  function ParseQuad(s: string): (r: Option<nat>)
    ensures r.Some? ==> r.value < ADDRESSES
  {
    var t := Tokens(s, '.');
    if |t| != 4 || Join(t, '.') != s then None else
      var a, b, c, d := ParseOctet(t[0]), ParseOctet(t[1]), ParseOctet(t[2]), ParseOctet(t[3]);
      if a.Some? && b.Some? && c.Some? && d.Some?
      then Some(FromOctets(a.value, b.value, c.value, d.value))
      else None
  }

  lemma {:induction false} QuadTextIsJoin(o: seq<string>)
    requires |o| == 4
    ensures Join(o, '.') == QuadText(o)
  {
    var b := o[1..];
    var c := o[2..];
    var d := o[3..];
    assert b[1..] == c && c[1..] == d;
    assert Join(d, '.') == o[3];
    assert Join(c, '.') == o[2] + ['.'] + o[3];
    assert Join(b, '.') == o[1] + ['.'] + (o[2] + ['.'] + o[3]);
    assert Join(o, '.') == o[0] + ['.'] + Join(b, '.');
  }

  lemma OctetsUnique(a: nat, b: nat, c: nat, d: nat)
    requires a <= 255 && b <= 255 && c <= 255 && d <= 255
    ensures Octets(FromOctets(a, b, c, d)) == [a, b, c, d]
  {
    var n := FromOctets(a, b, c, d);
    assert n / 0x100 == (a * 0x100 + b) * 0x100 + c;
    assert n / 0x100 / 0x100 == a * 0x100 + b;
  }

  /** A dotted quad reads as the address it is the rendering of, and as no other: the text of an
      address is unique. */
  lemma ParseQuadExact(s: string, a: nat)
    requires a < ADDRESSES
    ensures ParseQuad(s) == Some(a) <==> s == RenderQuad(a)
  {
    if s == RenderQuad(a) {
      RenderedQuadParses(a);
    }
    if ParseQuad(s) == Some(a) {
      ParsedQuadRenders(s, a);
    }
  }

  lemma RenderedQuadParses(a: nat)
    requires a < ADDRESSES
    ensures ParseQuad(RenderQuad(a)) == Some(a)
  {
    var o := Octets(a);
    var ts := [Dec(o[0]), Dec(o[1]), Dec(o[2]), Dec(o[3])];
    QuadTextIsJoin(ts);
    DecIsNumeral(o[0]);
    DecIsNumeral(o[1]);
    DecIsNumeral(o[2]);
    DecIsNumeral(o[3]);
    TokensOfJoin(ts, '.');
    ParseOctetExact(ts[0], o[0]);
    ParseOctetExact(ts[1], o[1]);
    ParseOctetExact(ts[2], o[2]);
    ParseOctetExact(ts[3], o[3]);
    OctetsSum(a);
  }

  lemma ParsedQuadRenders(s: string, n: nat)
    requires ParseQuad(s) == Some(n)
    ensures n < ADDRESSES && RenderQuad(n) == s
  {
    var t := Tokens(s, '.');
    var a, b, c, d := ParseOctet(t[0]).value, ParseOctet(t[1]).value, ParseOctet(t[2]).value, ParseOctet(t[3]).value;
    ParseOctetExact(t[0], a);
    ParseOctetExact(t[1], b);
    ParseOctetExact(t[2], c);
    ParseOctetExact(t[3], d);
    OctetsUnique(a, b, c, d);
    assert t == [Dec(a), Dec(b), Dec(c), Dec(d)];
    QuadTextIsJoin(t);
  }

  // ---------------------------------------------------------------- what the texts say

  /** A numeral is written with its most significant digit first. */
  lemma {:induction false} DecSpelling(n: nat)
    ensures n < 10 ==> |Dec(n)| == 1 && Dec(n)[0] as int == 48 + n
    ensures n >= 10 ==> Dec(n) == Dec(n / 10) + Dec(n % 10)
  {
  }

  /** The four bytes of an address, the most significant first. */
  lemma {:induction false} QuadSpelling(a: nat)
    requires a < 0x1_0000_0000
    ensures RenderQuad(a) == Dec(a / 0x100_0000) + "." + Dec(a / 0x1_0000 % 0x100) + "."
                             + Dec(a / 0x100 % 0x100) + "." + Dec(a % 0x100)
  {
    hide Dec, Octets;
    BytesOf(a);
  }

  lemma BytesOf(a: nat)
    requires a < 0x1_0000_0000
    ensures Octets(a) == [a / 0x100_0000, a / 0x1_0000 % 0x100, a / 0x100 % 0x100, a % 0x100]
  {
    assert a / 0x100 / 0x100 == a / 0x1_0000 && a / 0x100 / 0x100 / 0x100 == a / 0x100_0000;
  }

  /** The parts of a dotted quad have the values of the four bytes, the first the most significant. */
  lemma {:induction false} QuadReads(s: string, a: nat)
    requires ParseQuad(s) == Some(a)
    ensures var t := Tokens(s, '.');
            && |t| == 4 && t[0] == Dec(a / 0x100_0000) && t[1] == Dec(a / 0x1_0000 % 0x100)
            && t[2] == Dec(a / 0x100 % 0x100) && t[3] == Dec(a % 0x100)
  {
    hide Dec, ParseQuad;
    ParsedQuadRenders(s, a);
    QuadSpelling(a);
    var ts := [Dec(a / 0x100_0000), Dec(a / 0x1_0000 % 0x100), Dec(a / 0x100 % 0x100), Dec(a % 0x100)];
    QuadTextIsJoin(ts);
    forall x <- ts ensures '.' !in x && x != "" {
      DecIsNumeral(a / 0x100_0000);
      DecIsNumeral(a / 0x1_0000 % 0x100);
      DecIsNumeral(a / 0x100 % 0x100);
      DecIsNumeral(a % 0x100);
    }
    assert ts[3] in ts;
    TokensOfJoin(ts, '.');
  }

  lemma NextBytes(a: nat)
    requires a % 0x100 < 0xff
    ensures (a + 1) / 0x100 == a / 0x100 && (a + 1) % 0x100 == a % 0x100 + 1
    ensures (a + 1) / 0x1_0000 == a / 0x1_0000 && (a + 1) / 0x100_0000 == a / 0x100_0000
  {
    assert a == 0x100 * (a / 0x100) + a % 0x100;
    assert (a + 1) / 0x100 == a / 0x100;
    assert (a + 1) / 0x100 / 0x100 == (a + 1) / 0x1_0000 && a / 0x100 / 0x100 == a / 0x1_0000;
    assert (a + 1) / 0x1_0000 / 0x100 == (a + 1) / 0x100_0000 && a / 0x1_0000 / 0x100 == a / 0x100_0000;
  }

  lemma {:induction false} QuadFront(a: nat)
    requires a < 0x1_0000_0000
    ensures RenderQuad(a) ==
            (Dec(a / 0x100_0000) + "." + Dec(a / 0x1_0000 % 0x100) + "." + Dec(a / 0x100 % 0x100)) + "."
              + Dec(a % 0x100)
  {
    hide Dec, RenderQuad;
    QuadSpelling(a);
  }

  /** One more in the last byte changes the last part only. */
  lemma NextQuad(a: nat)
    requires a < 0x1_0000_0000 && a % 0x100 < 0xff
    ensures exists front: string ::
      RenderQuad(a) == front + "." + Dec(a % 0x100) && RenderQuad(a + 1) == front + "." + Dec(a % 0x100 + 1)
  {
    hide Dec, RenderQuad;
    QuadFront(a);
    QuadFront(a + 1);
    NextBytes(a);
  }

  /** One address, spelt out. */
  lemma OneAddress()
    ensures RenderCidr(Cidr(0x0AF4_0102, 24)) == "10.244.1.2/24"
    ensures ParseAddr("10.244.1.2/24") == Some(Cidr(0x0AF4_0102, 24))
    ensures ParseNetwork("10.244.1.2/24") == Some(Cidr(0x0AF4_0102, 24))
  {
    hide RenderQuad, ParseAddr, ParseNetwork, Dec;
    OneNumeral();
    QuadSpelling(0x0AF4_0102);
    assert RenderQuad(0x0AF4_0102) == "10" + "." + "244" + "." + "1" + "." + "2";
    RenderedReadsBack(Cidr(0x0AF4_0102, 24));
  }

  lemma OneNumeral()
    ensures Dec(10) == "10" && Dec(244) == "244" && Dec(24) == "24" && Dec(1) == "1" && Dec(2) == "2"
  {
    assert Dec(24) == Dec(2) + [Digit(4)];
    assert Dec(244) == Dec(24) + [Digit(4)];
  }

  // ---------------------------------------------------------------- CIDR text

  function RenderCidr(c: Cidr): string
    requires c.addr < ADDRESSES
  {
    RenderQuad(c.addr) + "/" + Dec(c.prefix)
  }

  function ParsePrefixed(s: string, limit: nat): (r: Option<Cidr>)
    ensures r.Some? ==> r.value.addr < ADDRESSES && r.value.prefix <= limit
  {
    var i := IndexOf(s, '/');
    if i == |s| then None else
      var q, d := ParseQuad(s[..i]), s[i + 1..];
      if q.Some? && AllDigits(d) && DecValue(d) <= limit then Some(Cidr(q.value, DecValue(d))) else None
  }

  /** `Subnet::init` on IPv4 text: a prefix is required and is at most 32. None stands for the
      exception, and for IPv6 text, which every later call rejects. */
  function ParseNetwork(s: string): (r: Option<Cidr>)
    ensures r.Some? ==> r.value.Valid()
  {
    ParsePrefixed(s, MAX_PREFIX)
  }

  /** The `Addr` constructor on IPv4 text: the prefix is optional and only has to fit an int. */
  function ParseAddr(s: string): (r: Option<Cidr>)
    ensures r.Some? ==> r.value.addr < ADDRESSES
  {
    if '/' !in s then
      var q := ParseQuad(s);
      if q.Some? then Some(Cidr(q.value, MAX_PREFIX)) else None
    else ParsePrefixed(s, INT_MAX)
  }

  lemma QuadHasNoSlash(a: nat)
    requires a < ADDRESSES
    ensures forall c <- RenderQuad(a) :: IsDigit(c) || c == '.'
    ensures RenderQuad(a) != ""
  {
    var o := Octets(a);
    DecIsNumeral(o[0]);
    DecIsNumeral(o[1]);
    DecIsNumeral(o[2]);
    DecIsNumeral(o[3]);
  }

  lemma {:induction false} PrefixedParses(a: nat, d: string, limit: nat)
    requires a < ADDRESSES && AllDigits(d) && DecValue(d) <= limit
    ensures ParsePrefixed(RenderQuad(a) + "/" + d, limit) == Some(Cidr(a, DecValue(d)))
    ensures '/' in RenderQuad(a) + "/" + d
  {
    var q := RenderQuad(a);
    var s := q + "/" + d;
    assert s[|q|] == '/';
    assert '/' !in q by { QuadHasNoSlash(a); }
    IndexOfPrefix(q, d, '/');
    assert s[..|q|] == q && s[|q| + 1..] == d;
    RenderedQuadParses(a);
  }

  /** `Addr(s).getAddrCidr() == s`, and the network reader agrees, for every rendered CIDR. */
  lemma RenderedReadsBack(c: Cidr)
    requires c.Valid()
    ensures ParseAddr(RenderCidr(c)) == Some(c) && ParseNetwork(RenderCidr(c)) == Some(c)
  {
    DecValueOfDec(c.prefix);
    PrefixedParses(c.addr, Dec(c.prefix), MAX_PREFIX);
    PrefixedParses(c.addr, Dec(c.prefix), INT_MAX);
  }

  lemma RenderCidrInjective(c: Cidr, e: Cidr)
    requires c.Valid() && e.Valid() && RenderCidr(c) == RenderCidr(e)
    ensures c == e
  {
    RenderedReadsBack(c);
    RenderedReadsBack(e);
  }

  /** A bare address, as the VXLAN device is given one, reads back as a /32. */
  lemma BareReadsBack(a: nat)
    requires a < ADDRESSES
    ensures ParseAddr(RenderQuad(a)) == Some(Cidr(a, MAX_PREFIX))
  {
    QuadHasNoSlash(a);
    ParseQuadExact(RenderQuad(a), a);
  }

  /** The prefix of a CIDR text is written without leading zeros. */
  predicate PlainPrefix(s: string) {
    var d := s[IndexOf(s, '/')..];
    |d| > 2 ==> d[1] != '0'
  }

  /** Rendering a parsed network gives its text back unless the prefix was written with a leading
      zero; only then does the subnet a node returns differ from the one it registered. */
  lemma NetworkTextExact(s: string)
    requires ParseNetwork(s).Some?
    ensures RenderCidr(ParseNetwork(s).value) == s <==> PlainPrefix(s)
  {
    var i := IndexOf(s, '/');
    var q, d := s[..i], s[i + 1..];
    ParsedQuadRenders(q, ParseQuad(q).value);
    assert RenderCidr(ParseNetwork(s).value) == q + "/" + Dec(DecValue(d));
    CutAtSlash(s);
    PrefixTextExact(s, q, d);
  }

  lemma {:induction false} CutAtSlash(s: string)
    requires IndexOf(s, '/') < |s|
    ensures s == s[..IndexOf(s, '/')] + "/" + s[IndexOf(s, '/') + 1..]
  {
  }

  lemma {:induction false} PrefixTextExact(s: string, q: string, d: string)
    requires s == q + "/" + d && '/' !in q && AllDigits(d)
    ensures q + "/" + Dec(DecValue(d)) == s <==> PlainPrefix(s)
  {
    IndexOfPrefix(q, d, '/');
    assert s[|q|..] == "/" + d;
    DecTextExact(d);
    SuffixUnique(q, Dec(DecValue(d)), d);
  }

  lemma {:induction false} DecLeadingZero(n: nat)
    ensures Dec(n)[0] == '0' ==> Dec(n) == "0"
  {
    DecIsNumeral(n);
  }

  lemma {:induction false} DecTextExact(d: string)
    requires AllDigits(d)
    ensures Dec(DecValue(d)) == d <==> (d[0] == '0' ==> |d| == 1)
  {
    if d[0] == '0' ==> |d| == 1 { DecOfDecValue(d); } else { DecIsNumeral(DecValue(d)); DecLeadingZero(DecValue(d)); }
  }

  lemma SuffixUnique(q: string, d: string, e: string)
    ensures q + "/" + d == q + "/" + e <==> d == e
  {
    assert (q + "/" + d)[|q| + 1..] == d && (q + "/" + e)[|q| + 1..] == e;
  }

  lemma CidrTextIsToken(c: Cidr)
    requires c.addr < ADDRESSES
    ensures forall x <- RenderCidr(c) :: IsDigit(x) || x == '.' || x == '/'
    ensures RenderCidr(c) != ""
  {
    QuadHasNoSlash(c.addr);
    DecIsNumeral(c.prefix);
  }
}
