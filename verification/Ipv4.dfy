/** IPv4 prefixes as address ranges: the parser with its 32-bit shifts and masks, and the closed
    forms it computes (section 3.1 of RFC 4632). */
module Ipv4 {
  import opened Wrappers
  import opened JsText
  import opened Bits32

  datatype Ipv4Range = Ipv4Range(
    address: string,
    network: int,
    prefixLength: nat,
    start: nat,
    end: nat,
    host: nat
  )

  function ParseOctet(value: string): Option<nat> {
    if !IsDigits(value) then None
    else if DigitsValue(value) <= 255 then Some(DigitsValue(value)) else None
  }

  /** The four octets shifted into place and or-ed together. */
  function JoinOctets(a: nat, b: nat, c: nat, d: nat): nat {
    Unsigned(Or32(Or32(Or32(Unsigned(Shl32(a, 24)), Shl32(b, 16)), Shl32(c, 8)), d))
  }

  function ParseNumber(address: string): Option<nat> {
    var parts := Split(address, '.');
    if |parts| != 4 then None
    else
      match (ParseOctet(parts[0]), ParseOctet(parts[1]), ParseOctet(parts[2]), ParseOctet(parts[3]))
      case (Some(a), Some(b), Some(c), Some(d)) => Some(JoinOctets(a, b, c, d))
      case _ => None
  }

  function MaskOf(prefixLength: nat): nat
    requires prefixLength <= 32
  {
    if prefixLength == 0 then 0 else Unsigned(Shl32(0xffff_ffff, 32 - prefixLength))
  }

  function RangeOf(address: string, host: nat, prefixLength: nat): Ipv4Range
    requires prefixLength <= 32
  {
    var mask := MaskOf(prefixLength);
    var network := And32(host, mask);
    var hostMask := Unsigned(Not32(mask));
    Ipv4Range(address, network, prefixLength, Unsigned(network), Unsigned(Or32(network, hostMask)), host)
  }

  function ParseRange(value: string): Option<Ipv4Range> {
    var parts := Split(value, '/');
    if parts[0] == "" || |parts| < 2 || parts[1] == "" then None
    else
      match JsInteger(parts[1])
      case None => None
      case Some(prefixLength) =>
        if prefixLength < 0 || prefixLength > 32 then None
        else
          match ParseNumber(parts[0])
          case None => None
          case Some(host) => Some(RangeOf(parts[0], host, prefixLength))
  }

  predicate Overlap(left: Ipv4Range, right: Ipv4Range) {
    left.start <= right.end && right.start <= left.end
  }

  predicate Contains(outer: Ipv4Range, inner: Ipv4Range) {
    outer.start <= inner.start && outer.end >= inner.end
  }

  /** The number of addresses of a prefix. */
  function Size(prefixLength: nat): nat
    requires prefixLength <= 32
  {
    Pow2(32 - prefixLength)
  }

  // ----- the shifts and masks in closed form

  lemma SignDoesNotMatter(x: int)
    ensures ToUint32(ToInt32(x)) == ToUint32(x)
  {
  }

  lemma UnsignedSmall(x: nat)
    requires x < WORD
    ensures ToUint32(x) == x
  {
  }

  lemma {:induction false} ShlSmall(a: nat, k: nat, d: nat)
    requires a < 256 && k < 32 && Pow2(k) == d
    requires d == 0x100 || d == 0x1_0000 || d == 0x100_0000
    ensures ToUint32(Shl32(a, k)) == a * d
  {
    UnsignedSmall(a);
    SignDoesNotMatter(a * d);
    UnsignedSmall(a * d);
  }

  lemma {:induction false} OrStep(x: int, y: int, high: nat, low: nat, k: nat)
    requires ToUint32(x) == high && ToUint32(y) == low
    requires Low(high, k) == 0 && low < Pow2(k) && high + low < WORD
    ensures ToUint32(Or32(x, y)) == high + low
  {
    OrLow(high, low, k);
    SignDoesNotMatter(high + low);
    UnsignedSmall(high + low);
  }

  lemma {:induction false} OrOctets(u: int, v: int, q: nat, k: nat, d: nat, high: nat, low: nat)
    requires d == Pow2(k) && high == q * d && low < d && high + low < WORD
    requires ToUint32(u) == high && ToUint32(v) == low
    ensures ToUint32(Or32(u, v)) == high + low
  {
    MultipleHasNoLow(q, k, d, high);
    OrStep(u, v, high, low, k);
  }

  /** The or of the shifted octets is the number they spell in base 256. */
  lemma JoinOctetsValue(a: nat, b: nat, c: nat, d: nat)
    requires a < 256 && b < 256 && c < 256 && d < 256
    ensures JoinOctets(a, b, c, d) == 0x100_0000 * a + 0x1_0000 * b + 0x100 * c + d
  {
    Pow2Word();
    var p, q, r := Unsigned(Shl32(a, 24)), Shl32(b, 16), Shl32(c, 8);
    assert ToUint32(p) == 0x100_0000 * a && ToUint32(q) == 0x1_0000 * b && ToUint32(r) == 0x100 * c by {
      ShlSmall(a, 24, 0x100_0000);
      ShlSmall(b, 16, 0x1_0000);
      ShlSmall(c, 8, 0x100);
      UnsignedSmall(p);
    }
    UnsignedSmall(d);
    OrFour(p, q, r, a, b, c, d);
  }

  lemma OrFour(p: int, q: int, r: int, a: nat, b: nat, c: nat, d: nat)
    requires a < 256 && b < 256 && c < 256 && d < 256
    requires ToUint32(p) == 0x100_0000 * a && ToUint32(q) == 0x1_0000 * b && ToUint32(r) == 0x100 * c
    ensures ToUint32(Or32(Or32(Or32(p, q), r), d)) == 0x100_0000 * a + 0x1_0000 * b + 0x100 * c + d
  {
    Pow2Word();
    OrOctets(p, q, a, 24, 0x100_0000, 0x100_0000 * a, 0x1_0000 * b);
    OrLastTwo(Or32(p, q), r, 0x100 * a + b, c, d);
  }

  lemma OrLastTwo(u: int, r: int, h: nat, c: nat, d: nat)
    requires c < 256 && d < 256 && h < 0x1_0000
    requires ToUint32(u) == 0x1_0000 * h && ToUint32(r) == 0x100 * c
    ensures ToUint32(Or32(Or32(u, r), d)) == 0x1_0000 * h + 0x100 * c + d
  {
    Pow2Word();
    OrOctets(u, r, h, 16, 0x1_0000, 0x1_0000 * h, 0x100 * c);
    OrLastOne(Or32(u, r), 0x100 * h + c, d);
  }

  lemma OrLastOne(u: int, h: nat, d: nat)
    requires d < 256 && h < 0x100_0000 && ToUint32(u) == 0x100 * h
    ensures ToUint32(Or32(u, d)) == 0x100 * h + d
  {
    Pow2Word();
    UnsignedSmall(d);
    OrOctets(u, d, h, 8, 0x100, 0x100 * h, d);
  }

  /** An address denotes a 32-bit number exactly when it is four dotted octets. */
  lemma {:induction false} ParseNumberValue(address: string)
    ensures ParseNumber(address).Some? <==>
            var parts := Split(address, '.'); |parts| == 4 && forall i :: 0 <= i < 4 ==> ParseOctet(parts[i]).Some?
    ensures ParseNumber(address).Some? ==>
              var parts := Split(address, '.');
              ParseNumber(address).value == 0x100_0000 * ParseOctet(parts[0]).value
                + 0x1_0000 * ParseOctet(parts[1]).value + 0x100 * ParseOctet(parts[2]).value
                + ParseOctet(parts[3]).value
    ensures ParseNumber(address).Some? ==> ParseNumber(address).value < WORD
  {
    hide JoinOctets;
    var parts := Split(address, '.');
    if ParseNumber(address).Some? {
      JoinOctetsValue(ParseOctet(parts[0]).value, ParseOctet(parts[1]).value,
                      ParseOctet(parts[2]).value, ParseOctet(parts[3]).value);
    }
  }

  lemma ShiftedOnes(d: nat)
    requires 1 <= d <= 0x8000_0000
    ensures ToUint32(ToInt32(0xffff_ffff * d)) == 0x1_0000_0000 - d
  {
    SignDoesNotMatter(0xffff_ffff * d);
    DivModUnique(0xffff_ffff * d, 0x1_0000_0000, d - 1, 0x1_0000_0000 - d);
  }

  lemma MaskValue(prefixLength: nat)
    requires prefixLength <= 32
    ensures Size(prefixLength) <= WORD
    ensures MaskOf(prefixLength) == WORD - Size(prefixLength)
  {
    Pow2Word();
    if prefixLength > 0 {
      assert Pow2(31) == 0x8000_0000;
      hide ToInt32, ToUint32, Pow2;
      Pow2Monotone(32 - prefixLength, 31);
      UnsignedSmall(0xffff_ffff);
      ShiftedOnes(Size(prefixLength));
      assert (32 - prefixLength) % 32 == 32 - prefixLength;
    }
  }

  lemma {:induction false} AndUnsigned(a: nat, b: nat, bits: nat)
    requires a < WORD && b < WORD && bits < WORD && BitAnd(a, b) == bits
    ensures ToUint32(And32(a, b)) == bits
  {
    UnsignedSmall(a);
    UnsignedSmall(b);
    SignDoesNotMatter(bits);
    UnsignedSmall(bits);
  }

  lemma {:induction false} NetworkValue(host: nat, prefixLength: nat)
    requires prefixLength <= 32 && host < WORD
    ensures ToUint32(And32(host, MaskOf(prefixLength))) == host - Low(host, 32 - prefixLength)
  {
    hide MaskOf;
    hide And32;
    hide BitAnd;
    var k := 32 - prefixLength;
    MaskValue(prefixLength);
    assert BitAnd(host, WORD - Pow2(k)) == host - Low(host, k) by {
      Pow2Word();
      AndHighMask(host, 32, k);
    }
    AndUnsigned(host, MaskOf(prefixLength), host - Low(host, k));
  }

  lemma NotValue(m: nat)
    requires m < WORD
    ensures ToUint32(Not32(m)) == WORD - 1 - m
  {
    UnsignedSmall(m);
    if m >= 0x8000_0000 {
      UnsignedSmall(WORD - 1 - m);
    } else {
      var complement: int := -1 - m;
      DivModUnique(complement, 0x1_0000_0000, -1, WORD - 1 - m);
    }
  }

  /** A block that starts on a multiple of its size below 2^32 ends below 2^32. */
  lemma BlockFits(start: nat, prefixLength: nat)
    requires prefixLength <= 32 && start < WORD && Low(start, 32 - prefixLength) == 0
    ensures start + Size(prefixLength) <= WORD
  {
    Pow2Word();
    Pow2Adds(prefixLength, 32 - prefixLength);
    var q := Multiple(start, 32 - prefixLength);
    var n, d := Pow2(prefixLength), Size(prefixLength);
    if n <= q {
      MulAtMost(n, q, d);
    } else {
      MulGrows(q, n, d);
    }
  }

  /** What every parsed range satisfies: it is the aligned block of its size around its host. */
  ghost predicate Aligned(r: Ipv4Range) {
    && r.prefixLength <= 32
    && Low(r.start, 32 - r.prefixLength) == 0
    && r.end == r.start + Size(r.prefixLength) - 1
    && r.start <= r.host <= r.end < WORD
  }

  lemma {:induction false} RangeOfAligned(address: string, host: nat, prefixLength: nat)
    requires prefixLength <= 32 && host < WORD
    ensures Aligned(RangeOf(address, host, prefixLength))
    ensures RangeOf(address, host, prefixLength).start == host - Low(host, 32 - prefixLength)
  {
    var k := 32 - prefixLength;
    LowCleared(host, k);
    var start := host - Low(host, k);
    NetworkValue(host, prefixLength);
    MaskValue(prefixLength);
    NotValue(MaskOf(prefixLength));
    UnsignedSmall(Unsigned(Not32(MaskOf(prefixLength))));
    BlockFits(start, prefixLength);
    OrStep(And32(host, MaskOf(prefixLength)), Unsigned(Not32(MaskOf(prefixLength))), start, Size(prefixLength) - 1, k);
  }

  /** The masking code in closed form: the start is the host minus its remainder by the block
      size, and the end is one block further minus one. */
  lemma RangeOfArithmetic(address: string, host: nat, prefixLength: nat)
    requires prefixLength <= 32 && host < WORD
    ensures var r := RangeOf(address, host, prefixLength);
            && r.start == host - host % Size(prefixLength)
            && r.end == r.start + Size(prefixLength) - 1
            && r.start <= host <= r.end < WORD
  {
    RangeOfAligned(address, host, prefixLength);
    LowIsMod(host, 32 - prefixLength);
  }

  lemma ParsedIsAligned(value: string)
    requires ParseRange(value).Some?
    ensures Aligned(ParseRange(value).value)
  {
    var parts := Split(value, '/');
    ParseNumberValue(parts[0]);
    RangeOfAligned(parts[0], ParseNumber(parts[0]).value, JsInteger(parts[1]).value);
  }

  /** On a grid of step `d`, a cell that touches a run of `c` cells lies inside it. */
  lemma BlocksNest(a: nat, b: nat, c: nat, d: nat)
    requires d > 0
    requires b * d < a * d + d && a * d < b * d + c * d
    ensures b * d <= a * d && a * d + d <= b * d + c * d
  {
    MulSplits(b, c, d);
    if a < b {
      MulGrows(a, b, d);
    } else if b + c <= a {
      MulAtMost(b + c, a, d);
    } else {
      MulAtMost(b, a, d);
      MulGrows(a, b + c, d);
    }
  }

  lemma ShorterPrefixContains(outer: Ipv4Range, inner: Ipv4Range)
    requires Aligned(outer) && Aligned(inner)
    requires outer.prefixLength <= inner.prefixLength && Overlap(outer, inner)
    ensures Contains(outer, inner)
  {
    var k1, k2 := 32 - outer.prefixLength, 32 - inner.prefixLength;
    Pow2Adds(k1 - k2, k2);
    LowOfSmaller(outer.start, k2, k1);
    var a := Multiple(inner.start, k2);
    var b := Multiple(outer.start, k2);
    BlocksNest(a, b, Pow2(k1 - k2), Pow2(k2));
  }

  /** Two parsed prefixes never overlap partially: they overlap exactly when the one with the
      shorter or equal prefix length contains the other. */
  lemma OverlapIsContainment(left: string, right: string)
    requires ParseRange(left).Some? && ParseRange(right).Some?
    ensures var l, r := ParseRange(left).value, ParseRange(right).value;
            && (Overlap(l, r) <==> Contains(l, r) || Contains(r, l))
            && (Overlap(l, r) && l.prefixLength <= r.prefixLength ==> Contains(l, r))
            && (Overlap(l, r) && r.prefixLength <= l.prefixLength ==> Contains(r, l))
  {
    ParsedIsAligned(left);
    ParsedIsAligned(right);
    var l, r := ParseRange(left).value, ParseRange(right).value;
    if Overlap(l, r) {
      if l.prefixLength <= r.prefixLength {
        ShorterPrefixContains(l, r);
      }
      if r.prefixLength <= l.prefixLength {
        ShorterPrefixContains(r, l);
      }
    }
  }

  // ----- every host and length has a text

  /** A dotted quad with a prefix length. */
  function RangeText(a: nat, b: nat, c: nat, d: nat, prefixLength: nat): string {
    Join([Decimal(a), Decimal(b), Decimal(c), Decimal(d)], ".") + "/" + Decimal(prefixLength)
  }

  lemma {:induction false} DecimalHolds(n: nat)
    ensures '.' !in Decimal(n) && '/' !in Decimal(n) && Trimmed(Decimal(n)) && Decimal(n) != ""
    ensures JsInteger(Decimal(n)) == Some(n) && (n < 256 ==> ParseOctet(Decimal(n)) == Some(n))
  {
    var text := Decimal(n);
    DecimalValue(n);
    hide Decimal;
    assert text[0] != '-' && text[0] != '+';
    TrimFacts(text);
  }

  lemma {:induction false} JoinAvoids(parts: seq<string>, separator: string, c: char)
    requires c !in separator && forall i :: 0 <= i < |parts| ==> c !in parts[i]
    ensures c !in Join(parts, separator)
  {
    if |parts| > 1 {
      JoinAvoids(parts[1..], separator, c);
    }
  }

  lemma {:induction false} OctetsRead(parts: seq<string>, a: nat, b: nat, c: nat, d: nat)
    requires |parts| == 4 && forall i :: 0 <= i < 4 ==> '.' !in parts[i] && '/' !in parts[i]
    requires ParseOctet(parts[0]) == Some(a) && ParseOctet(parts[1]) == Some(b)
    requires ParseOctet(parts[2]) == Some(c) && ParseOctet(parts[3]) == Some(d)
    ensures var text := Join(parts, ".");
            && '/' !in text && text != ""
            && ParseNumber(text) == Some(0x100_0000 * a + 0x1_0000 * b + 0x100 * c + d)
  {
    hide *;
    var text := Join(parts, ".");
    SplitOne("", '.');
    SplitJoin(parts, '.');
    JoinAvoids(parts, ".", '/');
    ParseNumberValue(text);
  }

  lemma {:induction false} DottedReads(a: nat, b: nat, c: nat, d: nat)
    requires a < 256 && b < 256 && c < 256 && d < 256
    ensures var text := Join([Decimal(a), Decimal(b), Decimal(c), Decimal(d)], ".");
            && '/' !in text && text != ""
            && ParseNumber(text) == Some(0x100_0000 * a + 0x1_0000 * b + 0x100 * c + d)
  {
    hide *;
    DecimalHolds(a);
    DecimalHolds(b);
    DecimalHolds(c);
    DecimalHolds(d);
    OctetsRead([Decimal(a), Decimal(b), Decimal(c), Decimal(d)], a, b, c, d);
  }

  /** Reading undoes printing: every host with every prefix length has a text that denotes it. */
  lemma RangeTextReads(a: nat, b: nat, c: nat, d: nat, prefixLength: nat)
    requires a < 256 && b < 256 && c < 256 && d < 256 && prefixLength <= 32
    ensures var range := ParseRange(RangeText(a, b, c, d, prefixLength));
            && range.Some? && range.value.prefixLength == prefixLength
            && range.value.host == 0x100_0000 * a + 0x1_0000 * b + 0x100 * c + d
  {
    var network := Join([Decimal(a), Decimal(b), Decimal(c), Decimal(d)], ".");
    DottedReads(a, b, c, d);
    DecimalHolds(prefixLength);
    hide Decimal, Join, ParseNumber, JsInteger, Split;
    SplitFirst(network, '/', Decimal(prefixLength));
    SplitOne(Decimal(prefixLength), '/');
    assert Split(RangeText(a, b, c, d, prefixLength), '/') == [network, Decimal(prefixLength)];
  }
}
