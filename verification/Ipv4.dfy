/** `inet_aton`-style IPv4 decoding, as `parse_numeric_ipv4` does it. */
module Ipv4 {
  import opened Text
  import opened Numerals

  // --- the meaning of a numeric host -----------------------------------------

  predicate AllDecimal(s: string) {
    forall i :: 0 <= i < |s| ==> '0' <= s[i] <= '9'
  }

  /** One dotted part: hex after `0x`, octal after a leading zero, else decimal. */
  function PartValue(part: string): Option<nat> {
    if part == "" then None else
      var read :=
        if StartsWith(Lower(part), "0x") then PyInt(part, 16)
        else if part[0] == '0' && |part| > 1 then PyInt(part, 8)
        else if AllDecimal(part) then PyInt(part, 10)
        else None;
      match read
      case None => None
      case Some(v) => if v < 0 then None else Some(v)
  }

  function Pow256(n: nat): (p: nat)
    ensures p >= 1
  {
    if n == 0 then 1 else 256 * Pow256(n - 1)
  }

  /** Bytes read as one number, most significant first. */
  function Positional(bytes: seq<nat>): nat {
    if bytes == [] then 0 else bytes[0] * Pow256(|bytes| - 1) + Positional(bytes[1..])
  }

  predicate InRange(values: seq<nat>) {
    && 1 <= |values| <= 4
    && (forall i :: 0 <= i < |values| - 1 ==> values[i] <= 0xFF)
    && values[|values| - 1] < Pow256(5 - |values|)
  }

  function PartValues(parts: seq<string>): Option<seq<nat>> {
    if exists i :: 0 <= i < |parts| && PartValue(parts[i]).None? then None
    else Some(seq(|parts|, i requires 0 <= i < |parts| => PartValue(parts[i]).value))
  }

  /** The address a numeric host names: leading bytes in place, the last part filling the rest. */
  function Address(values: seq<nat>): nat
    requires InRange(values)
  {
    var k := |values| - 1;
    Positional(values[..k]) * Pow256(4 - k) + values[k]
  }

  /** `None` exactly when there are not one to four parts, a part is malformed, or one is out of range. */
  function NumericIpv4(host: string): Option<nat> {
    match PartValues(Split(host, '.'))
    case None => None
    case Some(values) => if InRange(values) then Some(Address(values)) else None
  }

  lemma {:induction false} PositionalBound(bytes: seq<nat>)
    requires forall i :: 0 <= i < |bytes| ==> bytes[i] <= 0xFF
    ensures Positional(bytes) < Pow256(|bytes|)
  {
    if bytes != [] {
      PositionalBound(bytes[1..]);
      MulAtMost(bytes[0], 0xFF, Pow256(|bytes| - 1));
    }
  }

  lemma MulAtMost(a: nat, b: nat, c: nat)
    requires a <= b
    ensures a * c <= b * c
  {
  }

  lemma Pow256Small()
    ensures Pow256(0) == 1 && Pow256(1) == 256 && Pow256(2) == 0x1_0000
    ensures Pow256(3) == 0x100_0000 && Pow256(4) == 0x1_0000_0000
  {
  }

  lemma AddressIs32Bit(values: seq<nat>)
    requires InRange(values)
    ensures Address(values) < 0x1_0000_0000
  {
    var k := |values| - 1;
    var leading := values[..k];
    assert forall i :: 0 <= i < k ==> leading[i] == values[i];
    PositionalBound(leading);
    Pow256Small();
    MulAtMost(Positional(leading) + 1, Pow256(k), Pow256(4 - k));
    assert k == 0 || k == 1 || k == 2 || k == 3;
  }

  /** Every decoded address fits in 32 bits. */
  lemma NumericIpv4Is32Bit(host: string)
    ensures NumericIpv4(host).Some? ==> NumericIpv4(host).value < 0x1_0000_0000
  {
    if NumericIpv4(host).Some? {
      AddressIs32Bit(PartValues(Split(host, '.')).value);
    }
  }

  // --- shifts and ors ---------------------------------------------------------

  function Pow2(n: nat): (p: nat)
    ensures p >= 1
  {
    if n == 0 then 1 else 2 * Pow2(n - 1)
  }

  function ShiftLeft(a: nat, bits: nat): nat { a * Pow2(bits) }

  function BitOr(a: nat, b: nat): nat {
    if a == 0 && b == 0 then 0 else
      (if a % 2 == 1 || b % 2 == 1 then 1 else 0) + 2 * BitOr(a / 2, b / 2)
  }

  /** Or-ing into the cleared low bits is addition. */
  lemma {:induction false} OrIntoClearedBits(a: nat, bits: nat, v: nat)
    requires v < Pow2(bits)
    ensures BitOr(ShiftLeft(a, bits), v) == ShiftLeft(a, bits) + v
  {
    if bits == 0 {
      OrZero(a);
    } else {
      OrIntoClearedBits(a, bits - 1, v / 2);
      ShiftDoubles(a, bits);
      OrIntoEven(ShiftLeft(a, bits - 1), v);
    }
  }

  lemma ShiftDoubles(a: nat, bits: nat)
    requires bits >= 1
    ensures ShiftLeft(a, bits) == 2 * ShiftLeft(a, bits - 1)
  {
    assert a * (2 * Pow2(bits - 1)) == 2 * (a * Pow2(bits - 1));
  }

  /** The lowest bit of an even number is free. */
  lemma OrIntoEven(s: nat, v: nat)
    ensures BitOr(2 * s, v) == v % 2 + 2 * BitOr(s, v / 2)
  {
    assert (2 * s) / 2 == s && (2 * s) % 2 == 0;
  }

  lemma {:induction false} OrZero(a: nat)
    ensures BitOr(a, 0) == a
  {
    if a != 0 {
      OrZero(a / 2);
    }
  }

  lemma Pow2IsPow256(n: nat)
    ensures Pow2(8 * n) == Pow256(n)
  {
    if n > 0 {
      Pow2IsPow256(n - 1);
      assert Pow2(8 * n) == 256 * Pow2(8 * n - 8) by {
        assert Pow2(8 * n) == 2 * Pow2(8 * n - 1) == 4 * Pow2(8 * n - 2) == 8 * Pow2(8 * n - 3);
        assert Pow2(8 * n - 3) == 2 * Pow2(8 * n - 4) == 4 * Pow2(8 * n - 5) == 8 * Pow2(8 * n - 6);
        assert Pow2(8 * n - 6) == 2 * Pow2(8 * n - 7) == 4 * Pow2(8 * n - 8);
      }
    }
  }

  lemma {:induction false} PositionalSnoc(bytes: seq<nat>, v: nat)
    ensures Positional(bytes + [v]) == Positional(bytes) * 256 + v
  {
    if bytes == [] {
      assert [v][1..] == [];
      assert v * Pow256(0) == v;
    } else {
      assert (bytes + [v])[1..] == bytes[1..] + [v];
      PositionalSnoc(bytes[1..], v);
      var p := Pow256(|bytes| - 1);
      assert bytes[0] * (256 * p) == bytes[0] * p * 256;
    }
  }

  // --- parse_numeric_ipv4 -----------------------------------------------------

  /** Packing the values byte by byte with shift and or gives the positional sum. */
  method Pack(values: seq<nat>) returns (packed: nat)
    requires InRange(values)
    ensures packed == Address(values)
  {
    var leading, last := values[..|values| - 1], values[|values| - 1];
    var remaining := 4 - |leading|;
    packed := 0;
    for i := 0 to |leading|
      invariant packed == Positional(leading[..i])
    {
      assert leading[..i + 1] == leading[..i] + [leading[i]];
      PositionalSnoc(leading[..i], leading[i]);
      Pow2IsPow256(1);
      Pow256Small();
      OrIntoClearedBits(packed, 8, leading[i]);
      packed := BitOr(ShiftLeft(packed, 8), leading[i]);
    }
    assert leading[..|leading|] == leading;
    Pow2IsPow256(remaining);
    OrIntoClearedBits(packed, 8 * remaining, last);
    packed := BitOr(ShiftLeft(packed, 8 * remaining), last);
  }

  /** The loop over the parts decodes exactly the numeric hosts. */
  method ParseNumericIpv4(host: string) returns (r: Option<nat>)
    ensures r == NumericIpv4(host)
  {
    hide PartValue, Split, Positional, Pow2, Pow256;
    var parts := Split(host, '.');
    if !(1 <= |parts| <= 4) {
      return None;
    }
    var values: seq<nat> := [];
    for i := 0 to |parts|
      invariant |values| == i
      invariant forall j :: 0 <= j < i ==> PartValue(parts[j]) == Some(values[j])
    {
      match PartValue(parts[i]) {
        case None =>
          return None;
        case Some(value) =>
          values := values + [value];
      }
    }
    assert PartValues(parts).Some? && PartValues(parts).value == values;

    // The final part absorbs the remaining low-order bytes.
    var remaining := 5 - |values|;
    Pow2IsPow256(remaining);
    if (exists i :: 0 <= i < |values| - 1 && values[i] > 0xFF)
      || values[|values| - 1] >= ShiftLeft(1, 8 * remaining)
    {
      return None;
    }
    var packed := Pack(values);
    return Some(packed);
  }

  // --- renderings -------------------------------------------------------------

  datatype Radix = Dec | Oct | Hex

  function RenderPart(v: nat, radix: Radix): string {
    match radix
    case Dec => ToBase(v, 10)
    case Oct => "0" + ToBase(v, 8)
    case Hex => "0x" + ToBase(v, 16)
  }

  /** The numbers an `n`-part form of the address shows. */
  function Parts(address: nat, n: nat): seq<nat>
    requires 1 <= n <= 4
  {
    if n == 1 then [address]
    else if n == 2 then [address / 0x100_0000, address % 0x100_0000]
    else if n == 3 then [address / 0x100_0000, address / 0x1_0000 % 0x100, address % 0x1_0000]
    else [address / 0x100_0000, address / 0x1_0000 % 0x100, address / 0x100 % 0x100, address % 0x100]
  }

  function RenderParts(values: seq<nat>, radices: seq<Radix>): seq<string>
    requires |values| == |radices|
  {
    seq(|values|, i requires 0 <= i < |values| => RenderPart(values[i], radices[i]))
  }

  function Render(address: nat, radices: seq<Radix>): string
    requires 1 <= |radices| <= 4
  {
    Join(RenderParts(Parts(address, |radices|), radices), '.')
  }

  lemma {:induction false} NoLeadingZero(n: nat)
    requires n > 0
    ensures ToBase(n, 10)[0] != '0'
  {
    if n >= 10 {
      NoLeadingZero(n / 10);
    }
  }

  lemma DecimalPartReadsBack(v: nat)
    ensures PartValue(ToBase(v, 10)) == Some(v)
    ensures AllDecimal(ToBase(v, 10))
  {
    hide PyInt, ToBase;
    var text := ToBase(v, 10);
    DecimalReadsBack(v);
    DecimalDigits(v);
    if text[0] == '0' {
      NotZeroUnlessAlone(v);
    }
    assert |text| >= 2 ==> Lower(text)[1] != 'x';
  }

  lemma NotZeroUnlessAlone(v: nat)
    ensures ToBase(v, 10)[0] == '0' ==> |ToBase(v, 10)| == 1
  {
    if v > 0 {
      NoLeadingZero(v);
    }
  }

  lemma MarkedPartsReadBack(v: nat)
    ensures PartValue("0" + ToBase(v, 8)) == Some(v)
    ensures PartValue("0x" + ToBase(v, 16)) == Some(v)
  {
    hide PyInt, ToBase;
    OctalReadsBack(v);
    HexReadsBack(v);
    var octal, hex := "0" + ToBase(v, 8), "0x" + ToBase(v, 16);
    assert octal[1] == ToBase(v, 8)[0];
    assert Lower(octal)[1] != 'x';
    assert Lower(hex)[..2] == "0x";
  }

  lemma PartReadsBack(v: nat, radix: Radix)
    ensures PartValue(RenderPart(v, radix)) == Some(v)
    ensures '.' !in RenderPart(v, radix)
  {
    match radix {
      case Dec => DecimalPartReadsBack(v);
      case Oct => MarkedPartsReadBack(v);
      case Hex => MarkedPartsReadBack(v);
    }
  }

  lemma PartsReadBack(values: seq<nat>, radices: seq<Radix>)
    requires |values| == |radices|
    ensures PartValues(RenderParts(values, radices)) == Some(values)
    ensures forall p :: p in RenderParts(values, radices) ==> '.' !in p
  {
    forall i | 0 <= i < |values|
      ensures PartValue(RenderParts(values, radices)[i]) == Some(values[i])
      ensures '.' !in RenderParts(values, radices)[i]
    {
      PartReadsBack(values[i], radices[i]);
    }
    assert PartValues(RenderParts(values, radices)).value == values;
  }

  lemma PositionalShort(a: nat, b: nat, c: nat)
    ensures Positional([]) == 0 && Positional([a]) == a
    ensures Positional([a, b]) == 256 * a + b
    ensures Positional([a, b, c]) == 0x1_0000 * a + 256 * b + c
  {
    Pow256Small();
    assert [] + [a] == [a] && [a] + [b] == [a, b] && [a, b] + [c] == [a, b, c];
    PositionalSnoc([], a);
    PositionalSnoc([a], b);
    PositionalSnoc([a, b], c);
  }

  lemma FourBytes(values: seq<nat>)
    requires |values| == 4
    ensures InRange(values) <==> forall i :: 0 <= i < 4 ==> values[i] <= 0xFF
    ensures InRange(values) ==>
      Address(values) == 0x100_0000 * values[0] + 0x1_0000 * values[1] + 0x100 * values[2] + values[3]
  {
    hide Positional, Pow256;
    Pow256Small();
    PositionalShort(values[0], values[1], values[2]);
    assert values[..3] == [values[0], values[1], values[2]];
  }

  lemma SplitBytes(address: nat)
    requires address < 0x1_0000_0000
    ensures address / 0x100_0000 <= 0xFF
    ensures address == address / 0x100_0000 * 0x100_0000 + address % 0x100_0000
    ensures address % 0x100_0000 == address / 0x1_0000 % 0x100 * 0x1_0000 + address % 0x1_0000
    ensures address % 0x1_0000 == address / 0x100 % 0x100 * 0x100 + address % 0x100
  {
  }

  /** The address by the number of parts. */
  lemma AddressOf(values: seq<nat>)
    requires InRange(values)
    ensures |values| == 1 ==> Address(values) == values[0]
    ensures |values| == 2 ==> Address(values) == 0x100_0000 * values[0] + values[1]
    ensures |values| == 3 ==> Address(values) == 0x100_0000 * values[0] + 0x1_0000 * values[1] + values[2]
    ensures |values| == 4 ==>
      Address(values) == 0x100_0000 * values[0] + 0x1_0000 * values[1] + 0x100 * values[2] + values[3]
  {
    hide Positional, Pow256;
    Pow256Small();
    PositionalShort(values[0], if |values| > 1 then values[1] else 0, if |values| > 2 then values[2] else 0);
    if |values| == 1 {
      assert values[..0] == [];
    } else if |values| == 2 {
      assert values[..1] == [values[0]];
    } else if |values| == 3 {
      assert values[..2] == [values[0], values[1]];
    } else {
      assert values[..3] == [values[0], values[1], values[2]];
    }
  }

  lemma PartsMakeTheAddress(address: nat, n: nat)
    requires address < 0x1_0000_0000 && 1 <= n <= 4
    ensures InRange(Parts(address, n)) && Address(Parts(address, n)) == address
  {
    hide Address, Pow256;
    Pow256Small();
    SplitBytes(address);
    AddressOf(Parts(address, n));
  }

  /** Any address, in any number of parts, each part in any of the three radices, decodes to itself. */
  lemma EveryRenderingDecodes(address: nat, radices: seq<Radix>)
    requires address < 0x1_0000_0000 && 1 <= |radices| <= 4
    ensures NumericIpv4(Render(address, radices)) == Some(address)
  {
    var values := Parts(address, |radices|);
    PartsReadBack(values, radices);
    SplitJoin(RenderParts(values, radices), '.');
    PartsMakeTheAddress(address, |radices|);
  }
}
