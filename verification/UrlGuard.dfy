/** Host checks made before a feed URL is stored, and the fixpoint they are asked to reach. */
module UrlGuard {
  import opened Text
  import opened Numerals
  import opened Ipv4

  // --- addresses --------------------------------------------------------------

  /** An IPv6 address is kept as the canonical text the address library prints for it. */
  datatype Address = V4(value: nat) | V6(text: string)

  /** What the URL and address libraries answer; this module adds nothing to it. */
  datatype Library = Library(
    parseV6: string -> Option<string>,  // canonical text of an IPv6 literal
    publicV6: string -> bool,
    acceptsHost: string -> bool)        // whether the URL parser takes a host it is given back

  /** The library's own canonical text is a literal that reads back as itself. */
  ghost predicate Canonical(lib: Library) {
    forall h, t :: lib.parseV6(h) == Some(t) ==> ':' in h && ':' in t && lib.parseV6(t) == Some(t)
  }

  /** The strict dotted form: four decimal parts, no leading zeros. */
  predicate StrictPart(p: string) {
    1 <= |p| <= 3 && AllDecimal(p) && (|p| > 1 ==> p[0] != '0')
  }

  /** Decimal digits read from the left. */
  function DecimalValue(digits: string): nat
    requires AllDecimal(digits)
  {
    if digits == "" then 0
    else 10 * DecimalValue(digits[..|digits| - 1]) + (digits[|digits| - 1] as int - '0' as int)
  }

  /** Four bytes in strict decimal, most significant first. */
  function StrictV4(host: string): Option<nat> {
    var parts := Split(host, '.');
    if |parts| == 4 && (forall i :: 0 <= i < 4 ==> StrictPart(parts[i]) && DecimalValue(parts[i]) <= 0xFF) then
      Some(0x100_0000 * DecimalValue(parts[0]) + 0x1_0000 * DecimalValue(parts[1])
           + 0x100 * DecimalValue(parts[2]) + DecimalValue(parts[3]))
    else
      None
  }

  function Bracketed(host: string): bool {
    |host| >= 2 && host[0] == '[' && host[|host| - 1] == ']'
  }

  /** The host as an address, obfuscated IPv4 forms included. */
  function LiteralAddress(lib: Library, host: string): Option<Address> {
    if StrictV4(host).Some? then Some(V4(StrictV4(host).value))
    else if lib.parseV6(host).Some? then Some(V6(lib.parseV6(host).value))
    else if Bracketed(host) then
      match lib.parseV6(host[1..|host| - 1])
      case None => None
      case Some(t) => Some(V6(t))
    else
      match NumericIpv4(host)
      case None => None
      case Some(v) => Some(V4(v))
  }

  const DOTTED: seq<Radix> := [Dec, Dec, Dec, Dec]

  function AddressText(a: Address): string {
    match a
    case V4(value) => Render(value, DOTTED)
    case V6(text) => text
  }

  /** First address and size of each blocked IPv4 network. */
  const BLOCKED_V4: seq<(nat, nat)> := [
    (0x0000_0000, 0x100_0000), (0x0A00_0000, 0x100_0000), (0x6440_0000, 0x40_0000),
    (0x7F00_0000, 0x100_0000), (0xA9FE_0000, 0x1_0000), (0xAC10_0000, 0x10_0000),
    (0xC000_0000, 0x100), (0xC000_0200, 0x100), (0xC058_6300, 0x100), (0xC0A8_0000, 0x1_0000),
    (0xC612_0000, 0x2_0000), (0xC633_6400, 0x100), (0xCB00_7100, 0x100),
    (0xE000_0000, 0x1000_0000), (0xF000_0000, 0x1000_0000), (0xFFFF_FFFF, 1)]

  predicate PublicV4(a: nat) {
    forall i :: 0 <= i < |BLOCKED_V4| ==> !(BLOCKED_V4[i].0 <= a < BLOCKED_V4[i].0 + BLOCKED_V4[i].1)
  }

  predicate Allowed(lib: Library, a: Address) {
    match a
    case V4(value) => PublicV4(value)
    case V6(text) => lib.publicV6(text)
  }

  // --- names --------------------------------------------------------------------

  const MAX_HOST_LENGTH := 253

  const BLOCKED_SUFFIXES := [
    ".localhost", ".local", ".localdomain", ".internal", ".intranet",
    ".arpa", ".onion", ".test", ".invalid", ".example"]

  predicate HostChar(c: char) {
    'a' <= c <= 'z' || '0' <= c <= '9' || c == '-' || c == '.' || c == '_'
  }

  predicate PublicName(h: string) {
    && 1 <= |h| <= MAX_HOST_LENGTH
    && (forall i :: 0 <= i < |h| ==> HostChar(h[i]))
    && (forall i :: 0 <= i < |h| - 1 ==> !(h[i] == '.' && h[i + 1] == '.'))
    && h[0] != '.' && h[0] != '-' && h[|h| - 1] != '-'
    && '.' in h
    && (forall i :: 0 <= i < |BLOCKED_SUFFIXES| ==> !EndsWith(h, BLOCKED_SUFFIXES[i]))
  }

  /** The name without trailing dots, in lower case. */
  function CleanName(raw: string): string { Lower(StripTrailing(Strip(raw), '.')) }

  function NormaliseHost(raw: string): Option<string> {
    if PublicName(CleanName(raw)) then Some(CleanName(raw)) else None
  }

  /** One application of the static check, seen from the host. */
  function CheckHost(lib: Library, host: string): Option<string> {
    var clean :=
      match LiteralAddress(lib, host)
      case Some(a) => if Allowed(lib, a) then Some(AddressText(a)) else None
      case None => NormaliseHost(host);
    if clean.Some? && lib.acceptsHost(clean.value) then clean else None
  }

  /** The configuration-time validation: the check applied to its own output. */
  function ValidateFeedHost(lib: Library, host: string): Option<string> {
    match CheckHost(lib, host)
    case None => None
    case Some(once) => CheckHost(lib, once)
  }

  // --- fixpoint -------------------------------------------------------------------

  lemma NameIsStripped(h: string)
    requires PublicName(h)
    ensures Stripped(h) && Lower(h) == h
  {
    hide EndsWith;
    assert forall i :: 0 <= i < |h| ==> HostChar(h[i]) && LowerChar(h[i]) == h[i] && !IsSpace(h[i]);
  }

  lemma CleanNameFixed(h: string)
    requires PublicName(h) && h[|h| - 1] != '.'
    ensures CleanName(h) == h
  {
    hide PublicName, Lower, StripTrailing, Strip;
    NameIsStripped(h);
    StrippedIsFixed(h);
    NameIsNotEmpty(h);
    StripTrailingFixed(h, '.');
  }

  lemma NameIsNotEmpty(h: string)
    requires PublicName(h)
    ensures h != ""
  {
  }

  lemma CleanNameHasNoTrailingDot(raw: string)
    ensures CleanName(raw) != "" ==> CleanName(raw)[|CleanName(raw)| - 1] != '.'
  {
  }

  lemma ByteIsStrict(b: nat)
    requires b <= 0xFF
    ensures StrictPart(ToBase(b, 10))
  {
    DecimalDigits(b);
    if b > 0 {
      NoLeadingZero(b);
    }
    assert b / 10 / 10 < 10;
    assert |ToBase(b / 10 / 10, 10)| == 1;
    assert b >= 10 ==> |ToBase(b, 10)| == |ToBase(b / 10, 10)| + 1;
    assert b / 10 >= 10 ==> |ToBase(b / 10, 10)| == |ToBase(b / 10 / 10, 10)| + 1;
  }

  lemma {:induction false} DigitRunIsDecimal(digits: string)
    requires digits != "" && AllDecimal(digits)
    ensures DigitRun(digits, 10, 0, false) == Some(DecimalValue(digits))
  {
    var front, last := digits[..|digits| - 1], digits[|digits| - 1];
    if front == "" {
      assert digits == [last] && [last][1..] == "";
      assert DigitRun("", 10, DigitValue(last), true) == Some(DigitValue(last));
    } else {
      DigitRunIsDecimal(front);
      DigitRunSnoc(front, 10, 0, false, last);
      assert front + [last] == digits;
    }
  }

  lemma StrictPartValue(p: string)
    requires StrictPart(p)
    ensures PartValue(p) == Some(DecimalValue(p))
  {
    hide DigitRun, DecimalValue, Lower;
    DigitRunIsDecimal(p);
    assert !IsSpace(p[0]) && !IsSpace(p[|p| - 1]);
    PyIntUnsigned(p, 10, DecimalValue(p));
    assert !StartsWith(Lower(p), "0x") by {
      assert |p| > 1 ==> Lower(p)[0] == LowerChar(p[0]) == p[0];
    }
  }

  /** Wherever the strict form applies, the numeric decoder gives the same answer, out of range too. */
  lemma StrictAgreesWithNumeric(host: string)
    requires |Split(host, '.')| == 4 && forall i :: 0 <= i < 4 ==> StrictPart(Split(host, '.')[i])
    ensures NumericIpv4(host) == StrictV4(host)
  {
    hide PartValue, DecimalValue, Positional, Pow256, Split, InRange, Ipv4.Address;
    var parts := Split(host, '.');
    forall i | 0 <= i < 4
      ensures PartValue(parts[i]) == Some(DecimalValue(parts[i]))
    {
      StrictPartValue(parts[i]);
    }
    var values := PartValues(parts).value;
    FourBytes(values);
    assert values[0] == DecimalValue(parts[0]) && values[1] == DecimalValue(parts[1]);
    assert values[2] == DecimalValue(parts[2]) && values[3] == DecimalValue(parts[3]);
  }

  /** What is read strictly is read alike by the numeric decoder. */
  lemma StrictIsNumeric(host: string)
    ensures StrictV4(host).Some? ==> NumericIpv4(host) == StrictV4(host)
  {
    hide NumericIpv4, DecimalValue;
    if StrictV4(host).Some? {
      StrictAgreesWithNumeric(host);
    }
  }

  /** Printing a 32-bit address in dotted form is inverted by the strict reading. */
  lemma DottedReadsBack(a: nat)
    requires a < 0x1_0000_0000
    ensures StrictV4(Render(a, DOTTED)) == Some(a)
  {
    hide StrictV4, NumericIpv4, StrictPart, Split, Render;
    EveryRenderingDecodes(a, DOTTED);
    DottedParts(a);
    StrictAgreesWithNumeric(Render(a, DOTTED));
  }

  lemma DottedParts(a: nat)
    requires a < 0x1_0000_0000
    ensures |Split(Render(a, DOTTED), '.')| == 4
    ensures forall i :: 0 <= i < 4 ==> StrictPart(Split(Render(a, DOTTED), '.')[i])
  {
    hide StrictPart, Split, Join, ToBase;
    var values := Parts(a, 4);
    var texts := RenderParts(values, DOTTED);
    PartsReadBack(values, DOTTED);
    SplitJoin(texts, '.');
    SplitBytes(a);
    forall i | 0 <= i < 4
      ensures StrictPart(texts[i])
    {
      ByteIsStrict(values[i]);
    }
  }

  lemma LiteralTextIsFixed(lib: Library, host: string)
    requires Canonical(lib) && LiteralAddress(lib, host).Some?
    ensures var a := LiteralAddress(lib, host).value;
            LiteralAddress(lib, AddressText(a)) == Some(a)
  {
    hide NumericIpv4, StrictV4, Render;
    var a := LiteralAddress(lib, host).value;
    NumericIpv4Is32Bit(host);
    StrictIsNumeric(host);
    match a {
      case V4(value) =>
        DottedReadsBack(value);
      case V6(text) =>
        assert lib.parseV6(text) == Some(text);
        if StrictV4(text).Some? {
          StrictHasNoColon(text);
        }
    }
  }

  lemma StrictHasNoColon(text: string)
    requires StrictV4(text).Some?
    ensures ':' !in text
  {
    JoinSplit(text, '.');
    JoinChars(Split(text, '.'), '.');
  }

  /** A name that passes stays as it is, unless trimming it turned it into a literal. */
  lemma NameIsFixed(lib: Library, host: string)
    requires LiteralAddress(lib, host).None? && CheckHost(lib, host).Some?
    ensures var h := CheckHost(lib, host).value;
            NormaliseHost(h) == Some(h)
  {
    CleanNameHasNoTrailingDot(host);
    CleanNameFixed(CleanName(host));
  }

  /** Validation lands on a fixpoint: a canonical public literal, or a name that is no literal. */
  lemma ValidationIsFixpoint(lib: Library, host: string)
    requires Canonical(lib) && ValidateFeedHost(lib, host).Some?
    ensures var h := ValidateFeedHost(lib, host).value;
      && CheckHost(lib, h) == Some(h)
      && ValidateFeedHost(lib, h) == Some(h)
      && match LiteralAddress(lib, h) {
           case Some(a) => Allowed(lib, a) && AddressText(a) == h
           case None => NormaliseHost(h) == Some(h)
         }
  {
    var once := CheckHost(lib, host).value;
    if LiteralAddress(lib, host).Some? {
      LiteralTextIsFixed(lib, host);
    } else {
      NameIsFixed(lib, host);
      if LiteralAddress(lib, once).Some? {
        LiteralTextIsFixed(lib, once);
      }
    }
  }

  /** One pass is enough exactly for literals, and for hosts that cleaned up are no literal, or a canonical one. */
  lemma OnePassIsEnough(lib: Library, host: string)
    requires Canonical(lib) && CheckHost(lib, host).Some?
    ensures var once := CheckHost(lib, host).value;
      CheckHost(lib, once) == Some(once) <==>
        LiteralAddress(lib, host).Some? ||
        match LiteralAddress(lib, CleanName(host)) {
          case None => true
          case Some(a) => Allowed(lib, a) && AddressText(a) == CleanName(host)
        }
  {
    var once := CheckHost(lib, host).value;
    if LiteralAddress(lib, host).Some? {
      LiteralTextIsFixed(lib, host);
    } else {
      NameIsFixed(lib, host);
    }
  }

  // --- what is let through ----------------------------------------------------------

  /** The addresses that are no public unicast ones, by their four bytes. */
  lemma PublicV4Iff(a: nat, b: nat, c: nat, d: nat)
    requires a <= 255 && b <= 255 && c <= 255 && d <= 255
    ensures PublicV4(0x100_0000 * a + 0x1_0000 * b + 0x100 * c + d) <==>
      && a !in {0, 10, 127} && a < 224
      && !(a == 100 && 64 <= b < 128) && !(a == 169 && b == 254) && !(a == 172 && 16 <= b < 32)
      && !(a == 192 && (b == 168 || (b == 0 && c in {0, 2}) || (b == 88 && c == 99)))
      && !(a == 198 && (b in {18, 19} || (b == 51 && c == 100))) && !(a == 203 && b == 0 && c == 113)
  {
    hide In;
    var v := 0x100_0000 * a + 0x1_0000 * b + 0x100 * c + d;
    NetworksAre(v);
    ByFirstByte(a, 0x1_0000 * b + 0x100 * c + d);
    ByTwoBytes(a, b, 0x100 * c + d);
    ByThreeBytes(a, b, c, d);
  }

  predicate In(v: nat, first: nat, size: nat) { first <= v < first + size }

  lemma NetworksAre(v: nat)
    ensures PublicV4(v) <==>
      && !In(v, 0, 0x100_0000) && !In(v, 0x0A00_0000, 0x100_0000) && !In(v, 0x6440_0000, 0x40_0000)
      && !In(v, 0x7F00_0000, 0x100_0000) && !In(v, 0xA9FE_0000, 0x1_0000) && !In(v, 0xAC10_0000, 0x10_0000)
      && !In(v, 0xC000_0000, 0x100) && !In(v, 0xC000_0200, 0x100) && !In(v, 0xC058_6300, 0x100)
      && !In(v, 0xC0A8_0000, 0x1_0000) && !In(v, 0xC612_0000, 0x2_0000) && !In(v, 0xC633_6400, 0x100)
      && !In(v, 0xCB00_7100, 0x100) && !In(v, 0xE000_0000, 0x1000_0000) && !In(v, 0xF000_0000, 0x1000_0000)
      && !In(v, 0xFFFF_FFFF, 1)
  {
    assert BLOCKED_V4[0] == (0, 0x100_0000) && BLOCKED_V4[1] == (0x0A00_0000, 0x100_0000)
        && BLOCKED_V4[2] == (0x6440_0000, 0x40_0000) && BLOCKED_V4[3] == (0x7F00_0000, 0x100_0000)
        && BLOCKED_V4[4] == (0xA9FE_0000, 0x1_0000) && BLOCKED_V4[5] == (0xAC10_0000, 0x10_0000)
        && BLOCKED_V4[6] == (0xC000_0000, 0x100) && BLOCKED_V4[7] == (0xC000_0200, 0x100)
        && BLOCKED_V4[8] == (0xC058_6300, 0x100) && BLOCKED_V4[9] == (0xC0A8_0000, 0x1_0000)
        && BLOCKED_V4[10] == (0xC612_0000, 0x2_0000) && BLOCKED_V4[11] == (0xC633_6400, 0x100)
        && BLOCKED_V4[12] == (0xCB00_7100, 0x100) && BLOCKED_V4[13] == (0xE000_0000, 0x1000_0000)
        && BLOCKED_V4[14] == (0xF000_0000, 0x1000_0000) && BLOCKED_V4[15] == (0xFFFF_FFFF, 1);
  }

  lemma ByFirstByte(a: nat, rest: nat)
    requires a <= 255 && rest < 0x100_0000
    ensures var v := 0x100_0000 * a + rest;
      && (In(v, 0, 0x100_0000) <==> a == 0) && (In(v, 0x0A00_0000, 0x100_0000) <==> a == 10)
      && (In(v, 0x7F00_0000, 0x100_0000) <==> a == 127) && (In(v, 0xE000_0000, 0x1000_0000) <==> 224 <= a < 240)
      && (In(v, 0xF000_0000, 0x1000_0000) <==> a >= 240) && (In(v, 0xFFFF_FFFF, 1) ==> a == 255)
  {
  }

  lemma ByTwoBytes(a: nat, b: nat, rest: nat)
    requires a <= 255 && b <= 255 && rest < 0x1_0000
    ensures var v := 0x100_0000 * a + 0x1_0000 * b + rest;
      && (In(v, 0x6440_0000, 0x40_0000) <==> a == 100 && 64 <= b < 128)
      && (In(v, 0xA9FE_0000, 0x1_0000) <==> a == 169 && b == 254)
      && (In(v, 0xAC10_0000, 0x10_0000) <==> a == 172 && 16 <= b < 32)
      && (In(v, 0xC0A8_0000, 0x1_0000) <==> a == 192 && b == 168)
      && (In(v, 0xC612_0000, 0x2_0000) <==> a == 198 && b in {18, 19})
  {
  }

  lemma ByThreeBytes(a: nat, b: nat, c: nat, d: nat)
    requires a <= 255 && b <= 255 && c <= 255 && d <= 255
    ensures var v := 0x100_0000 * a + 0x1_0000 * b + 0x100 * c + d;
      && (In(v, 0xC000_0000, 0x100) <==> a == 192 && b == 0 && c == 0)
      && (In(v, 0xC000_0200, 0x100) <==> a == 192 && b == 0 && c == 2)
      && (In(v, 0xC058_6300, 0x100) <==> a == 192 && b == 88 && c == 99)
      && (In(v, 0xC633_6400, 0x100) <==> a == 198 && b == 51 && c == 100)
      && (In(v, 0xCB00_7100, 0x100) <==> a == 203 && b == 0 && c == 113)
  {
  }

  /** Any numeric IPv4 form is stored in dotted decimal, exactly when it names a public address. */
  lemma NumericIsValid(lib: Library, host: string)
    requires Canonical(lib) && NumericIpv4(host).Some? && ':' !in host
    ensures var v := NumericIpv4(host).value;
      ValidateFeedHost(lib, host) ==
        if PublicV4(v) && lib.acceptsHost(Render(v, DOTTED)) then Some(Render(v, DOTTED)) else None
  {
    hide NumericIpv4, StrictV4, Render, PublicV4, PublicName, BLOCKED_V4;
    StrictIsNumeric(host);
    NumericIsBare(host);
    NumericIpv4Is32Bit(host);
    DottedReadsBack(NumericIpv4(host).value);
  }

  lemma SplitStep(h: string)
    ensures var n := Find(h, {'.'});
      Split(h, '.') == if n == |h| then [h] else [h[..n]] + Split(h[n + 1..], '.')
  {
    hide Find;
  }

  lemma BracketIsNoPart(part: string)
    requires part != "" && part[0] == '['
    ensures PartValue(part).None?
  {
    hide PyInt;
    assert Lower(part)[0] == LowerChar('[') && "0x"[0] == '0';
  }

  lemma NumericIsBare(host: string)
    ensures Bracketed(host) ==> NumericIpv4(host).None?
  {
    hide PartValue;
    if Bracketed(host) {
      SplitStep(host);
      BracketIsNoPart(Split(host, '.')[0]);
    }
  }

  /** An IPv6 literal, bare or in brackets, is stored as its canonical text, exactly when it is public. */
  lemma V6IsValid(lib: Library, inner: string, text: string, host: string)
    requires Canonical(lib) && lib.parseV6(inner) == Some(text)
    requires host == inner || (host == "[" + inner + "]" && lib.parseV6(host).None?)
    ensures ValidateFeedHost(lib, host) == if lib.publicV6(text) && lib.acceptsHost(text) then Some(text) else None
  {
    hide NumericIpv4, StrictV4, Render, PublicV4, PublicName, BLOCKED_V4;
    assert ':' in host;
    if StrictV4(host).Some? {
      StrictHasNoColon(host);
      assert false;
    }
    if StrictV4(text).Some? {
      StrictHasNoColon(text);
      assert false;
    }
    assert host != inner ==> host[1..|host| - 1] == inner;
  }

  const RESERVED_LABELS := {
    "localhost", "local", "localdomain", "internal", "intranet", "arpa", "onion", "test", "invalid", "example"}

  /** Two labels or more, none empty and the last not reserved, of the letters a host is made of. */
  predicate PublicLabels(h: string) {
    var labels := Split(h, '.');
    && |h| <= 253 && |labels| >= 2 && labels[|labels| - 1] !in RESERVED_LABELS
    && AllFilled(labels)
    && (forall i :: 0 <= i < |h| ==> 'a' <= h[i] <= 'z' || '0' <= h[i] <= '9' || h[i] in {'-', '.', '_'})
    && h[0] != '-' && h[|h| - 1] != '-'
  }

  predicate NoEmptyLabel(h: string) {
    h != "" && h[0] != '.' && h[|h| - 1] != '.' && forall i :: 0 <= i < |h| - 1 ==> !(h[i] == '.' && h[i + 1] == '.')
  }

  predicate AllFilled(labels: seq<string>) { forall i :: 0 <= i < |labels| ==> labels[i] != "" }

  lemma FilledCons(first: string, rest: seq<string>)
    ensures AllFilled([first] + rest) <==> first != "" && AllFilled(rest)
  {
    var all := [first] + rest;
    assert forall i :: 0 <= i < |rest| ==> all[i + 1] == rest[i];
    assert all[0] == first;
  }

  lemma {:induction false} LabelsAreFilled(h: string)
    ensures AllFilled(Split(h, '.')) <==> NoEmptyLabel(h)
    decreases |h|
  {
    hide Split, AllFilled, Find;
    var n := Find(h, {'.'});
    SplitStep(h);
    if n == |h| {
      assert forall i :: 0 <= i < |h| ==> h[i] != '.';
      FilledCons(h, []);
      assert [h] + [] == [h] && AllFilled([]) by { NoLabels(); }
    } else {
      LabelsAreFilled(h[n + 1..]);
      FilledCons(h[..n], Split(h[n + 1..], '.'));
      EmptyLabelAfter(h, n);
    }
  }

  lemma NoLabels()
    ensures AllFilled([])
  {
  }

  lemma EmptyLabelAfter(h: string, n: nat)
    requires n < |h| && h[n] == '.' && forall i :: 0 <= i < n ==> h[i] != '.'
    ensures NoEmptyLabel(h) <==> n > 0 && NoEmptyLabel(h[n + 1..])
  {
    var rest := h[n + 1..];
    assert forall i :: 0 <= i < |rest| ==> rest[i] == h[n + 1 + i];
    if NoEmptyLabel(h) {
      assert n < |h| - 1;
      forall i | 0 <= i < |rest| - 1
        ensures !(rest[i] == '.' && rest[i + 1] == '.')
      {
        assert !(h[n + 1 + i] == '.' && h[n + 2 + i] == '.');
      }
    }
    if n > 0 && NoEmptyLabel(rest) {
      forall i | 0 <= i < |h| - 1
        ensures !(h[i] == '.' && h[i + 1] == '.')
      {
        if i > n {
          assert rest[i - n - 1] == h[i] && rest[i - n] == h[i + 1];
        }
      }
    }
  }

  lemma {:induction false} LastLabel(h: string)
    requires '.' in h
    ensures var labels := Split(h, '.');
      |labels| >= 2 && h == Join(labels[..|labels| - 1], '.') + "." + labels[|labels| - 1]
  {
    hide Find, Join, Split;
    SplitStep(h);
    assert Find(h, {'.'}) < |h|;
    var labels := Split(h, '.');
    var front, last := labels[..|labels| - 1], labels[|labels| - 1];
    JoinSplit(h, '.');
    JoinSnoc(front, last, '.');
    assert front + [last] == labels;
  }

  lemma DotIsBefore(s: string, c: string, d: string, k: nat)
    requires s == c + "." + d && '.' !in d && k < |s| && s[k] == '.'
    ensures k <= |c|
  {
    assert forall i :: |c| < i < |s| ==> s[i] == d[i - |c| - 1] && d[i - |c| - 1] in d;
  }

  /** A name ends in a dot and a label exactly when that is its last label. */
  lemma EndsInLabel(h: string, word: string)
    requires '.' !in word && '.' in h
    ensures var labels := Split(h, '.'); |labels| >= 2 && (EndsWith(h, "." + word) <==> labels[|labels| - 1] == word)
  {
    hide Split, Join;
    LastLabel(h);
    var labels := Split(h, '.');
    var front, last := Join(labels[..|labels| - 1], '.'), labels[|labels| - 1];
    assert h[|front| + 1..] == last && h[|front|..] == "." + last;
    if EndsWith(h, "." + word) {
      var before := h[..|h| - |word| - 1];
      assert h == before + ("." + word) == before + "." + word;
      assert last in labels;
      DotIsBefore(h, before, word, |front|);
      DotIsBefore(h, front, last, |before|);
      assert h[|before| + 1..] == word;
    }
  }

  /** The label a blocked suffix ends in. */
  function Reserved(i: nat): string
    requires i < |BLOCKED_SUFFIXES|
  {
    RemovePrefix(BLOCKED_SUFFIXES[i], ".")
  }

  lemma SuffixesAreLabels(h: string)
    requires '.' in h
    ensures |Split(h, '.')| >= 2
    ensures (exists i :: 0 <= i < |BLOCKED_SUFFIXES| && EndsWith(h, BLOCKED_SUFFIXES[i])) <==>
      Split(h, '.')[|Split(h, '.')| - 1] in RESERVED_LABELS
  {
    hide EndsWith, Split, BLOCKED_SUFFIXES, RESERVED_LABELS;
    var last := LastOf(Split(h, '.'));
    EndsInLabel(h, "");
    forall i | 0 <= i < |BLOCKED_SUFFIXES|
      ensures EndsWith(h, BLOCKED_SUFFIXES[i]) <==> last == Reserved(i)
    {
      SuffixShape(i);
      ReservedIn(i);
      EndsInLabel(h, Reserved(i));
    }
    LabelsAreListed();
    assert forall i :: 0 <= i < |BLOCKED_SUFFIXES| ==> Reserved(i) in RESERVED_LABELS by {
      forall i | 0 <= i < |BLOCKED_SUFFIXES|
        ensures Reserved(i) in RESERVED_LABELS
      {
        ReservedIn(i);
      }
    }
  }

  function LastOf(labels: seq<string>): string
    requires labels != []
  {
    labels[|labels| - 1]
  }

  lemma SuffixShape(i: nat)
    requires i < |BLOCKED_SUFFIXES|
    ensures BLOCKED_SUFFIXES[i] == "." + Reserved(i)
  {
  }

  lemma ReservedIn(i: nat)
    requires i < |BLOCKED_SUFFIXES|
    ensures Reserved(i) in RESERVED_LABELS && '.' !in Reserved(i)
  {
    hide Reserved;
    ReservedAre();
  }

  lemma ReservedAre()
    ensures Reserved(0) == "localhost" && Reserved(1) == "local" && Reserved(2) == "localdomain"
    ensures Reserved(3) == "internal" && Reserved(4) == "intranet" && Reserved(5) == "arpa" && Reserved(6) == "onion"
    ensures Reserved(7) == "test" && Reserved(8) == "invalid" && Reserved(9) == "example"
  {
  }

  lemma LabelsAreListed()
    ensures forall word :: word in RESERVED_LABELS ==>
      exists i :: 0 <= i < |BLOCKED_SUFFIXES| && Reserved(i) == word
  {
    hide Reserved;
    ReservedAre();
  }

  /** A name as it is compared, label by label. */
  lemma PublicNameIff(h: string)
    requires h == "" || h[|h| - 1] != '.'
    ensures PublicName(h) <==> PublicLabels(h)
  {
    hide EndsWith, BLOCKED_SUFFIXES, RESERVED_LABELS;
    LabelsAreFilled(h);
    if '.' in h {
      SuffixesAreLabels(h);
    } else {
      FindIs(h, {'.'}, |h|);
    }
  }

  lemma {:induction false} DotsGo(core: string, dots: string)
    requires core == "" || core[|core| - 1] != '.'
    requires forall i :: 0 <= i < |dots| ==> dots[i] == '.'
    ensures StripTrailing(core + dots, '.') == core
  {
    if dots == "" {
      assert core + dots == core;
    } else {
      assert (core + dots)[..|core + dots| - 1] == core + dots[..|dots| - 1];
      DotsGo(core, dots[..|dots| - 1]);
    }
  }

  lemma CleanNameIs(host: string, core: string, dots: string)
    requires Strip(host) == core + dots && (core == "" || core[|core| - 1] != '.')
    requires forall i :: 0 <= i < |dots| ==> dots[i] == '.'
    ensures CleanName(host) == Lower(core)
  {
    DotsGo(core, dots);
  }

  /**
   * A name that is no literal, however written, is taken in lower case without white space
   * around it and dots after it, exactly when its labels are public.
   */
  lemma NameIsValid(lib: Library, host: string, core: string, dots: string)
    requires Canonical(lib) && LiteralAddress(lib, host).None? && LiteralAddress(lib, Lower(core)).None?
    requires Strip(host) == core + dots && (core == "" || core[|core| - 1] != '.')
    requires forall i :: 0 <= i < |dots| ==> dots[i] == '.'
    ensures ValidateFeedHost(lib, host) ==
      if PublicLabels(Lower(core)) && lib.acceptsHost(Lower(core)) then Some(Lower(core)) else None
  {
    hide NumericIpv4, StrictV4, Render, PublicName, PublicLabels, LiteralAddress, Lower, Strip, CleanName;
    CleanNameIs(host, core, dots);
    LowerEnds(core);
    PublicNameIff(Lower(core));
    if PublicName(Lower(core)) {
      NameIsNotEmpty(Lower(core));
      CleanNameFixed(Lower(core));
    }
  }

  lemma LowerEnds(core: string)
    requires core == "" || core[|core| - 1] != '.'
    ensures Lower(core) == "" || Lower(core)[|Lower(core)| - 1] != '.'
  {
  }

  // --- one pass is not enough -----------------------------------------------------

  predicate LiteralChar(c: char) { '0' <= c <= '9' || 'a' <= c <= 'f' || c == 'x' }

  lemma {:induction false} JoinShape(parts: seq<string>)
    requires |parts| >= 1
    requires forall i :: 0 <= i < |parts| ==>
      1 <= |parts[i]| <= 34 && forall j :: 0 <= j < |parts[i]| ==> LiteralChar(parts[i][j])
    ensures var s := Join(parts, '.');
      && 1 <= |s| <= 35 * |parts|
      && LiteralChar(s[0]) && LiteralChar(s[|s| - 1])
      && (forall i :: 0 <= i < |s| ==> s[i] == '.' || LiteralChar(s[i]))
      && (forall i :: 0 <= i < |s| - 1 ==> !(s[i] == '.' && s[i + 1] == '.'))
      && (|parts| > 1 ==> '.' in s)
  {
    if |parts| > 1 {
      JoinShape(parts[1..]);
      DottedShape(parts[0], Join(parts[1..], '.'));
    }
  }

  lemma DottedShape(first: string, rest: string)
    requires first != "" && forall j :: 0 <= j < |first| ==> LiteralChar(first[j])
    requires rest != "" && LiteralChar(rest[0]) && LiteralChar(rest[|rest| - 1])
    requires forall i :: 0 <= i < |rest| ==> rest[i] == '.' || LiteralChar(rest[i])
    requires forall i :: 0 <= i < |rest| - 1 ==> !(rest[i] == '.' && rest[i + 1] == '.')
    ensures var s := first + "." + rest;
      && LiteralChar(s[0]) && LiteralChar(s[|s| - 1]) && '.' in s
      && (forall i :: 0 <= i < |s| ==> s[i] == '.' || LiteralChar(s[i]))
      && (forall i :: 0 <= i < |s| - 1 ==> !(s[i] == '.' && s[i + 1] == '.'))
  {
    var s := first + "." + rest;
    assert s[|first|] == '.' && s[|s| - 1] == rest[|rest| - 1];
    forall i | 0 <= i < |s|
      ensures s[i] == '.' || LiteralChar(s[i])
      ensures i + 1 < |s| ==> !(s[i] == '.' && s[i + 1] == '.')
    {
      if i > |first| {
        assert s[i] == rest[i - |first| - 1];
        assert i + 1 < |s| ==> s[i + 1] == rest[i - |first|];
      } else if i < |first| {
        assert s[i] == first[i];
      }
    }
  }

  lemma RenderedDigits(v: nat, base: nat)
    requires v < 0x1_0000_0000 && 2 <= base <= 16
    ensures 1 <= |ToBase(v, base)| <= 32
    ensures forall j :: 0 <= j < |ToBase(v, base)| ==> LiteralChar(ToBase(v, base)[j])
  {
    hide ToBase;
    DoublePower32();
    ToBaseLength(v, base, 32, 0x1_0000_0000);
  }

  lemma RenderedPartShape(v: nat, radix: Radix)
    requires v < 0x1_0000_0000
    ensures 1 <= |RenderPart(v, radix)| <= 34
    ensures forall j :: 0 <= j < |RenderPart(v, radix)| ==> LiteralChar(RenderPart(v, radix)[j])
  {
    hide ToBase;
    RenderedDigits(v, 10);
    RenderedDigits(v, 8);
    RenderedDigits(v, 16);
  }

  lemma MismatchedSuffix(s: string, suffix: string, k: nat)
    requires k < |suffix|
    requires |suffix| <= |s| ==> s[|s| - |suffix| + k] != suffix[k]
    ensures !EndsWith(s, suffix)
  {
    if |suffix| <= |s| {
      assert s[|s| - |suffix|..][k] == s[|s| - |suffix| + k];
    }
  }

  lemma NoBlockedSuffix(s: string)
    requires forall i :: 0 <= i < |s| ==> s[i] == '.' || LiteralChar(s[i])
    ensures forall i :: 0 <= i < |BLOCKED_SUFFIXES| ==> !EndsWith(s, BLOCKED_SUFFIXES[i])
  {
    // Each suffix has a character no rendered address contains.
    var odd := [1, 1, 1, 2, 2, 2, 1, 1, 3, 4];
    forall i | 0 <= i < |BLOCKED_SUFFIXES|
      ensures !EndsWith(s, BLOCKED_SUFFIXES[i])
    {
      var suffix := BLOCKED_SUFFIXES[i];
      assert odd[i] < |suffix| && suffix[odd[i]] != '.' && !LiteralChar(suffix[odd[i]]);
      MismatchedSuffix(s, suffix, odd[i]);
    }
  }

  lemma RenderedIsName(address: nat, radices: seq<Radix>)
    requires address < 0x1_0000_0000 && 2 <= |radices| <= 4
    ensures var s := Render(address, radices);
      PublicName(s) && LiteralChar(s[|s| - 1]) && LiteralChar(s[0]) && Lower(s) == s && ':' !in s
  {
    hide RenderPart, Parts, Join;
    var values := Parts(address, |radices|);
    PartsAreSmall(address, |radices|);
    var parts := RenderParts(values, radices);
    forall i | 0 <= i < |parts|
      ensures 1 <= |parts[i]| <= 34
      ensures forall j :: 0 <= j < |parts[i]| ==> LiteralChar(parts[i][j])
    {
      RenderedPartShape(values[i], radices[i]);
    }
    JoinShape(parts);
    ShapeIsName(Render(address, radices));
  }

  lemma PartsAreSmall(address: nat, n: nat)
    requires address < 0x1_0000_0000 && 1 <= n <= 4
    ensures |Parts(address, n)| == n && forall i :: 0 <= i < n ==> Parts(address, n)[i] < 0x1_0000_0000
  {
    SplitBytes(address);
  }

  lemma ShapeIsName(s: string)
    requires 1 <= |s| <= 140 && LiteralChar(s[0]) && LiteralChar(s[|s| - 1]) && '.' in s
    requires forall i :: 0 <= i < |s| ==> s[i] == '.' || LiteralChar(s[i])
    requires forall i :: 0 <= i < |s| - 1 ==> !(s[i] == '.' && s[i + 1] == '.')
    ensures PublicName(s) && Lower(s) == s && ':' !in s
  {
    hide EndsWith;
    NoBlockedSuffix(s);
  }

  lemma TrailingDotIsNoNumber(name: string)
    ensures NumericIpv4(name + ".") == None
  {
    SplitTrailing(name, '.');
    var parts := Split(name + ".", '.');
    EmptyPartIsNoNumber(parts, |parts| - 1);
  }

  lemma EmptyPartIsNoNumber(parts: seq<string>, i: nat)
    requires i < |parts| && parts[i] == ""
    ensures PartValues(parts) == None
  {
    assert PartValue(parts[i]).None?;
  }

  lemma DottedNameIsNoLiteral(lib: Library, name: string)
    requires Canonical(lib) && name != "" && LiteralChar(name[0]) && ':' !in name
    ensures LiteralAddress(lib, name + ".") == None
    ensures NumericIpv4(name).Some? ==> LiteralAddress(lib, name) == Some(V4(NumericIpv4(name).value))
  {
    hide NumericIpv4, StrictV4, PublicName;
    var dotted := name + ".";
    TrailingDotIsNoNumber(name);
    StrictIsNumeric(name);
    StrictIsNumeric(dotted);
    assert dotted[0] == name[0] != '[';
    assert ':' !in dotted;
    assert lib.parseV6(name).None? && lib.parseV6(dotted).None?;
  }

  lemma DottedNameIsCleaned(name: string)
    requires PublicName(name) && name[|name| - 1] != '.' && Lower(name) == name
    ensures CleanName(name + ".") == name
  {
    var dotted := name + ".";
    assert dotted[0] == name[0] && dotted[..|name|] == name;
    StrippedIsFixed(dotted);
    StripTrailingFixed(name, '.');
  }

  /** A dot at the end hides any numeric literal from the first pass, and only from the first. */
  lemma TrailingDotHidesLiteral(lib: Library, address: nat, radices: seq<Radix>, name: string)
    requires Canonical(lib) && address < 0x1_0000_0000 && 2 <= |radices| <= 4
    requires name == Render(address, radices) && lib.acceptsHost(name)
    ensures CheckHost(lib, name + ".") == Some(name)
    ensures ValidateFeedHost(lib, name + ".") ==
      if PublicV4(address) && lib.acceptsHost(Render(address, DOTTED)) then Some(Render(address, DOTTED)) else None
  {
    hide Render, NumericIpv4, StrictV4, PublicName, CleanName, PublicV4;
    RenderedIsName(address, radices);
    NameIsNotEmpty(name);
    EveryRenderingDecodes(address, radices);
    DottedNameIsNoLiteral(lib, name);
    DottedNameIsCleaned(name);
  }

  lemma LoopbackIsBlocked(address: nat)
    requires 0x7F00_0000 <= address < 0x8000_0000
    ensures !PublicV4(address)
  {
    assert BLOCKED_V4[3] == (0x7F00_0000, 0x100_0000);
  }

  /** Any loopback literal, `0x7f.0.0.1.` among them: admitted by one pass, refused by two. */
  lemma OnePassAdmitsLoopback(lib: Library, address: nat, radices: seq<Radix>, name: string)
    requires Canonical(lib) && 0x7F00_0000 <= address < 0x8000_0000 && 2 <= |radices| <= 4
    requires name == Render(address, radices) && lib.acceptsHost(name)
    ensures CheckHost(lib, name + ".") == Some(name)
    ensures ValidateFeedHost(lib, name + ".") == None
  {
    TrailingDotHidesLiteral(lib, address, radices, name);
    LoopbackIsBlocked(address);
  }
}
