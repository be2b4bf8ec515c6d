/** Printing integers and reading them back with Python's `int(text, base)`. */
module Numerals {
  import opened Text

  /** Value of a digit in any base up to 36; 99 for a character that is no digit. */
  function DigitValue(c: char): nat {
    if '0' <= c <= '9' then (c - '0') as nat
    else if 'a' <= c <= 'z' then (c - 'a') as nat + 10
    else if 'A' <= c <= 'Z' then (c - 'A') as nat + 10
    else 99
  }

  predicate IsDigit(c: char, base: nat) { DigitValue(c) < base }

  /** Digits with single underscores between them, after `acc` has been read. */
  function DigitRun(s: string, base: nat, acc: nat, afterDigit: bool): Option<nat> {
    if s == "" then (if afterDigit then Some(acc) else None)
    else if s[0] == '_' then
      if afterDigit then DigitRun(s[1..], base, acc, false) else None
    else if IsDigit(s[0], base) then DigitRun(s[1..], base, acc * base + DigitValue(s[0]), true)
    else None
  }

  /** A base marker such as `0x`, skipped with one underscore that may follow it. */
  function DropMarker(s: string, base: nat): string {
    var marked :=
      |s| >= 2 && s[0] == '0' &&
      ((base == 16 && LowerChar(s[1]) == 'x') || (base == 8 && LowerChar(s[1]) == 'o'));
    if !marked then s else
    if |s| > 2 && s[2] == '_' then s[3..] else s[2..]
  }

  /** `int(text, base)` for bases 8, 10 and 16; `None` for its `ValueError`. */
  function PyInt(text: string, base: nat): Option<int> {
    var s := Strip(text);
    var negative := s != "" && s[0] == '-';
    var unsigned := if s != "" && (s[0] == '-' || s[0] == '+') then s[1..] else s;
    match DigitRun(DropMarker(unsigned, base), base, 0, false)
    case None => None
    case Some(n) => Some(if negative then -(n as int) else n)
  }

  /** The lower-case digit for a value below 16. */
  function DigitChar(d: nat): (c: char)
    requires d < 16
    ensures DigitValue(c) == d
    ensures '0' <= c <= '9' || 'a' <= c <= 'f'
  {
    if d < 10 then '0' + d as char else 'a' + (d - 10) as char
  }

  lemma DivSmaller(n: nat, base: nat)
    requires 2 <= base <= n
    ensures 0 < n / base < n
    ensures n == (n / base) * base + n % base
  {
  }

  /** Digits of `n` in `base`, most significant first, no leading zero. */
  function ToBase(n: nat, base: nat): (s: string)
    requires 2 <= base <= 16
    ensures s != ""
    ensures forall i :: 0 <= i < |s| ==> IsDigit(s[i], base) && ('0' <= s[i] <= '9' || 'a' <= s[i] <= 'f')
  {
    if n < base then [DigitChar(n)] else
      DivSmaller(n, base);
      ToBase(n / base, base) + [DigitChar(n % base)]
  }

  lemma UnderscoreIsNoDigit(base: nat)
    requires base <= 36
    ensures !IsDigit('_', base)
  {
  }

  lemma {:induction false} DigitRunSnoc(s: string, base: nat, acc: nat, afterDigit: bool, c: char)
    requires base <= 36 && IsDigit(c, base)
    requires forall i :: 0 <= i < |s| ==> IsDigit(s[i], base)
    requires s != "" || afterDigit
    ensures DigitRun(s, base, acc, afterDigit).Some?
    ensures DigitRun(s + [c], base, acc, afterDigit)
         == Some(DigitRun(s, base, acc, afterDigit).value * base + DigitValue(c))
  {
    hide DigitValue, IsDigit;
    UnderscoreIsNoDigit(base);
    if s == "" {
      assert s + [c] == [c] && [c][1..] == "";
    } else {
      assert (s + [c])[1..] == s[1..] + [c];
      DigitRunSnoc(s[1..], base, acc * base + DigitValue(s[0]), true, c);
    }
  }

  /** Reading the printed digits gives the number back. */
  lemma {:induction false} ToBaseReadsBack(n: nat, base: nat)
    requires 2 <= base <= 16
    ensures DigitRun(ToBase(n, base), base, 0, false) == Some(n)
  {
    hide DigitValue, DigitChar;
    if n < base {
      assert [DigitChar(n)][1..] == "";
      assert 0 * base == 0;
    } else {
      DivSmaller(n, base);
      ToBaseReadsBack(n / base, base);
      DigitRunSnoc(ToBase(n / base, base), base, 0, false, DigitChar(n % base));
    }
  }

  lemma DivHalves(n: nat, base: nat)
    requires 2 <= base
    ensures n / base <= n / 2
  {
    var q := n / base;
    assert q * base <= n;
    assert q * 2 <= q * base;
  }

  lemma {:induction false} ToBaseLength(n: nat, base: nat, bits: nat, bound: nat)
    requires 2 <= base <= 16 && bits >= 1 && n < bound && bound <= DoublePower(bits)
    ensures |ToBase(n, base)| <= bits
  {
    hide DigitValue;
    if n >= base {
      DivHalves(n, base);
      assert bits > 1;
      ToBaseLength(n / base, base, bits - 1, DoublePower(bits - 1));
    }
  }

  function DoublePower(bits: nat): nat {
    if bits == 0 then 1 else 2 * DoublePower(bits - 1)
  }

  lemma DoublePower32()
    ensures DoublePower(32) == 0x1_0000_0000
  {
    assert DoublePower(8) == 256;
    assert DoublePower(16) == 0x1_0000;
    assert DoublePower(24) == 0x100_0000;
  }

  /** `str(n)`. */
  function Decimal(n: int): string {
    if n < 0 then "-" + ToBase(-n, 10) else ToBase(n, 10)
  }

  lemma {:induction false} DecimalDigits(n: nat)
    ensures forall i :: 0 <= i < |ToBase(n, 10)| ==> '0' <= ToBase(n, 10)[i] <= '9'
  {
  }

  lemma DecimalText(n: int)
    ensures Decimal(n) != "" && Stripped(Decimal(n))
    ensures forall c :: c in Decimal(n) ==> c == '-' || '0' <= c <= '9'
  {
    DecimalDigits(if n < 0 then -n else n);
  }

  /** `int(str(n)) == n` for every integer, negative ones included. */
  lemma DecimalReadsBack(n: int)
    ensures PyInt(Decimal(n), 10) == Some(n)
  {
    DecimalText(n);
    StrippedIsFixed(Decimal(n));
    DecimalDigits(if n < 0 then -n else n);
    ToBaseReadsBack(if n < 0 then -n else n, 10);
    if n < 0 {
      assert Decimal(n)[1..] == ToBase(-n, 10);
    }
  }

  lemma PyIntUnsigned(text: string, base: nat, n: nat)
    requires text != "" && Stripped(text) && text[0] != '-' && text[0] != '+'
    requires DigitRun(DropMarker(text, base), base, 0, false) == Some(n)
    ensures PyInt(text, base) == Some(n)
  {
    StrippedIsFixed(text);
  }

  lemma LeadingZeroIsSilent(digits: string, base: nat)
    requires digits != "" && digits[0] != '_' && 1 <= base <= 16
    ensures DigitRun("0" + digits, base, 0, false) == DigitRun(digits, base, 0, false)
  {
    var text := "0" + digits;
    assert text[1..] == digits;
    assert 0 * base + DigitValue('0') == 0;
    assert DigitRun(text, base, 0, false) == DigitRun(digits, base, 0, true);
  }

  /** `int("0" + octal digits, 8)`. */
  lemma OctalReadsBack(v: nat)
    ensures PyInt("0" + ToBase(v, 8), 8) == Some(v)
  {
    var digits := ToBase(v, 8);
    var text := "0" + digits;
    assert text[1] == digits[0];
    ToBaseReadsBack(v, 8);
    LeadingZeroIsSilent(digits, 8);
    assert DropMarker(text, 8) == text;
    PyIntUnsigned(text, 8, v);
  }

  /** `int("0x" + hex digits, 16)`. */
  lemma HexReadsBack(v: nat)
    ensures PyInt("0x" + ToBase(v, 16), 16) == Some(v)
  {
    var digits := ToBase(v, 16);
    var text := "0x" + digits;
    assert text[2] == digits[0] && text[2..] == digits;
    ToBaseReadsBack(v, 16);
    assert DropMarker(text, 16) == digits;
    PyIntUnsigned(text, 16, v);
  }

  // --- the spellings `int` lets through ---------------------------------------------

  predicate AllDigits(s: string, base: nat) { forall i :: 0 <= i < |s| ==> IsDigit(s[i], base) && s[i] != '_' }

  /** An underscore between digits is silent; one beside another, or at the end, is refused. */
  lemma {:induction false} UnderscoreIsSilent(x: string, y: string, base: nat, acc: nat, afterDigit: bool)
    requires AllDigits(x, base) && AllDigits(y, base) && (x != "" || afterDigit) && y != ""
    ensures DigitRun(x + ("_" + y), base, acc, afterDigit) == DigitRun(x + y, base, acc, afterDigit)
    ensures DigitRun(x + ("__" + y), base, acc, afterDigit) == None
    ensures DigitRun(x + "_", base, acc, afterDigit) == None
  {
    hide IsDigit, DigitValue;
    var one, two := x + ("_" + y), x + ("__" + y);
    if x == "" {
      assert one == "_" + y && two == "_" + ("_" + y) && x + "_" == "_" && x + y == y;
      assert one[1..] == y && two[1..] == "_" + y && "_"[1..] == "";
      FlagAside(y, base, acc);
    } else {
      assert one[1..] == x[1..] + ("_" + y) && two[1..] == x[1..] + ("__" + y);
      assert (x + "_")[1..] == x[1..] + "_" && (x + y)[1..] == x[1..] + y;
      UnderscoreIsSilent(x[1..], y, base, acc * base + DigitValue(x[0]), true);
    }
  }

  lemma FlagAside(y: string, base: nat, acc: nat)
    requires y != "" && y[0] != '_'
    ensures DigitRun(y, base, acc, false) == DigitRun(y, base, acc, true)
  {
  }

  predicate AllSpaces(s: string) { forall i :: 0 <= i < |s| ==> IsSpace(s[i]) }

  lemma {:induction false} SpacesBefore(a: string, s: string)
    requires AllSpaces(a) && s != "" && !IsSpace(s[0])
    ensures StripLeft(a + s) == s
  {
    hide IsSpace;
    if a == "" {
      assert a + s == s && s[0..] == s;
    } else {
      assert (a + s)[1..] == a[1..] + s;
      SpacesBefore(a[1..], s);
      assert (a + s)[1 + LeadingSpaces(a[1..] + s)..] == (a[1..] + s)[LeadingSpaces(a[1..] + s)..];
    }
  }

  lemma {:induction false} SpacesBehind(s: string, b: string)
    requires AllSpaces(b) && s != "" && !IsSpace(s[|s| - 1])
    ensures StripRight(s + b) == s
  {
    hide IsSpace;
    if b == "" {
      assert s + b == s;
    } else {
      assert (s + b)[..|s + b| - 1] == s + b[..|b| - 1];
      SpacesBehind(s, b[..|b| - 1]);
    }
  }

  /** White space around the text is silent, and so is a plus sign before the digits. */
  lemma SpacedIsRead(before: string, text: string, after: string, base: nat)
    requires AllSpaces(before) && AllSpaces(after) && text != "" && Stripped(text)
    ensures PyInt(before + (text + after), base) == PyInt(text, base)
    ensures text[0] != '-' && text[0] != '+' ==> PyInt("+" + text, base) == PyInt(text, base)
  {
    hide IsSpace, DigitRun, DropMarker;
    SpacesBefore(before, text + after);
    SpacesBehind(text, after);
    StrippedIsFixed(text);
    if text[0] != '-' && text[0] != '+' {
      PlusIsNoSpace();
      StrippedIsFixed("+" + text);
      assert ("+" + text)[1..] == text;
    }
  }

  lemma PlusIsNoSpace()
    ensures !IsSpace('+')
  {
  }

  /** The underscore Python allows right after `0x`. */
  lemma MarkerUnderscore(v: nat)
    ensures PyInt("0x_" + ToBase(v, 16), 16) == Some(v)
  {
    var digits := ToBase(v, 16);
    var text := "0x_" + digits;
    assert text[3..] == digits;
    ToBaseReadsBack(v, 16);
    assert DropMarker(text, 16) == digits;
    PyIntUnsigned(text, 16, v);
  }
}
