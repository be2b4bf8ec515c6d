/** Opaque keyset cursors: unpadded base64url over `1:<microseconds>:<id>`. */
module Pagination {
  import opened Text
  import opened Numerals
  import opened Utf8

  // --- base64 -------------------------------------------------------------------

  /** The URL-safe alphabet. */
  function SixBitChar(v: nat): (c: char)
    requires v < 64
    ensures c != '=' && SixBitValue(c) == Some(v)
  {
    if v < 26 then 'A' + v as char
    else if v < 52 then 'a' + (v - 26) as char
    else if v < 62 then '0' + (v - 52) as char
    else if v == 62 then '-' else '_'
  }

  /** Both alphabets decode: `-` and `_` are translated to `+` and `/` first. */
  function SixBitValue(c: char): Option<nat> {
    if 'A' <= c <= 'Z' then Some((c - 'A') as nat)
    else if 'a' <= c <= 'z' then Some((c - 'a') as nat + 26)
    else if '0' <= c <= '9' then Some((c - '0') as nat + 52)
    else if c == '-' || c == '+' then Some(62)
    else if c == '_' || c == '/' then Some(63)
    else None
  }

  /** Three bytes to four characters; a short last group is padded with `=`. */
  function Base64(bytes: seq<Byte>): string {
    if bytes == [] then ""
    else if |bytes| == 1 then [SixBitChar(bytes[0] / 4), SixBitChar(bytes[0] % 4 * 16), '=', '=']
    else if |bytes| == 2 then
      [SixBitChar(bytes[0] / 4), SixBitChar(bytes[0] % 4 * 16 + bytes[1] / 16), SixBitChar(bytes[1] % 16 * 4), '=']
    else
      Group(bytes[0], bytes[1], bytes[2]) + Base64(bytes[3..])
  }

  function Group(a: Byte, b: Byte, c: Byte): (r: string)
    ensures |r| == 4 && r[3] != '='
  {
    [SixBitChar(a / 4), SixBitChar(a % 4 * 16 + b / 16), SixBitChar(b % 16 * 4 + c / 64), SixBitChar(c % 64)]
  }

  /** The lenient decoder: a character outside the alphabet is skipped, a full pad ends the data. */
  function Scan(s: string, quad: nat, left: nat, pads: nat): Option<seq<Byte>>
    requires quad < 4
    requires left < (match quad case 0 => 1 case 1 => 64 case 2 => 16 case _ => 4)
  {
    if s == "" then (if quad == 0 then Some([]) else None)
    else if s[0] == '=' then
      var seen := if quad >= 2 then pads + 1 else pads;
      if quad >= 2 && quad + seen >= 4 then Some([]) else Scan(s[1..], quad, left, seen)
    else
      match SixBitValue(s[0])
      case None => Scan(s[1..], quad, left, pads)
      case Some(v) =>
        if quad == 0 then Scan(s[1..], 1, v, 0)
        else if quad == 1 then Prepend(left * 4 + v / 16, Scan(s[1..], 2, v % 16, 0))
        else if quad == 2 then Prepend(left * 16 + v / 4, Scan(s[1..], 3, v % 4, 0))
        else Prepend(left * 64 + v, Scan(s[1..], 0, 0, 0))
  }

  function Prepend(b: Byte, rest: Option<seq<Byte>>): Option<seq<Byte>> {
    match rest case None => None case Some(bytes) => Some([b] + bytes)
  }

  lemma ScanData(v: nat, rest: string, quad: nat, left: nat)
    requires v < 64 && quad < 4
    requires left < (match quad case 0 => 1 case 1 => 64 case 2 => 16 case _ => 4)
    ensures Scan([SixBitChar(v)] + rest, quad, left, 0) ==
      if quad == 0 then Scan(rest, 1, v, 0)
      else if quad == 1 then Prepend(left * 4 + v / 16, Scan(rest, 2, v % 16, 0))
      else if quad == 2 then Prepend(left * 16 + v / 4, Scan(rest, 3, v % 4, 0))
      else Prepend(left * 64 + v, Scan(rest, 0, 0, 0))
  {
    assert ([SixBitChar(v)] + rest)[1..] == rest;
  }

  /** The first two characters of any group give its first byte. */
  lemma ScanTwo(a: Byte, next: nat, rest: string)
    requires next < 16
    ensures Scan([SixBitChar(a / 4)] + ([SixBitChar(a % 4 * 16 + next)] + rest), 0, 0, 0)
         == Prepend(a, Scan(rest, 2, next, 0))
  {
    var v := a % 4 * 16 + next;
    ScanData(a / 4, [SixBitChar(v)] + rest, 0, 0);
    ScanData(v, rest, 1, a / 4);
    assert v / 16 == a % 4 && v % 16 == next;
  }

  lemma ScanThird(b: Byte, next: nat, rest: string)
    requires next < 4
    ensures Scan([SixBitChar(b % 16 * 4 + next)] + rest, 2, b / 16, 0) == Prepend(b, Scan(rest, 3, next, 0))
  {
    var v := b % 16 * 4 + next;
    ScanData(v, rest, 2, b / 16);
    assert v / 4 == b % 16 && v % 4 == next;
  }

  lemma ScanGroup(a: Byte, b: Byte, c: Byte, rest: string)
    ensures Scan(Group(a, b, c) + rest, 0, 0, 0)
         == Prepend(a, Prepend(b, Prepend(c, Scan(rest, 0, 0, 0))))
  {
    hide Scan, SixBitChar;
    var last := [SixBitChar(c % 64)] + rest;
    var third := [SixBitChar(b % 16 * 4 + c / 64)] + last;
    assert Group(a, b, c) + rest == [SixBitChar(a / 4)] + ([SixBitChar(a % 4 * 16 + b / 16)] + third);
    ScanTwo(a, b / 16, third);
    ScanThird(b, c / 64, last);
    ScanData(c % 64, rest, 3, c / 64);
  }

  lemma ScanShort(a: Byte, b: Byte)
    ensures Scan(Base64([a]), 0, 0, 0) == Some([a])
    ensures Scan(Base64([a, b]), 0, 0, 0) == Some([a, b])
  {
    assert Base64([a]) == [SixBitChar(a / 4)] + ([SixBitChar(a % 4 * 16 + 0)] + "==");
    ScanTwo(a, 0, "==");
    assert "=="[1..] == "=" && Scan("=", 2, 0, 1) == Some([]);
    assert [a] + [] == [a];
    var third := [SixBitChar(b % 16 * 4 + 0)] + "=";
    assert Base64([a, b]) == [SixBitChar(a / 4)] + ([SixBitChar(a % 4 * 16 + b / 16)] + third);
    ScanTwo(a, b / 16, third);
    ScanThird(b, 0, "=");
    assert [a] + ([b] + []) == [a, b];
  }

  /** Decoding what was encoded, padding and all. */
  lemma {:induction false} ScanBase64(bytes: seq<Byte>)
    ensures Scan(Base64(bytes), 0, 0, 0) == Some(bytes)
  {
    hide SixBitChar, SixBitValue;
    if |bytes| == 1 {
      ScanShort(bytes[0], 0);
      assert bytes == [bytes[0]];
    } else if |bytes| == 2 {
      ScanShort(bytes[0], bytes[1]);
      assert bytes == [bytes[0], bytes[1]];
    } else if |bytes| >= 3 {
      ScanBase64(bytes[3..]);
      ScanGroup(bytes[0], bytes[1], bytes[2], Base64(bytes[3..]));
      assert bytes == [bytes[0]] + ([bytes[1]] + ([bytes[2]] + bytes[3..]));
    }
  }

  lemma {:induction false} StripTrailingConcat(a: string, b: string, c: char)
    requires a != "" && a[|a| - 1] != c
    ensures StripTrailing(a + b, c) == a + StripTrailing(b, c)
  {
    if b != "" && b[|b| - 1] == c {
      assert (a + b)[..|a + b| - 1] == a + b[..|b| - 1];
      StripTrailingConcat(a, b[..|b| - 1], c);
    }
  }

  /** `"=" * (-len % 4)` */
  function Padding(length: nat): string {
    match length % 4 case 0 => "" case 1 => "===" case 2 => "==" case _ => "="
  }

  lemma PaddedShort(body: string)
    requires |body| >= 2 && '=' !in body
    ensures StripTrailing(body + "==", '=') == body && StripTrailing(body + "=", '=') == body
  {
    assert body[|body| - 1] in body;
    StripTrailingConcat(body, "==", '=');
    StripTrailingConcat(body, "=", '=');
    assert "=="[..1] == "=" && "="[..0] == "";
  }

  /** The padding a cursor drops is the padding its length asks for. */
  lemma {:induction false} PaddingIsRestored(bytes: seq<Byte>)
    ensures var c := StripTrailing(Base64(bytes), '=');
      c + Padding(|c|) == Base64(bytes)
  {
    var s := Base64(bytes);
    if |bytes| == 1 {
      assert s[..2] + "==" == s;
      PaddedShort(s[..2]);
    } else if |bytes| == 2 {
      assert s[..3] + "=" == s;
      PaddedShort(s[..3]);
    } else if |bytes| >= 3 {
      PaddingIsRestored(bytes[3..]);
      PaddingAfterGroup(Group(bytes[0], bytes[1], bytes[2]), Base64(bytes[3..]));
    }
  }

  lemma PaddingAfterGroup(g: string, rest: string)
    requires |g| == 4 && g[3] != '='
    requires StripTrailing(rest, '=') + Padding(|StripTrailing(rest, '=')|) == rest
    ensures var c := StripTrailing(g + rest, '=');
      c + Padding(|c|) == g + rest
  {
    hide StripTrailing;
    var c := StripTrailing(rest, '=');
    StripTrailingConcat(g, rest, '=');
    assert (4 + |c|) % 4 == |c| % 4;
    assert g + c + Padding(|c|) == g + (c + Padding(|c|));
  }

  // --- cursors --------------------------------------------------------------------

  /** A keyset position: microseconds since the epoch, and a row id. */
  datatype Position = Position(micros: int, id: int)

  datatype CursorError = Malformed | UnknownVersion

  // The instants a datetime can hold, 0001-01-01 to 9999-12-31, in microseconds.
  const MIN_MICROS := -62_135_596_800_000_000
  const MAX_MICROS := 253_402_300_799_999_999

  predicate Instant(micros: int) { MIN_MICROS <= micros <= MAX_MICROS }

  function Payload(at: Position): string {
    Join(["1", Decimal(at.micros), Decimal(at.id)], ':')
  }

  function EncodeCursor(at: Position): string {
    StripTrailing(Base64(Encode(Payload(at))), '=')
  }

  predicate Ascii(bytes: seq<Byte>) { forall i :: 0 <= i < |bytes| ==> bytes[i] < 0x80 }

  function DecodePayload(payload: string): Result<Position, CursorError> {
    var parts := Split(payload, ':');
    if |parts| != 3 then Err(Malformed) else
      var micros, id := PyInt(parts[1], 10), PyInt(parts[2], 10);
      if micros.None? || !Instant(micros.value) || id.None? then Err(Malformed)
      else if parts[0] != "1" then Err(UnknownVersion)
      else Ok(Position(micros.value, id.value))
  }

  function DecodeCursor(cursor: string): Result<Position, CursorError> {
    match Scan(cursor + Padding(|cursor|), 0, 0, 0)
    case None => Err(Malformed)
    case Some(bytes) => if Ascii(bytes) then DecodePayload(Decode(bytes)) else Err(Malformed)
  }

  lemma PayloadReadsBack(at: Position)
    requires Instant(at.micros)
    ensures DecodePayload(Payload(at)) == Ok(at)
  {
    var parts := ["1", Decimal(at.micros), Decimal(at.id)];
    DecimalText(at.micros);
    DecimalText(at.id);
    SplitJoin(parts, ':');
    DecimalReadsBack(at.micros);
    DecimalReadsBack(at.id);
  }

  lemma {:induction false} AsciiEncodes(s: string)
    requires forall c :: c in s ==> c as int < 0x80
    ensures Ascii(Encode(s))
  {
    if s != "" {
      assert s[0] in s && forall c :: c in s[1..] ==> c in s;
      AsciiEncodes(s[1..]);
    }
  }

  lemma PayloadIsAscii(at: Position)
    ensures Ascii(Encode(Payload(at)))
  {
    var parts := ["1", Decimal(at.micros), Decimal(at.id)];
    DecimalText(at.micros);
    DecimalText(at.id);
    JoinChars(parts, ':');
    forall c | c in Payload(at)
      ensures c as int < 0x80
    {
      if c != ':' {
        var i :| 0 <= i < 3 && c in parts[i];
      }
    }
    AsciiEncodes(Payload(at));
  }

  /** A cursor names its position exactly, instants before the epoch and negative ids included. */
  lemma CursorRoundTrip(at: Position)
    requires Instant(at.micros)
    ensures DecodeCursor(EncodeCursor(at)) == Ok(at)
  {
    var bytes := Encode(Payload(at));
    PaddingIsRestored(bytes);
    ScanBase64(bytes);
    PayloadIsAscii(at);
    DecodeEncode(Payload(at));
    PayloadReadsBack(at);
  }

  /** A cursor of some version: the three fields, encoded. */
  function VersionedCursor(version: string, micros: int, id: int): string {
    StripTrailing(Base64(Encode(Join([version, Decimal(micros), Decimal(id)], ':'))), '=')
  }

  /**
   * A cursor is accepted only in version 1 and within the instants a datetime holds; another
   * version is told apart from a malformed cursor.
   */
  lemma OnlyVersionOne(version: string, micros: int, id: int)
    requires ':' !in version && forall c :: c in version ==> c as int < 0x80
    ensures DecodeCursor(VersionedCursor(version, micros, id)) ==
      if micros < -62_135_596_800_000_000 || micros > 253_402_300_799_999_999 then Err(Malformed)
      else if version != "1" then Err(UnknownVersion)
      else Ok(Position(micros, id))
  {
    hide Scan, Base64, Encode, Decode, Decimal, PyInt, StripTrailing, Padding;
    var parts := [version, Decimal(micros), Decimal(id)];
    var payload := Join(parts, ':');
    FieldsAreAscii(version, micros, id);
    PaddingIsRestored(Encode(payload));
    ScanBase64(Encode(payload));
    DecodeEncode(payload);
    DecimalText(micros);
    DecimalText(id);
    SplitJoin(parts, ':');
    DecimalReadsBack(micros);
    DecimalReadsBack(id);
  }

  lemma FieldsAreAscii(version: string, micros: int, id: int)
    requires forall c :: c in version ==> c as int < 0x80
    ensures Ascii(Encode(Join([version, Decimal(micros), Decimal(id)], ':')))
  {
    hide Decimal;
    var parts := [version, Decimal(micros), Decimal(id)];
    DecimalText(micros);
    DecimalText(id);
    JoinChars(parts, ':');
    forall c | c in Join(parts, ':')
      ensures c as int < 0x80
    {
      if c != ':' {
        var i :| 0 <= i < 3 && c in parts[i];
      }
    }
    AsciiEncodes(Join(parts, ':'));
  }

  /** The same text in the standard alphabet. */
  function Standard(cursor: string): (r: string)
    ensures |r| == |cursor|
  {
    seq(|cursor|, i requires 0 <= i < |cursor| =>
      if cursor[i] == '-' then '+' else if cursor[i] == '_' then '/' else cursor[i])
  }

  lemma {:induction false} ScanStandard(s: string, quad: nat, left: nat, pads: nat)
    requires quad < 4 && left < (match quad case 0 => 1 case 1 => 64 case 2 => 16 case _ => 4)
    ensures Scan(Standard(s), quad, left, pads) == Scan(s, quad, left, pads)
    decreases |s|
  {
    if s != "" {
      var c, rest := s[0], s[1..];
      assert Standard(s)[0] == (if c == '-' then '+' else if c == '_' then '/' else c);
      assert Standard(s)[1..] == Standard(rest);
      assert SixBitValue(Standard(s)[0]) == SixBitValue(c);
      if c == '=' {
        ScanStandard(rest, quad, left, if quad >= 2 then pads + 1 else pads);
      } else {
        match SixBitValue(c)
        case None => ScanStandard(rest, quad, left, pads);
        case Some(v) =>
          if quad == 0 {
            ScanStandard(rest, 1, v, 0);
          } else if quad == 1 {
            ScanStandard(rest, 2, v % 16, 0);
          } else if quad == 2 {
            ScanStandard(rest, 3, v % 4, 0);
          } else {
            ScanStandard(rest, 0, 0, 0);
          }
      }
    }
  }

  /** A cursor means the same in either base64 alphabet. */
  lemma StandardAlphabetDecodes(cursor: string)
    ensures DecodeCursor(Standard(cursor)) == DecodeCursor(cursor)
  {
    hide Scan;
    ScanStandard(cursor + Padding(|cursor|), 0, 0, 0);
    assert Standard(cursor + Padding(|cursor|)) == Standard(cursor) + Padding(|cursor|);
  }

  /** Whatever spelling a cursor is accepted in, the cursor minted for its position means the same. */
  lemma AcceptedCursorHasOneMeaning(cursor: string)
    requires DecodeCursor(cursor).Ok?
    ensures Instant(DecodeCursor(cursor).value.micros)
    ensures DecodeCursor(EncodeCursor(DecodeCursor(cursor).value)) == DecodeCursor(cursor)
  {
    CursorRoundTrip(DecodeCursor(cursor).value);
  }

  /** Distinct positions never share a cursor. */
  lemma CursorsAreDistinct(a: Position, b: Position)
    requires Instant(a.micros) && Instant(b.micros)
    ensures EncodeCursor(a) == EncodeCursor(b) <==> a == b
  {
    CursorRoundTrip(a);
    CursorRoundTrip(b);
  }
}
