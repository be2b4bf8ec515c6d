/** `parse_qsl`, `urlencode` and the cleaning of a query string for the dedup key. */
module QueryString {
  import opened Text
  import opened Utf8

  datatype Pair = Pair(key: string, value: string)

  // --- percent escapes ----------------------------------------------------------

  function HexValue(c: char): Option<nat> {
    if '0' <= c <= '9' then Some((c - '0') as nat)
    else if 'a' <= c <= 'f' then Some((c - 'a') as nat + 10)
    else if 'A' <= c <= 'F' then Some((c - 'A') as nat + 10)
    else None
  }

  function HexDigit(d: nat): (c: char)
    requires d < 16
    ensures HexValue(c) == Some(d)
    ensures '0' <= c <= '9' || 'A' <= c <= 'F'
  {
    if d < 10 then '0' + d as char else 'A' + (d - 10) as char
  }

  /** Whether a percent escape starts the text. */
  predicate EscapeAt(s: string) {
    |s| >= 3 && s[0] == '%' && HexValue(s[1]).Some? && HexValue(s[2]).Some?
  }

  /** `unquote_to_bytes`: a percent sign that starts no escape is kept as it is. */
  function UnquoteBytes(s: string): seq<Byte> {
    if s == "" then []
    else if EscapeAt(s) then
      [16 * HexValue(s[1]).value + HexValue(s[2]).value] + UnquoteBytes(s[3..])
    else EncodeChar(s[0]) + UnquoteBytes(s[1..])
  }

  function PlusToSpace(s: string): (r: string)
    ensures |r| == |s|
  {
    seq(|s|, i requires 0 <= i < |s| => if s[i] == '+' then ' ' else s[i])
  }

  /** How `parse_qsl` reads one name or value. */
  function Unquote(s: string): string { Decode(UnquoteBytes(PlusToSpace(s))) }

  predicate Unreserved(b: Byte) {
    || 'a' as int <= b <= 'z' as int || 'A' as int <= b <= 'Z' as int || '0' as int <= b <= '9' as int
    || b == '_' as int || b == '.' as int || b == '-' as int || b == '~' as int
  }

  function QuoteByte(b: Byte): (r: string)
    ensures r != ""
  {
    if b == ' ' as int then "+"
    else if Unreserved(b) then [b as char]
    else ['%', HexDigit(b / 16), HexDigit(b % 16)]
  }

  function QuoteBytes(bytes: seq<Byte>): string {
    if bytes == [] then "" else QuoteByte(bytes[0]) + QuoteBytes(bytes[1..])
  }

  /** `quote_plus`. */
  function QuotePlus(s: string): string { QuoteBytes(Encode(s)) }

  /** The characters `quote_plus` writes. */
  predicate QuotedChar(c: char) {
    'a' <= c <= 'z' || 'A' <= c <= 'Z' || '0' <= c <= '9' || c in "_.-~+%"
  }

  lemma {:induction false} QuoteBytesChars(bytes: seq<Byte>)
    ensures forall i :: 0 <= i < |QuoteBytes(bytes)| ==> QuotedChar(QuoteBytes(bytes)[i])
  {
    if bytes != [] {
      QuoteBytesChars(bytes[1..]);
      var q := QuoteByte(bytes[0]);
      assert forall i :: 0 <= i < |q| ==> QuotedChar(q[i]);
    }
  }

  /** Letters, digits and the four marks that stand for themselves. */
  predicate StandsForItself(c: char) {
    'a' <= c <= 'z' || 'A' <= c <= 'Z' || '0' <= c <= '9' || c in {'_', '.', '-', '~'}
  }

  /** Quoting leaves what stands for itself, writes a plus for a space, and escapes every other byte in upper case. */
  lemma {:induction false} QuoteIs(bytes: seq<Byte>)
    requires bytes != []
    ensures var b, rest := bytes[0], QuoteBytes(bytes[1..]);
      && (b < 0x80 && StandsForItself(b as char) ==> QuoteBytes(bytes) == [b as char] + rest)
      && (b == ' ' as int ==> QuoteBytes(bytes) == "+" + rest)
      && (b != ' ' as int && (b >= 0x80 || !StandsForItself(b as char)) ==>
            && |QuoteBytes(bytes)| == 3 + |rest| && EscapeAt(QuoteBytes(bytes)) && QuoteBytes(bytes)[3..] == rest
            && UpperChar(QuoteBytes(bytes)[1]) == QuoteBytes(bytes)[1]
            && UpperChar(QuoteBytes(bytes)[2]) == QuoteBytes(bytes)[2])
  {
    assert (QuoteByte(bytes[0]) + QuoteBytes(bytes[1..]))[|QuoteByte(bytes[0])|..] == QuoteBytes(bytes[1..]);
  }

  lemma UnquoteOneByte(b: Byte, rest: string)
    ensures UnquoteBytes(PlusToSpace(QuoteByte(b)) + rest) == [b] + UnquoteBytes(rest)
  {
    var q := PlusToSpace(QuoteByte(b));
    var s := q + rest;
    if b == ' ' as int || Unreserved(b) {
      assert q == [b as char];
      assert s[1..] == rest;
      assert !EscapeAt(s);
    } else {
      assert q == ['%', HexDigit(b / 16), HexDigit(b % 16)];
      assert s[3..] == rest;
      assert EscapeAt(s);
    }
  }

  lemma {:induction false} UnquoteQuoteBytes(bytes: seq<Byte>)
    ensures UnquoteBytes(PlusToSpace(QuoteBytes(bytes))) == bytes
  {
    if bytes != [] {
      var rest := QuoteBytes(bytes[1..]);
      UnquoteQuoteBytes(bytes[1..]);
      assert PlusToSpace(QuoteByte(bytes[0]) + rest) == PlusToSpace(QuoteByte(bytes[0])) + PlusToSpace(rest);
      UnquoteOneByte(bytes[0], PlusToSpace(rest));
    } else {
      assert PlusToSpace("") == "";
    }
  }

  lemma UnquoteQuote(s: string)
    ensures Unquote(QuotePlus(s)) == s
  {
    UnquoteQuoteBytes(Encode(s));
    DecodeEncode(s);
  }

  // --- query strings --------------------------------------------------------------

  /** One `name=value` field; a field without `=` has an empty value. */
  function ParseField(field: string): Pair {
    var n := Find(field, {'='});
    Pair(Unquote(field[..n]), if n < |field| then Unquote(field[n + 1..]) else "")
  }

  function ParseFields(fields: seq<string>): seq<Pair> {
    if fields == [] then [] else
      (if fields[0] == "" then [] else [ParseField(fields[0])]) + ParseFields(fields[1..])
  }

  /** `parse_qsl(query, keep_blank_values=True)`. */
  function ParseQsl(query: string): seq<Pair> { ParseFields(Split(query, '&')) }

  function EncodePair(p: Pair): string { QuotePlus(p.key) + "=" + QuotePlus(p.value) }

  function EncodePairs(pairs: seq<Pair>): seq<string> {
    seq(|pairs|, i requires 0 <= i < |pairs| => EncodePair(pairs[i]))
  }

  /** `urlencode`. */
  function UrlEncode(pairs: seq<Pair>): string { Join(EncodePairs(pairs), '&') }

  lemma EncodePairShape(p: Pair)
    ensures EncodePair(p) != "" && '&' !in EncodePair(p)
    ensures forall i :: 0 <= i < |EncodePair(p)| ==> QuotedChar(EncodePair(p)[i]) || EncodePair(p)[i] == '='
  {
    hide Encode, QuoteBytes;
    QuoteBytesChars(Encode(p.key));
    QuoteBytesChars(Encode(p.value));
  }

  lemma FieldCut(key: string, value: string)
    requires '=' !in key
    ensures ParseField(key + "=" + value) == Pair(Unquote(key), Unquote(value))
  {
    var field := key + ("=" + value);
    assert key + "=" + value == field;
    FindAfter(key, "=" + value, {'='});
    assert field[|key| + 1..] == value;
  }

  lemma EncodePairReadsBack(p: Pair)
    ensures ParseField(EncodePair(p)) == p
  {
    QuoteBytesChars(Encode(p.key));
    FieldCut(QuotePlus(p.key), QuotePlus(p.value));
    UnquoteQuote(p.key);
    UnquoteQuote(p.value);
  }

  lemma {:induction false} ParseEncodedFields(pairs: seq<Pair>)
    ensures ParseFields(EncodePairs(pairs)) == pairs
  {
    hide ParseField, EncodePair;
    if pairs == [] {
      assert EncodePairs(pairs) == [];
    } else {
      EncodePairShape(pairs[0]);
      EncodePairReadsBack(pairs[0]);
      assert EncodePairs(pairs)[1..] == EncodePairs(pairs[1..]);
      ParseEncodedFields(pairs[1..]);
      assert pairs == [pairs[0]] + pairs[1..];
    }
  }

  /** Reading back what `urlencode` wrote gives the same pairs in the same order. */
  lemma ParseEncode(pairs: seq<Pair>)
    ensures ParseQsl(UrlEncode(pairs)) == pairs
  {
    if pairs == [] {
      assert EncodePairs(pairs) == [];
      assert Split("", '&') == [""];
    } else {
      forall p | p in EncodePairs(pairs)
        ensures '&' !in p
      {
        var i :| 0 <= i < |pairs| && p == EncodePair(pairs[i]);
        EncodePairShape(pairs[i]);
      }
      SplitJoin(EncodePairs(pairs), '&');
      ParseEncodedFields(pairs);
    }
  }

  /** The encoded query holds only printable ASCII, and no `#`. */
  lemma UrlEncodeChars(pairs: seq<Pair>)
    ensures forall c :: c in UrlEncode(pairs) ==> QuotedChar(c) || c == '=' || c == '&'
    ensures pairs != [] ==> UrlEncode(pairs) != ""
  {
    JoinChars(EncodePairs(pairs), '&');
    forall c | c in UrlEncode(pairs)
      ensures QuotedChar(c) || c == '=' || c == '&'
    {
      if c != '&' {
        var i :| 0 <= i < |EncodePairs(pairs)| && c in EncodePairs(pairs)[i];
        EncodePairShape(pairs[i]);
      }
    }
    if pairs != [] {
      EncodePairShape(pairs[0]);
    }
  }

  // --- sorting ----------------------------------------------------------------------

  /** Tuple order on `(key, value)`. */
  predicate PairAtMost(a: Pair, b: Pair) {
    if a.key == b.key then AtMost(a.value, b.value) else AtMost(a.key, b.key)
  }

  lemma PairOrder(a: Pair, b: Pair, c: Pair)
    ensures PairAtMost(a, b) || PairAtMost(b, a)
    ensures PairAtMost(a, b) && PairAtMost(b, a) ==> a == b
    ensures PairAtMost(a, b) && PairAtMost(b, c) ==> PairAtMost(a, c)
  {
    AtMostTotal(a.key, b.key);
    AtMostTotal(a.value, b.value);
    if PairAtMost(a, b) && PairAtMost(b, a) {
      if a.key == b.key {
        AtMostAntisymmetric(a.value, b.value);
      } else {
        AtMostAntisymmetric(a.key, b.key);
      }
    }
    if PairAtMost(a, b) && PairAtMost(b, c) {
      if a.key == b.key == c.key {
        AtMostTransitive(a.value, b.value, c.value);
      } else if a.key != b.key && b.key != c.key {
        AtMostTransitive(a.key, b.key, c.key);
        if a.key == c.key {
          AtMostAntisymmetric(a.key, b.key);
        }
      }
    }
  }

  function Insert(p: Pair, sorted: seq<Pair>): seq<Pair> {
    if sorted == [] || PairAtMost(p, sorted[0]) then [p] + sorted
    else [sorted[0]] + Insert(p, sorted[1..])
  }

  /** `sorted(pairs)`. */
  function Sort(pairs: seq<Pair>): seq<Pair> {
    if pairs == [] then [] else Insert(pairs[0], Sort(pairs[1..]))
  }

  predicate Sorted(pairs: seq<Pair>) {
    forall i, j :: 0 <= i < j < |pairs| ==> PairAtMost(pairs[i], pairs[j])
  }

  lemma {:induction false} InsertKeeps(p: Pair, sorted: seq<Pair>)
    requires Sorted(sorted)
    ensures Sorted(Insert(p, sorted))
    ensures multiset(Insert(p, sorted)) == multiset{p} + multiset(sorted)
  {
    if sorted == [] {
    } else if PairAtMost(p, sorted[0]) {
      forall j | 0 <= j < |sorted|
        ensures PairAtMost(p, sorted[j])
      {
        PairOrder(p, sorted[0], sorted[j]);
      }
    } else {
      var rest := Insert(p, sorted[1..]);
      InsertKeeps(p, sorted[1..]);
      assert sorted == [sorted[0]] + sorted[1..];
      forall q | q in rest
        ensures PairAtMost(sorted[0], q)
      {
        PairOrder(p, sorted[0], p);
        assert q in multiset(rest);
      }
    }
  }

  /** Sorting keeps the pairs and orders them. */
  lemma {:induction false} SortSorts(pairs: seq<Pair>)
    ensures Sorted(Sort(pairs)) && multiset(Sort(pairs)) == multiset(pairs)
  {
    if pairs != [] {
      SortSorts(pairs[1..]);
      InsertKeeps(pairs[0], Sort(pairs[1..]));
      assert pairs == [pairs[0]] + pairs[1..];
    }
  }

  lemma SortedHead(a: seq<Pair>, p: Pair)
    requires Sorted(a) && p in multiset(a)
    ensures a != [] && PairAtMost(a[0], p)
  {
    assert p in a;
    PairOrder(p, p, p);
  }

  lemma TailMultiset(a: seq<Pair>)
    requires a != []
    ensures multiset(a[1..]) == multiset(a) - multiset{a[0]}
  {
    assert a == [a[0]] + a[1..];
  }

  /** Two sorted lists of the same pairs are the same list. */
  lemma {:induction false} SortedIsUnique(a: seq<Pair>, b: seq<Pair>)
    requires Sorted(a) && Sorted(b) && multiset(a) == multiset(b)
    ensures a == b
  {
    hide PairAtMost;
    assert |multiset(a)| == |a| && |multiset(b)| == |b|;
    if a != [] {
      assert b != [];
      assert a[0] in multiset(a) && b[0] in multiset(b);
      SortedHead(a, b[0]);
      SortedHead(b, a[0]);
      PairOrder(a[0], b[0], a[0]);
      TailMultiset(a);
      TailMultiset(b);
      SortedIsUnique(a[1..], b[1..]);
      assert a == [a[0]] + a[1..] && b == [b[0]] + b[1..];
    }
  }

  lemma SortOfSorted(pairs: seq<Pair>)
    requires Sorted(pairs)
    ensures Sort(pairs) == pairs
  {
    SortSorts(pairs);
    SortedIsUnique(Sort(pairs), pairs);
  }
}
