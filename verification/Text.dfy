/** Python string operations shared by the components, over `seq<char>`. */
module Text {

  datatype Option<+T> = None | Some(value: T)

  datatype Result<+T, +E> = Ok(value: T) | Err(error: E)

  // --- whitespace -----------------------------------------------------------

  /** `str.isspace`, the set `str.strip` and the pattern `\s` share. */
  predicate IsSpace(c: char) {
    || '\U{9}' <= c <= '\U{D}' || '\U{1C}' <= c <= ' ' || c == '\U{85}' || c == '\U{A0}'
    || c == '\U{1680}' || '\U{2000}' <= c <= '\U{200A}' || c == '\U{2028}' || c == '\U{2029}'
    || c == '\U{202F}' || c == '\U{205F}' || c == '\U{3000}'
  }

  function LeadingSpaces(s: string): (n: nat)
    ensures n <= |s|
    ensures n < |s| ==> !IsSpace(s[n])
    ensures forall i :: 0 <= i < n ==> IsSpace(s[i])
  {
    if s != "" && IsSpace(s[0]) then 1 + LeadingSpaces(s[1..]) else 0
  }

  function StripLeft(s: string): string { s[LeadingSpaces(s)..] }

  function StripRight(s: string): string {
    if s != "" && IsSpace(s[|s| - 1]) then StripRight(s[..|s| - 1]) else s
  }

  function Strip(s: string): string { StripRight(StripLeft(s)) }

  predicate Stripped(s: string) {
    s != "" ==> !IsSpace(s[0]) && !IsSpace(s[|s| - 1])
  }

  lemma StrippedIsFixed(s: string)
    requires Stripped(s)
    ensures Strip(s) == s
  {
  }

  lemma StripRightIsPrefix(s: string)
    ensures StripRight(s) <= s
    ensures StripRight(s) != "" ==> !IsSpace(StripRight(s)[|StripRight(s)| - 1])
  {
  }

  /** Stripping leaves a stretch of the text with no white space at either end. */
  lemma StripIsStripped(s: string)
    ensures Stripped(Strip(s))
    ensures |Strip(s)| <= |s|
    ensures forall c :: c in Strip(s) ==> c in s
  {
    StripRightIsPrefix(StripLeft(s));
  }

  // --- searching and cutting ------------------------------------------------

  /** Position of the first character in `stops`, or the length when there is none. */
  function Find(s: string, stops: set<char>): (n: nat)
    ensures n <= |s|
    ensures forall i :: 0 <= i < n ==> s[i] !in stops
    ensures n < |s| ==> s[n] in stops
  {
    if s == "" || s[0] in stops then 0 else 1 + Find(s[1..], stops)
  }

  lemma FindIs(s: string, stops: set<char>, n: nat)
    requires n <= |s|
    requires forall i :: 0 <= i < n ==> s[i] !in stops
    requires n < |s| ==> s[n] in stops
    ensures Find(s, stops) == n
  {
  }

  /** Where the search stops when the text before the stop is known. */
  lemma FindAfter(before: string, after: string, stops: set<char>)
    requires forall c :: c in before ==> c !in stops
    requires after != "" ==> after[0] in stops
    ensures Find(before + after, stops) == |before|
    ensures (before + after)[..|before|] == before
    ensures (before + after)[|before|..] == after
  {
    FindIs(before + after, stops, |before|);
  }

  predicate StartsWith(s: string, prefix: string) { prefix <= s }

  predicate EndsWith(s: string, suffix: string) {
    |suffix| <= |s| && s[|s| - |suffix|..] == suffix
  }

  function RemovePrefix(s: string, prefix: string): string {
    if prefix <= s then s[|prefix|..] else s
  }

  /** `str.rstrip(c)` for one character. */
  function StripTrailing(s: string, c: char): (r: string)
    ensures r <= s
    ensures r != "" ==> r[|r| - 1] != c
  {
    if s != "" && s[|s| - 1] == c then StripTrailing(s[..|s| - 1], c) else s
  }

  lemma StripTrailingFixed(s: string, c: char)
    requires s != "" && s[|s| - 1] != c
    ensures StripTrailing(s, c) == s
  {
  }

  /** `str.split(c)`: always at least one part. */
  function Split(s: string, c: char): (parts: seq<string>)
    ensures |parts| >= 1
    ensures forall p :: p in parts ==> c !in p
    decreases |s|
  {
    var n := Find(s, {c});
    if n == |s| then [s] else [s[..n]] + Split(s[n + 1..], c)
  }

  function Join(parts: seq<string>, c: char): string {
    if |parts| == 0 then "" else
    if |parts| == 1 then parts[0] else parts[0] + [c] + Join(parts[1..], c)
  }

  lemma {:induction false} SplitJoin(parts: seq<string>, c: char)
    requires |parts| >= 1
    requires forall p :: p in parts ==> c !in p
    ensures Split(Join(parts, c), c) == parts
  {
    if |parts| == 1 {
      assert parts[0] in parts;
      assert forall i :: 0 <= i < |parts[0]| ==> parts[0][i] in parts[0];
      FindIs(parts[0], {c}, |parts[0]|);
    } else {
      var rest := Join(parts[1..], c);
      assert Join(parts, c) == parts[0] + ([c] + rest);
      FindAfter(parts[0], [c] + rest, {c});
      assert Join(parts, c)[|parts[0]| + 1..] == rest;
      SplitJoin(parts[1..], c);
    }
  }

  lemma {:induction false} JoinSplit(s: string, c: char)
    ensures Join(Split(s, c), c) == s
    decreases |s|
  {
    hide Join;
    var n := Find(s, {c});
    if n == |s| {
      assert Split(s, c) == [s] + [];
      JoinCons(s, [], c);
    } else {
      var rest := Split(s[n + 1..], c);
      JoinSplit(s[n + 1..], c);
      JoinCons(s[..n], rest, c);
      assert s == s[..n] + [c] + s[n + 1..];
    }
  }

  lemma JoinCons(first: string, rest: seq<string>, c: char)
    ensures Join([first] + rest, c) == if rest == [] then first else first + [c] + Join(rest, c)
  {
    assert rest != [] ==> ([first] + rest)[1..] == rest;
    assert [first] + [] == [first];
  }

  /** Every character of joined text is the separator or comes from a part. */
  lemma {:induction false} JoinChars(parts: seq<string>, c: char)
    ensures forall x :: x in Join(parts, c) ==> x == c || exists i :: 0 <= i < |parts| && x in parts[i]
  {
    if |parts| > 1 {
      JoinChars(parts[1..], c);
      forall x | x in Join(parts, c) && x != c
        ensures exists i :: 0 <= i < |parts| && x in parts[i]
      {
        if x !in parts[0] {
          assert x in Join(parts[1..], c);
          var i :| 0 <= i < |parts[1..]| && x in parts[1..][i];
          assert x in parts[i + 1];
        }
      }
    } else if |parts| == 1 {
      assert forall x :: x in Join(parts, c) ==> x in parts[0];
    }
  }

  lemma {:induction false} JoinSnoc(parts: seq<string>, last: string, c: char)
    requires |parts| >= 1
    ensures Join(parts + [last], c) == Join(parts, c) + [c] + last
  {
    if |parts| == 1 {
      assert (parts + [last])[1..] == [last];
    } else {
      assert (parts + [last])[1..] == parts[1..] + [last];
      JoinSnoc(parts[1..], last, c);
    }
  }

  /** A separator at the end of the text adds one empty part. */
  lemma SplitTrailing(s: string, c: char)
    ensures Split(s + [c], c) == Split(s, c) + [""]
  {
    var parts := Split(s, c);
    JoinSplit(s, c);
    JoinSnoc(parts, "", c);
    assert s + [c] + "" == s + [c];
    SplitJoin(parts + [""], c);
  }

  // --- ASCII case -----------------------------------------------------------

  function LowerChar(c: char): char {
    if 'A' <= c <= 'Z' then c - 'A' + 'a' else c
  }

  function UpperChar(c: char): char {
    if 'a' <= c <= 'z' then c - 'a' + 'A' else c
  }

  function Lower(s: string): (r: string)
    ensures |r| == |s|
    ensures forall i :: 0 <= i < |s| ==> r[i] == LowerChar(s[i])
  {
    seq(|s|, i requires 0 <= i < |s| => LowerChar(s[i]))
  }

  lemma LowerIdempotent(s: string)
    ensures Lower(Lower(s)) == Lower(s)
  {
  }

  lemma LowerConcat(a: string, b: string)
    ensures Lower(a + b) == Lower(a) + Lower(b)
  {
  }

  // --- code-point order -----------------------------------------------------

  /** Python's `<=` on `str`: lexicographic by code point. */
  predicate AtMost(a: string, b: string) {
    if a == "" then true
    else if b == "" then false
    else if a[0] != b[0] then a[0] < b[0]
    else AtMost(a[1..], b[1..])
  }

  lemma AtMostTotal(a: string, b: string)
    ensures AtMost(a, b) || AtMost(b, a)
  {
  }

  lemma AtMostAntisymmetric(a: string, b: string)
    requires AtMost(a, b) && AtMost(b, a)
    ensures a == b
  {
    if a != "" {
      AtMostAntisymmetric(a[1..], b[1..]);
      assert a == [a[0]] + a[1..] && b == [b[0]] + b[1..];
    }
  }

  lemma AtMostTransitive(a: string, b: string, c: string)
    requires AtMost(a, b) && AtMost(b, c)
    ensures AtMost(a, c)
  {
  }

  /** The first place where two texts differ. */
  ghost predicate DifferAt(a: string, b: string, i: nat) {
    i < |a| && i < |b| && a[..i] == b[..i] && a[i] != b[i]
  }

  /** The order is decided where the texts first differ, or by which one goes on. */
  lemma {:induction false} AtMostIs(a: string, b: string)
    ensures AtMost(a, b) <==> a <= b || exists i: nat :: DifferAt(a, b, i) && a[i] < b[i]
  {
    if a != "" && b != "" && a[0] == b[0] {
      AtMostIs(a[1..], b[1..]);
      assert a == [a[0]] + a[1..] && b == [b[0]] + b[1..];
      if i: nat :| DifferAt(a, b, i) && a[i] < b[i] {
        assert a[1..][..i - 1] == a[1..i] == a[..i][1..] && b[1..][..i - 1] == b[1..i] == b[..i][1..];
        assert DifferAt(a[1..], b[1..], i - 1);
      }
      if i: nat :| DifferAt(a[1..], b[1..], i) && a[1..][i] < b[1..][i] {
        assert a[..i + 1] == [a[0]] + a[1..][..i] && b[..i + 1] == [b[0]] + b[1..][..i];
        assert DifferAt(a, b, i + 1);
      }
    } else if a != "" && b != "" {
      assert DifferAt(a, b, 0);
    }
  }
}
