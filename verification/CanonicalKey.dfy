/** Which URLs share a dedup key: exactly those that name the same resource. */
module CanonicalKey {
  import opened Text
  import opened QueryString
  import opened Normalise
  import opened Ipv4
  import opened Numerals

  /** What a URL names once spelling is set aside; the query is a bag of pairs. */
  datatype Resource = Resource(
    scheme: string, host: Option<string>, port: Option<int>, path: string, kept: multiset<Pair>)

  ghost function ResourceOf(raw: string): Resource
    requires ParseUrl(Strip(raw)).Some?
  {
    var u := ParseUrl(Strip(raw)).value;
    Resource(u.scheme, FeedHost(u.host), u.port, UpperPath(u.path), multiset(Kept(ParseQsl(u.query))))
  }

  lemma SameKeptSameQuery(p: string, q: string)
    requires multiset(Kept(ParseQsl(p))) == multiset(Kept(ParseQsl(q)))
    ensures CleanQuery(p) == CleanQuery(q)
  {
    EmptyQuery();
    var a, b := Kept(ParseQsl(p)), Kept(ParseQsl(q));
    SortSorts(a);
    SortSorts(b);
    SortedIsUnique(Sort(a), Sort(b));
    assert |multiset(a)| == |a| && |multiset(b)| == |b|;
    assert Kept([]) == [];
  }

  lemma SameQuerySameKept(p: string, q: string)
    requires CleanQuery(p) == CleanQuery(q)
    ensures multiset(Kept(ParseQsl(p))) == multiset(Kept(ParseQsl(q)))
  {
    CleanQueryReadsBack(p);
    CleanQueryReadsBack(q);
    SortSorts(Kept(ParseQsl(p)));
    SortSorts(Kept(ParseQsl(q)));
  }

  lemma SameNormalIffSameResource(u: Url, v: Url)
    requires Normal(u).Some? && Normal(v).Some?
    ensures Normal(u) == Normal(v) <==>
      && u.scheme == v.scheme && FeedHost(u.host) == FeedHost(v.host) && u.port == v.port
      && UpperPath(u.path) == UpperPath(v.path)
      && multiset(Kept(ParseQsl(u.query))) == multiset(Kept(ParseQsl(v.query)))
  {
    if CleanQuery(u.query) == CleanQuery(v.query) {
      SameQuerySameKept(u.query, v.query);
    }
    if multiset(Kept(ParseQsl(u.query))) == multiset(Kept(ParseQsl(v.query))) {
      SameKeptSameQuery(u.query, v.query);
    }
  }

  lemma KeyNamesNormal(raw: string)
    requires NormaliseUrl(raw).Some?
    ensures ParseUrl(Strip(raw)).Some? && Normal(ParseUrl(Strip(raw)).value).Some?
    ensures ParseUrl(NormaliseUrl(raw).value) == Normal(ParseUrl(Strip(raw)).value)
    ensures NormaliseUrl(raw).value == Show(Normal(ParseUrl(Strip(raw)).value).value)
  {
    NormalIsNormal(Strip(raw));
    ParseShow(Normal(ParseUrl(Strip(raw)).value).value);
  }

  /** Two accepted URLs get one key if and only if they name one resource. */
  lemma SameKeyIffSameResource(a: string, b: string)
    requires NormaliseUrl(a).Some? && NormaliseUrl(b).Some?
    ensures NormaliseUrl(a) == NormaliseUrl(b) <==> ResourceOf(a) == ResourceOf(b)
  {
    KeyNamesNormal(a);
    KeyNamesNormal(b);
    SameNormalIffSameResource(ParseUrl(Strip(a)).value, ParseUrl(Strip(b)).value);
  }

  // --- spellings of one URL -------------------------------------------------------

  /** The fields of a query that survive, escapes in upper case, as written otherwise. */
  function Fields(fields: seq<string>): seq<string> {
    if fields == [] then [] else
      (if fields[0] == "" || IsTracking(ParseField(fields[0]).key) then [] else [UpperEscapes(fields[0])])
      + Fields(fields[1..])
  }

  /** The same text but for field order, tracking fields and the case of escapes. */
  ghost predicate SameSpelling(u: Url, v: Url) {
    && u.scheme == v.scheme && u.userinfo == v.userinfo && u.host == v.host && u.port == v.port
    && UpperEscapes(u.path) == UpperEscapes(v.path)
    && multiset(Fields(Split(u.query, '&'))) == multiset(Fields(Split(v.query, '&')))
  }

  lemma HexCase(c: char)
    ensures HexValue(UpperChar(c)) == HexValue(c) || HexValue(c).None?
    ensures HexValue(UpperChar(c)).Some? ==> HexValue(c).Some?
    ensures HexValue(c).Some? ==> c != '+' && UpperChar(c) != '+'
  {
  }

  lemma {:induction false} UnquoteUpper(s: string)
    ensures UnquoteBytes(UpperEscapes(s)) == UnquoteBytes(s)
    decreases |s|
  {
    var r := UpperEscapes(s);
    if s == "" {
    } else if EscapeAt(s) {
      HexCase(s[1]);
      HexCase(s[2]);
      assert r[3..] == UpperEscapes(s[3..]);
      UnquoteUpper(s[3..]);
    } else {
      NoNewEscape(s);
      assert r[1..] == UpperEscapes(s[1..]);
      UnquoteUpper(s[1..]);
    }
  }

  lemma {:induction false} PlusUpper(s: string)
    ensures PlusToSpace(UpperEscapes(s)) == UpperEscapes(PlusToSpace(s))
    decreases |s|
  {
    hide UpperEscapes, EscapeAt, PlusToSpace, Span, UpperHead;
    if s == "" {
      NothingEscapes();
    } else {
      PlusHead(s);
      UpperStep(s);
      UpperStep(PlusToSpace(s));
      PlusAppend(UpperHead(s), UpperEscapes(s[Span(s)..]));
      PlusUpper(s[Span(s)..]);
    }
  }

  lemma PlusAppend(a: string, b: string)
    ensures PlusToSpace(a + b) == PlusToSpace(a) + PlusToSpace(b)
  {
  }

  lemma PlusHead(s: string)
    requires s != ""
    ensures PlusToSpace(s) != "" && Span(PlusToSpace(s)) == Span(s)
    ensures PlusToSpace(s)[Span(s)..] == PlusToSpace(s[Span(s)..])
    ensures UpperHead(PlusToSpace(s)) == PlusToSpace(UpperHead(s))
  {
    hide EscapeAt, UpperChar;
    PlusEscape(s);
    EscapeIsLong(s);
  }

  /** Escapes have no plus signs in them. */
  lemma PlusEscape(s: string)
    ensures EscapeAt(PlusToSpace(s)) == EscapeAt(s)
    ensures EscapeAt(s) ==> |s| >= 3 && s[1] != '+' && s[2] != '+' && UpperChar(s[1]) != '+' && UpperChar(s[2]) != '+'
  {
    if |s| >= 3 {
      HexCase(s[1]);
      HexCase(s[2]);
    }
  }

  lemma UnquoteIgnoresCase(s: string)
    ensures Unquote(UpperEscapes(s)) == Unquote(s)
  {
    PlusUpper(s);
    UnquoteUpper(PlusToSpace(s));
  }

  lemma NoEscapeOverEquals(s: string, i: nat)
    requires 1 <= i <= 2 && i < |s| && s[i] == '='
    ensures !EscapeAt(s)
  {
  }

  /** Upper-casing escapes does not reach across a `=`. */
  lemma {:induction false} UpperCut(a: string, b: string)
    requires b != "" && b[0] == '='
    ensures UpperEscapes(a + b) == UpperEscapes(a) + UpperEscapes(b)
    decreases |a|
  {
    hide UpperEscapes, Span, UpperHead;
    if a == "" {
      NothingEscapes();
      assert a + b == b;
    } else {
      UpperStep(a);
      UpperStep(a + b);
      HeadCut(a, b);
      UpperCut(a[Span(a)..], b);
      Regroup(UpperHead(a), UpperEscapes(a[Span(a)..]), UpperEscapes(b));
    }
  }

  lemma Regroup(a: string, b: string, c: string)
    ensures a + (b + c) == a + b + c
  {
  }

  lemma HeadCut(a: string, b: string)
    requires a != "" && b != "" && b[0] == '='
    ensures Span(a + b) == Span(a) && UpperHead(a + b) == UpperHead(a)
    ensures (a + b)[Span(a)..] == a[Span(a)..] + b
  {
    hide EscapeAt, UpperChar;
    SameEscape(a, b);
    EscapeIsLong(a);
  }

  lemma NothingEscapes()
    ensures UpperEscapes("") == ""
  {
  }

  /** How many characters upper-casing reads first. */
  function Span(s: string): (n: nat)
    requires s != ""
    ensures 1 <= n <= |s|
  {
    EscapeIsLong(s);
    if EscapeAt(s) then 3 else 1
  }

  /** What upper-casing writes for them. */
  function UpperHead(s: string): string
    requires s != ""
  {
    EscapeIsLong(s);
    if EscapeAt(s) then ['%', UpperChar(s[1]), UpperChar(s[2])] else [s[0]]
  }

  lemma UpperStep(s: string)
    requires s != ""
    ensures UpperEscapes(s) == UpperHead(s) + UpperEscapes(s[Span(s)..])
  {
    hide UpperChar;
    EscapeIsLong(s);
  }

  lemma EscapeIsLong(s: string)
    ensures EscapeAt(s) ==> |s| >= 3
  {
  }

  lemma UpperAfterEquals(b: string)
    ensures UpperEscapes("=" + b) == "=" + UpperEscapes(b)
  {
    assert ("=" + b)[1..] == b && !EscapeAt("=" + b);
  }

  lemma SameEscape(a: string, b: string)
    requires a != "" && b != "" && b[0] == '='
    ensures EscapeAt(a + b) == EscapeAt(a)
  {
    if |a| <= 2 {
      NoEscapeOverEquals(a + b, |a|);
    }
  }

  lemma BareFieldIgnoresCase(field: string)
    requires '=' !in field
    ensures ParseField(UpperEscapes(field)) == ParseField(field)
  {
    var upper := UpperEscapes(field);
    UpperEscapesChars(field);
    UnquoteIgnoresCase(field);
    FindIs(field, {'='}, |field|);
    FindIs(upper, {'='}, |upper|);
    assert field[..|field|] == field && upper[..|upper|] == upper;
  }

  lemma PairFieldIgnoresCase(name: string, value: string)
    requires '=' !in name
    ensures ParseField(UpperEscapes(name + "=" + value)) == ParseField(name + "=" + value)
  {
    hide UpperEscapes, Unquote, ParseField;
    UpperEscapesChars(name);
    UpperPair(name, value);
    UnquoteIgnoresCase(name);
    UnquoteIgnoresCase(value);
    FieldCut(UpperEscapes(name), UpperEscapes(value));
    FieldCut(name, value);
  }

  lemma UpperPair(name: string, value: string)
    ensures UpperEscapes(name + "=" + value) == UpperEscapes(name) + "=" + UpperEscapes(value)
  {
    hide UpperEscapes;
    UpperCut(name, "=" + value);
    UpperAfterEquals(value);
    assert name + "=" + value == name + ("=" + value);
    assert UpperEscapes(name) + ("=" + UpperEscapes(value)) == UpperEscapes(name) + "=" + UpperEscapes(value);
  }

  lemma FieldIgnoresCase(field: string)
    ensures ParseField(UpperEscapes(field)) == ParseField(field)
  {
    var n := Find(field, {'='});
    if n < |field| {
      assert field == field[..n] + "=" + field[n + 1..];
      PairFieldIgnoresCase(field[..n], field[n + 1..]);
    } else {
      BareFieldIgnoresCase(field);
    }
  }

  function Map<A, B>(f: A -> B, s: seq<A>): seq<B> {
    seq(|s|, i requires 0 <= i < |s| => f(s[i]))
  }

  lemma {:induction false} KeptFromFields(fields: seq<string>)
    ensures Kept(ParseFields(fields)) == Map(ParseField, Fields(fields))
  {
    hide ParseField, UpperEscapes, IsTracking, Map;
    if fields == [] {
      NothingMaps(ParseField);
    } else {
      KeptFromFields(fields[1..]);
      FieldIgnoresCase(fields[0]);
      KeptCons(ParseField(fields[0]), ParseFields(fields[1..]));
      MapCons(ParseField, UpperEscapes(fields[0]), Fields(fields[1..]));
      assert [] + ParseFields(fields[1..]) == ParseFields(fields[1..]);
      assert [] + Fields(fields[1..]) == Fields(fields[1..]);
    }
  }

  lemma KeptCons(first: Pair, rest: seq<Pair>)
    ensures Kept([first] + rest) == if IsTracking(first.key) then Kept(rest) else [first] + Kept(rest)
  {
    hide IsTracking;
    assert ([first] + rest)[1..] == rest;
    assert [] + Kept(rest) == Kept(rest);
  }

  lemma MapCons<A, B>(f: A -> B, first: A, rest: seq<A>)
    ensures Map(f, [first] + rest) == [f(first)] + Map(f, rest)
  {
  }

  lemma NothingMaps<A, B>(f: A -> B)
    ensures Map(f, []) == []
  {
  }

  lemma DropAt<A>(s: seq<A>, i: nat)
    requires i < |s|
    ensures multiset(s[..i] + s[i + 1..]) == multiset(s) - multiset{s[i]}
  {
    assert s == s[..i] + [s[i]] + s[i + 1..];
  }

  lemma MapDropAt<A, B>(f: A -> B, s: seq<A>, i: nat)
    requires i < |s|
    ensures multiset(Map(f, s)) == multiset{f(s[i])} + multiset(Map(f, s[..i] + s[i + 1..]))
  {
    DropAt(Map(f, s), i);
    assert Map(f, s)[..i] + Map(f, s)[i + 1..] == Map(f, s[..i] + s[i + 1..]);
    assert Map(f, s)[i] in multiset(Map(f, s));
  }

  lemma {:induction false} MapPermutes<A, B>(f: A -> B, a: seq<A>, b: seq<A>)
    requires multiset(a) == multiset(b)
    ensures multiset(Map(f, a)) == multiset(Map(f, b))
  {
    hide Map;
    if a == [] {
      assert |multiset(b)| == 0;
      assert b == [];
    } else {
      assert a[0] in multiset(b);
      var i :| 0 <= i < |b| && b[i] == a[0];
      var restA, restB := a[..0] + a[1..], b[..i] + b[i + 1..];
      DropAt(a, 0);
      DropAt(b, i);
      MapPermutes(f, restA, restB);
      MapDropAt(f, a, 0);
      MapDropAt(f, b, i);
    }
  }

  /** Query-pair order, tracking parameters, fragments and escape case never make a second key. */
  lemma SpellingsShareOneKey(a: string, b: string)
    requires |Strip(a)| <= MAX_URL_LENGTH && |Strip(b)| <= MAX_URL_LENGTH
    requires ParseUrl(Strip(a)).Some? && ParseUrl(Strip(b)).Some?
    requires SameSpelling(ParseUrl(Strip(a)).value, ParseUrl(Strip(b)).value)
    ensures NormaliseUrl(a) == NormaliseUrl(b)
  {
    hide ParseUrl, UpperEscapes, CleanQuery;
    var u, v := ParseUrl(Strip(a)).value, ParseUrl(Strip(b)).value;
    KeptFromFields(Split(u.query, '&'));
    KeptFromFields(Split(v.query, '&'));
    MapPermutes(ParseField, Fields(Split(u.query, '&')), Fields(Split(v.query, '&')));
    SameKeptSameQuery(u.query, v.query);
    UpperEscapesChars(u.path);
    UpperEscapesChars(v.path);
    assert Normal(u) == Normal(v);
    ParsedIsPlain(Strip(a));
    ParsedIsPlain(Strip(b));
  }

  lemma ParsedIsPlain(text: string)
    requires ParseUrl(text).Some?
    ensures AllPrintable(text) && text != "" && '\r' !in text && '\n' !in text && '\t' !in text
  {
    assert AllPrintable(text);
  }

  lemma FragmentAfterTail(tail: string, more: string)
    requires '#' !in tail && more != "" && more[0] == '#'
    ensures PathOf(tail + more) == PathOf(tail) && QueryOf(tail + more) == QueryOf(tail)
  {
    var p := Find(tail, {'?', '#'});
    FindIs(tail + more, {'?', '#'}, p);
    assert (tail + more)[..p] == tail[..p];
    if p < |tail| {
      var q := tail[p + 1..];
      assert (tail + more)[p + 1..] == q + more;
      FindIs(q, {'#'}, |q|);
      FindIs(q + more, {'#'}, |q|);
      assert (q + more)[..|q|] == q == q[..|q|];
    }
  }

  lemma AfterAuthority(text: string, more: string)
    requires more != "" && more[0] in {'?', '#'}
    requires StartsWith(text[Find(text, {':'})..], "://")
    ensures var n := Find(text, {':'});
      var rest := text[n + 3..];
      var a := Find(rest, {'/', '?', '#'});
      var long := text + more;
      && Find(long, {':'}) == n && long[..n] == text[..n] && StartsWith(long[n..], "://")
      && Find(long[n + 3..], {'/', '?', '#'}) == a
      && long[n + 3..][..a] == rest[..a] && long[n + 3..][a..] == rest[a..] + more
  {
    hide Find;
    var n := Find(text, {':'});
    var rest := text[n + 3..];
    FindInFront(text, more, {':'});
    CutInFront(text, more, n);
    CutInFront(text, more, n + 3);
    FindInFront(rest, more, {'/', '?', '#'});
    CutInFront(rest, more, Find(rest, {'/', '?', '#'}));
  }

  lemma FindInFront(s: string, more: string, stops: set<char>)
    requires Find(s, stops) < |s| || (more != "" && more[0] in stops)
    ensures Find(s + more, stops) == Find(s, stops)
  {
    FindIs(s + more, stops, Find(s, stops));
  }

  lemma CutInFront(s: string, more: string, n: nat)
    requires n <= |s|
    ensures (s + more)[..n] == s[..n] && (s + more)[n..] == s[n..] + more
  {
  }

  lemma FragmentIsPrintable(text: string, fragment: string)
    requires AllPrintable(text) && AllPrintable(fragment)
    ensures AllPrintable(text + ("#" + fragment))
  {
  }

  /** A fragment never reaches the parsed URL. */
  lemma FragmentIsDropped(text: string, fragment: string)
    requires '#' !in text && AllPrintable(fragment) && ParseUrl(text).Some?
    ensures ParseUrl(text + ("#" + fragment)) == ParseUrl(text)
  {
    var more := "#" + fragment;
    var n := Find(text, {':'});
    var rest := text[n + 3..];
    var a := Find(rest, {'/', '?', '#'});
    FragmentIsPrintable(text, fragment);
    AfterAuthority(text, more);
    FragmentAfterTail(rest[a..], more);
    assert ParseTail(Lower(text[..n]), rest[..a], rest[a..] + more)
        == ParseTail(Lower(text[..n]), rest[..a], rest[a..]);
  }

  /** A URL with a fragment has the key of the URL without it. */
  lemma FragmentMakesNoKey(text: string, fragment: string)
    requires Strip(text) == text && '#' !in text && AllPrintable(fragment) && ParseUrl(text).Some?
    requires |text| + 1 + |fragment| <= MAX_URL_LENGTH
    ensures NormaliseUrl(text + ("#" + fragment)) == NormaliseUrl(text)
  {
    hide ParseUrl, NormaliseUrl, AllPrintable, Strip;
    FragmentIsDropped(text, fragment);
    ParsedIsPlain(text);
    FragmentIsPrintable(text, fragment);
    PrintableText(text + ("#" + fragment));
    SameParseSameKey(text + ("#" + fragment), text);
  }

  lemma SameParseSameKey(a: string, b: string)
    requires Strip(a) == a && Strip(b) == b && |a| <= MAX_URL_LENGTH && |b| <= MAX_URL_LENGTH
    requires ParseUrl(a).Some? && ParseUrl(a) == ParseUrl(b)
    ensures NormaliseUrl(a) == NormaliseUrl(b)
  {
    hide ParseUrl, Normal, Show, Strip, AllPrintable;
    ParsedIsPlain(a);
    ParsedIsPlain(b);
  }

  // --- tracking fields, name by name ------------------------------------------------------

  /** The name as `parse_qsl` reads it, in lower case. */
  ghost function NameOf(name: string): string { Lower(Unquote(name)) }

  /** One of the seven prefixes starts the name. */
  ghost predicate HasTrackingPrefix(name: string) {
    || "utm_" <= name || "at_" <= name || "ns_" <= name || "pk_" <= name
    || "mtm_" <= name || "stm_" <= name || "piwik_" <= name
  }

  /** One of the listed names. */
  ghost predicate IsListed(name: string) {
    || name in {"fbclid", "gclid", "dclid", "gbraid", "wbraid", "msclkid", "yclid", "twclid", "ttclid", "igshid"}
    || name in {"mc_cid", "mc_eid", "_ga", "_gl", "cmp", "ref", "ref_src", "ref_url", "referrer", "spm", "source"}
    || name in {"guccounter", "guce_referrer", "guce_referrer_sig", "__twitter_impression", "wt.mc_id", "wtmc"}
  }

  lemma TrackingIff(key: string)
    ensures IsTracking(key) <==> HasTrackingPrefix(Lower(key)) || IsListed(Lower(key))
  {
    var name := Lower(key);
    assert TRACKING_PREFIXES[0] == "utm_" && TRACKING_PREFIXES[1] == "at_" && TRACKING_PREFIXES[2] == "ns_"
        && TRACKING_PREFIXES[3] == "pk_" && TRACKING_PREFIXES[4] == "mtm_" && TRACKING_PREFIXES[5] == "stm_"
        && TRACKING_PREFIXES[6] == "piwik_";
    assert forall i :: 0 <= i < 7 ==> (StartsWith(name, TRACKING_PREFIXES[i]) <==> TRACKING_PREFIXES[i] <= name);
  }

  /** A field of this name, with a value or without. */
  ghost predicate IsFieldOf(field: string, name: string, value: string) {
    && field != "" && '=' !in name
    && (field == name + "=" + value || (field == name && value == ""))
  }

  lemma FieldReads(field: string, name: string, value: string)
    requires IsFieldOf(field, name, value)
    ensures ParseField(field) == Pair(Unquote(name), Unquote(value))
  {
    if field == name {
      FindIs(field, {'='}, |field|);
      assert field[..|field|] == field;
      UnquoteQuote("");
    } else {
      FieldCut(name, value);
    }
  }

  /** A query given by its fields. */
  ghost predicate QueryFields(fields: seq<string>) {
    forall i :: 0 <= i < |fields| ==> AllPrintable(fields[i]) && '&' !in fields[i] && '#' !in fields[i]
  }

  lemma {:induction false} ParseFieldsConcat(a: seq<string>, b: seq<string>)
    ensures ParseFields(a + b) == ParseFields(a) + ParseFields(b)
  {
    hide ParseField;
    if a == [] {
      assert a + b == b;
    } else {
      assert (a + b)[1..] == a[1..] + b;
      ParseFieldsConcat(a[1..], b);
    }
  }

  lemma {:induction false} KeptConcat(a: seq<Pair>, b: seq<Pair>)
    ensures Kept(a + b) == Kept(a) + Kept(b)
  {
    hide IsTracking;
    if a == [] {
      assert a + b == b;
    } else {
      assert (a + b)[1..] == a[1..] + b;
      KeptConcat(a[1..], b);
    }
  }

  lemma ParseQslOf(fields: seq<string>)
    requires QueryFields(fields)
    ensures ParseQsl(Join(fields, '&')) == ParseFields(fields)
  {
    hide ParseField, AllPrintable;
    if fields == [] {
      EmptyQuery();
    } else {
      SplitJoin(fields, '&');
    }
  }

  lemma QueryAfterTail(tail: string, query: string)
    requires '?' !in tail && '#' !in tail && '#' !in query
    ensures PathOf(tail + ("?" + query)) == PathOf(tail) && QueryOf(tail) == ""
    ensures QueryOf(tail + ("?" + query)) == query
  {
    var long := tail + ("?" + query);
    FindIs(tail, {'?', '#'}, |tail|);
    FindIs(long, {'?', '#'}, |tail|);
    assert long[|tail| + 1..] == query && long[..|tail|] == tail == tail[..|tail|];
    FindIs(query, {'#'}, |query|);
  }

  /** A URL without query and fragment, and the same with a query. */
  lemma QueryIsParsed(start: string, query: string)
    requires '?' !in start && '#' !in start && AllPrintable(query) && '#' !in query && ParseUrl(start).Some?
    ensures ParseUrl(start + ("?" + query)) == Some(ParseUrl(start).value.(query := query))
    ensures ParseUrl(start).value.query == "" && AllPrintable(start + ("?" + query))
  {
    hide PathOf, QueryOf, HostPort, PortOf, UserInfo, HostOf, AllPrintable, Lower;
    assert ("?" + query)[1..] == query;
    var n := Find(start, {':'});
    var rest := start[n + 3..];
    var a := Find(rest, {'/', '?', '#'});
    AfterAuthority(start, "?" + query);
    StillPrintable(start, "?" + query);
    assert '?' !in rest[a..] && '#' !in rest[a..];
    QueryAfterTail(rest[a..], query);
    assert ParseUrl(start + ("?" + query)) == ParseTail(Lower(start[..n]), rest[..a], rest[a..] + ("?" + query));
  }

  lemma StillPrintable(text: string, more: string)
    requires ParseUrl(text).Some? && |more| > 0 && more[0] == '?' && AllPrintable(more[1..])
    ensures AllPrintable(text + more)
  {
    assert AllPrintable(text);
    assert forall i :: 1 <= i < |more| ==> more[i] == more[1..][i - 1];
  }

  lemma {:induction false} JoinedFields(fields: seq<string>)
    requires QueryFields(fields)
    ensures AllPrintable(Join(fields, '&')) && '#' !in Join(fields, '&')
  {
    JoinChars(fields, '&');
    forall c | c in Join(fields, '&')
      ensures Printable(c) && c != '#'
    {
      if c != '&' {
        var i :| 0 <= i < |fields| && c in fields[i];
      }
    }
    var q := Join(fields, '&');
    assert forall i :: 0 <= i < |q| ==> q[i] in q;
  }

  /** `start?field&...&field` */
  ghost function WithFields(start: string, fields: seq<string>): string { start + ("?" + Join(fields, '&')) }

  lemma FieldsOfKey(start: string, fields: seq<string>)
    requires '?' !in start && '#' !in start && ParseUrl(start).Some? && QueryFields(fields)
    requires |WithFields(start, fields)| <= MAX_URL_LENGTH
    ensures Strip(WithFields(start, fields)) == WithFields(start, fields)
    ensures ParseUrl(WithFields(start, fields)) == Some(ParseUrl(start).value.(query := Join(fields, '&')))
  {
    hide ParseUrl;
    JoinedFields(fields);
    QueryIsParsed(start, Join(fields, '&'));
    PrintableText(WithFields(start, fields));
  }

  lemma SameKeptSameKey(start: string, a: seq<string>, b: seq<string>)
    requires '?' !in start && '#' !in start && ParseUrl(start).Some? && QueryFields(a) && QueryFields(b)
    requires |WithFields(start, a)| <= MAX_URL_LENGTH && |WithFields(start, b)| <= MAX_URL_LENGTH
    requires Kept(ParseFields(a)) == Kept(ParseFields(b))
    ensures NormaliseUrl(WithFields(start, a)) == NormaliseUrl(WithFields(start, b))
  {
    hide ParseUrl, CleanQuery, WithFields, Join, Kept, ParseFields, FeedHost, Show, UpperPath, AllPrintable;
    FieldsOfKey(start, a);
    FieldsOfKey(start, b);
    ParseQslOf(a);
    ParseQslOf(b);
    SameKeptSameQuery(Join(a, '&'), Join(b, '&'));
    ParsedIsPlain(WithFields(start, a));
    ParsedIsPlain(WithFields(start, b));
  }

  lemma {:induction false} FieldLengthens(before: seq<string>, field: string, after: seq<string>)
    ensures |Join(before + after, '&')| <= |Join(before + [field] + after, '&')|
  {
    var more := before + [field] + after;
    if before == [] {
      assert before + after == after && more == [field] + after;
      JoinCons(field, after, '&');
    } else {
      FieldLengthens(before[1..], field, after);
      assert before + after == [before[0]] + (before[1..] + after);
      assert more == [before[0]] + (before[1..] + [field] + after);
      JoinCons(before[0], before[1..] + after, '&');
      JoinCons(before[0], before[1..] + [field] + after, '&');
    }
  }

  lemma KeptAround(before: seq<string>, field: string, after: seq<string>, name: string, value: string)
    requires IsFieldOf(field, name, value)
    ensures Kept(ParseFields(before + [field] + after)) ==
      Kept(ParseFields(before))
      + (if HasTrackingPrefix(NameOf(name)) || IsListed(NameOf(name)) then []
         else [Pair(Unquote(name), Unquote(value))])
      + Kept(ParseFields(after))
  {
    hide ParseField, IsTracking, Unquote, HasTrackingPrefix, IsListed;
    var p := Pair(Unquote(name), Unquote(value));
    FieldReads(field, name, value);
    TrackingIff(Unquote(name));
    assert ParseFields([field]) == [p] by {
      assert [field][1..] == [];
    }
    ParseFieldsConcat(before + [field], after);
    ParseFieldsConcat(before, [field]);
    KeptConcat(ParseFields(before) + [p], ParseFields(after));
    KeptConcat(ParseFields(before), [p]);
    KeptCons(p, []);
    assert [p] + [] == [p];
  }

  /**
   * A field whose name, as it reads and whatever its letter case, starts with one of the
   * tracking prefixes or is one of the listed names leaves the key as it is without the field.
   */
  lemma TrackingFieldMakesNoKey(
      start: string, before: seq<string>, field: string, after: seq<string>, name: string, value: string)
    requires '?' !in start && '#' !in start && ParseUrl(start).Some? && QueryFields(before + [field] + after)
    requires IsFieldOf(field, name, value)
    requires HasTrackingPrefix(NameOf(name)) || IsListed(NameOf(name))
    requires |WithFields(start, before + [field] + after)| <= MAX_URL_LENGTH
    ensures NormaliseUrl(WithFields(start, before + [field] + after)) == NormaliseUrl(WithFields(start, before + after))
    ensures before + after == [] ==> NormaliseUrl(WithFields(start, before + after)) == NormaliseUrl(start)
  {
    hide ParseUrl, NormaliseUrl, IsFieldOf, HasTrackingPrefix, IsListed, Kept, Join, ParseFields, AllPrintable;
    var more := before + [field] + after;
    FieldLengthens(before, field, after);
    KeptAround(before, field, after, name, value);
    ParseFieldsConcat(before, after);
    KeptConcat(ParseFields(before), ParseFields(after));
    FieldsBut(before, field, after);
    SameKeptSameKey(start, more, before + after);
    if before + after == [] {
      EmptyQueryMakesNoKey(start);
    }
  }

  lemma FieldsBut(before: seq<string>, field: string, after: seq<string>)
    requires QueryFields(before + [field] + after)
    ensures QueryFields(before + after)
  {
    var more := before + [field] + after;
    forall i | 0 <= i < |before + after|
      ensures (before + after)[i] == more[if i < |before| then i else i + 1]
    {
    }
  }

  lemma EmptyQueryMakesNoKey(start: string)
    requires '?' !in start && '#' !in start && ParseUrl(start).Some? && |start| < MAX_URL_LENGTH
    ensures NormaliseUrl(WithFields(start, [])) == NormaliseUrl(start)
  {
    hide ParseUrl, Normal;
    FieldsOfKey(start, []);
    QueryIsParsed(start, "");
    ParsedIsPlain(start);
    PrintableText(start);
    ParsedIsPlain(WithFields(start, []));
  }

  /** Any other field is in the key, under its name and with its value as they read. */
  lemma OtherFieldsAreKept(
      start: string, before: seq<string>, field: string, after: seq<string>, name: string, value: string)
    requires '?' !in start && '#' !in start && ParseUrl(start).Some? && QueryFields(before + [field] + after)
    requires IsFieldOf(field, name, value)
    requires !HasTrackingPrefix(NameOf(name)) && !IsListed(NameOf(name))
    requires NormaliseUrl(WithFields(start, before + [field] + after)).Some?
    ensures var key := NormaliseUrl(WithFields(start, before + [field] + after)).value;
      ParseUrl(key).Some? && Pair(Unquote(name), Unquote(value)) in ParseQsl(ParseUrl(key).value.query)
  {
    hide ParseUrl, IsFieldOf, HasTrackingPrefix, IsListed, Kept, Sort, ParseFields, Unquote, ParseQsl, AllPrintable;
    var more := before + [field] + after;
    var text := WithFields(start, more);
    JoinedFields(more);
    QueryIsParsed(start, Join(more, '&'));
    PrintableText(text);
    KeyNamesNormal(text);
    KeptAround(before, field, after, name, value);
    ParseQslOf(more);
    CleanQueryReadsBack(Join(more, '&'));
    SortSorts(Kept(ParseFields(more)));
    var p := Pair(Unquote(name), Unquote(value));
    assert p in Kept(ParseFields(more));
    assert p in multiset(Sort(Kept(ParseFields(more))));
  }

  // --- scheme, credentials, host, port and path ---------------------------------------------

  lemma AssembledNormalises(scheme: string, user: Option<string>, host: string, port: Option<nat>, tail: string)
    requires Lower(scheme) in {"http", "https"} && PlainHost(host) && PlainTail(tail)
    requires user.Some? ==> PlainUser(user.value)
    ensures var text := Assembled(scheme, user, host, port, tail);
      && ParseUrl(text).Some? && Strip(text) == text
      && NormaliseUrl(text) ==
           if |text| > 2048 || Normal(ParseUrl(text).value).None? then None
           else if |Show(Normal(ParseUrl(text).value).value)| > 2048 then None
           else Some(Show(Normal(ParseUrl(text).value).value))
  {
    hide Lower, AllPrintable, PlainHost, PlainUser, PlainTail, Assembled, ParseUrl, Normal, Show;
    var text := Assembled(scheme, user, host, port, tail);
    AssembledParses(scheme, user, host, port, tail);
    PrintableText(text);
    ParsedIsPlain(text);
  }

  /** A link that carries credentials is refused. */
  lemma CredentialsAreRefused(scheme: string, user: string, host: string, port: Option<nat>, tail: string)
    requires Lower(scheme) in {"http", "https"} && PlainHost(host) && PlainTail(tail)
    requires user != "" && PlainUser(user)
    ensures NormaliseUrl(Assembled(scheme, Some(user), host, port, tail)) == None
  {
    hide Lower, PlainHost, PlainUser, PlainTail, Assembled, ParseUrl, FeedHost, NormaliseUrl;
    AssembledParses(scheme, Some(user), host, port, tail);
    AssembledNormalises(scheme, Some(user), host, port, tail);
  }

  /** The host the URL names: no dots at its end, in lower case. */
  function NamedHost(host: string): string { Lower(StripTrailing(host, '.')) }

  lemma HostIsNamed(host: string)
    requires PlainHost(host)
    ensures FeedHost(Lower(host)) ==
      if '.' in NamedHost(host) && NumericIpv4(NamedHost(host)).None? then Some(NamedHost(host)) else None
  {
    hide NumericIpv4;
    LowerStrips(host);
    var named := NamedHost(host);
    LowerIdempotent(StripTrailing(host, '.'));
    forall i | 0 <= i < |named|
      ensures named[i] != ':'
    {
      assert named[i] == LowerChar(host[i]);
    }
  }

  lemma {:induction false} LowerStrips(host: string)
    ensures StripTrailing(Lower(host), '.') == Lower(StripTrailing(host, '.'))
  {
    if host != "" && host[|host| - 1] == '.' {
      assert Lower(host)[..|host| - 1] == Lower(host[..|host| - 1]);
      LowerStrips(host[..|host| - 1]);
    }
  }

  /**
   * The key keeps scheme and host in lower case without trailing dots, any port but the
   * scheme's own, and the path, `/` for none, with nothing but its escapes changed.
   */
  lemma KeyKeepsParts(scheme: string, host: string, port: Option<nat>, tail: string)
    requires Lower(scheme) in {"http", "https"} && PlainHost(host) && PlainTail(tail)
    requires NormaliseUrl(Assembled(scheme, None, host, port, tail)).Some?
    ensures ParseUrl(NormaliseUrl(Assembled(scheme, None, host, port, tail)).value).Some?
    ensures var v := ParseUrl(NormaliseUrl(Assembled(scheme, None, host, port, tail)).value).value;
      && v.scheme == Lower(scheme) && v.userinfo == "" && v.host == NamedHost(host)
      && v.port == (if port == Some(if Lower(scheme) == "http" then 80 else 443) then None else port)
      && (PathOf(tail) == "" ==> v.path == "/")
      && (PathOf(tail) != "" ==> |v.path| == |PathOf(tail)|)
      && forall i :: 0 <= i < |PathOf(tail)| ==>
           v.path[i] == if InEscape(PathOf(tail), i) then UpperChar(PathOf(tail)[i]) else PathOf(tail)[i]
  {
    hide Lower, PlainHost, PlainTail, Assembled, ParseUrl, FeedHost, NormaliseUrl, PathOf, UpperEscapes, InEscape;
    var text := Assembled(scheme, None, host, port, tail);
    AssembledParses(scheme, None, host, port, tail);
    AssembledNormalises(scheme, None, host, port, tail);
    KeyNamesNormal(text);
    HostIsNamed(host);
    forall i | 0 <= i < |PathOf(tail)|
      ensures UpperEscapes(PathOf(tail))[i] ==
        if InEscape(PathOf(tail), i) then UpperChar(PathOf(tail)[i]) else PathOf(tail)[i]
    {
      UpperEscapesAt(PathOf(tail), i);
    }
  }

  /** Without a query, a link is taken exactly when its host has a dot and is no numeric IPv4 form. */
  lemma TakenIff(scheme: string, host: string, port: Option<nat>, tail: string)
    requires Lower(scheme) in {"http", "https"} && PlainHost(host) && PlainTail(tail) && '?' !in tail
    requires |Assembled(scheme, None, host, port, tail)| < 2048
    ensures NormaliseUrl(Assembled(scheme, None, host, port, tail)).Some? <==>
      '.' in NamedHost(host) && NumericIpv4(NamedHost(host)).None?
  {
    hide Lower, PlainHost, PlainTail, Assembled, ParseUrl, FeedHost, NormaliseUrl, PathOf, QueryOf, UpperEscapes;
    hide NumericIpv4, NamedHost, StripTrailing, Show, CleanQuery;
    AssembledParses(scheme, None, host, port, tail);
    AssembledNormalises(scheme, None, host, port, tail);
    HostIsNamed(host);
    NoQueryIn(tail);
    EmptyIsClean();
    if '.' in NamedHost(host) && NumericIpv4(NamedHost(host)).None? {
      NamedIsNoLonger(host);
      ShownLength(scheme, host, port, tail);
    }
  }

  lemma EmptyIsClean()
    ensures CleanQuery("") == ""
  {
  }

  lemma NoQueryIn(tail: string)
    requires '?' !in tail
    ensures QueryOf(tail) == "" && |PathOf(tail)| <= |tail|
  {
  }

  lemma NamedIsNoLonger(host: string)
    ensures |NamedHost(host)| <= |host|
  {
  }

  lemma ShownLength(scheme: string, host: string, port: Option<nat>, tail: string)
    requires |NamedHost(host)| <= |host| && |PathOf(tail)| <= |tail|
    ensures var kept := if port == Some(if Lower(scheme) == "http" then 80 else 443) then None else port;
      |Show(Url(Lower(scheme), "", NamedHost(host), kept, UpperPath(PathOf(tail)), ""))| <=
        |Assembled(scheme, None, host, port, tail)| + 1
  {
    hide NamedHost, PathOf, Decimal;
  }

  /**
   * Letter case of scheme and host, dots after the host, the scheme's own port spelled out,
   * and an empty path in place of `/` never make a second key.
   */
  lemma PlainSpellingsShareOneKey(scheme: string, host: string, dots: string, port: Option<nat>, tail: string)
    requires Lower(scheme) in {"http", "https"} && PlainHost(host) && PlainTail(tail)
    requires host != "" && host[|host| - 1] != '.' && forall i :: 0 <= i < |dots| ==> dots[i] == '.'
    requires port.None? || port == Some(if Lower(scheme) == "http" then 80 else 443)
    requires |Assembled(scheme, None, host + dots, port, tail)| < 2048
    ensures NormaliseUrl(Assembled(scheme, None, host + dots, port, tail)) ==
      NormaliseUrl(Assembled(Lower(scheme), None, Lower(host), None, if PathOf(tail) == "" then "/" + tail else tail))
  {
    hide ParseUrl, NormaliseUrl, Show, Normal, Assembled, PlainHost, PlainTail, PathOf, QueryOf, StripTrailing, Lower;
    var path := if PathOf(tail) == "" then "/" + tail else tail;
    DotsGo(host, dots);
    if PathOf(tail) == "" {
      RootTail(tail);
    }
    LowerIdempotent(scheme);
    LowerIsPlain(host);
    AssembledNormalises(scheme, None, host + dots, port, tail);
    AssembledNormalises(Lower(scheme), None, Lower(host), None, path);
    AssembledParses(scheme, None, host + dots, port, tail);
    AssembledParses(Lower(scheme), None, Lower(host), None, path);
    SameLengths(scheme, host, dots, port, tail, path);
    HostIsNamed(host + dots);
    HostIsNamed(Lower(host));
    SameNormal(Lower(scheme), Lower(host + dots), Lower(host), PathOf(tail), QueryOf(tail));
  }

  lemma SameLengths(scheme: string, host: string, dots: string, port: Option<nat>, tail: string, path: string)
    requires |path| <= |tail| + 1
    ensures |Assembled(Lower(scheme), None, Lower(host), None, path)| <=
      |Assembled(scheme, None, host + dots, port, tail)| + 1
  {
    hide Decimal;
  }

  lemma SameNormal(scheme: string, dotted: string, host: string, path: string, query: string)
    requires FeedHost(dotted) == FeedHost(host)
    ensures Normal(Url(scheme, "", dotted, None, path, query)) ==
      Normal(Url(scheme, "", host, None, if path == "" then "/" else path, query))
  {
    hide FeedHost, UpperEscapes, CleanQuery;
    SlashIsUpper();
  }

  lemma RootTail(tail: string)
    requires PlainTail(tail) && PathOf(tail) == ""
    ensures PlainTail("/" + tail) && PathOf("/" + tail) == "/" && QueryOf("/" + tail) == QueryOf(tail)
  {
    FindIs("/" + tail, {'?', '#'}, 1);
    assert ("/" + tail)[1..] == tail;
    if tail != "" && tail[0] == '?' {
      assert ("/" + tail)[2..] == tail[1..];
    }
  }

  lemma {:induction false} DotsGo(host: string, dots: string)
    requires host != "" && host[|host| - 1] != '.' && forall i :: 0 <= i < |dots| ==> dots[i] == '.'
    requires PlainHost(host)
    ensures PlainHost(host + dots) && StripTrailing(host + dots, '.') == host && StripTrailing(host, '.') == host
    ensures StripTrailing(Lower(host), '.') == Lower(host)
  {
    LowerStrips(host);
    if dots == "" {
      assert host + dots == host;
    } else {
      assert (host + dots)[..|host + dots| - 1] == host + dots[..|dots| - 1];
      DotsGo(host, dots[..|dots| - 1]);
    }
  }

  lemma LowerIsPlain(host: string)
    requires PlainHost(host)
    ensures PlainHost(Lower(host)) && Lower(Lower(host)) == Lower(host)
  {
  }
}
