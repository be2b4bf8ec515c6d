/** Canonical item URLs: the instance-wide dedup key. */
module Normalise {
  import opened Text
  import opened Numerals
  import opened Ipv4
  import opened QueryString

  const MAX_URL_LENGTH := 2048

  const TRACKING_PREFIXES := ["utm_", "at_", "ns_", "pk_", "mtm_", "stm_", "piwik_"]

  const TRACKING := {
    "fbclid", "gclid", "dclid", "gbraid", "wbraid", "msclkid", "yclid", "twclid", "ttclid", "igshid",
    "mc_cid", "mc_eid", "_ga", "_gl", "cmp", "ref", "ref_src", "ref_url", "referrer", "spm", "source",
    "guccounter", "guce_referrer", "guce_referrer_sig", "__twitter_impression", "wt.mc_id", "wtmc"}

  predicate IsTracking(key: string) {
    || Lower(key) in TRACKING
    || exists i :: 0 <= i < |TRACKING_PREFIXES| && StartsWith(Lower(key), TRACKING_PREFIXES[i])
  }

  // --- queries --------------------------------------------------------------------

  function Kept(pairs: seq<Pair>): seq<Pair> {
    if pairs == [] then [] else
      (if IsTracking(pairs[0].key) then [] else [pairs[0]]) + Kept(pairs[1..])
  }

  function CleanQuery(query: string): string {
    if query == "" then "" else
      var pairs := Kept(ParseQsl(query));
      if pairs == [] then "" else UrlEncode(Sort(pairs))
  }

  lemma {:induction false} KeptHolds(pairs: seq<Pair>)
    ensures forall i :: 0 <= i < |Kept(pairs)| ==> !IsTracking(Kept(pairs)[i].key)
  {
    if pairs != [] {
      KeptHolds(pairs[1..]);
    }
  }

  lemma {:induction false} KeptAll(pairs: seq<Pair>)
    requires forall i :: 0 <= i < |pairs| ==> !IsTracking(pairs[i].key)
    ensures Kept(pairs) == pairs
  {
    if pairs != [] {
      KeptAll(pairs[1..]);
      assert pairs == [pairs[0]] + pairs[1..];
    }
  }

  lemma SortedKept(pairs: seq<Pair>)
    ensures Sorted(Sort(Kept(pairs))) && Kept(Sort(Kept(pairs))) == Sort(Kept(pairs))
  {
    var kept := Kept(pairs);
    SortSorts(kept);
    KeptHolds(pairs);
    forall i | 0 <= i < |Sort(kept)|
      ensures !IsTracking(Sort(kept)[i].key)
    {
      assert Sort(kept)[i] in multiset(Sort(kept));
      assert Sort(kept)[i] in kept;
    }
    KeptAll(Sort(kept));
  }

  lemma EmptyQuery()
    ensures ParseQsl("") == []
  {
    assert Split("", '&') == [""];
    assert [""][1..] == [];
  }

  /** A cleaned query reads back as the kept pairs in order. */
  lemma CleanQueryReadsBack(query: string)
    ensures ParseQsl(CleanQuery(query)) == Sort(Kept(ParseQsl(query)))
  {
    EmptyQuery();
    var kept := Kept(ParseQsl(query));
    SortSorts(kept);
    if kept == [] {
      assert |multiset(Sort(kept))| == |Sort(kept)|;
    } else {
      ParseEncode(Sort(kept));
    }
  }

  lemma CleanQueryIdempotent(query: string)
    ensures CleanQuery(CleanQuery(query)) == CleanQuery(query)
  {
    CleanQueryReadsBack(query);
    SortedKept(ParseQsl(query));
    SortOfSorted(Sort(Kept(ParseQsl(query))));
    SortSorts(Kept(ParseQsl(query)));
  }

  lemma CleanQueryChars(query: string)
    ensures forall c :: c in CleanQuery(query) ==> Printable(c) && c != '#'
  {
    hide ParseQsl, Kept, Sort, UrlEncode;
    UrlEncodeChars(Sort(Kept(ParseQsl(query))));
  }

  // --- paths ----------------------------------------------------------------------

  /** Percent escapes in upper case, everything else as it is. */
  function UpperEscapes(s: string): (r: string)
    ensures |r| == |s|
  {
    if s == "" then ""
    else if EscapeAt(s) then ['%', UpperChar(s[1]), UpperChar(s[2])] + UpperEscapes(s[3..])
    else [s[0]] + UpperEscapes(s[1..])
  }

  lemma UpperEscapesChars(s: string)
    ensures forall i :: 0 <= i < |s| ==> UpperEscapes(s)[i] == s[i] || UpperEscapes(s)[i] == UpperChar(s[i])
  {
  }

  /** Whether the character is a hex digit of an escape. */
  predicate InEscape(s: string, i: nat)
    requires i < |s|
  {
    (i >= 1 && EscapeAt(s[i - 1..])) || (i >= 2 && EscapeAt(s[i - 2..]))
  }

  lemma EscapeMarks(s: string)
    requires EscapeAt(s)
    ensures |s| >= 3 && s[0] == '%' && s[1] != '%' && s[2] != '%'
  {
  }

  /** Exactly the hex digits of escapes are put in upper case. */
  lemma {:induction false} UpperEscapesAt(s: string, i: nat)
    requires i < |s|
    ensures UpperEscapes(s)[i] == if InEscape(s, i) then UpperChar(s[i]) else s[i]
    decreases |s|
  {
    hide HexValue;
    var n := if EscapeAt(s) then 3 else 1;
    assert s[0..] == s;
    if EscapeAt(s) {
      EscapeMarks(s);
      assert s[1..][0] == s[1] && s[2..][0] == s[2];
    }
    if i >= n {
      var rest := s[n..];
      UpperEscapesAt(rest, i - n);
      assert rest[i - n] == s[i];
      assert i - 1 >= n ==> rest[i - n - 1..] == s[i - 1..];
      assert i - 2 >= n ==> rest[i - n - 2..] == s[i - 2..];
    }
  }

  lemma {:induction false} UpperEscapesIdempotent(s: string)
    ensures UpperEscapes(UpperEscapes(s)) == UpperEscapes(s)
    decreases |s|
  {
    if s == "" {
    } else if EscapeAt(s) {
      var r := UpperEscapes(s);
      assert r[3..] == UpperEscapes(s[3..]) && EscapeAt(r);
      UpperEscapesIdempotent(s[3..]);
    } else {
      var r := UpperEscapes(s);
      assert r[1..] == UpperEscapes(s[1..]);
      NoNewEscape(s);
      UpperEscapesIdempotent(s[1..]);
    }
  }

  lemma NoNewEscape(s: string)
    requires s != "" && !EscapeAt(s)
    ensures !EscapeAt(UpperEscapes(s))
  {
    var r := UpperEscapes(s);
    UpperEscapesChars(s);
    if |s| >= 3 {
      assert HexValue(UpperChar(s[1])).Some? ==> HexValue(s[1]).Some?;
      assert HexValue(UpperChar(s[2])).Some? ==> HexValue(s[2]).Some?;
    }
  }

  // --- parsing and printing URLs --------------------------------------------------

  datatype Url = Url(scheme: string, userinfo: string, host: string, port: Option<int>, path: string, query: string)

  /** What is left in a URL once the library has quoted it: printable ASCII, no blanks. */
  predicate Printable(c: char) { '!' <= c <= '~' }

  predicate AllPrintable(s: string) { forall i :: 0 <= i < |s| ==> Printable(s[i]) }

  function DefaultPort(scheme: string): int { if scheme == "http" then 80 else 443 }

  /** Position after the last `c`, or 0 when there is none. */
  function AfterLast(s: string, c: char): (n: nat)
    ensures n <= |s|
    ensures c !in s ==> n == 0
    ensures c !in s[n..]
  {
    if s == "" then 0
    else if s[|s| - 1] == c then |s|
    else AfterLast(s[..|s| - 1], c)
  }

  function ParsePort(text: string, scheme: string): Option<Option<int>> {
    if text == "" then Some(None) else
      match PyInt(text, 10)
      case None => None
      case Some(p) => Some(if p == DefaultPort(scheme) then None else Some(p))
  }

  /** `scheme://[userinfo@]host[:port][path][?query][#fragment]`; the fragment is dropped. */
  function ParseUrl(text: string): Option<Url> {
    var n := Find(text, {':'});
    var scheme := Lower(text[..n]);
    if !AllPrintable(text) || scheme !in {"http", "https"} || !StartsWith(text[n..], "://") then None else
      var rest := text[n + 3..];
      var a := Find(rest, {'/', '?', '#'});
      ParseTail(scheme, rest[..a], rest[a..])
  }

  function HostPort(authority: string): string { authority[AfterLast(authority, '@')..] }

  function UserInfo(authority: string): string {
    var at := AfterLast(authority, '@');
    if at == 0 then "" else authority[..at - 1]
  }

  function HostOf(hostPort: string): string { Lower(hostPort[..Find(hostPort, {':'})]) }

  function PortOf(hostPort: string, scheme: string): Option<Option<int>> {
    var h := Find(hostPort, {':'});
    ParsePort(if h < |hostPort| then hostPort[h + 1..] else "", scheme)
  }

  function PathOf(tail: string): string { tail[..Find(tail, {'?', '#'})] }

  function QueryOf(tail: string): string {
    var p := Find(tail, {'?', '#'});
    if p < |tail| && tail[p] == '?' then tail[p + 1..][..Find(tail[p + 1..], {'#'})] else ""
  }

  function ParseTail(scheme: string, authority: string, tail: string): Option<Url> {
    var hostPort := HostPort(authority);
    var port := PortOf(hostPort, scheme);
    if '[' in hostPort || port.None? then None else  // a bracketed host is an IPv6 literal
      Some(Url(scheme, UserInfo(authority), HostOf(hostPort), port.value, PathOf(tail), QueryOf(tail)))
  }

  function PortText(port: Option<int>): string {
    match port case None => "" case Some(p) => ":" + Decimal(p)
  }

  function QueryText(query: string): string { if query == "" then "" else "?" + query }

  function Show(u: Url): string {
    u.scheme + "://" + (u.host + PortText(u.port)) + (u.path + QueryText(u.query))
  }

  predicate HostText(host: string) {
    && host != "" && Lower(host) == host && AllPrintable(host)
    && forall i :: 0 <= i < |host| ==> host[i] !in {':', '/', '?', '#', '@', '['}
  }

  /** URLs whose printed form reads back as themselves. */
  predicate WellFormed(u: Url) {
    && u.scheme in {"http", "https"} && u.userinfo == ""
    && HostText(u.host)
    && u.port != Some(DefaultPort(u.scheme))
    && AllPrintable(u.path) && (u.path != "" ==> u.path[0] == '/') && '?' !in u.path && '#' !in u.path
    && AllPrintable(u.query) && '#' !in u.query
  }

  lemma PortReadsBack(p: int, scheme: string)
    requires p != DefaultPort(scheme)
    ensures ParsePort(Decimal(p), scheme) == Some(Some(p))
  {
    DecimalText(p);
    DecimalReadsBack(p);
  }

  lemma HostReadsBack(host: string, after: string)
    requires HostText(host) && (after != "" ==> after[0] == ':')
    ensures Find(host + after, {':'}) == |host| && HostOf(host + after) == host
  {
    FindAfter(host, after, {':'});
  }

  lemma HostPortReadsBack(host: string, port: Option<int>, scheme: string)
    requires HostText(host) && port != Some(DefaultPort(scheme))
    ensures HostOf(host + PortText(port)) == host
    ensures PortOf(host + PortText(port), scheme) == Some(port)
  {
    hide Decimal, Lower, AllPrintable, HostOf, PyInt;
    var hostPort := host + PortText(port);
    HostReadsBack(host, PortText(port));
    if port.Some? {
      PortReadsBack(port.value, scheme);
      assert hostPort[|host| + 1..] == Decimal(port.value);
    }
  }

  lemma NotBracketed(host: string, port: Option<int>)
    requires HostText(host)
    ensures '[' !in host + PortText(port)
  {
    PortTextChars(port);
  }

  lemma NoUserInfo(authority: string)
    requires '@' !in authority
    ensures HostPort(authority) == authority && UserInfo(authority) == ""
  {
    assert authority[0..] == authority;
  }

  lemma TailReadsBack(path: string, query: string)
    requires '?' !in path && '#' !in path && '#' !in query
    ensures PathOf(path + QueryText(query)) == path && QueryOf(path + QueryText(query)) == query
  {
    var tail := path + QueryText(query);
    FindAfter(path, QueryText(query), {'?', '#'});
    if query != "" {
      assert tail[|path| + 1..] == query;
      FindIs(query, {'#'}, |query|);
    }
  }

  lemma PortTextChars(port: Option<int>)
    ensures forall i :: 0 <= i < |PortText(port)| ==>
      Printable(PortText(port)[i]) && PortText(port)[i] !in {'/', '?', '#', '@', '['}
  {
    if port.Some? {
      DecimalText(port.value);
      var d := Decimal(port.value);
      assert forall i :: 0 <= i < |d| ==> d[i] in d;
    }
  }

  lemma SchemeCut(scheme: string, rest: string)
    requires Lower(scheme) in {"http", "https"}
    ensures var text := scheme + "://" + rest;
      Find(text, {':'}) == |scheme| && text[..|scheme|] == scheme
      && StartsWith(text[|scheme|..], "://") && text[|scheme| + 3..] == rest
      && (AllPrintable(rest) ==> AllPrintable(text))
  {
    hide Lower;
    var text := scheme + "://" + rest;
    SchemeLetters(scheme);
    assert text == scheme + ("://" + rest);
    FindAfter(scheme, "://" + rest, {':'});
    assert text[|scheme|..][..3] == "://";
  }

  lemma SchemeLetters(scheme: string)
    requires Lower(scheme) in {"http", "https"}
    ensures forall c :: c in scheme ==> Printable(c) && c != ':'
  {
    forall i | 0 <= i < |scheme|
      ensures Printable(scheme[i]) && scheme[i] != ':'
    {
      assert LowerChar(scheme[i]) == Lower(scheme)[i];
    }
  }

  lemma ParseCut(scheme: string, authority: string, tail: string)
    requires Lower(scheme) in {"http", "https"} && AllPrintable(authority) && AllPrintable(tail)
    requires forall i :: 0 <= i < |authority| ==> authority[i] !in {'/', '?', '#'}
    requires tail != "" ==> tail[0] in {'/', '?', '#'}
    ensures ParseUrl(scheme + "://" + (authority + tail)) == ParseTail(Lower(scheme), authority, tail)
    ensures AllPrintable(scheme + "://" + (authority + tail))
  {
    hide Lower, ParseTail;
    var rest := authority + tail;
    FindAfter(authority, tail, {'/', '?', '#'});
    assert AllPrintable(rest);
    SchemeCut(scheme, rest);
  }

  /** Printing a well-formed URL and parsing it again gives it back. */
  lemma ParseShow(u: Url)
    requires WellFormed(u)
    ensures ParseUrl(Show(u)) == Some(u)
    ensures AllPrintable(Show(u))
  {
    hide Decimal, Find;
    var authority, tail := u.host + PortText(u.port), u.path + QueryText(u.query);
    assert Lower(u.scheme) == u.scheme;
    assert Show(u) == u.scheme + "://" + (authority + tail);
    PortTextChars(u.port);
    ParseCut(u.scheme, authority, tail);
    NoUserInfo(authority);
    HostPortReadsBack(u.host, u.port, u.scheme);
    NotBracketed(u.host, u.port);
    TailReadsBack(u.path, u.query);
  }

  // --- URLs put together from their parts -------------------------------------------

  /** A host as it may be written: letter case is free. */
  predicate PlainHost(host: string) {
    AllPrintable(host) && forall i :: 0 <= i < |host| ==> host[i] !in {':', '/', '?', '#', '@', '['}
  }

  /** Credentials as they may be written. */
  predicate PlainUser(user: string) {
    AllPrintable(user) && forall i :: 0 <= i < |user| ==> user[i] !in {'/', '?', '#'}
  }

  predicate PlainTail(tail: string) { AllPrintable(tail) && (tail != "" ==> tail[0] in {'/', '?', '#'}) }

  function UserText(user: Option<string>): string { match user case None => "" case Some(u) => u + "@" }

  function Assembled(scheme: string, user: Option<string>, host: string, port: Option<nat>, tail: string): string {
    scheme + "://" + (UserText(user) + (host + PortText(port)) + tail)
  }

  lemma {:induction false} AfterLastIs(before: string, c: char, after: string)
    requires c !in after
    ensures AfterLast(before + [c] + after, c) == |before| + 1
  {
    var s := before + [c] + after;
    if after == "" {
      assert s == before + [c];
    } else {
      assert after[|after| - 1] in after;
      assert s[..|s| - 1] == before + [c] + after[..|after| - 1];
      AfterLastIs(before, c, after[..|after| - 1]);
    }
  }

  lemma UserReadsBack(user: Option<string>, hostPort: string)
    requires '@' !in hostPort
    ensures HostPort(UserText(user) + hostPort) == hostPort
    ensures UserInfo(UserText(user) + hostPort) == if user.Some? then user.value else ""
  {
    hide AfterLast;
    var authority := UserText(user) + hostPort;
    if user.Some? {
      assert authority == user.value + ['@'] + hostPort;
      AfterLastIs(user.value, '@', hostPort);
    } else {
      assert authority == hostPort;
      NoUserInfo(hostPort);
    }
  }

  lemma PortIsRead(host: string, port: Option<nat>, scheme: string)
    requires PlainHost(host)
    ensures HostOf(host + PortText(port)) == Lower(host)
    ensures PortOf(host + PortText(port), scheme) == Some(if port == Some(DefaultPort(scheme)) then None else port)
  {
    hide Lower, Decimal, PyInt, AllPrintable;
    var hostPort := host + PortText(port);
    FindAfter(host, PortText(port), {':'});
    if port.Some? {
      DecimalText(port.value);
      DecimalReadsBack(port.value);
      assert hostPort[|host| + 1..] == Decimal(port.value);
    }
  }

  lemma AuthorityChars(user: Option<string>, host: string, port: Option<nat>)
    requires (user.Some? ==> PlainUser(user.value)) && PlainHost(host)
    ensures var hostPort := host + PortText(port); var authority := UserText(user) + hostPort;
      && AllPrintable(authority) && (forall i :: 0 <= i < |authority| ==> authority[i] !in {'/', '?', '#'})
      && '@' !in hostPort && '[' !in hostPort
  {
    PortTextChars(port);
  }

  /**
   * What is read off a URL written out from its parts: scheme and host in lower case, the port
   * unless it is 80 for http or 443 for https, and the credentials, the path and the query as written.
   */
  lemma AssembledParses(scheme: string, user: Option<string>, host: string, port: Option<nat>, tail: string)
    requires Lower(scheme) in {"http", "https"} && PlainHost(host) && PlainTail(tail)
    requires user.Some? ==> PlainUser(user.value)
    ensures ParseUrl(Assembled(scheme, user, host, port, tail)) ==
      Some(Url(
        Lower(scheme), if user.Some? then user.value else "", Lower(host),
        if port == Some(if Lower(scheme) == "http" then 80 else 443) then None else port, PathOf(tail), QueryOf(tail)))
    ensures AllPrintable(Assembled(scheme, user, host, port, tail))
  {
    hide Lower, AllPrintable, PlainHost, PlainUser, PortText, UserText;
    hide PathOf, QueryOf, HostPort, UserInfo, HostOf, PortOf;
    AuthorityChars(user, host, port);
    ParseCut(scheme, UserText(user) + (host + PortText(port)), tail);
    UserReadsBack(user, host + PortText(port));
    PortIsRead(host, port, Lower(scheme));
  }

  lemma HostOfText(hostPort: string)
    requires AllPrintable(hostPort) && '[' !in hostPort
    requires forall i :: 0 <= i < |hostPort| ==> hostPort[i] !in {'/', '?', '#', '@'}
    ensures HostOf(hostPort) == "" || HostText(HostOf(hostPort))
  {
    var host := hostPort[..Find(hostPort, {':'})];
    LowerIdempotent(host);
    assert forall i :: 0 <= i < |host| ==> host[i] == hostPort[i] && hostPort[i] in hostPort;
  }

  lemma HostPortChars(authority: string)
    requires AllPrintable(authority)
    requires forall i :: 0 <= i < |authority| ==> authority[i] !in {'/', '?', '#'}
    ensures AllPrintable(HostPort(authority))
    ensures forall i :: 0 <= i < |HostPort(authority)| ==> HostPort(authority)[i] !in {'/', '?', '#', '@'}
  {
    var at := AfterLast(authority, '@');
    var hostPort := authority[at..];
    assert forall i :: 0 <= i < |hostPort| ==> hostPort[i] == authority[at + i] && hostPort[i] in hostPort;
  }

  lemma PathOfText(tail: string)
    requires AllPrintable(tail) && (tail != "" ==> tail[0] in {'/', '?', '#'})
    ensures var path := PathOf(tail);
      AllPrintable(path) && (path != "" ==> path[0] == '/') && '?' !in path && '#' !in path
  {
  }

  predicate ParsedWell(u: Url) {
    && u.scheme in {"http", "https"} && u.port != Some(DefaultPort(u.scheme))
    && (u.host == "" || HostText(u.host))
    && AllPrintable(u.path) && (u.path != "" ==> u.path[0] == '/') && '?' !in u.path && '#' !in u.path
  }

  lemma ParsedTail(scheme: string, authority: string, tail: string)
    requires scheme in {"http", "https"} && AllPrintable(authority) && AllPrintable(tail)
    requires forall i :: 0 <= i < |authority| ==> authority[i] !in {'/', '?', '#'}
    requires tail != "" ==> tail[0] in {'/', '?', '#'}
    ensures ParseTail(scheme, authority, tail).Some? ==> ParsedWell(ParseTail(scheme, authority, tail).value)
  {
    hide HostPort, UserInfo, QueryOf, PathOf, HostText, AllPrintable;
    HostPortChars(authority);
    if ParseTail(scheme, authority, tail).Some? {
      HostOfText(HostPort(authority));
      PathOfText(tail);
    }
  }

  /** What the parser guarantees about the parts it cuts out. */
  lemma ParsedParts(text: string)
    ensures ParseUrl(text).Some? ==> ParsedWell(ParseUrl(text).value)
  {
    if ParseUrl(text).Some? {
      var n := Find(text, {':'});
      var rest := text[n + 3..];
      var a := Find(rest, {'/', '?', '#'});
      assert AllPrintable(rest);
      ParsedTail(Lower(text[..n]), rest[..a], rest[a..]);
    }
  }

  // --- normalise_url --------------------------------------------------------------

  /** The host rules for any URL taken from an untrusted feed. */
  function FeedHost(rawHost: string): Option<string> {
    var host := Lower(StripTrailing(rawHost, '.'));
    if host == "" || '.' !in host || ':' in host || NumericIpv4(host).Some? then None else Some(host)
  }

  function UpperPath(path: string): string { if path == "" then "/" else UpperEscapes(path) }

  /** The parsed URL in canonical form, part by part. */
  function Normal(u: Url): Option<Url> {
    if u.userinfo != "" || FeedHost(u.host).None? then None else
      Some(Url(u.scheme, "", FeedHost(u.host).value, u.port, UpperPath(u.path), CleanQuery(u.query)))
  }

  function NormaliseUrl(raw: string): Option<string> {
    var candidate := Strip(raw);
    if candidate == "" || |candidate| > MAX_URL_LENGTH then None
    else if '\r' in candidate || '\n' in candidate || '\t' in candidate then None
    else if ParseUrl(candidate).None? || Normal(ParseUrl(candidate).value).None? then None
    else
      var text := Show(Normal(ParseUrl(candidate).value).value);
      if |text| > MAX_URL_LENGTH then None else Some(text)
  }

  lemma StripTrailingChars(s: string, c: char)
    ensures forall i :: 0 <= i < |StripTrailing(s, c)| ==> StripTrailing(s, c)[i] == s[i]
  {
  }

  lemma FeedHostText(host: string)
    requires (host == "" || HostText(host)) && FeedHost(host).Some?
    ensures var h := FeedHost(host).value;
      HostText(h) && '.' in h && h[|h| - 1] != '.' && FeedHost(h) == Some(h) && NumericIpv4(h) == None
  {
    hide NumericIpv4;
    StripTrailingChars(host, '.');
    var h := FeedHost(host).value;
    assert Lower(h) == h;
    assert StripTrailing(h, '.') == h;
  }

  lemma UpperPathFixed(path: string)
    requires AllPrintable(path) && (path != "" ==> path[0] == '/') && '?' !in path && '#' !in path
    ensures var p := UpperPath(path);
      && AllPrintable(p) && p != "" && p[0] == '/' && '?' !in p && '#' !in p
      && UpperPath(p) == p
  {
    hide UpperEscapes, EscapeAt;
    UpperEscapesChars(path);
    UpperEscapesIdempotent(path);
    SlashIsUpper();
  }

  lemma SlashIsUpper()
    ensures UpperEscapes("/") == "/"
  {
  }

  lemma CleanQueryText(query: string)
    ensures AllPrintable(CleanQuery(query)) && '#' !in CleanQuery(query)
    ensures CleanQuery(CleanQuery(query)) == CleanQuery(query)
  {
    CleanQueryChars(query);
    CleanQueryIdempotent(query);
    var q := CleanQuery(query);
    assert forall i :: 0 <= i < |q| ==> q[i] in q;
  }

  /** Normalising changes nothing the second time, and what it writes reads back. */
  lemma NormalIsNormal(text: string)
    requires ParseUrl(text).Some? && Normal(ParseUrl(text).value).Some?
    ensures var v := Normal(ParseUrl(text).value).value;
      WellFormed(v) && Normal(v) == Some(v) && v.path != "" && '.' in v.host && v.host[|v.host| - 1] != '.'
  {
    hide ParseUrl, FeedHost, UpperPath, CleanQuery, HostText, NumericIpv4;
    var u := ParseUrl(text).value;
    ParsedParts(text);
    FeedHostText(u.host);
    UpperPathFixed(u.path);
    CleanQueryText(u.query);
  }

  lemma PrintableText(s: string)
    requires AllPrintable(s)
    ensures Strip(s) == s && '\r' !in s && '\n' !in s && '\t' !in s
  {
    StrippedIsFixed(s);
  }

  /** Reading a printed canonical URL again gives that text, length permitting. */
  lemma NormaliseShow(v: Url)
    requires WellFormed(v) && Normal(v) == Some(v)
    ensures NormaliseUrl(Show(v)) == if |Show(v)| <= MAX_URL_LENGTH then Some(Show(v)) else None
  {
    ParseShow(v);
    PrintableText(Show(v));
  }

  /** The stored key normalises to itself. */
  lemma NormaliseIdempotent(raw: string)
    requires NormaliseUrl(raw).Some?
    ensures NormaliseUrl(NormaliseUrl(raw).value) == NormaliseUrl(raw)
  {
    var candidate := Strip(raw);
    NormalIsNormal(candidate);
    NormaliseShow(Normal(ParseUrl(candidate).value).value);
  }
}
