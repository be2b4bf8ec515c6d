/** URL mutes: how a pasted link becomes a term, and when the feed hides a URL under it. */
module UrlMutes {
  import opened Text
  import opened Numerals
  import opened Ipv4
  import opened QueryString
  import opened Normalise
  import opened CanonicalKey
  import opened UrlGuard

  const MAX_MUTED_TERM_LENGTH := 64

  datatype MuteError = EmptyInput | NotAUrl | TwiceWww | NamesPort | EmptySegment | TooLong

  /** The "is this the same host" answer shared with the topic rules. */
  function LinkHost(host: string): string { RemovePrefix(Lower(host), "www.") }

  predicate SchemeChar(c: char) {
    'a' <= c <= 'z' || 'A' <= c <= 'Z' || '0' <= c <= '9' || c == '+' || c == '.' || c == '-'
  }

  /** `^[A-Za-z][A-Za-z0-9+.-]*://` */
  predicate HasScheme(s: string) {
    var n := Find(s, {':'});
    && n > 0 && ('a' <= s[0] <= 'z' || 'A' <= s[0] <= 'Z')
    && (forall i :: 0 <= i < n ==> SchemeChar(s[i]))
    && StartsWith(s[n..], "://")
  }

  function FirstSegment(path: string): string {
    if path == "" then "" else path[1..][..Find(path[1..], {'/'})]
  }

  function TermOf(host: string, segment: string): string {
    Lower(if segment == "" then host else host + "/" + segment)
  }

  /** The reduction, once the pasted link has been normalised and parsed again. */
  function Reduce(url: Url): Result<string, MuteError> {
    var host := LinkHost(url.host);
    var segment := FirstSegment(url.path);
    if StartsWith(host, "www.") then Err(TwiceWww)
    else if url.port.Some? then Err(NamesPort)
    else if segment == "" && url.path != "/" then Err(EmptySegment)
    else if |TermOf(host, segment)| > MAX_MUTED_TERM_LENGTH then Err(TooLong)
    else Ok(TermOf(host, segment))
  }

  /** What is handed to the normaliser: a link without a scheme is read as https. */
  function Candidate(raw: string): string {
    var s := Strip(raw);
    if HasScheme(s) then s else "https://" + RemovePrefix(s, "//")
  }

  function UrlMuteTerm(raw: string): Result<string, MuteError> {
    if Strip(raw) == "" then Err(EmptyInput) else
      match NormaliseUrl(Candidate(raw))
      case None => Err(NotAUrl)
      case Some(key) =>
        KeyNamesNormal(Candidate(raw));
        Reduce(ParseUrl(key).value)
  }

  // --- the feed's comparison --------------------------------------------------------

  const URL_BOUNDARIES := {"", "/", "?"}

  /** SQL `substr(s, from, length)` with a 1-based start, short at the end of the string. */
  function Substr(s: string, from: nat, length: nat): string
    requires from >= 1
  {
    if from > |s| then "" else
      var rest := s[from - 1..];
      if length <= |rest| then rest[..length] else rest
  }

  /** The `CASE` over the prefixes, longest first; when none fits the key is NULL. */
  function SiteKey(url: string): Option<string> {
    if Substr(url, 1, 12) == "https://www." then Some(Substr(url, 13, |url|))
    else if Substr(url, 1, 8) == "https://" then Some(Substr(url, 9, |url|))
    else if Substr(url, 1, 11) == "http://www." then Some(Substr(url, 12, |url|))
    else if Substr(url, 1, 7) == "http://" then Some(Substr(url, 8, |url|))
    else None
  }

  predicate UrlMuted(canonical: string, term: string) {
    match SiteKey(Lower(canonical))
    case None => false
    case Some(key) =>
      && Substr(key, 1, |term|) == term
      && Substr(key, |term| + 1, 1) in URL_BOUNDARIES
  }

  // --- shape of terms ---------------------------------------------------------------

  function TermHost(term: string): string { term[..Find(term, {'/'})] }

  function TermSegment(term: string): string {
    var n := Find(term, {'/'});
    if n < |term| then term[n + 1..] else ""
  }

  /** A host, or a host and one path segment, in lower case. */
  predicate IsBare(term: string) {
    var host, segment := TermHost(term), TermSegment(term);
    && HostText(host) && host[|host| - 1] != '.'
    && Lower(term) == term && |term| <= 2 * MAX_MUTED_TERM_LENGTH && AllPrintable(term)
    && '/' !in segment && '?' !in segment && '#' !in segment
    && term == (if segment == "" then host else host + "/" + segment)
  }

  /** What every stored term looks like. */
  predicate IsTerm(term: string) {
    IsBare(term) && !StartsWith(TermHost(term), "www.") && |term| <= MAX_MUTED_TERM_LENGTH
  }

  lemma TermParts(host: string, segment: string)
    requires HostText(host) && '/' !in segment
    ensures var term := if segment == "" then host else host + "/" + segment;
      TermHost(term) == host && TermSegment(term) == segment
  {
    if segment == "" {
      FindIs(host, {'/'}, |host|);
      assert host[..|host|] == host;
    } else {
      var term := host + ("/" + segment);
      assert term == host + "/" + segment;
      FindAfter(host, "/" + segment, {'/'});
      assert term[|host| + 1..] == segment;
    }
  }

  lemma LinkHostText(host: string)
    requires HostText(host) && host[|host| - 1] != '.'
    ensures HostText(LinkHost(host)) && LinkHost(host)[|LinkHost(host)| - 1] != '.'
    ensures host == LinkHost(host) || host == "www." + LinkHost(host)
  {
    if StartsWith(host, "www.") {
      assert host == "www." + host[4..];
      assert host[3] == '.' && |host| > 4;
    }
  }

  lemma FirstSegmentText(path: string)
    requires AllPrintable(path) && path != "" && '?' !in path && '#' !in path
    ensures var s := FirstSegment(path);
      AllPrintable(s) && '/' !in s && '?' !in s && '#' !in s
  {
    var s := FirstSegment(path);
    assert forall i :: 0 <= i < |s| ==> s[i] == path[i + 1] && s[i] in path;
  }

  lemma LowerText(s: string)
    ensures AllPrintable(s) ==> AllPrintable(Lower(s))
    ensures forall c :: c in {'/', '?', '#', ':', '@'} && c !in s ==> c !in Lower(s)
  {
    forall c | c in {'/', '?', '#', ':', '@'} && c !in s
      ensures c !in Lower(s)
    {
      forall i | 0 <= i < |s|
        ensures Lower(s)[i] != c
      {
        assert s[i] in s;
      }
    }
  }

  lemma LowerTermOf(host: string, segment: string)
    requires Lower(host) == host
    ensures TermOf(host, segment) == if segment == "" then host else host + "/" + Lower(segment)
  {
    if segment != "" {
      LowerConcat(host + "/", segment);
      LowerConcat(host, "/");
      assert Lower("/") == "/";
    }
  }

  /** A canonical URL's parts, as the reduction and the feed see them. */
  predicate CanonicalUrl(v: Url) {
    && WellFormed(v) && v.path != "" && '.' in v.host && v.host[|v.host| - 1] != '.'
  }

  lemma KeyIsCanonical(raw: string)
    requires NormaliseUrl(raw).Some?
    ensures ParseUrl(NormaliseUrl(raw).value).Some?
    ensures var v := ParseUrl(NormaliseUrl(raw).value).value;
      CanonicalUrl(v) && NormaliseUrl(raw).value == Show(v)
  {
    hide NormaliseUrl, ParseUrl, Normal, Show;
    KeyNamesNormal(raw);
    NormalIsNormal(Strip(raw));
  }

  lemma JoinedText(host: string, segment: string)
    requires AllPrintable(host) && Lower(host) == host && AllPrintable(segment) && Lower(segment) == segment
    ensures AllPrintable(host + "/" + segment) && Lower(host + "/" + segment) == host + "/" + segment
  {
    LowerConcat(host + "/", segment);
    LowerConcat(host, "/");
    assert Lower("/") == "/";
  }

  lemma TermShape(host: string, segment: string)
    requires HostText(host) && host[|host| - 1] != '.'
    requires AllPrintable(segment) && '/' !in segment && '?' !in segment && '#' !in segment
    requires Lower(segment) == segment
    ensures var term := if segment == "" then host else host + "/" + segment;
      && TermHost(term) == host && TermSegment(term) == segment
      && (|term| <= 2 * MAX_MUTED_TERM_LENGTH ==> IsBare(term))
  {
    TermParts(host, segment);
    JoinedText(host, segment);
  }

  lemma ReducedIsTerm(v: Url)
    requires CanonicalUrl(v) && Reduce(v).Ok?
    ensures IsTerm(Reduce(v).value)
    ensures TermHost(Reduce(v).value) == LinkHost(v.host)
    ensures TermSegment(Reduce(v).value) == Lower(FirstSegment(v.path))
  {
    hide Lower, LinkHost, FirstSegment, IsBare, HostText, TermOf, TermHost, TermSegment;
    var host, segment := LinkHost(v.host), FirstSegment(v.path);
    LinkHostText(v.host);
    FirstSegmentText(v.path);
    LowerText(segment);
    LowerIdempotent(segment);
    LowerTermOf(host, segment);
    TermShape(host, Lower(segment));
  }

  // --- what the feed's comparison means ---------------------------------------------

  /** The site a mute is about: scheme aside, one `www.` aside, letter case aside. */
  predicate SameSite(v: Url, term: string) {
    && v.port == None
    && LinkHost(v.host) == TermHost(term)
    && (TermSegment(term) == "" || TermSegment(term) == Lower(FirstSegment(v.path)))
  }

  /** A prefix followed by a boundary is the text up to the first boundary. */
  lemma PrefixAtBoundary(key: string, term: string)
    requires '/' !in term && '?' !in term
    ensures Substr(key, 1, |term|) == term && Substr(key, |term| + 1, 1) in URL_BOUNDARIES
       <==> term == key[..Find(key, {'/', '?'})]
  {
    hide Substr, Find;
    SubstrFront(key, |term|);
    SubstrAt(key, |term|);
    if term <= key {
      BoundaryText(key, |term|);
      if |term| == |key| || key[|term|] in {'/', '?'} {
        BoundaryEnds(key, term);
      }
    }
  }

  lemma SubstrFront(s: string, length: nat)
    ensures Substr(s, 1, length) == if length <= |s| then s[..length] else s
  {
    assert s[0..] == s;
  }

  lemma SubstrAt(s: string, n: nat)
    ensures Substr(s, n + 1, 1) == if n < |s| then [s[n]] else ""
  {
  }

  lemma BoundaryText(key: string, n: nat)
    requires n <= |key|
    ensures (if n < |key| then [key[n]] else "") in URL_BOUNDARIES <==> n == |key| || key[n] in {'/', '?'}
  {
    if n < |key| {
      assert [key[n]][0] == key[n] && [key[n]] != "";
      assert key[n] == '/' ==> [key[n]] == "/";
      assert key[n] == '?' ==> [key[n]] == "?";
    }
  }

  lemma BoundaryEnds(key: string, term: string)
    requires '/' !in term && '?' !in term && term <= key
    requires |term| == |key| || key[|term|] in {'/', '?'}
    ensures Find(key, {'/', '?'}) == |term|
  {
    forall i | 0 <= i < |term|
      ensures key[i] !in {'/', '?'}
    {
      assert key[i] == term[i] && term[i] in term;
    }
    FindIs(key, {'/', '?'}, |term|);
  }

  lemma SubstrWithin(host: string, rest: string, segment: string)
    ensures var key := host + "/" + rest; var term := host + "/" + segment;
      && (Substr(key, 1, |term|) == term <==> Substr(rest, 1, |segment|) == segment)
      && Substr(key, |term| + 1, 1) == Substr(rest, |segment| + 1, 1)
  {
    var key, term := host + "/" + rest, host + "/" + segment;
    var k := |host| + 1;
    assert key[k..] == rest && term[k..] == segment && key[..k] == term[..k];
    if |segment| <= |rest| {
      assert key[..|term|] == key[..k] + rest[..|segment|];
      assert term == term[..k] + segment;
      assert key[..|term|][k..] == rest[..|segment|];
    }
  }

  /** A term with a segment can only be a prefix when the hosts are the same text. */
  lemma HostsLineUp(site: string, rest: string, host: string, segment: string)
    requires '/' !in site && '/' !in host
    requires Substr(site + "/" + rest, 1, |host + "/" + segment|) == host + "/" + segment
    ensures site == host
  {
    var key, term := site + "/" + rest, host + "/" + segment;
    assert |term| <= |key| && key[..|term|] == term;
    assert term == host + ("/" + segment) && key == site + ("/" + rest);
    FindAfter(host, "/" + segment, {'/'});
    FindAfter(site, "/" + rest, {'/'});
    assert forall i :: 0 <= i <= |host| ==> key[i] == term[i];
    assert term[|host|] == '/';
    FindIs(key, {'/'}, |host|);
    assert key[..|host|] == term[..|host|];
  }

  /** The comparison against `site/rest`, where neither site nor term host has a `/` or `?`. */
  lemma MatchesSite(site: string, rest: string, term: string)
    requires IsTerm(term) && '/' !in site && '?' !in site
    ensures var key := site + "/" + rest;
      Substr(key, 1, |term|) == term && Substr(key, |term| + 1, 1) in URL_BOUNDARIES <==>
        site == TermHost(term) && (TermSegment(term) == "" || TermSegment(term) == rest[..Find(rest, {'/', '?'})])
  {
    var key := site + "/" + rest;
    var host, segment := TermHost(term), TermSegment(term);
    assert forall i :: 0 <= i < |host| ==> host[i] !in {':', '/', '?', '#', '@', '['};
    if segment == "" {
      assert key == site + ("/" + rest);
      FindAfter(site, "/" + rest, {'/', '?'});
      PrefixAtBoundary(key, term);
    } else {
      SubstrWithin(host, rest, segment);
      PrefixAtBoundary(rest, segment);
      if Substr(key, 1, |term|) == term {
        HostsLineUp(site, rest, host, segment);
      }
    }
  }

  /** The lower-cased URL as scheme, host, and what follows the host. */
  lemma LowerShow(v: Url)
    requires CanonicalUrl(v)
    ensures Lower(Show(v)) ==
      v.scheme + "://" + v.host + (PortText(v.port) + ("/" + Lower(v.path[1..] + QueryText(v.query))))
  {
    hide Lower, PortText;
    var start, port := v.scheme + "://", PortText(v.port);
    var rest := v.path[1..] + QueryText(v.query);
    assert v.path + QueryText(v.query) == "/" + rest;
    Regroup(start + v.host, port, "/" + rest);
    Regroup(start, v.host, port);
    assert Show(v) == start + v.host + (port + ("/" + rest));
    LowerConcat(start + v.host, port + ("/" + rest));
    LowerConcat(port, "/" + rest);
    LowerConcat("/", rest);
    PortTextIsLower(v.port);
    LowerStart(v.scheme, v.host);
    SlashIsLower();
  }

  lemma SlashIsLower()
    ensures Lower("/") == "/"
  {
  }

  lemma LowerStart(scheme: string, host: string)
    requires scheme in {"http", "https"} && Lower(host) == host
    ensures Lower(scheme + "://" + host) == scheme + "://" + host
  {
    LowerConcat(scheme + "://", host);
    assert Lower("http://") == "http://" && Lower("https://") == "https://";
    assert "http" + "://" == "http://" && "https" + "://" == "https://";
  }

  lemma PortTextIsLower(port: Option<int>)
    ensures Lower(PortText(port)) == PortText(port)
  {
    if port.Some? {
      PortDigits(port.value);
    }
  }

  lemma PortDigits(p: int)
    ensures forall i :: 0 <= i < |PortText(Some(p))| ==>
      PortText(Some(p))[i] == ':' || PortText(Some(p))[i] == '-' || '0' <= PortText(Some(p))[i] <= '9'
  {
    DecimalText(p);
    var d := Decimal(p);
    assert forall i :: 0 <= i < |d| ==> d[i] in d;
  }

  lemma CutPrefix(url: string, prefix: string, after: string)
    requires url == prefix + after && prefix != ""
    ensures Substr(url, 1, |prefix|) == prefix && Substr(url, |prefix| + 1, |url|) == after
  {
    assert url[..|prefix|] == prefix && url[|prefix|..] == after;
  }

  lemma MissPrefix(url: string, prefix: string, i: nat)
    requires i < |prefix| && (i < |url| ==> url[i] != prefix[i])
    ensures Substr(url, 1, |prefix|) != prefix
  {
  }

  lemma MissWww(url: string, scheme: string, after: string)
    requires url == scheme + after && !StartsWith(after, "www.")
    ensures Substr(url, 1, |scheme| + 4) != scheme + "www."
  {
    var long := scheme + "www.";
    assert long[|scheme|..] == "www." && url[|scheme|..] == after;
  }

  lemma PickHttps(after: string)
    ensures SiteKey("https://www." + after) == Some(after)
    ensures !StartsWith(after, "www.") ==> SiteKey("https://" + after) == Some(after)
  {
    CutPrefix("https://www." + after, "https://www.", after);
    if !StartsWith(after, "www.") {
      CutPrefix("https://" + after, "https://", after);
      MissWww("https://" + after, "https://", after);
      assert "https://" + "www." == "https://www.";
    }
  }

  lemma PickHttp(after: string)
    ensures SiteKey("http://www." + after) == Some(after)
    ensures !StartsWith(after, "www.") ==> SiteKey("http://" + after) == Some(after)
  {
    MissPrefix("http://www." + after, "https://www.", 4);
    MissPrefix("http://www." + after, "https://", 4);
    CutPrefix("http://www." + after, "http://www.", after);
    if !StartsWith(after, "www.") {
      MissPrefix("http://" + after, "https://www.", 4);
      MissPrefix("http://" + after, "https://", 4);
      CutPrefix("http://" + after, "http://", after);
      MissWww("http://" + after, "http://", after);
      assert "http://" + "www." == "http://www.";
    }
  }

  lemma CutWww(host: string)
    requires HostText(host)
    ensures StartsWith(host, "www.") ==> host == "www." + LinkHost(host)
    ensures !StartsWith(host, "www.") ==> host == LinkHost(host)
  {
  }

  lemma WwwIsInHost(host: string, after: string)
    requires '.' in host && !StartsWith(host, "www.")
    ensures !StartsWith(host + after, "www.")
  {
    if |host| >= 4 {
      assert (host + after)[..4] == host[..4];
    } else {
      var i :| 0 <= i < |host| && host[i] == '.';
      assert (host + after)[i] == '.' && "www."[i] == 'w';
    }
  }

  lemma PickSite(scheme: string, host: string, rest: string)
    requires scheme in {"http", "https"} && HostText(host) && '.' in host
    ensures SiteKey(scheme + "://" + host + rest) == Some(LinkHost(host) + rest)
  {
    hide SiteKey, LinkHost, HostText;
    var after := LinkHost(host) + rest;
    CutWww(host);
    PickHttps(after);
    PickHttp(after);
    assert "http" + "://" == "http://" && "https" + "://" == "https://";
    if StartsWith(host, "www.") {
      assert scheme + "://" + host + rest == scheme + "://" + "www." + after;
      assert "http://" + "www." == "http://www." && "https://" + "www." == "https://www.";
    } else {
      WwwIsInHost(host, rest);
      assert scheme + "://" + host + rest == scheme + "://" + after;
    }
  }

  lemma FirstSegmentOfRest(path: string, query: string)
    requires path != "" && path[0] == '/' && '?' !in path
    ensures var rest := Lower(path[1..] + QueryText(query));
      rest[..Find(rest, {'/', '?'})] == Lower(FirstSegment(path))
  {
    var tail := path[1..];
    var n := Find(tail, {'/'});
    var rest := Lower(tail + QueryText(query));
    forall i | 0 <= i < n
      ensures rest[i] !in {'/', '?'} && rest[i] == LowerChar(tail[i])
    {
      assert tail[i] == path[i + 1] && path[i + 1] in path;
    }
    if n < |rest| {
      assert rest[n] in {'/', '?'} by {
        assert n < |tail| ==> (tail + QueryText(query))[n] == tail[n];
        assert n == |tail| ==> (tail + QueryText(query))[n] == QueryText(query)[0];
      }
    }
    FindIs(rest, {'/', '?'}, n);
    assert rest[..n] == Lower(tail[..n]);
  }

  lemma SiteText(host: string, port: Option<int>, termHost: string)
    requires HostText(host) && HostText(termHost)
    ensures '/' !in host + PortText(port) && '?' !in host + PortText(port)
    ensures host + PortText(port) == termHost <==> port == None && host == termHost
  {
    PortTextChars(port);
    if port.Some? {
      assert (host + PortText(port))[|host|] == ':';
    } else {
      assert host + PortText(port) == host;
    }
  }

  lemma CanonicalSiteKey(v: Url)
    requires CanonicalUrl(v)
    ensures SiteKey(Lower(Show(v)))
         == Some(LinkHost(v.host) + PortText(v.port) + "/" + Lower(v.path[1..] + QueryText(v.query)))
  {
    var tail := Lower(v.path[1..] + QueryText(v.query));
    LowerShow(v);
    PickSite(v.scheme, v.host, PortText(v.port) + ("/" + tail));
    Regroup(LinkHost(v.host), PortText(v.port), "/" + tail);
    Regroup(LinkHost(v.host) + PortText(v.port), "/", tail);
  }

  lemma Regroup(a: string, b: string, c: string)
    ensures a + b + c == a + (b + c)
  {
  }

  lemma CanonicalMuted(v: Url, term: string)
    requires CanonicalUrl(v) && IsTerm(term)
    ensures UrlMuted(Show(v), term) <==> SameSite(v, term)
  {
    hide SiteKey, Lower, LinkHost, Find, Substr, TermHost, TermSegment, FirstSegment, PortText, QueryText, Show;
    LinkHostText(v.host);
    CanonicalSiteKey(v);
    SiteText(LinkHost(v.host), v.port, TermHost(term));
    MatchesSite(LinkHost(v.host) + PortText(v.port), Lower(v.path[1..] + QueryText(v.query)), term);
    FirstSegmentOfRest(v.path, v.query);
  }

  /** The raw comparison hides a canonical URL exactly when it is on the term's site. */
  lemma MutedIffSameSite(raw: string, term: string)
    requires NormaliseUrl(raw).Some? && IsTerm(term)
    ensures ParseUrl(NormaliseUrl(raw).value).Some?
    ensures UrlMuted(NormaliseUrl(raw).value, term) <==> SameSite(ParseUrl(NormaliseUrl(raw).value).value, term)
  {
    KeyIsCanonical(raw);
    CanonicalMuted(ParseUrl(NormaliseUrl(raw).value).value, term);
  }

  // --- the reduction and itself -------------------------------------------------------

  lemma AcceptedTerm(raw: string)
    requires UrlMuteTerm(raw).Ok?
    ensures NormaliseUrl(Candidate(raw)).Some?
    ensures ParseUrl(NormaliseUrl(Candidate(raw)).value).Some?
    ensures var v := ParseUrl(NormaliseUrl(Candidate(raw)).value).value;
      CanonicalUrl(v) && UrlMuteTerm(raw) == Reduce(v) && (TermSegment(UrlMuteTerm(raw).value) == "" <==> v.path == "/")
    ensures IsTerm(UrlMuteTerm(raw).value)
  {
    KeyIsCanonical(Candidate(raw));
    ReducedIsTerm(ParseUrl(NormaliseUrl(Candidate(raw)).value).value);
  }

  /** `//` at the start of the path: its first segment is empty and not its end. */
  predicate StartsEmpty(path: string) { |path| >= 2 && path[0] == '/' && path[1] == '/' }

  /**
   * A canonical URL is refused for a second `www.`, for a port, for a path that starts with
   * `//`, and for a site of more than 64 characters, in that order, and for nothing else.
   */
  lemma ReduceOutcome(v: Url)
    requires CanonicalUrl(v)
    ensures var site := |v.host| - (if StartsWith(v.host, "www.") then 4 else 0)
        + (if v.path == "/" then 0 else 1 + |FirstSegment(v.path)|);
      && (Reduce(v) == Err(TwiceWww) <==> StartsWith(v.host, "www.www."))
      && (Reduce(v) == Err(NamesPort) <==> !StartsWith(v.host, "www.www.") && v.port.Some?)
      && (Reduce(v) == Err(EmptySegment) <==>
            !StartsWith(v.host, "www.www.") && v.port.None? && StartsEmpty(v.path))
      && (Reduce(v) == Err(TooLong) <==>
            !StartsWith(v.host, "www.www.") && v.port.None? && !StartsEmpty(v.path) && site > 64)
      && (Reduce(v).Ok? <==>
            !StartsWith(v.host, "www.www.") && v.port.None? && !StartsEmpty(v.path) && site <= 64)
  {
    hide Find, FirstSegment;
    TwiceIff(v.host);
    EmptyIff(v.path);
  }

  lemma TwiceIff(host: string)
    requires Lower(host) == host
    ensures StartsWith(LinkHost(host), "www.") <==> StartsWith(host, "www.www.")
    ensures |LinkHost(host)| == |host| - if StartsWith(host, "www.") then 4 else 0
  {
    var long := "www.www.";
    assert long[..4] == "www." && long[4..] == "www.";
    if StartsWith(host, "www.") {
      assert host == "www." + host[4..];
      if StartsWith(host[4..], "www.") {
        assert host[..8] == "www." + host[4..][..4];
        assert "www." + "www." == long;
      }
      if StartsWith(host, long) {
        assert host[4..][..4] == host[..8][4..];
      }
    }
    assert StartsWith(host, long) ==> StartsWith(host[..8], "www.");
  }

  lemma EmptyIff(path: string)
    requires path != "" && path[0] == '/'
    ensures FirstSegment(path) == "" && path != "/" <==> StartsEmpty(path)
    ensures path == "/" ==> FirstSegment(path) == ""
  {
    assert |path| == 1 ==> path == "/";
  }

  predicate Blank(s: string) { forall c :: c in s ==> IsSpace(c) }

  /** Only nothing but white space is refused as empty. */
  lemma EmptyInputIff(raw: string)
    ensures UrlMuteTerm(raw) == Err(EmptyInput) <==> Blank(raw)
  {
    hide NormaliseUrl, ParseUrl, Candidate, Reduce, Blank, Strip;
    ReduceNamesAUrl();
    StripIsEmpty(raw);
    if NormaliseUrl(Candidate(raw)).Some? {
      KeyNamesNormal(Candidate(raw));
      assert UrlMuteTerm(raw) == Err(EmptyInput) ==> Strip(raw) == "";
    }
  }

  lemma StripIsEmpty(s: string)
    ensures Strip(s) == "" <==> Blank(s)
  {
    hide IsSpace;
    var n := LeadingSpaces(s);
    if n < |s| {
      assert s[n] in s && StripLeft(s)[0] == s[n];
      StripKeepsFirst(StripLeft(s));
    } else {
      assert forall c :: c in s ==> exists i :: 0 <= i < |s| && s[i] == c;
    }
  }

  lemma {:induction false} StripKeepsFirst(s: string)
    requires s != "" && !IsSpace(s[0])
    ensures StripRight(s) != ""
  {
    hide IsSpace;
    if IsSpace(s[|s| - 1]) {
      StripKeepsFirst(s[..|s| - 1]);
    }
  }

  /** Every link that is accepted is itself hidden by the term it becomes. */
  lemma LinkIsMutedByItsTerm(raw: string)
    requires UrlMuteTerm(raw).Ok?
    ensures NormaliseUrl(Candidate(raw)).Some?
    ensures UrlMuted(NormaliseUrl(Candidate(raw)).value, UrlMuteTerm(raw).value)
  {
    AcceptedTerm(raw);
    var v := ParseUrl(NormaliseUrl(Candidate(raw)).value).value;
    ReducedIsTerm(v);
    MutedIffSameSite(Candidate(raw), UrlMuteTerm(raw).value);
  }

  /** The guard a term meets when it is read back as a link. */
  predicate StillAHost(host: string) { '.' in host && NumericIpv4(host).None? }

  lemma TermHasNoScheme(term: string)
    requires IsBare(term)
    ensures !HasScheme(term)
  {
    var host := TermHost(term);
    var n := Find(term, {':'});
    assert forall i :: 0 <= i < |host| ==> term[i] == host[i] && host[i] != ':';
    if n < |term| {
      assert n > |host| && term[|host|] == '/';
      assert !SchemeChar('/');
    } else {
      assert term[n..] == "";
    }
  }

  lemma TermIsBareLink(term: string)
    requires IsBare(term)
    ensures Strip(term) == term && term != "" && Candidate(term) == "https://" + term
  {
    assert term[0] == TermHost(term)[0] != '/';
    PrintableText(term);
    TermHasNoScheme(term);
  }

  /** The URL a bare term stands for. */
  function TermUrl(term: string): Url {
    Url("https", "", TermHost(term), None, if TermSegment(term) == "" then "" else "/" + TermSegment(term), "")
  }

  lemma TermUrlText(term: string)
    requires IsBare(term)
    ensures WellFormed(TermUrl(term)) && Show(TermUrl(term)) == "https://" + term
  {
    hide TermHost, TermSegment, HostText, Lower, Find;
    var host, segment := TermHost(term), TermSegment(term);
    SegmentText(term);
    PlainUrlText(host, if segment == "" then "" else "/" + segment);
    if segment != "" {
      Regroup(host, "/", segment);
    } else {
      assert host + "" == host;
    }
  }

  lemma PlainUrlText(host: string, path: string)
    ensures Show(Url("https", "", host, None, path, "")) == "https://" + (host + path)
  {
    assert host + PortText(None) == host && path + QueryText("") == path;
    assert "https" + "://" == "https://";
    Regroup("https://", host, path);
  }

  lemma LowerSuffix(s: string, n: nat)
    requires n <= |s| && Lower(s) == s && AllPrintable(s)
    ensures Lower(s[n..]) == s[n..] && AllPrintable(s[n..])
  {
    forall i | 0 <= i < |s| - n
      ensures LowerChar(s[n..][i]) == s[n..][i]
    {
      assert Lower(s)[n + i] == LowerChar(s[n + i]);
    }
  }

  lemma SegmentText(term: string)
    requires IsBare(term)
    ensures AllPrintable(TermSegment(term)) && Lower(TermSegment(term)) == TermSegment(term)
    ensures '?' !in "/" + TermSegment(term) && '#' !in "/" + TermSegment(term)
  {
    hide HostText, Lower;
    var n := Find(term, {'/'});
    if n < |term| {
      LowerSuffix(term, n + 1);
    }
  }

  lemma LowerUndoesUpper(s: string)
    requires Lower(s) == s
    ensures Lower(UpperEscapes(s)) == s
  {
    UpperEscapesChars(s);
    hide UpperEscapes;
    forall i | 0 <= i < |s|
      ensures LowerChar(UpperEscapes(s)[i]) == s[i]
    {
      assert LowerChar(s[i]) == Lower(s)[i] == s[i];
    }
    assert Lower(UpperEscapes(s)) == s;
  }

  lemma UpperSegment(segment: string)
    requires '/' !in segment
    ensures UpperEscapes("/" + segment) == "/" + UpperEscapes(segment)
    ensures FirstSegment("/" + UpperEscapes(segment)) == UpperEscapes(segment)
  {
    var path := "/" + segment;
    assert path[1..] == segment && !EscapeAt(path);
    var upper := UpperEscapes(segment);
    UpperEscapesChars(segment);
    assert ("/" + upper)[1..] == upper;
    forall i | 0 <= i < |upper|
      ensures upper[i] != '/'
    {
      assert segment[i] in segment;
    }
    FindIs(upper, {'/'}, |upper|);
    assert upper[..|upper|] == upper;
  }

  lemma LinkHostFixed(host: string)
    requires HostText(host) && !StartsWith(host, "www.")
    ensures LinkHost(host) == host
  {
  }

  lemma FeedHostOfTerm(term: string)
    requires IsBare(term)
    ensures FeedHost(TermHost(term)) == if StillAHost(TermHost(term)) then Some(TermHost(term)) else None
  {
    StripTrailingFixed(TermHost(term), '.');
    assert ':' !in TermHost(term);
  }

  /** The canonical URL of a bare term read as an https link. */
  function TermKey(term: string): Url {
    Url("https", "", TermHost(term), None, UpperPath(TermUrl(term).path), "")
  }

  lemma TermUrlNormal(term: string)
    requires IsBare(term)
    ensures Normal(TermUrl(term)) == if StillAHost(TermHost(term)) then Some(TermKey(term)) else None
    ensures WellFormed(TermKey(term)) && |Show(TermKey(term))| <= MAX_URL_LENGTH
  {
    hide TermHost, TermSegment, HostText, Lower, FeedHost, StillAHost;
    FeedHostOfTerm(term);
    TermUrlText(term);
    UpperPathFixed(TermUrl(term).path);
    EmptyQuery();
  }

  lemma ParseTerm(term: string)
    requires IsBare(term)
    ensures ParseUrl("https://" + term) == Some(TermUrl(term))
    ensures Strip("https://" + term) == "https://" + term && |"https://" + term| <= MAX_URL_LENGTH
    ensures '\r' !in "https://" + term && '\n' !in "https://" + term && '\t' !in "https://" + term
  {
    TermUrlText(term);
    ParseShow(TermUrl(term));
    PrintableText("https://" + term);
  }

  lemma NormaliseTerm(term: string)
    requires IsBare(term)
    ensures NormaliseUrl("https://" + term) == if StillAHost(TermHost(term)) then Some(Show(TermKey(term))) else None
    ensures ParseUrl(Show(TermKey(term))) == Some(TermKey(term))
  {
    ParseTerm(term);
    TermUrlNormal(term);
    ParseShow(TermKey(term));
  }

  /** A bare text handed to the reduction as a link. */
  lemma ReduceBareText(term: string)
    requires IsBare(term)
    ensures UrlMuteTerm(term) == if StillAHost(TermHost(term)) then Reduce(TermKey(term)) else Err(NotAUrl)
  {
    TermIsBareLink(term);
    NormaliseTerm(term);
  }

  lemma TermKeyReduces(term: string)
    requires IsTerm(term)
    ensures Reduce(TermKey(term)) == Ok(term)
  {
    var host, segment := TermHost(term), TermSegment(term);
    LinkHostFixed(host);
    SegmentText(term);
    LowerTermOf(host, segment);
    if segment != "" {
      UpperSegment(segment);
      LowerTermOf(host, UpperEscapes(segment));
      LowerUndoesUpper(segment);
    } else {
      assert FirstSegment("/") == "";
    }
  }

  /** What saving a stored term again gives: itself, or a refusal. */
  lemma SavingATermAgain(term: string)
    requires IsTerm(term)
    ensures UrlMuteTerm(term) == if StillAHost(TermHost(term)) then Ok(term) else Err(NotAUrl)
  {
    ReduceBareText(term);
    TermKeyReduces(term);
  }

  /** The reduction is idempotent exactly when the canonical URL's host, less one `www.`, is a public host still. */
  lemma ReductionIsIdempotentIff(raw: string)
    requires UrlMuteTerm(raw).Ok?
    ensures NormaliseUrl(Candidate(raw)).Some? && ParseUrl(NormaliseUrl(Candidate(raw)).value).Some?
    ensures var term := UrlMuteTerm(raw).value; var host := ParseUrl(NormaliseUrl(Candidate(raw)).value).value.host;
      UrlMuteTerm(term) == Ok(term) <==> StillAHost(LinkHost(host))
  {
    hide UrlMuteTerm, IsTerm, LinkHost, TermHost, StillAHost;
    AcceptedTerm(raw);
    ReducedIsTerm(ParseUrl(NormaliseUrl(Candidate(raw)).value).value);
    SavingATermAgain(UrlMuteTerm(raw).value);
  }

  // --- links as they are pasted -----------------------------------------------------------

  lemma SchemeIsSeen(s: string, scheme: string)
    requires scheme in {"http", "https"} && scheme + "://" <= Lower(s)
    ensures HasScheme(s)
  {
    var n, start := |scheme|, scheme + "://";
    assert forall i :: 0 <= i < |start| ==> Lower(s)[i] == start[i];
    assert forall i :: 0 <= i < n ==> start[i] == scheme[i];
    assert start[n] == ':' && start[n + 1] == '/' && start[n + 2] == '/';
    assert s[n] == ':' && s[n + 1] == '/' && s[n + 2] == '/';
    hide Lower;
    assert forall i :: 0 <= i < n ==> LowerChar(s[i]) == scheme[i];
    FindIs(s, {':'}, n);
    assert s[n..][..3] == "://";
  }

  /**
   * A link pasted with its scheme, in any letter case and with white space around it, is
   * reduced from its own canonical form, and refused as no URL exactly when it has none.
   */
  lemma LinkWithScheme(raw: string)
    requires "http://" <= Lower(Strip(raw)) || "https://" <= Lower(Strip(raw))
    ensures NormaliseUrl(raw).Some? ==> ParseUrl(NormaliseUrl(raw).value).Some?
    ensures UrlMuteTerm(raw) ==
      if NormaliseUrl(raw).None? then Err(NotAUrl) else Reduce(ParseUrl(NormaliseUrl(raw).value).value)
    ensures UrlMuteTerm(raw) == Err(NotAUrl) <==> NormaliseUrl(raw).None?
  {
    hide ParseUrl, HasScheme, Strip, Reduce, NormaliseUrl, Lower;
    var s := Strip(raw);
    StrippedKey(raw);
    assert "http" + "://" == "http://" && "https" + "://" == "https://";
    SchemeIsSeen(s, if "http://" <= Lower(s) then "http" else "https");
    if NormaliseUrl(raw).Some? {
      KeyIsCanonical(raw);
    }
    ReduceNamesAUrl();
  }

  lemma StrippedKey(raw: string)
    ensures NormaliseUrl(Strip(raw)) == NormaliseUrl(raw)
  {
    hide ParseUrl, Normal, Show, Strip;
    StripIsStripped(raw);
    StrippedIsFixed(Strip(raw));
  }

  lemma ReduceNamesAUrl()
    ensures forall v :: Reduce(v) != Err(NotAUrl) && Reduce(v) != Err(EmptyInput)
  {
  }

  ghost predicate SchemeEndsAt(s: string, n: nat) {
    0 < n <= |s| - 3 && s[n] == ':' && s[n + 1] == '/' && s[n + 2] == '/'
  }

  /** Nothing in the text up to a `://` reads as a scheme. */
  ghost predicate Schemeless(s: string) {
    forall n: nat :: SchemeEndsAt(s, n) ==> exists i :: 0 <= i < n && !SchemeChar(s[i])
  }

  lemma SchemeShows(s: string)
    requires HasScheme(s)
    ensures !Schemeless(s) && s[0] != '/'
  {
    var n := Find(s, {':'});
    var after := s[n..];
    assert after[0] == "://"[0] && after[1] == "://"[1] && after[2] == "://"[2];
    assert SchemeEndsAt(s, n);
  }

  /** A link without a scheme, with or without leading slashes, is read as https. */
  lemma LinkWithoutScheme(raw: string, rest: string)
    requires Strip(raw) != "" && (Strip(raw) == "//" + rest || (Strip(raw) == rest && !StartsWith(rest, "//")))
    requires Schemeless(rest)
    ensures UrlMuteTerm(raw) == UrlMuteTerm("https://" + rest)
  {
    hide NormaliseUrl, Strip, Reduce, ParseUrl, HasScheme, Schemeless;
    var s := Strip(raw);
    var link := "https://" + rest;
    StripIsStripped(raw);
    assert link[0] == 'h' && link[|link| - 1] == (if rest == "" then '/' else s[|s| - 1]);
    StrippedIsFixed(link);
    assert Lower(link)[..8] == "https://";
    SchemeIsSeen(link, "https");
    if HasScheme(s) {
      SchemeShows(s);
      assert false;
    }
    assert s == "//" + rest ==> s[2..] == rest;
  }

  /** What may follow a term in a link to its site: nothing, a query, a path inside its segment. */
  predicate MayFollow(term: string, more: string) {
    && AllPrintable(more) && '#' !in more
    && (more == "" || more[0] == '?' || (more[0] == '/' && (TermSegment(term) != "" || PathOf(more) == "/")))
  }

  /** The parsed link: scheme, `www.` or not, the term and what follows it. */
  function LinkUrl(scheme: string, www: string, term: string, more: string): Url {
    var tail := LinkTail(term, more);
    Url(scheme, "", www + TermHost(term), None, PathOf(tail), QueryOf(tail))
  }

  function Link(scheme: string, www: string, term: string, more: string): string {
    scheme + "://" + (www + term + more)
  }

  lemma LinkHostParts(www: string, host: string)
    requires HostText(host) && host[|host| - 1] != '.' && !StartsWith(host, "www.") && www in {"", "www."}
    ensures HostText(www + host) && (www + host)[|www + host| - 1] != '.' && LinkHost(www + host) == host
    ensures FeedHost(www + host) == if www == "" && !StillAHost(host) then None else Some(www + host)
  {
    hide NumericIpv4, Lower;
    var long := www + host;
    WwwStaysLower(www, host);
    StripTrailingFixed(long, '.');
    WwwIsNoNumber(host);
    if www == "" {
      assert long == host;
      assert ':' !in long;
    } else {
      assert long[3] == '.' && long[4..] == host && long[..4] == "www.";
      assert long[|long| - 1] == host[|host| - 1];
    }
  }

  lemma WwwStaysLower(www: string, host: string)
    requires HostText(host) && www in {"", "www."}
    ensures HostText(www + host) && ':' !in www + host
  {
    LowerConcat(www, host);
    assert Lower("www.") == "www." && Lower("") == "";
  }

  lemma LinkParses(scheme: string, www: string, term: string, more: string)
    requires scheme in {"http", "https"} && www in {"", "www."} && IsTerm(term) && MayFollow(term, more)
    ensures ParseUrl(Link(scheme, www, term, more)) == Some(LinkUrl(scheme, www, term, more))
    ensures AllPrintable(Link(scheme, www, term, more))
  {
    hide HostText, NumericIpv4, PathOf, QueryOf, FeedHost, LinkHost, StillAHost, Lower, ParseUrl, AllPrintable;
    var host := TermHost(term);
    var tail := LinkTail(term, more);
    LinkHostParts(www, host);
    HostIsPlain(www + host);
    SegmentText(term);
    TailIsPlain(term, more);
    SchemeIsLower(scheme);
    LinkText(scheme, www, term, more);
    AssembledParses(scheme, None, www + host, None, tail);
  }

  /** What follows the host in a link. */
  function LinkTail(term: string, more: string): string {
    (if TermSegment(term) == "" then "" else "/" + TermSegment(term)) + more
  }

  lemma LinkText(scheme: string, www: string, term: string, more: string)
    requires IsBare(term)
    ensures Link(scheme, www, term, more) == Assembled(scheme, None, www + TermHost(term), None, LinkTail(term, more))
  {
    hide HostText, Lower, Find, TermHost, TermSegment;
    var host, segment := TermHost(term), TermSegment(term);
    assert "" + (www + host + "") == www + host;
    if segment == "" {
      assert "" + more == more;
    } else {
      Regroup(host, "/", segment);
      Regroup(www, host, "/" + segment);
      Regroup(www + host, "/" + segment, more);
    }
  }

  lemma TailIsPlain(term: string, more: string)
    requires IsTerm(term) && MayFollow(term, more)
    ensures PlainTail(LinkTail(term, more))
  {
    hide HostText, Lower, Find;
    SegmentText(term);
  }

  lemma HostIsPlain(host: string)
    requires HostText(host)
    ensures PlainHost(host) && Lower(host) == host
  {
  }

  lemma SchemeIsLower(scheme: string)
    requires scheme in {"http", "https"}
    ensures Lower(scheme) == scheme
  {
  }

  /** Upper-casing escapes leaves the first segment as it is, letter case aside. */
  lemma SegmentIgnoresEscapes(path: string)
    requires path != "" && path[0] == '/'
    ensures UpperEscapes(path) != "" && Lower(FirstSegment(UpperEscapes(path))) == Lower(FirstSegment(path))
    ensures UpperEscapes(path) == "/" <==> path == "/"
  {
    hide UpperEscapes;
    UpperEscapesChars(path);
    var rest, upper := path[1..], UpperEscapes(path)[1..];
    assert forall i :: 0 <= i < |rest| ==> rest[i] == path[i + 1] && upper[i] == UpperEscapes(path)[i + 1];
    var n := Find(rest, {'/'});
    FindIs(upper, {'/'}, n);
    assert forall i :: 0 <= i < n ==> LowerChar(upper[i]) == LowerChar(rest[i]);
    assert Lower(upper[..n]) == Lower(rest[..n]);
  }

  /** The link's path begins with the term's segment and nothing more. */
  lemma LinkSegment(term: string, more: string)
    requires IsTerm(term) && MayFollow(term, more)
    ensures var path := LinkUrl("https", "", term, more).path;
      if TermSegment(term) == "" then path == "" || path == "/"
      else path != "" && path[0] == '/' && FirstSegment(path) == TermSegment(term)
  {
    hide HostText, Lower, Find, FirstSegment, PathOf, QueryOf;
    SegmentText(term);
    NoPath(more);
    if TermSegment(term) != "" {
      PathAfter("/" + TermSegment(term), more);
      SegmentCut(TermSegment(term), PathOf(more));
    } else {
      assert "" + more == more;
    }
  }

  lemma NoPath(more: string)
    ensures more == "" || more[0] == '?' ==> PathOf(more) == ""
    ensures PathOf(more) <= more
  {
  }

  lemma PathAfter(front: string, more: string)
    requires '?' !in front && '#' !in front
    ensures PathOf(front + more) == front + PathOf(more)
  {
    var n := Find(more, {'?', '#'});
    FindIs(front + more, {'?', '#'}, |front| + n);
    assert (front + more)[..|front| + n] == front + more[..n];
  }

  lemma SegmentCut(segment: string, rest: string)
    requires '/' !in segment && (rest != "" ==> rest[0] == '/')
    ensures FirstSegment("/" + segment + rest) == segment
  {
    var path := "/" + segment + rest;
    assert path[1..] == segment + rest;
    FindAfter(segment, rest, {'/'});
  }

  lemma LinkReduces(scheme: string, www: string, term: string, more: string)
    requires scheme in {"http", "https"} && www in {"", "www."} && IsTerm(term) && MayFollow(term, more)
    requires Normal(LinkUrl(scheme, www, term, more)).Some?
    ensures Reduce(Normal(LinkUrl(scheme, www, term, more)).value) == Ok(term)
  {
    hide HostText, Lower, NumericIpv4, PathOf, QueryOf, CleanQuery, UpperEscapes, FirstSegment, LinkHost, StillAHost;
    var host, segment := TermHost(term), TermSegment(term);
    var u := LinkUrl(scheme, www, term, more);
    LinkHostParts(www, host);
    HostIsLower(host);
    LinkSegment(term, more);
    SegmentText(term);
    RootHasNoSegment();
    if segment == "" {
      SlashIsUpper();
      LowerTermOf(host, "");
    } else {
      SegmentIgnoresEscapes(u.path);
      LowerTermOf(host, FirstSegment(UpperPath(u.path)));
      LowerIsEmpty(FirstSegment(UpperPath(u.path)));
    }
  }

  lemma HostIsLower(host: string)
    requires HostText(host)
    ensures Lower(host) == host
  {
  }

  lemma RootHasNoSegment()
    ensures FirstSegment("/") == ""
  {
  }

  lemma LowerIsEmpty(s: string)
    ensures Lower(s) == "" <==> s == ""
  {
  }

  /**
   * A stored term comes back from every link to its site: http or https, with `www.` or
   * without, with a query or a longer path. Without the `www.` its host must be one still.
   */
  lemma TermFromLink(scheme: string, www: string, term: string, more: string)
    requires scheme in {"http", "https"} && www in {"", "www."} && IsTerm(term) && MayFollow(term, more)
    ensures UrlMuteTerm(Link(scheme, www, term, more)) ==
      if NormaliseUrl(Link(scheme, www, term, more)).None? then Err(NotAUrl) else Ok(term)
    ensures '?' !in more && |Link(scheme, www, term, more)| <= MAX_URL_LENGTH ==>
      (NormaliseUrl(Link(scheme, www, term, more)).None? <==> www == "" && !StillAHost(TermHost(term)))
  {
    hide ParseUrl, Normal, Show, IsTerm, MayFollow, LinkUrl, Reduce, StillAHost, UrlMuteTerm, TermHost, Link;
    var link := Link(scheme, www, term, more);
    LinkParses(scheme, www, term, more);
    PrintableText(link);
    LinkStart(scheme, www, term, more);
    LinkWithScheme(link);
    if NormaliseUrl(link).Some? {
      KeyNamesNormal(link);
      LinkReduces(scheme, www, term, more);
    }
    if '?' !in more && |link| <= MAX_URL_LENGTH {
      LinkKey(scheme, www, term, more);
    }
  }

  lemma LinkStart(scheme: string, www: string, term: string, more: string)
    requires scheme in {"http", "https"}
    ensures "http://" <= Lower(Link(scheme, www, term, more)) || "https://" <= Lower(Link(scheme, www, term, more))
    ensures |Link(scheme, www, term, more)| > 0
  {
    var start := scheme + "://";
    LowerConcat(start, www + term + more);
    assert Lower("http://") == "http://" && Lower("https://") == "https://";
    assert "http" + "://" == "http://" && "https" + "://" == "https://";
  }

  lemma LinkKey(scheme: string, www: string, term: string, more: string)
    requires scheme in {"http", "https"} && www in {"", "www."} && IsTerm(term) && MayFollow(term, more)
    requires '?' !in more && |Link(scheme, www, term, more)| <= MAX_URL_LENGTH
    ensures var v := Normal(LinkUrl(scheme, www, term, more));
      && (v.None? <==> www == "" && !StillAHost(TermHost(term)))
      && (v.Some? ==> |Show(v.value)| <= MAX_URL_LENGTH)
  {
    hide HostText, Lower, NumericIpv4, UpperEscapes, LinkHost, StillAHost, FeedHost, PathOf, QueryOf, AllPrintable;
    hide LinkTail, Link, Show, Assembled, CleanQuery, IsTerm, MayFollow, TermHost;
    TermHostIsHost(term);
    LinkHostParts(www, TermHost(term));
    TailIsPath(term, more);
    NoQuery();
    LinkText(scheme, www, term, more);
    TermIsShort(scheme, www, term);
    var tail := LinkTail(term, more);
    PlainLengths(Url(scheme, "", www + TermHost(term), None, UpperPath(tail), ""), tail);
  }

  lemma TermHostIsHost(term: string)
    requires IsTerm(term)
    ensures IsBare(term) && HostText(TermHost(term)) && TermHost(term)[|TermHost(term)| - 1] != '.'
    ensures !StartsWith(TermHost(term), "www.")
  {
  }

  lemma NoQuery()
    ensures CleanQuery("") == ""
  {
  }

  lemma PlainLengths(u: Url, tail: string)
    requires u.port.None? && u.query == ""
    ensures |Show(u)| == |u.scheme| + 3 + |u.host| + |u.path|
    ensures |Assembled(u.scheme, None, u.host, None, tail)| == |u.scheme| + 3 + |u.host| + |tail|
  {
  }

  lemma TailIsPath(term: string, more: string)
    requires IsTerm(term) && MayFollow(term, more) && '?' !in more
    ensures PathOf(LinkTail(term, more)) == LinkTail(term, more) && QueryOf(LinkTail(term, more)) == ""
  {
    hide HostText, Lower, Find;
    SegmentText(term);
    var tail := LinkTail(term, more);
    assert '?' !in tail && '#' !in tail;
    TailReadsBack(tail, "");
    assert tail + QueryText("") == tail;
  }

  lemma TermIsShort(scheme: string, www: string, term: string)
    requires scheme in {"http", "https"} && www in {"", "www."} && IsTerm(term)
    ensures |scheme| + 3 + |www + TermHost(term)| + 1 <= 80
  {
  }

  // --- terms that cannot be saved again -----------------------------------------------

  lemma WwwIsNoNumber(host: string)
    ensures NumericIpv4("www." + host) == None
  {
    var s := "www." + host;
    assert s == "www" + ("." + host);
    FindAfter("www", "." + host, {'.'});
    var parts := Split(s, '.');
    assert parts[0] == "www";
    assert PartValue(parts[0]) == None;
  }

  lemma WwwIsBare(host: string)
    requires HostText(host) && host[|host| - 1] != '.' && |host| <= MAX_MUTED_TERM_LENGTH
    ensures IsBare("www." + host) && TermHost("www." + host) == "www." + host && TermSegment("www." + host) == ""
    ensures '.' in "www." + host && Lower("www." + host) == "www." + host
  {
    hide Lower, Find;
    var long := "www." + host;
    assert long[|long| - 1] == host[|host| - 1] && long[3] == '.';
    WwwStaysLower("www.", host);
    LowerNothing();
    TermShape(long, "");
  }

  lemma LowerNothing()
    ensures Lower("") == ""
  {
  }

  /** Pasting a `www.` host stores what is left of it. */
  lemma WwwIsDropped(host: string)
    requires HostText(host) && host[|host| - 1] != '.' && !StartsWith(host, "www.")
    requires |host| <= MAX_MUTED_TERM_LENGTH
    ensures UrlMuteTerm("www." + host) == Ok(host)
  {
    hide UrlMuteTerm, NumericIpv4, Lower;
    var long := "www." + host;
    WwwIsBare(host);
    WwwIsNoNumber(host);
    ReduceBareText(long);
    assert LinkHost(long) == host;
    assert FirstSegment("/") == "";
    assert UpperPath("") == "/";
    LowerTermOf(host, "");
  }

  /** A host that only counts as one because of its `www.` is stored once and refused ever after. */
  lemma WwwTrap(host: string)
    requires HostText(host) && host[|host| - 1] != '.' && !StartsWith(host, "www.")
    requires |host| <= MAX_MUTED_TERM_LENGTH && !StillAHost(host)
    ensures UrlMuteTerm("www." + host) == Ok(host)
    ensures UrlMuteTerm(host) == Err(NotAUrl)
  {
    WwwIsDropped(host);
    TermShape(host, "");
    SavingATermAgain(host);
  }

  /** `www.com` is stored as `com`, and `com` is not taken back. */
  lemma WwwComIsLost()
    ensures UrlMuteTerm("www.com") == Ok("com") && UrlMuteTerm("com") == Err(NotAUrl)
  {
    assert "www." + "com" == "www.com";
    assert Lower("com") == "com";
    WwwTrap("com");
  }

  lemma NameIsHostText(host: string)
    requires PublicName(host) && Lower(host) == host && LiteralChar(host[|host| - 1]) && LiteralChar(host[0])
    ensures HostText(host) && host[|host| - 1] != '.' && !StartsWith(host, "www.")
  {
    assert host[0] != 'w';
  }

  /** `www.` before any numeric IPv4 form, `www.1.2.3.4` among them. */
  lemma WwwNumberIsLost(address: nat, radices: seq<Radix>, host: string)
    requires address < 0x1_0000_0000 && 2 <= |radices| <= 4
    requires host == Render(address, radices) && |host| <= MAX_MUTED_TERM_LENGTH
    ensures UrlMuteTerm("www." + host) == Ok(host) && UrlMuteTerm(host) == Err(NotAUrl)
  {
    hide Render, NumericIpv4, UrlMuteTerm, PublicName;
    RenderedIsName(address, radices);
    EveryRenderingDecodes(address, radices);
    NameIsHostText(host);
    WwwTrap(host);
  }

  // --- saving the whole list ----------------------------------------------------------

  /** Every entry is reduced; the first refusal rejects them all. */
  function ReduceAll(reduce: string -> Result<string, MuteError>, raws: seq<string>): Result<set<string>, MuteError> {
    if raws == [] then Ok({}) else
      match reduce(raws[0])
      case Err(e) => Err(e)
      case Ok(term) =>
        match ReduceAll(reduce, raws[1..])
        case Err(e) => Err(e)
        case Ok(rest) => Ok({term} + rest)
  }

  /** The replace-the-whole-list save. */
  function SaveMutedUrls(raws: seq<string>): Result<set<string>, MuteError> { ReduceAll(UrlMuteTerm, raws) }

  lemma {:induction false} SavedAreTerms(raws: seq<string>)
    ensures SaveMutedUrls(raws).Ok? ==> forall t :: t in SaveMutedUrls(raws).value ==> IsTerm(t)
  {
    if raws != [] && SaveMutedUrls(raws).Ok? {
      AcceptedTerm(raws[0]);
      SavedAreTerms(raws[1..]);
    }
  }

  lemma {:induction false} ReduceFixed(
      reduce: string -> Result<string, MuteError>, listed: seq<string>, stable: set<string>, error: MuteError)
    requires forall t :: t in listed ==> reduce(t) == if t in stable then Ok(t) else Err(error)
    ensures ReduceAll(reduce, listed) ==
      if forall t :: t in listed ==> t in stable then Ok(set t | t in listed) else Err(error)
  {
    if listed == [] {
      assert (set t | t in listed) == {};
    } else {
      var rest := listed[1..];
      ReduceFixed(reduce, rest, stable, error);
      assert listed[0] in listed && forall t :: t in listed <==> t == listed[0] || t in rest;
      if listed[0] in stable && forall t :: t in rest ==> t in stable {
        assert (set t | t in listed) == {listed[0]} + (set t | t in rest);
      } else {
        assert !(forall t :: t in listed ==> t in stable);
      }
    }
  }

  /** Sending the stored list back keeps it, unless one term in it is a host no longer. */
  lemma ResavingTheList(raws: seq<string>, listed: seq<string>)
    requires SaveMutedUrls(raws).Ok?
    requires forall t :: t in listed <==> t in SaveMutedUrls(raws).value
    ensures SaveMutedUrls(listed) ==
      if forall t :: t in listed ==> StillAHost(TermHost(t)) then SaveMutedUrls(raws) else Err(NotAUrl)
  {
    hide UrlMuteTerm, NumericIpv4, IsTerm, TermHost;
    SavedAreTerms(raws);
    var stable := set t | t in listed && StillAHost(TermHost(t));
    forall t | t in listed
      ensures UrlMuteTerm(t) == if t in stable then Ok(t) else Err(NotAUrl)
    {
      SavingATermAgain(t);
    }
    ReduceFixed(UrlMuteTerm, listed, stable, NotAUrl);
    assert (set t | t in listed) == SaveMutedUrls(raws).value;
  }
}
