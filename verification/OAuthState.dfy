/** OAuth `state` tokens: signed, expiring, redeemable once. */
module OAuthState {
  import opened Text
  import opened Numerals

  const MAX_OUTSTANDING: nat := 4096

  /** The signature (a hex digest, so without dots) and the lifetime in whole seconds. */
  datatype Config = Config(sign: (string, string) -> string, ttl: int)

  ghost predicate SignsWithoutDots(c: Config) {
    forall payload, secret :: '.' !in c.sign(payload, secret)
  }

  /** Nonces not yet redeemed, with the second each expires. */
  type Outstanding = map<string, int>

  /** Whole seconds of a clock reading, cut towards zero. */
  function Seconds(time: real): int {
    if time >= 0.0 then time.Floor else -((-time).Floor)
  }

  function Payload(nonce: string, expires: string): string { nonce + "." + expires }

  function Token(c: Config, nonce: string, expires: string, secret: string): string {
    Payload(nonce, expires) + "." + c.sign(Payload(nonce, expires), secret)
  }

  datatype Claim = Claim(nonce: string, expires: int)

  /** What a token claims, if it is one that was signed. */
  function Claimed(c: Config, token: string, secret: string): Option<Claim> {
    var parts := Split(token, '.');
    if |parts| != 3 then None
    else if parts[2] != c.sign(Payload(parts[0], parts[1]), secret) then None
    else match PyInt(parts[1], 10)
      case None => None
      case Some(expires) => Some(Claim(parts[0], expires))
  }

  function Purged(o: Outstanding, now: real): Outstanding {
    map n | n in o && o[n] as real > now :: o[n]
  }

  ghost predicate IsOldest(o: Outstanding, nonce: string) {
    nonce in o && forall n :: n in o ==> o[nonce] <= o[n]
  }

  /** A nonce is dropped exactly when the store is full, and then one that expires first. */
  ghost predicate Drops(o: Outstanding, purgedAt: real, dropped: Option<string>) {
    var live := Purged(o, purgedAt);
    if |live| >= MAX_OUTSTANDING then dropped.Some? && IsOldest(live, dropped.value) else dropped.None?
  }

  function Issued(
      c: Config, o: Outstanding, nonce: string, at: real, purgedAt: real, dropped: Option<string>): Outstanding
  {
    var live := Purged(o, purgedAt);
    (if dropped.Some? then live - {dropped.value} else live)[nonce := Seconds(at) + c.ttl]
  }

  /** What issuing a nonce may leave: any of the states that expire first can be the one dropped. */
  ghost predicate MayBecome(c: Config, o: Outstanding, after: Outstanding, nonce: string, at: real, purgedAt: real) {
    exists dropped: Option<string> ::
      Drops(o, purgedAt, dropped) && after == Issued(c, o, nonce, at, purgedAt, dropped)
  }

  predicate Redeems(c: Config, o: Outstanding, token: string, secret: string, at: real, purgedAt: real) {
    var claim := Claimed(c, token, secret);
    claim.Some? && claim.value.expires as real > at && claim.value.nonce in Purged(o, purgedAt)
  }

  function Consumed(c: Config, o: Outstanding, token: string, secret: string, at: real, purgedAt: real): Outstanding {
    var claim := Claimed(c, token, secret);
    if claim.Some? && claim.value.expires as real > at then Purged(o, purgedAt) - {claim.value.nonce} else o
  }

  class StateStore {
    const config: Config
    var outstanding: Outstanding

    constructor (config: Config)
      ensures this.config == config && outstanding == map[]
    {
      this.config := config;
      outstanding := map[];
    }

    /** `at` and `purgedAt` are the two readings of the clock. */
    method Issue(nonce: string, secret: string, at: real, purgedAt: real) returns (token: string)
      modifies this
      ensures token == Token(config, nonce, Decimal(Seconds(at) + config.ttl), secret)
      ensures MayBecome(config, old(outstanding), outstanding, nonce, at, purgedAt)
    {
      hide Decimal;
      var expires := Seconds(at) + config.ttl;
      Purge(purgedAt);
      ghost var dropped: Option<string> := None;
      if |outstanding| >= MAX_OUTSTANDING {
        var oldest := Oldest();
        dropped := Some(oldest);
        outstanding := outstanding - {oldest};
      }
      outstanding := outstanding[nonce := expires];
      assert Drops(old(outstanding), purgedAt, dropped)
        && outstanding == Issued(config, old(outstanding), nonce, at, purgedAt, dropped);
      var payload := Payload(nonce, Decimal(expires));
      token := payload + "." + config.sign(payload, secret);
    }

    method Consume(token: string, secret: string, at: real, purgedAt: real) returns (redeemed: bool)
      modifies this
      ensures redeemed == Redeems(config, old(outstanding), token, secret, at, purgedAt)
      ensures outstanding == Consumed(config, old(outstanding), token, secret, at, purgedAt)
    {
      hide PyInt, Split;
      var parts := Split(token, '.');
      if |parts| != 3 {
        return false;
      }
      var nonce, expiresRaw, signature := parts[0], parts[1], parts[2];
      if signature != config.sign(Payload(nonce, expiresRaw), secret) {
        return false;
      }
      match PyInt(expiresRaw, 10) {
        case None => return false;
        case Some(expires) =>
          if expires as real <= at {
            return false;
          }
          Purge(purgedAt);
          redeemed := nonce in outstanding;
          outstanding := outstanding - {nonce};
      }
    }

    method Reset()
      modifies this
      ensures outstanding == map[]
    {
      outstanding := map[];
    }

    /** Lists what has expired, then deletes it key by key. */
    method Purge(now: real)
      modifies this
      ensures outstanding == Purged(old(outstanding), now)
    {
      ghost var was := outstanding;
      var expired := set n | n in outstanding && outstanding[n] as real <= now;
      while expired != {}
        invariant outstanding.Keys <= was.Keys
        invariant forall n :: n in was ==> (n !in outstanding <==> was[n] as real <= now && n !in expired)
        invariant forall n :: n in outstanding ==> outstanding[n] == was[n]
        invariant forall n :: n in expired ==> n in was && was[n] as real <= now
        decreases expired
      {
        var n :| n in expired;
        expired := expired - {n};
        outstanding := outstanding - {n};
      }
    }

    method Oldest() returns (oldest: string)
      requires outstanding != map[]
      ensures IsOldest(outstanding, oldest)
    {
      var rest := outstanding.Keys;
      assert exists n :: n in rest;
      oldest :| oldest in rest;
      while rest != {}
        invariant rest <= outstanding.Keys && oldest in outstanding
        invariant forall n :: n in outstanding && n !in rest ==> outstanding[oldest] <= outstanding[n]
        decreases rest
      {
        var n :| n in rest;
        rest := rest - {n};
        if outstanding[n] < outstanding[oldest] {
          oldest := n;
        }
      }
    }
  }

  // --- what a token says --------------------------------------------------------------

  lemma TokenParts(c: Config, nonce: string, expires: string, secret: string)
    requires '.' !in nonce && '.' !in expires && SignsWithoutDots(c)
    ensures Split(Token(c, nonce, expires, secret), '.')
      == [nonce, expires, c.sign(Payload(nonce, expires), secret)]
  {
    var parts := [nonce, expires, c.sign(Payload(nonce, expires), secret)];
    SplitJoin(parts, '.');
    assert Join(parts, '.') == Token(c, nonce, expires, secret) by { JoinThree(parts[0], parts[1], parts[2]); }
  }

  lemma JoinThree(a: string, b: string, d: string)
    ensures Join([a, b, d], '.') == a + "." + b + "." + d
  {
    assert [a, b, d][1..] == [b, d] && [b, d][1..] == [d];
    assert Join([d], '.') == d && Join([b, d], '.') == b + "." + d;
  }

  /** The token is the claim, its expiry written as `raw`, and their signature. */
  ghost predicate Spells(c: Config, token: string, secret: string, claim: Claim, raw: string) {
    && '.' !in claim.nonce && '.' !in raw && PyInt(raw, 10) == Some(claim.expires)
    && token == Token(c, claim.nonce, raw, secret)
  }

  /** A claim is read off exactly the signed tokens, whatever else is sent. */
  lemma ClaimedIff(c: Config, token: string, secret: string, claim: Claim)
    requires SignsWithoutDots(c)
    ensures Claimed(c, token, secret) == Some(claim) <==>
      exists raw :: Spells(c, token, secret, claim, raw)
  {
    hide PyInt, Split, Join;
    if raw :| Spells(c, token, secret, claim, raw) {
      TokenParts(c, claim.nonce, raw, secret);
    }
    if Claimed(c, token, secret) == Some(claim) {
      var parts := Split(token, '.');
      JoinSplit(token, '.');
      assert parts == [parts[0], parts[1], parts[2]];
      JoinThree(parts[0], parts[1], parts[2]);
      assert parts[0] in parts && parts[1] in parts;
      assert Spells(c, token, secret, claim, parts[1]);
    }
  }

  /** An issued token, read back, claims the nonce and expiry it was issued with. */
  lemma IssuedIsClaimed(c: Config, nonce: string, expires: int, secret: string)
    requires '.' !in nonce && SignsWithoutDots(c)
    ensures Claimed(c, Token(c, nonce, Decimal(expires), secret), secret) == Some(Claim(nonce, expires))
  {
    hide PyInt, Split, Decimal;
    DecimalText(expires);
    DecimalReadsBack(expires);
    TokenParts(c, nonce, Decimal(expires), secret);
  }

  // --- runs -----------------------------------------------------------------------------

  datatype Event =
    | Issue(nonce: string, at: real, purgedAt: real, dropped: Option<string>)
    | Consume(token: string, secret: string, at: real, purgedAt: real)
    | Reset

  function After(c: Config, o: Outstanding, event: Event): Outstanding {
    match event
    case Issue(nonce, at, purgedAt, dropped) => Issued(c, o, nonce, at, purgedAt, dropped)
    case Consume(token, secret, at, purgedAt) => Consumed(c, o, token, secret, at, purgedAt)
    case Reset => map[]
  }

  /** The store after a run of events, the first of them on an empty store. */
  function Run(c: Config, run: seq<Event>): Outstanding {
    if run == [] then map[] else After(c, Run(c, run[..|run| - 1]), run[|run| - 1])
  }

  /** Every issue drops what the store would drop. */
  ghost predicate IsRun(c: Config, run: seq<Event>) {
    run != [] ==>
      var front, last := run[..|run| - 1], run[|run| - 1];
      IsRun(c, front) && (last.Issue? ==> Drops(Run(c, front), last.purgedAt, last.dropped))
  }

  function Issues(run: seq<Event>, nonce: string): nat {
    if run == [] then 0 else
      Issues(run[..|run| - 1], nonce) + if run[|run| - 1].Issue? && run[|run| - 1].nonce == nonce then 1 else 0
  }

  /** The event redeems the nonce. */
  predicate RedeemsNonce(c: Config, o: Outstanding, event: Event, nonce: string) {
    && event.Consume? && Redeems(c, o, event.token, event.secret, event.at, event.purgedAt)
    && Claimed(c, event.token, event.secret).value.nonce == nonce
  }

  function Redemptions(c: Config, run: seq<Event>, nonce: string): nat {
    if run == [] then 0 else
      var front, last := run[..|run| - 1], run[|run| - 1];
      Redemptions(c, front, nonce) + if RedeemsNonce(c, Run(c, front), last, nonce) then 1 else 0
  }

  lemma StepConserves(c: Config, o: Outstanding, event: Event, nonce: string)
    ensures RedeemsNonce(c, o, event, nonce) ==> nonce in o && nonce !in After(c, o, event)
    ensures nonce in After(c, o, event) && nonce !in o ==> event.Issue? && event.nonce == nonce
  {
    hide Claimed;
  }

  /** A state is redeemed no more often than its nonce was issued: once, nonces being fresh. */
  lemma {:induction false} RedeemedAtMostOnce(c: Config, run: seq<Event>, nonce: string)
    ensures Redemptions(c, run, nonce) + (if nonce in Run(c, run) then 1 else 0) <= Issues(run, nonce)
  {
    hide After, RedeemsNonce;
    if run != [] {
      var front := run[..|run| - 1];
      RedeemedAtMostOnce(c, front, nonce);
      StepConserves(c, Run(c, front), run[|run| - 1], nonce);
    }
  }

  lemma PurgedSize(o: Outstanding, now: real)
    ensures |Purged(o, now)| <= |o|
  {
    Sizes(Purged(o, now).Keys, o.Keys);
    assert |Purged(o, now).Keys| == |Purged(o, now)| && |o.Keys| == |o|;
  }

  lemma {:induction false} Sizes(a: set<string>, b: set<string>)
    requires a <= b
    ensures |a| <= |b|
  {
    if a != {} {
      var x :| x in a;
      Sizes(a - {x}, b - {x});
    }
  }

  lemma IssuedSize(c: Config, o: Outstanding, nonce: string, at: real, purgedAt: real, dropped: Option<string>)
    requires |o| <= MAX_OUTSTANDING && Drops(o, purgedAt, dropped)
    ensures |Issued(c, o, nonce, at, purgedAt, dropped)| <= MAX_OUTSTANDING
  {
    hide Purged;
    var live := Purged(o, purgedAt);
    PurgedSize(o, purgedAt);
    if dropped.Some? {
      TakenSize(live, dropped.value);
      PutSize(live - {dropped.value}, nonce, Seconds(at) + c.ttl);
    } else {
      PutSize(live, nonce, Seconds(at) + c.ttl);
    }
  }

  lemma TakenSize(o: Outstanding, nonce: string)
    requires nonce in o
    ensures |o - {nonce}| == |o| - 1
  {
    assert (o - {nonce}).Keys == o.Keys - {nonce};
    assert |(o - {nonce}).Keys| == |o.Keys| - 1;
  }

  lemma PutSize(o: Outstanding, nonce: string, expires: int)
    ensures |o[nonce := expires]| <= |o| + 1
  {
    Sizes(o[nonce := expires].Keys, o.Keys + {nonce});
    assert |o.Keys + {nonce}| <= |o.Keys| + 1;
  }

  /** The store never holds more than its bound. */
  lemma {:induction false} NeverOverfull(c: Config, run: seq<Event>)
    requires IsRun(c, run)
    ensures |Run(c, run)| <= 4096
  {
    hide Issued, Drops, Claimed, Purged;
    if run != [] {
      var front, last := run[..|run| - 1], run[|run| - 1];
      NeverOverfull(c, front);
      match last {
        case Issue(nonce, at, purgedAt, dropped) =>
          IssuedSize(c, Run(c, front), nonce, at, purgedAt, dropped);
        case Consume(token, secret, at, purgedAt) =>
          PurgedSize(Run(c, front), purgedAt);
          var claim := Claimed(c, token, secret);
          if claim.Some? {
            var live := Purged(Run(c, front), purgedAt);
            Sizes((live - {claim.value.nonce}).Keys, live.Keys);
          }
        case Reset =>
      }
    }
  }

  // --- what an honest user gets ---------------------------------------------------------

  /** The last clock reading of a run. */
  function Clock(run: seq<Event>): Option<real> {
    if run == [] then None
    else if run[|run| - 1].Reset? then Clock(run[..|run| - 1])
    else Some(run[|run| - 1].purgedAt)
  }

  /** Clock readings never go back. */
  predicate Ordered(run: seq<Event>) {
    run != [] ==>
      var front, last := run[..|run| - 1], run[|run| - 1];
      && Ordered(front)
      && (last.Reset? || ((Clock(front).Some? ==> last.at >= Clock(front).value) && last.purgedAt >= last.at))
  }

  /** States issued to expire at `expires` or later. */
  function IssuedSince(c: Config, run: seq<Event>, expires: int): nat {
    if run == [] then 0 else
      var last := run[|run| - 1];
      IssuedSince(c, run[..|run| - 1], expires) + if last.Issue? && Seconds(last.at) + c.ttl >= expires then 1 else 0
  }

  function AtLeast(o: Outstanding, expires: int): set<string> {
    set n | n in o && o[n] >= expires
  }

  lemma {:induction false} OutstandingWereIssued(c: Config, run: seq<Event>, expires: int)
    ensures |AtLeast(Run(c, run), expires)| <= IssuedSince(c, run, expires)
  {
    hide Claimed;
    if run == [] {
      assert AtLeast(map[], expires) == {};
    } else {
      var front, last := run[..|run| - 1], run[|run| - 1];
      OutstandingWereIssued(c, front, expires);
      var before, after := AtLeast(Run(c, front), expires), AtLeast(Run(c, run), expires);
      if last.Issue? && Seconds(last.at) + c.ttl >= expires {
        Sizes(after, before + {last.nonce});
      } else {
        Sizes(after, before);
      }
    }
  }

  lemma {:induction false} ClockCovers(run: seq<Event>, i: nat)
    requires Ordered(run) && i < |run| && !run[i].Reset?
    ensures Clock(run).Some? && Clock(run).value >= run[i].at
  {
    if i < |run| - 1 {
      ClockCovers(run[..|run| - 1], i);
    }
  }

  /** The fraction is cut off: down from a reading at or after the epoch, up from one before it. */
  lemma SecondsTruncate(time: real)
    ensures time >= 0.0 ==> Seconds(time) as real <= time < (Seconds(time) + 1) as real
    ensures time < 0.0 ==> (Seconds(time) - 1) as real < time <= Seconds(time) as real
  {
    if time < 0.0 {
      var n := (-time).Floor;
      assert n as real <= -time < (n + 1) as real;
    }
  }

  lemma SecondsGrow(a: real, b: real)
    requires a <= b
    ensures Seconds(a) <= Seconds(b)
  {
  }

  lemma {:induction false} IssuesAt(run: seq<Event>, i: nat, nonce: string)
    requires i < |run| && run[i].Issue? && run[i].nonce == nonce
    ensures Issues(run, nonce) >= 1
  {
    if i < |run| - 1 {
      IssuesAt(run[..|run| - 1], i, nonce);
    }
  }

  /** What is dropped to make room had a full store's worth of states that expire no sooner. */
  lemma DroppedIsCrowdedOut(o: Outstanding, purgedAt: real, dropped: Option<string>)
    requires Drops(o, purgedAt, dropped) && dropped.Some?
    ensures dropped.value in o && |AtLeast(o, o[dropped.value])| >= MAX_OUTSTANDING
  {
    var live := Purged(o, purgedAt);
    Sizes(live.Keys, AtLeast(o, o[dropped.value]));
    assert |live.Keys| == |live|;
  }

  /** The state issued at event `i` has a fresh nonce and nobody redeemed it or emptied the store. */
  ghost predicate Untouched(c: Config, run: seq<Event>, i: nat)
    requires i < |run| && run[i].Issue?
  {
    && Issues(run, run[i].nonce) == 1 && Redemptions(c, run, run[i].nonce) == 0
    && forall j :: i < j < |run| ==> !run[j].Reset?
  }

  lemma UntouchedBefore(c: Config, run: seq<Event>, i: nat)
    requires i < |run| - 1 && run[i].Issue? && Untouched(c, run, i)
    ensures Untouched(c, run[..|run| - 1], i) && !run[|run| - 1].Reset?
    ensures run[|run| - 1].Issue? ==> run[|run| - 1].nonce != run[i].nonce
    ensures !RedeemsNonce(c, Run(c, run[..|run| - 1]), run[|run| - 1], run[i].nonce)
  {
    hide RedeemsNonce, Run;
    IssuesAt(run[..|run| - 1], i, run[i].nonce);
  }

  /** An untouched state, unexpired and not crowded out, is still outstanding. */
  lemma {:induction false} UntouchedStays(c: Config, run: seq<Event>, i: nat)
    requires i < |run| && run[i].Issue? && Untouched(c, run, i) && IsRun(c, run) && Ordered(run)
    requires Clock(run).Some? && Clock(run).value < (Seconds(run[i].at) + c.ttl) as real
    requires IssuedSince(c, run, Seconds(run[i].at) + c.ttl) <= 4096
    ensures run[i].nonce in Run(c, run) && Run(c, run)[run[i].nonce] == Seconds(run[i].at) + c.ttl
  {
    hide Untouched, Drops, AtLeast, Redemptions, Issues, Claimed;
    var front, last := run[..|run| - 1], run[|run| - 1];
    if i < |run| - 1 {
      var expires := Seconds(run[i].at) + c.ttl;
      UntouchedBefore(c, run, i);
      ClockCovers(front, i);
      UntouchedStays(c, front, i);
      if last.Issue? && last.dropped == Some(run[i].nonce) {
        DroppedIsCrowdedOut(Run(c, front), last.purgedAt, last.dropped);
        OutstandingWereIssued(c, front, expires);
        SecondsGrow(run[i].at, last.at);
      }
    }
  }

  function Expiry(c: Config, issue: Event): int
    requires issue.Issue?
  {
    Seconds(issue.at) + c.ttl
  }

  function IssuedToken(c: Config, issue: Event, secret: string): string
    requires issue.Issue?
  {
    Token(c, issue.nonce, Decimal(Expiry(c, issue)), secret)
  }

  /**
   * A user who comes back with an issued state before it expires is let in: nothing but its
   * redemption, a reset, or 4096 later states takes it away.
   */
  lemma IssuedStateRedeems(c: Config, run: seq<Event>, i: nat, secret: string, at: real, purgedAt: real)
    requires i < |run| && run[i].Issue? && Untouched(c, run, i) && IsRun(c, run) && Ordered(run)
    requires SignsWithoutDots(c) && '.' !in run[i].nonce
    requires Ordered(run + [Consume(IssuedToken(c, run[i], secret), secret, at, purgedAt)])
    requires purgedAt < Expiry(c, run[i]) as real
    requires IssuedSince(c, run, Expiry(c, run[i])) <= 4096
    ensures Redeems(c, Run(c, run), IssuedToken(c, run[i], secret), secret, at, purgedAt)
  {
    hide Claimed, IsRun, Run, Untouched, Issued, IssuedSince, Token, Decimal;
    var comeback := Consume(IssuedToken(c, run[i], secret), secret, at, purgedAt);
    assert (run + [comeback])[..|run|] == run;
    ClockCovers(run, i);
    UntouchedStays(c, run, i);
    IssuedIsClaimed(c, run[i].nonce, Expiry(c, run[i]), secret);
  }
}
