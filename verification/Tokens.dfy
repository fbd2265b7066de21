/** Tokens carry an expiry in whole seconds inside the signed claims, and are also kept in a cache
    with a deadline in nanoseconds that a cleaner enforces. */
module Tokens {
  import opened Iam
  import opened Cache

  const SECOND := 1_000_000_000

  datatype TokenType = AccessToken | RefreshToken | StaticToken

  /** `expiresAt` is zero when the token does not expire. Times are in seconds. */
  datatype Claims = Claims(user: string, tokenType: TokenType, issuedAt: int, notBefore: int, expiresAt: int)

  /** Durations are in nanoseconds. `inclusive` says whether the verifying library still accepts a
      token in the second named by its expiry; section 4.1.4 of RFC 7519 does not. */
  datatype Options = Options(maxAge: int, inactivityTimeout: nat, skew: nat, inclusive: bool)

  /** Signing claims, and reading them back out of a token whose signature is right. */
  datatype Keyring = Keyring(sign: Claims -> string, open: string -> Option<Claims>)

  /** Signing is idealised: a token opens to exactly the claims it was signed for, anything else does
      not open, and tokens contain no colon. */
  ghost predicate Sound(keys: Keyring) {
    && (forall c, t :: keys.open(t) == Some(c) <==> keys.sign(c) == t)
    && (forall c :: ':' !in keys.sign(c))
  }

  lemma SignInjective(keys: Keyring, c: Claims, d: Claims)
    requires Sound(keys) && keys.sign(c) == keys.sign(d)
    ensures c == d
  {
    assert keys.open(keys.sign(c)) == Some(c) && keys.open(keys.sign(d)) == Some(d);
  }

  // ---- claims ----

  function NewClaims(user: string, tokenType: TokenType, expiresIn: int, o: Options, now: nat): Claims {
    var issuedAt := now / SECOND - o.skew / SECOND;
    Claims(user, tokenType, issuedAt, issuedAt, if expiresIn > 0 then issuedAt + expiresIn / SECOND else 0)
  }

  predicate ExpiryHolds(c: Claims, o: Options, now: nat) {
    c.expiresAt == 0 || now / SECOND < c.expiresAt || (o.inclusive && now / SECOND == c.expiresAt)
  }

  predicate ClaimsValid(c: Claims, o: Options, now: nat) {
    && ExpiryHolds(c, o, now)
    && (c.issuedAt == 0 || now / SECOND >= c.issuedAt)
    && (c.notBefore == 0 || now / SECOND >= c.notBefore)
  }

  function CacheKey(user: string, token: string): string {
    "ai:user:" + user + ":token:" + token
  }

  // ---- issuing and verifying ----

  /** One issue: configured lifetimes or given ones (age, inactivity timeout), and the instants at
      which the clock is read for the two tokens and the two cache entries. */
  datatype Issue = Issue(user: string, given: Option<(int, int)>, accessAt: nat, refreshAt: nat, cacheAccessAt: nat,
                         cacheRefreshAt: nat) {
    function Age(o: Options): int {
      if given.Some? then given.value.0 else o.maxAge
    }

    function RefreshAge(o: Options): int {
      Age(o) + if given.Some? then given.value.1 else o.inactivityTimeout
    }

    function Access(o: Options): Claims {
      NewClaims(user, if given.Some? then StaticToken else AccessToken, Age(o), o, accessAt)
    }

    function Refresh(o: Options): Claims {
      NewClaims(user, RefreshToken, RefreshAge(o), o, refreshAt)
    }

    predicate InOrder() {
      accessAt <= refreshAt <= cacheAccessAt <= cacheRefreshAt
    }
  }

  function Cached(s: Store, c: Claims, duration: int, at: nat, keys: Keyring): Store {
    Apply(s, Event(at, Set(CacheKey(c.user, keys.sign(c)), keys.sign(c), duration)))
  }

  function AfterIssue(s: Store, i: Issue, o: Options, keys: Keyring): Store {
    if i.Age(o) > 0 then
      Cached(Cached(s, i.Access(o), i.Age(o), i.cacheAccessAt, keys), i.Refresh(o), i.RefreshAge(o), i.cacheRefreshAt,
             keys)
    else s
  }

  predicate Accepts(s: Store, token: string, o: Options, keys: Keyring, now: nat) {
    match keys.open(token)
    case None => false
    case Some(c) =>
      && ClaimsValid(c, o, now)
      && (o.maxAge == 0 || c.tokenType == StaticToken || CacheKey(c.user, token) in s)
  }

  class TokenOperator {
    const cache: InMemoryCache
    const options: Options
    const keys: Keyring

    constructor (cache: InMemoryCache, options: Options, keys: Keyring)
      ensures this.cache == cache && this.options == options && this.keys == keys
    {
      this.cache, this.options, this.keys := cache, options, keys;
    }

    method CacheToken(user: string, token: string, duration: int, now: nat)
      modifies cache
      ensures cache.store == Apply(old(cache.store), Event(now, Set(CacheKey(user, token), token, duration)))
    {
      cache.SetValue(CacheKey(user, token), token, duration, now);
    }

    method IssueTo(i: Issue) returns (accessToken: string, refreshToken: string)
      modifies cache
      ensures accessToken == keys.sign(i.Access(options)) && refreshToken == keys.sign(i.Refresh(options))
      ensures cache.store == AfterIssue(old(cache.store), i, options, keys)
    {
      var accessTokenExpiresIn: int := options.maxAge;
      var refreshTokenExpiresIn: int := accessTokenExpiresIn + options.inactivityTimeout;
      var createTokenType := AccessToken;
      if i.given.Some? {
        accessTokenExpiresIn := i.given.value.0;
        refreshTokenExpiresIn := accessTokenExpiresIn + i.given.value.1;
        createTokenType := StaticToken;
      }
      accessToken := keys.sign(NewClaims(i.user, createTokenType, accessTokenExpiresIn, options, i.accessAt));
      refreshToken := keys.sign(NewClaims(i.user, RefreshToken, refreshTokenExpiresIn, options, i.refreshAt));
      if accessTokenExpiresIn > 0 {
        CacheToken(i.user, accessToken, accessTokenExpiresIn, i.cacheAccessAt);
        CacheToken(i.user, refreshToken, refreshTokenExpiresIn, i.cacheRefreshAt);
      }
    }

    method Verify(token: string, now: nat) returns (ok: bool)
      ensures ok == Accepts(cache.store, token, options, keys, now)
    {
      var claims := keys.open(token);
      if claims == None {
        return false;
      }
      var c := claims.value;
      if !ClaimsValid(c, options, now) {
        return false;
      }
      if options.maxAge == 0 || c.tokenType == StaticToken {
        return true;
      }
      ok := cache.Exists([CacheKey(c.user, token)]);
    }
  }

  // ---- the two deadlines ----

  /** The instant at which claims with an expiry stop being valid. */
  function Bound(c: Claims, o: Options): int {
    (c.expiresAt + if o.inclusive then 1 else 0) * SECOND
  }

  lemma BoundIsExpiry(c: Claims, o: Options, now: nat)
    requires c.expiresAt != 0
    ensures ExpiryHolds(c, o, now) <==> now < Bound(c, o)
  {}

  /** A whole second of skew makes up for rounding, where the library needs it. */
  predicate SkewSuffices(o: Options) {
    !o.inclusive || o.skew >= SECOND
  }

  /** Without the skew only a lifetime a nanosecond short of a whole second loses too little to rounding. */
  predicate Fits(lifetime: int, o: Options) {
    SkewSuffices(o) || lifetime % SECOND == SECOND - 1
  }

  /** Claims never hold once the entry cached after issuing them can be swept. */
  lemma DeadlineCovers(user: string, tokenType: TokenType, lifetime: int, o: Options, issued: nat, cached: nat)
    requires lifetime > 0 && issued <= cached && Fits(lifetime, o)
    ensures Bound(NewClaims(user, tokenType, lifetime, o, issued), o) <= cached + lifetime + 1
  {
    assert (issued / SECOND) * SECOND <= issued;
    assert (lifetime / SECOND) * SECOND + lifetime % SECOND == lifetime;
  }

  /** A colon-free token at the end makes cache keys injective. */
  lemma KeyInjective(u: string, s: string, v: string, t: string)
    requires CacheKey(u, s) == CacheKey(v, t) && ':' !in s && ':' !in t
    ensures u == v && s == t
  {
    var k := CacheKey(u, s);
    assert k == ("ai:user:" + u + ":token:") + s == ("ai:user:" + v + ":token:") + t;
    assert k[|k| - |s| - 1] == ':' && k[|k| - |t| - 1] == ':';
    assert |s| == |t|;
    assert s == k[|k| - |s|..] == t;
    assert |u| == |v|;
    assert u == k[8..8 + |u|] == v;
  }

  // ---- runs ----

  /** One cache write of an issue: the instant at which its claims were made, and the one at which it
      acts. Anything may happen in between and between the two writes of an issue. */
  datatype Write = Write(user: string, tokenType: TokenType, lifetime: int, issued: nat, at: nat) {
    function Signed(o: Options): Claims {
      NewClaims(user, tokenType, lifetime, o, issued)
    }
  }

  datatype Event = Written(w: Write) | Swept(at: nat)

  function At(e: Event): nat {
    if e.Written? then e.w.at else e.at
  }

  function Step(s: Store, e: Event, o: Options, keys: Keyring): Store {
    match e
    case Written(w) => Cached(s, w.Signed(o), w.lifetime, w.at, keys)
    case Swept(at) => Apply(s, Cache.Event(at, Clean))
  }

  function Run(s: Store, events: seq<Event>, o: Options, keys: Keyring): Store
    decreases |events|
  {
    if events == [] then s else Run(Step(s, events[0], o, keys), events[1..], o, keys)
  }

  /** Events in the order in which they act, from some instant to another. */
  predicate Ordered(from: nat, events: seq<Event>, to: nat)
    decreases |events|
  {
    if events == [] then from <= to
    else
      && from <= At(events[0]) && (events[0].Written? ==> events[0].w.issued <= events[0].w.at)
      && Ordered(At(events[0]), events[1..], to)
  }

  /** The writes of an issue. */
  function IssueWrites(i: Issue, o: Options): seq<Event> {
    var accessType := if i.given.Some? then StaticToken else AccessToken;
    if i.Age(o) > 0 then
      [Written(Write(i.user, accessType, i.Age(o), i.accessAt, i.cacheAccessAt)),
       Written(Write(i.user, RefreshToken, i.RefreshAge(o), i.refreshAt, i.cacheRefreshAt))]
    else []
  }

  lemma RunOfTwo(s: Store, e: Event, f: Event, o: Options, keys: Keyring)
    ensures Run(s, [e, f], o, keys) == Step(Step(s, e, o, keys), f, o, keys)
  {
    assert [e, f][1..] == [f] && [f][1..] == [];
    assert Run(Step(s, e, o, keys), [f], o, keys) == Step(Step(s, e, o, keys), f, o, keys);
  }

  /** An issue that nothing comes between is its two writes. */
  lemma IssueIsWrites(s: Store, i: Issue, o: Options, keys: Keyring)
    ensures AfterIssue(s, i, o, keys) == Run(s, IssueWrites(i, o), o, keys)
  {
    if i.Age(o) > 0 {
      RunOfTwo(s, IssueWrites(i, o)[0], IssueWrites(i, o)[1], o, keys);
    }
  }

  predicate Configured(w: Write, o: Options) {
    || (w.tokenType == AccessToken && w.lifetime == o.maxAge)
    || (w.tokenType == RefreshToken && w.lifetime == o.maxAge + o.inactivityTimeout)
  }

  predicate Given(w: Write) {
    w.tokenType == RefreshToken || (w.tokenType == StaticToken && w.lifetime > 0)
  }

  ghost predicate PartOf(w: Write, i: Issue, o: Options) {
    i.InOrder() && Written(w) in IssueWrites(i, o)
  }

  /** Those are exactly the writes of issues with configured and with given lifetimes. */
  lemma WritesOfIssues(w: Write, o: Options)
    requires o.maxAge > 0 && w.issued <= w.at
    ensures Configured(w, o) <==> exists i :: PartOf(w, i, o) && i.given == None
    ensures Given(w) <==> exists i :: PartOf(w, i, o) && i.given.Some?
  {
    if w.tokenType == RefreshToken {
      assert PartOf(w, Issue(w.user, None, 0, w.issued, w.at, w.at), o) <==> Configured(w, o);
      assert PartOf(w, Issue(w.user, Some((1, w.lifetime - 1)), 0, w.issued, w.at, w.at), o);
    } else {
      assert PartOf(w, Issue(w.user, None, w.issued, w.issued, w.at, w.at), o) <==> Configured(w, o);
      assert PartOf(w, Issue(w.user, Some((w.lifetime, 0)), w.issued, w.issued, w.at, w.at), o) <==> Given(w);
    }
  }

  /** As long as the claims hold, the cache has the token, and no sweep can take it before. */
  ghost predicate Covered(s: Store, c: Claims, o: Options, keys: Keyring, now: nat) {
    now < Bound(c, o) ==>
      var key := CacheKey(c.user, keys.sign(c));
      key in s && (s[key].neverExpire || Bound(c, o) <= s[key].expiredAt + 1)
  }

  ghost predicate AllFit(events: seq<Event>, o: Options) {
    forall e :: e in events && e.Written? && e.w.lifetime > 0 ==> Fits(e.w.lifetime, o)
  }

  /** Caching a token covers it, and uncovers no other. */
  lemma CachedCovers(s: Store, c: Claims, o: Options, keys: Keyring, now: nat, w: Write)
    requires Sound(keys) && (w.lifetime > 0 ==> Fits(w.lifetime, o)) && c.expiresAt != 0
    requires now <= w.at && w.issued <= w.at
    requires Covered(s, c, o, keys, now) || (w.lifetime > 0 && c == w.Signed(o))
    ensures Covered(Cached(s, w.Signed(o), w.lifetime, w.at, keys), c, o, keys, w.at)
  {
    var d := w.Signed(o);
    if CacheKey(c.user, keys.sign(c)) == CacheKey(d.user, keys.sign(d)) {
      KeyInjective(c.user, keys.sign(c), d.user, keys.sign(d));
      SignInjective(keys, c, d);
      assert w.lifetime > 0;
      DeadlineCovers(w.user, w.tokenType, w.lifetime, o, w.issued, w.at);
    }
  }

  lemma {:induction false} CoveredStays(s: Store, c: Claims, o: Options, keys: Keyring,
                                        from: nat, events: seq<Event>, to: nat)
    requires Sound(keys) && AllFit(events, o) && c.expiresAt != 0
    requires Covered(s, c, o, keys, from) && Ordered(from, events, to)
    ensures Covered(Run(s, events, o, keys), c, o, keys, to)
    decreases |events|
  {
    if events != [] {
      var e := events[0];
      if e.Written? {
        assert e in events;
        CachedCovers(s, c, o, keys, from, e.w);
      }
      CoveredStays(Step(s, e, o, keys), c, o, keys, At(e), events[1..], to);
    }
  }

  lemma {:induction false} WrittenIsCovered(s: Store, o: Options, keys: Keyring,
                                            from: nat, events: seq<Event>, to: nat, k: nat)
    requires Sound(keys) && AllFit(events, o) && Ordered(from, events, to)
    requires k < |events| && events[k].Written? && events[k].w.lifetime > 0 && events[k].w.Signed(o).expiresAt != 0
    ensures Covered(Run(s, events, o, keys), events[k].w.Signed(o), o, keys, to)
    decreases |events|
  {
    var e := events[0];
    assert e in events;
    if k == 0 {
      CachedCovers(s, e.w.Signed(o), o, keys, from, e.w);
      CoveredStays(Step(s, e, o, keys), e.w.Signed(o), o, keys, At(e), events[1..], to);
    } else {
      WrittenIsCovered(Step(s, e, o, keys), o, keys, At(e), events[1..], to, k - 1);
    }
  }

  lemma {:induction false} OrderedSpans(from: nat, events: seq<Event>, to: nat)
    requires Ordered(from, events, to)
    ensures from <= to
    decreases |events|
  {
    if events != [] {
      OrderedSpans(At(events[0]), events[1..], to);
    }
  }

  lemma {:induction false} OrderedAt(from: nat, events: seq<Event>, to: nat, k: nat)
    requires Ordered(from, events, to) && k < |events| && events[k].Written?
    ensures events[k].w.issued <= events[k].w.at <= to
    decreases |events|
  {
    if k == 0 {
      OrderedSpans(At(events[0]), events[1..], to);
    } else {
      OrderedAt(At(events[0]), events[1..], to, k - 1);
    }
  }

  // ---- acceptance ----

  /** The k-th event of a run writes a token, with claims made later than the skew since the epoch. */
  predicate Writes(events: seq<Event>, k: nat, o: Options) {
    k < |events| && events[k].Written? && o.skew / SECOND < events[k].w.issued / SECOND
  }

  /** After any interleaving of writes and sweeps in which rounding loses enough of every lifetime,
      a token whose write is among them is accepted exactly as long as its expiry claim holds. */
  lemma AcceptedWhileUnexpired(o: Options, keys: Keyring, events: seq<Event>, now: nat, k: nat)
    requires Sound(keys) && AllFit(events, o) && Ordered(0, events, now)
    requires Writes(events, k, o) && events[k].w.lifetime > 0
    ensures var c := events[k].w.Signed(o);
            Accepts(Run(map[], events, o, keys), keys.sign(c), o, keys, now) <==> ExpiryHolds(c, o, now)
  {
    var c := events[k].w.Signed(o);
    OrderedAt(0, events, now, k);
    assert events[k].w.issued / SECOND <= now / SECOND;
    assert c.expiresAt >= c.issuedAt > 0;
    WrittenIsCovered(map[], o, keys, 0, events, now, k);
    BoundIsExpiry(c, o, now);
    assert keys.open(keys.sign(c)) == Some(c);
  }

  /** A lifetime is kept up to two seconds of rounding: a token is accepted from its write until two
      seconds before its lifetime, less the skew, has passed since its claims were made, and rejected
      from two seconds after. */
  lemma AcceptedForLifetime(o: Options, keys: Keyring, events: seq<Event>, now: nat, k: nat)
    requires Sound(keys) && SkewSuffices(o) && Ordered(0, events, now)
    requires Writes(events, k, o) && events[k].w.lifetime > 0
    ensures var w := events[k].w;
            var token := keys.sign(w.Signed(o));
            && (now <= w.issued + w.lifetime - o.skew - 2_000_000_000 ==>
                  Accepts(Run(map[], events, o, keys), token, o, keys, now))
            && (now >= w.issued + w.lifetime - o.skew + 2_000_000_000 ==>
                  !Accepts(Run(map[], events, o, keys), token, o, keys, now))
  {
    assert 2 * SECOND == 2_000_000_000;
    AcceptedWhileUnexpired(o, keys, events, now, k);
    ExpiryNear(events[k].w, o, now);
    hide Accepts, Run, Ordered;
  }

  /** The expiry claim is within two seconds of the lifetime less the skew. */
  lemma ExpiryNear(w: Write, o: Options, now: nat)
    requires w.lifetime > 0 && o.skew / SECOND < w.issued / SECOND
    ensures now <= w.issued + w.lifetime - o.skew - 2 * SECOND ==> ExpiryHolds(w.Signed(o), o, now)
    ensures now >= w.issued + w.lifetime - o.skew + 2 * SECOND ==> !ExpiryHolds(w.Signed(o), o, now)
  {
    var exp := w.Signed(o).expiresAt;
    assert exp == w.issued / SECOND - o.skew / SECOND + w.lifetime / SECOND;
    assert w.issued - SECOND < (w.issued / SECOND) * SECOND <= w.issued;
    assert o.skew - SECOND < (o.skew / SECOND) * SECOND <= o.skew;
    assert w.lifetime - SECOND < (w.lifetime / SECOND) * SECOND <= w.lifetime;
    BoundIsExpiry(w.Signed(o), o, now);
  }

  /** When claims of any origin are valid: not past the second of their expiry, nor before those of their
      issue and of their start; a zero means that there is no such limit. */
  lemma ClaimsMean(c: Claims, o: Options, now: nat)
    ensures ClaimsValid(c, o, now) <==>
              && (c.expiresAt == 0 || now < (c.expiresAt + if o.inclusive then 1 else 0) * 1_000_000_000)
              && (c.issuedAt == 0 || c.issuedAt * 1_000_000_000 <= now)
              && (c.notBefore == 0 || c.notBefore * 1_000_000_000 <= now)
  {
    if c.expiresAt != 0 {
      BoundIsExpiry(c, o, now);
    }
  }

  /** What was not signed is not accepted. */
  lemma ForgedRejected(s: Store, token: string, o: Options, keys: Keyring, now: nat)
    requires Sound(keys) && forall c :: keys.sign(c) != token
    ensures !Accepts(s, token, o, keys, now)
  {
    forall c
      ensures keys.open(token) != Some(c)
    {}
  }

  /** A clock that is behind the one that signed by more than the skew and a second rejects the token
      as not yet valid, whatever the cache holds. */
  lemma NotYetValid(s: Store, w: Write, o: Options, keys: Keyring, now: nat)
    requires Sound(keys) && o.skew / SECOND < w.issued / SECOND && now + o.skew + SECOND <= w.issued
    ensures !Accepts(s, keys.sign(w.Signed(o)), o, keys, now)
  {
    assert keys.open(keys.sign(w.Signed(o))) == Some(w.Signed(o));
    assert w.issued - SECOND < (w.issued / SECOND) * SECOND;
    assert (o.skew / SECOND) * SECOND <= o.skew && (now / SECOND) * SECOND <= now;
    assert now / SECOND < w.Signed(o).issuedAt;
  }

  /** Tokens are for the user and of the type asked for: what an issue signs opens to them. */
  lemma IssuedFor(i: Issue, o: Options, keys: Keyring)
    requires Sound(keys)
    ensures var access, refresh := keys.open(keys.sign(i.Access(o))), keys.open(keys.sign(i.Refresh(o)));
            && access.Some? && access.value.user == i.user
            && access.value.tokenType == (if i.given.Some? then StaticToken else AccessToken)
            && refresh.Some? && refresh.value.user == i.user && refresh.value.tokenType == RefreshToken
            && (IssueWrites(i, o) != [] <==> (if i.given.Some? then i.given.value.0 else o.maxAge) > 0)
  {
    assert keys.open(keys.sign(i.Access(o))) == Some(i.Access(o));
    assert keys.open(keys.sign(i.Refresh(o))) == Some(i.Refresh(o));
  }

  /** If configured tokens do not expire, the cache does not matter: every token is accepted as its
      claims say, and configured ones from their first second on forever. */
  lemma NeverExpiring(s: Store, i: Issue, o: Options, keys: Keyring, now: nat)
    requires Sound(keys) && o.maxAge == 0 && i.given == None
    ensures i.accessAt <= now ==> Accepts(s, keys.sign(i.Access(o)), o, keys, now)
    ensures Accepts(s, keys.sign(i.Refresh(o)), o, keys, now) <==> ClaimsValid(i.Refresh(o), o, now)
  {
    assert keys.open(keys.sign(i.Access(o))) == Some(i.Access(o));
    assert keys.open(keys.sign(i.Refresh(o))) == Some(i.Refresh(o));
    assert i.accessAt <= now ==> i.accessAt / SECOND <= now / SECOND;
  }

  /** The writes of a run are those of issues with configured lifetimes or, if `given`, also with
      lifetimes of their own. */
  ghost predicate Issuable(events: seq<Event>, o: Options, given: bool) {
    forall e :: e in events && e.Written? ==> Configured(e.w, o) || (given && Given(e.w))
  }

  /** Issues one after the other, and sweeps in between. */
  ghost predicate Whole(events: seq<Event>, o: Options)
    decreases |events|
  {
    || events == []
    || (events[0].Swept? && Whole(events[1..], o))
    || (|events| >= 2 && (exists i: Issue :: i.InOrder() && events[..2] == IssueWrites(i, o)) && Whole(events[2..], o))
  }

  /** In every run every configured token is accepted exactly as long as its expiry claim holds;
      `whole` leaves out the runs in which something comes between the writes of an issue. */
  ghost predicate AlwaysExact(o: Options, keys: Keyring, given: bool, whole: bool) {
    forall events: seq<Event>, now: nat, k: nat ::
      && Ordered(0, events, now) && Issuable(events, o, given) && (whole ==> Whole(events, o))
      && Writes(events, k, o) && Configured(events[k].w, o) ==>
        var c := events[k].w.Signed(o);
        Accepts(Run(map[], events, o, keys), keys.sign(c), o, keys, now) <==> ExpiryHolds(c, o, now)
  }

  /** A run of whole issues in which a token is swept while its expiry claim holds. */
  lemma SweptTooSoon(o: Options, keys: Keyring, events: seq<Event>, now: nat, k: nat, given: bool, whole: bool)
    requires Ordered(0, events, now) && Issuable(events, o, given) && Whole(events, o)
    requires Writes(events, k, o) && Configured(events[k].w, o)
    requires var c := events[k].w.Signed(o);
             ExpiryHolds(c, o, now) && !Accepts(Run(map[], events, o, keys), keys.sign(c), o, keys, now)
    ensures !AlwaysExact(o, keys, given, whole)
  {}

  /** An issue at one instant. */
  function IssueAt(user: string, given: Option<(int, int)>, at: nat): Issue {
    Issue(user, given, at, at, at, at)
  }

  /** Claims issued at the first whole second hold longer than a deadline well within their last second. */
  lemma HoldsPast(c: Claims, lifetime: int, deadline: int, o: Options)
    requires !SkewSuffices(o) && lifetime > 0 && c.expiresAt == 1 + lifetime / SECOND
    requires SECOND <= deadline < SECOND + (lifetime / SECOND + 1) * SECOND - 1
    ensures ExpiryHolds(c, o, deadline + 1)
  {
    BoundIsExpiry(c, o, deadline + 1);
  }

  /** Once the cached entry is swept the token is rejected. */
  lemma SweptIsRejected(s: Store, c: Claims, o: Options, keys: Keyring, now: nat)
    requires Sound(keys) && o.maxAge != 0 && c.tokenType != StaticToken
    requires var key := CacheKey(c.user, keys.sign(c)); key in s && !s[key].neverExpire && s[key].expiredAt < now
    ensures !Accepts(Step(s, Swept(now), o, keys), keys.sign(c), o, keys, now)
  {
    assert keys.open(keys.sign(c)) == Some(c);
  }

  /** One issue and a sweep. */
  lemma IssueAndSweep(s: Store, i: Issue, now: nat, o: Options, keys: Keyring)
    requires i.Age(o) > 0
    ensures Run(s, IssueWrites(i, o) + [Swept(now)], o, keys) == Step(AfterIssue(s, i, o, keys), Swept(now), o, keys)
  {
    var w := IssueWrites(i, o);
    var events := w + [Swept(now)];
    assert events[1..] == [w[1], Swept(now)];
    RunOfTwo(Step(s, w[0], o, keys), w[1], Swept(now), o, keys);
    IssueIsWrites(s, i, o, keys);
    RunOfTwo(s, w[0], w[1], o, keys);
  }

  lemma IssueAndSweepIsWhole(i: Issue, now: nat, o: Options)
    requires i.Age(o) > 0 && i.InOrder() && i.cacheRefreshAt <= now
    ensures var events := IssueWrites(i, o) + [Swept(now)];
            Whole(events, o) && (forall from: nat :: from <= i.cacheAccessAt ==> Ordered(from, events, now))
  {
    var w := IssueWrites(i, o);
    var events := w + [Swept(now)];
    assert events[..2] == w && events[2..] == [Swept(now)] && events[2..][1..] == [];
    assert events[1..] == [w[1], Swept(now)] && events[1..][1..] == [Swept(now)];
    assert Whole(events[2..], o);
    assert Ordered(i.cacheRefreshAt, [Swept(now)], now) && Ordered(i.cacheAccessAt, events[1..], now);
  }

  /** One issue in front of a run. */
  lemma IssueFirst(s: Store, i: Issue, rest: seq<Event>, to: nat, o: Options, keys: Keyring)
    requires i.Age(o) > 0 && i.InOrder() && Whole(rest, o) && Ordered(i.cacheRefreshAt, rest, to)
    ensures var events := IssueWrites(i, o) + rest;
            && Run(s, events, o, keys) == Run(AfterIssue(s, i, o, keys), rest, o, keys)
            && Whole(events, o) && Ordered(0, events, to)
  {
    var w := IssueWrites(i, o);
    var events := w + rest;
    assert events[..2] == w && events[2..] == rest && events[1..] == [w[1]] + rest && events[1..][1..] == rest;
    IssueIsWrites(s, i, o, keys);
    RunOfTwo(s, w[0], w[1], o, keys);
    assert Ordered(i.cacheAccessAt, events[1..], to);
  }

  /** If the lifetime of configured access tokens does not fit, one is swept while it holds. */
  lemma AccessSwept(o: Options, keys: Keyring, whole: bool)
    requires Sound(keys) && o.maxAge > 0 && !Fits(o.maxAge, o)
    ensures !AlwaysExact(o, keys, false, whole)
  {
    var i := IssueAt("u", None, SECOND);
    var c, now := i.Access(o), SECOND + o.maxAge + 1;
    var events := IssueWrites(i, o) + [Swept(now)];
    if CacheKey("u", keys.sign(c)) == CacheKey("u", keys.sign(i.Refresh(o))) {
      KeyInjective("u", keys.sign(c), "u", keys.sign(i.Refresh(o)));
      SignInjective(keys, c, i.Refresh(o));
      assert false;
    }
    IssueAndSweep(map[], i, now, o, keys);
    IssueAndSweepIsWhole(i, now, o);
    HoldsPast(c, o.maxAge, SECOND + o.maxAge, o);
    SweptIsRejected(AfterIssue(map[], i, o, keys), c, o, keys, now);
    hide Run, Whole, Ordered, AfterIssue, Accepts;
    SweptTooSoon(o, keys, events, now, 0, false, whole);
  }

  lemma RefreshSwept(o: Options, keys: Keyring, whole: bool)
    requires Sound(keys) && o.maxAge > 0 && !Fits(o.maxAge + o.inactivityTimeout, o)
    ensures !AlwaysExact(o, keys, false, whole)
  {
    var i, lifetime := IssueAt("u", None, SECOND), o.maxAge + o.inactivityTimeout;
    var c, now := i.Refresh(o), SECOND + lifetime + 1;
    var events := IssueWrites(i, o) + [Swept(now)];
    IssueAndSweep(map[], i, now, o, keys);
    IssueAndSweepIsWhole(i, now, o);
    HoldsPast(c, lifetime, SECOND + lifetime, o);
    SweptIsRejected(AfterIssue(map[], i, o, keys), c, o, keys, now);
    hide Run, Whole, Ordered, AfterIssue, Accepts;
    SweptTooSoon(o, keys, events, now, 1, false, whole);
  }

  /** A later issue with a lifetime of its own can sign the same refresh token again and cache it
      with an earlier deadline. */
  lemma RefreshOvertaken(o: Options, keys: Keyring, whole: bool)
    requires Sound(keys) && o.maxAge > 0 && !SkewSuffices(o)
    ensures !AlwaysExact(o, keys, true, whole)
  {
    var lifetime := o.maxAge + o.inactivityTimeout;
    var shorter := if lifetime < SECOND then 1 else (lifetime / SECOND) * SECOND;
    assert shorter / SECOND == lifetime / SECOND;
    var i, j := IssueAt("u", None, SECOND), IssueAt("u", Some((1, shorter - 1)), SECOND);
    var c, now := i.Refresh(o), SECOND + shorter + 1;
    assert j.Refresh(o) == c;
    var rest := IssueWrites(j, o) + [Swept(now)];
    var events := IssueWrites(i, o) + rest;
    IssueAndSweep(AfterIssue(map[], i, o, keys), j, now, o, keys);
    IssueAndSweepIsWhole(j, now, o);
    hide Run, Whole, Ordered, Accepts;
    IssueFirst(map[], i, rest, now, o, keys);
    HoldsPast(c, lifetime, SECOND + shorter, o);
    SweptIsRejected(AfterIssue(AfterIssue(map[], i, o, keys), j, o, keys), c, o, keys, now);
    hide AfterIssue;
    SweptTooSoon(o, keys, events, now, 1, true, whole);
  }

  /** If only the configured lifetimes are used, acceptance agrees with the expiry claim in every run
      exactly when the skew suffices or both lifetimes end a nanosecond short of a whole second;
      that sweeps and other issues may come in the middle of an issue makes no difference. */
  lemma ConfiguredRunsExactIff(o: Options, keys: Keyring, whole: bool)
    requires Sound(keys) && o.maxAge > 0
    ensures AlwaysExact(o, keys, false, whole) <==> Fits(o.maxAge, o) && Fits(o.maxAge + o.inactivityTimeout, o)
  {
    if !Fits(o.maxAge, o) {
      AccessSwept(o, keys, whole);
    } else if !Fits(o.maxAge + o.inactivityTimeout, o) {
      RefreshSwept(o, keys, whole);
    } else {
      hide Accepts, Run, Ordered, Whole;
      forall events: seq<Event>, now: nat, k: nat
        | Ordered(0, events, now) && Issuable(events, o, false) && Writes(events, k, o) && Configured(events[k].w, o)
        ensures var c := events[k].w.Signed(o);
                Accepts(Run(map[], events, o, keys), keys.sign(c), o, keys, now) <==> ExpiryHolds(c, o, now)
      {
        AcceptedWhileUnexpired(o, keys, events, now, k);
      }
    }
  }

  /** If tokens are also issued with lifetimes of their own, it does exactly when the skew suffices. */
  lemma AllRunsExactIff(o: Options, keys: Keyring, whole: bool)
    requires Sound(keys) && o.maxAge > 0
    ensures AlwaysExact(o, keys, true, whole) <==> SkewSuffices(o)
  {
    if !SkewSuffices(o) {
      RefreshOvertaken(o, keys, whole);
    } else {
      hide Accepts, Run, Ordered, Whole;
      forall events: seq<Event>, now: nat, k: nat
        | Ordered(0, events, now) && Writes(events, k, o) && Configured(events[k].w, o)
        ensures var c := events[k].w.Signed(o);
                Accepts(Run(map[], events, o, keys), keys.sign(c), o, keys, now) <==> ExpiryHolds(c, o, now)
      {
        AcceptedWhileUnexpired(o, keys, events, now, k);
      }
    }
  }

  // ---- lifetimes given by the caller ----

  /** Whatever the cache holds, the access token of an issue with lifetimes of its own is accepted as
      its claims say: forever, if its lifetime is not positive. */
  lemma GivenAccessAccepted(s: Store, i: Issue, o: Options, keys: Keyring, now: nat)
    requires Sound(keys) && i.given.Some?
    ensures var token := keys.sign(i.Access(o));
            && (Accepts(s, token, o, keys, now) <==> ClaimsValid(i.Access(o), o, now))
            && (i.Age(o) <= 0 && i.accessAt <= now ==> Accepts(s, token, o, keys, now))
  {
    assert keys.open(keys.sign(i.Access(o))) == Some(i.Access(o));
    assert i.accessAt <= now ==> i.accessAt / SECOND <= now / SECOND;
  }

  ghost predicate WrittenIn(events: seq<Event>, c: Claims, o: Options) {
    exists e :: e in events && e.Written? && e.w.Signed(o) == c
  }

  lemma {:induction false} CachedWasWritten(s: Store, events: seq<Event>, c: Claims, o: Options, keys: Keyring)
    requires Sound(keys) && CacheKey(c.user, keys.sign(c)) in Run(s, events, o, keys)
    ensures CacheKey(c.user, keys.sign(c)) in s || WrittenIn(events, c, o)
    decreases |events|
  {
    if events != [] {
      var e := events[0];
      CachedWasWritten(Step(s, e, o, keys), events[1..], c, o, keys);
      if WrittenIn(events[1..], c, o) {
        var f :| f in events[1..] && f.Written? && f.w.Signed(o) == c;
        assert f in events;
      } else if e.Written? && CacheKey(c.user, keys.sign(c)) !in s {
        var d := e.w.Signed(o);
        KeyInjective(c.user, keys.sign(c), d.user, keys.sign(d));
        SignInjective(keys, c, d);
        assert e in events;
      }
    }
  }

  /** While configured tokens expire, no token other than a static one is accepted in a run that has
      not written it. */
  lemma UnwrittenRejected(events: seq<Event>, c: Claims, o: Options, keys: Keyring, now: nat)
    requires Sound(keys) && o.maxAge != 0 && c.tokenType != StaticToken && !WrittenIn(events, c, o)
    ensures !Accepts(Run(map[], events, o, keys), keys.sign(c), o, keys, now)
  {
    assert keys.open(keys.sign(c)) == Some(c);
    if CacheKey(c.user, keys.sign(c)) in Run(map[], events, o, keys) {
      CachedWasWritten(map[], events, c, o, keys);
      assert false;
    }
  }

  /** So the refresh token of an issue whose given lifetimes are not positive, whose issue writes
      nothing, is never accepted as long as refresh tokens are written with positive lifetimes only. */
  lemma GivenRefreshRejected(i: Issue, events: seq<Event>, o: Options, keys: Keyring, now: nat)
    requires Sound(keys) && o.maxAge != 0 && i.given.Some? && i.Age(o) <= 0 && i.RefreshAge(o) <= 0
    requires forall k: nat :: k < |events| && events[k].Written? ==> Writes(events, k, o) && events[k].w.lifetime > 0
    ensures IssueWrites(i, o) == []
    ensures !Accepts(Run(map[], events, o, keys), keys.sign(i.Refresh(o)), o, keys, now)
  {
    var c := i.Refresh(o);
    forall e | e in events && e.Written?
      ensures e.w.Signed(o) != c
    {
      var k: nat :| k < |events| && events[k] == e;
      assert Writes(events, k, o) && e.w.Signed(o).expiresAt > 0;
    }
    UnwrittenRejected(events, c, o, keys, now);
  }
}
