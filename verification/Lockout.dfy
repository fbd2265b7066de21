/** Login lock-out. Failed logins leave records; the user controller counts the recent ones, locks
    a user with ten of them and unlocks after a cool-off; old records are collected. The parts meet
    only through stored users and records and a clock that never goes back. */
module Lockout {
  import opened Iam

  // Durations in seconds.
  const WINDOW := 600
  const COOL_OFF := 600
  const THRESHOLD := 10
  const RETENTION := 168 * 3600

  datatype UserState = Active | Disabled | AuthLimitExceeded

  /** `attempts` is the number the reason text of a lock reports. */
  datatype Status = Status(state: Option<UserState>, attempts: Option<nat>, since: Option<int>, lastLogin: Option<int>)

  /** `deleting`: the user carries a deletion timestamp. */
  datatype User = User(email: string, password: string, status: Status, deleting: bool)

  datatype LoginRecord = LoginRecord(id: nat, userRef: string, success: bool, created: int)

  datatype Cluster = Cluster(now: int, users: map<string, User>, records: seq<LoginRecord>, nextId: nat)

  /** Library calls, taken as given: is a password encrypted, does it match, is a login name a mail
      address. */
  datatype Library = Library(encrypted: string -> bool, matches: (string, string) -> bool, address: string -> bool)

  // ---- counting and the status of a user ----

  predicate Recent(r: LoginRecord, user: string, now: int) {
    r.userRef == user && !r.success && r.created + WINDOW > now
  }

  function CountRecent(records: seq<LoginRecord>, user: string, now: int): nat {
    if records == [] then 0
    else CountRecent(records[..|records| - 1], user, now) + if Recent(records[|records| - 1], user, now) then 1 else 0
  }

  predicate CooledOff(s: Status, now: int) {
    s.state == Some(AuthLimitExceeded) && s.since.Some? && s.since.value + COOL_OFF < now
  }

  /** The status a sync writes, if any; `recent` is the count of recent failures, if they can be listed. */
  function NextStatus(u: User, recent: Option<nat>, now: int, lib: Library): Option<Status> {
    if u.status.state == Some(Disabled) then None
    else if lib.encrypted(u.password) && u.status.state == None then Some(Status(Some(Active), None, Some(now), None))
    else if CooledOff(u.status, now) then
      Some(Status(Some(Active), None, Some(now), None))
    else if recent.Some? && recent.value >= THRESHOLD then
      Some(Status(Some(AuthLimitExceeded), Some(recent.value), Some(now), None))
    else None
  }

  // ---- logging in ----

  datatype AuthResult = Authenticated(name: string) | IncorrectPassword | RateLimitExceeded | NotActive | LookupFailed

  /** '@' is not allowed in object names. */
  function LabelOf(login: string): string {
    if login == "" then "" else (if login[0] == '@' then "-" else [login[0]]) + LabelOf(login[1..])
  }

  /** A mail address is looked up by scanning the users in listing order. */
  function FindUser(users: map<string, User>, login: string, listing: seq<string>, lib: Library): (r: Option<string>)
    ensures r.Some? ==> r.value in users && (r.value == login || (lib.address(login) && users[r.value].email == login))
  {
    if !lib.address(login) then (if login in users then Some(login) else None)
    else FindByEmail(users, login, listing)
  }

  function FindByEmail(users: map<string, User>, email: string, listing: seq<string>): (r: Option<string>)
    ensures r.Some? ==> r.value in users && users[r.value].email == email
  {
    if listing == [] then None
    else if listing[0] in users && users[listing[0]].email == email then Some(listing[0])
    else FindByEmail(users, email, listing[1..])
  }

  function Authenticate(users: map<string, User>, login: string, password: string, listing: seq<string>, lookup: Fault,
                        lib: Library): AuthResult
  {
    if login == "" || password == "" then IncorrectPassword
    else if lookup != Delivered then LookupFailed
    else
      match FindUser(users, login, listing, lib)
      case None => IncorrectPassword
      case Some(name) =>
        var u := users[name];
        if u.status.state != Some(Active) then
          if u.status.state == Some(AuthLimitExceeded) then RateLimitExceeded else NotActive
        else if u.password != "" && lib.matches(u.password, password) then Authenticated(name)
        else IncorrectPassword
  }

  function Recorded(c: Cluster, login: string, success: bool, recording: Fault): Cluster {
    if recording == RequestLost then c
    else c.(records := c.records + [LoginRecord(c.nextId, LabelOf(login), success, c.now)], nextId := c.nextId + 1)
  }

  // ---- events ----

  datatype Event =
    | Tick(d: nat)
    | CreateUser(name: string, email: string, password: string)
    | SetPassword(name: string, password: string)
    | Disable(name: string)
    | MarkDeleted(name: string)
    | Attempt(login: string, password: string, listing: seq<string>, lookup: Fault, recording: Fault)
    | RecordSuccess(login: string, recording: Fault)
    | Sync(name: string, listRecords: Fault, updating: Fault)
    | ReconcileRecord(id: nat, updating: Fault, deletion: Fault)

  function WithStatus(c: Cluster, name: string, s: Status): Cluster
    requires name in c.users
  {
    c.(users := c.users[name := c.users[name].(status := s)])
  }

  function Recount(c: Cluster, name: string, listRecords: Fault): Option<nat> {
    if listRecords == Delivered then Some(CountRecent(c.records, name, c.now)) else None
  }

  /** A user being deleted is not synced. */
  function SyncUser(c: Cluster, name: string, listRecords: Fault, updating: Fault, lib: Library): Cluster {
    if name !in c.users || c.users[name].deleting then c
    else
      match NextStatus(c.users[name], Recount(c, name, listRecords), c.now, lib)
      case None => c
      case Some(s) => if updating == RequestLost then c else WithStatus(c, name, s)
  }

  /** Does the sync end in an error? The records are not listed for a disabled or an unlocked user. */
  predicate SyncFails(c: Cluster, name: string, listRecords: Fault, updating: Fault, lib: Library) {
    && name in c.users && !c.users[name].deleting
    && match NextStatus(c.users[name], Recount(c, name, listRecords), c.now, lib)
       case None => c.users[name].status.state != Some(Disabled) && listRecords != Delivered
       case Some(_) => updating != Delivered
  }

  function FindRecord(records: seq<LoginRecord>, id: nat): (r: Option<nat>)
    ensures r.Some? ==> r.value < |records| && records[r.value].id == id
  {
    if records == [] then None
    else if records[|records| - 1].id == id then Some(|records| - 1)
    else FindRecord(records[..|records| - 1], id)
  }

  predicate LaterLogin(u: User, r: LoginRecord) {
    !u.deleting && (u.status.lastLogin == None || u.status.lastLogin.value < r.created)
  }

  function Collect(c: Cluster, id: nat, updating: Fault, deletion: Fault): Cluster {
    match FindRecord(c.records, id)
    case None => c
    case Some(k) =>
      var r := c.records[k];
      if r.userRef == "" || r.userRef !in c.users then c
      else
        var u := c.users[r.userRef];
        var late := LaterLogin(u, r);
        var seen := u.status.(lastLogin := Some(r.created));
        var d := if late && updating != RequestLost then WithStatus(c, r.userRef, seen) else c;
        if (late && updating != Delivered) || r.created + RETENTION >= c.now || deletion == RequestLost then d
        else d.(records := c.records[..k] + c.records[k + 1..])
  }

  /** Does reconciling a record end in an error? A record of nobody, or of an unknown user, does. */
  predicate CollectFails(c: Cluster, id: nat, updating: Fault, deletion: Fault) {
    match FindRecord(c.records, id)
    case None => false
    case Some(k) =>
      var r := c.records[k];
      || r.userRef == "" || r.userRef !in c.users
      || (LaterLogin(c.users[r.userRef], r) && updating != Delivered)
      || (r.created + RETENTION < c.now && deletion != Delivered)
  }

  function Step(c: Cluster, e: Event, lib: Library): Cluster {
    match e
    case Tick(d) => c.(now := c.now + d)
    case CreateUser(name, email, password) =>
      var u := User(email, password, Status(None, None, None, None), false);
      if name in c.users then c else c.(users := c.users[name := u])
    case SetPassword(name, password) =>
      if name !in c.users then c else c.(users := c.users[name := c.users[name].(password := password)])
    case Disable(name) =>
      if name !in c.users then c else WithStatus(c, name, c.users[name].status.(state := Some(Disabled)))
    case MarkDeleted(name) =>
      if name !in c.users then c else c.(users := c.users[name := c.users[name].(deleting := true)])
    case Attempt(login, password, listing, lookup, recording) =>
      if Authenticate(c.users, login, password, listing, lookup, lib) == IncorrectPassword then
        Recorded(c, login, false, recording)
      else c
    case RecordSuccess(login, recording) => Recorded(c, login, true, recording)
    case Sync(name, listRecords, updating) => SyncUser(c, name, listRecords, updating, lib)
    case ReconcileRecord(id, updating, deletion) => Collect(c, id, updating, deletion)
  }

  function Run(c: Cluster, events: seq<Event>, lib: Library): Cluster {
    if events == [] then c else Step(Run(c, events[..|events| - 1], lib), events[|events| - 1], lib)
  }

  // ---- what an observer of one user notes down along a run ----

  predicate Locked(c: Cluster, u: string) {
    u in c.users && c.users[u].status.state == Some(AuthLimitExceeded)
  }

  predicate IsActive(c: Cluster, u: string) {
    u in c.users && c.users[u].status.state == Some(Active)
  }

  predicate Failure(r: LoginRecord, u: string) {
    r.userRef == u && !r.success
  }

  predicate IsDisabled(c: Cluster, u: string) {
    u in c.users && c.users[u].status.state == Some(Disabled)
  }

  /** A failed login record for the user has just been written. */
  predicate WritesFailure(c: Cluster, d: Cluster, u: string) {
    |d.records| > |c.records| && Failure(d.records[|d.records| - 1], u)
  }

  /** When the newest failed record was written, collected since or not; the next record number at
      the latest locking (or re-locking) and at the latest unlocking; whether no failed record has
      been written while the user was locked. */
  datatype Notes = Notes(newest: Option<int>, lockMark: nat, unlockMark: nat, quiet: bool)

  function Note(n: Notes, c: Cluster, e: Event, d: Cluster, u: string): Notes {
    Notes(
      if WritesFailure(c, d, u) then Some(c.now) else n.newest,
      if e.Sync? && e.name == u && Locked(d, u) && d.users[u].status.since == Some(d.now) then d.nextId else n.lockMark,
      if Locked(c, u) && IsActive(d, u) then d.nextId else n.unlockMark,
      n.quiet && !(WritesFailure(c, d, u) && Locked(c, u)))
  }

  function NotesOf(c: Cluster, events: seq<Event>, lib: Library, u: string): Notes {
    if events == [] then Notes(None, 0, 0, true)
    else
      var before := events[..|events| - 1];
      Note(NotesOf(c, before, lib, u), Run(c, before, lib), events[|events| - 1], Run(c, events, lib), u)
  }

  ghost predicate Empty(c: Cluster) {
    c.users == map[] && c.records == [] && c.nextId == 0
  }

  /** What holds of the records of a user all along a run. */
  ghost predicate RecordsNoted(c: Cluster, n: Notes, u: string) {
    && (forall r :: r in c.records ==> r.id < c.nextId && r.created <= c.now)
    && (forall r :: r in c.records && Failure(r, u) ==> n.newest.Some? && r.created <= n.newest.value)
    && (n.newest.Some? ==> n.newest.value <= c.now)
    && n.lockMark <= c.nextId && n.unlockMark <= c.nextId
  }

  /** A lock is younger than ten minutes after the newest failure, and than every failure written
      before it. */
  ghost predicate LockNoted(c: Cluster, n: Notes, u: string) {
    Locked(c, u) ==>
      && c.users[u].status.since.Some? && n.newest.Some?
      && c.users[u].status.since.value < n.newest.value + WINDOW
      && (forall r :: r in c.records && Failure(r, u) && r.id < n.lockMark ==>
           r.created <= c.users[u].status.since.value)
      && (n.quiet ==> forall r :: r in c.records && Failure(r, u) ==> r.id < n.lockMark)
  }

  /** As long as nothing is written during locks, failures from before an unlock are out of the window. */
  ghost predicate BudgetNoted(c: Cluster, n: Notes, u: string) {
    n.quiet ==> forall r :: r in c.records && Failure(r, u) && r.id < n.unlockMark ==> r.created + WINDOW <= c.now
  }

  ghost predicate Noted(c: Cluster, n: Notes, u: string) {
    RecordsNoted(c, n, u) && LockNoted(c, n, u) && BudgetNoted(c, n, u)
  }

  lemma {:induction false} CountedIsThere(records: seq<LoginRecord>, user: string, now: int)
    ensures CountRecent(records, user, now) > 0 <==> exists r :: r in records && Recent(r, user, now)
  {
    if records != [] {
      var n := |records| - 1;
      CountedIsThere(records[..n], user, now);
      assert forall r :: r in records <==> r in records[..n] || r == records[n];
    }
  }

  lemma SyncNoted(c: Cluster, n: Notes, u: string, e: Event, lib: Library)
    requires Noted(c, n, u) && e.Sync?
    ensures var d := Step(c, e, lib); Noted(d, Note(n, c, e, d, u), u)
  {
    CountedIsThere(c.records, u, c.now);
    var d := Step(c, e, lib);
    assert d.records == c.records && d.now == c.now && d.nextId == c.nextId;
  }

  predicate SameLock(s: Status, t: Status) {
    s.state == t.state && s.attempts == t.attempts && s.since == t.since
  }

  /** Collecting drops records and touches last-login times only. */
  lemma CollectDrops(c: Cluster, id: nat, updating: Fault, deletion: Fault)
    ensures var d := Collect(c, id, updating, deletion);
            && d.now == c.now && d.nextId == c.nextId && d.users.Keys == c.users.Keys && |d.records| <= |c.records|
            && (forall r :: r in d.records ==> r in c.records)
            && forall u :: u in c.users ==>
                 && d.users[u] == c.users[u].(status := d.users[u].status)
                 && SameLock(d.users[u].status, c.users[u].status)
  {}

  lemma CollectNoted(c: Cluster, n: Notes, u: string, e: Event, lib: Library)
    requires Noted(c, n, u) && e.ReconcileRecord?
    ensures var d := Step(c, e, lib); Noted(d, Note(n, c, e, d, u), u)
  {
    CollectDrops(c, e.id, e.updating, e.deletion);
    hide Collect;
  }

  lemma RecordedNoted(c: Cluster, n: Notes, u: string, e: Event, login: string, success: bool, recording: Fault)
    requires Noted(c, n, u) && !e.Sync?
    ensures var d := Recorded(c, login, success, recording); Noted(d, Note(n, c, e, d, u), u)
  {
    var r := LoginRecord(c.nextId, LabelOf(login), success, c.now);
    assert forall q :: q in c.records + [r] <==> q in c.records || q == r;
  }

  /** An event that leaves records alone, keeps everybody's locks or opens them, and only lets time pass. */
  lemma QuietNoted(c: Cluster, n: Notes, u: string, e: Event, d: Cluster)
    requires Noted(c, n, u) && !e.Sync?
    requires d.records == c.records && d.nextId == c.nextId && c.now <= d.now
    requires Locked(d, u) ==> Locked(c, u) && d.users[u].status == c.users[u].status
    requires Locked(c, u) ==> !IsActive(d, u)
    ensures Noted(d, Note(n, c, e, d, u), u)
  {}

  lemma StepNoted(c: Cluster, n: Notes, u: string, e: Event, lib: Library)
    requires Noted(c, n, u)
    ensures var d := Step(c, e, lib); Noted(d, Note(n, c, e, d, u), u)
  {
    hide Noted, Note, Recorded, Authenticate;
    match e
    case Sync(_, _, _) => SyncNoted(c, n, u, e, lib);
    case ReconcileRecord(_, _, _) => CollectNoted(c, n, u, e, lib);
    case Attempt(login, _, _, _, recording) =>
      RecordedNoted(c, n, u, e, login, false, recording);
      QuietNoted(c, n, u, e, c);
    case RecordSuccess(login, recording) => RecordedNoted(c, n, u, e, login, true, recording);
    case _ => QuietNoted(c, n, u, e, Step(c, e, lib));
  }

  lemma {:induction false} RunNoted(c: Cluster, events: seq<Event>, lib: Library, u: string)
    requires Empty(c)
    ensures Noted(Run(c, events, lib), NotesOf(c, events, lib, u), u)
  {
    if events != [] {
      var before := events[..|events| - 1];
      RunNoted(c, before, lib, u);
      hide Noted, Note, Step;
      StepNoted(Run(c, before, lib), NotesOf(c, before, lib, u), u, events[|events| - 1], lib);
    }
  }

  // ---- when a lock starts, and how long it holds ----

  /** Where the records of the user's failed logins in the last ten minutes stand. */
  function RecentPositions(records: seq<LoginRecord>, user: string, now: int): set<int> {
    set i | 0 <= i < |records|
            && records[i].userRef == user && !records[i].success && now - records[i].created < 10 * 60
  }

  lemma {:induction false} CountIsCardinality(records: seq<LoginRecord>, user: string, now: int)
    ensures CountRecent(records, user, now) == |RecentPositions(records, user, now)|
  {
    if records != [] {
      var n := |records| - 1;
      CountIsCardinality(records[..n], user, now);
      var before := RecentPositions(records[..n], user, now);
      assert RecentPositions(records, user, now) == if Recent(records[n], user, now) then before + {n} else before;
    }
  }

  /** An active user is locked by a sync exactly when the records are listed, ten failed ones of the
      user are less than ten minutes old, and the update reaches the store. */
  lemma LocksIff(c: Cluster, u: string, listRecords: Fault, updating: Fault, lib: Library)
    requires IsActive(c, u) && !c.users[u].deleting
    ensures Locked(Step(c, Sync(u, listRecords, updating), lib), u) <==>
              listRecords == Delivered && |RecentPositions(c.records, u, c.now)| >= 10 && updating != RequestLost
  {
    CountIsCardinality(c.records, u, c.now);
  }

  /** The status a sync writes: active or locked, from now on. */
  function FreshStatus(state: UserState, attempts: Option<nat>, now: int): Status {
    Status(Some(state), attempts, Some(now), None)
  }

  /** Everything a sync does. A user with an encrypted password and no state yet becomes active, and
      so does a locked user whose lock is more than ten minutes old; anybody else who is not disabled
      is locked, or locked again, with ten failures in the last ten minutes. Nothing else changes. */
  lemma SyncOutcome(c: Cluster, u: string, listRecords: Fault, updating: Fault, lib: Library)
    requires u in c.users && !c.users[u].deleting
    ensures var s, d := c.users[u].status, Step(c, Sync(u, listRecords, updating), lib);
            var over := s.state == Some(AuthLimitExceeded) && s.since.Some? && c.now - s.since.value > 10 * 60;
            var activates := over || (s.state == None && lib.encrypted(c.users[u].password));
            var n := |RecentPositions(c.records, u, c.now)|;
            var locks := s.state != Some(Disabled) && !activates && listRecords == Delivered && n >= 10;
            var written := if activates then FreshStatus(Active, None, c.now)
                           else FreshStatus(AuthLimitExceeded, Some(n), c.now);
            && d == (if (activates || locks) && updating != RequestLost then WithStatus(c, u, written) else c)
            && (SyncFails(c, u, listRecords, updating, lib) <==>
                  if activates || locks then updating != Delivered
                  else s.state != Some(Disabled) && listRecords != Delivered)
  {
    CountIsCardinality(c.records, u, c.now);
    hide CountRecent, RecentPositions;
  }

  ghost predicate HeldSince(c: Cluster, u: string, since: int) {
    IsDisabled(c, u) || (Locked(c, u) && c.users[u].status.since.Some? && since <= c.users[u].status.since.value)
  }

  lemma HeldStep(c: Cluster, e: Event, lib: Library, u: string, since: int)
    requires HeldSince(c, u, since) && since <= c.now
    ensures c.now <= Step(c, e, lib).now
    ensures Step(c, e, lib).now <= since + COOL_OFF ==> HeldSince(Step(c, e, lib), u, since)
  {
    if e.ReconcileRecord? {
      CollectDrops(c, e.id, e.updating, e.deletion);
    }
  }

  /** A lock holds for ten minutes whatever happens: only disabling the user ends it sooner. */
  lemma {:induction false} LockHolds(c: Cluster, events: seq<Event>, lib: Library, u: string)
    requires Locked(c, u) && c.users[u].status.since.Some? && c.users[u].status.since.value <= c.now
    ensures c.now <= Run(c, events, lib).now
    ensures var d := Run(c, events, lib);
            d.now <= c.users[u].status.since.value + 10 * 60 ==> HeldSince(d, u, c.users[u].status.since.value)
  {
    if events != [] {
      var before := events[..|events| - 1];
      LockHolds(c, before, lib, u);
      var d := Run(c, before, lib);
      hide Step, HeldSince;
      if d.now <= c.users[u].status.since.value + COOL_OFF {
        HeldStep(d, events[|events| - 1], lib, u, c.users[u].status.since.value);
      } else {
        TimePasses(d, events[|events| - 1], lib);
      }
    }
  }

  lemma TimePasses(c: Cluster, e: Event, lib: Library)
    ensures c.now <= Step(c, e, lib).now
  {}

  // ---- who is let in ----

  /** The user a login finds: the one of that name, or for a mail address the first one listed with it. */
  ghost predicate Finds(users: map<string, User>, login: string, listing: seq<string>, lib: Library, n: string) {
    if lib.address(login) then
      exists i :: 0 <= i < |listing| && listing[i] == n && n in users && users[n].email == login
                  && forall j :: 0 <= j < i ==> !(listing[j] in users && users[listing[j]].email == login)
    else n == login && n in users
  }

  lemma {:induction false} FindByEmailFirst(users: map<string, User>, email: string, listing: seq<string>)
    ensures var f := FindByEmail(users, email, listing);
            if f.Some? then
              exists i :: 0 <= i < |listing| && listing[i] == f.value && f.value in users
                          && users[f.value].email == email
                          && forall j :: 0 <= j < i ==> !(listing[j] in users && users[listing[j]].email == email)
            else forall j :: 0 <= j < |listing| ==> !(listing[j] in users && users[listing[j]].email == email)
  {
    if listing != [] {
      if listing[0] in users && users[listing[0]].email == email {
        assert FindByEmail(users, email, listing) == Some(listing[0]);
      } else {
        FindByEmailFirst(users, email, listing[1..]);
        var f := FindByEmail(users, email, listing[1..]);
        assert forall j :: 1 <= j < |listing| ==> listing[j] == listing[1..][j - 1];
        if f.Some? {
          var i :| 0 <= i < |listing| - 1 && listing[1..][i] == f.value
                   && forall j :: 0 <= j < i ==> !(listing[1..][j] in users && users[listing[1..][j]].email == email);
          assert listing[i + 1] == f.value;
        }
      }
    }
  }

  lemma FindUserFinds(users: map<string, User>, login: string, listing: seq<string>, lib: Library, n: string)
    ensures FindUser(users, login, listing, lib) == Some(n) <==> Finds(users, login, listing, lib, n)
  {
    FindByEmailFirst(users, login, listing);
    var f := FindByEmail(users, login, listing);
    if lib.address(login) && Finds(users, login, listing, lib, n) {
      var i :| 0 <= i < |listing| && listing[i] == n && n in users && users[n].email == login
               && forall j :: 0 <= j < i ==> !(listing[j] in users && users[listing[j]].email == login);
      if f.Some? {
        var k :| 0 <= k < |listing| && listing[k] == f.value
                 && forall j :: 0 <= j < k ==> !(listing[j] in users && users[listing[j]].email == login);
        assert k == i;
      }
    }
  }

  /** The answer to a login attempt. Nobody gets in but an active user with the right password, who is
      the one the login finds; a locked user is told so, and so is any other who is not active. */
  lemma AuthenticateMeans(users: map<string, User>, login: string, password: string, listing: seq<string>,
                          lookup: Fault, lib: Library, n: string)
    ensures var r := Authenticate(users, login, password, listing, lookup, lib);
            var asked := login != "" && password != "" && lookup == Delivered;
            var found := asked && Finds(users, login, listing, lib, n);
            && (r == Authenticated(n) <==>
                  && found && users[n].status.state == Some(Active)
                  && users[n].password != "" && lib.matches(users[n].password, password))
            && (found ==> (r == RateLimitExceeded <==> users[n].status.state == Some(AuthLimitExceeded)))
            && (found ==> (r == NotActive <==> users[n].status.state !in {Some(Active), Some(AuthLimitExceeded)}))
            && (found && users[n].status.state == Some(Active) ==>
                  (r == IncorrectPassword <==> users[n].password == "" || !lib.matches(users[n].password, password)))
            && (asked && (forall m :: !Finds(users, login, listing, lib, m)) ==> r == IncorrectPassword)
            && (login == "" || password == "" ==> r == IncorrectPassword)
            && (login != "" && password != "" && lookup != Delivered ==> r == LookupFailed)
  {
    forall m
      ensures FindUser(users, login, listing, lib) == Some(m) <==> Finds(users, login, listing, lib, m)
    {
      FindUserFinds(users, login, listing, lib, m);
    }
    hide FindUser, Finds;
  }

  /** An attempt changes nothing but for the one record that an incorrect password leaves. */
  lemma AttemptOutcome(c: Cluster, e: Event, lib: Library)
    requires e.Attempt?
    ensures var incorrect := Authenticate(c.users, e.login, e.password, e.listing, e.lookup, lib) == IncorrectPassword;
            Step(c, e, lib) ==
              if incorrect && e.recording != RequestLost then
                var r := LoginRecord(c.nextId, LabelOf(e.login), false, c.now);
                c.(records := c.records + [r], nextId := c.nextId + 1)
              else c
  {
    hide Authenticate, LabelOf;
  }

  /** What the events outside this code do: users come up without a state, get passwords, are disabled
      and deleted, time passes, and successful logins leave records. */
  lemma OtherEvents(c: Cluster, lib: Library, name: string, email: string, password: string, d: nat)
    ensures name !in c.users ==>
              && var e := Step(c, CreateUser(name, email, password), lib);
                 && e.users.Keys == c.users.Keys + {name} && (forall u :: u in c.users ==> e.users[u] == c.users[u])
                 && e.users[name].email == email && e.users[name].password == password
                 && e.users[name].status.state == None && !e.users[name].deleting
    ensures name in c.users ==>
              && Step(c, SetPassword(name, password), lib).users[name] == c.users[name].(password := password)
              && IsDisabled(Step(c, Disable(name), lib), name)
              && Step(c, MarkDeleted(name), lib).users[name] == c.users[name].(deleting := true)
    ensures Step(c, Tick(d), lib) == c.(now := c.now + d)
    ensures var e := Step(c, RecordSuccess(name, Delivered), lib);
            && |e.records| == |c.records| + 1 && e.records[|c.records|].success
            && e.records[|c.records|].userRef == LabelOf(name)
  {}

  /** A run is its events one after the other. */
  lemma RunStep(c: Cluster, events: seq<Event>, e: Event, lib: Library)
    ensures Run(c, [], lib) == c && Run(c, events + [e], lib) == Step(Run(c, events, lib), e, lib)
  {
    hide Step;
    assert (events + [e])[..|events + [e]| - 1] == events;
  }

  /** Whatever happens after a lock, for ten minutes no attempt logs the user in; nor does any attempt
      at any time after the user was disabled. */
  lemma NobodyLogsIn(c: Cluster, events: seq<Event>, lib: Library, u: string,
                     login: string, password: string, listing: seq<string>, lookup: Fault)
    requires || IsDisabled(c, u)
             || (Locked(c, u) && c.users[u].status.since.Some? && c.users[u].status.since.value <= c.now
                 && Run(c, events, lib).now <= c.users[u].status.since.value + 10 * 60)
    ensures Authenticate(Run(c, events, lib).users, login, password, listing, lookup, lib) != Authenticated(u)
  {
    if IsDisabled(c, u) {
      DisabledStays(c, events, lib, u);
    } else {
      LockHolds(c, events, lib, u);
    }
    hide Run;
    AuthenticateMeans(Run(c, events, lib).users, login, password, listing, lookup, lib, u);
  }

  // ---- the lock ends ----

  /** In every run a locked user's transition time is less than ten minutes after the newest failed
      record ever written for the user, although locking again refreshes it. */
  lemma LockTimeBound(c: Cluster, events: seq<Event>, lib: Library, u: string)
    requires Empty(c)
    ensures var d, n := Run(c, events, lib), NotesOf(c, events, lib, u);
            Locked(d, u) ==>
              && d.users[u].status.since.Some? && n.newest.Some?
              && d.users[u].status.since.value < n.newest.value + 10 * 60
  {
    RunNoted(c, events, lib, u);
  }

  /** Twenty minutes after the newest failure any sync whose update is not lost leaves a locked user
      active, even if the records cannot be listed, and no sync locks anybody. */
  lemma UnlockedAfterTwentyMinutes(c: Cluster, events: seq<Event>, lib: Library, u: string,
                                   listRecords: Fault, updating: Fault)
    requires Empty(c)
    ensures var d, n := Run(c, events, lib), NotesOf(c, events, lib, u);
            var t := Step(d, Sync(u, listRecords, updating), lib);
            u in d.users && n.newest.Some? && n.newest.value + 20 * 60 <= d.now ==>
              && (Locked(d, u) && !d.users[u].deleting && updating != RequestLost ==> IsActive(t, u))
              && (!Locked(d, u) ==> !Locked(t, u))
  {
    RunNoted(c, events, lib, u);
    hide Noted, Step;
    var d, n := Run(c, events, lib), NotesOf(c, events, lib, u);
    if u in d.users && n.newest.Some? && n.newest.value + WINDOW + COOL_OFF <= d.now {
      NotedUnlocks(d, n, lib, u, listRecords, updating);
    }
  }

  lemma NotedUnlocks(d: Cluster, n: Notes, lib: Library, u: string, listRecords: Fault, updating: Fault)
    requires Noted(d, n, u) && u in d.users && n.newest.Some? && n.newest.value + WINDOW + COOL_OFF <= d.now
    ensures var t := Step(d, Sync(u, listRecords, updating), lib);
            && (Locked(d, u) && !d.users[u].deleting && updating != RequestLost ==> IsActive(t, u))
            && (!Locked(d, u) ==> !Locked(t, u))
  {
    CountedIsThere(d.records, u, d.now);
    hide CountRecent;
  }

  lemma DisabledStep(c: Cluster, e: Event, lib: Library, u: string)
    requires IsDisabled(c, u)
    ensures IsDisabled(Step(c, e, lib), u)
  {}

  /** A disabled user stays disabled through every run. */
  lemma {:induction false} DisabledStays(c: Cluster, events: seq<Event>, lib: Library, u: string)
    requires IsDisabled(c, u)
    ensures IsDisabled(Run(c, events, lib), u)
  {
    hide IsDisabled, Step;
    if events != [] {
      var before := events[..|events| - 1];
      DisabledStays(c, before, lib, u);
      DisabledStep(Run(c, before, lib), events[|events| - 1], lib, u);
    }
  }

  // ---- a fresh budget after an unlock ----

  /** Recent failures with a record number of at least `mark`. */
  function CountRecentFrom(records: seq<LoginRecord>, user: string, now: int, mark: nat): nat {
    if records == [] then 0
    else
      var r := records[|records| - 1];
      CountRecentFrom(records[..|records| - 1], user, now, mark) + if Recent(r, user, now) && r.id >= mark then 1 else 0
  }

  lemma {:induction false} AllFrom(records: seq<LoginRecord>, user: string, now: int, mark: nat)
    requires forall r :: r in records && Recent(r, user, now) ==> r.id >= mark
    ensures CountRecentFrom(records, user, now, mark) == CountRecent(records, user, now)
  {
    if records != [] {
      assert records[|records| - 1] in records;
      AllFrom(records[..|records| - 1], user, now, mark);
    }
  }

  /** In a run during which nothing is written for the user while locked, a sync that locks the
      user has found ten recent failures all written since the last unlock. */
  lemma RelockNeedsTenNewFailures(c: Cluster, events: seq<Event>, lib: Library, u: string, sync: Event)
    requires Empty(c) && sync.Sync? && sync.name == u
    ensures var d, n := Run(c, events, lib), NotesOf(c, events, lib, u);
            n.quiet && !Locked(d, u) && Locked(Step(d, sync, lib), u) ==>
              CountRecentFrom(d.records, u, d.now, n.unlockMark) >= THRESHOLD
  {
    RunNoted(c, events, lib, u);
    var d, n := Run(c, events, lib), NotesOf(c, events, lib, u);
    if n.quiet {
      AllFrom(d.records, u, d.now, n.unlockMark);
    }
  }

  /** What survives an unlock is what was written during the lock: in any run, the recent failures
      at an unlock all carry numbers from the last locking on, and a quiet run has none. */
  lemma UnlockCarriesOver(c: Cluster, events: seq<Event>, lib: Library, u: string, sync: Event)
    requires Empty(c) && sync.Sync? && sync.name == u
    ensures var d, n := Run(c, events, lib), NotesOf(c, events, lib, u);
            Locked(d, u) && IsActive(Step(d, sync, lib), u) ==>
              && CountRecent(d.records, u, d.now) == CountRecentFrom(d.records, u, d.now, n.lockMark)
              && (n.quiet ==> CountRecent(d.records, u, d.now) == 0)
  {
    RunNoted(c, events, lib, u);
    hide Noted, Step;
    UnlockCarries(Run(c, events, lib), NotesOf(c, events, lib, u), lib, u, sync);
  }

  lemma UnlockCarries(d: Cluster, n: Notes, lib: Library, u: string, sync: Event)
    requires Noted(d, n, u) && sync.Sync? && sync.name == u
    ensures Locked(d, u) && IsActive(Step(d, sync, lib), u) ==>
              && CountRecent(d.records, u, d.now) == CountRecentFrom(d.records, u, d.now, n.lockMark)
              && (n.quiet ==> CountRecent(d.records, u, d.now) == 0)
  {
    if Locked(d, u) && IsActive(Step(d, sync, lib), u) {
      assert d.users[u].status.since.value + COOL_OFF < d.now;
      hide Step;
      CountedIsThere(d.records, u, d.now);
      AllFrom(d.records, u, d.now, n.lockMark);
    }
  }

  lemma {:induction false} LabelOfPlain(login: string)
    ensures LabelOf(login) == login <==> '@' !in login
    ensures |LabelOf(login)| == |login|
  {
    if login != "" {
      LabelOfPlain(login[1..]);
      assert login == [login[0]] + login[1..];
    }
  }

  /** Is a wrong password for an active user, or no user at all, what the lookup of this login comes to? */
  predicate Mistaken(c: Cluster, login: string, password: string, listing: seq<string>, lib: Library) {
    match FindUser(c.users, login, listing, lib)
    case None => true
    case Some(name) =>
      var stored := c.users[name].password;
      IsActive(c, name) && (stored == "" || !lib.matches(stored, password))
  }

  /** A label is the login with a dash for every '@'. */
  lemma {:induction false} LabelOfDashes(login: string)
    ensures |LabelOf(login)| == |login|
    ensures forall i :: 0 <= i < |login| ==> LabelOf(login)[i] == if login[i] == '@' then '-' else login[i]
  {
    if login != "" {
      LabelOfDashes(login[1..]);
      assert forall i :: 0 < i < |login| ==>
          login[i] == login[1..][i - 1] && LabelOf(login)[i] == LabelOf(login[1..])[i - 1];
    }
  }

  /** Which attempts write a failed record for a locked user: under the user's own name exactly
      those with an empty password; under other logins, those that differ from the name only in '@'
      signs for dashes, and have an empty password or are mistaken about another user. */
  lemma FailureWhileLocked(c: Cluster, u: string, login: string, password: string, listing: seq<string>,
                           lookup: Fault, recording: Fault, lib: Library)
    requires Locked(c, u) && u != "" && '@' !in u && !lib.address(u)
    ensures var d := Step(c, Attempt(login, password, listing, lookup, recording), lib);
            WritesFailure(c, d, u) <==>
              && recording != RequestLost
              && if login == u then password == ""
                 else '@' in login && LabelOf(login) == u
                      && (password == "" || (lookup == Delivered && Mistaken(c, login, password, listing, lib)))
  {
    hide Step, LabelOf, WritesFailure, FindUser;
    LabelOfPlain(u);
    LabelOfPlain(login);
    AttemptWrites(c, u, login, password, listing, lookup, recording, lib);
    IncorrectMeans(c, login, password, listing, lookup, lib);
    FoundByName(c, u, listing, lib);
  }

  lemma AttemptWrites(c: Cluster, u: string, login: string, password: string, listing: seq<string>,
                      lookup: Fault, recording: Fault, lib: Library)
    ensures var d := Step(c, Attempt(login, password, listing, lookup, recording), lib);
            WritesFailure(c, d, u) <==>
              && recording != RequestLost && LabelOf(login) == u
              && Authenticate(c.users, login, password, listing, lookup, lib) == IncorrectPassword
  {
    hide Authenticate, LabelOf;
  }

  lemma IncorrectMeans(c: Cluster, login: string, password: string, listing: seq<string>, lookup: Fault, lib: Library)
    ensures Authenticate(c.users, login, password, listing, lookup, lib) == IncorrectPassword <==>
              login == "" || password == "" || (lookup == Delivered && Mistaken(c, login, password, listing, lib))
  {
    hide FindUser;
  }

  lemma FoundByName(c: Cluster, u: string, listing: seq<string>, lib: Library)
    requires Locked(c, u) && !lib.address(u)
    ensures FindUser(c.users, u, listing, lib) == Some(u) && !IsActive(c, u)
  {}

  lemma StepFailure(c: Cluster, e: Event, lib: Library, u: string)
    requires e.Attempt? ==> LabelOf(e.login) != u
    ensures !WritesFailure(c, Step(c, e, lib), u)
  {
    if e.ReconcileRecord? {
      CollectDrops(c, e.id, e.updating, e.deletion);
    }
  }

  /** A user attacked only under logins whose label is not the user's name is never locked: a login
      by mail address counts for the address with its '@' replaced, whoever is found by it. */
  lemma {:induction false} NeverLockedByAlias(c: Cluster, events: seq<Event>, lib: Library, u: string)
    requires Empty(c) && forall e :: e in events && e.Attempt? ==> LabelOf(e.login) != u
    ensures NotesOf(c, events, lib, u).newest == None && !Locked(Run(c, events, lib), u)
  {
    RunNoted(c, events, lib, u);
    hide Step;
    if events != [] {
      var before, last := events[..|events| - 1], events[|events| - 1];
      assert last in events && forall e :: e in before ==> e in events;
      NeverLockedByAlias(c, before, lib, u);
      StepFailure(Run(c, before, lib), last, lib, u);
    }
  }

  function Repeat(e: Event, k: nat): seq<Event> {
    if k == 0 then [] else Repeat(e, k - 1) + [e]
  }

  /** An attempt with an empty password is one more failure, even if no user can be looked up. */
  lemma EmptyPasswordCounts(c: Cluster, u: string, lookup: Fault, lib: Library)
    requires u != "" && '@' !in u
    ensures var d := Step(c, Attempt(u, "", [], lookup, Delivered), lib);
            && d.users == c.users && d.now == c.now
            && CountRecent(d.records, u, d.now) == CountRecent(c.records, u, c.now) + 1
  {
    LabelOfPlain(u);
    var d := Step(c, Attempt(u, "", [], lookup, Delivered), lib);
    assert d.records[..|d.records| - 1] == c.records;
  }

  lemma {:induction false} EmptyPasswordsCount(c: Cluster, u: string, lookup: Fault, k: nat, lib: Library)
    requires u != "" && '@' !in u
    ensures var d := Run(c, Repeat(Attempt(u, "", [], lookup, Delivered), k), lib);
            && d.users == c.users && d.now == c.now
            && CountRecent(d.records, u, d.now) == CountRecent(c.records, u, c.now) + k
  {
    hide Step, CountRecent;
    if k > 0 {
      var e := Attempt(u, "", [], lookup, Delivered);
      var events := Repeat(e, k);
      EmptyPasswordsCount(c, u, lookup, k - 1, lib);
      assert events[..|events| - 1] == Repeat(e, k - 1) && events[|events| - 1] == e;
      EmptyPasswordCounts(Run(c, Repeat(e, k - 1), lib), u, lookup, lib);
    }
  }

  /** A sync after the cool-off unlocks and leaves the count as it is. */
  lemma SyncUnlocks(d: Cluster, u: string, lib: Library)
    requires Locked(d, u) && !d.users[u].deleting
    requires d.users[u].status.since.Some? && d.users[u].status.since.value + COOL_OFF < d.now
    ensures var t := Step(d, Sync(u, Delivered, Delivered), lib);
            IsActive(t, u) && !t.users[u].deleting && t.records == d.records && t.now == d.now
  {
    hide CountRecent;
  }

  /** A sync of an active user locks by the count. */
  lemma SyncLocks(d: Cluster, u: string, lib: Library)
    requires IsActive(d, u) && !d.users[u].deleting
    ensures Locked(Step(d, Sync(u, Delivered, Delivered), lib), u) <==> CountRecent(d.records, u, d.now) >= THRESHOLD
  {
    hide CountRecent;
  }

  /** The budget is not fresh in every run: empty passwords sent to a user about to be unlocked count,
      so that with ten of them the sync after the unlock locks the user again, without a failure in
      between. */
  lemma EmptyPasswordsSpendTheBudget(c: Cluster, u: string, lookup: Fault, k: nat, lib: Library)
    requires u != "" && '@' !in u && Locked(c, u) && !c.users[u].deleting
    requires c.users[u].status.since.Some? && c.users[u].status.since.value + COOL_OFF < c.now
    ensures var d := Run(c, Repeat(Attempt(u, "", [], lookup, Delivered), k), lib);
            var unlocked := Step(d, Sync(u, Delivered, Delivered), lib);
            && IsActive(unlocked, u)
            && (Locked(Step(unlocked, Sync(u, Delivered, Delivered), lib), u) <==>
                  CountRecent(c.records, u, c.now) + k >= THRESHOLD)
  {
    EmptyPasswordsCount(c, u, lookup, k, lib);
    hide Step, Run, Repeat, CountRecent;
    var d := Run(c, Repeat(Attempt(u, "", [], lookup, Delivered), k), lib);
    SyncUnlocks(d, u, lib);
    SyncLocks(Step(d, Sync(u, Delivered, Delivered), lib), u, lib);
  }

  // ---- collecting old records ----

  lemma {:induction false} FindRecordLast(records: seq<LoginRecord>, id: nat)
    ensures FindRecord(records, id) == None <==> forall r :: r in records ==> r.id != id
  {
    if records != [] {
      var n := |records| - 1;
      FindRecordLast(records[..n], id);
      assert forall r :: r in records <==> r in records[..n] || r == records[n];
    }
  }

  /** Everything reconciling a stored record of an existing user does: the user's last login becomes
      the time of the record if that is later, and a record more than seven days old goes. */
  lemma CollectOutcome(c: Cluster, k: nat, updating: Fault, deletion: Fault)
    requires k < |c.records| && FindRecord(c.records, c.records[k].id) == Some(k)
    requires c.records[k].userRef != "" && c.records[k].userRef in c.users
    ensures var r, d := c.records[k], Collect(c, c.records[k].id, updating, deletion);
            var u := c.users[r.userRef];
            var later := !u.deleting && (u.status.lastLogin.Some? ==> u.status.lastLogin.value < r.created);
            var overdue := c.now - r.created > 7 * 24 * 3600;
            var seen := u.(status := u.status.(lastLogin := Some(r.created)));
            && d.users == (if later && updating != RequestLost then c.users[r.userRef := seen] else c.users)
            && d.records == (if overdue && !(later && updating != Delivered) && deletion != RequestLost
                             then c.records[..k] + c.records[k + 1..] else c.records)
            && (CollectFails(c, r.id, updating, deletion) <==>
                  (later && updating != Delivered) || (overdue && deletion != Delivered))
  {}

  /** A record of nobody, or of a user who does not exist, is left alone with an error. */
  lemma CollectRefuses(c: Cluster, id: nat, updating: Fault, deletion: Fault)
    ensures FindRecord(c.records, id) == None ==>
              Collect(c, id, updating, deletion) == c && !CollectFails(c, id, updating, deletion)
    ensures FindRecord(c.records, id).Some? && c.records[FindRecord(c.records, id).value].userRef !in c.users ==>
              Collect(c, id, updating, deletion) == c && CollectFails(c, id, updating, deletion)
  {}

  /** No run loses a record in its first seven days. */
  lemma {:induction false} YoungRecordsStay(c: Cluster, events: seq<Event>, lib: Library, r: LoginRecord)
    requires r in c.records
    ensures c.now <= Run(c, events, lib).now
    ensures Run(c, events, lib).now - r.created <= 7 * 24 * 3600 ==> r in Run(c, events, lib).records
  {
    if events != [] {
      var before, e := events[..|events| - 1], events[|events| - 1];
      YoungRecordsStay(c, before, lib, r);
      TimePasses(Run(c, before, lib), e, lib);
      hide Step;
      if r in Run(c, before, lib).records {
        YoungRecordStays(Run(c, before, lib), e, lib, r);
      }
    }
  }

  lemma YoungRecordStays(c: Cluster, e: Event, lib: Library, r: LoginRecord)
    requires r in c.records
    ensures Step(c, e, lib).now - r.created <= 7 * 24 * 3600 ==> r in Step(c, e, lib).records
  {
    if e.ReconcileRecord? {
      var f := FindRecord(c.records, e.id);
      if f.Some? {
        var k := f.value;
        assert c.records == c.records[..k] + [c.records[k]] + c.records[k + 1..];
        assert r in c.records[..k] + c.records[k + 1..] || r == c.records[k];
      }
    }
    hide FindRecord, Authenticate, SyncUser;
  }

  function WithoutCollection(events: seq<Event>): seq<Event> {
    if events == [] then []
    else
      var last := events[|events| - 1];
      WithoutCollection(events[..|events| - 1]) + if last.ReconcileRecord? then [] else [last]
  }

  /** Two clusters that differ at most in records too old to count and in last-login times. */
  ghost predicate Alike(c: Cluster, d: Cluster) {
    && c.now == d.now && c.nextId == d.nextId && c.users.Keys == d.users.Keys
    && (forall u :: u in c.users ==>
         d.users[u] == c.users[u].(status := d.users[u].status) && SameLock(c.users[u].status, d.users[u].status))
    && (forall u, t :: t >= c.now ==> CountRecent(c.records, u, t) == CountRecent(d.records, u, t))
  }

  lemma {:induction false} RemoveUncounted(records: seq<LoginRecord>, k: nat, user: string, now: int)
    requires k < |records| && !Recent(records[k], user, now)
    ensures CountRecent(records[..k] + records[k + 1..], user, now) == CountRecent(records, user, now)
  {
    var n := |records| - 1;
    var t := records[..k] + records[k + 1..];
    if k == n {
      assert t == records[..n];
    } else {
      RemoveUncounted(records[..n], k, user, now);
      assert t[..n - 1] == records[..n][..k] + records[..n][k + 1..];
      assert t[n - 1] == records[n];
    }
  }

  lemma CollectAlike(c: Cluster, d: Cluster, id: nat, updating: Fault, deletion: Fault)
    requires Alike(c, d)
    ensures Alike(Collect(c, id, updating, deletion), d)
  {
    var t := Collect(c, id, updating, deletion);
    CollectDrops(c, id, updating, deletion);
    forall u, now | now >= c.now
      ensures CountRecent(t.records, u, now) == CountRecent(c.records, u, now)
    {
      if t.records != c.records {
        RemoveUncounted(c.records, FindRecord(c.records, id).value, u, now);
      }
    }
  }

  lemma {:induction false} FindByEmailAlike(c: map<string, User>, d: map<string, User>, email: string,
                                            listing: seq<string>)
    requires c.Keys == d.Keys && forall u :: u in c ==> c[u].email == d[u].email
    ensures FindByEmail(c, email, listing) == FindByEmail(d, email, listing)
  {
    if listing != [] {
      FindByEmailAlike(c, d, email, listing[1..]);
    }
  }

  lemma RecordedAlike(c: Cluster, d: Cluster, login: string, success: bool, recording: Fault)
    requires Alike(c, d)
    ensures Alike(Recorded(c, login, success, recording), Recorded(d, login, success, recording))
  {
    var r := LoginRecord(c.nextId, LabelOf(login), success, c.now);
    assert (c.records + [r])[..|c.records|] == c.records && (d.records + [r])[..|d.records|] == d.records;
  }

  lemma FindUserAlike(c: Cluster, d: Cluster, login: string, listing: seq<string>, lib: Library)
    requires Alike(c, d)
    ensures FindUser(c.users, login, listing, lib) == FindUser(d.users, login, listing, lib)
  {
    hide CountRecent;
    FindByEmailAlike(c.users, d.users, login, listing);
  }

  lemma AuthenticateAlike(c: Cluster, d: Cluster, e: Event, lib: Library)
    requires Alike(c, d) && e.Attempt?
    ensures Authenticate(c.users, e.login, e.password, e.listing, e.lookup, lib)
         == Authenticate(d.users, e.login, e.password, e.listing, e.lookup, lib)
  {
    FindUserAlike(c, d, e.login, e.listing, lib);
    hide FindUser, CountRecent;
  }

  lemma WithStatusAlike(c: Cluster, d: Cluster, name: string, s: Status)
    requires Alike(c, d) && name in c.users
    ensures Alike(WithStatus(c, name, s), WithStatus(d, name, s))
  {
    hide CountRecent;
  }

  lemma NextAlike(c: Cluster, d: Cluster, name: string, listRecords: Fault, lib: Library)
    requires Alike(c, d) && name in c.users
    ensures NextStatus(c.users[name], Recount(c, name, listRecords), c.now, lib)
         == NextStatus(d.users[name], Recount(d, name, listRecords), d.now, lib)
    ensures c.users[name].deleting == d.users[name].deleting
  {
    hide CountRecent;
    assert Recount(c, name, listRecords) == Recount(d, name, listRecords);
  }

  lemma SyncAlike(c: Cluster, d: Cluster, e: Event, lib: Library)
    requires Alike(c, d) && e.Sync?
    ensures Alike(Step(c, e, lib), Step(d, e, lib))
  {
    if e.name in c.users {
      NextAlike(c, d, e.name, e.listRecords, lib);
      hide NextStatus, Recount;
      match NextStatus(c.users[e.name], Recount(c, e.name, e.listRecords), c.now, lib)
      case None =>
      case Some(s) => WithStatusAlike(c, d, e.name, s);
    }
    hide Alike, NextStatus, Recount, WithStatus;
  }

  lemma StepAlike(c: Cluster, d: Cluster, e: Event, lib: Library)
    requires Alike(c, d) && !e.ReconcileRecord?
    ensures Alike(Step(c, e, lib), Step(d, e, lib))
  {
    hide Authenticate, Recorded, SyncUser, CountRecent;
    match e
    case Attempt(login, _, _, _, recording) =>
      AuthenticateAlike(c, d, e, lib);
      RecordedAlike(c, d, login, false, recording);
    case RecordSuccess(login, recording) => RecordedAlike(c, d, login, true, recording);
    case Sync(_, _, _) => SyncAlike(c, d, e, lib);
    case _ =>
  }

  /** Collecting records never changes a lock decision: with all collection left out of a run, every
      user ends in the same state, for the same reason and since the same time. */
  lemma {:induction false} CollectionInvisible(c: Cluster, events: seq<Event>, lib: Library)
    ensures Alike(Run(c, events, lib), Run(c, WithoutCollection(events), lib))
  {
    if events != [] {
      var before, last := events[..|events| - 1], events[|events| - 1];
      CollectionInvisible(c, before, lib);
      var b, w := Run(c, before, lib), Run(c, WithoutCollection(before), lib);
      hide Alike;
      if last.ReconcileRecord? {
        CollectAlike(b, w, last.id, last.updating, last.deletion);
        assert WithoutCollection(events) == WithoutCollection(before);
      } else {
        StepAlike(b, w, last, lib);
        var kept := WithoutCollection(events);
        assert kept[..|kept| - 1] == WithoutCollection(before) && kept[|kept| - 1] == last;
      }
    }
  }

  // ---- the code ----

  class LoginSystem {
    var now: int
    var users: map<string, User>
    var records: seq<LoginRecord>
    var nextId: nat
    const lib: Library

    function State(): Cluster
      reads this
    {
      Cluster(now, users, records, nextId)
    }

    method UpdateStatus(name: string, s: Status, updating: Fault) returns (failed: bool)
      requires name in users
      modifies this`users
      ensures State() == if updating == RequestLost then old(State()) else WithStatus(old(State()), name, s)
      ensures failed == (updating != Delivered)
    {
      if updating != RequestLost {
        users := users[name := users[name].(status := s)];
      }
      return updating != Delivered;
    }

    /** UserReconciler.syncUserStatus, of a user not being deleted. */
    method SyncUserStatus(name: string, listRecords: Fault, updating: Fault) returns (failed: bool)
      requires name in users && !users[name].deleting
      modifies this`users
      ensures State() == Step(old(State()), Sync(name, listRecords, updating), lib)
      ensures failed == SyncFails(old(State()), name, listRecords, updating, lib)
    {
      var user := users[name];
      if user.status.state == Some(Disabled) {
        return false;
      }
      if lib.encrypted(user.password) && user.status.state == None {
        failed := UpdateStatus(name, Status(Some(Active), None, Some(now), None), updating);
        return;
      }
      if user.status.state == Some(AuthLimitExceeded) {
        if user.status.since.Some? && user.status.since.value + COOL_OFF < now {
          failed := UpdateStatus(name, Status(Some(Active), None, Some(now), None), updating);
          return;
        }
      }
      if listRecords != Delivered {
        return true;
      }
      var failedLoginAttempts := 0;
      for i := 0 to |records|
        invariant failedLoginAttempts == CountRecent(records[..i], name, now)
      {
        assert records[..i + 1][..i] == records[..i];
        if records[i].userRef == name && !records[i].success && records[i].created + WINDOW > now {
          failedLoginAttempts := failedLoginAttempts + 1;
        }
      }
      assert records[..|records|] == records;
      if failedLoginAttempts >= THRESHOLD {
        failed := UpdateStatus(name, Status(Some(AuthLimitExceeded), Some(failedLoginAttempts), Some(now), None),
                               updating);
        return;
      }
      return false;
    }

    method RecordLogin(login: string, success: bool, recording: Fault) returns (failed: bool)
      modifies this`records, this`nextId
      ensures State() == Recorded(old(State()), login, success, recording)
      ensures failed == (recording != Delivered)
    {
      if recording != RequestLost {
        records := records + [LoginRecord(nextId, LabelOf(login), success, now)];
        nextId := nextId + 1;
      }
      return recording != Delivered;
    }

    /** A failure to record is logged and otherwise ignored. */
    method AuthenticatePassword(login: string, password: string, listing: seq<string>, lookup: Fault, recording: Fault)
      returns (r: AuthResult)
      modifies this`records, this`nextId
      ensures r == Authenticate(old(users), login, password, listing, lookup, lib)
      ensures State() == Step(old(State()), Attempt(login, password, listing, lookup, recording), lib)
    {
      r := Authenticate(users, login, password, listing, lookup, lib);
      if r == IncorrectPassword {
        var failed := RecordLogin(login, false, recording);
      }
    }

    /** LoginRecordController.Reconcile. */
    method ReconcileLoginRecord(id: nat, updating: Fault, deletion: Fault) returns (failed: bool)
      modifies this`users, this`records
      ensures State() == Step(old(State()), Event.ReconcileRecord(id, updating, deletion), lib)
      ensures failed == CollectFails(old(State()), id, updating, deletion)
    {
      var found := FindRecord(records, id);
      if found == None {
        return false;
      }
      var record := records[found.value];
      if record.userRef == "" || record.userRef !in users {
        return true;
      }
      var user := users[record.userRef];
      if !user.deleting && (user.status.lastLogin == None || user.status.lastLogin.value < record.created) {
        failed := UpdateStatus(record.userRef, user.status.(lastLogin := Some(record.created)), updating);
        if failed {
          return;
        }
      }
      if record.created + RETENTION < now {
        if deletion != RequestLost {
          records := records[..found.value] + records[found.value + 1..];
        }
        return deletion != Delivered;
      }
      return false;
    }
  }
}
