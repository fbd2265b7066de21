/** Platform roles: granting one to a user, and the two readers that tell a user's role, one by
    scanning the subjects of every binding, the other by guessing the binding's name. */
module GlobalRoles {
  import opened Iam
  import opened Naming

  const PLATFORM_ADMIN := "platform-admin"
  const PLATFORM_SELF_PROVISIONER := "platform-self-provisioner"
  const PLATFORM_REGULAR := "platform-regular"

  /** The user the login path takes for a platform admin without looking. */
  const BUILT_IN_ADMIN := "admin"

  type Bindings = map<string, Binding>

  /** How lists are ordered and what becomes of each call. */
  datatype Oracle = Oracle(list: Bindings -> seq<Binding>, getting: Fault, listing: Fault, deleting: string -> Fault,
                           creating: Fault)

  ghost predicate Faithful(o: Oracle) {
    forall bindings :: Lists(o.list(bindings), bindings)
  }

  ghost predicate FaultFree(o: Oracle) {
    o.getting == o.listing == o.creating == Delivered && forall n :: o.deleting(n) == Delivered
  }

  function GlobalBindingFor(user: string, role: string): Binding {
    Binding(BindingName(user, role), user, [Subject(USER_KIND, user, "")], RoleRef(GLOBAL_ROLE_KIND, role))
  }

  datatype Cleared = Kept | Done | Failed(error: ApiError)

  /** Delete the user's listed bindings until one already grants the role. */
  function DropOthers(s: Bindings, role: string, items: seq<Binding>, o: Oracle): (Cleared, Bindings)
    decreases |items|
  {
    if items == [] then (Done, s)
    else if items[0].roleRef.name == role then (Kept, s)
    else
      var name, f := items[0].name, o.deleting(items[0].name);
      var after := if f == RequestLost then s else s - {name};
      if f != Delivered then (Failed(Unavailable), after) else DropOthers(after, role, items[1..], o)
  }

  function GrantGlobal(s: Bindings, globalRoles: set<string>, user: string, role: string, o: Oracle)
    : (Option<ApiError>, Bindings)
  {
    if o.getting != Delivered then (Some(Unavailable), s)
    else if role !in globalRoles then (Some(NotFound), s)
    else if o.listing != Delivered then (Some(Unavailable), s)
    else
      var (cleared, t) := DropOthers(s, role, BindingsFor(o.list(s), user, []), o);
      var b := GlobalBindingFor(user, role);
      match cleared
      case Kept => (None, t)
      case Failed(error) => (Some(error), t)
      case Done =>
        if o.creating == RequestLost then (Some(Unavailable), t)
        else if b.name in t then (Some(if o.creating == Delivered then AlreadyExists else Unavailable), t)
        else (if o.creating == Delivered then None else Some(Unavailable), t[b.name := b])
  }

  /** The role named by the first binding listed for the user, provided that role exists. */
  function GetGlobalRoleOfUser(items: seq<Binding>, globalRoles: set<string>, user: string): Option<string> {
    var found := BindingsFor(items, user, []);
    if found == [] || found[0].roleRef.name !in globalRoles then None else Some(found[0].roleRef.name)
  }

  predicate Gets(s: Bindings, answered: string -> bool, name: string) {
    name in s && answered(name)
  }

  /** The role of the first binding found by name. A lost Get reads as "no such binding". */
  function FindGlobalRole(s: Bindings, answered: string -> bool, prefix: string, user: string): string {
    if user == BUILT_IN_ADMIN then PLATFORM_ADMIN
    else if Gets(s, answered, user + "-" + prefix + PLATFORM_ADMIN) then PLATFORM_ADMIN
    else if Gets(s, answered, user + "-" + prefix + PLATFORM_SELF_PROVISIONER) then PLATFORM_SELF_PROVISIONER
    else if Gets(s, answered, user + "-" + prefix + PLATFORM_REGULAR) then PLATFORM_REGULAR
    else ""
  }

  function PlatformRoles(prefix: string): set<string> {
    {prefix + "platform-admin", prefix + "platform-self-provisioner", prefix + "platform-regular"}
  }

  lemma SuffixEnds(a: string, b: string)
    requires IsSuffix(a, b) && |a| >= 2
    ensures a[|a| - 1] == b[|b| - 1] && a[|a| - 2] == b[|b| - 2]
  {}

  /** Whatever the prefix, the names of platform bindings tell users and roles apart. */
  lemma PlatformRolesUnambiguous(prefix: string)
    ensures Unambiguous(PlatformRoles(prefix))
  {
    var roles := PlatformRoles(prefix);
    forall r, s | r in roles && s in roles && IsSuffix("-" + r, "-" + s)
      ensures r == s
    {
      SuffixEnds("-" + r, "-" + s);
    }
  }

  /** Every binding is one `GrantGlobal` makes, for a platform role that exists, one per user. */
  ghost predicate Canonical(s: Bindings, globalRoles: set<string>, prefix: string) {
    && OnePerUser(s)
    && forall n :: n in s ==>
         && s[n] == GlobalBindingFor(s[n].userRef, s[n].roleRef.name) && s[n].name == n
         && s[n].userRef != ""
         && s[n].roleRef.name in PlatformRoles(prefix) && s[n].roleRef.name in globalRoles
  }

  lemma ListedFor(s: Bindings, globalRoles: set<string>, prefix: string, user: string, o: Oracle)
    requires Canonical(s, globalRoles, prefix) && user != "" && Faithful(o)
    ensures forall b :: b in BindingsFor(o.list(s), user, []) <==> b.name in s && s[b.name] == b && b.userRef == user
  {
    hide BindingName, PlatformRoles;
    assert Lists(o.list(s), s);
    forall b: Binding | b.name in s && s[b.name] == b
      ensures Contains(b.subjects, user, []) <==> b.userRef == user
    {
      assert b.subjects == [Subject(USER_KIND, b.userRef, "")];
      assert b.subjects[0] in b.subjects;
    }
  }

  /** Clearing touches the user's bindings only, and finishes with them gone unless one is kept. */
  lemma {:induction false} DropOthersOutcome(s: Bindings, user: string, role: string, items: seq<Binding>, o: Oracle)
    requires forall b :: b in items ==> b.userRef == user && (b.name in s ==> s[b.name] == b)
    requires forall n :: n in s && s[n].userRef == user ==> s[n] in items && s[n].name == n
    requires forall b, c :: b in items && c in items ==> b == c
    ensures var (cleared, t) := DropOthers(s, role, items, o);
            && (forall n :: n in t ==> n in s && t[n] == s[n])
            && Others(t, {user}) == Others(s, {user})
            && (cleared == Done ==> !HasBinding(t, user))
            && (cleared == Kept ==> t == s && items != [] && items[0].roleRef.name == role)
            && (FaultFree(o) ==> !cleared.Failed?)
    decreases |items|
  {
    if items != [] && items[0].roleRef.name != role {
      var name, f := items[0].name, o.deleting(items[0].name);
      var after := if f == RequestLost then s else s - {name};
      assert Others(after, {user}) == Others(s, {user});
      if f == Delivered {
        assert items[0] in items && forall b :: b in items[1..] ==> b in items;
        assert forall n :: n in after && after[n].userRef == user ==> s[n] in items && s[n] == items[0] && n == name;
        DropOthersOutcome(after, user, role, items[1..], o);
      }
    }
  }

  ghost function With(s: Bindings, user: string, role: string): Bindings {
    s[BindingName(user, role) := GlobalBindingFor(user, role)]
  }

  lemma SubsetCanonical(s: Bindings, t: Bindings, globalRoles: set<string>, prefix: string)
    requires Canonical(s, globalRoles, prefix)
    requires forall n :: n in t ==> n in s && t[n] == s[n]
    ensures Canonical(t, globalRoles, prefix)
  {
    hide BindingName, PlatformRoles;
  }

  lemma ListedOnce(s: Bindings, globalRoles: set<string>, prefix: string, user: string, role: string, o: Oracle)
    requires Canonical(s, globalRoles, prefix) && user != "" && Faithful(o)
    ensures var items := BindingsFor(o.list(s), user, []);
            && (forall b, c :: b in items && c in items ==> b == c)
            && (forall n :: n in s && s[n].userRef == user ==> s[n] in items && s[n].name == n)
            && (items != [] && items[0].roleRef.name == role ==> s == With(Others(s, {user}), user, role))
  {
    ListedFor(s, globalRoles, prefix, user, o);
    hide BindingName, PlatformRoles;
    var items := BindingsFor(o.list(s), user, []);
    if items != [] && items[0].roleRef.name == role {
      assert items[0] in items;
      assert s[items[0].name] == items[0] == GlobalBindingFor(user, role);
    }
  }

  /** Adding a binding for a user without one. */
  lemma AddOnePerUser(t: Bindings, user: string, name: string, b: Binding)
    requires OnePerUser(t) && !HasBinding(t, user) && name !in t && b.userRef == user
    ensures OnePerUser(t[name := b])
    ensures Others(t[name := b], {user}) == Others(t, {user})
  {}

  lemma CreateCanonical(t: Bindings, globalRoles: set<string>, prefix: string, user: string, role: string)
    requires Canonical(t, globalRoles, prefix) && user != "" && !HasBinding(t, user)
    requires role in PlatformRoles(prefix) && role in globalRoles
    ensures BindingName(user, role) !in t
    ensures Canonical(With(t, user, role), globalRoles, prefix)
    ensures Others(With(t, user, role), {user}) == Others(t, {user})
  {
    NameInStore(t, globalRoles, prefix, user, role);
    hide BindingName, PlatformRoles, OnePerUser, Others;
    AddOnePerUser(t, user, BindingName(user, role), GlobalBindingFor(user, role));
  }

  lemma OthersOfNone(t: Bindings, user: string)
    requires !HasBinding(t, user)
    ensures Others(t, {user}) == t
  {}

  /** A grant, whatever becomes of its calls, keeps bindings canonical and touches nobody else's;
      when it reports success the user has the requested role and no other. */
  lemma GrantGlobalOutcome(s: Bindings, globalRoles: set<string>, prefix: string, user: string, role: string, o: Oracle)
    requires Canonical(s, globalRoles, prefix) && user != "" && Faithful(o)
    requires role in PlatformRoles(prefix)
    ensures var (err, t) := GrantGlobal(s, globalRoles, user, role, o);
            && Canonical(t, globalRoles, prefix)
            && Others(t, {user}) == Others(s, {user})
            && (err == None ==> t == With(Others(s, {user}), user, role))
            && (FaultFree(o) && role in globalRoles ==> err == None)
  {
    hide BindingName, PlatformRoles, Canonical, BindingsFor, DropOthers, Others;
    ListedFor(s, globalRoles, prefix, user, o);
    ListedOnce(s, globalRoles, prefix, user, role, o);
    DropOthersOutcome(s, user, role, BindingsFor(o.list(s), user, []), o);
    var (cleared, t) := DropOthers(s, role, BindingsFor(o.list(s), user, []), o);
    SubsetCanonical(s, t, globalRoles, prefix);
    if cleared == Done && role in globalRoles {
      CreateCanonical(t, globalRoles, prefix, user, role);
      OthersOfNone(t, user);
    }
  }

  lemma {:induction false} DropOnce(s: Bindings, role: string, items: seq<Binding>, o: Oracle)
    requires items != [] && items[0].roleRef.name != role && forall b, c :: b in items && c in items ==> b == c
    ensures var f := o.deleting(items[0].name);
            DropOthers(s, role, items, o) == (if f == Delivered then Done else Failed(Unavailable),
                                              if f == RequestLost then s else s - {items[0].name})
    decreases |items|
  {
    if |items| > 1 && o.deleting(items[0].name) == Delivered {
      assert items[1] in items && items[0] in items && forall b :: b in items[1..] ==> b in items;
      var after := s - {items[0].name};
      DropOnce(after, role, items[1..], o);
      assert after - {items[0].name} == after;
    }
  }

  /** The role exists, and it and the user's bindings are read. */
  ghost predicate Reads(globalRoles: set<string>, role: string, o: Oracle) {
    o.getting == Delivered && role in globalRoles && o.listing == Delivered
  }

  /** The fate of the delete of the binding that the user has, if there is one. */
  ghost predicate Drops(s: Bindings, user: string, o: Oracle, fates: set<Fault>) {
    forall n :: n in s && s[n].userRef == user ==> o.deleting(n) in fates
  }

  /** When a grant reports success, and what it leaves, read off the store and the fates of the calls:
      a binding for the role is kept, another one is replaced. */
  lemma GrantGlobalEnds(s: Bindings, globalRoles: set<string>, prefix: string, user: string, role: string, o: Oracle)
    requires Canonical(s, globalRoles, prefix) && user != "" && Faithful(o) && role in PlatformRoles(prefix)
    ensures var (err, t) := GrantGlobal(s, globalRoles, user, role, o);
            var keeps := BindingName(user, role) in s;
            && (err == None <==>
                  && Reads(globalRoles, role, o)
                  && (keeps || (Drops(s, user, o, {Delivered}) && o.creating == Delivered)))
            && (err == Some(NotFound) <==> o.getting == Delivered && role !in globalRoles)
            && (err in {None, Some(NotFound), Some(Unavailable)})
            && t == (if !Reads(globalRoles, role, o) || keeps || !Drops(s, user, o, {Delivered, ResponseLost}) then s
                     else if !Drops(s, user, o, {Delivered}) || o.creating == RequestLost then Others(s, {user})
                     else With(Others(s, {user}), user, role))
  {
    ClearedMeans(s, globalRoles, prefix, user, role, o);
    SubsetCanonical(s, Others(s, {user}), globalRoles, prefix);
    OthersHasNone(s, user);
    if role in globalRoles {
      CreateCanonical(Others(s, {user}), globalRoles, prefix, user, role);
    }
    hide BindingName, PlatformRoles, BindingsFor, Canonical, Faithful, DropOthers, Drops, Others;
  }

  /** What clearing does to a canonical store. */
  lemma ClearedMeans(s: Bindings, globalRoles: set<string>, prefix: string, user: string, role: string, o: Oracle)
    requires Canonical(s, globalRoles, prefix) && user != "" && Faithful(o) && role in PlatformRoles(prefix)
    ensures DropOthers(s, role, BindingsFor(o.list(s), user, []), o)
         == if BindingName(user, role) in s then (Kept, s)
            else if !Drops(s, user, o, {Delivered, ResponseLost}) then (Failed(Unavailable), s)
            else if !Drops(s, user, o, {Delivered}) then (Failed(Unavailable), Others(s, {user}))
            else (Done, Others(s, {user}))
  {
    ListedFor(s, globalRoles, prefix, user, o);
    ListedOnce(s, globalRoles, prefix, user, role, o);
    NameInStore(s, globalRoles, prefix, user, role);
    var items := BindingsFor(o.list(s), user, []);
    hide BindingName, PlatformRoles, BindingsFor, Canonical, Faithful;
    if items == [] {
      assert Others(s, {user}) == s;
    } else {
      var b := items[0];
      assert b in items && b.name in s && s[b.name] == b && b.userRef == user;
      forall n | n in s && s[n].userRef == user
        ensures n == b.name
      {
        assert s[n] in items;
      }
      OnlyBinding(s, user, b.name, o);
      hide Drops, Others;
      if b.roleRef.name != role {
        DropOnce(s, role, items, o);
      }
    }
  }

  /** A user's only binding. */
  lemma OnlyBinding(s: Bindings, user: string, name: string, o: Oracle)
    requires name in s && s[name].userRef == user && forall n :: n in s && s[n].userRef == user ==> n == name
    ensures s - {name} == Others(s, {user})
    ensures forall fates :: Drops(s, user, o, fates) <==> o.deleting(name) in fates
  {}

  /** For a user whom no listed binding names, in any store: the binding is created unless its name
      is taken. */
  lemma GrantToUnnamed(s: Bindings, globalRoles: set<string>, user: string, role: string, o: Oracle)
    requires Reads(globalRoles, role, o) && BindingsFor(o.list(s), user, []) == []
    ensures var name := BindingName(user, role);
            GrantGlobal(s, globalRoles, user, role, o) ==
              if o.creating != Delivered then
                (Some(Unavailable), if o.creating == RequestLost || name in s then s else With(s, user, role))
              else if name in s then (Some(AlreadyExists), s)
              else (None, With(s, user, role))
  {
    hide BindingName, BindingsFor;
  }

  // ---- runs ----

  datatype Request = Request(user: string, role: string, o: Oracle)

  ghost predicate Proper(r: Request, prefix: string) {
    r.user != "" && r.role in PlatformRoles(prefix) && Faithful(r.o)
  }

  function GrantEach(s: Bindings, globalRoles: set<string>, requests: seq<Request>): Bindings {
    if requests == [] then s
    else
      var t := GrantEach(s, globalRoles, requests[..|requests| - 1]);
      var r := requests[|requests| - 1];
      GrantGlobal(t, globalRoles, r.user, r.role, r.o).1
  }

  /** A run is its grants one after the other. */
  lemma GrantEachStep(s: Bindings, globalRoles: set<string>, requests: seq<Request>, r: Request)
    ensures GrantEach(s, globalRoles, []) == s
    ensures GrantEach(s, globalRoles, requests + [r])
         == GrantGlobal(GrantEach(s, globalRoles, requests), globalRoles, r.user, r.role, r.o).1
  {
    hide GrantGlobal;
    assert (requests + [r])[..|requests + [r]| - 1] == requests;
  }

  lemma {:induction false} GrantEachCanonical(s: Bindings, globalRoles: set<string>, prefix: string,
                                              requests: seq<Request>)
    requires Canonical(s, globalRoles, prefix) && forall r :: r in requests ==> Proper(r, prefix)
    ensures Canonical(GrantEach(s, globalRoles, requests), globalRoles, prefix)
  {
    hide Canonical, PlatformRoles, GrantGlobal;
    if requests != [] {
      var before, r := requests[..|requests| - 1], requests[|requests| - 1];
      assert r in requests && forall q :: q in before ==> q in requests;
      GrantEachCanonical(s, globalRoles, prefix, before);
      GrantGlobalOutcome(GrantEach(s, globalRoles, before), globalRoles, prefix, r.user, r.role, r.o);
    }
  }

  /** The role a user's canonical binding names, by the name-based reader's own words. */
  function WithPrefix(prefix: string, role: string): Option<string> {
    if role == "" then None else Some(prefix + role)
  }

  /** What the name-based reader needs: the Get of the user's platform binding is answered; of the
      built-in admin it reports the platform admin role unseen. */
  ghost predicate SeesBinding(t: Bindings, answered: string -> bool, prefix: string, user: string) {
    if user == "admin" then BindingName(user, prefix + "platform-admin") in t
    else forall r :: r in PlatformRoles(prefix) && BindingName(user, r) in t ==> answered(BindingName(user, r))
  }

  /** After every run of grants, with any calls lost, the reader that scans subjects and the reader
      that guesses binding names report the same role up to the prefix exactly when the latter gets
      an answer where the user's binding is stored; for the built-in admin exactly when that
      binding makes it platform admin. */
  lemma ReadersAgree(s: Bindings, globalRoles: set<string>, prefix: string, requests: seq<Request>, user: string,
                     o: Oracle, answered: string -> bool)
    requires Canonical(s, globalRoles, prefix) && forall r :: r in requests ==> Proper(r, prefix)
    requires user != "" && Faithful(o)
    ensures var t := GrantEach(s, globalRoles, requests);
            GetGlobalRoleOfUser(o.list(t), globalRoles, user)
              == WithPrefix(prefix, FindGlobalRole(t, answered, prefix, user)) <==>
            SeesBinding(t, answered, prefix, user)
  {
    GrantEachCanonical(s, globalRoles, prefix, requests);
    ReadersAgreeOn(GrantEach(s, globalRoles, requests), globalRoles, prefix, user, o, answered);
  }

  lemma NameInStore(t: Bindings, globalRoles: set<string>, prefix: string, user: string, role: string)
    requires Canonical(t, globalRoles, prefix) && user != "" && role in PlatformRoles(prefix)
    ensures BindingName(user, role) in t
        <==> exists n :: n in t && t[n].userRef == user && t[n].roleRef.name == role
  {
    PlatformRolesUnambiguous(prefix);
    hide BindingName, PlatformRoles;
    var name := BindingName(user, role);
    if name in t {
      NameDetermines(PlatformRoles(prefix), user, role, t[name].userRef, t[name].roleRef.name);
    }
  }

  lemma ReadersAgreeOn(t: Bindings, globalRoles: set<string>, prefix: string, user: string, o: Oracle,
                       answered: string -> bool)
    requires Canonical(t, globalRoles, prefix) && user != "" && Faithful(o)
    ensures GetGlobalRoleOfUser(o.list(t), globalRoles, user)
              == WithPrefix(prefix, FindGlobalRole(t, answered, prefix, user)) <==>
            SeesBinding(t, answered, prefix, user)
  {
    ScannedRole(t, globalRoles, prefix, user, prefix + PLATFORM_ADMIN, o);
    ScannedRole(t, globalRoles, prefix, user, prefix + PLATFORM_SELF_PROVISIONER, o);
    ScannedRole(t, globalRoles, prefix, user, prefix + PLATFORM_REGULAR, o);
    ScannedSome(t, globalRoles, prefix, user, o);
    PlatformNames(prefix, user);
    hide BindingName, GetGlobalRoleOfUser, Canonical;
  }

  /** The names the name-based reader asks for, and three roles that differ. */
  lemma PlatformNames(prefix: string, user: string)
    ensures user + "-" + prefix + PLATFORM_ADMIN == BindingName(user, prefix + PLATFORM_ADMIN)
    ensures user + "-" + prefix + PLATFORM_SELF_PROVISIONER == BindingName(user, prefix + PLATFORM_SELF_PROVISIONER)
    ensures user + "-" + prefix + PLATFORM_REGULAR == BindingName(user, prefix + PLATFORM_REGULAR)
    ensures |prefix + PLATFORM_ADMIN| != |prefix + PLATFORM_SELF_PROVISIONER|
    ensures |prefix + PLATFORM_ADMIN| != |prefix + PLATFORM_REGULAR|
    ensures |prefix + PLATFORM_SELF_PROVISIONER| != |prefix + PLATFORM_REGULAR|
  {}

  /** Under a login that nobody's binding is labelled with, the name-based reader reports no role. */
  lemma NothingUnderLogin(t: Bindings, globalRoles: set<string>, prefix: string, login: string,
                          answered: string -> bool)
    requires Canonical(t, globalRoles, prefix) && login !in {"", "admin"} && !HasBinding(t, login)
    ensures FindGlobalRole(t, answered, prefix, login) == ""
  {
    PlatformNames(prefix, login);
    NameInStore(t, globalRoles, prefix, login, prefix + PLATFORM_ADMIN);
    NameInStore(t, globalRoles, prefix, login, prefix + PLATFORM_SELF_PROVISIONER);
    NameInStore(t, globalRoles, prefix, login, prefix + PLATFORM_REGULAR);
    hide BindingName, Canonical;
  }

  /** The scanning reader reports a role exactly when the store has the user's binding under the
      name for that role. */
  lemma ScannedRole(t: Bindings, globalRoles: set<string>, prefix: string, user: string, role: string, o: Oracle)
    requires Canonical(t, globalRoles, prefix) && user != "" && Faithful(o) && role in PlatformRoles(prefix)
    ensures GetGlobalRoleOfUser(o.list(t), globalRoles, user) == Some(role) <==> BindingName(user, role) in t
  {
    ListedFor(t, globalRoles, prefix, user, o);
    NameInStore(t, globalRoles, prefix, user, role);
    hide BindingName, PlatformRoles, BindingsFor;
    var found := BindingsFor(o.list(t), user, []);
    if found != [] {
      assert found[0] in found;
    }
    if BindingName(user, role) in t {
      var n :| n in t && t[n].userRef == user && t[n].roleRef.name == role;
      assert t[n] in found;
    }
  }

  lemma ScannedSome(t: Bindings, globalRoles: set<string>, prefix: string, user: string, o: Oracle)
    requires Canonical(t, globalRoles, prefix) && user != "" && Faithful(o)
    ensures var scanned := GetGlobalRoleOfUser(o.list(t), globalRoles, user);
            scanned.Some? ==> scanned.value in PlatformRoles(prefix)
  {
    ListedFor(t, globalRoles, prefix, user, o);
    hide BindingName, PlatformRoles, BindingsFor;
    var found := BindingsFor(o.list(t), user, []);
    if found != [] {
      assert found[0] in found;
    }
  }

  // ---- the code ----

  lemma FirstBinding(items: seq<Binding>, i: nat, user: string)
    requires i < |items|
    ensures var rest := BindingsFor(items[i + 1..], user, []);
            BindingsFor(items[i..], user, [])
              == if Contains(items[i].subjects, user, []) then [items[i]] + rest else rest
  {
    assert items[i..][1..] == items[i + 1..];
  }

  lemma NoBindings(user: string)
    ensures BindingsFor([], user, []) == []
  {}

  class AmOperator {
    var bindings: Bindings
    const globalRoles: set<string>

    constructor (bindings: Bindings, globalRoles: set<string>)
      ensures this.bindings == bindings && this.globalRoles == globalRoles
    {
      this.bindings, this.globalRoles := bindings, globalRoles;
    }

    method ListGlobalRoleBindings(user: string, o: Oracle) returns (err: Option<ApiError>, result: seq<Binding>)
      ensures err == if o.listing == Delivered then None else Some(Unavailable)
      ensures err == None ==> result == BindingsFor(o.list(bindings), user, [])
    {
      if o.listing != Delivered {
        return Some(Unavailable), [];
      }
      err, result := None, [];
      var items := o.list(bindings);
      hide BindingsFor, Contains;
      for i := 0 to |items|
        invariant result + BindingsFor(items[i..], user, []) == BindingsFor(items, user, [])
      {
        FirstBinding(items, i, user);
        if Contains(items[i].subjects, user, []) {
          result := result + [items[i]];
        }
      }
      assert items[|items|..] == [];
      NoBindings(user);
    }

    method CreateGlobalRoleBinding(user: string, role: string, o: Oracle) returns (err: Option<ApiError>)
      modifies this
      ensures (err, bindings) == GrantGlobal(old(bindings), globalRoles, user, role, o)
    {
      hide BindingName, BindingsFor;
      if o.getting != Delivered {
        return Some(Unavailable);
      }
      if role !in globalRoles {
        return Some(NotFound);
      }
      var roleBindings;
      err, roleBindings := ListGlobalRoleBindings(user, o);
      if err.Some? {
        return;
      }
      var i := 0;
      while i < |roleBindings|
        invariant 0 <= i <= |roleBindings|
        invariant DropOthers(old(bindings), role, roleBindings, o) == DropOthers(bindings, role, roleBindings[i..], o)
        invariant err == None
      {
        var b := roleBindings[i];
        if role == b.roleRef.name {
          return None;
        }
        if o.deleting(b.name) != RequestLost {
          bindings := bindings - {b.name};
        }
        if o.deleting(b.name) != Delivered {
          return Some(Unavailable);
        }
        i := i + 1;
      }
      var b := GlobalBindingFor(user, role);
      if o.creating == RequestLost {
        return Some(Unavailable);
      }
      if b.name in bindings {
        return Some(if o.creating == Delivered then AlreadyExists else Unavailable);
      }
      bindings := bindings[b.name := b];
      return if o.creating == Delivered then None else Some(Unavailable);
    }
  }
}
