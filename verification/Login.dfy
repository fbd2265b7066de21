/** The role a login reports: the password authenticator looks the user up by name or mail address,
    but asks for the platform role under the login as typed. */
module Login {
  import opened Iam
  import opened Naming
  import G = GlobalRoles
  import L = Lockout

  /** Object names contain no '@', mail addresses do. */
  ghost predicate Named(users: map<string, L.User>, t: G.Bindings, lib: L.Library) {
    && (forall u :: u in users ==> u != "" && '@' !in u)
    && (forall n :: n in t ==> '@' !in t[n].userRef)
    && (forall s :: lib.address(s) ==> '@' in s)
  }

  /** The scanning reader reports no role exactly for users without a binding. */
  lemma ScannedNone(t: G.Bindings, globalRoles: set<string>, prefix: string, user: string, o: G.Oracle)
    requires G.Canonical(t, globalRoles, prefix) && user != "" && G.Faithful(o)
    ensures G.GetGlobalRoleOfUser(o.list(t), globalRoles, user) == None <==> !HasBinding(t, user)
  {
    G.ListedFor(t, globalRoles, prefix, user, o);
    hide BindingName, G.PlatformRoles, BindingsFor;
    var found := BindingsFor(o.list(t), user, []);
    if HasBinding(t, user) {
      var n :| n in t && t[n].userRef == user;
      assert t[n] in found;
    }
    if found != [] {
      assert found[0] in found && t[found[0].name] == found[0];
    }
  }

  /** The role reported by a login that succeeds as `u` is the one the scanning reader tells of `u`:
      by the user's own name exactly when the name-based reader sees the user's binding; by mail
      address, where it reports no role at all, exactly when the user has none. */
  lemma LoginReportsRole(users: map<string, L.User>, login: string, password: string, listing: seq<string>,
                         lookup: Fault, lib: L.Library, u: string, t: G.Bindings, globalRoles: set<string>,
                         prefix: string, o: G.Oracle, answered: string -> bool)
    requires L.Authenticate(users, login, password, listing, lookup, lib) == L.Authenticated(u) && Named(users, t, lib)
    requires G.Canonical(t, globalRoles, prefix) && G.Faithful(o)
    ensures G.GetGlobalRoleOfUser(o.list(t), globalRoles, u)
              == G.WithPrefix(prefix, G.FindGlobalRole(t, answered, prefix, login)) <==>
            if '@' in login then !HasBinding(t, u) else G.SeesBinding(t, answered, prefix, u)
  {
    hide BindingName, G.Canonical, G.FindGlobalRole, G.GetGlobalRoleOfUser;
    if '@' in login {
      ScannedNone(t, globalRoles, prefix, u, o);
      G.NothingUnderLogin(t, globalRoles, prefix, login, answered);
    } else {
      assert u == login;
      G.ReadersAgreeOn(t, globalRoles, prefix, u, o, answered);
    }
  }

  /** The password grant of the token endpoint first describes the user by the login as a name. */
  function PasswordGrant(users: map<string, L.User>, login: string, password: string, listing: seq<string>,
                         lookup: Fault, lib: L.Library): L.AuthResult
  {
    if login !in users || lookup != Delivered then L.LookupFailed
    else L.Authenticate(users, login, password, listing, lookup, lib)
  }

  /** Who is granted a token: an active user with the right password, under the user's own name. */
  lemma PasswordGrantMeans(users: map<string, L.User>, login: string, password: string, listing: seq<string>,
                           lookup: Fault, lib: L.Library, u: string, t: G.Bindings)
    requires Named(users, t, lib)
    ensures PasswordGrant(users, login, password, listing, lookup, lib) == L.Authenticated(u) <==>
              && login == u && u in users && password != "" && lookup == Delivered
              && users[u].status.state == Some(L.Active)
              && users[u].password != "" && lib.matches(users[u].password, password)
  {
    L.AuthenticateMeans(users, login, password, listing, lookup, lib, u);
    hide L.Authenticate;
  }

  /** So tokens are only granted under the user's own name, and the role in them is the scanned one
      exactly when the name-based reader sees the user's binding. */
  lemma GrantedTokenReportsRole(users: map<string, L.User>, login: string, password: string, listing: seq<string>,
                                lookup: Fault, lib: L.Library, u: string, t: G.Bindings, globalRoles: set<string>,
                                prefix: string, o: G.Oracle, answered: string -> bool)
    requires PasswordGrant(users, login, password, listing, lookup, lib) == L.Authenticated(u) && Named(users, t, lib)
    requires G.Canonical(t, globalRoles, prefix) && G.Faithful(o)
    ensures u == login
    ensures G.GetGlobalRoleOfUser(o.list(t), globalRoles, u)
              == G.WithPrefix(prefix, G.FindGlobalRole(t, answered, prefix, login)) <==>
            G.SeesBinding(t, answered, prefix, u)
  {
    LoginReportsRole(users, login, password, listing, lookup, lib, u, t, globalRoles, prefix, o, answered);
  }
}
