/** From membership to decisions: what a grant or a removal in a namespace means for requests whose
    path addresses something in that namespace. */
module EndToEnd {
  import opened Iam
  import opened Naming
  import opened Rules
  import M = Membership
  import R = MembershipRuns
  import A = Authorization
  import P = RequestPath
  import G = GlobalRoles

  /** The attributes a parsed request is authorized by. */
  function AttributesOf(user: string, groups: seq<string>, info: P.RequestInfo): Attributes {
    Attributes(user, groups, info.verb, info.isResourceRequest, info.apiGroup, info.resource, info.subresource,
               info.name, info.namespace, info.scope, info.path)
  }

  /** The request of `user` for an address. */
  function RequestFor(user: string, groups: seq<string>, l: P.Locator, httpMethod: string, f: P.Factory, q: P.Query)
    : Attributes
  {
    AttributesOf(user, groups, P.Parse(f, P.Render(l), httpMethod, q).0)
  }

  /** Does the request watch what is labelled with a workspace? */
  predicate WatchesWorkspace(l: P.Locator, httpMethod: string, q: P.Query) {
    P.RestrictedWatch(P.VerbFor(httpMethod, l.name.Some?, q.watch), q)
  }

  /** Some global binding of the user grants the request. */
  ghost predicate GlobalGrant(a: Attributes, env: A.Env) {
    && env.globals.Listed?
    && exists b :: b in env.globals.items && A.NamesUser(b, a.user) && A.RoleGrants(a, env, b.roleRef, "")
  }

  /** The readers see the namespace as stored, in any order. */
  ghost predicate Synced(env: A.Env, namespace: string, t: M.NamespaceState) {
    env.inNamespace(namespace).Listed? && Lists(env.inNamespace(namespace).items, t.bindings)
  }

  ghost predicate OnlyLabelledNames(t: M.NamespaceState, user: string) {
    forall n :: n in t.bindings && t.bindings[n].userRef == "" ==> !A.NamesUser(t.bindings[n], user)
  }

  /** In a sound namespace a user's labelled bindings are the ones that name the user. */
  lemma LabelIsSubject(t: M.NamespaceState, roles: set<string>, user: string, n: string)
    requires M.Sound(t, roles) && user != "" && n in t.bindings && OnlyLabelledNames(t, user)
    ensures A.NamesUser(t.bindings[n], user) <==> t.bindings[n].userRef == user
  {
    var b := t.bindings[n];
    assert M.Canonical(b, roles);
    if b.userRef != "" {
      assert b.subjects == [Subject(USER_KIND, b.userRef, "")];
      assert b.subjects[0] in b.subjects;
    }
  }

  /** Some binding labelled with the requesting user has a role that grants the request. */
  ghost predicate HeldRoleGrants(t: M.NamespaceState, a: Attributes, env: A.Env, namespace: string) {
    exists n ::
      && n in t.bindings && t.bindings[n].userRef == a.user
      && A.RoleGrants(a, env, t.bindings[n].roleRef, namespace)
  }

  ghost predicate InNamespace(a: Attributes, namespace: string) {
    a.scope == NAMESPACE_SCOPE && a.namespace == namespace
  }

  /** For a namespaced request, the user's labelled bindings are all that the namespace contributes. */
  lemma NamespaceContributes(t: M.NamespaceState, roles: set<string>, a: Attributes, namespace: string, env: A.Env)
    requires M.Sound(t, roles) && a.user != "" && OnlyLabelledNames(t, a.user)
    requires Synced(env, namespace, t) && InNamespace(a, namespace)
    ensures A.Authorized(a, env).0 == A.Allow <==> GlobalGrant(a, env) || HeldRoleGrants(t, a, env, namespace)
  {
    A.AuthorizedMeans(a, env);
    forall n | n in t.bindings
      ensures A.NamesUser(t.bindings[n], a.user) <==> t.bindings[n].userRef == a.user
      ensures t.bindings[n] in env.inNamespace(namespace).items && A.Consulted(a, env, t.bindings[n], namespace)
    {
      LabelIsSubject(t, roles, a.user, n);
    }
    hide M.Sound, A.Authorized, A.NamesUser, A.RoleGrants;
    if GlobalGrant(a, env) {
      var b :| b in env.globals.items && A.NamesUser(b, a.user) && A.RoleGrants(a, env, b.roleRef, "");
      assert A.Consulted(a, env, b, "");
    }
  }

  /** A request whose path is an address is authorized by what the address says. */
  lemma AddressAttributes(user: string, groups: seq<string>, l: P.Locator, httpMethod: string, f: P.Factory, q: P.Query)
    requires P.Proper(l, f) && P.Unreserved(l)
    ensures var a := RequestFor(user, groups, l, httpMethod, f, q);
            && a.user == user && a.groups == groups && a.resourceRequest
            && a.verb == P.VerbFor(httpMethod, l.name.Some?, q.watch)
            && a.apiGroup == l.group.GetOr("") && a.resource == l.resource && a.subresource == l.subresource.GetOr("")
            && a.name == l.name.GetOr(P.SelectedName(httpMethod, q))
            && a.namespace == l.namespace.GetOr("") && a.path == P.Render(l)
            && a.scope == if WatchesWorkspace(l, httpMethod, q) then WORKSPACE_SCOPE else P.ScopeOf(l)
  {
    P.RoundTrip(l, f, httpMethod, q);
    hide P.Parse, P.Render, P.Proper, P.VerbFor, P.SelectedName;
  }

  /** A path in a namespace is decided in that namespace. */
  lemma AddressInNamespace(user: string, groups: seq<string>, l: P.Locator, httpMethod: string, f: P.Factory,
                           q: P.Query, namespace: string)
    requires P.Proper(l, f) && P.Unreserved(l) && l.namespace == Some(namespace) && !WatchesWorkspace(l, httpMethod, q)
    ensures InNamespace(RequestFor(user, groups, l, httpMethod, f, q), namespace)
  {
    AddressAttributes(user, groups, l, httpMethod, f, q);
    hide P.Parse, P.Render, P.Proper, RequestFor, WatchesWorkspace;
  }

  /** But a watch of what is labelled with a workspace is decided by global bindings alone, whatever
      namespace its path is in. */
  lemma WorkspaceWatchIsGlobal(user: string, groups: seq<string>, l: P.Locator, httpMethod: string, f: P.Factory,
                               q: P.Query, env: A.Env)
    requires P.Proper(l, f) && P.Unreserved(l) && WatchesWorkspace(l, httpMethod, q) && user != ""
    ensures var a := RequestFor(user, groups, l, httpMethod, f, q);
            A.Authorized(a, env).0 == A.Allow <==> GlobalGrant(a, env)
  {
    AddressAttributes(user, groups, l, httpMethod, f, q);
    var a := RequestFor(user, groups, l, httpMethod, f, q);
    hide P.Parse, P.Render, P.Proper, RequestFor, WatchesWorkspace, A.Authorized, A.RoleGrants, A.NamesUser;
    A.AuthorizedMeans(a, env);
    if GlobalGrant(a, env) {
      var b :| b in env.globals.items && A.NamesUser(b, a.user) && A.RoleGrants(a, env, b.roleRef, "");
      assert A.Consulted(a, env, b, "");
    }
  }

  /** After a role was granted without error, a member's request for an address in the namespace is
      allowed exactly when a global binding grants it, the role just granted does, or the member's
      first list failed and the role held before does. */
  lemma GrantTakesEffect(s: M.NamespaceState, user: string, role: string, roles: set<string>, o: M.Oracle, env: A.Env,
                         namespace: string, groups: seq<string>, l: P.Locator, httpMethod: string, f: P.Factory,
                         q: P.Query)
    requires M.Vocabulary(roles) && user != "" && role in roles && M.Tidy(s, roles)
    requires M.Faithful(o) && M.Grant(s, user, role, o).error == None
    requires Synced(env, namespace, M.Grant(s, user, role, o).Last())
    requires OnlyLabelledNames(M.Grant(s, user, role, o).Last(), user)
    requires P.Proper(l, f) && P.Unreserved(l) && l.namespace == Some(namespace) && !WatchesWorkspace(l, httpMethod, q)
    ensures var a := RequestFor(user, groups, l, httpMethod, f, q);
            A.Authorized(a, env).0 == A.Allow <==>
              || GlobalGrant(a, env)
              || A.RoleGrants(a, env, RoleRef(ROLE_KIND, role), namespace)
              || (o.fault(M.ListUser) != Delivered && HeldRoleGrants(s, a, env, namespace))
  {
    hide M.Tidy, M.Sound, M.Grant, RequestFor, A.Authorized, A.RoleGrants, GlobalGrant, Synced, OnlyLabelledNames;
    var t := M.Grant(s, user, role, o).Last();
    var a := RequestFor(user, groups, l, httpMethod, f, q);
    AddressInNamespace(user, groups, l, httpMethod, f, q, namespace);
    R.GrantedBindings(s, user, role, roles, o);
    RequestOf(user, groups, l, httpMethod, f, q);
    NamespaceContributes(t, roles, a, namespace, env);
    ExchangedRoles(s, t, user, role, o, M.ListUser, a, env, namespace);
  }

  lemma RequestOf(user: string, groups: seq<string>, l: P.Locator, httpMethod: string, f: P.Factory,
                         q: P.Query)
    ensures RequestFor(user, groups, l, httpMethod, f, q).user == user
  {}

  /** The roles a user holds after an exchange: the new one and, if the list failed, those before. */
  lemma ExchangedRoles(s: M.NamespaceState, t: M.NamespaceState, user: string, role: string, o: M.Oracle,
                       listing: M.Stage, a: Attributes, env: A.Env, namespace: string)
    requires R.SameFor(t.bindings, M.With(R.Kept(s.bindings, user, o, listing), user, role), user)
    requires BindingName(user, role) !in R.Kept(s.bindings, user, o, listing)
    requires a.user == user
    ensures HeldRoleGrants(t, a, env, namespace) <==>
              || A.RoleGrants(a, env, RoleRef(ROLE_KIND, role), namespace)
              || (o.fault(listing) != Delivered && HeldRoleGrants(s, a, env, namespace))
  {
    hide BindingName, A.RoleGrants;
    var name, x := BindingName(user, role), M.With(R.Kept(s.bindings, user, o, listing), user, role);
    assert name in x && x[name] == M.RoleBindingFor(user, role) && name in t.bindings;
    if o.fault(listing) != Delivered && HeldRoleGrants(s, a, env, namespace) {
      var n :| n in s.bindings && s.bindings[n].userRef == user &&
          A.RoleGrants(a, env, s.bindings[n].roleRef, namespace);
      assert n in x && x[n] == s.bindings[n] && t.bindings[n] == s.bindings[n];
    }
  }

  /** After a hand-over that reports success, the old manager's request for an address in the
      namespace is allowed exactly when a global binding grants it, the operator role does, or the
      second list failed and the role held before does. */
  lemma HandOverTakesEffect(s: M.NamespaceState, user: string, roles: set<string>, o: M.Oracle, env: A.Env,
                            namespace: string, groups: seq<string>, l: P.Locator, httpMethod: string, f: P.Factory,
                         q: P.Query)
    requires M.Vocabulary(roles) && user != "" && M.Tidy(s, roles) && M.Faithful(o)
    requires M.HandsOver(s, user, M.ADMIN) && s.Manager() != "" && M.Grant(s, user, M.ADMIN, o).error == None
    requires Synced(env, namespace, M.Grant(s, user, M.ADMIN, o).Last())
    requires OnlyLabelledNames(M.Grant(s, user, M.ADMIN, o).Last(), s.Manager())
    requires P.Proper(l, f) && P.Unreserved(l) && l.namespace == Some(namespace) && !WatchesWorkspace(l, httpMethod, q)
    ensures var a := RequestFor(s.Manager(), groups, l, httpMethod, f, q);
            A.Authorized(a, env).0 == A.Allow <==>
              || GlobalGrant(a, env)
              || A.RoleGrants(a, env, RoleRef(ROLE_KIND, M.OPERATOR), namespace)
              || (o.fault(M.ListManager) != Delivered && HeldRoleGrants(s, a, env, namespace))
  {
    hide M.Tidy, M.Sound, M.Grant, RequestFor, A.Authorized, A.RoleGrants, GlobalGrant, Synced, OnlyLabelledNames;
    var m, t := s.Manager(), M.Grant(s, user, M.ADMIN, o).Last();
    var a := RequestFor(m, groups, l, httpMethod, f, q);
    AddressInNamespace(m, groups, l, httpMethod, f, q, namespace);
    R.OldManagersBindings(s, user, roles, o);
    RequestOf(m, groups, l, httpMethod, f, q);
    NamespaceContributes(t, roles, a, namespace, env);
    ExchangedRoles(s, t, m, M.OPERATOR, o, M.ListManager, a, env, namespace);
  }

  /** After a member was removed without error, only global bindings count, unless the list failed:
      then every role the member held counts as before. */
  lemma RemovalTakesEffect(s: M.NamespaceState, user: string, roles: set<string>, o: M.Oracle, env: A.Env,
                           namespace: string, groups: seq<string>, l: P.Locator, httpMethod: string, f: P.Factory,
                         q: P.Query)
    requires user != "" && M.Tidy(s, roles) && M.Faithful(o) && M.Remove(s, user, o).error == None
    requires Synced(env, namespace, M.Remove(s, user, o).Last())
    requires OnlyLabelledNames(M.Remove(s, user, o).Last(), user)
    requires P.Proper(l, f) && P.Unreserved(l) && l.namespace == Some(namespace) && !WatchesWorkspace(l, httpMethod, q)
    ensures var a := RequestFor(user, groups, l, httpMethod, f, q);
            A.Authorized(a, env).0 == A.Allow <==>
              GlobalGrant(a, env) || (o.fault(M.ListUser) != Delivered && HeldRoleGrants(s, a, env, namespace))
  {
    hide M.Tidy, M.Remove, RequestFor, A.Authorized, A.RoleGrants, GlobalGrant, Synced, OnlyLabelledNames;
    var t := M.Remove(s, user, o).Last();
    var a := RequestFor(user, groups, l, httpMethod, f, q);
    AddressInNamespace(user, groups, l, httpMethod, f, q, namespace);
    R.RemoveOutcome(s, user, roles, o);
    TidyIsSound(s, roles);
    R.RemoveKeeps(s, user, o, roles);
    RequestOf(user, groups, l, httpMethod, f, q);
    NamespaceContributes(t, roles, a, namespace, env);
  }

  lemma TidyIsSound(s: M.NamespaceState, roles: set<string>)
    requires M.Tidy(s, roles)
    ensures M.Sound(s, roles)
  {}

  /** After a platform role was granted without error, whatever happened to its calls, the global
      bindings allow the user's requests exactly if that role does, whatever role there was before. */
  lemma GlobalGrantTakesEffect(s: G.Bindings, globalRoles: set<string>, prefix: string, user: string, role: string,
                               o: G.Oracle, env: A.Env, a: Attributes)
    requires G.Canonical(s, globalRoles, prefix) && user != "" && G.Faithful(o) && role in G.PlatformRoles(prefix)
    requires G.GrantGlobal(s, globalRoles, user, role, o).0 == None && a.user == user
    requires env.globals.Listed? && Lists(env.globals.items, G.GrantGlobal(s, globalRoles, user, role, o).1)
    ensures GlobalGrant(a, env) <==> A.RoleGrants(a, env, RoleRef("GlobalRole", role), "")
    ensures a.scope != NAMESPACE_SCOPE ==>
              (A.Authorized(a, env).0 == A.Allow <==> A.RoleGrants(a, env, RoleRef("GlobalRole", role), ""))
  {
    var t := G.GrantGlobal(s, globalRoles, user, role, o).1;
    G.GrantGlobalOutcome(s, globalRoles, prefix, user, role, o);
    var b := G.GlobalBindingFor(user, role);
    assert t == G.With(Others(s, {user}), user, role);
    assert b.name in t && t[b.name] == b;
    forall n | n in t
      ensures A.NamesUser(t[n], user) <==> n == b.name
    {
      GlobalLabelIsSubject(t, globalRoles, prefix, user, n);
    }
    hide G.GrantGlobal, G.Canonical, A.NamesUser, A.RoleGrants, A.Authorized, BindingName, G.PlatformRoles;
    if A.RoleGrants(a, env, b.roleRef, "") {
      assert b in env.globals.items;
    }
    A.AuthorizedMeans(a, env);
    if GlobalGrant(a, env) {
      var c :| c in env.globals.items && A.NamesUser(c, a.user) && A.RoleGrants(a, env, c.roleRef, "");
      assert A.Consulted(a, env, c, "");
    }
  }

  lemma GlobalLabelIsSubject(t: G.Bindings, globalRoles: set<string>, prefix: string, user: string, n: string)
    requires G.Canonical(t, globalRoles, prefix) && n in t
    ensures A.NamesUser(t[n], user) <==> t[n].userRef == user
  {
    var b := t[n];
    assert b.subjects == [Subject(USER_KIND, b.userRef, "")];
    assert b.subjects[0] in b.subjects;
    hide BindingName, G.PlatformRoles;
  }
}
