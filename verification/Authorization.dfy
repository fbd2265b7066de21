/** Deciding a request: the RBAC visitor over role bindings, the path authorizer, and their union. */
module Authorization {
  import opened Iam
  import opened Strings
  import opened Rules

  datatype Listing = Listed(items: seq<Binding>) | ListFailed(error: string)

  datatype Role = Role(rego: string, rules: seq<PolicyRule>)

  datatype Lookup = Found(role: Role) | Missing | Broken(error: string)

  /** The stored bindings and roles as the readers see them, and the policy engine. Roles are looked
      up by kind, namespace and name. */
  datatype Env = Env(
    globals: Listing, inNamespace: string -> Listing, roles: (string, string, string) -> Lookup,
    rego: (Attributes, string) -> bool)

  // ---- subjects ----

  predicate AppliesToUser(a: Attributes, s: Subject, namespace: string) {
    if s.kind == USER_KIND then a.user == s.name
    else if s.kind == GROUP_KIND then s.name in a.groups
    else if s.kind == SERVICE_ACCOUNT_KIND then
      var saNamespace := if s.namespace != "" then s.namespace else namespace;
      saNamespace != "" && a.user == "system:serviceaccount:" + saNamespace + ":" + s.name
    else false
  }

  /** The first subject that applies. */
  function AppliesTo(a: Attributes, subjects: seq<Subject>, namespace: string): (r: Option<nat>)
    ensures r.Some? ==> r.value < |subjects| && AppliesToUser(a, subjects[r.value], namespace)
    ensures r.Some? ==> forall j :: 0 <= j < r.value ==> !AppliesToUser(a, subjects[j], namespace)
    ensures r == None ==> forall s :: s in subjects ==> !AppliesToUser(a, s, namespace)
  {
    if subjects == [] then None
    else if AppliesToUser(a, subjects[0], namespace) then Some(0)
    else
      match AppliesTo(a, subjects[1..], namespace)
      case None => None
      case Some(i) => Some(i + 1)
  }

  /** The name a service account logs in under. */
  function ServiceAccountName(namespace: string, name: string): string {
    "system:serviceaccount:" + namespace + ":" + name
  }

  /** To whom a subject applies: the user of that name, the members of that group, or the service
      account of that name in its own namespace or else the one the binding is in. */
  lemma AppliesMeans(a: Attributes, s: Subject, namespace: string)
    ensures AppliesToUser(a, s, namespace) <==>
              || (s.kind == "User" && s.name == a.user)
              || (s.kind == "Group" && s.name in a.groups)
              || (s.kind == "ServiceAccount" && s.namespace != "" && a.user == ServiceAccountName(s.namespace, s.name))
              || (s.kind == "ServiceAccount" && s.namespace == "" != namespace
                  && a.user == ServiceAccountName(namespace, s.name))
  {}

  /** A missing role has no rules; any other failure to look it up is an error. */
  function GetRoleReferenceRules(env: Env, ref: RoleRef, namespace: string): (r: Lookup)
    ensures !r.Missing?
  {
    if ref.kind !in {ROLE_KIND, CLUSTER_ROLE_KIND, GLOBAL_ROLE_KIND} then
        Broken("unsupported role reference kind: " + ref.kind)
    else
      match env.roles(ref.kind, if ref.kind == ROLE_KIND then namespace else "", ref.name)
      case Missing => Found(Role("", []))
      case found => found
  }

  // ---- visiting ----

  /** The binding that a rule comes from, and its subject that applied. */
  datatype Source = Source(binding: Binding, subject: nat, namespace: string)

  /** One call of the visitor. After a failed role lookup its answer is not heeded. */
  datatype Visit = Visit(source: Option<Source>, rego: string, rule: Option<PolicyRule>, error: Option<string>,
                         heeded: bool)

  function RuleVisits(source: Source, rules: seq<PolicyRule>): seq<Visit> {
    if rules == [] then []
    else [Visit(Some(source), "", Some(rules[0]), None, true)] + RuleVisits(source, rules[1..])
  }

  function VisitsOf(a: Attributes, env: Env, b: Binding, namespace: string): seq<Visit> {
    match AppliesTo(a, b.subjects, namespace)
    case None => []
    case Some(i) =>
      match GetRoleReferenceRules(env, b.roleRef, namespace)
      case Broken(error) => [Visit(None, "", None, Some(error), false)]
      case Found(role) =>
        var source := Source(b, i, namespace);
        [Visit(Some(source), role.rego, None, None, true)] + RuleVisits(source, role.rules)
  }

  function VisitsOfAll(a: Attributes, env: Env, bindings: seq<Binding>, namespace: string): seq<Visit> {
    if bindings == [] then []
    else VisitsOf(a, env, bindings[0], namespace) + VisitsOfAll(a, env, bindings[1..], namespace)
  }

  function ListVisits(a: Attributes, env: Env, listing: Listing, namespace: string): seq<Visit> {
    match listing
    case ListFailed(error) => [Visit(None, "", None, Some(error), true)]
    case Listed(items) => VisitsOfAll(a, env, BindingsFor(items, a.user, []), namespace)
  }

  /** All visits in order, for a visitor that never stops. */
  function Visits(a: Attributes, env: Env): seq<Visit> {
    ListVisits(a, env, env.globals, "")
    + if a.scope == NAMESPACE_SCOPE then ListVisits(a, env, env.inNamespace(a.namespace), a.namespace) else []
  }

  /** A visitor takes a visit into its state and says whether to go on. */
  type Visitor<!S> = (S, Visit) -> (S, bool)

  /** The state a visitor is left in by a series of visits, and whether it went through to the end. */
  function Visited<S>(visit: Visitor<S>, s: S, visits: seq<Visit>): (S, bool)
    decreases |visits|
  {
    if visits == [] then (s, true)
    else
      var (t, goOn) := visit(s, visits[0]);
      if !goOn && visits[0].heeded then (t, false) else Visited(visit, t, visits[1..])
  }

  lemma {:induction false} VisitedConcat<S>(visit: Visitor<S>, s: S, v: seq<Visit>, w: seq<Visit>)
    ensures var (t, goOn) := Visited(visit, s, v);
            Visited(visit, s, v + w) == if goOn then Visited(visit, t, w) else (t, false)
    decreases |v|
  {
    if v == [] {
      assert v + w == w;
    } else {
      assert (v + w)[0] == v[0] && (v + w)[1..] == v[1..] + w;
      VisitedConcat(visit, visit(s, v[0]).0, v[1..], w);
    }
  }

  method VisitBindings<S>(a: Attributes, env: Env, bindings: seq<Binding>, namespace: string, visit: Visitor<S>, s0: S)
    returns (s: S, goOn: bool)
    ensures (s, goOn) == Visited(visit, s0, VisitsOfAll(a, env, bindings, namespace))
  {
    s, goOn := s0, true;
    for i := 0 to |bindings|
      invariant goOn
      invariant Visited(visit, s0, VisitsOfAll(a, env, bindings, namespace))
             == Visited(visit, s, VisitsOfAll(a, env, bindings[i..], namespace))
    {
      var b := bindings[i];
      assert bindings[i..][0] == b && bindings[i..][1..] == bindings[i + 1..];
      ghost var rest := VisitsOfAll(a, env, bindings[i + 1..], namespace);
      VisitedConcat(visit, s, VisitsOf(a, env, b, namespace), rest);
      var subject := AppliesTo(a, b.subjects, namespace);
      if subject.Some? {
        var found := GetRoleReferenceRules(env, b.roleRef, namespace);
        if found.Broken? {
          var answer := visit(s, Visit(None, "", None, Some(found.error), false));
          s, goOn := answer.0, answer.1;
          goOn := true;
        } else {
          s, goOn := VisitRole(found.role, Source(b, subject.value, namespace), visit, s);
          if !goOn {
            return;
          }
        }
      }
    }
  }

  method VisitRole<S>(role: Role, source: Source, visit: Visitor<S>, s0: S) returns (s: S, goOn: bool)
    ensures (s, goOn) == Visited(visit, s0,
                                 [Visit(Some(source), role.rego, None, None, true)] + RuleVisits(source, role.rules))
  {
    var first := Visit(Some(source), role.rego, None, None, true);
    var answer := visit(s0, first);
    s, goOn := answer.0, answer.1;
    assert ([first] + RuleVisits(source, role.rules))[1..] == RuleVisits(source, role.rules);
    if !goOn {
      return;
    }
    ghost var after := s;
    for i := 0 to |role.rules|
      invariant goOn
      invariant Visited(visit, after, RuleVisits(source, role.rules))
          == Visited(visit, s, RuleVisits(source, role.rules[i..]))
    {
      assert role.rules[i..][1..] == role.rules[i + 1..];
      var answer := visit(s, Visit(Some(source), "", Some(role.rules[i]), None, true));
      s, goOn := answer.0, answer.1;
      if !goOn {
        return;
      }
    }
  }

  method VisitRulesFor<S>(a: Attributes, env: Env, visit: Visitor<S>, s0: S) returns (s: S)
    ensures s == Visited(visit, s0, Visits(a, env)).0
  {
    s := s0;
    var goOn;
    VisitedConcat(visit, s0, ListVisits(a, env, env.globals, ""),
                  if a.scope != NAMESPACE_SCOPE then []
                  else ListVisits(a, env, env.inNamespace(a.namespace), a.namespace));
    if env.globals.ListFailed? {
      var answer := visit(s, Visit(None, "", None, Some(env.globals.error), true));
      s, goOn := answer.0, answer.1;
      if !goOn {
        return;
      }
    } else {
      s, goOn := VisitBindings(a, env, BindingsFor(env.globals.items, a.user, []), "", visit, s);
      if !goOn {
        return;
      }
      if a.scope == GLOBAL_SCOPE {
        return;
      }
    }
    if a.scope == NAMESPACE_SCOPE {
      var listing := env.inNamespace(a.namespace);
      if listing.ListFailed? {
        var answer := visit(s, Visit(None, "", None, Some(listing.error), true));
        s, goOn := answer.0, answer.1;
        if !goOn {
          return;
        }
      } else {
        s, goOn := VisitBindings(a, env, BindingsFor(listing.items, a.user, []), a.namespace, visit, s);
        if !goOn {
          return;
        }
      }
    }
  }

  // ---- the two visitors ----

  predicate Permits(a: Attributes, env: Env, v: Visit) {
    || (v.rego != "" && env.rego(a, v.rego))
    || (v.rule.Some? && RuleAllows(a, v.rule.value))
  }

  datatype Checking = Checking(allowed: bool, reason: Option<Source>, errors: seq<string>)

  /** Stops at the first visit that permits the request. */
  function CheckingVisitor(a: Attributes, env: Env): Visitor<Checking> {
    (s: Checking, v: Visit) =>
      if v.rego != "" && env.rego(a, v.rego) then (s.(allowed := true, reason := v.source), false)
      else if v.rule.Some? && RuleAllows(a, v.rule.value) then (s.(allowed := true, reason := v.source), false)
      else (if v.error.Some? then s.(errors := s.errors + [v.error.value]) else s, true)
  }

  datatype Collected = Collected(rules: seq<PolicyRule>, errors: seq<string>)

  /** Gathers every rule and error. */
  function CollectingVisitor(s: Collected, v: Visit): (Collected, bool) {
    (Collected(
       s.rules + if v.rule.Some? then [v.rule.value] else [],
       s.errors + if v.error.Some? then [v.error.value] else []),
     true)
  }

  datatype Decision = Deny | Allow | NoOpinion

  datatype Reason =
    | NoReason
    | AllowedBy(source: Option<Source>)
    | Because(errors: seq<string>)
    | Joined(reasons: seq<Reason>)

  function Authorized(a: Attributes, env: Env): (Decision, Reason) {
    var s := Visited(CheckingVisitor(a, env), Checking(false, None, []), Visits(a, env)).0;
    if s.allowed then (Allow, AllowedBy(s.reason))
    else (NoOpinion, if s.errors == [] then NoReason else Because(s.errors))
  }

  method Authorize(a: Attributes, env: Env) returns (decision: Decision, reason: Reason)
    ensures (decision, reason) == Authorized(a, env)
  {
    var s := VisitRulesFor(a, env, CheckingVisitor(a, env), Checking(false, None, []));
    if s.allowed {
      return Allow, AllowedBy(s.reason);
    }
    reason := NoReason;
    if |s.errors| > 0 {
      reason := Because(s.errors);
    }
    return NoOpinion, reason;
  }

  method RulesFor(a: Attributes, env: Env) returns (rules: seq<PolicyRule>, errors: seq<string>)
    ensures Collected(rules, errors) == Visited(CollectingVisitor, Collected([], []), Visits(a, env)).0
  {
    var s := VisitRulesFor(a, env, CollectingVisitor, Collected([], []));
    return s.rules, s.errors;
  }

  // ---- early exit ----

  /** The first visit that permits the request. */
  ghost predicate FirstPermits(a: Attributes, env: Env, visits: seq<Visit>, k: int) {
    0 <= k < |visits| && Permits(a, env, visits[k]) && forall j :: 0 <= j < k ==> !Permits(a, env, visits[j])
  }

  ghost predicate PermitsHeeded(a: Attributes, env: Env, visits: seq<Visit>) {
    forall v :: v in visits && Permits(a, env, v) ==> v.heeded
  }

  lemma {:induction false} CheckingOutcome(a: Attributes, env: Env, s: Checking, visits: seq<Visit>)
    requires !s.allowed && PermitsHeeded(a, env, visits)
    ensures var t := Visited(CheckingVisitor(a, env), s, visits).0;
            && (t.allowed <==> exists v :: v in visits && Permits(a, env, v))
            && (t.allowed ==> exists k :: FirstPermits(a, env, visits, k) && t.reason == visits[k].source)
    decreases |visits|
  {
    if visits != [] {
      assert visits[0] in visits;
      assert forall v :: v in visits <==> v == visits[0] || v in visits[1..];
      if Permits(a, env, visits[0]) {
        assert FirstPermits(a, env, visits, 0);
      } else {
        CheckingOutcome(a, env, CheckingVisitor(a, env)(s, visits[0]).0, visits[1..]);
        var t := Visited(CheckingVisitor(a, env), s, visits).0;
        if t.allowed {
          var k :| FirstPermits(a, env, visits[1..], k) && t.reason == visits[1..][k].source;
          assert visits[k + 1] == visits[1..][k] && forall j :: 1 <= j < |visits| ==> visits[j] == visits[1..][j - 1];
          assert FirstPermits(a, env, visits, k + 1);
        }
      }
    }
  }

  lemma {:induction false} RuleVisitsAre(source: Source, rules: seq<PolicyRule>)
    ensures forall v :: v in RuleVisits(source, rules) ==>
              v.source == Some(source) && v.rego == "" && v.rule.Some? && v.rule.value in rules && v.error == None &&
                  v.heeded
    ensures forall r :: r in rules ==> Visit(Some(source), "", Some(r), None, true) in RuleVisits(source, rules)
  {
    if rules != [] {
      RuleVisitsAre(source, rules[1..]);
      assert forall r :: r in rules <==> r == rules[0] || r in rules[1..];
    }
  }

  /** The role a binding refers to grants the request. */
  ghost predicate RoleGrants(a: Attributes, env: Env, ref: RoleRef, namespace: string) {
    var found := GetRoleReferenceRules(env, ref, namespace);
    && found.Found?
    && (|| (found.role.rego != "" && env.rego(a, found.role.rego))
        || exists r :: r in found.role.rules && RuleAllows(a, r))
  }

  /** A role as the engine and the rules see it. */
  ghost predicate Grants(a: Attributes, env: Env, found: Lookup) {
    && found.Found?
    && (|| (found.role.rego != "" && env.rego(a, found.role.rego))
        || exists r :: r in found.role.rules && RuleAllows(a, r))
  }

  /** Where the role of a binding is looked up: a Role in the namespace of the binding, the other kinds
      nowhere in particular. A role that is missing, cannot be looked up or is of another kind grants
      nothing. */
  lemma RoleGrantsMeans(a: Attributes, env: Env, ref: RoleRef, namespace: string)
    ensures RoleGrants(a, env, ref, namespace) <==>
              || (ref.kind == "Role" && Grants(a, env, env.roles("Role", namespace, ref.name)))
              || (ref.kind == "ClusterRole" && Grants(a, env, env.roles("ClusterRole", "", ref.name)))
              || (ref.kind == "GlobalRole" && Grants(a, env, env.roles("GlobalRole", "", ref.name)))
  {
    hide RuleAllows;
  }

  ghost predicate BindingGrants(a: Attributes, env: Env, b: Binding, namespace: string) {
    AppliesTo(a, b.subjects, namespace).Some? && RoleGrants(a, env, b.roleRef, namespace)
  }

  lemma VisitsOfGrant(a: Attributes, env: Env, b: Binding, namespace: string)
    ensures PermitsHeeded(a, env, VisitsOf(a, env, b, namespace))
    ensures (exists v :: v in VisitsOf(a, env, b, namespace) && Permits(a, env, v)) <==>
        BindingGrants(a, env, b, namespace)
  {
    var i, found := AppliesTo(a, b.subjects, namespace), GetRoleReferenceRules(env, b.roleRef, namespace);
    hide AppliesTo, GetRoleReferenceRules, RuleAllows;
    if i.Some? && found.Found? {
      var source := Source(b, i.value, namespace);
      var first := Visit(Some(source), found.role.rego, None, None, true);
      RuleVisitsAre(source, found.role.rules);
      var visits := VisitsOf(a, env, b, namespace);
      assert visits == [first] + RuleVisits(source, found.role.rules);
      assert first in visits && forall v :: v in visits <==> v == first || v in RuleVisits(source, found.role.rules);
      if BindingGrants(a, env, b, namespace) && !Permits(a, env, first) {
        var r :| r in found.role.rules && RuleAllows(a, r);
        assert Permits(a, env, Visit(Some(source), "", Some(r), None, true));
      }
    }
  }

  lemma {:induction false} VisitsOfAllGrant(a: Attributes, env: Env, bindings: seq<Binding>, namespace: string)
    ensures PermitsHeeded(a, env, VisitsOfAll(a, env, bindings, namespace))
    ensures (exists v :: v in VisitsOfAll(a, env, bindings, namespace) && Permits(a, env, v)) <==>
            (exists b :: b in bindings && BindingGrants(a, env, b, namespace))
  {
    hide VisitsOf, Permits, BindingGrants;
    if bindings != [] {
      VisitsOfGrant(a, env, bindings[0], namespace);
      VisitsOfAllGrant(a, env, bindings[1..], namespace);
      assert forall b :: b in bindings <==> b == bindings[0] || b in bindings[1..];
      var all := VisitsOfAll(a, env, bindings, namespace);
      var one, rest := VisitsOf(a, env, bindings[0], namespace), VisitsOfAll(a, env, bindings[1..], namespace);
      assert forall v :: v in all <==> v in one || v in rest;
    }
  }

  // ---- what an answer means ----

  /** A binding that deciding the request looks at: global ones, and for namespace scope those of
      the request's namespace. */
  ghost predicate Consulted(a: Attributes, env: Env, b: Binding, namespace: string) {
    || (env.globals.Listed? && b in env.globals.items && namespace == "")
    || (&& a.scope == NAMESPACE_SCOPE && namespace == a.namespace
        && env.inNamespace(namespace).Listed? && b in env.inNamespace(namespace).items)
  }

  ghost predicate NamesUser(b: Binding, user: string) {
    exists s :: s in b.subjects && s.kind == USER_KIND && s.name == user
  }

  lemma NamedApplies(a: Attributes, b: Binding, namespace: string)
    requires a.user != ""
    ensures Contains(b.subjects, a.user, []) <==> NamesUser(b, a.user)
    ensures NamesUser(b, a.user) ==> AppliesTo(a, b.subjects, namespace).Some?
  {
    if NamesUser(b, a.user) {
      var s :| s in b.subjects && s.kind == USER_KIND && s.name == a.user;
      assert AppliesToUser(a, s, namespace);
    }
  }

  lemma ListGrants(a: Attributes, env: Env, listing: Listing, namespace: string)
    requires a.user != ""
    ensures PermitsHeeded(a, env, ListVisits(a, env, listing, namespace))
    ensures (exists v :: v in ListVisits(a, env, listing, namespace) && Permits(a, env, v)) <==>
            && listing.Listed?
            && exists b :: b in listing.items && NamesUser(b, a.user) && RoleGrants(a, env, b.roleRef, namespace)
  {
    hide RoleGrants, AppliesTo, NamesUser, VisitsOfAll;
    if listing.Listed? {
      VisitsOfAllGrant(a, env, BindingsFor(listing.items, a.user, []), namespace);
      forall b: Binding
        ensures Contains(b.subjects, a.user, []) <==> NamesUser(b, a.user)
        ensures NamesUser(b, a.user) ==> AppliesTo(a, b.subjects, namespace).Some?
      {
        NamedApplies(a, b, namespace);
      }
    }
  }

  /** RBAC allows a named user exactly when some consulted binding has the user as a User subject
      and refers to a role that grants the request; otherwise it has no opinion. It never denies,
      and a failed lookup neither grants nor stands in the way of another grant. */
  lemma AuthorizedMeans(a: Attributes, env: Env)
    requires a.user != ""
    ensures Authorized(a, env).0 == Allow <==>
            exists b, ns :: Consulted(a, env, b, ns) && NamesUser(b, a.user) && RoleGrants(a, env, b.roleRef, ns)
    ensures Authorized(a, env).0 in {Allow, NoOpinion}
  {
    var first := ListVisits(a, env, env.globals, "");
    var second :=
      if a.scope == NAMESPACE_SCOPE then ListVisits(a, env, env.inNamespace(a.namespace), a.namespace) else [];
    ListGrants(a, env, env.globals, "");
    ListGrants(a, env, env.inNamespace(a.namespace), a.namespace);
    hide ListVisits, Permits, NamesUser, RoleGrants;
    assert forall v :: v in Visits(a, env) <==> v in first || v in second;
    CheckingOutcome(a, env, Checking(false, None, []), Visits(a, env));
    if env.globals.Listed? {
      forall b | b in env.globals.items
        ensures Consulted(a, env, b, "")
      {}
    }
    if a.scope == NAMESPACE_SCOPE && env.inNamespace(a.namespace).Listed? {
      forall b | b in env.inNamespace(a.namespace).items
        ensures Consulted(a, env, b, a.namespace)
      {}
    }
  }

  /** The empty user name stands for nobody in particular: then the bindings that name the empty user
      or a group of the request are consulted. */
  ghost predicate NamesNobody(b: Binding, groups: seq<string>) {
    exists s :: s in b.subjects && NobodyOrOneOf(s, groups)
  }

  predicate NobodyOrOneOf(s: Subject, groups: seq<string>) {
    (s.kind == USER_KIND && s.name == "") || (s.kind == GROUP_KIND && s.name in groups)
  }

  lemma NobodyApplies(a: Attributes, b: Binding, namespace: string)
    requires a.user == ""
    ensures Contains(b.subjects, a.user, [])
    ensures AppliesTo(a, b.subjects, namespace).Some? <==> NamesNobody(b, a.groups)
  {
    if NamesNobody(b, a.groups) {
      var s :| s in b.subjects && NobodyOrOneOf(s, a.groups);
      assert AppliesToUser(a, s, namespace);
    }
    var i := AppliesTo(a, b.subjects, namespace);
    if i.Some? {
      assert NobodyOrOneOf(b.subjects[i.value], a.groups);
    }
  }

  /** For a request without a user name, RBAC allows exactly when some consulted binding names the
      empty user or one of the groups and its role grants: groups count only then. */
  lemma NobodyAuthorizedMeans(a: Attributes, env: Env)
    requires a.user == ""
    ensures Authorized(a, env).0 == Allow <==>
            exists b, ns :: Consulted(a, env, b, ns) && NamesNobody(b, a.groups) && RoleGrants(a, env, b.roleRef, ns)
    ensures Authorized(a, env).0 in {Allow, NoOpinion}
  {
    var first := ListVisits(a, env, env.globals, "");
    var second :=
      if a.scope == NAMESPACE_SCOPE then ListVisits(a, env, env.inNamespace(a.namespace), a.namespace) else [];
    ListGrantsNobody(a, env, env.globals, "");
    ListGrantsNobody(a, env, env.inNamespace(a.namespace), a.namespace);
    hide ListVisits, Permits, NamesNobody, RoleGrants;
    assert forall v :: v in Visits(a, env) <==> v in first || v in second;
    CheckingOutcome(a, env, Checking(false, None, []), Visits(a, env));
    if env.globals.Listed? {
      forall b | b in env.globals.items
        ensures Consulted(a, env, b, "")
      {}
    }
    if a.scope == NAMESPACE_SCOPE && env.inNamespace(a.namespace).Listed? {
      forall b | b in env.inNamespace(a.namespace).items
        ensures Consulted(a, env, b, a.namespace)
      {}
    }
  }

  lemma ListGrantsNobody(a: Attributes, env: Env, listing: Listing, namespace: string)
    requires a.user == ""
    ensures PermitsHeeded(a, env, ListVisits(a, env, listing, namespace))
    ensures (exists v :: v in ListVisits(a, env, listing, namespace) && Permits(a, env, v)) <==>
            && listing.Listed?
            && exists b :: b in listing.items && NamesNobody(b, a.groups) && RoleGrants(a, env, b.roleRef, namespace)
  {
    hide RoleGrants, AppliesTo, NamesNobody, VisitsOfAll;
    if listing.Listed? {
      VisitsOfAllGrant(a, env, BindingsFor(listing.items, a.user, []), namespace);
      forall b: Binding
        ensures Contains(b.subjects, a.user, [])
        ensures AppliesTo(a, b.subjects, namespace).Some? <==> NamesNobody(b, a.groups)
      {
        NobodyApplies(a, b, namespace);
      }
    }
  }

  lemma {:induction false} CollectingOutcome(s: Collected, visits: seq<Visit>)
    ensures var (t, goOn) := Visited(CollectingVisitor, s, visits);
            goOn && forall r :: r in t.rules <==> r in s.rules || exists v :: v in visits && v.rule == Some(r)
    decreases |visits|
  {
    if visits != [] {
      CollectingOutcome(CollectingVisitor(s, visits[0]).0, visits[1..]);
      assert forall v :: v in visits <==> v == visits[0] || v in visits[1..];
    }
  }

  lemma VisitsHeeded(a: Attributes, env: Env)
    ensures PermitsHeeded(a, env, Visits(a, env))
  {
    hide VisitsOfAll, Permits;
    if env.globals.Listed? {
      VisitsOfAllGrant(a, env, BindingsFor(env.globals.items, a.user, []), "");
    }
    var listing := env.inNamespace(a.namespace);
    if listing.Listed? {
      VisitsOfAllGrant(a, env, BindingsFor(listing.items, a.user, []), a.namespace);
    }
    NothingPermits(a, env);
  }

  lemma NothingPermits(a: Attributes, env: Env)
    ensures forall error :: !Permits(a, env, Visit(None, "", None, Some(error), true))
  {}

  /** Stopping early loses nothing: the visitor that stops at the first grant allows exactly when a
      rule among all the collected ones allows, or some policy does. */
  lemma EarlyExitRefinesCollection(a: Attributes, env: Env)
    ensures var collected := Visited(CollectingVisitor, Collected([], []), Visits(a, env)).0;
            Authorized(a, env).0 == Allow <==>
              || (exists r :: r in collected.rules && RuleAllows(a, r))
              || (exists v :: v in Visits(a, env) && v.rego != "" && env.rego(a, v.rego))
  {
    VisitsHeeded(a, env);
    hide Visits, RuleAllows;
    CheckingOutcome(a, env, Checking(false, None, []), Visits(a, env));
    CollectingOutcome(Collected([], []), Visits(a, env));
    var collected := Visited(CollectingVisitor, Collected([], []), Visits(a, env)).0;
    forall v | v in Visits(a, env) && v.rule.Some?
      ensures v.rule.value in collected.rules
    {}
  }

  /** The reported reason is the source of the first visit that permits: a binding, its first
      subject that applies, and the namespace it was listed in. */
  lemma ReasonNamesFirstGrant(a: Attributes, env: Env)
    requires Authorized(a, env).0 == Allow
    ensures exists k :: FirstPermits(a, env, Visits(a, env), k)
              && Authorized(a, env).1 == AllowedBy(Visits(a, env)[k].source)
  {
    VisitsHeeded(a, env);
    CheckingOutcome(a, env, Checking(false, None, []), Visits(a, env));
  }

  // ---- what is reported when something allows ----

  ghost predicate SourceIs(a: Attributes, source: Option<Source>, b: Binding, namespace: string) {
    && source.Some? && source.value.binding == b && source.value.namespace == namespace
    && AppliesTo(a, b.subjects, namespace) == Some(source.value.subject)
  }

  lemma VisitSource(a: Attributes, env: Env, b: Binding, namespace: string, v: Visit)
    requires v in VisitsOf(a, env, b, namespace) && Permits(a, env, v)
    ensures SourceIs(a, v.source, b, namespace)
  {
    var i, found := AppliesTo(a, b.subjects, namespace), GetRoleReferenceRules(env, b.roleRef, namespace);
    hide AppliesTo, GetRoleReferenceRules, RuleAllows;
    if found.Found? {
      RuleVisitsAre(Source(b, i.value, namespace), found.role.rules);
    }
  }

  /** The first binding of a list that grants. */
  ghost predicate FirstGranting(a: Attributes, env: Env, bindings: seq<Binding>, namespace: string, j: int) {
    && 0 <= j < |bindings| && BindingGrants(a, env, bindings[j], namespace)
    && forall i :: 0 <= i < j ==> !BindingGrants(a, env, bindings[i], namespace)
  }

  lemma {:induction false} FirstVisitOfAll(a: Attributes, env: Env, bindings: seq<Binding>, namespace: string, k: int)
    returns (j: int)
    requires FirstPermits(a, env, VisitsOfAll(a, env, bindings, namespace), k)
    ensures FirstGranting(a, env, bindings, namespace, j)
    ensures SourceIs(a, VisitsOfAll(a, env, bindings, namespace)[k].source, bindings[j], namespace)
  {
    hide VisitsOf, Permits, BindingGrants, SourceIs;
    var one, rest := VisitsOf(a, env, bindings[0], namespace), VisitsOfAll(a, env, bindings[1..], namespace);
    var all := VisitsOfAll(a, env, bindings, namespace);
    assert all == one + rest;
    VisitsOfGrant(a, env, bindings[0], namespace);
    if k < |one| {
      assert all[k] == one[k] && one[k] in one;
      VisitSource(a, env, bindings[0], namespace, one[k]);
      j := 0;
    } else {
      forall v | v in one
        ensures !Permits(a, env, v)
      {
        var i :| 0 <= i < |one| && one[i] == v;
        assert all[i] == v;
      }
      forall i | 0 <= i < k - |one|
        ensures !Permits(a, env, rest[i])
      {
        assert rest[i] == all[i + |one|];
      }
      assert rest[k - |one|] == all[k];
      var before := FirstVisitOfAll(a, env, bindings[1..], namespace, k - |one|);
      j := before + 1;
      forall i | 0 <= i < j
        ensures !BindingGrants(a, env, bindings[i], namespace)
      {
        if i > 0 {
          assert bindings[i] == bindings[1..][i - 1];
        }
      }
    }
  }

  /** The first binding in a list that names the user and whose role grants. */
  ghost predicate FirstGrant(a: Attributes, env: Env, items: seq<Binding>, namespace: string, k: int) {
    && 0 <= k < |items| && NamesUser(items[k], a.user) && RoleGrants(a, env, items[k].roleRef, namespace)
    && forall j :: 0 <= j < k ==> !(NamesUser(items[j], a.user) && RoleGrants(a, env, items[j].roleRef, namespace))
  }

  lemma ListedStep(items: seq<Binding>, user: string)
    ensures items == [] ==> BindingsFor(items, user, []) == []
    ensures items != [] ==>
              var rest := BindingsFor(items[1..], user, []);
              BindingsFor(items, user, []) == if Contains(items[0].subjects, user, []) then [items[0]] + rest else rest
  {}

  /** A list filtered for the user: the first that grants in it is the first listed that names the user
      and grants. */
  lemma {:induction false} FirstAmongListed(a: Attributes, env: Env, items: seq<Binding>, namespace: string, j: int)
    returns (k: int)
    requires FirstGranting(a, env, BindingsFor(items, a.user, []), namespace, j)
    ensures 0 <= k < |items| && items[k] == BindingsFor(items, a.user, [])[j] && Contains(items[k].subjects, a.user, [])
    ensures forall i :: 0 <= i < k ==>
              !(Contains(items[i].subjects, a.user, []) && BindingGrants(a, env, items[i], namespace))
  {
    ListedStep(items, a.user);
    hide BindingGrants, Contains, BindingsFor;
    var rest, all := BindingsFor(items[1..], a.user, []), BindingsFor(items, a.user, []);
    var own := if Contains(items[0].subjects, a.user, []) then 1 else 0;
    if own == 1 && j == 0 {
      return 0;
    }
    forall i | 0 <= i < j - own
      ensures !BindingGrants(a, env, rest[i], namespace)
    {
      assert rest[i] == all[i + own];
    }
    assert rest[j - own] == all[j];
    var before := FirstAmongListed(a, env, items[1..], namespace, j - own);
    k := before + 1;
    forall i | 0 <= i < k
      ensures !(Contains(items[i].subjects, a.user, []) && BindingGrants(a, env, items[i], namespace))
    {
      if i > 0 {
        assert items[i] == items[1..][i - 1];
      } else if own == 1 {
        assert items[0] == all[0];
      }
    }
  }

  /** `source` is the first grant of a list, and the first of its subjects that applies. */
  ghost predicate Reports(a: Attributes, env: Env, listing: Listing, namespace: string, source: Option<Source>) {
    listing.Listed? && exists k :: FirstGrant(a, env, listing.items, namespace, k)
                                   && SourceIs(a, source, listing.items[k], namespace)
  }

  lemma FirstOfList(a: Attributes, env: Env, listing: Listing, namespace: string, k: int)
    requires a.user != "" && FirstPermits(a, env, ListVisits(a, env, listing, namespace), k)
    ensures Reports(a, env, listing, namespace, ListVisits(a, env, listing, namespace)[k].source)
  {
    NothingPermits(a, env);
    hide VisitsOfAll, Permits, FirstGranting, FirstGrant, SourceIs;
    if listing.Listed? {
      var j := FirstVisitOfAll(a, env, BindingsFor(listing.items, a.user, []), namespace, k);
      FirstGrantListed(a, env, listing, namespace, ListVisits(a, env, listing, namespace)[k].source, j);
    }
  }

  lemma FirstGrantListed(a: Attributes, env: Env, listing: Listing, namespace: string, source: Option<Source>, j: int)
    requires a.user != "" && listing.Listed?
    requires FirstGranting(a, env, BindingsFor(listing.items, a.user, []), namespace, j)
    requires SourceIs(a, source, BindingsFor(listing.items, a.user, [])[j], namespace)
    ensures Reports(a, env, listing, namespace, source)
  {
    var i := FirstAmongListed(a, env, listing.items, namespace, j);
    forall b: Binding
      ensures Contains(b.subjects, a.user, []) <==> NamesUser(b, a.user)
      ensures NamesUser(b, a.user) ==> AppliesTo(a, b.subjects, namespace).Some?
    {
      NamedApplies(a, b, namespace);
    }
    hide Contains, NamesUser, RoleGrants, AppliesTo, BindingsFor, SourceIs;
    assert FirstGrant(a, env, listing.items, namespace, i);
  }

  ghost predicate AnyPermits(a: Attributes, env: Env, visits: seq<Visit>) {
    exists v :: v in visits && Permits(a, env, v)
  }

  /** The first visit that permits is in the first part, or else in the second. */
  lemma FirstInParts(a: Attributes, env: Env, v: seq<Visit>, w: seq<Visit>, k: int)
    requires FirstPermits(a, env, v + w, k)
    ensures if AnyPermits(a, env, v) then FirstPermits(a, env, v, k) && (v + w)[k] == v[k]
            else FirstPermits(a, env, w, k - |v|) && (v + w)[k] == w[k - |v|]
  {
    hide Permits;
    assert forall i :: 0 <= i < |v| ==> (v + w)[i] == v[i];
    assert forall i :: 0 <= i < |w| ==> (v + w)[i + |v|] == w[i];
    if AnyPermits(a, env, v) {
      var x :| x in v && Permits(a, env, x);
      var i :| 0 <= i < |v| && v[i] == x;
      assert Permits(a, env, (v + w)[i]);
    }
    if k < |v| {
      assert v[k] in v;
    }
  }

  ghost predicate SomeGrant(a: Attributes, env: Env, listing: Listing, namespace: string) {
    && listing.Listed?
    && exists b :: b in listing.items && NamesUser(b, a.user) && RoleGrants(a, env, b.roleRef, namespace)
  }

  lemma SomeVisitPermits(a: Attributes, env: Env, listing: Listing, namespace: string)
    requires a.user != ""
    ensures AnyPermits(a, env, ListVisits(a, env, listing, namespace)) <==> SomeGrant(a, env, listing, namespace)
  {
    ListGrants(a, env, listing, namespace);
    hide ListVisits, Permits, NamesUser, RoleGrants;
  }

  /** The reason for allowing a named user's request is the first grant listed, global ones first: the
      binding, the first of its subjects that applies, and the namespace it is in. */
  lemma ReasonMeans(a: Attributes, env: Env) returns (source: Option<Source>)
    requires a.user != "" && Authorized(a, env).0 == Allow
    ensures Authorized(a, env).1 == AllowedBy(source)
    ensures if SomeGrant(a, env, env.globals, "") then Reports(a, env, env.globals, "", source)
            else a.scope == NAMESPACE_SCOPE && Reports(a, env, env.inNamespace(a.namespace), a.namespace, source)
  {
    ReasonNamesFirstGrant(a, env);
    hide Authorized, FirstPermits, Visits, SomeGrant, Reports;
    var k :| FirstPermits(a, env, Visits(a, env), k) && Authorized(a, env).1 == AllowedBy(Visits(a, env)[k].source);
    source := Visits(a, env)[k].source;
    FirstReported(a, env, k);
  }

  lemma FirstReported(a: Attributes, env: Env, k: int)
    requires a.user != "" && FirstPermits(a, env, Visits(a, env), k)
    ensures var source := Visits(a, env)[k].source;
            if SomeGrant(a, env, env.globals, "") then Reports(a, env, env.globals, "", source)
            else a.scope == NAMESPACE_SCOPE && Reports(a, env, env.inNamespace(a.namespace), a.namespace, source)
  {
    SomeVisitPermits(a, env, env.globals, "");
    var first := ListVisits(a, env, env.globals, "");
    var second :=
      if a.scope == NAMESPACE_SCOPE then ListVisits(a, env, env.inNamespace(a.namespace), a.namespace) else [];
    assert Visits(a, env) == first + second;
    hide ListVisits, AnyPermits, SomeGrant, Reports, FirstPermits, Visits;
    FirstInParts(a, env, first, second, k);
    if AnyPermits(a, env, first) {
      FirstOfList(a, env, env.globals, "", k);
    } else {
      NotInNone(a, env, second, k - |first|);
      FirstOfList(a, env, env.inNamespace(a.namespace), a.namespace, k - |first|);
    }
  }

  lemma NotInNone(a: Attributes, env: Env, visits: seq<Visit>, k: int)
    requires FirstPermits(a, env, visits, k)
    ensures visits != []
  {}

  // ---- what is reported when nothing allows ----

  function ErrorsOf(visits: seq<Visit>): seq<string> {
    if visits == [] then []
    else (if visits[0].error.Some? then [visits[0].error.value] else []) + ErrorsOf(visits[1..])
  }

  lemma NotPermitted(a: Attributes, env: Env, s: Checking, v: Visit)
    requires !Permits(a, env, v)
    ensures CheckingVisitor(a, env)(s, v) ==
              (s.(errors := s.errors + if v.error.Some? then [v.error.value] else []), true)
  {
    hide RuleAllows;
    assert s.errors + [] == s.errors;
  }

  lemma {:induction false} CheckingErrors(a: Attributes, env: Env, s: Checking, visits: seq<Visit>)
    requires forall v :: v in visits ==> !Permits(a, env, v)
    ensures var t := Visited(CheckingVisitor(a, env), s, visits).0;
            t.errors == s.errors + ErrorsOf(visits) && t.allowed == s.allowed
    decreases |visits|
  {
    hide Permits, CheckingVisitor;
    if visits == [] {
      assert s.errors + [] == s.errors;
    } else {
      assert visits[0] in visits && forall v :: v in visits[1..] ==> v in visits;
      NotPermitted(a, env, s, visits[0]);
      var own := if visits[0].error.Some? then [visits[0].error.value] else [];
      var after := s.(errors := s.errors + own);
      CheckingErrors(a, env, after, visits[1..]);
      assert Visited(CheckingVisitor(a, env), s, visits) == Visited(CheckingVisitor(a, env), after, visits[1..]);
      assert (s.errors + own) + ErrorsOf(visits[1..]) == s.errors + (own + ErrorsOf(visits[1..]));
    }
  }

  lemma {:induction false} ErrorsThere(visits: seq<Visit>, error: string)
    ensures error in ErrorsOf(visits) <==> exists v :: v in visits && v.error == Some(error)
  {
    if visits != [] {
      ErrorsThere(visits[1..], error);
      assert forall v :: v in visits <==> v == visits[0] || v in visits[1..];
    }
  }

  /** Looking up the role of a binding fails. */
  ghost predicate RoleFails(env: Env, ref: RoleRef, namespace: string, error: string) {
    if ref.kind in {"Role", "ClusterRole", "GlobalRole"} then
      env.roles(ref.kind, if ref.kind == "Role" then namespace else "", ref.name) == Broken(error)
    else error == "unsupported role reference kind: " + ref.kind
  }

  lemma VisitErrors(a: Attributes, env: Env, b: Binding, namespace: string, error: string)
    ensures (exists v :: v in VisitsOf(a, env, b, namespace) && v.error == Some(error)) <==>
              BindingFails(a, env, b, namespace, error)
  {
    var i, found := AppliesTo(a, b.subjects, namespace), GetRoleReferenceRules(env, b.roleRef, namespace);
    hide AppliesTo;
    if i.Some? && found.Found? {
      RuleVisitsAre(Source(b, i.value, namespace), found.role.rules);
    }
    if i.Some? && found.Broken? {
      assert Visit(None, "", None, Some(found.error), false) in VisitsOf(a, env, b, namespace);
    }
  }

  ghost predicate BindingFails(a: Attributes, env: Env, b: Binding, namespace: string, error: string) {
    AppliesTo(a, b.subjects, namespace).Some? && RoleFails(env, b.roleRef, namespace, error)
  }

  lemma {:induction false} VisitErrorsAll(a: Attributes, env: Env, bindings: seq<Binding>, namespace: string,
                                          error: string)
    ensures (exists v :: v in VisitsOfAll(a, env, bindings, namespace) && v.error == Some(error)) <==>
            (exists b :: b in bindings && BindingFails(a, env, b, namespace, error))
  {
    hide VisitsOf, BindingFails;
    if bindings != [] {
      VisitErrors(a, env, bindings[0], namespace, error);
      VisitErrorsAll(a, env, bindings[1..], namespace, error);
      assert forall b :: b in bindings <==> b == bindings[0] || b in bindings[1..];
      var all := VisitsOfAll(a, env, bindings, namespace);
      var one, rest := VisitsOf(a, env, bindings[0], namespace), VisitsOfAll(a, env, bindings[1..], namespace);
      assert forall v :: v in all <==> v in one || v in rest;
    }
  }

  lemma ListErrors(a: Attributes, env: Env, listing: Listing, namespace: string, error: string)
    requires a.user != ""
    ensures (exists v :: v in ListVisits(a, env, listing, namespace) && v.error == Some(error)) <==>
              if listing.ListFailed? then listing.error == error
              else exists b :: b in listing.items && NamesUser(b, a.user) && RoleFails(env, b.roleRef, namespace, error)
  {
    hide AppliesTo, NamesUser, VisitsOfAll, RoleFails;
    if listing.Listed? {
      VisitErrorsAll(a, env, BindingsFor(listing.items, a.user, []), namespace, error);
      forall b: Binding
        ensures Contains(b.subjects, a.user, []) <==> NamesUser(b, a.user)
        ensures NamesUser(b, a.user) ==> AppliesTo(a, b.subjects, namespace).Some?
      {
        NamedApplies(a, b, namespace);
      }
    } else {
      assert ListVisits(a, env, listing, namespace)[0].error == Some(listing.error);
    }
  }

  /** When nothing allows a named user's request, the reason lists exactly the lookups that failed: the
      lists of bindings, and the roles of the bindings that name the user. Without any there is none. */
  lemma ReasonListsErrors(a: Attributes, env: Env, error: string)
    requires a.user != "" && Authorized(a, env).0 == NoOpinion
    ensures var reported := Authorized(a, env).1.Because? && error in Authorized(a, env).1.errors;
            reported <==>
              || (env.globals.ListFailed? && env.globals.error == error)
              || (a.scope == NAMESPACE_SCOPE && env.inNamespace(a.namespace) == ListFailed(error))
              || exists b, ns ::
                   Consulted(a, env, b, ns) && NamesUser(b, a.user) && RoleFails(env, b.roleRef, ns, error)
    ensures var errors := ErrorsOf(Visits(a, env));
            Authorized(a, env).1 == if errors == [] then NoReason else Because(errors)
  {
    VisitsHeeded(a, env);
    var first := ListVisits(a, env, env.globals, "");
    var second :=
      if a.scope == NAMESPACE_SCOPE then ListVisits(a, env, env.inNamespace(a.namespace), a.namespace) else [];
    ListErrors(a, env, env.globals, "", error);
    ListErrors(a, env, env.inNamespace(a.namespace), a.namespace, error);
    hide ListVisits, Permits, NamesUser, RoleFails;
    assert forall v :: v in Visits(a, env) <==> v in first || v in second;
    CheckingOutcome(a, env, Checking(false, None, []), Visits(a, env));
    CheckingErrors(a, env, Checking(false, None, []), Visits(a, env));
    ErrorsThere(Visits(a, env), error);
    assert [] + ErrorsOf(Visits(a, env)) == ErrorsOf(Visits(a, env));
    if env.globals.Listed? {
      forall b | b in env.globals.items
        ensures Consulted(a, env, b, "")
      {}
    }
    if a.scope == NAMESPACE_SCOPE && env.inNamespace(a.namespace).Listed? {
      forall b | b in env.inNamespace(a.namespace).items
        ensures Consulted(a, env, b, a.namespace)
      {}
    }
  }

  // ---- what is collected ----

  /** The role that a binding refers to is found and has the rule. */
  ghost predicate RoleHas(env: Env, ref: RoleRef, namespace: string, r: PolicyRule) {
    && ref.kind in {"Role", "ClusterRole", "GlobalRole"}
    && var found := env.roles(ref.kind, if ref.kind == "Role" then namespace else "", ref.name);
       found.Found? && r in found.role.rules
  }

  ghost predicate BindingHas(a: Attributes, env: Env, b: Binding, namespace: string, r: PolicyRule) {
    AppliesTo(a, b.subjects, namespace).Some? && RoleHas(env, b.roleRef, namespace, r)
  }

  lemma VisitRules(a: Attributes, env: Env, b: Binding, namespace: string, r: PolicyRule)
    ensures (exists v :: v in VisitsOf(a, env, b, namespace) && v.rule == Some(r)) <==>
              BindingHas(a, env, b, namespace, r)
  {
    var i, found := AppliesTo(a, b.subjects, namespace), GetRoleReferenceRules(env, b.roleRef, namespace);
    hide AppliesTo;
    if i.Some? && found.Found? {
      var source := Source(b, i.value, namespace);
      RuleVisitsAre(source, found.role.rules);
      if r in found.role.rules {
        assert Visit(Some(source), "", Some(r), None, true) in VisitsOf(a, env, b, namespace);
      }
    }
  }

  lemma {:induction false} VisitRulesAll(a: Attributes, env: Env, bindings: seq<Binding>, namespace: string,
                                         r: PolicyRule)
    ensures (exists v :: v in VisitsOfAll(a, env, bindings, namespace) && v.rule == Some(r)) <==>
            (exists b :: b in bindings && BindingHas(a, env, b, namespace, r))
  {
    hide VisitsOf, BindingHas;
    if bindings != [] {
      VisitRules(a, env, bindings[0], namespace, r);
      VisitRulesAll(a, env, bindings[1..], namespace, r);
      assert forall b :: b in bindings <==> b == bindings[0] || b in bindings[1..];
      var all := VisitsOfAll(a, env, bindings, namespace);
      var one, rest := VisitsOf(a, env, bindings[0], namespace), VisitsOfAll(a, env, bindings[1..], namespace);
      assert forall v :: v in all <==> v in one || v in rest;
    }
  }

  lemma ListRules(a: Attributes, env: Env, listing: Listing, namespace: string, r: PolicyRule)
    requires a.user != ""
    ensures (exists v :: v in ListVisits(a, env, listing, namespace) && v.rule == Some(r)) <==>
            && listing.Listed?
            && exists b :: b in listing.items && NamesUser(b, a.user) && RoleHas(env, b.roleRef, namespace, r)
  {
    hide AppliesTo, NamesUser, VisitsOfAll, RoleHas;
    if listing.Listed? {
      VisitRulesAll(a, env, BindingsFor(listing.items, a.user, []), namespace, r);
      forall b: Binding
        ensures Contains(b.subjects, a.user, []) <==> NamesUser(b, a.user)
        ensures NamesUser(b, a.user) ==> AppliesTo(a, b.subjects, namespace).Some?
      {
        NamedApplies(a, b, namespace);
      }
    }
  }

  lemma {:induction false} CollectedErrors(s: Collected, visits: seq<Visit>)
    ensures Visited(CollectingVisitor, s, visits).0.errors == s.errors + ErrorsOf(visits)
    decreases |visits|
  {
    if visits == [] {
      assert s.errors + [] == s.errors;
    } else {
      var own := if visits[0].error.Some? then [visits[0].error.value] else [];
      CollectedErrors(CollectingVisitor(s, visits[0]).0, visits[1..]);
      assert (s.errors + own) + ErrorsOf(visits[1..]) == s.errors + (own + ErrorsOf(visits[1..]));
    }
  }

  /** The rules collected for a named user are exactly those of the roles, found, of the consulted
      bindings that name the user; the errors are those of all lookups that failed, in order. */
  lemma CollectedMeans(a: Attributes, env: Env, r: PolicyRule)
    requires a.user != ""
    ensures var collected := Visited(CollectingVisitor, Collected([], []), Visits(a, env)).0;
            && (r in collected.rules <==>
                  exists b, ns :: Consulted(a, env, b, ns) && NamesUser(b, a.user) && RoleHas(env, b.roleRef, ns, r))
            && collected.errors == ErrorsOf(Visits(a, env))
  {
    var first := ListVisits(a, env, env.globals, "");
    var second :=
      if a.scope == NAMESPACE_SCOPE then ListVisits(a, env, env.inNamespace(a.namespace), a.namespace) else [];
    ListRules(a, env, env.globals, "", r);
    ListRules(a, env, env.inNamespace(a.namespace), a.namespace, r);
    hide ListVisits, NamesUser, RoleHas;
    assert forall v :: v in Visits(a, env) <==> v in first || v in second;
    CollectingOutcome(Collected([], []), Visits(a, env));
    CollectedErrors(Collected([], []), Visits(a, env));
    assert [] + ErrorsOf(Visits(a, env)) == ErrorsOf(Visits(a, env));
    if env.globals.Listed? {
      forall b | b in env.globals.items
        ensures Consulted(a, env, b, "")
      {}
    }
    if a.scope == NAMESPACE_SCOPE && env.inNamespace(a.namespace).Listed? {
      forall b | b in env.inNamespace(a.namespace).items
        ensures Consulted(a, env, b, a.namespace)
      {}
    }
  }

  // ---- which answers of a visitor are heeded ----

  /** A failed role lookup never stops a visitor, whatever it answers: the next binding is visited. */
  lemma BrokenRoleGoesOn<S>(a: Attributes, env: Env, b: Binding, namespace: string, visit: Visitor<S>, s: S,
                            rest: seq<Visit>, error: string)
    requires AppliesTo(a, b.subjects, namespace).Some? && RoleFails(env, b.roleRef, namespace, error)
    ensures exists v: Visit ::
              && v.error == Some(error) && v.rule == None && v.rego == "" && v.source == None
              && Visited(visit, s, VisitsOf(a, env, b, namespace) + rest) == Visited(visit, visit(s, v).0, rest)
  {
    var v := Visit(None, "", None, Some(error), false);
    hide AppliesTo;
    assert VisitsOf(a, env, b, namespace) == [v];
    assert ([v] + rest)[0] == v && ([v] + rest)[1..] == rest;
  }

  /** A failed list does stop a visitor that says so, and so does a policy or a rule: nothing is visited
      after it. */
  lemma AnswerStops<S>(visit: Visitor<S>, s: S, v: Visit, rest: seq<Visit>)
    requires !visit(s, v).1 && v.heeded
    ensures Visited(visit, s, [v] + rest) == (visit(s, v).0, false)
  {
    assert ([v] + rest)[0] == v;
  }

  lemma AllElseHeeded(a: Attributes, env: Env, v: Visit)
    ensures v in Visits(a, env) && (v.rule.Some? || v.source.Some?) ==> v.heeded
    ensures env.globals.ListFailed? ==> Visits(a, env)[0].heeded && Visits(a, env)[0].error == Some(env.globals.error)
  {
    if env.globals.Listed? {
      AllHeeded(a, env, BindingsFor(env.globals.items, a.user, []), "", v);
    }
    if env.inNamespace(a.namespace).Listed? {
      AllHeeded(a, env, BindingsFor(env.inNamespace(a.namespace).items, a.user, []), a.namespace, v);
    }
    hide VisitsOfAll;
  }

  lemma {:induction false} AllHeeded(a: Attributes, env: Env, bindings: seq<Binding>, namespace: string, v: Visit)
    ensures v in VisitsOfAll(a, env, bindings, namespace) && (v.rule.Some? || v.source.Some?) ==> v.heeded
  {
    if bindings != [] {
      AllHeeded(a, env, bindings[1..], namespace, v);
      var b := bindings[0];
      var i, found := AppliesTo(a, b.subjects, namespace), GetRoleReferenceRules(env, b.roleRef, namespace);
      hide AppliesTo, GetRoleReferenceRules;
      if i.Some? && found.Found? {
        RuleVisitsAre(Source(b, i.value, namespace), found.role.rules);
      }
    }
  }

  // ---- paths that are always allowed ----

  datatype PathAuthorizer = PathAuthorizer(paths: set<string>, prefixes: seq<string>)

  predicate Malformed(pattern: string) {
    var p := TrimSlash(pattern);
    p != "" && '*' in p[..|p| - 1]
  }

  /** A pattern matches its own path, or with a trailing star every path it is a prefix of; a
      leading slash does not count. */
  predicate PathMatches(pattern: string, path: string) {
    var p := TrimSlash(pattern);
    if p != "" && p[|p| - 1] == '*' then HasPrefix(TrimSlash(path), p[..|p| - 1]) else TrimSlash(path) == p
  }

  /** One leading slash does not count, and a star may stand at the end only. */
  lemma PatternMeans(p: string, path: string)
    requires p == "" || p[0] != '/'
    ensures Malformed(p) <==> exists i :: 0 <= i < |p| - 1 && p[i] == '*'
    ensures Malformed("/" + path) <==> exists i :: 0 <= i < |path| - 1 && path[i] == '*'
    ensures PathMatches("/" + p, path) <==> PathMatches(p, path)
    ensures PathMatches(p, "/" + path) <==>
              path == p || (p != "" && p[|p| - 1] == '*' && |p| - 1 <= |path| && path[..|p| - 1] == p[..|p| - 1])
  {
    assert ("/" + p)[1..] == p && ("/" + path)[1..] == path;
    if PathMatches(p, "/" + path) && path != p {
      assert path[..|p| - 1] == p[..|p| - 1];
    }
    if path == p && p != "" && p[|p| - 1] == '*' {
      assert HasPrefix(path, p[..|p| - 1]);
    }
  }

  function PathDecision(authorizer: PathAuthorizer, path: string): Decision {
    if TrimSlash(path) in authorizer.paths then Allow
    else if exists prefix | prefix in authorizer.prefixes :: HasPrefix(TrimSlash(path), prefix) then Allow
    else NoOpinion
  }

  /** Patterns with a star anywhere but at the end are rejected; the others decide as they match. */
  method NewPathAuthorizer(patterns: seq<string>) returns (authorizer: Option<PathAuthorizer>)
    ensures authorizer == None <==> exists p :: p in patterns && Malformed(p)
    ensures authorizer.Some? ==> forall path ::
              PathDecision(authorizer.value, path) == Allow <==> exists p :: p in patterns && PathMatches(p, path)
  {
    var paths: set<string>, prefixes: seq<string> := {}, [];
    for i := 0 to |patterns|
      invariant forall p :: p in patterns[..i] ==> !Malformed(p)
      invariant forall path ::
          PathDecision(PathAuthorizer(paths, prefixes), path) == Allow <==>
              exists p :: p in patterns[..i] && PathMatches(p, path)
    {
      ghost var before := PathAuthorizer(paths, prefixes);
      var p := TrimSlash(patterns[i]);
      assert patterns[..i + 1] == patterns[..i] + [patterns[i]];
      if |p| == 0 {
        paths := paths + {p};
      } else {
        if '*' in p[..|p| - 1] {
          assert patterns[i] in patterns && Malformed(patterns[i]);
          return None;
        }
        if p[|p| - 1] == '*' {
          prefixes := prefixes + [p[..|p| - 1]];
        } else {
          paths := paths + {p};
        }
      }
      PatternAdded(before, PathAuthorizer(paths, prefixes), patterns[i]);
    }
    assert patterns[..|patterns|] == patterns;
    return Some(PathAuthorizer(paths, prefixes));
  }

  lemma PatternAdded(before: PathAuthorizer, after: PathAuthorizer, pattern: string)
    requires var p := TrimSlash(pattern);
             if p != "" && p[|p| - 1] == '*' then after == before.(prefixes := before.prefixes + [p[..|p| - 1]])
             else after == before.(paths := before.paths + {p})
    ensures forall path :: PathDecision(after, path) == Allow <==>
        PathDecision(before, path) == Allow || PathMatches(pattern, path)
  {}

  // ---- the union ----

  datatype Opinion = Opinion(decision: Decision, reason: Reason, errors: seq<string>)

  type Authorizer = Attributes -> Opinion

  function UnionFrom(authorizers: seq<Authorizer>, a: Attributes, reasons: seq<Reason>, errors: seq<string>): Opinion
    decreases |authorizers|
  {
    if authorizers == [] then Opinion(NoOpinion, Joined(reasons), errors)
    else
      var o := authorizers[0](a);
      if o.decision != NoOpinion then o
      else
        var joined := if o.reason != NoReason then reasons + [o.reason] else reasons;
        UnionFrom(authorizers[1..], a, joined, errors + o.errors)
  }

  method UnionAuthorize(authorizers: seq<Authorizer>, a: Attributes) returns (r: Opinion)
    ensures r == UnionFrom(authorizers, a, [], [])
  {
    var errlist, reasonlist := [], [];
    for i := 0 to |authorizers|
      invariant UnionFrom(authorizers, a, [], []) == UnionFrom(authorizers[i..], a, reasonlist, errlist)
    {
      var o := authorizers[i](a);
      assert authorizers[i..][0] == authorizers[i] && authorizers[i..][1..] == authorizers[i + 1..];
      errlist := errlist + o.errors;
      if o.reason != NoReason {
        reasonlist := reasonlist + [o.reason];
      }
      if o.decision != NoOpinion {
        return o;
      }
    }
    return Opinion(NoOpinion, Joined(reasonlist), errlist);
  }

  /** The union answers with the first authorizer that has an opinion. */
  lemma {:induction false} UnionIsFirstOpinion(authorizers: seq<Authorizer>, a: Attributes, reasons: seq<Reason>,
                                               errors: seq<string>)
    ensures var r := UnionFrom(authorizers, a, reasons, errors);
            if r.decision == NoOpinion then
                forall k :: 0 <= k < |authorizers| ==> authorizers[k](a).decision == NoOpinion
            else exists k :: 0 <= k < |authorizers| && authorizers[k](a) == r
                   && forall j :: 0 <= j < k ==> authorizers[j](a).decision == NoOpinion
    decreases |authorizers|
  {
    if authorizers != [] {
      var o := authorizers[0](a);
      var rest := authorizers[1..];
      if o.decision == NoOpinion {
        var more, all := if o.reason != NoReason then reasons + [o.reason] else reasons, errors + o.errors;
        UnionIsFirstOpinion(rest, a, more, all);
        var r := UnionFrom(rest, a, more, all);
        assert r == UnionFrom(authorizers, a, reasons, errors);
        if r.decision != NoOpinion {
          var k :| 0 <= k < |rest| && rest[k](a) == r && forall j :: 0 <= j < k ==> rest[j](a).decision == NoOpinion;
          assert authorizers[k + 1](a) == r;
          forall j | 0 <= j < k + 1
            ensures authorizers[j](a).decision == NoOpinion
          {
            if j > 0 {
              assert rest[j - 1](a).decision == NoOpinion;
            }
          }
        } else {
          assert forall k :: 1 <= k < |authorizers| ==> authorizers[k] == rest[k - 1];
        }
      }
    }
  }

  /** What authorizers without an opinion report, in order. */
  function ReasonsOf(authorizers: seq<Authorizer>, a: Attributes): seq<Reason> {
    if authorizers == [] then []
    else
      var own := authorizers[0](a).reason;
      (if own == NoReason then [] else [own]) + ReasonsOf(authorizers[1..], a)
  }

  function AllErrors(authorizers: seq<Authorizer>, a: Attributes): seq<string> {
    if authorizers == [] then [] else authorizers[0](a).errors + AllErrors(authorizers[1..], a)
  }

  /** A union without an opinion reports all reasons and errors there are, in order. */
  lemma {:induction false} UnionReports(authorizers: seq<Authorizer>, a: Attributes, reasons: seq<Reason>,
                                        errors: seq<string>)
    requires forall k :: 0 <= k < |authorizers| ==> authorizers[k](a).decision == NoOpinion
    ensures UnionFrom(authorizers, a, reasons, errors)
         == Opinion(NoOpinion, Joined(reasons + ReasonsOf(authorizers, a)), errors + AllErrors(authorizers, a))
    decreases |authorizers|
  {
    if authorizers == [] {
      assert reasons + [] == reasons && errors + [] == errors;
    } else {
      var o := authorizers[0](a);
      var joined := if o.reason != NoReason then reasons + [o.reason] else reasons;
      UnionReports(authorizers[1..], a, joined, errors + o.errors);
      assert joined + ReasonsOf(authorizers[1..], a) == reasons + ReasonsOf(authorizers, a);
      assert errors + o.errors + AllErrors(authorizers[1..], a) == errors + AllErrors(authorizers, a);
    }
  }

  function ByPath(paths: PathAuthorizer): Authorizer {
    (a: Attributes) => Opinion(PathDecision(paths, a.path), NoReason, [])
  }

  function ByRBAC(env: Env): Authorizer {
    (a: Attributes) => var (decision, reason) := Authorized(a, env); Opinion(decision, reason, [])
  }

  /** The server's chain allows a request exactly when the path authorizer or RBAC does, and never
      denies or reports an error. */
  lemma ChainMeans(paths: PathAuthorizer, env: Env, a: Attributes)
    ensures var r := UnionFrom([ByPath(paths), ByRBAC(env)], a, [], []);
            && (r.decision == Allow <==> PathDecision(paths, a.path) == Allow || Authorized(a, env).0 == Allow)
            && r.decision in {Allow, NoOpinion} && r.errors == []
  {
    assert [ByPath(paths), ByRBAC(env)] == [ByPath(paths)] + [ByRBAC(env)];
    assert Authorized(a, env).0 in {Allow, NoOpinion};
    hide Authorized;
    UnionStep(ByPath(paths), [ByRBAC(env)], a, [], []);
    assert [ByRBAC(env)] == [ByRBAC(env)] + [];
    UnionStep(ByRBAC(env), [], a, [], []);
  }

  lemma UnionStep(first: Authorizer, rest: seq<Authorizer>, a: Attributes, reasons: seq<Reason>, errors: seq<string>)
    ensures UnionFrom([first] + rest, a, reasons, errors)
         == if first(a).decision != NoOpinion then first(a)
            else
              var joined := if first(a).reason != NoReason then reasons + [first(a).reason] else reasons;
              UnionFrom(rest, a, joined, errors + first(a).errors)
  {
    assert ([first] + rest)[0] == first && ([first] + rest)[1..] == rest;
  }
}
