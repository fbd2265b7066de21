/** Does one policy rule allow one request? */
module Rules {
  import opened Strings

  datatype PolicyRule = PolicyRule(
    verbs: seq<string>, apiGroups: seq<string>, resources: seq<string>, resourceNames: seq<string>,
    nonResourceURLs: seq<string>)

  datatype Attributes = Attributes(
    user: string, groups: seq<string>, verb: string, resourceRequest: bool, apiGroup: string, resource: string,
    subresource: string, name: string, namespace: string, scope: string, path: string)

  const ALL := "*"

  predicate VerbMatches(rule: PolicyRule, verb: string) {
    exists v | v in rule.verbs :: v == ALL || v == verb
  }

  predicate APIGroupMatches(rule: PolicyRule, group: string) {
    exists g | g in rule.apiGroups :: g == ALL || g == group
  }

  /** The test for a rule resource of the form "*" "/" subresource. */
  predicate CoversSubresource(ruleResource: string, subresource: string) {
    && |ruleResource| == |subresource| + 2
    && HasPrefix(ruleResource, "*/")
    && HasSuffix(ruleResource, subresource)
  }

  predicate ResourceMatches(rule: PolicyRule, combined: string, subresource: string) {
    exists r | r in rule.resources ::
      r == ALL || r == combined || (subresource != "" && CoversSubresource(r, subresource))
  }

  predicate ResourceNameMatches(rule: PolicyRule, name: string) {
    rule.resourceNames == [] || name in rule.resourceNames
  }

  predicate NonResourceURLMatches(rule: PolicyRule, path: string) {
    exists u | u in rule.nonResourceURLs ::
      u == ALL || u == path || (HasSuffix(u, ALL) && HasPrefix(path, TrimRight(u, '*')))
  }

  function CombinedResource(a: Attributes): string {
    if a.subresource != "" then a.resource + "/" + a.subresource else a.resource
  }

  predicate RuleAllows(a: Attributes, rule: PolicyRule) {
    if a.resourceRequest then
      && VerbMatches(rule, a.verb)
      && APIGroupMatches(rule, a.apiGroup)
      && ResourceMatches(rule, CombinedResource(a), a.subresource)
      && ResourceNameMatches(rule, a.name)
    else VerbMatches(rule, a.verb) && NonResourceURLMatches(rule, a.path)
  }

  /** A rule about one verb, one group, one resource and at most one name. */
  function ResourceAtom(verb: string, group: string, resource: string, names: seq<string>): PolicyRule {
    PolicyRule([verb], [group], [resource], names, [])
  }

  /** A rule about one verb and one URL. */
  function URLAtom(verb: string, url: string): PolicyRule {
    PolicyRule([verb], [], [], [], [url])
  }

  ghost predicate NamesOf(names: seq<string>, rule: PolicyRule) {
    if rule.resourceNames == [] then names == [] else |names| == 1 && names[0] in rule.resourceNames
  }

  ghost predicate IsAtomOf(atom: PolicyRule, rule: PolicyRule) {
    || (exists v, g, r, ns :: v in rule.verbs && g in rule.apiGroups && r in rule.resources && NamesOf(ns, rule)
                              && atom == ResourceAtom(v, g, r, ns))
    || (exists v, u :: v in rule.verbs && u in rule.nonResourceURLs && atom == URLAtom(v, u))
  }

  lemma SingletonRule(atom: PolicyRule, rule: PolicyRule)
    requires IsAtomOf(atom, rule)
    ensures forall v :: v in atom.verbs ==> v in rule.verbs
    ensures forall g :: g in atom.apiGroups ==> g in rule.apiGroups
    ensures forall r :: r in atom.resources ==> r in rule.resources
    ensures forall u :: u in atom.nonResourceURLs ==> u in rule.nonResourceURLs
    ensures atom.resources != [] ==> forall n :: ResourceNameMatches(atom, n) ==> ResourceNameMatches(rule, n)
  {}

  /** A rule allows exactly what its atoms allow: its lists combine freely, and nothing else. */
  lemma Atomisation(a: Attributes, rule: PolicyRule)
    ensures RuleAllows(a, rule) <==> exists atom :: IsAtomOf(atom, rule) && RuleAllows(a, atom)
  {
    if RuleAllows(a, rule) {
      var v :| v in rule.verbs && (v == ALL || v == a.verb);
      if a.resourceRequest {
        var g :| g in rule.apiGroups && (g == ALL || g == a.apiGroup);
        var r :| r in rule.resources
              && (r == ALL || r == CombinedResource(a) || (a.subresource != "" && CoversSubresource(r, a.subresource)));
        var names := if rule.resourceNames == [] then [] else [a.name];
        assert NamesOf(names, rule);
        var atom := ResourceAtom(v, g, r, names);
        assert IsAtomOf(atom, rule);
        assert v in atom.verbs && g in atom.apiGroups && r in atom.resources;
        assert RuleAllows(a, atom);
      } else {
        var u :| u in rule.nonResourceURLs &&
            (u == ALL || u == a.path || (HasSuffix(u, ALL) && HasPrefix(a.path, TrimRight(u, '*'))));
        var atom := URLAtom(v, u);
        assert IsAtomOf(atom, rule);
        assert v in atom.verbs && u in atom.nonResourceURLs;
        assert RuleAllows(a, atom);
      }
    }
    forall atom | IsAtomOf(atom, rule) && RuleAllows(a, atom)
      ensures RuleAllows(a, rule)
    {
      SingletonRule(atom, rule);
    }
  }

  // ---- what an atom allows ----

  /** The name of what is requested, as rules write it. */
  ghost predicate CoversResource(r: string, a: Attributes) {
    || r == "*"
    || (a.subresource == "" && r == a.resource)
    || (a.subresource != "" && (r == a.resource + "/" + a.subresource || r == "*/" + a.subresource))
  }

  /** An atom about resources allows a resource request that its verb, its group, its resource and its
      name, if it has one, fit. */
  lemma ResourceAtomAllows(a: Attributes, v: string, g: string, r: string, names: seq<string>)
    ensures RuleAllows(a, ResourceAtom(v, g, r, names)) <==>
              && a.resourceRequest
              && (v == "*" || v == a.verb) && (g == "*" || g == a.apiGroup) && CoversResource(r, a)
              && (names == [] || a.name in names)
  {
    var rule := ResourceAtom(v, g, r, names);
    assert rule.verbs == [v] && rule.apiGroups == [g] && rule.resources == [r] && rule.nonResourceURLs == [];
    assert v in rule.verbs && g in rule.apiGroups && r in rule.resources;
    if CoversSubresource(r, a.subresource) {
      assert r == r[..2] + r[2..];
    }
    if r == "*/" + a.subresource {
      assert r[..2] == "*/" && r[2..] == a.subresource;
    }
  }

  ghost predicate AllStars(s: string) {
    forall i :: 0 <= i < |s| ==> s[i] == '*'
  }

  lemma {:induction false} TrimRightStars(s: string)
    ensures TrimRight(s, '*') <= s && AllStars(s[|TrimRight(s, '*')|..])
    ensures var t := TrimRight(s, '*'); t == "" || t[|t| - 1] != '*'
  {
    if s != "" && s[|s| - 1] == '*' {
      TrimRightStars(s[..|s| - 1]);
    }
  }

  /** The URL is a prefix of the path followed by at least one star. */
  ghost predicate StarredPrefix(u: string, path: string) {
    exists n :: 0 <= n < |u| && n <= |path| && u[..n] == path[..n] && AllStars(u[n..])
  }

  lemma TrimmedIsStarred(u: string, path: string)
    ensures HasSuffix(u, ALL) && HasPrefix(path, TrimRight(u, '*')) <==> StarredPrefix(u, path)
  {
    TrimRightStars(u);
    var t := TrimRight(u, '*');
    if HasSuffix(u, ALL) && HasPrefix(path, t) {
      assert u[|u| - 1] == '*' && |t| < |u|;
      assert u[..|t|] == path[..|t|];
    }
    if StarredPrefix(u, path) {
      var n :| 0 <= n < |u| && n <= |path| && u[..n] == path[..n] && AllStars(u[n..]);
      forall i | n <= i < |u|
        ensures u[i] == '*'
      {
        assert u[i] == u[n..][i - n];
      }
      assert u[|u| - 1..] == ALL && |t| <= n;
      assert t == u[..|t|] == path[..|t|];
    }
  }

  /** An atom about URLs allows a request for something else than a resource that its verb fits, if
      its URL is a star, the path, or a prefix of the path followed by stars. */
  lemma URLAtomAllows(a: Attributes, v: string, u: string)
    ensures RuleAllows(a, URLAtom(v, u)) <==>
              && !a.resourceRequest && (v == "*" || v == a.verb)
              && (u == "*" || u == a.path || StarredPrefix(u, a.path))
  {
    var rule := URLAtom(v, u);
    assert rule.verbs == [v] && rule.nonResourceURLs == [u] && rule.resources == [];
    assert v in rule.verbs && u in rule.nonResourceURLs;
    TrimmedIsStarred(u, a.path);
    hide TrimRight, HasSuffix, HasPrefix, StarredPrefix;
  }

  /** What a rule allows: a resource request that one of its verbs, one of its groups, one of its
      resources and one of its names, if it has any, fit; or another request that one of its verbs and
      one of its URLs fit. */
  lemma RuleMeans(a: Attributes, rule: PolicyRule)
    ensures RuleAllows(a, rule) <==>
              && ("*" in rule.verbs || a.verb in rule.verbs)
              && if a.resourceRequest then
                   && ("*" in rule.apiGroups || a.apiGroup in rule.apiGroups)
                   && (exists r :: r in rule.resources && CoversResource(r, a))
                   && (rule.resourceNames == [] || a.name in rule.resourceNames)
                 else exists u :: u in rule.nonResourceURLs && (u == "*" || u == a.path || StarredPrefix(u, a.path))
  {
    forall r
      ensures RuleAllows(a, ResourceAtom("*", "*", r, [])) <==> a.resourceRequest && CoversResource(r, a)
    {
      ResourceAtomAllows(a, "*", "*", r, []);
    }
    forall u
      ensures RuleAllows(a, URLAtom("*", u)) <==>
                !a.resourceRequest && (u == "*" || u == a.path || StarredPrefix(u, a.path))
    {
      URLAtomAllows(a, "*", u);
    }
    FitsAtoms(a, rule);
    hide RuleAllows, StarredPrefix, CoversResource;
  }

  lemma FitsAtoms(a: Attributes, rule: PolicyRule)
    ensures RuleAllows(a, rule) <==>
              && ("*" in rule.verbs || a.verb in rule.verbs)
              && if a.resourceRequest then
                   && ("*" in rule.apiGroups || a.apiGroup in rule.apiGroups)
                   && (exists r :: r in rule.resources && RuleAllows(a, ResourceAtom("*", "*", r, [])))
                   && (rule.resourceNames == [] || a.name in rule.resourceNames)
                 else exists u :: u in rule.nonResourceURLs && RuleAllows(a, URLAtom("*", u))
  {
    forall r
      ensures RuleAllows(a, ResourceAtom("*", "*", r, [])) <==>
                && a.resourceRequest
                && (|| r == ALL || r == CombinedResource(a)
                    || (a.subresource != "" && CoversSubresource(r, a.subresource)))
    {
      var atom := ResourceAtom("*", "*", r, []);
      assert atom.verbs == ["*"] && atom.apiGroups == ["*"] && atom.resources == [r];
      assert "*" in atom.verbs && "*" in atom.apiGroups && r in atom.resources;
    }
    forall u
      ensures RuleAllows(a, URLAtom("*", u)) <==>
                && !a.resourceRequest
                && (u == ALL || u == a.path || (HasSuffix(u, ALL) && HasPrefix(a.path, TrimRight(u, '*'))))
    {
      var atom := URLAtom("*", u);
      assert atom.verbs == ["*"] && atom.nonResourceURLs == [u];
      assert "*" in atom.verbs && u in atom.nonResourceURLs;
    }
  }
}
