/** Names of role bindings. A binding is created under the name "user-role" but looked up by its
    label, so two (user, role) pairs must not share a name. */
module Naming {

  function BindingName(user: string, role: string): string {
    user + "-" + role
  }

  predicate IsSuffix(a: string, b: string) {
    |a| <= |b| && b[|b| - |a|..] == a
  }

  /** No "-r" ends another role's "-s". */
  ghost predicate Unambiguous(roles: set<string>) {
    forall r, s :: r in roles && s in roles && IsSuffix("-" + r, "-" + s) ==> r == s
  }

  ghost predicate NamesInjective(roles: set<string>) {
    forall u, r, v, s ::
      u != "" && v != "" && r in roles && s in roles && BindingName(u, r) == BindingName(v, s) ==> u == v && r == s
  }

  /** Two names that agree: the shorter "-role" ends the longer one. */
  lemma CommonTail(u: string, r: string, v: string, s: string)
    requires BindingName(u, r) == BindingName(v, s) && |r| <= |s|
    ensures IsSuffix("-" + r, "-" + s)
  {
    var n := BindingName(u, r);
    assert n == u + ("-" + r) == v + ("-" + s);
    assert n[|n| - |r| - 1..] == "-" + r;
    assert n[|v|..] == "-" + s;
    assert ("-" + s)[|s| - |r|..] == n[|v|..][|s| - |r|..] == n[|v| + |s| - |r|..];
  }

  lemma NameDetermines(roles: set<string>, u: string, r: string, v: string, s: string)
    requires Unambiguous(roles) && r in roles && s in roles
    requires BindingName(u, r) == BindingName(v, s)
    ensures u == v && r == s
  {
    if |r| <= |s| {
      CommonTail(u, r, v, s);
    } else {
      CommonTail(v, s, u, r);
    }
    assert u == BindingName(u, r)[..|u|] && v == BindingName(v, s)[..|v|];
  }

  /** If "-r" ends "-s", a user's binding for "s" has the name of another user's binding for "r". */
  lemma SharedName(r: string, s: string) returns (v: string)
    requires IsSuffix("-" + r, "-" + s)
    ensures v != "" && BindingName("a", s) == BindingName(v, r)
  {
    var x := ("-" + s)[..|s| - |r|];
    assert "-" + s == x + ("-" + r);
    v := "a" + x;
    assert BindingName("a", s) == "a" + ("-" + s) == "a" + (x + ("-" + r)) == v + ("-" + r) == BindingName(v, r);
  }

  /** A role vocabulary gives injective binding names exactly when no "-r" ends another "-s". */
  lemma NamesInjectiveIff(roles: set<string>)
    ensures NamesInjective(roles) <==> Unambiguous(roles)
  {
    hide BindingName, IsSuffix;
    if Unambiguous(roles) {
      forall u, r, v, s | u != "" && v != "" && r in roles && s in roles && BindingName(u, r) == BindingName(v, s)
        ensures u == v && r == s
      {
        NameDetermines(roles, u, r, v, s);
      }
    }
    if NamesInjective(roles) {
      forall r, s | r in roles && s in roles && IsSuffix("-" + r, "-" + s)
        ensures r == s
      {
        var v := SharedName(r, s);
      }
    }
  }
}
