/** The API objects the access-management code exchanges with its store, and the fate a call to
    that store can meet. */
module Iam {

  datatype Option<+T> = None | Some(value: T) {
    function GetOr(default: T): T {
      if Some? then value else default
    }
  }

  datatype Subject = Subject(kind: string, name: string, namespace: string)

  datatype RoleRef = RoleRef(kind: string, name: string)

  /** A RoleBinding or a GlobalRoleBinding; `userRef` is the value of its user-reference label,
      empty when the label is absent. */
  datatype Binding = Binding(name: string, userRef: string, subjects: seq<Subject>, roleRef: RoleRef)

  const USER_KIND := "User"
  const GROUP_KIND := "Group"
  const SERVICE_ACCOUNT_KIND := "ServiceAccount"

  // The scope of a request.
  const GLOBAL_SCOPE := "Global"
  const WORKSPACE_SCOPE := "Workspace"
  const NAMESPACE_SCOPE := "Namespace"

  const ROLE_KIND := "Role"
  const CLUSTER_ROLE_KIND := "ClusterRole"
  const GLOBAL_ROLE_KIND := "GlobalRole"

  /** What happens to one call: it is answered, it never reaches the store, or it takes effect
      and the answer is lost. The caller sees an error in the last two cases. */
  datatype Fault = Delivered | RequestLost | ResponseLost

  datatype ApiError = NotFound | AlreadyExists | Unavailable

  /** A list answer: any sequence holding exactly the objects of the store, in any order. */
  ghost predicate Lists(items: seq<Binding>, bindings: map<string, Binding>) {
    forall b :: b in items <==> b.name in bindings && bindings[b.name] == b
  }

  ghost predicate WellKeyed(bindings: map<string, Binding>) {
    forall n :: n in bindings ==> bindings[n].name == n
  }

  /** No user is the label of two bindings. */
  ghost predicate OnePerUser(bindings: map<string, Binding>) {
    forall m, n :: m in bindings && n in bindings && bindings[m].userRef == bindings[n].userRef != "" ==> m == n
  }

  /** `user`, who may be nobody, is the label of at most one binding. */
  ghost predicate AtMostOne(bindings: map<string, Binding>, user: string) {
    forall m, n :: m in bindings && n in bindings && bindings[m].userRef == bindings[n].userRef == user ==> m == n
  }

  ghost predicate HasBinding(bindings: map<string, Binding>, user: string) {
    exists n :: n in bindings && bindings[n].userRef == user
  }

  /** The bindings not labelled with one of `users`. */
  ghost function Others(bindings: map<string, Binding>, users: set<string>): map<string, Binding> {
    map n | n in bindings && bindings[n].userRef !in users :: bindings[n]
  }

  lemma OthersTwice(bindings: map<string, Binding>, users: set<string>, more: set<string>)
    ensures Others(Others(bindings, users), more) == Others(bindings, users + more)
  {}

  lemma OthersHasNone(bindings: map<string, Binding>, user: string)
    ensures !HasBinding(Others(bindings, {user}), user)
  {}

  /** Does the subject list name the user, or one of the groups? An empty user name stands for
      everybody. */
  predicate Contains(subjects: seq<Subject>, user: string, groups: seq<string>) {
    || user == ""
    || exists s | s in subjects :: (s.kind == USER_KIND && s.name == user) || (s.kind == GROUP_KIND && s.name in groups)
  }

  /** The listed bindings that name the user or one of the groups, in listing order. */
  function BindingsFor(items: seq<Binding>, user: string, groups: seq<string>): (r: seq<Binding>)
    ensures forall b :: b in r <==> b in items && Contains(b.subjects, user, groups)
  {
    if items == [] then []
    else (if Contains(items[0].subjects, user, groups) then [items[0]] else []) + BindingsFor(items[1..], user, groups)
  }
}
