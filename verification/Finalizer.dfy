/** Cleaning up after a deleted user. The finalizer on the user object must outlive every binding
    and login record labelled with the user, although each clean-up call may fail half way. */
module Finalizer {
  import opened Iam
  import opened Slices

  const FINALIZER := "finalizers.ai.io/users"

  /** A delete of all labelled objects succeeds, or fails after removing some of them. */
  datatype BulkDelete = Succeeds | Fails(removed: set<string>)

  predicate IsFinalizer(item: string) {
    item == FINALIZER
  }

  datatype LoginRecord = LoginRecord(userRef: string)

  /** The user's finalizers, and everything that may be labelled with the user. */
  datatype Cluster = Cluster(
    finalizers: seq<string>,
    globals: map<string, Binding>,
    namespaces: map<string, map<string, Binding>>,
    records: map<string, LoginRecord>)

  datatype Oracle = Oracle(
    globals: BulkDelete, listing: Fault, order: set<string> -> seq<string>, inNamespace: string -> BulkDelete,
    records: BulkDelete, updating: Fault)

  ghost predicate Faithful(o: Oracle) {
    forall names, n :: n in o.order(names) <==> n in names
  }

  function DeleteBindings(bindings: map<string, Binding>, user: string, d: BulkDelete): map<string, Binding> {
    map n | n in bindings && (bindings[n].userRef != user || (d.Fails? && n !in d.removed)) :: bindings[n]
  }

  function DeleteRecords(records: map<string, LoginRecord>, user: string, d: BulkDelete): map<string, LoginRecord> {
    map n | n in records && (records[n].userRef != user || (d.Fails? && n !in d.removed)) :: records[n]
  }

  function DeleteInNamespaces(c: Cluster, user: string, names: seq<string>, o: Oracle): (bool, Cluster)
    decreases |names|
  {
    if names == [] then (true, c)
    else if names[0] !in c.namespaces then DeleteInNamespaces(c, user, names[1..], o)
    else
      var d := o.inNamespace(names[0]);
      var after := c.(namespaces := c.namespaces[names[0] := DeleteBindings(c.namespaces[names[0]], user, d)]);
      if d.Fails? then (false, after) else DeleteInNamespaces(after, user, names[1..], o)
  }

  function DeleteRoleBindings(c: Cluster, user: string, o: Oracle): (bool, Cluster) {
    var after := c.(globals := DeleteBindings(c.globals, user, o.globals));
    if o.globals.Fails? || o.listing != Delivered then (false, after)
    else DeleteInNamespaces(after, user, o.order(after.namespaces.Keys), o)
  }

  /** Reconciling a user that is being deleted. */
  function ReconcileDeleted(c: Cluster, user: string, o: Oracle): (bool, Cluster) {
    if FINALIZER !in c.finalizers then (true, c)
    else
      var (ok, c) := DeleteRoleBindings(c, user, o);
      if !ok then (false, c)
      else
        var c := c.(records := DeleteRecords(c.records, user, o.records));
        if o.records.Fails? then (false, c)
        else
          (o.updating == Delivered,
           if o.updating == RequestLost then c else c.(finalizers := Reject(c.finalizers, IsFinalizer)))
  }

  class UserReconciler {
    var finalizers: seq<string>
    var globals: map<string, Binding>
    var namespaces: map<string, map<string, Binding>>
    var records: map<string, LoginRecord>

    function State(): Cluster
      reads this
    {
      Cluster(finalizers, globals, namespaces, records)
    }

    method DeleteUserRoleBindings(user: string, o: Oracle) returns (ok: bool)
      modifies this`globals, this`namespaces
      ensures (ok, State()) == DeleteRoleBindings(old(State()), user, o)
    {
      globals := DeleteBindings(globals, user, o.globals);
      if o.globals.Fails? {
        return false;
      }
      if o.listing != Delivered {
        return false;
      }
      var items := o.order(namespaces.Keys);
      ghost var start := State();
      for i := 0 to |items|
        invariant DeleteInNamespaces(start, user, items, o) == DeleteInNamespaces(State(), user, items[i..], o)
      {
        var name := items[i];
        assert items[i..][0] == name && items[i..][1..] == items[i + 1..];
        if name in namespaces {
          namespaces := namespaces[name := DeleteBindings(namespaces[name], user, o.inNamespace(name))];
          if o.inNamespace(name).Fails? {
            return false;
          }
        }
      }
      return true;
    }

    method Reconcile(user: string, o: Oracle) returns (ok: bool)
      modifies this
      ensures (ok, State()) == ReconcileDeleted(old(State()), user, o)
    {
      if FINALIZER in finalizers {
        ok := DeleteUserRoleBindings(user, o);
        if !ok {
          return;
        }
        records := DeleteRecords(records, user, o.records);
        if o.records.Fails? {
          return false;
        }
        var without := RemoveString(finalizers, IsFinalizer);
        if o.updating != RequestLost {
          finalizers := without;
        }
        return o.updating == Delivered;
      }
      return true;
    }
  }

  // ---- what clean-up achieves ----

  /** Some clean-up call that reconciling makes fails. */
  ghost predicate CleanUpFails(c: Cluster, o: Oracle) {
    || o.globals.Fails?
    || o.listing != Delivered
    || (exists n :: n in c.namespaces && o.inNamespace(n).Fails?)
    || o.records.Fails?
  }

  ghost predicate NothingLeft(c: Cluster, user: string) {
    && !HasBinding(c.globals, user)
    && (forall n :: n in c.namespaces ==> !HasBinding(c.namespaces[n], user))
    && (forall n :: n in c.records ==> c.records[n].userRef != user)
  }

  /** The cluster without anything labelled with the user. */
  ghost function Purged(c: Cluster, user: string): Cluster {
    Cluster(
      Reject(c.finalizers, IsFinalizer),
      Others(c.globals, {user}),
      map n | n in c.namespaces :: Others(c.namespaces[n], {user}),
      map n | n in c.records && c.records[n].userRef != user :: c.records[n])
  }

  lemma DeleteBindingsPurges(bindings: map<string, Binding>, user: string, d: BulkDelete)
    ensures Others(DeleteBindings(bindings, user, d), {user}) == Others(bindings, {user})
    ensures d.Succeeds? ==> DeleteBindings(bindings, user, d) == Others(bindings, {user})
  {}

  lemma {:induction false} DeleteInNamespacesOutcome(c: Cluster, user: string, names: seq<string>, o: Oracle)
    requires forall n :: n in names ==> n in c.namespaces
    ensures var (ok, t) := DeleteInNamespaces(c, user, names, o);
            && t.finalizers == c.finalizers && t.globals == c.globals && t.records == c.records
            && t.namespaces.Keys == c.namespaces.Keys
            && (forall n :: n in c.namespaces ==> Others(t.namespaces[n], {user}) == Others(c.namespaces[n], {user}))
            && (forall n :: n in c.namespaces && c.namespaces[n] == Others(c.namespaces[n], {user}) ==>
                 t.namespaces[n] == c.namespaces[n])
            && (ok ==> forall n :: n in names ==> t.namespaces[n] == Others(c.namespaces[n], {user}))
            && (ok <==> forall n :: n in names ==> o.inNamespace(n).Succeeds?)
    decreases |names|
  {
    if names != [] {
      var d := o.inNamespace(names[0]);
      var b := DeleteBindings(c.namespaces[names[0]], user, d);
      DeleteBindingsPurges(c.namespaces[names[0]], user, d);
      if d.Succeeds? {
        OthersTwice(c.namespaces[names[0]], {user}, {user});
        DeleteInNamespacesOutcome(c.(namespaces := c.namespaces[names[0] := b]), user, names[1..], o);
        assert forall n :: n in names <==> n == names[0] || n in names[1..];
      } else {
        assert names[0] in names;
      }
    }
  }

  lemma DeleteRoleBindingsOutcome(c: Cluster, user: string, o: Oracle)
    requires Faithful(o)
    ensures var (ok, t) := DeleteRoleBindings(c, user, o);
            && t.finalizers == c.finalizers && t.records == c.records
            && Purged(t, user) == Purged(c, user)
            && (ok <==>
                  && o.globals.Succeeds? && o.listing == Delivered
                  && forall n :: n in c.namespaces ==> o.inNamespace(n).Succeeds?)
            && (ok ==> t == c.(globals := Purged(c, user).globals, namespaces := Purged(c, user).namespaces))
  {
    DeleteBindingsPurges(c.globals, user, o.globals);
    var after := c.(globals := DeleteBindings(c.globals, user, o.globals));
    if o.globals.Succeeds? && o.listing == Delivered {
      hide DeleteBindings, Others;
      DeleteInNamespacesOutcome(after, user, o.order(after.namespaces.Keys), o);
    }
  }

  lemma PurgedTwice(c: Cluster, user: string)
    ensures Purged(Purged(c, user), user) == Purged(c, user) && NothingLeft(Purged(c, user), user)
    ensures FINALIZER !in Purged(c, user).finalizers
  {
    var t := Purged(c, user);
    RejectNothing(t.finalizers, IsFinalizer);
    OthersTwice(c.globals, {user}, {user});
    OthersHasNone(c.globals, user);
    assert {user} + {user} == {user};
    hide Others;
    forall n | n in c.namespaces
      ensures Others(t.namespaces[n], {user}) == t.namespaces[n] && !HasBinding(t.namespaces[n], user)
    {
      OthersTwice(c.namespaces[n], {user}, {user});
      OthersHasNone(c.namespaces[n], user);
    }
  }

  lemma DeleteRecordsPurges(c: Cluster, user: string, d: BulkDelete)
    ensures var t := c.(records := DeleteRecords(c.records, user, d));
            && Purged(t, user) == Purged(c, user)
            && (d.Succeeds? ==> t.records == Purged(c, user).records)
  {}

  /** One reconcile: the finalizer goes exactly when every clean-up call succeeded and the update
      got through, and then nothing labelled with the user is left. Otherwise the cluster is a step
      on the way to the purged one. */
  lemma ReconcileOutcome(c: Cluster, user: string, o: Oracle)
    requires FINALIZER in c.finalizers && Faithful(o)
    ensures var (ok, t) := ReconcileDeleted(c, user, o);
            && (FINALIZER !in t.finalizers <==> !CleanUpFails(c, o) && o.updating != RequestLost)
            && (FINALIZER !in t.finalizers ==> t == Purged(c, user) && NothingLeft(t, user))
            && (FINALIZER in t.finalizers ==> t.finalizers == c.finalizers && Purged(t, user) == Purged(c, user))
            && (ok <==> !CleanUpFails(c, o) && o.updating == Delivered)
  {
    PurgedTwice(c, user);
    DeleteRoleBindingsOutcome(c, user, o);
    var d := DeleteRoleBindings(c, user, o).1;
    DeleteRecordsPurges(d, user, o.records);
    assert Purged(c, user).finalizers == Reject(c.finalizers, IsFinalizer);
    hide Purged, DeleteRoleBindings, DeleteRecords, NothingLeft;
  }

  /** Without the finalizer there is nothing to do, and no error. */
  lemma NothingToDo(c: Cluster, user: string, o: Oracle)
    requires "finalizers.ai.io/users" !in c.finalizers
    ensures ReconcileDeleted(c, user, o) == (true, c)
  {}

  function Attempts(c: Cluster, user: string, oracles: seq<Oracle>): Cluster
    decreases |oracles|
  {
    if oracles == [] then c else Attempts(ReconcileDeleted(c, user, oracles[0]).1, user, oracles[1..])
  }

  lemma AttemptsStep(c: Cluster, user: string, o: Oracle, oracles: seq<Oracle>)
    ensures Attempts(c, user, []) == c
    ensures Attempts(c, user, [o] + oracles) == Attempts(ReconcileDeleted(c, user, o).1, user, oracles)
  {
    hide ReconcileDeleted;
    assert ([o] + oracles)[1..] == oracles;
  }

  lemma {:induction false} DoneStays(c: Cluster, user: string, oracles: seq<Oracle>)
    requires FINALIZER !in c.finalizers
    ensures Attempts(c, user, oracles) == c
    decreases |oracles|
  {
    if oracles != [] {
      DoneStays(c, user, oracles[1..]);
    }
  }

  /** However many reconciles fail, and however far each got, a clean one ends where a single clean
      reconcile would have. */
  lemma {:induction false} CleanUpConverges(c: Cluster, user: string, failed: seq<Oracle>, clean: Oracle)
    requires FINALIZER in c.finalizers
    requires (forall o :: o in failed ==> Faithful(o)) && Faithful(clean)
    requires !CleanUpFails(c, clean) && clean.updating == Delivered
    requires forall n :: clean.inNamespace(n).Succeeds?
    ensures ReconcileDeleted(Attempts(c, user, failed), user, clean) == ReconcileDeleted(c, user, clean)
    ensures ReconcileDeleted(c, user, clean) == (true, Purged(c, user))
    decreases |failed|
  {
    ReconcileOutcome(c, user, clean);
    hide Purged;
    if failed != [] {
      ReconcileOutcome(c, user, failed[0]);
      var t := ReconcileDeleted(c, user, failed[0]).1;
      if FINALIZER in t.finalizers {
        CleanUpConverges(t, user, failed[1..], clean);
      } else {
        DoneStays(t, user, failed[1..]);
      }
    }
  }
}
