/** The in-memory cache with deadlines, and the cleaner that sweeps it in the background. */
module Cache {
  import opened Iam

  /** The duration that stands for "never expires". */
  const NEVER_EXPIRE := 0

  datatype Entry = Entry(value: string, neverExpire: bool, expiredAt: int)

  type Store = map<string, Entry>

  predicate IsExpired(e: Entry, now: int) {
    !e.neverExpire && now > e.expiredAt
  }

  /** At the very deadline an entry is neither readable nor expired. */
  predicate Readable(e: Entry, now: int) {
    e.neverExpire || now < e.expiredAt
  }

  function NewEntry(value: string, duration: int, now: int): Entry {
    Entry(value, duration == NEVER_EXPIRE, now + duration)
  }

  function Read(s: Store, key: string, now: int): Option<string> {
    if key in s && Readable(s[key], now) then Some(s[key].value) else None
  }

  function Swept(s: Store, now: int): Store {
    map k | k in s && !IsExpired(s[k], now) :: s[k]
  }

  function Without(s: Store, keys: seq<string>): Store {
    map k | k in s && k !in keys :: s[k]
  }

  datatype Op =
    | Set(key: string, value: string, duration: int)
    | Del(keys: seq<string>)
    | Get(key: string)
    | Expire(key: string, duration: int)
    | Clean

  datatype Event = Event(at: int, op: Op)

  function Apply(s: Store, e: Event): Store {
    match e.op
    case Set(key, value, duration) => s[key := NewEntry(value, duration, e.at)]
    case Del(keys) => Without(s, keys)
    case Get(_) => s
    case Expire(key, duration) =>
      var found := Read(s, key, e.at);
      if found == None then s else s[key := NewEntry(found.value, duration, e.at)]
    case Clean => Swept(s, e.at)
  }

  class InMemoryCache {
    var store: Store

    constructor ()
      ensures store == map[]
    {
      store := map[];
    }

    method CleanInvalidToken(now: int)
      modifies this
      ensures store == Apply(old(store), Event(now, Clean))
    {
      var keys := store.Keys;
      while keys != {}
        invariant keys <= old(store).Keys
        invariant store == map k | k in old(store) && (k in keys || !IsExpired(old(store)[k], now)) :: old(store)[k]
        decreases |keys|
      {
        var k :| k in keys;
        keys := keys - {k};
        if IsExpired(store[k], now) {
          store := store - {k};
        }
      }
    }

    method SetValue(key: string, value: string, duration: int, now: int)
      modifies this
      ensures store == Apply(old(store), Event(now, Set(key, value, duration)))
    {
      var entry := Entry(value, false, now + duration);
      if duration == NEVER_EXPIRE {
        entry := entry.(neverExpire := true);
      }
      store := store[key := entry];
    }

    method DelKeys(keys: seq<string>, ghost now: int)
      modifies this
      ensures store == Apply(old(store), Event(now, Del(keys)))
    {
      for i := 0 to |keys|
        invariant store == Without(old(store), keys[..i])
      {
        assert keys[..i + 1] == keys[..i] + [keys[i]];
        store := store - {keys[i]};
      }
      assert keys[..|keys|] == keys;
    }

    method GetValue(key: string, now: int) returns (value: Option<string>)
      ensures value == Read(store, key, now)
      ensures value.Some? ==> key in store
    {
      if key in store {
        if store[key].neverExpire || now < store[key].expiredAt {
          return Some(store[key].value);
        }
      }
      return None;
    }

    /** Deadlines are ignored here. */
    method Exists(keys: seq<string>) returns (all: bool)
      ensures all <==> forall k :: k in keys ==> k in store
    {
      for i := 0 to |keys|
        invariant forall k :: k in keys[..i] ==> k in store
      {
        if keys[i] !in store {
          return false;
        }
        assert keys[..i + 1] == keys[..i] + [keys[i]];
      }
      assert keys[..|keys|] == keys;
      return true;
    }

    method ExpireKey(key: string, duration: int, now: int) returns (ok: bool)
      modifies this
      ensures ok == Read(old(store), key, now).Some?
      ensures store == Apply(old(store), Event(now, Expire(key, duration)))
    {
      var value := GetValue(key, now);
      if value == None {
        return false;
      }
      SetValue(key, value.value, duration, now);
      return true;
    }
  }

  // ---- the cleaner cannot be noticed ----

  /** What the calls that return something return: the value of a Get, the success of an Expire. */
  function Replies(s: Store, events: seq<Event>): seq<Option<string>>
    decreases |events|
  {
    if events == [] then []
    else
      var e, rest := events[0], Replies(Apply(s, events[0]), events[1..]);
      match e.op
      case Get(key) => [Read(s, key, e.at)] + rest
      case Expire(key, _) => [if Read(s, key, e.at).Some? then Some("") else None] + rest
      case _ => rest
  }

  lemma RepliesStep(s: Store, e: Event, events: seq<Event>)
    ensures var rest := Replies(Apply(s, e), events);
            && (e.op.Get? ==> Replies(s, [e] + events) == [Read(s, e.op.key, e.at)] + rest)
            && (e.op.Expire? ==> |Replies(s, [e] + events)| == |rest| + 1
                                 && (Replies(s, [e] + events)[0].Some? <==> Read(s, e.op.key, e.at).Some?)
                                 && Replies(s, [e] + events)[1..] == rest)
            && (!e.op.Get? && !e.op.Expire? ==> Replies(s, [e] + events) == rest)
  {
    assert ([e] + events)[0] == e && ([e] + events)[1..] == events;
  }

  function WithoutCleaning(events: seq<Event>): seq<Event> {
    if events == [] then []
    else (if events[0].op == Clean then [] else [events[0]]) + WithoutCleaning(events[1..])
  }

  /** The clock does not go back. */
  predicate InOrder(from: int, events: seq<Event>)
    decreases |events|
  {
    events == [] || (from <= events[0].at && InOrder(events[0].at, events[1..]))
  }

  /** Two stores with the same readable entries, now and therefore from now on. */
  ghost predicate SameReadable(s: Store, t: Store, now: int) {
    forall k :: (k in s && Readable(s[k], now)) || (k in t && Readable(t[k], now)) ==> k in s && k in t && s[k] == t[k]
  }

  lemma ApplySameReadable(s: Store, t: Store, now: int, e: Event)
    requires SameReadable(s, t, now) && now <= e.at
    ensures SameReadable(Apply(s, e), Apply(t, e), e.at)
    ensures e.op == Clean ==> SameReadable(Apply(s, e), t, e.at)
  {}

  lemma {:induction false} SameReplies(s: Store, t: Store, now: int, events: seq<Event>)
    requires SameReadable(s, t, now) && InOrder(now, events)
    ensures Replies(s, events) == Replies(t, WithoutCleaning(events))
    decreases |events|
  {
    if events != [] {
      var e := events[0];
      ApplySameReadable(s, t, now, e);
      var next := if e.op == Clean then t else Apply(t, e);
      SameReplies(Apply(s, e), next, e.at, events[1..]);
      if e.op == Clean {
        assert WithoutCleaning(events) == WithoutCleaning(events[1..]);
      } else {
        assert WithoutCleaning(events)[0] == e && WithoutCleaning(events)[1..] == WithoutCleaning(events[1..]);
      }
    }
  }

  /** Sweeping at any times changes no answer of Get or Expire: the cache is a plain map from keys
      to values with deadlines. */
  lemma CleaningInvisible(s: Store, now: int, events: seq<Event>)
    requires InOrder(now, events)
    ensures Replies(s, events) == Replies(s, WithoutCleaning(events))
  {
    SameReplies(s, s, now, events);
  }

  function ApplyAll(s: Store, events: seq<Event>): Store
    decreases |events|
  {
    if events == [] then s else ApplyAll(Apply(s, events[0]), events[1..])
  }

  lemma ApplyAllStep(s: Store, e: Event, events: seq<Event>)
    ensures ApplyAll(s, []) == s && ApplyAll(s, [e] + events) == ApplyAll(Apply(s, e), events)
  {
    assert ([e] + events)[1..] == events;
  }

  /** No event writes the key. */
  predicate LeavesAlone(events: seq<Event>, key: string) {
    forall e | e in events ::
      match e.op
      case Set(k, _, _) => k != key
      case Expire(k, _) => k != key
      case Del(keys) => key !in keys
      case _ => true
  }

  lemma {:induction false} EntryOutlastsOthers(s: Store, key: string, entry: Entry, from: int, events: seq<Event>,
                                               now: int)
    requires InOrder(from, events) && LeavesAlone(events, key) && from <= now && forall e :: e in events ==> e.at <= now
    requires key in s ==> s[key] == entry
    requires key !in s ==> IsExpired(entry, from)
    ensures var t := ApplyAll(s, events); (key in t ==> t[key] == entry) && (key !in t ==> IsExpired(entry, now))
    decreases |events|
  {
    if events != [] {
      var e := events[0];
      assert e in events && forall x :: x in events[1..] ==> x in events;
      EntryOutlastsOthers(Apply(s, e), key, entry, e.at, events[1..], now);
    }
  }

  /** What was set is read back until its deadline and not afterwards, through any sweeps and any
      traffic on other keys. */
  lemma ReadAfterSet(s: Store, key: string, value: string, duration: int, at: int, events: seq<Event>, now: int)
    requires InOrder(at, events) && LeavesAlone(events, key) && at <= now && forall e :: e in events ==> e.at <= now
    ensures Read(ApplyAll(Apply(s, Event(at, Set(key, value, duration))), events), key, now)
         == if duration == 0 || now < at + duration then Some(value) else None
  {
    EntryOutlastsOthers(Apply(s, Event(at, Set(key, value, duration))), key, NewEntry(value, duration, at), at,
                        events, now);
  }

  /** A new deadline for a readable entry holds like a first one; an unreadable one stays unreadable. */
  lemma ReadAfterExpire(s: Store, key: string, duration: int, at: int, events: seq<Event>, now: int)
    requires InOrder(at, events) && LeavesAlone(events, key) && at <= now && forall e :: e in events ==> e.at <= now
    ensures var before := Read(s, key, at);
            Read(ApplyAll(Apply(s, Event(at, Expire(key, duration))), events), key, now)
              == if before.Some? && (duration == 0 || now < at + duration) then before else None
  {
    if Read(s, key, at).Some? {
      ReadAfterSet(s, key, s[key].value, duration, at, events, now);
    } else {
      if key in s {
        EntryOutlastsOthers(s, key, s[key], at, events, now);
      } else {
        StaysAway(s, key, at, events);
      }
    }
  }

  lemma {:induction false} StaysAway(s: Store, key: string, from: int, events: seq<Event>)
    requires InOrder(from, events) && LeavesAlone(events, key) && key !in s
    ensures key !in ApplyAll(s, events)
    decreases |events|
  {
    if events != [] {
      var e := events[0];
      assert e in events && forall x :: x in events[1..] ==> x in events;
      StaysAway(Apply(s, e), key, e.at, events[1..]);
    }
  }

  /** What was deleted stays away until it is set again, and nothing else goes. */
  lemma AwayAfterDel(s: Store, keys: seq<string>, at: int, events: seq<Event>, key: string)
    requires key in keys && InOrder(at, events) && LeavesAlone(events, key)
    ensures key !in ApplyAll(Apply(s, Event(at, Del(keys))), events)
    ensures forall k :: k in s && k !in keys ==>
              k in Apply(s, Event(at, Del(keys))) && Apply(s, Event(at, Del(keys)))[k] == s[k]
  {
    StaysAway(Apply(s, Event(at, Del(keys))), key, at, events);
  }

  /** A write and a new deadline touch no other key. */
  lemma WritesOneKey(s: Store, e: Event, key: string)
    requires (e.op.Set? || e.op.Expire?) && e.op.key != key
    ensures key in Apply(s, e) <==> key in s
    ensures key in s ==> Apply(s, e)[key] == s[key]
  {}

  /** A sweep takes exactly the entries whose deadline is past. */
  lemma SweepTakes(s: Store, at: int, key: string)
    ensures key in Apply(s, Event(at, Clean)) <==> key in s && (s[key].neverExpire || at <= s[key].expiredAt)
    ensures key in Apply(s, Event(at, Clean)) ==> Apply(s, Event(at, Clean))[key] == s[key]
  {}
}
