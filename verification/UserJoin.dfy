/** Listing the users that role bindings mention. */
module UserJoin {
  import opened Iam

  /** A user, annotated with a role once listed. */
  datatype User = User(name: string, email: string, role: Option<string>)

  datatype Lookup = Found(user: User) | Missing | Broken

  type Getter = string -> Lookup

  /** A User subject of a binding that the role filter lets through. */
  datatype Mention = Mention(user: string, role: string)

  /** An empty filter lets every role through. */
  predicate Wanted(b: Binding, role: string) {
    role == "" || b.roleRef.name == role
  }

  function SubjectMentions(subjects: seq<Subject>, role: string): seq<Mention> {
    if subjects == [] then []
    else
      var first := if subjects[0].kind == USER_KIND then [Mention(subjects[0].name, role)] else [];
      first + SubjectMentions(subjects[1..], role)
  }

  function Mentions(bindings: seq<Binding>, role: string): seq<Mention> {
    if bindings == [] then []
    else
      (if Wanted(bindings[0], role) then SubjectMentions(bindings[0].subjects, bindings[0].roleRef.name) else [])
      + Mentions(bindings[1..], role)
  }

  predicate Has(users: seq<User>, name: string) {
    exists u | u in users :: u.name == name
  }

  /** Go through the mentions, adding each user not yet listed; orphans are skipped, any other
      failure to fetch a user ends in an error. */
  function Add(users: seq<User>, mentions: seq<Mention>, get: Getter): Option<seq<User>>
    decreases |mentions|
  {
    if mentions == [] then Some(users)
    else
      var m := mentions[0];
      if Has(users, m.user) then Add(users, mentions[1..], get)
      else
        match get(m.user)
        case Missing => Add(users, mentions[1..], get)
        case Broken => None
        case Found(u) => Add(users + [u.(role := Some(m.role))], mentions[1..], get)
  }

  lemma {:induction false} AddConcat(users: seq<User>, m: seq<Mention>, n: seq<Mention>, get: Getter)
    ensures Add(users, m + n, get) == if Add(users, m, get) == None then None else Add(Add(users, m, get).value, n, get)
    decreases |m|
  {
    if m == [] {
      assert m + n == n;
    } else {
      assert (m + n)[0] == m[0] && (m + n)[1..] == m[1..] + n;
      match get(m[0].user)
      case Found(u) =>
        AddConcat(users, m[1..], n, get);
        AddConcat(users + [u.(role := Some(m[0].role))], m[1..], n, get);
      case _ => AddConcat(users, m[1..], n, get);
    }
  }

  method AddSubjects(users0: seq<User>, b: Binding, get: Getter) returns (users: seq<User>, ok: bool)
    ensures Add(users0, SubjectMentions(b.subjects, b.roleRef.name), get) == if ok then Some(users) else None
  {
    users, ok := users0, true;
    for i := 0 to |b.subjects|
      invariant Add(users0, SubjectMentions(b.subjects, b.roleRef.name), get)
             == Add(users, SubjectMentions(b.subjects[i..], b.roleRef.name), get)
    {
      var subject := b.subjects[i];
      ghost var rest := SubjectMentions(b.subjects[i + 1..], b.roleRef.name);
      assert b.subjects[i..][0] == subject && b.subjects[i..][1..] == b.subjects[i + 1..];
      assert [] + rest == rest;
      if subject.kind == USER_KIND {
        ghost var mentions := SubjectMentions(b.subjects[i..], b.roleRef.name);
        assert mentions[0] == Mention(subject.name, b.roleRef.name) && mentions[1..] == rest;
        if Has(users, subject.name) {
          continue;
        }
        match get(subject.name)
        case Missing =>
        case Broken => return users, false;
        case Found(user) => users := users + [user.(role := Some(b.roleRef.name))];
      }
    }
  }

  method ListAllUsersInNamespace(bindings: seq<Binding>, role: string, get: Getter) returns (users: seq<User>, ok: bool)
    ensures Add([], Mentions(bindings, role), get) == if ok then Some(users) else None
  {
    users, ok := [], true;
    for i := 0 to |bindings|
      invariant Add([], Mentions(bindings, role), get) == Add(users, Mentions(bindings[i..], role), get)
    {
      var b := bindings[i];
      assert bindings[i..][0] == b && bindings[i..][1..] == bindings[i + 1..];
      assert [] + Mentions(bindings[i + 1..], role) == Mentions(bindings[i + 1..], role);
      if role != "" && b.roleRef.name != role {
        continue;
      }
      AddConcat(users, SubjectMentions(b.subjects, b.roleRef.name), Mentions(bindings[i + 1..], role), get);
      users, ok := AddSubjects(users, b, get);
      if !ok {
        return;
      }
    }
  }

  // ---- what is mentioned ----

  /** A subject of a binding. */
  datatype Place = Place(binding: int, subject: int)

  predicate Earlier(p: Place, r: Place) {
    p.binding < r.binding || (p.binding == r.binding && p.subject < r.subject)
  }

  /** The subject is a user, and the binding has the wanted role. */
  ghost predicate Mentioned(bindings: seq<Binding>, role: string, p: Place) {
    && 0 <= p.binding < |bindings| && 0 <= p.subject < |bindings[p.binding].subjects|
    && bindings[p.binding].subjects[p.subject].kind == "User"
    && (role == "" || bindings[p.binding].roleRef.name == role)
  }

  ghost predicate Tells(m: Mention, bindings: seq<Binding>, p: Place) {
    && 0 <= p.binding < |bindings| && 0 <= p.subject < |bindings[p.binding].subjects|
    && m == Mention(bindings[p.binding].subjects[p.subject].name, bindings[p.binding].roleRef.name)
  }

  /** `at` are the places of the mentions from some place on, in order, and each mention tells the
      user and the binding's role. */
  ghost predicate MentionsAt(mentions: seq<Mention>, bindings: seq<Binding>, role: string, from: Place,
                             at: seq<Place>)
  {
    && |at| == |mentions|
    && (forall k, l :: 0 <= k < l < |at| ==> Earlier(at[k], at[l]))
    && (forall p :: p in at <==> Mentioned(bindings, role, p) && !Earlier(p, from))
    && forall k :: 0 <= k < |at| ==> Tells(mentions[k], bindings, at[k])
  }

  /** One mention more in front. */
  lemma MentionFirst(mentions: seq<Mention>, bindings: seq<Binding>, role: string, from: Place, next: Place,
                     at: seq<Place>, m: Mention)
    requires MentionsAt(mentions, bindings, role, next, at) && Earlier(from, next)
    requires Mentioned(bindings, role, from) && Tells(m, bindings, from)
    requires forall p :: Mentioned(bindings, role, p) && !Earlier(p, from) ==> p == from || !Earlier(p, next)
    ensures MentionsAt([m] + mentions, bindings, role, from, [from] + at)
  {
    hide Mentioned, Tells;
    var all := [from] + at;
    assert forall p :: p in all <==> p == from || p in at;
    forall l | 0 < l < |all|
      ensures Earlier(from, all[l])
    {
      assert all[l] == at[l - 1] && at[l - 1] in at;
    }
  }

  /** Nothing mentioned in between. */
  lemma NoMention(mentions: seq<Mention>, bindings: seq<Binding>, role: string, from: Place, next: Place,
                  at: seq<Place>)
    requires MentionsAt(mentions, bindings, role, next, at) && !Earlier(next, from)
    requires forall p :: Mentioned(bindings, role, p) && !Earlier(p, from) ==> !Earlier(p, next)
    ensures MentionsAt(mentions, bindings, role, from, at)
  {
    hide Mentioned, Tells;
  }

  /** Nothing lies between a place and the next. */
  lemma NextPlace(bindings: seq<Binding>, i: nat, n: nat, role: string)
    requires i < |bindings| && n <= |bindings[i].subjects|
    ensures n < |bindings[i].subjects| ==>
              forall p :: Mentioned(bindings, role, p) && !Earlier(p, Place(i, n)) ==>
                p == Place(i, n) || !Earlier(p, Place(i, n + 1))
    ensures n == |bindings[i].subjects| || !(role == "" || bindings[i].roleRef.name == role) ==>
              forall p :: Mentioned(bindings, role, p) && !Earlier(p, Place(i, n)) ==> !Earlier(p, Place(i + 1, 0))
  {}

  /** The mentions from a subject of a binding on. */
  lemma {:induction false} SubjectsThenRest(bindings: seq<Binding>, i: nat, n: nat, role: string, rest: seq<Place>)
    returns (at: seq<Place>)
    requires i < |bindings| && n <= |bindings[i].subjects| && (role == "" || bindings[i].roleRef.name == role)
    requires MentionsAt(Mentions(bindings[i + 1..], role), bindings, role, Place(i + 1, 0), rest)
    ensures var own := SubjectMentions(bindings[i].subjects[n..], bindings[i].roleRef.name);
            MentionsAt(own + Mentions(bindings[i + 1..], role), bindings, role, Place(i, n), at)
    decreases |bindings[i].subjects| - n
  {
    var subjects, granted, later := bindings[i].subjects, bindings[i].roleRef.name, Mentions(bindings[i + 1..], role);
    NextPlace(bindings, i, n, role);
    assert Earlier(Place(i, n), Place(i, n + 1)) && Earlier(Place(i, n), Place(i + 1, 0));
    assert !Earlier(Place(i, n + 1), Place(i, n)) && !Earlier(Place(i + 1, 0), Place(i, n));
    assert n < |subjects| ==> Tells(Mention(subjects[n].name, granted), bindings, Place(i, n));
    assert n < |subjects| ==> (Mentioned(bindings, role, Place(i, n)) <==> subjects[n].kind == USER_KIND);
    SubjectStep(subjects, n, granted, later);
    hide MentionsAt, Mentioned, Mentions, SubjectMentions, Earlier;
    if n == |subjects| {
      at := rest;
      NoMention(later, bindings, role, Place(i, n), Place(i + 1, 0), rest);
    } else {
      var next := SubjectsThenRest(bindings, i, n + 1, role, rest);
      var more := SubjectMentions(subjects[n + 1..], granted);
      if subjects[n].kind == USER_KIND {
        var m := Mention(subjects[n].name, granted);
        MentionFirst(more + later, bindings, role, Place(i, n), Place(i, n + 1), next, m);
        at := [Place(i, n)] + next;
      } else {
        NoMention(more + later, bindings, role, Place(i, n), Place(i, n + 1), next);
        at := next;
      }
    }
  }

  lemma SubjectStep(subjects: seq<Subject>, n: nat, role: string, later: seq<Mention>)
    requires n <= |subjects|
    ensures SubjectMentions(subjects[n..], role) + later ==
              if n == |subjects| then later
              else if subjects[n].kind == USER_KIND then
                [Mention(subjects[n].name, role)] + (SubjectMentions(subjects[n + 1..], role) + later)
              else SubjectMentions(subjects[n + 1..], role) + later
  {
    if n < |subjects| {
      assert subjects[n..][1..] == subjects[n + 1..] && subjects[n..][0] == subjects[n];
    }
  }

  lemma {:induction false} MentionsFrom(bindings: seq<Binding>, i: nat, role: string) returns (at: seq<Place>)
    requires i <= |bindings|
    ensures MentionsAt(Mentions(bindings[i..], role), bindings, role, Place(i, 0), at)
    decreases |bindings| - i
  {
    if i == |bindings| {
      at := [];
    } else {
      var rest := MentionsFrom(bindings, i + 1, role);
      assert bindings[i..][1..] == bindings[i + 1..] && bindings[i..][0] == bindings[i];
      if Wanted(bindings[i], role) {
        at := SubjectsThenRest(bindings, i, 0, role, rest);
        assert bindings[i].subjects[0..] == bindings[i].subjects;
      } else {
        NextPlace(bindings, i, 0, role);
        hide MentionsAt, Mentioned;
        assert [] + Mentions(bindings[i + 1..], role) == Mentions(bindings[i + 1..], role);
        NoMention(Mentions(bindings[i + 1..], role), bindings, role, Place(i, 0), Place(i + 1, 0), rest);
        at := rest;
      }
    }
  }

  /** The mentions are exactly the User subjects of the bindings with the wanted role, binding by
      binding and subject by subject. */
  lemma MentionsAre(bindings: seq<Binding>, role: string) returns (at: seq<Place>)
    ensures MentionsAt(Mentions(bindings, role), bindings, role, Place(0, 0), at)
    ensures forall p :: p in at <==> Mentioned(bindings, role, p)
  {
    at := MentionsFrom(bindings, 0, role);
    assert bindings[0..] == bindings;
  }

  // ---- what the list is ----

  /** The first mention of a user who exists. */
  ghost predicate FirstMention(mentions: seq<Mention>, get: Getter, p: int) {
    && 0 <= p < |mentions|
    && get(mentions[p].user).Found?
    && forall j :: 0 <= j < p ==> mentions[j].user != mentions[p].user
  }

  ghost predicate FetchesByName(get: Getter) {
    forall n :: get(n).Found? ==> get(n).user.name == n
  }

  /** `users` are the existing users mentioned, each once, in order of first mention, with the role
      of that mention. */
  ghost predicate IsJoin(users: seq<User>, mentions: seq<Mention>, get: Getter, positions: seq<int>) {
    && |positions| == |users|
    && (forall j, k :: 0 <= j < k < |positions| ==> positions[j] < positions[k])
    && (forall p :: p in positions <==> FirstMention(mentions, get, p))
    && forall k :: 0 <= k < |positions| ==>
         0 <= positions[k] < |mentions|
         && get(mentions[positions[k]].user).Found?
         && users[k] == get(mentions[positions[k]].user).user.(role := Some(mentions[positions[k]].role))
  }

  lemma JoinHas(users: seq<User>, mentions: seq<Mention>, get: Getter, positions: seq<int>, name: string)
    requires IsJoin(users, mentions, get, positions) && FetchesByName(get)
    requires Has(users, name)
    ensures exists j :: 0 <= j < |mentions| && mentions[j].user == name
  {
    var u :| u in users && u.name == name;
    var k :| 0 <= k < |users| && users[k] == u;
    assert mentions[positions[k]].user == name;
  }

  /** Listing fails exactly when some mentioned user cannot be fetched for another reason than not
      existing; otherwise it gives the join. */
  lemma {:induction false} AddIsJoin(mentions: seq<Mention>, get: Getter) returns (positions: seq<int>)
    requires FetchesByName(get)
    ensures Add([], mentions, get) == None <==> exists m :: m in mentions && get(m.user).Broken?
    ensures Add([], mentions, get).Some? ==> IsJoin(Add([], mentions, get).value, mentions, get, positions)
  {
    positions := [];
    if mentions != [] {
      var n := |mentions| - 1;
      var before, m := mentions[..n], mentions[n];
      positions := AddIsJoin(before, get);
      assert mentions == before + [m];
      AddConcat([], before, [m], get);
      if Add([], before, get).Some? {
        var users := Add([], before, get).value;
        AddOne(users, m, get);
        JoinGrows(users, before, get, positions, m);
        if get(m.user).Found? && !Has(users, m.user) {
          positions := positions + [n];
        }
      }
      hide IsJoin, Has;
    }
  }

  lemma JoinGrows(users: seq<User>, mentions: seq<Mention>, get: Getter, positions: seq<int>, m: Mention)
    requires IsJoin(users, mentions, get, positions) && FetchesByName(get)
    ensures if get(m.user).Found? && !Has(users, m.user)
            then IsJoin(users + [get(m.user).user.(role := Some(m.role))], mentions + [m], get,
                        positions + [|mentions|])
            else IsJoin(users, mentions + [m], get, positions)
  {
    var n := |mentions|;
    if get(m.user).Found? && !Has(users, m.user) {
      NotMentioned(users, mentions, get, positions, m.user);
    } else if Has(users, m.user) {
      JoinHas(users, mentions, get, positions, m.user);
    }
    var all := mentions + [m];
    assert forall j :: 0 <= j < n ==> all[j] == mentions[j];
    assert forall p :: p < n ==> (FirstMention(mentions, get, p) <==> FirstMention(all, get, p));
  }

  lemma AddOne(users: seq<User>, m: Mention, get: Getter)
    ensures Add(users, [m], get) ==
      if Has(users, m.user) || get(m.user).Missing? then Some(users)
      else if get(m.user).Broken? then None
      else Some(users + [get(m.user).user.(role := Some(m.role))])
  {}

  lemma FirstMentionListed(users: seq<User>, mentions: seq<Mention>, get: Getter, positions: seq<int>, p: int)
    requires IsJoin(users, mentions, get, positions) && FetchesByName(get)
    requires FirstMention(mentions, get, p)
    ensures Has(users, mentions[p].user)
  {
    assert p in positions;
    var k :| 0 <= k < |positions| && positions[k] == p;
    assert users[k] in users;
  }

  /** An existing user not listed so far has not been mentioned so far. */
  lemma NotMentioned(users: seq<User>, mentions: seq<Mention>, get: Getter, positions: seq<int>, name: string)
    requires IsJoin(users, mentions, get, positions) && FetchesByName(get)
    requires get(name).Found? && !Has(users, name)
    ensures forall j :: 0 <= j < |mentions| ==> mentions[j].user != name
  {
    var j := 0;
    while j < |mentions|
      invariant 0 <= j <= |mentions|
      invariant forall i :: 0 <= i < j ==> mentions[i].user != name
    {
      if mentions[j].user == name {
        FirstMentionListed(users, mentions, get, positions, j);
      }
      j := j + 1;
    }
  }
}
