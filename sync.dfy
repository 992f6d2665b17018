/** The reconciliation of metabase/sync.py. The set of keys is iterated in an
    order the caller supplies (a Python set has no defined order), the users'
    remote calls are written to an action log, and the status each call gets
    back is an input: the n-th call of a pass receives `status(n)`. */
module Sync {
  import opened Values
  import opened Model
  import opened Interface

  // ---------------------------------------------------------------------
  // Lookups

  /** `next((u for u in users if u.email == key), None)`, as an index. */
  function FirstWithEmail(users: seq<User>, key: string): (r: Option<nat>)
    ensures r.Some? ==> r.value < |users| && users[r.value].email == key
                        && forall j :: 0 <= j < r.value ==> users[j].email != key
    ensures r.None? ==> forall j :: 0 <= j < |users| ==> users[j].email != key
    decreases |users|
  {
    if users == [] then None
    else if users[0].email == key then Some(0)
    else match FirstWithEmail(users[1..], key)
      case None => None
      case Some(i) => Some(i + 1)
  }

  /** The generator search that `next` runs. */
  method NextWithEmail(users: seq<User>, key: string) returns (r: Option<nat>)
    ensures r == FirstWithEmail(users, key)
  {
    var i := 0;
    while i < |users|
      invariant 0 <= i <= |users|
      invariant forall j :: 0 <= j < i ==> users[j].email != key
    {
      if users[i].email == key {
        return Some(i);
      }
      i := i + 1;
    }
    return None;
  }

  /** Later users with the same email are never looked at. */
  lemma {:induction false} FirstWithEmailAppend(users: seq<User>, more: seq<User>, key: string)
    requires FirstWithEmail(users, key).Some?
    ensures FirstWithEmail(users + more, key) == FirstWithEmail(users, key)
  {
    var i := FirstWithEmail(users, key).value;
    assert (users + more)[i] == users[i];
    assert forall j :: 0 <= j < i ==> (users + more)[j] == users[j];
  }

  // ---------------------------------------------------------------------
  // Comparison

  /** `u.dict(include={"email", "first_name", "last_name", "is_active"})` */
  function Tracked(u: User): (r: Record)
    ensures r.Keys == {Email, FirstName, LastName, IsActive}
  {
    map[Email := Str(u.email), FirstName := Str(u.firstName), LastName := Str(u.lastName), IsActive := OptBool(u.isActive)]
  }

  /** `set(r.items())` */
  function Items(r: Record): set<(Field, Value)> {
    set k | k in r :: (k, r[k])
  }

  /** `set(yml.dict(include=...).items()) - set(srv.dict(include=...).items())` is non-empty. */
  predicate UserDiffers(yml: User, srv: User) {
    Items(Tracked(yml)) - Items(Tracked(srv)) != {}
  }

  /** The set difference is non-empty exactly when the tracked fields differ,
      because both projections have the same keys. */
  lemma UserDiffersIff(yml: User, srv: User)
    ensures UserDiffers(yml, srv) <==> Tracked(yml) != Tracked(srv)
    ensures UserDiffers(yml, srv) <==>
              (yml.email, yml.firstName, yml.lastName, yml.isActive) != (srv.email, srv.firstName, srv.lastName, srv.isActive)
  {
    var a, b := Tracked(yml), Tracked(srv);
    if a != b {
      assert a.Keys == b.Keys;
      var k :| k in a && a[k] != b[k];
      assert (k, a[k]) in Items(a) - Items(b);
    } else {
      assert Items(a) - Items(b) == {};
    }
    if (yml.email, yml.firstName, yml.lastName, yml.isActive) != (srv.email, srv.firstName, srv.lastName, srv.isActive) {
      if yml.isActive != srv.isActive {
        assert a[IsActive] != b[IsActive];
      } else if yml.email != srv.email {
        assert a[Email] != b[Email];
      } else if yml.firstName != srv.firstName {
        assert a[FirstName] != b[FirstName];
      } else {
        assert a[LastName] != b[LastName];
      }
    }
  }

  /** Python truthiness of an `Optional[bool]`: None is false. */
  predicate Truthy(o: Option<bool>) {
    o == Some(true)
  }

  // ---------------------------------------------------------------------
  // Remote calls

  datatype Action = Create(user: User) | Update(user: User) | Delete(user: User) | Reactivate(user: User)

  /** The HTTP request each call of UserAPI sends. */
  function ActionRequest(a: Action): Request {
    match a
    case Create(u) => UserCreateRequest(u)
    case Update(u) => UserUpdateRequest(u)
    case Delete(u) => UserDeleteRequest(u)
    case Reactivate(u) => UserReactivateRequest(u)
  }

  /** What a call raises for a response status: create, update and delete
      check it as their base classes do, reactivate never looks at it. */
  function Outcome(a: Action, status: int): (r: Option<Error>)
    ensures a.Create? ==> (r.None? <==> status == 200 || status == 202)
    ensures a.Create? && r.Some? ==> r.value == HTTPError(status)
    ensures a.Reactivate? ==> r.None?
    ensures a.Update? ==> (r.Some? <==> status == 404 || status == 204)
    ensures a.Delete? ==> (r.None? <==> status == 200 || status == 204)
  {
    match a
    case Create(_) => CreateStatus(status)
    case Update(_) => NotFoundStatus(status)
    case Delete(_) => if DeleteStatus(status).Err? then Some(DeleteStatus(status).error) else None
    case Reactivate(_) => None
  }

  /** Awaiting the calls in order after `log`: each call is made, and the
      first one that raises ends the pass. */
  function Issue(log: seq<Action>, actions: seq<Action>, status: nat -> int): (r: (seq<Action>, Option<Error>))
    ensures |log| <= |r.0| <= |log| + |actions| && r.0 == log + actions[..|r.0| - |log|]
    ensures r.1.None? ==> r.0 == log + actions
    ensures r.1.Some? ==> |r.0| > |log| && r.1 == Outcome(r.0[|r.0| - 1], status(|r.0| - 1))
    ensures forall k :: |log| <= k < |r.0| && (r.1.None? || k < |r.0| - 1) ==> Outcome(r.0[k], status(k)).None?
    decreases |actions|
  {
    if actions == [] then (log, None)
    else
      var e := Outcome(actions[0], status(|log|));
      if e.Some? then (log + [actions[0]], e)
      else
        var r := Issue(log + [actions[0]], actions[1..], status);
        assert actions[..|r.0| - |log|] == [actions[0]] + actions[1..][..|r.0| - |log| - 1];
        r
  }

  // ---------------------------------------------------------------------
  // sync_users

  /** The calls sync_users makes for one key, against the users it sees:
      the first live and the first desired user with that email. A key with
      no live user fails at `srv.is_equal` (an attribute of None) before any
      call. */
  function KeyActions(desired: seq<User>, live: seq<User>, key: string): (r: Result<seq<Action>>)
    ensures r.Err? <==> FirstWithEmail(live, key).None?
    ensures r.Err? ==> r.error == AttributeError
    ensures r.Ok? ==> |r.value| <= 2 && forall i :: 0 <= i < |r.value| ==> !r.value[i].Create? && r.value[i].user.email == key
  {
    match FirstWithEmail(live, key)
    case None => Err(AttributeError)
    case Some(s) =>
      var srv := live[s];
      match FirstWithEmail(desired, key)
      case None => Ok([Delete(srv)])
      case Some(d) =>
        if !UserDiffers(desired[d], srv) then Ok([])
        else
          var yml := desired[d].(id := srv.id);
          if Truthy(yml.isActive) && !Truthy(srv.isActive) then Ok([Reactivate(srv), Update(yml)])
          else if !Truthy(yml.isActive) && Truthy(srv.isActive) then Ok([Delete(srv)])
          else Ok([Update(yml)])
  }

  /** `yml.id = srv.id` for a modified key. */
  function Adopt(desired: seq<User>, live: seq<User>, key: string): (r: seq<User>)
    ensures |r| == |desired|
  {
    match FirstWithEmail(live, key)
    case None => desired
    case Some(s) =>
      match FirstWithEmail(desired, key)
      case None => desired
      case Some(d) =>
        if UserDiffers(desired[d], live[s]) then desired[d := desired[d].(id := live[s].id)] else desired
  }

  /** The state of a pass: the calls made, what ended it, and the desired users. */
  datatype Pass = Pass(log: seq<Action>, err: Option<Error>, desired: seq<User>)

  /** One iteration of the loop of sync_users. */
  function UserStep(p: Pass, live: seq<User>, key: string, status: nat -> int): Pass {
    match KeyActions(p.desired, live, key)
    case Err(e) => Pass(p.log, Some(e), p.desired)
    case Ok(actions) =>
      var (log, err) := Issue(p.log, actions, status);
      Pass(log, err, Adopt(p.desired, live, key))
  }

  /** The loop of sync_users over `keys`, stopping at the first exception. */
  function RunUsers(desired: seq<User>, live: seq<User>, keys: seq<string>, status: nat -> int): Pass
    decreases |keys|
  {
    if keys == [] then Pass([], None, desired)
    else
      var p := RunUsers(desired, live, keys[..|keys| - 1], status);
      if p.err.Some? then p else UserStep(p, live, keys[|keys| - 1], status)
  }

  /** Once the pass has raised, later keys change nothing. */
  lemma {:induction false} RunUsersSticks(desired: seq<User>, live: seq<User>, keys: seq<string>, k: nat, status: nat -> int)
    requires k <= |keys| && RunUsers(desired, live, keys[..k], status).err.Some?
    ensures RunUsers(desired, live, keys, status) == RunUsers(desired, live, keys[..k], status)
    decreases |keys|
  {
    if k < |keys| {
      assert keys[..|keys| - 1][..k] == keys[..k];
      RunUsersSticks(desired, live, keys[..|keys| - 1], k, status);
    } else {
      assert keys[..k] == keys;
    }
  }

  /** The email union of both lists, each email once: the order the key set
      is iterated in. */
  ghost predicate KeyOrder(keys: seq<string>, desired: seq<User>, live: seq<User>) {
    (forall i, j :: 0 <= i < j < |keys| ==> keys[i] != keys[j])
    && forall k :: k in keys <==> (exists i :: 0 <= i < |desired| && desired[i].email == k)
                                   || (exists i :: 0 <= i < |live| && live[i].email == k)
  }

  /** A single call is made and its outcome ends or continues the pass. */
  lemma IssueOne(log: seq<Action>, a: Action, status: nat -> int)
    ensures Issue(log, [a], status) == (log + [a], Outcome(a, status(|log|)))
  {
    assert [a][1..] == [];
  }

  /** A key with a live user but no desired one: the live user is deleted. */
  lemma StepRemoved(p: Pass, live: seq<User>, key: string, status: nat -> int)
    requires FirstWithEmail(live, key).Some? && FirstWithEmail(p.desired, key).None?
    ensures var srv := live[FirstWithEmail(live, key).value];
            UserStep(p, live, key, status) == Pass(p.log + [Delete(srv)], Outcome(Delete(srv), status(|p.log|)), p.desired)
  {
    IssueOne(p.log, Delete(live[FirstWithEmail(live, key).value]), status);
  }

  /** A modified key: the desired user takes the live id, then the calls are made. */
  lemma StepModified(p: Pass, live: seq<User>, key: string, status: nat -> int)
    requires FirstWithEmail(live, key).Some? && FirstWithEmail(p.desired, key).Some?
    requires UserDiffers(p.desired[FirstWithEmail(p.desired, key).value], live[FirstWithEmail(live, key).value])
    ensures var srv, d := live[FirstWithEmail(live, key).value], FirstWithEmail(p.desired, key).value;
            var yml := p.desired[d].(id := srv.id);
            var adopted := p.desired[d := yml];
            UserStep(p, live, key, status)
              == if Truthy(yml.isActive) && !Truthy(srv.isActive) then
                   var e := Outcome(Update(yml), status(|p.log| + 1));
                   Pass(p.log + [Reactivate(srv), Update(yml)], e, adopted)
                 else if !Truthy(yml.isActive) && Truthy(srv.isActive) then
                   Pass(p.log + [Delete(srv)], Outcome(Delete(srv), status(|p.log|)), adopted)
                 else
                   Pass(p.log + [Update(yml)], Outcome(Update(yml), status(|p.log|)), adopted)
  {
    var srv, d := live[FirstWithEmail(live, key).value], FirstWithEmail(p.desired, key).value;
    var yml := p.desired[d].(id := srv.id);
    if Truthy(yml.isActive) && !Truthy(srv.isActive) {
      var log1 := p.log + [Reactivate(srv)];
      assert [Reactivate(srv), Update(yml)][1..] == [Update(yml)];
      IssueOne(log1, Update(yml), status);
      assert log1 + [Update(yml)] == p.log + [Reactivate(srv), Update(yml)];
    } else if !Truthy(yml.isActive) && Truthy(srv.isActive) {
      IssueOne(p.log, Delete(srv), status);
    } else {
      IssueOne(p.log, Update(yml), status);
    }
  }

  /** The body of the loop of sync_users for one key; the early return of a
      deactivated user is the loop's `continue`. */
  method SyncUser(desired: array<User>, live: seq<User>, key: string, log0: seq<Action>, status: nat -> int)
    returns (log: seq<Action>, err: Option<Error>)
    modifies desired
    ensures Pass(log, err, desired[..]) == UserStep(Pass(log0, None, old(desired[..])), live, key, status)
  {
    ghost var p := Pass(log0, None, desired[..]);
    log, err := log0, None;
    var srv := NextWithEmail(live, key);
    var yml := NextWithEmail(desired[..], key);
    if srv.None? {
      // `srv.is_equal` on None
      return log, Some(AttributeError);
    }
    var s := live[srv.value];
    if yml.Some? {
      var d := yml.value;
      if UserDiffers(desired[d], s) {
        StepModified(p, live, key, status);
        desired[d] := desired[d].(id := s.id);
        assert desired[..] == p.desired[d := p.desired[d].(id := s.id)];
        var y := desired[d];
        if Truthy(y.isActive) && !Truthy(s.isActive) {
          log := log + [Reactivate(s)];
        } else if !Truthy(y.isActive) && Truthy(s.isActive) {
          log := log + [Delete(s)];
          err := Outcome(Delete(s), status(|log| - 1));
          return;
        }
        log := log + [Update(y)];
        err := Outcome(Update(y), status(|log| - 1));
        assert log == log0 + [Reactivate(s), Update(y)] || log == log0 + [Update(y)];
      }
    } else {
      StepRemoved(p, live, key, status);
      log := log + [Delete(s)];
      err := Outcome(Delete(s), status(|log| - 1));
    }
  }

  /** sync_users. `desired` is the list of desired users, whose ids it
      overwrites in place. */
  method SyncUsers(desired: array<User>, live: seq<User>, keys: seq<string>, status: nat -> int)
    returns (log: seq<Action>, err: Option<Error>)
    requires KeyOrder(keys, desired[..], live)
    modifies desired
    ensures Pass(log, err, desired[..]) == RunUsers(old(desired[..]), live, keys, status)
  {
    log, err := [], None;
    var i := 0;
    while i < |keys|
      invariant 0 <= i <= |keys|
      invariant err == None && RunUsers(old(desired[..]), live, keys[..i], status) == Pass(log, err, desired[..])
    {
      assert keys[..i + 1][..i] == keys[..i];
      log, err := SyncUser(desired, live, keys[i], log, status);
      if err.Some? {
        RunUsersSticks(old(desired[..]), live, keys, i + 1, status);
        return;
      }
      i := i + 1;
    }
    assert keys[..i] == keys;
  }

  // ---------------------------------------------------------------------
  // Properties of sync_users

  /** The policy for a key in both lists: nothing when the tracked fields
      agree; otherwise the desired user takes the live id, and a desired
      active / live inactive user is reactivated and then updated, a desired
      inactive (False or None) / live active user is only deleted, and any
      other change is an update. A key only in the live list is deleted. */
  lemma UserPolicy(desired: seq<User>, live: seq<User>, key: string)
    requires FirstWithEmail(live, key).Some?
    ensures var srv := live[FirstWithEmail(live, key).value];
            FirstWithEmail(desired, key).None? ==> KeyActions(desired, live, key) == Ok([Delete(srv)])
    ensures FirstWithEmail(desired, key).Some? ==>
              var srv, d := live[FirstWithEmail(live, key).value], desired[FirstWithEmail(desired, key).value];
              var yml := d.(id := srv.id);
              && (Tracked(d) == Tracked(srv) ==> KeyActions(desired, live, key) == Ok([]))
              && (Tracked(d) != Tracked(srv) && Truthy(d.isActive) && !Truthy(srv.isActive) ==>
                    KeyActions(desired, live, key) == Ok([Reactivate(srv), Update(yml)]))
              && (Tracked(d) != Tracked(srv) && !Truthy(d.isActive) && Truthy(srv.isActive) ==>
                    KeyActions(desired, live, key) == Ok([Delete(srv)]))
              && (Tracked(d) != Tracked(srv) && Truthy(d.isActive) == Truthy(srv.isActive) ==>
                    KeyActions(desired, live, key) == Ok([Update(yml)]))
  {
    if FirstWithEmail(desired, key).Some? {
      UserDiffersIff(desired[FirstWithEmail(desired, key).value], live[FirstWithEmail(live, key).value]);
    }
  }

  /** Only the first user with the key in each list is compared: users after
      them change nothing. */
  lemma {:induction false} KeyActionsFirstOnly(desired: seq<User>, moreDesired: seq<User>, live: seq<User>, moreLive: seq<User>, key: string)
    requires FirstWithEmail(desired, key).Some? && FirstWithEmail(live, key).Some?
    ensures KeyActions(desired + moreDesired, live + moreLive, key) == KeyActions(desired, live, key)
    ensures Adopt(desired + moreDesired, live + moreLive, key)[..|desired|] == Adopt(desired, live, key)
  {
    var allDesired, allLive := desired + moreDesired, live + moreLive;
    FirstWithEmailAppend(desired, moreDesired, key);
    FirstWithEmailAppend(live, moreLive, key);
    var d, s := FirstWithEmail(desired, key).value, FirstWithEmail(live, key).value;
    assert FirstWithEmail(allDesired, key) == Some(d) && FirstWithEmail(allLive, key) == Some(s);
    assert allDesired[d] == desired[d] && allLive[s] == live[s];
    var adopted := Adopt(allDesired, allLive, key);
    assert adopted == if UserDiffers(desired[d], live[s]) then allDesired[d := desired[d].(id := live[s].id)] else allDesired;
    assert adopted[..|desired|] == Adopt(desired, live, key);
  }

  /** sync_users never creates a user: a desired-only key fails before the
      create branch. */
  lemma {:induction false} RunUsersNeverCreates(desired: seq<User>, live: seq<User>, keys: seq<string>, status: nat -> int)
    ensures forall i :: 0 <= i < |RunUsers(desired, live, keys, status).log| ==> !RunUsers(desired, live, keys, status).log[i].Create?
    decreases |keys|
  {
    if keys != [] {
      var p := RunUsers(desired, live, keys[..|keys| - 1], status);
      RunUsersNeverCreates(desired, live, keys[..|keys| - 1], status);
      if p.err.None? {
        var key := keys[|keys| - 1];
        match KeyActions(p.desired, live, key)
        case Err(_) =>
        case Ok(actions) =>
          var r := Issue(p.log, actions, status);
          assert forall i :: |p.log| <= i < |r.0| ==> r.0[i] == actions[i - |p.log|];
      }
    }
  }

  /** The first key without a live user ends the pass with AttributeError,
      keeping the calls already made for the keys before it. */
  lemma RunUsersCrash(desired: seq<User>, live: seq<User>, keys: seq<string>, i: nat, status: nat -> int)
    requires i < |keys| && FirstWithEmail(live, keys[i]).None?
    requires RunUsers(desired, live, keys[..i], status).err.None?
    ensures RunUsers(desired, live, keys, status).err == Some(AttributeError)
    ensures RunUsers(desired, live, keys, status).log == RunUsers(desired, live, keys[..i], status).log
  {
    assert keys[..i + 1][..i] == keys[..i];
    RunUsersSticks(desired, live, keys, i + 1, status);
  }

  /** A step that does not raise has found a live user. */
  lemma StepFoundLive(p: Pass, live: seq<User>, key: string, status: nat -> int)
    requires UserStep(p, live, key, status).err.None?
    ensures FirstWithEmail(live, key).Some?
  {
  }

  /** A pass that does not raise did not raise before its last key, and
      found a live user for that key. */
  lemma RunUsersLast(desired: seq<User>, live: seq<User>, keys: seq<string>, status: nat -> int)
    requires keys != [] && RunUsers(desired, live, keys, status).err.None?
    ensures RunUsers(desired, live, keys[..|keys| - 1], status).err.None?
    ensures FirstWithEmail(live, keys[|keys| - 1]).Some?
  {
    var p := RunUsers(desired, live, keys[..|keys| - 1], status);
    StepFoundLive(p, live, keys[|keys| - 1], status);
  }

  /** A pass that completes has found a live user for every key. */
  lemma RunUsersCompletes(desired: seq<User>, live: seq<User>, keys: seq<string>, status: nat -> int)
    requires RunUsers(desired, live, keys, status).err.None?
    ensures forall i :: 0 <= i < |keys| ==> FirstWithEmail(live, keys[i]).Some?
  {
    forall i | 0 <= i < |keys|
      ensures FirstWithEmail(live, keys[i]).Some?
    {
      var prefix := keys[..i + 1];
      if RunUsers(desired, live, prefix, status).err.Some? {
        RunUsersSticks(desired, live, keys, i + 1, status);
        assert false;
      }
      RunUsersLast(desired, live, prefix, status);
      assert prefix[i] == keys[i];
    }
  }

  /** So a desired user whose email no live user has makes every pass fail. */
  lemma DesiredOnlyAborts(desired: seq<User>, live: seq<User>, keys: seq<string>, status: nat -> int, u: nat)
    requires KeyOrder(keys, desired, live)
    requires u < |desired| && forall j :: 0 <= j < |live| ==> live[j].email != desired[u].email
    ensures RunUsers(desired, live, keys, status).err.Some?
  {
    assert desired[u].email in keys;
    var i :| 0 <= i < |keys| && keys[i] == desired[u].email;
    if RunUsers(desired, live, keys, status).err.None? {
      RunUsersCompletes(desired, live, keys, status);
      assert false;
    }
  }

  /** The only exceptions are the AttributeError of a missing live user and
      the HTTP errors of the calls. */
  lemma {:induction false} RunUsersErr(desired: seq<User>, live: seq<User>, keys: seq<string>, status: nat -> int)
    ensures RunUsers(desired, live, keys, status).err.Some? ==>
              RunUsers(desired, live, keys, status).err.value.AttributeError?
              || RunUsers(desired, live, keys, status).err.value.HTTPError?
              || RunUsers(desired, live, keys, status).err.value.NotFoundError?
    decreases |keys|
  {
    if keys != [] {
      RunUsersErr(desired, live, keys[..|keys| - 1], status);
      IssueErr(RunUsers(desired, live, keys[..|keys| - 1], status).log,
               KeyActions(RunUsers(desired, live, keys[..|keys| - 1], status).desired, live, keys[|keys| - 1]), status);
    }
  }

  lemma {:induction false} IssueErr(log: seq<Action>, actions: Result<seq<Action>>, status: nat -> int)
    requires actions.Ok? ==> forall i :: 0 <= i < |actions.value| ==> !actions.value[i].Create?
    ensures actions.Ok? && Issue(log, actions.value, status).1.Some? ==>
              Issue(log, actions.value, status).1.value.HTTPError? || Issue(log, actions.value, status).1.value.NotFoundError?
    decreases if actions.Ok? then |actions.value| else 0
  {
    if actions.Ok? && actions.value != [] {
      IssueErr(log + [actions.value[0]], Ok(actions.value[1..]), status);
    }
  }

  /** The reference plan: every key is planned against the original lists,
      and the calls are made in key order until one raises. */
  function Planned(desired: seq<User>, live: seq<User>, keys: seq<string>, status: nat -> int): (seq<Action>, Option<Error>)
    decreases |keys|
  {
    if keys == [] then ([], None)
    else
      var (log, err) := Planned(desired, live, keys[..|keys| - 1], status);
      if err.Some? then (log, err)
      else match KeyActions(desired, live, keys[|keys| - 1])
        case Err(e) => (log, Some(e))
        case Ok(actions) => Issue(log, actions, status)
  }

  /** The desired users after some keys: same emails, and untouched where the
      email has not been processed. */
  ghost predicate Untouched(desired0: seq<User>, desired: seq<User>, done: seq<string>) {
    |desired| == |desired0|
    && forall j :: 0 <= j < |desired0| ==>
         desired[j].email == desired0[j].email && (desired0[j].email !in done ==> desired[j] == desired0[j])
  }

  /** The j-th desired user differs from its original at most in its id, and
      only as the first desired user of its email, taking the live id. */
  ghost predicate AdoptedAt(desired0: seq<User>, live: seq<User>, desired: seq<User>, j: int)
    requires 0 <= j < |desired0| == |desired|
  {
    desired[j] == desired0[j].(id := desired[j].id)
    && (desired[j] != desired0[j] ==>
          var email := desired0[j].email;
          FirstWithEmail(desired0, email) == Some(j) && FirstWithEmail(live, email).Some?
          && desired[j].id == live[FirstWithEmail(live, email).value].id)
  }

  /** Whatever the key order, a pass changes the desired users only by
      `yml.id = srv.id` on the first desired user of a key. */
  lemma {:induction false} RunUsersOnlyAdopts(desired: seq<User>, live: seq<User>, keys: seq<string>, status: nat -> int)
    ensures |RunUsers(desired, live, keys, status).desired| == |desired|
    ensures forall j :: 0 <= j < |desired| ==> AdoptedAt(desired, live, RunUsers(desired, live, keys, status).desired, j)
    decreases |keys|
  {
    if keys != [] {
      var n := |keys| - 1;
      var key := keys[n];
      RunUsersOnlyAdopts(desired, live, keys[..n], status);
      var p := RunUsers(desired, live, keys[..n], status);
      if p.err.None? && KeyActions(p.desired, live, key).Ok? {
        var d := Adopt(p.desired, live, key);
        assert RunUsers(desired, live, keys, status).desired == d;
        assert forall j :: 0 <= j < |desired| ==> p.desired[j].email == desired[j].email by {
          forall j | 0 <= j < |desired| ensures p.desired[j].email == desired[j].email {
            assert AdoptedAt(desired, live, p.desired, j);
          }
        }
        FirstWithEmailSameEmails(p.desired, desired, key);
        forall j | 0 <= j < |desired| ensures AdoptedAt(desired, live, d, j) {
          assert AdoptedAt(desired, live, p.desired, j);
          AdoptChanges(p.desired, live, key, j);
        }
      }
    }
  }

  lemma FirstWithEmailSameEmails(a: seq<User>, b: seq<User>, key: string)
    requires |a| == |b| && forall j :: 0 <= j < |a| ==> a[j].email == b[j].email
    ensures FirstWithEmail(a, key) == FirstWithEmail(b, key)
  {
    match FirstWithEmail(a, key)
    case None =>
    case Some(i) =>
      assert forall j :: 0 <= j < i ==> b[j].email != key;
  }

  /** The in-place id updates never disturb later keys: with each email
      processed once, the pass makes exactly the calls the reference plan on
      the original lists makes, and its only change to the desired users is
      the live id given to the first desired user of a modified key. */
  lemma {:induction false} RunUsersFollowsPlan(desired: seq<User>, live: seq<User>, keys: seq<string>, status: nat -> int)
    requires forall i, j :: 0 <= i < j < |keys| ==> keys[i] != keys[j]
    ensures (RunUsers(desired, live, keys, status).log, RunUsers(desired, live, keys, status).err) == Planned(desired, live, keys, status)
    ensures Untouched(desired, RunUsers(desired, live, keys, status).desired, keys)
    ensures forall j :: 0 <= j < |desired| ==> AdoptedAt(desired, live, RunUsers(desired, live, keys, status).desired, j)
    decreases |keys|
  {
    RunUsersOnlyAdopts(desired, live, keys, status);
    if keys != [] {
      var n := |keys| - 1;
      var key := keys[n];
      RunUsersFollowsPlan(desired, live, keys[..n], status);
      var p := RunUsers(desired, live, keys[..n], status);
      if p.err.None? {
        FirstWithEmailSameEmails(p.desired, desired, key);
        assert key !in keys[..n];
        match FirstWithEmail(p.desired, key)
        case None =>
        case Some(d) =>
          assert p.desired[d] == desired[d];
      }
    }
  }

  /** An id of the desired users changes only for the first desired user of a
      key, and only to that key's live id. */
  lemma AdoptChanges(desired: seq<User>, live: seq<User>, key: string, j: nat)
    requires j < |desired|
    ensures Adopt(desired, live, key)[j] == desired[j].(id := Adopt(desired, live, key)[j].id)
    ensures Adopt(desired, live, key)[j] != desired[j] ==>
              FirstWithEmail(desired, key) == Some(j) && FirstWithEmail(live, key).Some?
              && Adopt(desired, live, key)[j].id == live[FirstWithEmail(live, key).value].id
              && Tracked(desired[j]) != Tracked(live[FirstWithEmail(live, key).value])
  {
    match FirstWithEmail(live, key)
    case None =>
    case Some(s) =>
      match FirstWithEmail(desired, key)
      case None =>
      case Some(d) =>
        UserDiffersIff(desired[d], live[s]);
  }

  // ---------------------------------------------------------------------
  // The create branch, as written and as intended

  /** Two users that differ only in their email, as in a desired list that
      names one user and a live list that names another. */
  function Sample(email: string): User {
    User(1, email, "A", "B", "A B", None, None, Some(true), None, None, None)
  }

  /** As written, a desired-only key never reaches `create`: processed after
      a live-only key, the live user is deleted and then the pass fails;
      processed first, the pass fails before any call. */
  lemma DesiredOnlyExample(status: nat -> int)
    requires status(0) == 200
    ensures RunUsers([Sample("a@x.com")], [Sample("b@x.com")], ["b@x.com", "a@x.com"], status)
            == Pass([Delete(Sample("b@x.com"))], Some(AttributeError), [Sample("a@x.com")])
    ensures RunUsers([Sample("a@x.com")], [Sample("b@x.com")], ["a@x.com", "b@x.com"], status)
            == Pass([], Some(AttributeError), [Sample("a@x.com")])
  {
    var desired, live := [Sample("a@x.com")], [Sample("b@x.com")];
    assert "a@x.com" != "b@x.com" by { assert "a@x.com"[0] != "b@x.com"[0]; }
    var ba: seq<string> := ["b@x.com", "a@x.com"];
    assert ba[..1] == ["b@x.com"] && ba[..1][..0] == [];
    assert FirstWithEmail(live, "b@x.com") == Some(0);
    assert FirstWithEmail(desired, "b@x.com") == None;
    StepRemoved(Pass([], None, desired), live, "b@x.com", status);
    assert FirstWithEmail(live, "a@x.com") == None;
    var ab: seq<string> := ["a@x.com", "b@x.com"];
    assert ab[..1] == ["a@x.com"] && ab[..1][..0] == [];
    RunUsersSticks(desired, live, ab, 1, status);
  }

  /** The calls the loop body was evidently meant to make for one key: those
      of the code as written when a live user has the key, and `create` of
      the first desired user when only the desired list has it. */
  function IntendedKeyActions(desired: seq<User>, live: seq<User>, key: string): (r: seq<Action>)
    ensures FirstWithEmail(live, key).Some? ==> KeyActions(desired, live, key) == Ok(r)
    ensures FirstWithEmail(live, key).None? && FirstWithEmail(desired, key).Some? ==>
              r == [Create(desired[FirstWithEmail(desired, key).value])]
    ensures FirstWithEmail(live, key).None? && FirstWithEmail(desired, key).None? ==> r == []
  {
    match FirstWithEmail(live, key)
    case Some(_) => KeyActions(desired, live, key).value
    case None =>
      match FirstWithEmail(desired, key)
      case None => []
      case Some(d) => [Create(desired[d])]
  }

  /** The loop with the intended create branch: only a remote call can fail. */
  function RunIntended(desired: seq<User>, live: seq<User>, keys: seq<string>, status: nat -> int): Pass
    decreases |keys|
  {
    if keys == [] then Pass([], None, desired)
    else
      var p := RunIntended(desired, live, keys[..|keys| - 1], status);
      var key := keys[|keys| - 1];
      if p.err.Some? then p
      else
        var (log, err) := Issue(p.log, IntendedKeyActions(p.desired, live, key), status);
        Pass(log, err, Adopt(p.desired, live, key))
  }

  /** Where every key has a live user, the intended loop is the loop as written. */
  lemma {:induction false} RunIntendedAgrees(desired: seq<User>, live: seq<User>, keys: seq<string>, status: nat -> int)
    requires forall k :: k in keys ==> FirstWithEmail(live, k).Some?
    ensures RunIntended(desired, live, keys, status) == RunUsers(desired, live, keys, status)
    decreases |keys|
  {
    if keys != [] {
      var n := |keys| - 1;
      assert forall k :: k in keys[..n] ==> k in keys;
      RunIntendedAgrees(desired, live, keys[..n], status);
      assert keys[n] in keys;
    }
  }

  /** A status every call of UserAPI accepts. */
  lemma OutcomeOk(a: Action)
    ensures Outcome(a, 200).None?
  {
  }

  /** When every call is answered 200, all planned calls are made. */
  lemma {:induction false} IssueAllOk(log: seq<Action>, actions: seq<Action>, status: nat -> int)
    requires forall n :: status(n) == 200
    ensures Issue(log, actions, status) == (log + actions, None)
    decreases |actions|
  {
    if actions != [] {
      OutcomeOk(actions[0]);
      IssueAllOk(log + [actions[0]], actions[1..], status);
      assert log + [actions[0]] + actions[1..] == log + actions;
    }
  }

  /** With every call answered 200, one more key appends its planned calls. */
  lemma RunIntendedStep(desired: seq<User>, live: seq<User>, keys: seq<string>, status: nat -> int)
    requires keys != [] && forall n :: status(n) == 200
    requires RunIntended(desired, live, keys[..|keys| - 1], status).err.None?
    ensures var p := RunIntended(desired, live, keys[..|keys| - 1], status);
            RunIntended(desired, live, keys, status)
              == Pass(p.log + IntendedKeyActions(p.desired, live, keys[|keys| - 1]), None,
                      Adopt(p.desired, live, keys[|keys| - 1]))
  {
    var p := RunIntended(desired, live, keys[..|keys| - 1], status);
    IssueAllOk(p.log, IntendedKeyActions(p.desired, live, keys[|keys| - 1]), status);
  }

  /** With every call answered 200, the corrected pass completes, and a
      desired user whose email has not been processed is untouched. */
  lemma {:induction false} RunIntendedOk(desired: seq<User>, live: seq<User>, keys: seq<string>, status: nat -> int)
    requires forall n :: status(n) == 200
    ensures RunIntended(desired, live, keys, status).err.None?
    ensures Untouched(desired, RunIntended(desired, live, keys, status).desired, keys)
    decreases |keys|
  {
    if keys != [] {
      var n := |keys| - 1;
      var key := keys[n];
      RunIntendedOk(desired, live, keys[..n], status);
      RunIntendedStep(desired, live, keys, status);
      var p := RunIntended(desired, live, keys[..n], status);
      var q := RunIntended(desired, live, keys, status);
      assert keys == keys[..n] + [key];
      forall j | 0 <= j < |desired|
        ensures q.desired[j].email == desired[j].email
        ensures desired[j].email !in keys ==> q.desired[j] == desired[j]
      {
        AdoptChanges(p.desired, live, key, j);
      }
    }
  }

  /** With the intended create branch and every call answered 200, the pass
      completes and creates the first desired user of every desired-only key. */
  lemma {:induction false} RunIntendedCreates(desired: seq<User>, live: seq<User>, keys: seq<string>, status: nat -> int)
    requires forall i, j :: 0 <= i < j < |keys| ==> keys[i] != keys[j]
    requires forall n :: status(n) == 200
    ensures RunIntended(desired, live, keys, status).err.None?
    ensures forall k :: k in keys && FirstWithEmail(live, k).None? && FirstWithEmail(desired, k).Some? ==>
              Create(desired[FirstWithEmail(desired, k).value]) in RunIntended(desired, live, keys, status).log
    decreases |keys|
  {
    RunIntendedOk(desired, live, keys, status);
    if keys != [] {
      var n := |keys| - 1;
      var key := keys[n];
      RunIntendedCreates(desired, live, keys[..n], status);
      RunIntendedOk(desired, live, keys[..n], status);
      RunIntendedStep(desired, live, keys, status);
      var p := RunIntended(desired, live, keys[..n], status);
      var q := RunIntended(desired, live, keys, status);
      assert key !in keys[..n];
      assert keys == keys[..n] + [key];
      forall k | k in keys && FirstWithEmail(live, k).None? && FirstWithEmail(desired, k).Some?
        ensures Create(desired[FirstWithEmail(desired, k).value]) in q.log
      {
        var c := Create(desired[FirstWithEmail(desired, k).value]);
        if k == key {
          FirstWithEmailSameEmails(p.desired, desired, key);
          var d := FirstWithEmail(desired, k).value;
          assert p.desired[d] == desired[d];
          assert q.log[|p.log|] == c;
        } else {
          assert k in keys[..n];
          var i :| 0 <= i < |p.log| && p.log[i] == c;
          assert q.log[i] == c;
        }
      }
    }
  }

  // ---------------------------------------------------------------------
  // sync_groups

  /** The names sync_groups never processes. */
  const Protected: set<string> := {"All Users", "Administrators"}

  /** What sync_groups reports for a key; every call it would make for one
      is commented out. */
  datatype Change = Added | Removed | Modified

  /** `next((g for g in groups if g.name == key), None)`, as an index. */
  function FirstWithName(groups: seq<PermissionGroup>, key: string): (r: Option<nat>)
    ensures r.Some? ==> r.value < |groups| && groups[r.value].name == key
                        && forall j :: 0 <= j < r.value ==> groups[j].name != key
    ensures r.None? ==> forall j :: 0 <= j < |groups| ==> groups[j].name != key
    decreases |groups|
  {
    if groups == [] then None
    else if groups[0].name == key then Some(0)
    else match FirstWithName(groups[1..], key)
      case None => None
      case Some(i) => Some(i + 1)
  }

  method NextWithName(groups: seq<PermissionGroup>, key: string) returns (r: Option<nat>)
    ensures r == FirstWithName(groups, key)
  {
    var i := 0;
    while i < |groups|
      invariant 0 <= i <= |groups|
      invariant forall j :: 0 <= j < i ==> groups[j].name != key
    {
      if groups[i].name == key {
        return Some(i);
      }
      i := i + 1;
    }
    return None;
  }

  /** `g.dict(include={"name"})` */
  function GroupTracked(g: PermissionGroup): (r: Record)
    ensures r.Keys == {Name}
  {
    map[Name := Str(g.name)]
  }

  /** The set difference of the tracked items is non-empty. */
  predicate GroupDiffers(yml: PermissionGroup, srv: PermissionGroup) {
    Items(GroupTracked(yml)) - Items(GroupTracked(srv)) != {}
  }

  /** Two groups found under the same name never differ: the name is both
      the key and the only tracked field. */
  lemma GroupNeverModified(yml: PermissionGroup, srv: PermissionGroup)
    requires yml.name == srv.name
    ensures !GroupDiffers(yml, srv)
  {
    assert GroupTracked(yml) == GroupTracked(srv);
  }

  /** The line sync_groups prints for one key, if any. */
  function GroupChange(desired: seq<PermissionGroup>, live: seq<PermissionGroup>, key: string): Option<Change> {
    match (FirstWithName(live, key), FirstWithName(desired, key))
    case (Some(s), Some(d)) => if GroupDiffers(desired[d], live[s]) then Some(Modified) else None
    case (Some(_), None) => Some(Removed)
    case (None, Some(_)) => Some(Added)
    case (None, None) => None
  }

  /** The lines sync_groups prints over `keys`, the protected names skipped. */
  function GroupReport(desired: seq<PermissionGroup>, live: seq<PermissionGroup>, keys: seq<string>): seq<(string, Change)>
    decreases |keys|
  {
    if keys == [] then []
    else
      var key := keys[|keys| - 1];
      var front := GroupReport(desired, live, keys[..|keys| - 1]);
      if key in Protected then front
      else match GroupChange(desired, live, key)
        case None => front
        case Some(c) => front + [(key, c)]
  }

  /** sync_groups, with `keys` the name union of both lists. */
  method SyncGroups(desired: seq<PermissionGroup>, live: seq<PermissionGroup>, keys: seq<string>)
    returns (report: seq<(string, Change)>)
    ensures report == GroupReport(desired, live, keys)
  {
    report := [];
    var i := 0;
    while i < |keys|
      invariant 0 <= i <= |keys|
      invariant report == GroupReport(desired, live, keys[..i])
    {
      var key := keys[i];
      assert keys[..i + 1][..i] == keys[..i];
      if key !in Protected {
        var srv := NextWithName(live, key);
        var yml := NextWithName(desired, key);
        if srv.Some? && yml.Some? {
          GroupNeverModified(desired[yml.value], live[srv.value]);
          if GroupDiffers(desired[yml.value], live[srv.value]) {
            assert false;
          }
        } else if srv.Some? {
          report := report + [(key, Removed)];
        } else if yml.Some? {
          report := report + [(key, Added)];
        }
      }
      i := i + 1;
    }
    assert keys[..i] == keys;
  }

  /** sync_groups reports each unprotected name at most once: removed when
      only the live list has it, added when only the desired list has it,
      and never as modified. */
  lemma {:induction false} GroupReportSpec(desired: seq<PermissionGroup>, live: seq<PermissionGroup>, keys: seq<string>)
    requires forall i, j :: 0 <= i < j < |keys| ==> keys[i] != keys[j]
    ensures forall i :: 0 <= i < |GroupReport(desired, live, keys)| ==>
              GroupReport(desired, live, keys)[i].1 != Modified && GroupReport(desired, live, keys)[i].0 !in Protected
    ensures forall i, j :: 0 <= i < j < |GroupReport(desired, live, keys)| ==>
              GroupReport(desired, live, keys)[i].0 != GroupReport(desired, live, keys)[j].0
    ensures forall k :: (k, Removed) in GroupReport(desired, live, keys) <==>
              k in keys && k !in Protected && FirstWithName(live, k).Some? && FirstWithName(desired, k).None?
    ensures forall k :: (k, Added) in GroupReport(desired, live, keys) <==>
              k in keys && k !in Protected && FirstWithName(live, k).None? && FirstWithName(desired, k).Some?
    decreases |keys|
  {
    if keys != [] {
      var n := |keys| - 1;
      var key := keys[n];
      GroupReportSpec(desired, live, keys[..n]);
      GroupReportKeys(desired, live, keys[..n]);
      assert keys == keys[..n] + [key];
      assert key !in keys[..n];
      match (FirstWithName(live, key), FirstWithName(desired, key))
      case (Some(s), Some(d)) =>
        GroupNeverModified(desired[d], live[s]);
      case (_, _) =>
    }
  }

  /** Every name reported is one of the keys. */
  lemma {:induction false} GroupReportKeys(desired: seq<PermissionGroup>, live: seq<PermissionGroup>, keys: seq<string>)
    ensures forall i :: 0 <= i < |GroupReport(desired, live, keys)| ==> GroupReport(desired, live, keys)[i].0 in keys
    decreases |keys|
  {
    if keys != [] {
      var n := |keys| - 1;
      GroupReportKeys(desired, live, keys[..n]);
      assert keys == keys[..n] + [keys[n]];
    }
  }
}
