/** The portable codec of metabase/serde.py without the YAML file: each
    `serialize_*` gives the document it would dump, each `deserialize_*`
    takes the document it would load. A YAML sequence is a `seq`, a YAML
    mapping an insertion-ordered `Entries`, and a loaded document that is
    empty (None) is `None`. */
module Serde {
  import opened Values
  import opened Text
  import opened Dicts
  import opened Model
  import opened Seqs

  // ---------------------------------------------------------------------
  // Users

  /** The fields `serialize_users` leaves out. */
  const UserExclude: set<Field> := {
    Id, CommonName, DateJoined, LastLogin, UpdatedAt, IsSuperuser,
    IsQbnewb, LdapAuth, GoogleAuth, Locale, LoginAttributes, GroupIds
  }

  /** `user.dict(exclude=...)` in serialize_users. */
  function UserRecord(u: User): Record {
    UserFields(u) - UserExclude
  }

  /** A user is written as email, names and is_active, and nothing else;
      a None is kept as a null. */
  lemma UserRecordFields(u: User)
    ensures UserRecord(u) == map[Email := Str(u.email), FirstName := Str(u.firstName),
                                 LastName := Str(u.lastName), IsActive := OptBool(u.isActive)]
  {
    var r := UserRecord(u);
    var q := map[Email := Str(u.email), FirstName := Str(u.firstName),
                 LastName := Str(u.lastName), IsActive := OptBool(u.isActive)];
    assert r.Keys == q.Keys;
    assert r[Email] == q[Email] && r[FirstName] == q[FirstName];
    assert r[LastName] == q[LastName] && r[IsActive] == q[IsActive];
  }

  /** serialize_users: one record per user, in order. */
  function SerializeUsers(users: seq<User>): (r: seq<Record>)
    ensures |r| == |users|
    ensures forall i :: 0 <= i < |users| ==> r[i] == UserRecord(users[i])
  {
    if users == [] then [] else [UserRecord(users[0])] + SerializeUsers(users[1..])
  }

  /** The record `deserialize_users` builds for one loaded entry before
      validation: the sentinel id and the derived common name, each
      overridden by the entry's own key. Reading first_name and last_name
      for the f-string raises KeyError when either is missing. */
  function UserDefaults(rec: Record): (r: Result<Record>)
    ensures r.Err? <==> FirstName !in rec || LastName !in rec
    ensures r.Err? ==> r.error == KeyError(Str(if FirstName !in rec then "first_name" else "last_name"))
  {
    if FirstName !in rec then Err(KeyError(Str("first_name")))
    else if LastName !in rec then Err(KeyError(Str("last_name")))
    else Ok(map[Id := Int(-1), CommonName := Str(Display(rec[FirstName]) + " " + Display(rec[LastName]))] + rec)
  }

  function DeserializeUser(rec: Record): Result<User> {
    match UserDefaults(rec)
    case Err(e) => Err(e)
    case Ok(f) => ParseUser(f)
  }

  /** deserialize_users: a missing document gives no users; the first entry
      that fails aborts the whole list. */
  function DeserializeUsers(doc: Option<seq<Record>>): (r: Result<seq<User>>)
    ensures doc.None? ==> r == Ok([])
    ensures r.Ok? ==> doc.Some? ==> |r.value| == |doc.value|
  {
    Traverse(if doc.None? then [] else doc.value, DeserializeUser)
  }

  /** A decoded user has every declared field of its entry, the id -1 when
      the entry has none, and no value for a declared field the entry lacks. */
  lemma DeserializeUserKeeps(rec: Record, k: Field)
    requires DeserializeUser(rec).Ok? && k in UserFieldNames && k != CommonName
    ensures UserFields(DeserializeUser(rec).value)[k] ==
              if k in rec then rec[k] else if k == Id then Int(-1) else Null
  {
    ParseUserKeeps(UserDefaults(rec).value, k);
  }

  /** The common name of a decoded user is the entry's own, unless that is
      missing or empty; then it is first name, a space and last name. */
  lemma DeserializeUserCommonName(rec: Record)
    requires DeserializeUser(rec).Ok?
    ensures var u := DeserializeUser(rec).value;
            if CommonName in rec && rec[CommonName] != Str("")
            then Str(u.commonName) == rec[CommonName]
            else u.commonName == u.firstName + " " + u.lastName
  {
    var f := UserDefaults(rec).value;
    var u := ParseUser(f).value;
    ParseUserKeeps(f, FirstName);
    ParseUserKeeps(f, LastName);
    assert rec[FirstName] == Str(u.firstName) && rec[LastName] == Str(u.lastName);
    if CommonName in rec && rec[CommonName] != Str("") {
      assert StrField(f, CommonName) != Some("");
    } else if CommonName in rec {
      assert StrField(f, CommonName) == Some("");
      ParseUserDerivesName(f);
    } else {
      assert StrField(f, CommonName) == Some(u.firstName + " " + u.lastName);
    }
  }

  /** What a user becomes after being written and read back. */
  function Reloaded(u: User): User {
    User(-1, u.email, u.firstName, u.lastName, u.firstName + " " + u.lastName,
         None, None, u.isActive, None, None, None)
  }

  lemma {:induction false} UserRoundTrip(u: User)
    ensures DeserializeUser(UserRecord(u)) == Ok(Reloaded(u))
  {
    UserRecordFields(u);
    var f := UserDefaults(UserRecord(u)).value;
    assert IntField(f, Id) == Some(-1);
    assert StrField(f, Email) == Some(u.email);
    assert StrField(f, FirstName) == Some(u.firstName);
    assert StrField(f, LastName) == Some(u.lastName);
    assert StrField(f, CommonName) == Some(u.firstName + " " + u.lastName);
    assert OptStrField(f, Locale) == Some(None);
    assert OptBoolField(f, IsSuperuser) == Some(None);
    assert OptBoolField(f, IsActive) == Some(u.isActive);
    assert OptBoolField(f, IsQbnewb) == Some(None);
    assert OptBoolField(f, LdapAuth) == Some(None);
    assert OptBoolField(f, GoogleAuth) == Some(None);
  }

  lemma ReloadedAt(users: seq<User>, i: nat)
    requires i < |users|
    ensures DeserializeUser(SerializeUsers(users)[i]) == Ok(Reloaded(users[i]))
  {
    UserRoundTrip(users[i]);
  }

  /** Reading back written users gives as many users, in order, with their
      email, names and is_active. */
  lemma UsersRoundTrip(users: seq<User>)
    ensures DeserializeUsers(Some(SerializeUsers(users))) == Ok(seq(|users|, i requires 0 <= i < |users| => Reloaded(users[i])))
  {
    var doc := SerializeUsers(users);
    var ys := seq(|users|, i requires 0 <= i < |users| => Reloaded(users[i]));
    forall i | 0 <= i < |doc|
      ensures DeserializeUser(doc[i]) == Ok(ys[i])
    {
      ReloadedAt(users, i);
    }
    TraverseAllOk(doc, DeserializeUser, ys);
  }

  // ---------------------------------------------------------------------
  // Groups

  /** `group.dict(exclude={"member_count", "id"})` */
  function GroupRecord(g: PermissionGroup): Record {
    GroupFields(g) - {MemberCount, Id}
  }

  /** A group is written as its name alone. */
  lemma GroupRecordFields(g: PermissionGroup)
    ensures GroupRecord(g) == map[Name := Str(g.name)]
  {
    var r := GroupRecord(g);
    assert r.Keys == {Name};
    assert r[Name] == Str(g.name);
  }

  /** serialize_groups: one record per group, in order. */
  function SerializeGroups(groups: seq<PermissionGroup>): (r: seq<Record>)
    ensures |r| == |groups|
    ensures forall i :: 0 <= i < |groups| ==> r[i] == GroupRecord(groups[i])
  {
    if groups == [] then [] else [GroupRecord(groups[0])] + SerializeGroups(groups[1..])
  }

  /** `PermissionGroup(**{"id": -1, **group})` */
  function DeserializeGroup(rec: Record): (r: Result<PermissionGroup>)
    ensures r.Ok? <==> StrField(rec, Name).Some? && (Id in rec ==> rec[Id].Int?)
                       && (MemberCount in rec ==> rec[MemberCount].Null? || rec[MemberCount].Int?)
    ensures r.Ok? ==> Str(r.value.name) == rec[Name]
    ensures r.Ok? ==> r.value.id == if Id in rec then rec[Id].i else -1
    ensures r.Ok? ==> r.value.memberCount == if MemberCount !in rec then Some(0)
                                             else if rec[MemberCount].Null? then None else Some(rec[MemberCount].i)
  {
    var f := map[Id := Int(-1)] + rec;
    assert GroupFields(PermissionGroup(0, "", None)).Keys == GroupFieldNames;
    ParseGroup(f)
  }

  /** deserialize_groups */
  function DeserializeGroups(doc: Option<seq<Record>>): (r: Result<seq<PermissionGroup>>)
    ensures doc.None? ==> r == Ok([])
    ensures r.Ok? ==> doc.Some? ==> |r.value| == |doc.value|
  {
    Traverse(if doc.None? then [] else doc.value, DeserializeGroup)
  }

  lemma GroupReloadedAt(groups: seq<PermissionGroup>, i: nat)
    requires i < |groups|
    ensures DeserializeGroup(SerializeGroups(groups)[i]) == Ok(PermissionGroup(-1, groups[i].name, Some(0)))
  {
    GroupRecordFields(groups[i]);
  }

  /** Reading back written groups keeps their names and order; each gets
      the id -1 and a member count of 0. */
  lemma GroupsRoundTrip(groups: seq<PermissionGroup>)
    ensures DeserializeGroups(Some(SerializeGroups(groups)))
         == Ok(seq(|groups|, i requires 0 <= i < |groups| => PermissionGroup(-1, groups[i].name, Some(0))))
  {
    var doc := SerializeGroups(groups);
    var ys := seq(|groups|, i requires 0 <= i < |groups| => PermissionGroup(-1, groups[i].name, Some(0)));
    forall i | 0 <= i < |doc|
      ensures DeserializeGroup(doc[i]) == Ok(ys[i])
    {
      GroupReloadedAt(groups, i);
    }
    TraverseAllOk(doc, DeserializeGroup, ys);
  }

  // ---------------------------------------------------------------------
  // Lookups, built with `{k: v for k, v in zip(keys, values)}`

  /** The `(u.id, u.email)` pairs, in order. */
  function IdEmails(users: seq<User>): (r: seq<(int, string)>)
    ensures |r| == |users| && forall i :: 0 <= i < |users| ==> r[i] == (users[i].id, users[i].email)
  {
    seq(|users|, i requires 0 <= i < |users| => (users[i].id, users[i].email))
  }

  /** The `(u.email, u.id)` pairs, in order. */
  function EmailIdPairs(users: seq<User>): (r: seq<(string, int)>)
    ensures |r| == |users| && forall i :: 0 <= i < |users| ==> r[i] == (users[i].email, users[i].id)
  {
    seq(|users|, i requires 0 <= i < |users| => (users[i].email, users[i].id))
  }

  /** The `(g.id, g.name)` pairs, in order. */
  function IdNames(groups: seq<PermissionGroup>): (r: seq<(int, string)>)
    ensures |r| == |groups| && forall i :: 0 <= i < |groups| ==> r[i] == (groups[i].id, groups[i].name)
  {
    seq(|groups|, i requires 0 <= i < |groups| => (groups[i].id, groups[i].name))
  }

  /** The `(g.name, g.id)` pairs, in order. */
  function NameIdPairs(groups: seq<PermissionGroup>): (r: seq<(string, int)>)
    ensures |r| == |groups| && forall i :: 0 <= i < |groups| ==> r[i] == (groups[i].name, groups[i].id)
  {
    seq(|groups|, i requires 0 <= i < |groups| => (groups[i].name, groups[i].id))
  }

  /** The `(d.id, d.name)` pairs, in order: serialize_pgraph builds this
      table for databases as it builds `IdNames` for groups; the two record
      types are distinct, so each has its own. */
  function DatabaseIdNames(databases: seq<Database>): (r: seq<(int, string)>)
    ensures |r| == |databases| && forall i :: 0 <= i < |databases| ==> r[i] == (databases[i].id, databases[i].name)
  {
    seq(|databases|, i requires 0 <= i < |databases| => (databases[i].id, databases[i].name))
  }

  function UserEmails(users: seq<User>): map<int, string> {
    LastWins(IdEmails(users))
  }

  function EmailIds(users: seq<User>): map<string, int> {
    LastWins(EmailIdPairs(users))
  }

  function GroupNames(groups: seq<PermissionGroup>): map<int, string> {
    LastWins(IdNames(groups))
  }

  function NameIds(groups: seq<PermissionGroup>): map<string, int> {
    LastWins(NameIdPairs(groups))
  }

  function DatabaseNames(databases: seq<Database>): map<int, string> {
    LastWins(DatabaseIdNames(databases))
  }

  /** The email a user id maps to is that of a user with the id, and with
      unique emails it maps back to the same id. */
  lemma EmailOfId(users: seq<User>, uid: int)
    requires uid in UserEmails(users)
    ensures exists i :: 0 <= i < |users| && users[i].id == uid && users[i].email == UserEmails(users)[uid]
    ensures (forall a, b :: 0 <= a < b < |users| ==> users[a].email != users[b].email) ==>
              UserEmails(users)[uid] in EmailIds(users) && EmailIds(users)[UserEmails(users)[uid]] == uid
  {
    var ps := IdEmails(users);
    LastWinsBack(ps, EmailIdPairs(users), uid);
    var i :| 0 <= i < |ps| && ps[i] == (uid, UserEmails(users)[uid]);
    assert users[i].id == uid;
  }

  /** The name a group id maps to is that of a group with the id, and with
      unique names it maps back to the same id. */
  lemma NameOfId(groups: seq<PermissionGroup>, gid: int)
    requires gid in GroupNames(groups)
    ensures exists i :: 0 <= i < |groups| && groups[i].id == gid && groups[i].name == GroupNames(groups)[gid]
    ensures (forall a, b :: 0 <= a < b < |groups| ==> groups[a].name != groups[b].name) ==>
              GroupNames(groups)[gid] in NameIds(groups) && NameIds(groups)[GroupNames(groups)[gid]] == gid
  {
    var ps := IdNames(groups);
    LastWinsBack(ps, NameIdPairs(groups), gid);
    var i :| 0 <= i < |ps| && ps[i] == (gid, GroupNames(groups)[gid]);
    assert groups[i].id == gid;
  }

  // ---------------------------------------------------------------------
  // Memberships

  /** The group names without repeats, in the order they first appear:
      the key order of `{g.name: [] for g in groups}`. */
  function NameOrder(groups: seq<PermissionGroup>): (r: seq<string>)
    ensures forall i, j :: 0 <= i < j < |r| ==> r[i] != r[j]
    ensures forall n :: n in r <==> exists i :: 0 <= i < |groups| && groups[i].name == n
    decreases |groups|
  {
    if groups == [] then []
    else
      var front := NameOrder(groups[..|groups| - 1]);
      var n := groups[|groups| - 1].name;
      assert forall i :: 0 <= i < |groups| - 1 ==> groups[..|groups| - 1][i] == groups[i];
      if n in front then front else front + [n]
  }

  /** With distinct names the order is the groups' own. */
  lemma {:induction false} NameOrderDistinct(groups: seq<PermissionGroup>)
    requires forall a, b :: 0 <= a < b < |groups| ==> groups[a].name != groups[b].name
    ensures NameOrder(groups) == Map(groups, (g: PermissionGroup) => g.name)
    decreases |groups|
  {
    if groups != [] {
      var k := |groups| - 1;
      NameOrderDistinct(groups[..k]);
      assert Map(groups, (g: PermissionGroup) => g.name) == Map(groups[..k], (g: PermissionGroup) => g.name) + [groups[k].name];
    }
  }

  /** The lists of `{g.name: [] for g in groups}`, by name: all empty. */
  function EmptyLists(groups: seq<PermissionGroup>): map<string, seq<string>> {
    map n | n in NameOrder(groups) :: []
  }

  /** A membership both of whose ids the lookups know. */
  predicate Resolvable(m: PermissionMembership, emails: map<int, string>, names: map<int, string>) {
    m.groupId in names && m.userId in emails
  }

  /** The KeyError an unresolvable membership raises: the group lookup
      comes first. */
  function LookupError(m: PermissionMembership, emails: map<int, string>, names: map<int, string>): Error {
    if m.groupId !in names then KeyError(Int(m.groupId)) else KeyError(Int(m.userId))
  }

  /** One iteration of serialize_memberships: the group's name is looked
      up, then its list, then the user's email, which is appended. */
  function AppendMember(lists: map<string, seq<string>>, m: PermissionMembership,
                        emails: map<int, string>, names: map<int, string>): (r: Result<map<string, seq<string>>>)
    ensures m.groupId in names && names[m.groupId] in lists ==>
              (r.Ok? <==> Resolvable(m, emails, names)) && (r.Err? ==> r.error == LookupError(m, emails, names))
    ensures r.Ok? ==> Resolvable(m, emails, names) && names[m.groupId] in lists && r.value.Keys == lists.Keys
  {
    if m.groupId !in names then Err(KeyError(Int(m.groupId)))
    else if names[m.groupId] !in lists then Err(KeyError(Str(names[m.groupId])))
    else if m.userId !in emails then Err(KeyError(Int(m.userId)))
    else Ok(lists[names[m.groupId] := lists[names[m.groupId]] + [emails[m.userId]]])
  }

  /** The loop of serialize_memberships over the memberships, from `lists0`. */
  function Aggregate(ms: seq<PermissionMembership>, emails: map<int, string>, names: map<int, string>,
                     lists0: map<string, seq<string>>): (r: Result<map<string, seq<string>>>)
    ensures r.Ok? ==> r.value.Keys == lists0.Keys
    decreases |ms|
  {
    if ms == [] then Ok(lists0)
    else match Aggregate(ms[..|ms| - 1], emails, names, lists0)
      case Err(e) => Err(e)
      case Ok(lists) => AppendMember(lists, ms[|ms| - 1], emails, names)
  }

  /** The dict in its key order. */
  function Document(order: seq<string>, lists: map<string, seq<string>>): (r: Entries<string, seq<string>>)
    requires forall i :: 0 <= i < |order| ==> order[i] in lists
    ensures KeysOf(r) == order
  {
    seq(|order|, i requires 0 <= i < |order| => (order[i], lists[order[i]]))
  }

  /** The document serialize_memberships dumps. */
  function MembershipsDoc(ms: seq<PermissionMembership>, users: seq<User>, groups: seq<PermissionGroup>): Result<Entries<string, seq<string>>> {
    match Aggregate(ms, UserEmails(users), GroupNames(groups), EmptyLists(groups))
    case Err(e) => Err(e)
    case Ok(lists) => Ok(Document(NameOrder(groups), lists))
  }

  /** Once the loop has raised, the rest of the memberships change nothing. */
  lemma {:induction false} AggregateSticks(ms: seq<PermissionMembership>, k: nat, emails: map<int, string>,
                                           names: map<int, string>, lists0: map<string, seq<string>>)
    requires k <= |ms| && Aggregate(ms[..k], emails, names, lists0).Err?
    ensures Aggregate(ms, emails, names, lists0) == Aggregate(ms[..k], emails, names, lists0)
    decreases |ms|
  {
    if k < |ms| {
      assert ms[..|ms| - 1][..k] == ms[..k];
      AggregateSticks(ms[..|ms| - 1], k, emails, names, lists0);
    } else {
      assert ms[..k] == ms;
    }
  }

  /** The loop one membership further. */
  lemma AggregateSnoc(ms: seq<PermissionMembership>, i: nat, emails: map<int, string>, names: map<int, string>,
                      lists0: map<string, seq<string>>)
    requires i < |ms| && Aggregate(ms[..i], emails, names, lists0).Ok?
    ensures Aggregate(ms[..i + 1], emails, names, lists0)
            == AppendMember(Aggregate(ms[..i], emails, names, lists0).value, ms[i], emails, names)
  {
    assert ms[..i + 1][..i] == ms[..i];
  }

  /** Every name the group lookup gives has a list from the start, so the
      loop never raises on the name itself. */
  lemma NamesHaveLists(groups: seq<PermissionGroup>)
    ensures forall g :: g in GroupNames(groups) ==> GroupNames(groups)[g] in EmptyLists(groups)
  {
    forall g | g in GroupNames(groups) ensures GroupNames(groups)[g] in NameOrder(groups) {
      NameOfId(groups, g);
    }
  }

  /** One iteration of the loop, from the state after the first `i`
      memberships: it raises on the group id, then on the user id, or
      appends the email under the group's name. */
  lemma AppendStep(ms: seq<PermissionMembership>, i: nat, emails: map<int, string>, names: map<int, string>,
                   lists0: map<string, seq<string>>, agg: map<string, seq<string>>)
    requires forall g :: g in names ==> names[g] in lists0
    requires i < |ms| && Aggregate(ms[..i], emails, names, lists0) == Ok(agg)
    ensures ms[i].groupId !in names ==> Aggregate(ms, emails, names, lists0) == Err(KeyError(Int(ms[i].groupId)))
    ensures ms[i].groupId in names ==> names[ms[i].groupId] in agg
    ensures ms[i].groupId in names && ms[i].userId !in emails ==>
              Aggregate(ms, emails, names, lists0) == Err(KeyError(Int(ms[i].userId)))
    ensures Resolvable(ms[i], emails, names) ==>
              var n := names[ms[i].groupId];
              Aggregate(ms[..i + 1], emails, names, lists0) == Ok(agg[n := agg[n] + [emails[ms[i].userId]]])
  {
    AggregateSnoc(ms, i, emails, names, lists0);
    if !Resolvable(ms[i], emails, names) {
      AggregateSticks(ms, i + 1, emails, names, lists0);
    }
  }

  /** The loop of serialize_memberships, over the dict of lists `agg`. */
  method AppendAll(memberships: seq<PermissionMembership>, usersLookup: map<int, string>, groupsLookup: map<int, string>,
                   lists0: map<string, seq<string>>)
    returns (r: Result<map<string, seq<string>>>)
    requires forall g :: g in groupsLookup ==> groupsLookup[g] in lists0
    ensures r == Aggregate(memberships, usersLookup, groupsLookup, lists0)
  {
    var agg := lists0;
    var i := 0;
    while i < |memberships|
      invariant 0 <= i <= |memberships|
      invariant Aggregate(memberships[..i], usersLookup, groupsLookup, lists0) == Ok(agg)
    {
      var m := memberships[i];
      AppendStep(memberships, i, usersLookup, groupsLookup, lists0, agg);
      if m.groupId !in groupsLookup {
        return Err(KeyError(Int(m.groupId)));
      }
      var name := groupsLookup[m.groupId];
      if m.userId !in usersLookup {
        return Err(KeyError(Int(m.userId)));
      }
      agg := agg[name := agg[name] + [usersLookup[m.userId]]];
      i := i + 1;
    }
    assert memberships[..i] == memberships;
    return Ok(agg);
  }

  /** serialize_memberships */
  method SerializeMemberships(memberships: seq<PermissionMembership>, users: seq<User>, groups: seq<PermissionGroup>)
    returns (r: Result<Entries<string, seq<string>>>)
    ensures r == MembershipsDoc(memberships, users, groups)
  {
    var usersLookup := UserEmails(users);
    var groupsLookup := GroupNames(groups);
    NamesHaveLists(groups);
    var agg := AppendAll(memberships, usersLookup, groupsLookup, EmptyLists(groups));
    if agg.Err? {
      return Err(agg.error);
    }
    return Ok(Document(NameOrder(groups), agg.value));
  }

  /** The position of the first membership a lookup does not resolve. */
  function FirstUnresolvable(ms: seq<PermissionMembership>, emails: map<int, string>, names: map<int, string>): (r: Option<nat>)
    ensures r.Some? ==> r.value < |ms| && !Resolvable(ms[r.value], emails, names)
                        && forall j :: 0 <= j < r.value ==> Resolvable(ms[j], emails, names)
    ensures r.None? <==> forall j :: 0 <= j < |ms| ==> Resolvable(ms[j], emails, names)
    decreases |ms|
  {
    if ms == [] then None
    else
      var n := |ms| - 1;
      match FirstUnresolvable(ms[..n], emails, names)
      case Some(i) => Some(i)
      case None => if Resolvable(ms[n], emails, names) then None else Some(n)
  }

  /** Whether the loop raises, and which KeyError, depends only on the
      lookups, as long as every name a group id maps to has a list. */
  lemma {:induction false} AggregateOutcome(ms: seq<PermissionMembership>, emails: map<int, string>,
                                            names: map<int, string>, lists0: map<string, seq<string>>)
    requires forall g :: g in names ==> names[g] in lists0
    ensures Aggregate(ms, emails, names, lists0).Ok? <==> FirstUnresolvable(ms, emails, names).None?
    ensures Aggregate(ms, emails, names, lists0).Err? ==>
              Aggregate(ms, emails, names, lists0).error == LookupError(ms[FirstUnresolvable(ms, emails, names).value], emails, names)
    decreases |ms|
  {
    if ms != [] {
      var n := |ms| - 1;
      AggregateOutcome(ms[..n], emails, names, lists0);
    }
  }

  /** The emails filed under group name `n`, in membership order. */
  function MembersUnder(ms: seq<PermissionMembership>, emails: map<int, string>, names: map<int, string>, n: string): seq<string>
    decreases |ms|
  {
    if ms == [] then []
    else
      var m := ms[|ms| - 1];
      MembersUnder(ms[..|ms| - 1], emails, names, n)
        + (if Resolvable(m, emails, names) && names[m.groupId] == n then [emails[m.userId]] else [])
  }

  /** Each membership appends its user's email under its group's name. */
  lemma {:induction false} AggregateMembers(ms: seq<PermissionMembership>, emails: map<int, string>,
                                            names: map<int, string>, lists0: map<string, seq<string>>, n: string)
    requires Aggregate(ms, emails, names, lists0).Ok? && n in lists0
    ensures Aggregate(ms, emails, names, lists0).value[n] == lists0[n] + MembersUnder(ms, emails, names, n)
    decreases |ms|
  {
    if ms != [] {
      var front := ms[..|ms| - 1];
      AggregateMembers(front, emails, names, lists0, n);
    }
  }

  /** serialize_memberships: it fails exactly when a membership has an
      unknown group or user id, with the KeyError of the first such one. */
  lemma MembershipsDocOutcome(ms: seq<PermissionMembership>, users: seq<User>, groups: seq<PermissionGroup>)
    ensures MembershipsDoc(ms, users, groups).Ok? <==>
              forall i :: 0 <= i < |ms| ==> Resolvable(ms[i], UserEmails(users), GroupNames(groups))
    ensures MembershipsDoc(ms, users, groups).Err? ==>
              var i := FirstUnresolvable(ms, UserEmails(users), GroupNames(groups));
              i.Some? && MembershipsDoc(ms, users, groups).error == LookupError(ms[i.value], UserEmails(users), GroupNames(groups))
  {
    NamesHaveLists(groups);
    AggregateOutcome(ms, UserEmails(users), GroupNames(groups), EmptyLists(groups));
  }

  /** serialize_memberships: the keys are the group names, each once and in
      the order the groups list them, even for a group with no members; under
      each name are the emails of its memberships, in membership order. */
  lemma MembershipsDocShape(ms: seq<PermissionMembership>, users: seq<User>, groups: seq<PermissionGroup>)
    requires MembershipsDoc(ms, users, groups).Ok?
    ensures KeysOf(MembershipsDoc(ms, users, groups).value) == NameOrder(groups)
    ensures forall i :: 0 <= i < |NameOrder(groups)| ==>
              MembershipsDoc(ms, users, groups).value[i].1
                == MembersUnder(ms, UserEmails(users), GroupNames(groups), NameOrder(groups)[i])
  {
    var emails, names := UserEmails(users), GroupNames(groups);
    forall i | 0 <= i < |NameOrder(groups)|
      ensures MembershipsDoc(ms, users, groups).value[i].1 == MembersUnder(ms, emails, names, NameOrder(groups)[i])
    {
      AggregateMembers(ms, emails, names, EmptyLists(groups), NameOrder(groups)[i]);
    }
  }

  // ---------------------------------------------------------------------
  // Memberships, read back

  /** The members of one group, each paired with the group's name. */
  function Tag(group: string, members: seq<string>): (r: seq<(string, string)>)
    ensures |r| == |members| && forall j :: 0 <= j < |members| ==> r[j] == (group, members[j])
  {
    seq(|members|, j requires 0 <= j < |members| => (group, members[j]))
  }

  /** `for group, members in doc.items() for member in members`, as pairs. */
  function MemberPairs(doc: Entries<string, seq<string>>): (r: seq<(string, string)>)
    ensures |r| == TotalLength(doc)
    decreases |doc|
  {
    if doc == [] then [] else MemberPairs(doc[..|doc| - 1]) + Tag(doc[|doc| - 1].0, doc[|doc| - 1].1)
  }

  /** Every (group, member) entry of the document is among the pairs. */
  lemma {:induction false} MemberPairsHas(doc: Entries<string, seq<string>>, i: nat, j: nat)
    requires i < |doc| && j < |doc[i].1|
    ensures (doc[i].0, doc[i].1[j]) in MemberPairs(doc)
    decreases |doc|
  {
    var n := |doc| - 1;
    var front := doc[..n];
    assert MemberPairs(doc) == MemberPairs(front) + Tag(doc[n].0, doc[n].1);
    if i < n {
      assert front[i] == doc[i];
      MemberPairsHas(front, i, j);
    } else {
      assert Tag(doc[n].0, doc[n].1)[j] == (doc[i].0, doc[i].1[j]);
    }
  }

  /** Member j of the i-th group comes after every member of the groups
      before it, paired with its group's name. */
  lemma {:induction false} MemberPairsAt(doc: Entries<string, seq<string>>, i: nat, j: nat)
    requires i < |doc| && j < |doc[i].1|
    ensures TotalLength(doc[..i]) + j < |MemberPairs(doc)|
    ensures MemberPairs(doc)[TotalLength(doc[..i]) + j] == (doc[i].0, doc[i].1[j])
    decreases |doc|
  {
    var n := |doc| - 1;
    var front := doc[..n];
    assert MemberPairs(doc) == MemberPairs(front) + Tag(doc[n].0, doc[n].1);
    if i == n {
      assert doc[..i] == front;
    } else {
      assert front[..i] == doc[..i] && front[i] == doc[i];
      MemberPairsAt(front, i, j);
    }
  }

  /** Every pair is a (group, member) entry of the document. */
  lemma {:induction false} MemberPairsFrom(doc: Entries<string, seq<string>>, k: nat)
    requires k < |MemberPairs(doc)|
    ensures exists i, j :: 0 <= i < |doc| && 0 <= j < |doc[i].1| && MemberPairs(doc)[k] == (doc[i].0, doc[i].1[j])
    decreases |doc|
  {
    var n := |doc| - 1;
    var front := doc[..n];
    var ps, t := MemberPairs(front), Tag(doc[n].0, doc[n].1);
    assert MemberPairs(doc) == ps + t;
    if k < |ps| {
      MemberPairsFrom(front, k);
      var i, j :| 0 <= i < |front| && 0 <= j < |front[i].1| && ps[k] == (front[i].0, front[i].1[j]);
      assert front[i] == doc[i];
      assert MemberPairs(doc)[k] == (doc[i].0, doc[i].1[j]);
    } else {
      assert MemberPairs(doc)[k] == (doc[n].0, doc[n].1[k - |ps|]);
    }
  }

  /** The membership one (group, member) pair builds: the dict literal looks
      up the member's id before the group's, and the membership id is -1. */
  function DecodeMember(p: (string, string), emailIds: map<string, int>, nameIds: map<string, int>): (r: Result<PermissionMembership>)
    ensures r.Ok? <==> p.1 in emailIds && p.0 in nameIds
    ensures r.Ok? ==> r.value == PermissionMembership(-1, nameIds[p.0], emailIds[p.1])
    ensures r.Err? ==> r.error == if p.1 !in emailIds then KeyError(Str(p.1)) else KeyError(Str(p.0))
  {
    if p.1 !in emailIds then Err(KeyError(Str(p.1)))
    else if p.0 !in nameIds then Err(KeyError(Str(p.0)))
    else ParseMembership(map[MembershipId := Int(-1), UserId := Int(emailIds[p.1]), GroupId := Int(nameIds[p.0])])
  }

  function Decoder(emailIds: map<string, int>, nameIds: map<string, int>): ((string, string)) -> Result<PermissionMembership> {
    (p: (string, string)) => DecodeMember(p, emailIds, nameIds)
  }

  /** The comprehension of deserialize_memberships, with the two lookup tables. */
  function DecodeMemberships(doc: Entries<string, seq<string>>, emailIds: map<string, int>, nameIds: map<string, int>)
    : Result<seq<PermissionMembership>>
  {
    Traverse(MemberPairs(doc), Decoder(emailIds, nameIds))
  }

  /** Member j of the i-th group, both known, sits in `ms` just past every
      member of the groups before it, as a membership with id -1 and the
      looked-up ids. */
  predicate DecodedAt(doc: Entries<string, seq<string>>, emailIds: map<string, int>, nameIds: map<string, int>,
                      ms: seq<PermissionMembership>, i: int, j: int)
    requires 0 <= i < |doc| && 0 <= j < |doc[i].1|
  {
    TotalLength(doc[..i]) + j < |ms| && doc[i].1[j] in emailIds && doc[i].0 in nameIds
    && ms[TotalLength(doc[..i]) + j] == PermissionMembership(-1, nameIds[doc[i].0], emailIds[doc[i].1[j]])
  }

  /** `ms` holds one membership per (group, member) entry of the document,
      in document order. */
  predicate InDocumentOrder(doc: Entries<string, seq<string>>, emailIds: map<string, int>, nameIds: map<string, int>,
                            ms: seq<PermissionMembership>)
  {
    |ms| == TotalLength(doc)
    && forall i, j :: 0 <= i < |doc| && 0 <= j < |doc[i].1| ==> DecodedAt(doc, emailIds, nameIds, ms, i, j)
  }

  /** A successful decoding lists the memberships in document order. */
  lemma DecodeMembershipsAt(doc: Entries<string, seq<string>>, emailIds: map<string, int>, nameIds: map<string, int>)
    requires DecodeMemberships(doc, emailIds, nameIds).Ok?
    ensures InDocumentOrder(doc, emailIds, nameIds, DecodeMemberships(doc, emailIds, nameIds).value)
  {
    var ps, f := MemberPairs(doc), Decoder(emailIds, nameIds);
    var ms := DecodeMemberships(doc, emailIds, nameIds).value;
    forall i, j | 0 <= i < |doc| && 0 <= j < |doc[i].1|
      ensures DecodedAt(doc, emailIds, nameIds, ms, i, j)
    {
      MemberPairsAt(doc, i, j);
      var k := TotalLength(doc[..i]) + j;
      assert f(ps[k]) == Ok(ms[k]);
    }
  }

  /** deserialize_memberships; an empty document reads as `{}`, which
      decodes to no memberships. */
  function DeserializeMemberships(doc: Option<Entries<string, seq<string>>>, users: seq<User>, groups: seq<PermissionGroup>)
    : (r: Result<seq<PermissionMembership>>)
    ensures doc.None? ==> r == Ok([])
    ensures doc.Some? && r.Ok? ==> |r.value| == TotalLength(doc.value)
    ensures doc.Some? && r.Ok? ==> InDocumentOrder(doc.value, EmailIds(users), NameIds(groups), r.value)
  {
    var d := if doc.Some? then doc.value else [];
    var r := DecodeMemberships(d, EmailIds(users), NameIds(groups));
    if r.Ok? then DecodeMembershipsAt(d, EmailIds(users), NameIds(groups)); r else r
  }

  /** Every group that has a member names a known group, and every member is
      a known email. */
  predicate AllKnown(doc: Entries<string, seq<string>>, emailIds: map<string, int>, nameIds: map<string, int>) {
    forall i, j :: 0 <= i < |doc| && 0 <= j < |doc[i].1| ==> doc[i].1[j] in emailIds && doc[i].0 in nameIds
  }

  /** deserialize_memberships succeeds exactly when every member is a known
      email and every group that has a member is a known name; a group with
      no members is never looked up. */
  lemma DecodeMembershipsOutcome(doc: Entries<string, seq<string>>, el: map<string, int>, nl: map<string, int>)
    ensures DecodeMemberships(doc, el, nl).Ok? <==> AllKnown(doc, el, nl)
  {
    var ps := MemberPairs(doc);
    var f := Decoder(el, nl);
    if AllKnown(doc, el, nl) {
      forall k | 0 <= k < |ps| ensures f(ps[k]).Ok? {
        MemberPairsFrom(doc, k);
      }
    } else {
      var i, j :| 0 <= i < |doc| && 0 <= j < |doc[i].1| && !(doc[i].1[j] in el && doc[i].0 in nl);
      MemberPairsHas(doc, i, j);
      var k :| 0 <= k < |ps| && ps[k] == (doc[i].0, doc[i].1[j]);
      assert !f(ps[k]).Ok?;
    }
  }

  /** A membership as it comes back: the same group and user, id -1. */
  function Unsaved(m: PermissionMembership): PermissionMembership {
    PermissionMembership(-1, m.groupId, m.userId)
  }

  /** The (group name, email) pair a resolvable membership is filed as. */
  function Image(m: PermissionMembership, emails: map<int, string>, names: map<int, string>): (string, string) {
    if Resolvable(m, emails, names) then (names[m.groupId], emails[m.userId]) else ("", "")
  }

  function Images(ms: seq<PermissionMembership>, emails: map<int, string>, names: map<int, string>): (r: seq<(string, string)>)
    ensures |r| == |ms| && forall i :: 0 <= i < |ms| ==> r[i] == Image(ms[i], emails, names)
  {
    seq(|ms|, i requires 0 <= i < |ms| => Image(ms[i], emails, names))
  }

  /** The membership a pair decodes to when both lookups succeed. */
  function Resolver(emailIds: map<string, int>, nameIds: map<string, int>): ((string, string)) -> PermissionMembership {
    (p: (string, string)) => PermissionMembership(-1, if p.0 in nameIds then nameIds[p.0] else 0, if p.1 in emailIds then emailIds[p.1] else 0)
  }

  /** The pairs under one name are that name's members, in membership order. */
  lemma {:induction false} SelectImages(ms: seq<PermissionMembership>, emails: map<int, string>, names: map<int, string>, n: string)
    requires forall i :: 0 <= i < |ms| ==> Resolvable(ms[i], emails, names)
    ensures Select(Images(ms, emails, names), n) == Tag(n, MembersUnder(ms, emails, names, n))
    decreases |ms|
  {
    if ms != [] {
      var k := |ms| - 1;
      SelectImages(ms[..k], emails, names, n);
      assert Images(ms, emails, names)[..k] == Images(ms[..k], emails, names);
      var a, b := MembersUnder(ms[..k], emails, names, n), MembersUnder(ms, emails, names, n)[|MembersUnder(ms[..k], emails, names, n)|..];
      assert Tag(n, a + b) == Tag(n, a) + Tag(n, b);
    }
  }

  /** Reading a document whose lists are the members, group by group. */
  lemma {:induction false} DocumentPairs(order: seq<string>, lists: map<string, seq<string>>, ms: seq<PermissionMembership>,
                                         emails: map<int, string>, names: map<int, string>)
    requires forall i :: 0 <= i < |ms| ==> Resolvable(ms[i], emails, names)
    requires forall i :: 0 <= i < |order| ==> order[i] in lists && lists[order[i]] == MembersUnder(ms, emails, names, order[i])
    ensures MemberPairs(Document(order, lists)) == GroupedBy(order, Images(ms, emails, names))
    decreases |order|
  {
    if order != [] {
      var n := |order| - 1;
      assert Document(order, lists)[..n] == Document(order[..n], lists);
      DocumentPairs(order[..n], lists, ms, emails, names);
      SelectImages(ms, emails, names, order[n]);
    }
  }

  /** The document's pairs are the memberships' pairs grouped by name. */
  lemma MembershipsDocPairs(ms: seq<PermissionMembership>, users: seq<User>, groups: seq<PermissionGroup>)
    requires forall i :: 0 <= i < |ms| ==> Resolvable(ms[i], UserEmails(users), GroupNames(groups))
    ensures MembershipsDoc(ms, users, groups).Ok?
    ensures MemberPairs(MembershipsDoc(ms, users, groups).value)
            == GroupedBy(NameOrder(groups), Images(ms, UserEmails(users), GroupNames(groups)))
  {
    var emails, names := UserEmails(users), GroupNames(groups);
    var order := NameOrder(groups);
    MembershipsDocOutcome(ms, users, groups);
    var lists := Aggregate(ms, emails, names, EmptyLists(groups)).value;
    forall i | 0 <= i < |order| ensures lists[order[i]] == MembersUnder(ms, emails, names, order[i]) {
      AggregateMembers(ms, emails, names, EmptyLists(groups), order[i]);
    }
    DocumentPairs(order, lists, ms, emails, names);
  }

  /** Grouping by name loses and duplicates no pair. */
  lemma GroupedImages(ms: seq<PermissionMembership>, users: seq<User>, groups: seq<PermissionGroup>)
    requires forall i :: 0 <= i < |ms| ==> Resolvable(ms[i], UserEmails(users), GroupNames(groups))
    ensures multiset(GroupedBy(NameOrder(groups), Images(ms, UserEmails(users), GroupNames(groups))))
            == multiset(Images(ms, UserEmails(users), GroupNames(groups)))
  {
    var order := NameOrder(groups);
    var images := Images(ms, UserEmails(users), GroupNames(groups));
    forall i | 0 <= i < |images| ensures images[i].0 in order {
      NameOfId(groups, ms[i].groupId);
    }
    GroupedByMultiset(order, images);
    SelectInAll(images, order);
  }

  /** With unique emails and names, each pair resolves back to its membership. */
  lemma ImagesResolve(ms: seq<PermissionMembership>, users: seq<User>, groups: seq<PermissionGroup>)
    requires forall a, b :: 0 <= a < b < |users| ==> users[a].email != users[b].email
    requires forall a, b :: 0 <= a < b < |groups| ==> groups[a].name != groups[b].name
    requires forall i :: 0 <= i < |ms| ==> Resolvable(ms[i], UserEmails(users), GroupNames(groups))
    ensures forall i :: 0 <= i < |ms| ==>
              Images(ms, UserEmails(users), GroupNames(groups))[i].1 in EmailIds(users)
              && Images(ms, UserEmails(users), GroupNames(groups))[i].0 in NameIds(groups)
    ensures Map(Images(ms, UserEmails(users), GroupNames(groups)), Resolver(EmailIds(users), NameIds(groups))) == Map(ms, Unsaved)
  {
    var images := Images(ms, UserEmails(users), GroupNames(groups));
    var g := Resolver(EmailIds(users), NameIds(groups));
    forall i | 0 <= i < |ms|
      ensures images[i].1 in EmailIds(users) && images[i].0 in NameIds(groups) && g(images[i]) == Unsaved(ms[i])
    {
      EmailOfId(users, ms[i].userId);
      NameOfId(groups, ms[i].groupId);
    }
  }

  /** The document serialize_memberships writes, read back by
      deserialize_memberships against the same users and groups, gives the
      memberships again, with id -1 and regrouped by group — provided emails
      and group names are unique, so that the name lookups invert the id
      lookups. */
  lemma MembershipsRoundTrip(ms: seq<PermissionMembership>, users: seq<User>, groups: seq<PermissionGroup>)
    requires forall a, b :: 0 <= a < b < |users| ==> users[a].email != users[b].email
    requires forall a, b :: 0 <= a < b < |groups| ==> groups[a].name != groups[b].name
    requires forall i :: 0 <= i < |ms| ==> Resolvable(ms[i], UserEmails(users), GroupNames(groups))
    ensures MembershipsDoc(ms, users, groups).Ok?
    ensures DeserializeMemberships(Some(MembershipsDoc(ms, users, groups).value), users, groups).Ok?
    ensures multiset(DeserializeMemberships(Some(MembershipsDoc(ms, users, groups).value), users, groups).value)
            == multiset(Map(ms, Unsaved))
  {
    MembershipsDocPairs(ms, users, groups);
    GroupedImages(ms, users, groups);
    ImagesResolve(ms, users, groups);
    var images := Images(ms, UserEmails(users), GroupNames(groups));
    var pairs := MemberPairs(MembershipsDoc(ms, users, groups).value);
    DecodeKnownPairs(pairs, images, EmailIds(users), NameIds(groups));
    MapMultiset(pairs, images, Resolver(EmailIds(users), NameIds(groups)));
  }

  /** Pairs that are a reordering of known pairs all decode, each to the
      membership its email and name resolve to. */
  lemma DecodeKnownPairs(pairs: seq<(string, string)>, images: seq<(string, string)>,
                         emailIds: map<string, int>, nameIds: map<string, int>)
    requires multiset(pairs) == multiset(images)
    requires forall i :: 0 <= i < |images| ==> images[i].1 in emailIds && images[i].0 in nameIds
    ensures Traverse(pairs, Decoder(emailIds, nameIds)) == Ok(Map(pairs, Resolver(emailIds, nameIds)))
  {
    var f, g := Decoder(emailIds, nameIds), Resolver(emailIds, nameIds);
    forall k | 0 <= k < |pairs| ensures f(pairs[k]) == Ok(Map(pairs, g)[k]) {
      assert pairs[k] in multiset(images);
      var i :| 0 <= i < |images| && images[i] == pairs[k];
    }
    TraverseAllOk(pairs, f, Map(pairs, g));
  }

  // ---------------------------------------------------------------------
  // Permission graph

  /** Renaming a key: the lookup table's value, or the KeyError it raises. */
  function Rename<V>(e: (int, V), names: map<int, string>): Result<(string, V)> {
    if e.0 in names then Ok((names[e.0], e.1)) else Err(KeyError(Int(e.0)))
  }

  function DatabaseRenamer(dbNames: map<int, string>): ((int, PermissionRule)) -> Result<(string, PermissionRule)> {
    (e: (int, PermissionRule)) => Rename(e, dbNames)
  }

  /** The inner loop of serialize_pgraph: a group's rules keyed by database
      name; a later database of the same name overwrites an earlier one. */
  function PermsDoc(dp: Entries<int, PermissionRule>, dbNames: map<int, string>): Result<Entries<string, PermissionRule>> {
    match Traverse(dp, DatabaseRenamer(dbNames))
    case Err(e) => Err(e)
    case Ok(ps) => Ok(FromPairs(ps))
  }

  /** One outer iteration: the group's rules are renamed before the group. */
  function GroupEntry(e: (int, Entries<int, PermissionRule>), dbNames: map<int, string>, groupNames: map<int, string>)
    : Result<(string, Entries<string, PermissionRule>)>
  {
    match PermsDoc(e.1, dbNames)
    case Err(err) => Err(err)
    case Ok(perms) => if e.0 in groupNames then Ok((groupNames[e.0], perms)) else Err(KeyError(Int(e.0)))
  }

  function GroupRenamer(dbNames: map<int, string>, groupNames: map<int, string>)
    : ((int, Entries<int, PermissionRule>)) -> Result<(string, Entries<string, PermissionRule>)>
  {
    (e: (int, Entries<int, PermissionRule>)) => GroupEntry(e, dbNames, groupNames)
  }

  /** The outer loop of serialize_pgraph over the graph's groups, with the
      two lookup tables; a later group of the same name overwrites an earlier one. */
  function GraphDoc(gs: Entries<int, Entries<int, PermissionRule>>, dbNames: map<int, string>, groupNames: map<int, string>)
    : Result<Entries<string, Entries<string, PermissionRule>>>
  {
    match Traverse(gs, GroupRenamer(dbNames, groupNames))
    case Err(e) => Err(e)
    case Ok(ps) => Ok(FromPairs(ps))
  }

  /** The mapping serialize_pgraph dumps under the key "groups". */
  function PGraphDoc(pgraph: PermissionGraph, databases: seq<Database>, groups: seq<PermissionGroup>)
    : Result<Entries<string, Entries<string, PermissionRule>>>
  {
    GraphDoc(pgraph.groups, DatabaseNames(databases), GroupNames(groups))
  }

  /** The inner loop of serialize_pgraph over one group's rules. */
  method SerializePerms(databasePermissions: Entries<int, PermissionRule>, databaseLookup: map<int, string>)
    returns (r: Result<Entries<string, PermissionRule>>)
    ensures r == PermsDoc(databasePermissions, databaseLookup)
  {
    ghost var inner := DatabaseRenamer(databaseLookup);
    ghost var renamed: seq<(string, PermissionRule)> := [];
    var perms: Entries<string, PermissionRule> := [];
    var j := 0;
    while j < |databasePermissions|
      invariant 0 <= j <= |databasePermissions|
      invariant Traverse(databasePermissions[..j], inner) == Ok(renamed) && perms == FromPairs(renamed)
    {
      var database, permissions := databasePermissions[j].0, databasePermissions[j].1;
      TraverseSnoc(databasePermissions, inner, j);
      if database !in databaseLookup {
        TraversePrefixErr(databasePermissions, inner, j + 1);
        return Err(KeyError(Int(database)));
      }
      FromPairsSnoc(renamed, databaseLookup[database], permissions);
      perms := Put(perms, databaseLookup[database], permissions);
      renamed := renamed + [(databaseLookup[database], permissions)];
      j := j + 1;
    }
    assert databasePermissions[..j] == databasePermissions;
    return Ok(perms);
  }

  /** One iteration of the outer loop, from the pairs assigned for the
      first `i` groups: it raises what the inner loop raised, then on the
      group id, or assigns one more pair. */
  lemma GraphStep(gs: Entries<int, Entries<int, PermissionRule>>, i: nat, dn: map<int, string>, gn: map<int, string>,
                  done: seq<(string, Entries<string, PermissionRule>)>)
    requires i < |gs| && Traverse(gs[..i], GroupRenamer(dn, gn)) == Ok(done)
    ensures PermsDoc(gs[i].1, dn).Err? ==> GraphDoc(gs, dn, gn) == Err(PermsDoc(gs[i].1, dn).error)
    ensures PermsDoc(gs[i].1, dn).Ok? && gs[i].0 !in gn ==> GraphDoc(gs, dn, gn) == Err(KeyError(Int(gs[i].0)))
    ensures PermsDoc(gs[i].1, dn).Ok? && gs[i].0 in gn ==>
              var p := (gn[gs[i].0], PermsDoc(gs[i].1, dn).value);
              Traverse(gs[..i + 1], GroupRenamer(dn, gn)) == Ok(done + [p])
              && FromPairs(done + [p]) == Put(FromPairs(done), p.0, p.1)
  {
    var outer := GroupRenamer(dn, gn);
    TraverseSnoc(gs, outer, i);
    if outer(gs[i]).Err? {
      TraversePrefixErr(gs, outer, i + 1);
    } else {
      FromPairsSnoc(done, gn[gs[i].0], PermsDoc(gs[i].1, dn).value);
    }
  }

  /** The outer loop of serialize_pgraph over the graph's groups; a KeyError
      raised in the inner loop ends the whole function. */
  method SerializeGraph(gs: Entries<int, Entries<int, PermissionRule>>, databaseLookup: map<int, string>,
                        groupsLookup: map<int, string>)
    returns (r: Result<Entries<string, Entries<string, PermissionRule>>>)
    ensures r == GraphDoc(gs, databaseLookup, groupsLookup)
  {
    ghost var done: seq<(string, Entries<string, PermissionRule>)> := [];
    var graph: Entries<string, Entries<string, PermissionRule>> := [];
    var i := 0;
    while i < |gs|
      invariant 0 <= i <= |gs|
      invariant Traverse(gs[..i], GroupRenamer(databaseLookup, groupsLookup)) == Ok(done) && graph == FromPairs(done)
    {
      var group := gs[i].0;
      var perms := SerializePerms(gs[i].1, databaseLookup);
      GraphStep(gs, i, databaseLookup, groupsLookup, done);
      if perms.Err? {
        return Err(perms.error);
      }
      if group !in groupsLookup {
        return Err(KeyError(Int(group)));
      }
      graph := Put(graph, groupsLookup[group], perms.value);
      done := done + [(groupsLookup[group], perms.value)];
      i := i + 1;
    }
    assert gs[..i] == gs;
    return Ok(graph);
  }

  /** serialize_pgraph: the two lookup tables, then the loops. */
  method SerializePGraph(pgraph: PermissionGraph, databases: seq<Database>, groups: seq<PermissionGroup>)
    returns (r: Result<Entries<string, Entries<string, PermissionRule>>>)
    ensures r == PGraphDoc(pgraph, databases, groups)
  {
    var databaseLookup := DatabaseNames(databases);
    var groupsLookup := GroupNames(groups);
    r := SerializeGraph(pgraph.groups, databaseLookup, groupsLookup);
  }

  /** Every database a group's rules mention has a name. */
  predicate DatabasesKnown(dp: Entries<int, PermissionRule>, dbNames: map<int, string>) {
    forall j :: 0 <= j < |dp| ==> dp[j].0 in dbNames
  }

  /** Every group of the graph, and every database under it, has a name. */
  predicate GraphKnown(gs: Entries<int, Entries<int, PermissionRule>>, dbNames: map<int, string>, groupNames: map<int, string>) {
    forall i :: 0 <= i < |gs| ==> gs[i].0 in groupNames && DatabasesKnown(gs[i].1, dbNames)
  }

  /** The inner loop fails exactly on an unknown database, with the KeyError
      of the first one. */
  lemma PermsDocOutcome(dp: Entries<int, PermissionRule>, dbNames: map<int, string>)
    ensures PermsDoc(dp, dbNames).Ok? <==> DatabasesKnown(dp, dbNames)
    ensures PermsDoc(dp, dbNames).Err? ==>
              exists j :: 0 <= j < |dp| && dp[j].0 !in dbNames && (forall b :: 0 <= b < j ==> dp[b].0 in dbNames)
                          && PermsDoc(dp, dbNames).error == KeyError(Int(dp[j].0))
  {
    var f := DatabaseRenamer(dbNames);
    assert forall j :: 0 <= j < |dp| ==> f(dp[j]) == Rename(dp[j], dbNames);
  }

  /** Each database's rules end up under its name; when two databases share
      a name, the later one's rules are kept, at the earlier one's place. */
  lemma PermsDocLastWins(dp: Entries<int, PermissionRule>, dbNames: map<int, string>)
    requires DatabasesKnown(dp, dbNames)
    ensures PermsDoc(dp, dbNames).Ok?
    ensures forall n :: Find(PermsDoc(dp, dbNames).value, n).Some? <==> exists j :: 0 <= j < |dp| && dbNames[dp[j].0] == n
    ensures forall j :: 0 <= j < |dp| && (forall b :: j < b < |dp| ==> dbNames[dp[b].0] != dbNames[dp[j].0]) ==>
              Get(PermsDoc(dp, dbNames).value, dbNames[dp[j].0]) == Some(dp[j].1)
  {
    PermsDocOutcome(dp, dbNames);
    var f := DatabaseRenamer(dbNames);
    var ps := Traverse(dp, f).value;
    assert forall j :: 0 <= j < |dp| ==> ps[j] == (dbNames[dp[j].0], dp[j].1) by {
      assert forall j :: 0 <= j < |dp| ==> f(dp[j]) == Rename(dp[j], dbNames);
    }
    FromPairsKeys(ps);
    forall j | 0 <= j < |dp| && (forall b :: j < b < |dp| ==> dbNames[dp[b].0] != dbNames[dp[j].0])
      ensures Get(FromPairs(ps), dbNames[dp[j].0]) == Some(dp[j].1)
    {
      FromPairsGet(ps, dbNames[dp[j].0]);
      LastValueAt(ps, j);
    }
  }

  /** With distinct names the rules keep their order, each under its database's name. */
  lemma PermsDocExact(dp: Entries<int, PermissionRule>, dbNames: map<int, string>)
    requires DatabasesKnown(dp, dbNames)
    requires forall a, b :: 0 <= a < b < |dp| ==> dbNames[dp[a].0] != dbNames[dp[b].0]
    ensures PermsDoc(dp, dbNames).Ok?
    ensures |PermsDoc(dp, dbNames).value| == |dp|
    ensures forall j :: 0 <= j < |dp| ==> PermsDoc(dp, dbNames).value[j] == (dbNames[dp[j].0], dp[j].1)
  {
    PermsDocOutcome(dp, dbNames);
    var f := DatabaseRenamer(dbNames);
    var ps := Traverse(dp, f).value;
    assert forall j :: 0 <= j < |dp| ==> ps[j] == (dbNames[dp[j].0], dp[j].1) by {
      assert forall j :: 0 <= j < |dp| ==> f(dp[j]) == Rename(dp[j], dbNames);
    }
    FromPairsDistinct(ps);
  }

  /** serialize_pgraph fails exactly when a group or one of its databases has
      no name. The KeyError is that of the first group that fails, and within
      it an unknown database is reported before an unknown group. */
  lemma GraphDocOutcome(gs: Entries<int, Entries<int, PermissionRule>>, dn: map<int, string>, gn: map<int, string>)
    ensures GraphDoc(gs, dn, gn).Ok? <==> GraphKnown(gs, dn, gn)
    ensures GraphDoc(gs, dn, gn).Err? ==>
              exists i :: 0 <= i < |gs| && (forall a :: 0 <= a < i ==> gs[a].0 in gn && DatabasesKnown(gs[a].1, dn))
                          && if DatabasesKnown(gs[i].1, dn)
                             then gs[i].0 !in gn && GraphDoc(gs, dn, gn).error == KeyError(Int(gs[i].0))
                             else exists j :: 0 <= j < |gs[i].1| && gs[i].1[j].0 !in dn
                                              && GraphDoc(gs, dn, gn).error == KeyError(Int(gs[i].1[j].0))
  {
    var f := GroupRenamer(dn, gn);
    forall i | 0 <= i < |gs|
      ensures f(gs[i]).Ok? <==> gs[i].0 in gn && DatabasesKnown(gs[i].1, dn)
      ensures f(gs[i]).Err? && DatabasesKnown(gs[i].1, dn) ==> gs[i].0 !in gn && f(gs[i]).error == KeyError(Int(gs[i].0))
      ensures f(gs[i]).Err? && !DatabasesKnown(gs[i].1, dn) ==>
                exists j :: 0 <= j < |gs[i].1| && gs[i].1[j].0 !in dn && f(gs[i]).error == KeyError(Int(gs[i].1[j].0))
    {
      PermsDocOutcome(gs[i].1, dn);
    }
  }

  /** The renamed pairs the outer loop assigns, when every name is known. */
  lemma PGraphPairs(gs: Entries<int, Entries<int, PermissionRule>>, dn: map<int, string>, gn: map<int, string>)
    requires GraphKnown(gs, dn, gn)
    ensures Traverse(gs, GroupRenamer(dn, gn)).Ok?
    ensures forall i :: 0 <= i < |gs| ==>
              PermsDoc(gs[i].1, dn).Ok? && Traverse(gs, GroupRenamer(dn, gn)).value[i] == (gn[gs[i].0], PermsDoc(gs[i].1, dn).value)
  {
    var f := GroupRenamer(dn, gn);
    forall i | 0 <= i < |gs| ensures PermsDoc(gs[i].1, dn).Ok? && f(gs[i]) == Ok((gn[gs[i].0], PermsDoc(gs[i].1, dn).value)) {
      PermsDocOutcome(gs[i].1, dn);
    }
  }

  /** Each group's rules end up under its name; a later group of the same
      name replaces an earlier one's rules. */
  lemma GraphDocLastWins(gs: Entries<int, Entries<int, PermissionRule>>, dn: map<int, string>, gn: map<int, string>)
    requires GraphKnown(gs, dn, gn)
    ensures GraphDoc(gs, dn, gn).Ok?
    ensures forall n :: Find(GraphDoc(gs, dn, gn).value, n).Some? <==> exists i :: 0 <= i < |gs| && gn[gs[i].0] == n
    ensures forall i :: 0 <= i < |gs| && (forall b :: i < b < |gs| ==> gn[gs[b].0] != gn[gs[i].0]) ==>
              Get(GraphDoc(gs, dn, gn).value, gn[gs[i].0]) == Some(PermsDoc(gs[i].1, dn).value)
  {
    PGraphPairs(gs, dn, gn);
    var ps := Traverse(gs, GroupRenamer(dn, gn)).value;
    FromPairsKeys(ps);
    forall i | 0 <= i < |gs| && (forall b :: i < b < |gs| ==> gn[gs[b].0] != gn[gs[i].0])
      ensures Get(FromPairs(ps), gn[gs[i].0]) == Some(PermsDoc(gs[i].1, dn).value)
    {
      FromPairsGet(ps, gn[gs[i].0]);
      LastValueAt(ps, i);
    }
  }

  /** Distinct database ids have distinct names when the databases' names are unique. */
  lemma DatabaseNamesDistinct(databases: seq<Database>, dp: Entries<int, PermissionRule>)
    requires DatabasesKnown(dp, DatabaseNames(databases)) && DistinctKeys(dp)
    requires forall a, b :: 0 <= a < b < |databases| ==> databases[a].name != databases[b].name
    ensures forall a, b :: 0 <= a < b < |dp| ==> DatabaseNames(databases)[dp[a].0] != DatabaseNames(databases)[dp[b].0]
  {
    var dbPairs := DatabaseIdNames(databases);
    forall a, b | 0 <= a < b < |dp| ensures DatabaseNames(databases)[dp[a].0] != DatabaseNames(databases)[dp[b].0] {
      LastWinsInjective(dbPairs, dp[a].0, dp[b].0);
    }
  }

  /** Distinct group ids have distinct names when the groups' names are unique. */
  lemma GroupNamesDistinct(groups: seq<PermissionGroup>, gs: Entries<int, Entries<int, PermissionRule>>)
    requires (forall i :: 0 <= i < |gs| ==> gs[i].0 in GroupNames(groups)) && DistinctKeys(gs)
    requires forall a, b :: 0 <= a < b < |groups| ==> groups[a].name != groups[b].name
    ensures forall a, b :: 0 <= a < b < |gs| ==> GroupNames(groups)[gs[a].0] != GroupNames(groups)[gs[b].0]
  {
    var groupPairs := IdNames(groups);
    forall a, b | 0 <= a < b < |gs| ensures GroupNames(groups)[gs[a].0] != GroupNames(groups)[gs[b].0] {
      LastWinsInjective(groupPairs, gs[a].0, gs[b].0);
    }
  }

  /** With unique group and database names, the document is the graph with
      every id replaced by its name, in the graph's order. */
  lemma PGraphDocExact(pgraph: PermissionGraph, databases: seq<Database>, groups: seq<PermissionGroup>)
    requires GraphKnown(pgraph.groups, DatabaseNames(databases), GroupNames(groups))
    requires forall a, b :: 0 <= a < b < |databases| ==> databases[a].name != databases[b].name
    requires forall a, b :: 0 <= a < b < |groups| ==> groups[a].name != groups[b].name
    requires DistinctKeys(pgraph.groups) && forall i :: 0 <= i < |pgraph.groups| ==> DistinctKeys(pgraph.groups[i].1)
    ensures PGraphDoc(pgraph, databases, groups).Ok?
    ensures var doc, gs := PGraphDoc(pgraph, databases, groups).value, pgraph.groups;
            |doc| == |gs| && forall i :: 0 <= i < |gs| ==>
              doc[i].0 == GroupNames(groups)[gs[i].0] && |doc[i].1| == |gs[i].1|
              && forall j :: 0 <= j < |gs[i].1| ==> doc[i].1[j] == (DatabaseNames(databases)[gs[i].1[j].0], gs[i].1[j].1)
  {
    var gs, dn, gn := pgraph.groups, DatabaseNames(databases), GroupNames(groups);
    PGraphPairs(gs, dn, gn);
    var ps := Traverse(gs, GroupRenamer(dn, gn)).value;
    forall i | 0 <= i < |gs|
      ensures |PermsDoc(gs[i].1, dn).value| == |gs[i].1|
      ensures forall j :: 0 <= j < |gs[i].1| ==> PermsDoc(gs[i].1, dn).value[j] == (dn[gs[i].1[j].0], gs[i].1[j].1)
    {
      DatabaseNamesDistinct(databases, gs[i].1);
      PermsDocExact(gs[i].1, dn);
    }
    GroupNamesDistinct(groups, gs);
    FromPairsDistinct(ps);
  }
}
