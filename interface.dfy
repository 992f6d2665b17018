/** The pure rules inside the HTTP client of metabase/interface.py: host
    cleansing, the capability hook's method lookup, resource paths, the
    payload each operation sends, how a response status is classified, and
    the flattening of the membership listing. The session, the token and the
    network are outside the model: a request is a value, and the status the
    server answers with is an input. */
module Interface {
  import opened Values
  import opened Text
  import opened Dicts
  import opened Model
  import opened Seqs

  // ---------------------------------------------------------------------
  // MetabaseInstance.host

  /** What the host setter stores for a string: "https://" is prepended
      unless the value already starts with "http", then every trailing "/"
      is stripped. */
  function NormalizeHost(value: string): (r: string)
    ensures StartsWith(r, "http")
    ensures r != [] && r[|r| - 1] != '/'
  {
    var withScheme := if StartsWith(value, "http") then value else "https://" + value;
    assert StartsWith("https://" + value, "http") by {
      assert ("https://" + value)[..4] == "http";
    }
    RStripKeepsPrefix(withScheme, '/', "http");
    RStrip(withScheme, '/')
  }

  /** Cleansing a cleansed host changes nothing. */
  lemma NormalizeHostIdempotent(value: string)
    ensures NormalizeHost(NormalizeHost(value)) == NormalizeHost(value)
  {
    RStripIdempotent(if StartsWith(value, "http") then value else "https://" + value, '/');
  }

  /** A value that starts with "http" (even "httpfoo") only loses its
      trailing slashes. Any other value gets the scheme in front of what is
      left of it once its slashes are stripped; when nothing is left (the
      value is empty or all slashes), the slashes of "https://" go too and
      "https:" remains. */
  lemma NormalizeHostScheme(value: string)
    ensures StartsWith(value, "http") ==> value == NormalizeHost(value) + value[|NormalizeHost(value)|..]
    ensures StartsWith(value, "http") ==> forall i :: |NormalizeHost(value)| <= i < |value| ==> value[i] == '/'
    ensures !StartsWith(value, "http") && RStrip(value, '/') != [] ==>
              NormalizeHost(value) == "https://" + RStrip(value, '/')
    ensures !StartsWith(value, "http") && RStrip(value, '/') == [] ==> NormalizeHost(value) == "https:"
  {
    if !StartsWith(value, "http") {
      if RStrip(value, '/') != [] {
        RStripConcat("https://", value, '/');
      } else {
        var n := |value| + 2;
        assert "https://" + value == "https:" + seq(n, _ => '/');
        RStripIgnoresTrailing("https:", '/', n);
        assert RStrip("https:", '/') == "https:";
      }
    }
  }

  lemma NormalizeHostExamples()
    ensures NormalizeHost("example.com/") == "https://example.com"
    ensures NormalizeHost("httpfoo") == "httpfoo"
  {
    var v: string := "example.com/";
    assert v == "example.com" + seq(1, _ => '/');
    RStripIgnoresTrailing("example.com", '/', 1);
    assert RStrip("example.com", '/') == "example.com";
    assert !StartsWith(v, "http") by { assert v[0] == 'e'; }
    RStripConcat("https://", v, '/');
    assert ("https://" + "example.com") == "https://example.com";
    assert StartsWith("httpfoo", "http") by { assert "httpfoo"[..4] == "http"; }
  }

  /** The part of MetabaseInstance that the model keeps: its host. */
  class MetabaseInstance {
    var host: string

    /** The stored host is always cleansed. */
    ghost predicate Valid()
      reads this
    {
      StartsWith(host, "http") && host != [] && host[|host| - 1] != '/'
    }

    /** `__init__` assigns the host through the setter. */
    constructor (host: string)
      ensures Valid() && this.host == NormalizeHost(host)
    {
      this.host := NormalizeHost(host);
    }

    /** The host setter: anything but a string raises TypeError and leaves
        the host as it was. */
    method SetHost(value: Value) returns (err: Option<Error>)
      requires Valid()
      modifies this
      ensures Valid()
      ensures value.Str? ==> err == None && host == NormalizeHost(value.s)
      ensures !value.Str? ==> err == Some(TypeError) && host == old(host)
    {
      if !value.Str? {
        return Some(TypeError);
      }
      var v := value.s;
      if !StartsWith(v, "http") {
        v := "https://" + v;
      }
      assert v == if StartsWith(value.s, "http") then value.s else "https://" + value.s;
      host := RStrip(v, '/');
      assert host == NormalizeHost(value.s);
      err := None;
    }
  }

  // ---------------------------------------------------------------------
  // _check_methods

  /** What a class body binds a name to: None, or something else. */
  datatype Binding = BoundToNone | Bound

  /** What the capability hook answers. */
  datatype HookAnswer = HookTrue | NotImplemented

  /** The first class of the method resolution order that defines `name`. */
  function FirstDefining(mro: seq<map<string, Binding>>, name: string): (r: Option<nat>)
    ensures r.Some? ==> r.value < |mro| && name in mro[r.value] && forall j :: 0 <= j < r.value ==> name !in mro[j]
    ensures r.None? ==> forall j :: 0 <= j < |mro| ==> name !in mro[j]
    decreases |mro|
  {
    if mro == [] then None
    else if name in mro[0] then Some(0)
    else match FirstDefining(mro[1..], name)
      case None => None
      case Some(i) => Some(i + 1)
  }

  /** A class provides `name` when the first class in its MRO defining it
      binds it to something other than None. */
  predicate Provides(mro: seq<map<string, Binding>>, name: string) {
    match FirstDefining(mro, name)
    case None => false
    case Some(i) => mro[i][name] == Bound
  }

  /** `_check_methods(C, *methods)` with C's MRO given as the list of class dicts. */
  method CheckMethods(mro: seq<map<string, Binding>>, methods: seq<string>) returns (r: HookAnswer)
    ensures r == HookTrue <==> forall i :: 0 <= i < |methods| ==> Provides(mro, methods[i])
  {
    var i := 0;
    while i < |methods|
      invariant 0 <= i <= |methods|
      invariant forall k :: 0 <= k < i ==> Provides(mro, methods[k])
    {
      var name := methods[i];
      var j := 0;
      var found := false;
      while j < |mro|
        invariant 0 <= j <= |mro|
        invariant forall k :: 0 <= k < j ==> name !in mro[k]
      {
        if name in mro[j] {
          if mro[j][name] == BoundToNone {
            assert FirstDefining(mro, name) == Some(j);
            return NotImplemented;
          }
          assert FirstDefining(mro, name) == Some(j);
          found := true;
          break;
        }
        j := j + 1;
      }
      if !found {
        assert !Provides(mro, name);
        return NotImplemented;
      }
      i := i + 1;
    }
    return HookTrue;
  }

  // ---------------------------------------------------------------------
  // Paths, payloads and requests

  /** The resource path of one entity: the endpoint without its trailing
      slashes, a slash, and the id. */
  function ResourcePath(endpoint: string, id: int): string {
    RStrip(endpoint, '/') + "/" + IntToString(id)
  }

  /** Different ids never share a path under one endpoint. */
  lemma ResourcePathInjective(endpoint: string, a: int, b: int)
    requires ResourcePath(endpoint, a) == ResourcePath(endpoint, b)
    ensures a == b
  {
    var n := |RStrip(endpoint, '/')| + 1;
    assert ResourcePath(endpoint, a)[n..] == IntToString(a);
    assert ResourcePath(endpoint, b)[n..] == IntToString(b);
    IntToStringInjective(a, b);
  }

  /** Whether the endpoint is written with a trailing slash does not matter. */
  lemma ResourcePathTrailingSlash(endpoint: string, id: int)
    ensures ResourcePath(endpoint + "/", id) == ResourcePath(endpoint, id)
  {
    RStripIgnoresTrailing(endpoint, '/', 1);
    assert seq(1, _ => '/') == "/";
  }

  lemma ResourcePathExample()
    ensures ResourcePath("/api/user/", 5) == "/api/user/5"
  {
    assert IntToString(5) == "5";
    ResourcePathTrailingSlash("/api/user", 5);
    assert RStrip("/api/user", '/') == "/api/user";
  }

  datatype Verb = GET | POST | PUT | DELETE

  /** One HTTP request: verb, path relative to the host, JSON body. */
  datatype Request = Request(verb: Verb, path: string, body: Option<Record>)

  /** `entity.dict(exclude={"id"}, include=allow, exclude_none=True,
      exclude_unset=True)`. For the fields the allowlists below name,
      "unset" coincides with "None": each is required or has no default. */
  function Payload(fields: Record, allow: set<Field>): Record {
    map k | k in fields && k in allow && k != Id && fields[k] != Null :: fields[k]
  }

  /** Creatable.create */
  function CreateRequest(endpoint: string, fields: Record, allow: set<Field>): Request {
    Request(POST, endpoint, Some(Payload(fields, allow)))
  }

  /** Gettable.get */
  function GetRequest(endpoint: string, id: int): Request {
    Request(GET, ResourcePath(endpoint, id), None)
  }

  /** Updateable.update */
  function UpdateRequest(endpoint: string, id: int, fields: Record, allow: set<Field>): Request {
    Request(PUT, ResourcePath(endpoint, id), Some(Payload(fields, allow)))
  }

  /** Deletable.delete_by_id */
  function DeleteByIdRequest(endpoint: string, id: int): Request {
    Request(DELETE, ResourcePath(endpoint, id), None)
  }

  const UserEndpoint: string := "/api/user/"
  const GroupEndpoint: string := "/api/permissions/group"
  const MembershipEndpoint: string := "/api/permissions/membership"

  const UserCreateInclude: set<Field> := {FirstName, LastName, Email}
  const UserUpdateInclude: set<Field> := {FirstName, LastName, Email, IsActive}
  const GroupInclude: set<Field> := {Name}
  const MembershipCreateInclude: set<Field> := {GroupId, UserId}

  /** UserAPI.create */
  function UserCreateRequest(u: User): Request {
    CreateRequest(UserEndpoint, UserFields(u), UserCreateInclude)
  }

  /** UserAPI.update */
  function UserUpdateRequest(u: User): Request {
    UpdateRequest(UserEndpoint, u.id, UserFields(u), UserUpdateInclude)
  }

  /** UserAPI.delete, through Deletable.delete and delete_by_id */
  function UserDeleteRequest(u: User): Request {
    DeleteByIdRequest(UserEndpoint, u.id)
  }

  /** UserAPI.reactivate */
  function UserReactivateRequest(u: User): Request {
    Request(PUT, ResourcePath(UserEndpoint, u.id) + "/reactivate", None)
  }

  /** PermissionGroupAPI.create */
  function GroupCreateRequest(g: PermissionGroup): Request {
    CreateRequest(GroupEndpoint, GroupFields(g), GroupInclude)
  }

  /** PermissionGroupAPI.update */
  function GroupUpdateRequest(g: PermissionGroup): Request {
    UpdateRequest(GroupEndpoint, g.id, GroupFields(g), GroupInclude)
  }

  /** PermissionMembershipAPI.create */
  function MembershipCreateRequest(m: PermissionMembership): Request {
    CreateRequest(MembershipEndpoint, MembershipFields(m), MembershipCreateInclude)
  }

  /** No create or update payload ever carries the id. */
  lemma PayloadNeverSendsId(fields: Record, allow: set<Field>)
    ensures Id !in Payload(fields, allow)
    ensures Payload(fields, allow).Keys <= allow
  {
  }

  /** A payload is known by its keys and values. */
  lemma PayloadIs(fields: Record, allow: set<Field>, q: Record)
    requires forall k :: k in q <==> k in fields && k in allow && k != Id && fields[k] != Null
    requires forall k :: k in q ==> q[k] == fields[k]
    ensures Payload(fields, allow) == q
  {
  }

  /** When every allowed field other than the id is present and not None,
      the payload carries exactly those. */
  lemma PayloadKeys(fields: Record, allow: set<Field>)
    requires Id !in allow && allow <= fields.Keys && forall k :: k in allow ==> fields[k] != Null
    ensures Payload(fields, allow).Keys == allow
    ensures forall k :: k in allow ==> Payload(fields, allow)[k] == fields[k]
  {
  }

  /** A None field is left out of the payload. */
  lemma PayloadDropsNull(fields: Record, allow: set<Field>, x: Field)
    requires Id !in allow && allow <= fields.Keys && x in allow && fields[x] == Null
    requires forall k :: k in allow && k != x ==> fields[k] != Null
    ensures Payload(fields, allow).Keys == allow - {x}
    ensures forall k :: k in allow && k != x ==> Payload(fields, allow)[k] == fields[k]
  {
  }

  /** The fields of a user that its create and update payloads draw on. */
  lemma UserFieldsAt(u: User)
    ensures var f := UserFields(u);
            FirstName in f && LastName in f && Email in f && IsActive in f
            && f[FirstName] == Str(u.firstName) && f[LastName] == Str(u.lastName)
            && f[Email] == Str(u.email) && f[IsActive] == OptBool(u.isActive)
  {
  }

  /** Creating a user sends its names and email and nothing else. */
  lemma UserCreatePayload(u: User)
    ensures UserCreateRequest(u).verb == POST && UserCreateRequest(u).path == "/api/user/"
    ensures var body := UserCreateRequest(u).body;
            body.Some? && body.value.Keys == {FirstName, LastName, Email}
            && body.value[FirstName] == Str(u.firstName) && body.value[LastName] == Str(u.lastName)
            && body.value[Email] == Str(u.email)
  {
    var f := UserFields(u);
    UserFieldsAt(u);
    assert UserCreateRequest(u).body == Some(Payload(f, UserCreateInclude));
    PayloadKeys(f, UserCreateInclude);
  }

  /** Updating a user sends its names and email, and is_active unless it is None. */
  lemma UserUpdatePayload(u: User)
    ensures UserUpdateRequest(u).verb == PUT && UserUpdateRequest(u).path == ResourcePath("/api/user/", u.id)
    ensures UserUpdateRequest(u).body.Some?
    ensures u.isActive.Some? ==> UserUpdateRequest(u).body.value.Keys == {FirstName, LastName, Email, IsActive}
    ensures u.isActive.None? ==> UserUpdateRequest(u).body.value.Keys == {FirstName, LastName, Email}
  {
    var f := UserFields(u);
    UserFieldsAt(u);
    assert UserUpdateRequest(u).body == Some(Payload(f, UserUpdateInclude));
    assert UserUpdateInclude <= f.Keys;
    if u.isActive.Some? {
      assert f[IsActive] == Bool(u.isActive.value);
      PayloadKeys(f, UserUpdateInclude);
    } else {
      assert f[IsActive] == Null;
      PayloadDropsNull(f, UserUpdateInclude, IsActive);
      assert UserUpdateInclude - {IsActive} == {FirstName, LastName, Email};
    }
  }

  /** The values an update sends are the user's own. */
  lemma UserUpdateValues(u: User)
    ensures var body := UserUpdateRequest(u).body;
            body.Some? && FirstName in body.value && LastName in body.value && Email in body.value
            && body.value[FirstName] == Str(u.firstName) && body.value[LastName] == Str(u.lastName)
            && body.value[Email] == Str(u.email)
            && (u.isActive.Some? ==> IsActive in body.value && body.value[IsActive] == Bool(u.isActive.value))
  {
    var f := UserFields(u);
    UserFieldsAt(u);
    assert UserUpdateRequest(u).body == Some(Payload(f, UserUpdateInclude));
  }

  /** Groups are created and renamed by name alone. */
  lemma GroupPayloads(g: PermissionGroup)
    ensures GroupCreateRequest(g) == Request(POST, "/api/permissions/group", Some(map[Name := Str(g.name)]))
    ensures GroupUpdateRequest(g) == Request(PUT, ResourcePath("/api/permissions/group", g.id), Some(map[Name := Str(g.name)]))
  {
    var p := Payload(GroupFields(g), GroupInclude);
    assert p.Keys == {Name};
    assert p[Name] == Str(g.name);
    var q := map[Name := Str(g.name)];
    assert q.Keys == p.Keys;
    assert p == q;
  }

  /** A membership is created from its two ids. */
  lemma MembershipCreatePayload(m: PermissionMembership)
    ensures MembershipCreateRequest(m).body == Some(map[GroupId := Int(m.groupId), UserId := Int(m.userId)])
  {
    var p := Payload(MembershipFields(m), MembershipCreateInclude);
    assert p.Keys == MembershipCreateInclude;
    assert p[GroupId] == Int(m.groupId) && p[UserId] == Int(m.userId);
    var q := map[GroupId := Int(m.groupId), UserId := Int(m.userId)];
    assert q.Keys == p.Keys;
    assert p == q;
  }

  // ---------------------------------------------------------------------
  // Status rules

  /** Creatable.create: only 200 and 202 are accepted. */
  function CreateStatus(status: int): (r: Option<Error>)
    ensures r.None? <==> status == 200 || status == 202
    ensures r.Some? ==> r.value == HTTPError(status)
  {
    if status !in {200, 202} then Some(HTTPError(status)) else None
  }

  /** Gettable.get and Updateable.update: 404 and 204 mean the entity was
      not found; every other status is taken as an answer. */
  function NotFoundStatus(status: int): (r: Option<Error>)
    ensures r.Some? <==> status == 404 || status == 204
    ensures r.Some? ==> r.value == NotFoundError(status)
  {
    if status == 404 || status == 204 then Some(NotFoundError(status)) else None
  }

  /** Deletable.delete_by_id: only 200 and 204 are accepted, and then the
      result is `response.ok`, which holds for both. */
  function DeleteStatus(status: int): (r: Result<bool>)
    ensures r.Ok? <==> status == 200 || status == 204
    ensures r.Ok? ==> r.value
    ensures r.Err? ==> r.error == HTTPError(status)
  {
    if status !in {200, 204} then Err(HTTPError(status)) else Ok(status < 400)
  }

  // ---------------------------------------------------------------------
  // PermissionMembershipAPI.list

  /** PermissionMembershipAPI.list: the records of every user's list, in
      order, each made into a membership; the first record that does not
      validate aborts the listing. */
  function ListMemberships(resp: Entries<string, seq<Record>>): (r: Result<seq<PermissionMembership>>)
    ensures r.Ok? ==> forall k :: 0 <= k < |Flatten(resp)| ==> ParseMembership(Flatten(resp)[k]).Ok?
    ensures (forall k :: 0 <= k < |Flatten(resp)| ==> ParseMembership(Flatten(resp)[k]).Ok?) ==> r.Ok?
    ensures r.Ok? ==> |r.value| == TotalLength(resp)
  {
    Traverse(Flatten(resp), ParseMembership)
  }

  /** The j-th record of the i-th user's list becomes the membership at the
      position after all memberships of the lists before it. */
  lemma ListMembershipsAt(resp: Entries<string, seq<Record>>, i: nat, j: nat)
    requires ListMemberships(resp).Ok? && i < |resp| && j < |resp[i].1|
    ensures TotalLength(resp[..i]) + j < |ListMemberships(resp).value|
    ensures ParseMembership(resp[i].1[j]) == Ok(ListMemberships(resp).value[TotalLength(resp[..i]) + j])
  {
    FlattenAt(resp, i, j);
  }
}
