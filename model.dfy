/** The entity records of metabase/model.py that reconciliation and the codec
    use. Each entity is a datatype; `Fields` functions give what pydantic's
    `.dict()` returns (keyed by field name), and `Parse` functions give what
    constructing the model from keyword arguments does (`User(**record)`),
    with the model's defaults, aliases and validator. */
module Model {
  import opened Values
  import opened Dicts

  /** A Metabase user; an optional field is None when absent or null. The
      timestamps, login_attributes and group_ids are not part of this model. */
  datatype User = User(
    id: int,
    email: string,
    firstName: string,
    lastName: string,
    commonName: string,
    locale: Option<string>,
    isSuperuser: Option<bool>,
    isActive: Option<bool>,
    isQbnewb: Option<bool>,
    ldapAuth: Option<bool>,
    googleAuth: Option<bool>)

  datatype PermissionGroup = PermissionGroup(id: int, name: string, memberCount: Option<int>)

  /** The id is read from the key "membership_id" (a pydantic alias). */
  datatype PermissionMembership = PermissionMembership(id: int, groupId: int, userId: int)

  /** A rule of the permission graph is opaque to the codec. */
  type PermissionRule = map<string, Value>

  /** The id is read from the key "revision"; `groups` maps a group id to a
      map from database id to rule. */
  datatype PermissionGraph = PermissionGraph(id: int, groups: Entries<int, Entries<int, PermissionRule>>)

  datatype Database = Database(id: int, name: string)

  /** MetabaseModel.can_delete: no model overrides it. */
  function CanDelete<M>(m: M): (r: bool)
    ensures r
  {
    true
  }

  /** MetabaseModel.is_equal: no model implements it, so calling it raises. */
  function IsEqual<M>(a: M, b: M): (r: Result<bool>)
    ensures r == Err(NotImplementedError)
  {
    Err(NotImplementedError)
  }

  /** The validator on User.common_name: an empty name is replaced by the
      first and last name joined with a space. */
  function SetCommonName(v: string, firstName: string, lastName: string): (r: string)
    ensures r != ""
    ensures v != "" ==> r == v
  {
    if v != "" then v else firstName + " " + lastName
  }

  /** Validating an already validated name changes nothing. */
  lemma SetCommonNameIdempotent(v: string, firstName: string, lastName: string)
    ensures SetCommonName(SetCommonName(v, firstName, lastName), firstName, lastName)
         == SetCommonName(v, firstName, lastName)
  {
  }

  function OptStr(o: Option<string>): Value {
    match o
    case None => Null
    case Some(s) => Str(s)
  }

  function OptBool(o: Option<bool>): Value {
    match o
    case None => Null
    case Some(b) => Bool(b)
  }

  function OptInt(o: Option<int>): Value {
    match o
    case None => Null
    case Some(i) => Int(i)
  }

  const UserFieldNames: set<Field> := {
    Id, Email, FirstName, LastName, CommonName, Locale,
    IsSuperuser, IsActive, IsQbnewb, LdapAuth, GoogleAuth
  }

  /** `user.dict()` */
  function UserFields(u: User): (r: Record)
    ensures r.Keys == UserFieldNames
  {
    map[
      Id := Int(u.id),
      Email := Str(u.email),
      FirstName := Str(u.firstName),
      LastName := Str(u.lastName),
      CommonName := Str(u.commonName),
      Locale := OptStr(u.locale),
      IsSuperuser := OptBool(u.isSuperuser),
      IsActive := OptBool(u.isActive),
      IsQbnewb := OptBool(u.isQbnewb),
      LdapAuth := OptBool(u.ldapAuth),
      GoogleAuth := OptBool(u.googleAuth)
    ]
  }

  /** A required `int` field; None when absent or of another type. */
  function IntField(f: Record, k: Field): Option<int> {
    if k in f && f[k].Int? then Some(f[k].i) else None
  }

  /** A required `str` field; None when absent or of another type. */
  function StrField(f: Record, k: Field): Option<string> {
    if k in f && f[k].Str? then Some(f[k].s) else None
  }

  /** An `Optional[str]` field: Some(value), or None when the value has another type. */
  function OptStrField(f: Record, k: Field): Option<Option<string>> {
    if k !in f || f[k].Null? then Some(None)
    else if f[k].Str? then Some(Some(f[k].s))
    else None
  }

  /** An `Optional[bool]` field. */
  function OptBoolField(f: Record, k: Field): Option<Option<bool>> {
    if k !in f || f[k].Null? then Some(None)
    else if f[k].Bool? then Some(Some(f[k].b))
    else None
  }

  /** An `Optional[int]` field with a default for when it is absent. */
  function OptIntFieldOr(f: Record, k: Field, default: int): Option<Option<int>> {
    if k !in f then Some(Some(default))
    else if f[k].Null? then Some(None)
    else if f[k].Int? then Some(Some(f[k].i))
    else None
  }

  /** `User(**f)`. Fields are validated in declaration order; the validator
      on common_name reads first_name and last_name from the fields validated
      before it, and when one of them failed and the name is empty the lookup
      raises KeyError out of pydantic. Keys the model does not declare are
      ignored. */
  function ParseUser(f: Record): (r: Result<User>)
    ensures r.Ok? ==> r.value.commonName != ""
    ensures r.Ok? && StrField(f, CommonName) != Some("") ==> Some(r.value.commonName) == StrField(f, CommonName)
    ensures r.Err? && r.error.KeyError? ==> StrField(f, CommonName) == Some("")
  {
    var id := IntField(f, Id);
    var email := StrField(f, Email);
    var firstName := StrField(f, FirstName);
    var lastName := StrField(f, LastName);
    var commonName := StrField(f, CommonName);
    var locale := OptStrField(f, Locale);
    var isSuperuser := OptBoolField(f, IsSuperuser);
    var isActive := OptBoolField(f, IsActive);
    var isQbnewb := OptBoolField(f, IsQbnewb);
    var ldapAuth := OptBoolField(f, LdapAuth);
    var googleAuth := OptBoolField(f, GoogleAuth);
    if commonName == Some("") && firstName.None? then Err(KeyError(Str("first_name")))
    else if commonName == Some("") && lastName.None? then Err(KeyError(Str("last_name")))
    else if id.None? || email.None? || firstName.None? || lastName.None? || commonName.None?
         || locale.None? || isSuperuser.None? || isActive.None? || isQbnewb.None?
         || ldapAuth.None? || googleAuth.None?
    then Err(ValidationError)
    else
      Ok(User(id.value, email.value, firstName.value, lastName.value,
              SetCommonName(commonName.value, firstName.value, lastName.value),
              locale.value, isSuperuser.value, isActive.value, isQbnewb.value,
              ldapAuth.value, googleAuth.value))
  }

  /** A parsed user carries each declared field of the record as given. */
  lemma ParseUserKeeps(f: Record, k: Field)
    requires ParseUser(f).Ok? && k in UserFieldNames && k != CommonName
    ensures UserFields(ParseUser(f).value)[k] == if k in f then f[k] else Null
  {
    var u := ParseUser(f).value;
    assert IntField(f, Id) == Some(u.id);
    assert StrField(f, Email) == Some(u.email);
    assert StrField(f, FirstName) == Some(u.firstName);
    assert StrField(f, LastName) == Some(u.lastName);
    assert OptStrField(f, Locale) == Some(u.locale);
    assert OptBoolField(f, IsSuperuser) == Some(u.isSuperuser);
    assert OptBoolField(f, IsActive) == Some(u.isActive);
    assert OptBoolField(f, IsQbnewb) == Some(u.isQbnewb);
    assert OptBoolField(f, LdapAuth) == Some(u.ldapAuth);
    assert OptBoolField(f, GoogleAuth) == Some(u.googleAuth);
  }

  /** An empty common name is derived from the validated first and last names. */
  lemma ParseUserDerivesName(f: Record)
    requires ParseUser(f).Ok? && StrField(f, CommonName) == Some("")
    ensures ParseUser(f).value.commonName == ParseUser(f).value.firstName + " " + ParseUser(f).value.lastName
  {
    var u := ParseUser(f).value;
    assert StrField(f, FirstName) == Some(u.firstName);
    assert StrField(f, LastName) == Some(u.lastName);
  }

  /** A user's own dict builds the same user back, once its common name is set. */
  lemma ParseUserFields(u: User)
    ensures ParseUser(UserFields(u)) == Ok(u.(commonName := SetCommonName(u.commonName, u.firstName, u.lastName)))
  {
    var f := UserFields(u);
    assert IntField(f, Id) == Some(u.id);
    assert StrField(f, Email) == Some(u.email);
    assert StrField(f, FirstName) == Some(u.firstName);
    assert StrField(f, LastName) == Some(u.lastName);
    assert StrField(f, CommonName) == Some(u.commonName);
    assert OptStrField(f, Locale) == Some(u.locale);
    assert OptBoolField(f, IsSuperuser) == Some(u.isSuperuser);
    assert OptBoolField(f, IsActive) == Some(u.isActive);
    assert OptBoolField(f, IsQbnewb) == Some(u.isQbnewb);
    assert OptBoolField(f, LdapAuth) == Some(u.ldapAuth);
    assert OptBoolField(f, GoogleAuth) == Some(u.googleAuth);
  }

  const GroupFieldNames: set<Field> := {Id, Name, MemberCount}

  /** `group.dict()` */
  function GroupFields(g: PermissionGroup): (r: Record)
    ensures r.Keys == GroupFieldNames
  {
    map[Id := Int(g.id), Name := Str(g.name), MemberCount := OptInt(g.memberCount)]
  }

  /** `PermissionGroup(**f)`; member_count is 0 when absent. */
  function ParseGroup(f: Record): (r: Result<PermissionGroup>)
    ensures r.Ok? <==> IntField(f, Id).Some? && StrField(f, Name).Some?
                       && (MemberCount in f ==> f[MemberCount].Null? || f[MemberCount].Int?)
    ensures r.Ok? ==> forall k :: k in f && k in GroupFieldNames ==> GroupFields(r.value)[k] == f[k]
    ensures r.Ok? && MemberCount !in f ==> r.value.memberCount == Some(0)
  {
    var id := IntField(f, Id);
    var name := StrField(f, Name);
    var memberCount := OptIntFieldOr(f, MemberCount, 0);
    if id.None? || name.None? || memberCount.None? then Err(ValidationError)
    else Ok(PermissionGroup(id.value, name.value, memberCount.value))
  }

  lemma ParseGroupFields(g: PermissionGroup)
    ensures ParseGroup(GroupFields(g)) == Ok(g)
  {
  }

  /** `membership.dict()`: keyed by field name, so the id is under "id". */
  function MembershipFields(m: PermissionMembership): (r: Record)
    ensures r.Keys == {Id, GroupId, UserId}
  {
    map[Id := Int(m.id), GroupId := Int(m.groupId), UserId := Int(m.userId)]
  }

  /** `PermissionMembership(**f)`: the id comes only from "membership_id". */
  function ParseMembership(f: Record): (r: Result<PermissionMembership>)
    ensures r.Ok? <==> IntField(f, MembershipId).Some? && IntField(f, GroupId).Some? && IntField(f, UserId).Some?
    ensures r.Ok? ==> r.value.id == f[MembershipId].i && r.value.groupId == f[GroupId].i && r.value.userId == f[UserId].i
  {
    var id := IntField(f, MembershipId);
    var groupId := IntField(f, GroupId);
    var userId := IntField(f, UserId);
    if id.None? || groupId.None? || userId.None? then Err(ValidationError)
    else Ok(PermissionMembership(id.value, groupId.value, userId.value))
  }

  /** The alias is the only way in: a membership's own dict does not parse,
      and it does once the id is also given under "membership_id". */
  lemma ParseMembershipAlias(m: PermissionMembership)
    ensures ParseMembership(MembershipFields(m)) == Err(ValidationError)
    ensures ParseMembership(MembershipFields(m)[MembershipId := Int(m.id)]) == Ok(m)
  {
  }

  /** `PermissionGraph(**f)`, with the nested `groups` dict given on its own:
      the id comes only from "revision". */
  function ParsePermissionGraph(f: Record, groups: Entries<int, Entries<int, PermissionRule>>): (r: Result<PermissionGraph>)
    ensures r.Ok? <==> IntField(f, Revision).Some?
    ensures r.Ok? ==> r.value.id == f[Revision].i && r.value.groups == groups
  {
    match IntField(f, Revision)
    case None => Err(ValidationError)
    case Some(id) => Ok(PermissionGraph(id, groups))
  }

  /** An id given under "id" alone is not read; under "revision" it is. */
  lemma ParsePermissionGraphAlias(g: PermissionGraph)
    ensures ParsePermissionGraph(map[Id := Int(g.id)], g.groups) == Err(ValidationError)
    ensures ParsePermissionGraph(map[Revision := Int(g.id)], g.groups) == Ok(g)
  {
  }
}
