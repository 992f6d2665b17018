/** The Python value domain the codec and the client exchange: scalar JSON/YAML
    values, flat records (dicts keyed by field name), and the exceptions the
    core raises, as a `Result`. */
module Values {
  import Text

  datatype Option<+T> = None | Some(value: T)

  /** The exceptions the modelled code raises. */
  datatype Error =
    | KeyError(key: Value)        // a dict lookup of a missing key
    | ValidationError             // pydantic refused a record
    | TypeError                   // a value of the wrong Python type
    | AttributeError              // an attribute looked up on None
    | HTTPError(status: int)      // requests.HTTPError raised on a bad status
    | NotFoundError(status: int)  // NotFoundError raised on 404 or 204
    | NotImplementedError         // an abstract hook was called

  datatype Result<+T> = Ok(value: T) | Err(error: Error)

  /** A scalar as it appears in a JSON payload or a YAML document. */
  datatype Value = Null | Bool(b: bool) | Int(i: int) | Str(s: string)

  /** The key of a record: one constructor per field name the models
      declare (or the codec excludes), and `Other` for any other key. */
  datatype Field =
    | Id | Email | FirstName | LastName | CommonName | Locale
    | IsSuperuser | IsActive | IsQbnewb | LdapAuth | GoogleAuth
    | DateJoined | LastLogin | UpdatedAt | LoginAttributes | GroupIds
    | Name | MemberCount | MembershipId | GroupId | UserId | Revision
    | Other(key: string)

  /** A flat dict from field name to value. */
  type Record = map<Field, Value>

  /** `str(v)`, as an f-string renders a value. */
  function Display(v: Value): string {
    match v
    case Null => "None"
    case Bool(b) => if b then "True" else "False"
    case Int(i) => Text.IntToString(i)
    case Str(s) => s
  }

  /** Applies `f` to each element in order, and stops at the first failure:
      the behaviour of a list comprehension whose element expression raises. */
  function Traverse<A, B>(xs: seq<A>, f: A -> Result<B>): (r: Result<seq<B>>)
    ensures r.Ok? <==> forall i :: 0 <= i < |xs| ==> f(xs[i]).Ok?
    ensures r.Ok? ==> |r.value| == |xs| && forall i :: 0 <= i < |xs| ==> f(xs[i]) == Ok(r.value[i])
    ensures r.Err? ==> exists i :: 0 <= i < |xs| && f(xs[i]) == Err(r.error) && forall j :: 0 <= j < i ==> f(xs[j]).Ok?
    decreases |xs|
  {
    if xs == [] then Ok([])
    else
      match f(xs[0])
      case Err(e) => Err(e)
      case Ok(y) =>
        match Traverse(xs[1..], f)
        case Err(e) => Err(e)
        case Ok(ys) => Ok([y] + ys)
  }

  /** When every element maps to a value, the traversal gives exactly those values. */
  lemma {:induction false} TraverseAllOk<A, B>(xs: seq<A>, f: A -> Result<B>, ys: seq<B>)
    requires |xs| == |ys| && forall i :: 0 <= i < |xs| ==> f(xs[i]) == Ok(ys[i])
    ensures Traverse(xs, f) == Ok(ys)
    decreases |xs|
  {
    if xs != [] {
      assert forall i :: 0 <= i < |xs| - 1 ==> xs[1..][i] == xs[i + 1] && ys[1..][i] == ys[i + 1];
      TraverseAllOk(xs[1..], f, ys[1..]);
      assert ys == [ys[0]] + ys[1..];
    }
  }

  /** Traversing one element further. */
  lemma TraverseSnoc<A, B>(xs: seq<A>, f: A -> Result<B>, i: nat)
    requires i < |xs| && Traverse(xs[..i], f).Ok?
    ensures Traverse(xs[..i + 1], f) == match f(xs[i])
                                        case Err(e) => Err(e)
                                        case Ok(y) => Ok(Traverse(xs[..i], f).value + [y])
  {
    var ys := xs[..i + 1];
    assert forall k :: 0 <= k < i ==> ys[k] == xs[..i][k];
    match f(xs[i])
    case Ok(y) =>
      TraverseAllOk(ys, f, Traverse(xs[..i], f).value + [y]);
    case Err(e) =>
      var r := Traverse(ys, f);
      assert !f(ys[i]).Ok?;
      var k :| 0 <= k < |ys| && f(ys[k]) == Err(r.error) && forall j :: 0 <= j < k ==> f(ys[j]).Ok?;
      assert k == i;
  }

  /** A traversal that failed on a prefix fails the same way on the whole. */
  lemma TraversePrefixErr<A, B>(xs: seq<A>, f: A -> Result<B>, i: nat)
    requires i <= |xs| && Traverse(xs[..i], f).Err?
    ensures Traverse(xs, f) == Traverse(xs[..i], f)
  {
    var ys := xs[..i];
    assert forall j :: 0 <= j < i ==> ys[j] == xs[j];
    var e := Traverse(ys, f).error;
    var k :| 0 <= k < |ys| && f(ys[k]) == Err(e) && forall j :: 0 <= j < k ==> f(ys[j]).Ok?;
    var r := Traverse(xs, f);
    var k' :| 0 <= k' < |xs| && f(xs[k']) == Err(r.error) && forall j :: 0 <= j < k' ==> f(xs[j]).Ok?;
    assert k' == k;
  }
}
