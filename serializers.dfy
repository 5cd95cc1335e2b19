/**
 * The API serializers of api/serializers.py that create Favorite, Subscription
 * and Purchase rows: the one writable field of each, the self-subscription
 * check, and `create`, which always records the requesting user.
 *
 * A request payload and the validated data are maps from field names to
 * primary keys. The related field's lookup of the key is the membership test
 * against the rows the field refers to.
 */
module Serializers {
  import opened Wrappers
  import opened Store

  type Attrs = map<string, nat>

  datatype ApiError =
    | FieldRequired(field: string)   // "This field is required."
    | DoesNotExist(field: string)    // the related field's invalid primary key
    | SelfSubscription               // the ValidationError of `validate`
    | UnexpectedField(field: string) // `objects.create` with an unknown keyword
    | NotNullViolation(field: string)
    | Integrity(error: StoreError)   // the IntegrityError of the insert

  /** The one field of `Meta.fields`: `author` for subscriptions, `recipe` otherwise. */
  function Field(rel: Relation): (f: string)
    ensures f == "author" <==> rel == Subscriptions
    ensures f == "recipe" <==> rel != Subscriptions
  {
    if rel == Subscriptions then "author" else "recipe"
  }

  /**
   * Field validation of a payload: the serializer's field is required and must
   * name an existing row; every other key, `user` included, is dropped.
   */
  function ToInternal(rel: Relation, payload: Attrs, targets: set<nat>): (r: Result<Attrs, ApiError>)
    ensures Field(rel) !in payload ==> r == Failure(FieldRequired(Field(rel)))
    ensures r.Success? <==> Field(rel) in payload && payload[Field(rel)] in targets
    ensures r.Success? ==> r.value.Keys == {Field(rel)} && r.value[Field(rel)] == payload[Field(rel)]
  {
    var f := Field(rel);
    if f !in payload then Failure(FieldRequired(f))
    else if payload[f] !in targets then Failure(DoesNotExist(f))
    else Success(map[f := payload[f]])
  }

  /** A `user` in the payload has no effect on the validated data. */
  lemma ToInternalIgnoresUser(rel: Relation, payload: Attrs, targets: set<nat>, user: nat)
    ensures ToInternal(rel, payload["user" := user], targets) == ToInternal(rel, payload - {"user"}, targets)
  {
    var f := Field(rel);
    assert f != "user" by { assert f[0] != 'u'; }
    assert f in payload["user" := user] <==> f in payload - {"user"};
  }

  /** The values a Python `==` may compare a user id with. */
  datatype PyValue = PyInt(i: int) | PyDict(attrs: Attrs)

  /**
   * `validate` as written: it rejects the value exactly when the requesting
   * user's id equals it, and returns it unchanged otherwise.
   */
  function Validate(userId: UserId, value: PyValue): (r: Result<PyValue, ApiError>)
    ensures r.Failure? <==> value == PyInt(userId)
    ensures r.Failure? ==> r.error == SelfSubscription
    ensures r.Success? ==> r.value == value
  {
    if PyInt(userId) == value then Failure(SelfSubscription) else Success(value)
  }

  /**
   * The serializer's `validate(attrs)` hook is given the whole validated
   * mapping, which is never equal to an integer: the check never rejects.
   */
  lemma ValidateNeverRejects(userId: UserId, attrs: Attrs)
    ensures Validate(userId, PyDict(attrs)) == Success(PyDict(attrs))
  {
  }

  /** User 7 subscribing to author 7 passes `validate`. */
  lemma SelfSubscriptionAccepted()
    ensures Validate(7, PyDict(map["author" := 7])).Success?
  {
    ValidateNeverRejects(7, map["author" := 7]);
  }

  /**
   * The evidently intended check: reject when the mapping's `author` is the
   * requesting user. Favorite and Purchase data have no `author` and pass.
   */
  function ValidateAttrs(userId: UserId, attrs: Attrs): (r: Result<Attrs, ApiError>)
    ensures r.Failure? <==> "author" in attrs && attrs["author"] == userId
    ensures r.Failure? ==> r.error == SelfSubscription
    ensures r.Success? ==> r.value == attrs
  {
    if "author" in attrs && attrs["author"] == userId then Failure(SelfSubscription) else Success(attrs)
  }

  /** The corrected check is the written comparison applied to the author's id. */
  lemma ValidateAttrsComparesAuthor(userId: UserId, attrs: Attrs)
    requires "author" in attrs
    ensures ValidateAttrs(userId, attrs).Failure? <==> Validate(userId, PyInt(attrs["author"])).Failure?
  {
  }

  /** Validated data of the Favorite and Purchase serializers always passes the corrected check. */
  lemma ValidateAttrsRecipeKinds(rel: Relation, userId: UserId, payload: Attrs, targets: set<nat>)
    requires rel != Subscriptions && ToInternal(rel, payload, targets).Success?
    ensures ValidateAttrs(userId, ToInternal(rel, payload, targets).value).Success?
  {
    assert "author" != "recipe";
  }

  /**
   * `create`: the data's `user` is set to the requester, overriding any
   * supplied value, and one row is inserted into the serializer's table.
   */
  method Create(db: Database, rel: Relation, requester: UserId, validated: Attrs)
    returns (r: Result<Pair, ApiError>)
    requires db.Valid()
    modifies db`favorites, db`subscriptions, db`purchases
    ensures db.Valid()
    ensures var f := Field(rel);
      r.Success? <==>
        && f in validated && validated.Keys <= {"user", f}
        && Pair(requester, validated[f]) !in old(db.Rows(rel))
        && requester in db.users && validated[f] in db.Targets(rel)
    ensures var f := Field(rel);
      (f in validated && validated.Keys <= {"user", f} && Pair(requester, validated[f]) in old(db.Rows(rel)))
      ==> r == Failure(Integrity(UniqueViolation))
    ensures r.Success? ==>
      && r.value == Pair(requester, validated[Field(rel)])
      && db.Rows(rel) == old(db.Rows(rel)) + [r.value]
    ensures r.Failure? ==> db.Rows(rel) == old(db.Rows(rel))
    ensures forall other :: other != rel ==> db.Rows(other) == old(db.Rows(other))
  {
    var data := validated["user" := requester];
    var f := Field(rel);
    if !(data.Keys <= {"user", f}) {
      var k :| k in data && k !in {"user", f};
      return Failure(UnexpectedField(k));
    }
    if f !in data {
      return Failure(NotNullViolation(f));
    }
    assert f != "user" by { assert f[0] != 'u'; }
    var inserted := db.Insert(rel, Pair(data["user"], data[f]));
    match inserted {
      case Success(p) => r := Success(p);
      case Failure(e) => r := Failure(Integrity(e));
    }
  }

  /**
   * A POST to one of the three endpoints as written: field validation, the
   * `validate` hook applied to the validated mapping (which never rejects),
   * then `create`. Nothing stops a subscription to oneself.
   */
  method SubmitAsWritten(db: Database, rel: Relation, requester: UserId, payload: Attrs)
    returns (r: Result<Pair, ApiError>)
    requires db.Valid()
    modifies db`favorites, db`subscriptions, db`purchases
    ensures db.Valid()
    ensures var f := Field(rel);
      r.Success? <==>
        && f in payload && payload[f] in db.Targets(rel)
        && Pair(requester, payload[f]) !in old(db.Rows(rel))
        && requester in db.users
    ensures r.Success? ==>
      && r.value == Pair(requester, payload[Field(rel)])
      && db.Rows(rel) == old(db.Rows(rel)) + [r.value]
    ensures r.Failure? ==> db.Rows(rel) == old(db.Rows(rel))
    ensures forall other :: other != rel ==> db.Rows(other) == old(db.Rows(other))
  {
    var internal := ToInternal(rel, payload, db.Targets(rel));
    if internal.Failure? {
      return Failure(internal.error);
    }
    var checked := Validate(requester, PyDict(internal.value));
    assert Field(rel) != "user" by { assert Field(rel)[0] != 'u'; }
    r := Create(db, rel, requester, checked.value.attrs);
  }

  /** User 7 posting `{"author": 7}` to the subscription endpoint subscribes to themself. */
  method SelfSubscriptionCreated(db: Database) returns (r: Result<Pair, ApiError>)
    requires db.Valid() && 7 in db.users && Pair(7, 7) !in db.subscriptions
    modifies db`favorites, db`subscriptions, db`purchases
    ensures r == Success(Pair(7, 7))
    ensures db.subscriptions == old(db.subscriptions) + [Pair(7, 7)]
  {
    r := SubmitAsWritten(db, Subscriptions, 7, map["author" := 7]);
  }

  /**
   * The same POST with the corrected self-subscription check in place of
   * `validate`. A subscription created this way is never to oneself.
   */
  method SubmitCorrected(db: Database, rel: Relation, requester: UserId, payload: Attrs)
    returns (r: Result<Pair, ApiError>)
    requires db.Valid()
    modifies db`favorites, db`subscriptions, db`purchases
    ensures db.Valid()
    ensures var f := Field(rel);
      r.Success? <==>
        && f in payload && payload[f] in db.Targets(rel)
        && !(rel == Subscriptions && payload[f] == requester)
        && Pair(requester, payload[f]) !in old(db.Rows(rel))
        && requester in db.users
    ensures r.Success? ==>
      && r.value == Pair(requester, payload[Field(rel)])
      && db.Rows(rel) == old(db.Rows(rel)) + [r.value]
    ensures r.Success? && rel == Subscriptions ==> r.value.target != r.value.user
    ensures r.Failure? ==> db.Rows(rel) == old(db.Rows(rel))
    ensures forall other :: other != rel ==> db.Rows(other) == old(db.Rows(other))
  {
    var internal := ToInternal(rel, payload, db.Targets(rel));
    if internal.Failure? {
      return Failure(internal.error);
    }
    var checked := ValidateAttrs(requester, internal.value);
    if checked.Failure? {
      return Failure(checked.error);
    }
    assert Field(rel) != "user" by { assert Field(rel)[0] != 'u'; }
    r := Create(db, rel, requester, checked.value);
  }
}
