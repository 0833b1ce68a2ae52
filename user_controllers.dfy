/**
 * The two HTTP handlers over the users collection, `getAllUsers` and
 * `createUser` (exported as `addUser`), and the router that maps
 * `GET /` and `POST /` to them.
 */
module UserControllers {
  import opened Wrappers
  import opened UserModel
  import EmailPattern
  import Decimal

  /** A JSON response body. */
  datatype Body =
    | Message(message: string)
    | UsersBody(users: seq<Document>)
    | UserBody(user: Document)
    | NoBody                      // the answer to HEAD: status and headers only

  datatype Response = Response(status: int, body: Body)

  /** The request-body key each schema path is read from. */
  function Key(p: Path): (k: string)
    ensures |k| > 0
  {
    match p
    case Name => "name"
    case Email => "email"
    case Password => "password"
    case PasswordConfirm => "passwordConfirm"
    case MobileNumber => "mobileNumber"
    case VehicleNumber => "vehicleNumber"
    case VehicleType => "vehicleType"
  }

  lemma KeyInjective(p: Path, q: Path)
    requires Key(p) == Key(q)
    ensures p == q
  {
  }

  /** A key of the request body, or `undefined` when the request did not send it. */
  function Field(body: map<string, string>, key: string): (v: Option<string>)
    ensures v.Some? <==> key in body
    ensures v.Some? ==> v.value == body[key]
  {
    if key in body then Some(body[key]) else None
  }

  /** The destructuring of `req.body` into the seven schema fields; any other key is dropped. */
  function FromBody(body: map<string, string>): (doc: Document)
    ensures forall p: Path :: Get(doc, p) == Field(body, Key(p))
  {
    Document(
      Field(body, "name"), Field(body, "email"), Field(body, "password"),
      Field(body, "passwordConfirm"), Field(body, "mobileNumber"),
      Field(body, "vehicleNumber"), Field(body, "vehicleType"))
  }

  /** Keys outside the schema make no difference to the document built. */
  lemma FromBodyIgnoresOtherKeys(body: map<string, string>, k: string, v: string)
    requires forall p: Path :: Key(p) != k
    ensures FromBody(body[k := v]) == FromBody(body)
  {
    assert Key(Name) != k && Key(Email) != k && Key(Password) != k && Key(PasswordConfirm) != k;
    assert Key(MobileNumber) != k && Key(VehicleNumber) != k && Key(VehicleType) != k;
  }

  /** The answer of `getAllUsers` over the stored `users`; `fault` is a failed read. */
  function ListResponse(users: seq<Document>, fault: bool): (resp: Response)
    ensures resp.status == 200 <==> !fault && users != []
    ensures resp.status == 200 ==> resp.body == UsersBody(users)
    ensures resp.status in {200, 404, 500}
  {
    if fault then Response(500, Message("Error fetching users"))
    else if users == [] then Response(404, Message("No users found"))
    else Response(200, UsersBody(users))
  }

  /** The answer of `createUser` for `body` over the stored `users`, before the insert. */
  function CreateResponse(users: seq<Document>, body: map<string, string>, fault: bool): (resp: Response)
    ensures resp.status == 201 <==> SaveOutcome(users, FromBody(body), fault).Success?
    ensures resp.status == 201 ==> resp.body == UserBody(Stripped(FromBody(body)))
    ensures resp.status != 201 ==> resp == Response(500, Message("Error creating user"))
  {
    var saved := SaveOutcome(users, FromBody(body), fault);
    if saved.Failure? then Response(500, Message("Error creating user"))
    else Response(201, UserBody(saved.value))
  }

  /** `getAllUsers`: 500 when the read fails, 404 on an empty collection, 200 with every user otherwise. */
  method GetAllUsers(store: UserStore, fault: bool) returns (resp: Response)
    ensures fault ==> resp == Response(500, Message("Error fetching users"))
    ensures !fault && store.users == [] ==> resp == Response(404, Message("No users found"))
    ensures !fault && store.users != [] ==> resp == Response(200, UsersBody(store.users))
    ensures resp == ListResponse(store.users, fault)
  {
    var users := store.Find(fault);
    if users.Failure? {
      return Response(500, Message("Error fetching users"));
    }
    if |users.value| == 0 {
      return Response(404, Message("No users found"));
    }
    return Response(200, UsersBody(users.value));
  }

  /**
   * `createUser`: build the document from the body and save it. Every
   * failure of the save (validation, the password hook, the database, the
   * unique email) is answered with 500; success with 201 and the stored user.
   */
  method CreateUser(store: UserStore, body: map<string, string>, fault: bool) returns (resp: Response)
    requires store.Valid()
    modifies store
    ensures store.Valid()
    ensures var doc := FromBody(body);
            if Acceptable(doc) && !fault && !EmailTaken(old(store.users), doc.email) then
              resp == Response(201, UserBody(Stripped(doc))) && store.users == old(store.users) + [Stripped(doc)]
            else
              resp == Response(500, Message("Error creating user")) && store.users == old(store.users)
    ensures resp == CreateResponse(old(store.users), body, fault)
  {
    var doc := FromBody(body);
    var user: Option<Document> := None;
    user := Some(doc);
    var saved := store.Save(doc, fault);
    if saved.Failure? {
      return Response(500, Message("Error creating user"));
    }
    // the pre-save hook cleared `passwordConfirm` on this same object
    user := Some(saved.value);
    if user.None? {
      assert false;
      return Response(400, Message("Unable to add user"));
    }
    return Response(201, UserBody(user.value));
  }

  datatype Verb = HttpGet | HttpHead | HttpPost | HttpOther

  /**
   * The router: `GET /` lists, `POST /` creates. Express also runs the GET
   * handler for `HEAD /` and sends its status without the body; any other
   * verb is not handled here.
   */
  method Route(store: UserStore, verb: Verb, body: map<string, string>, fault: bool) returns (resp: Option<Response>)
    requires store.Valid()
    modifies store
    ensures store.Valid()
    ensures verb != HttpPost ==> store.users == old(store.users)
    ensures resp.None? <==> verb == HttpOther
    ensures verb == HttpGet ==> resp == Some(ListResponse(old(store.users), fault))
    ensures verb == HttpHead ==> resp == Some(Response(ListResponse(old(store.users), fault).status, NoBody))
    ensures verb == HttpPost ==> resp == Some(CreateResponse(old(store.users), body, fault))
    ensures verb == HttpPost && resp.value.status == 201 ==> store.users == old(store.users) + [Stripped(FromBody(body))]
    ensures verb == HttpPost && resp.value.status != 201 ==> store.users == old(store.users)
  {
    match verb
    case HttpGet =>
      var r := GetAllUsers(store, fault);
      return Some(r);
    case HttpHead =>
      var r := GetAllUsers(store, fault);
      return Some(Response(r.status, NoBody));
    case HttpPost =>
      var r := CreateUser(store, body, fault);
      return Some(r);
    case HttpOther =>
      return None;
  }

  /** One successful create on an empty collection, then a listing: it holds exactly that user. */
  method CreateThenList(body: map<string, string>) returns (created: Response, listed: Response)
    requires Acceptable(FromBody(body))
    ensures created == Response(201, UserBody(Stripped(FromBody(body))))
    ensures listed == Response(200, UsersBody([Stripped(FromBody(body))]))
  {
    var store := new UserStore();
    created := CreateUser(store, body, false);
    assert store.users == [Stripped(FromBody(body))];
    listed := GetAllUsers(store, false);
  }

  /** The same body posted twice: the second is refused and the collection keeps one record. */
  method CreateTwice(body: map<string, string>) returns (first: Response, second: Response, count: nat)
    requires Acceptable(FromBody(body))
    ensures first.status == 201
    ensures second == Response(500, Message("Error creating user"))
    ensures count == 1
  {
    var store := new UserStore();
    first := CreateUser(store, body, false);
    assert store.users[0].email == FromBody(body).email;
    second := CreateUser(store, body, false);
    count := |store.users|;
  }

  /** The Alice registration. */
  const AliceBody: map<string, string> := map[
    "name" := "Alice", "email" := "alice@example.com", "password" := "p1",
    "passwordConfirm" := "p1", "mobileNumber" := "1234567890",
    "vehicleNumber" := "KA01AB1234", "vehicleType" := "Car"]

  lemma AliceEmail(e: string)
    requires e == "alice@example.com"
    ensures EmailPattern.ValidEmail(e)
  {
    EmailPattern.AcceptsPlainAddress("alice", "example", "com");
    assert "alice" + "@" + "example" + "." + "com" == e;
    EmailPattern.RecognizeCorrect(e);
  }

  lemma AliceMobile(m: string)
    requires m == "1234567890"
    ensures |m| == 10 && forall i | 0 <= i < 10 :: Decimal.IsDigit(m[i])
  {
  }

  /** The Alice registration passes every field rule and the password hook. */
  lemma AliceAcceptable()
    ensures Acceptable(FromBody(AliceBody))
  {
    var doc := FromBody(AliceBody);
    assert doc.email == Some("alice@example.com") && doc.mobileNumber == Some("1234567890");
    AliceEmail(doc.email.value);
    AliceMobile(doc.mobileNumber.value);
    assert KindName(Car) == doc.vehicleType.value;
  }

  /** On an empty, reachable collection the Alice registration is saved with her email. */
  lemma AliceSaved(body: map<string, string>)
    requires body == AliceBody
    ensures SaveOutcome([], FromBody(body), false) == Success(Stripped(FromBody(body)))
  {
    AliceAcceptable();
    SaveOnEmpty(FromBody(body));
  }

  lemma AliceStoredEmail(body: map<string, string>)
    requires body == AliceBody
    ensures Stripped(FromBody(body)).email == Some("alice@example.com")
  {
    assert Field(body, "email") == Some("alice@example.com");
  }

  /** An acceptable document is saved into an empty, reachable collection. */
  lemma SaveOnEmpty(doc: Document)
    requires Acceptable(doc)
    ensures SaveOutcome([], doc, false) == Success(Stripped(doc))
  {
    assert !EmailTaken([], doc.email);
  }

  /** Alice registers once and is accepted; any later registration with her email is refused. */
  method AliceScenario(second: map<string, string>) returns (first: Response, again: Response, count: nat)
    requires "email" in second && second["email"] == "alice@example.com"
    ensures first.status == 201 && first.body.UserBody?
    ensures first.body.user.email == Some("alice@example.com") && first.body.user.passwordConfirm == None
    ensures again == Response(500, Message("Error creating user"))
    ensures count == 1
  {
    AliceSaved(AliceBody);
    AliceStoredEmail(AliceBody);
    var store := new UserStore();
    first := CreateUser(store, AliceBody, false);
    assert store.users == [Stripped(FromBody(AliceBody))];
    assert store.users[0].email == FromBody(second).email;
    DuplicateRefused(store.users, FromBody(second), false, 0);
    again := CreateUser(store, second, false);
    count := |store.users|;
  }
}
