/**
 * The user schema (field rules and the pre-save password hook) and the
 * `users` collection it writes to.
 */
module UserModel {
  import opened Wrappers
  import EmailPattern
  import Decimal

  /**
   * A user document as the schema sees it. A field is `None` when the
   * request supplied no value for it (JavaScript `undefined`).
   */
  datatype Document = Document(
    name: Option<string>,
    email: Option<string>,
    password: Option<string>,
    passwordConfirm: Option<string>,
    mobileNumber: Option<string>,
    vehicleNumber: Option<string>,
    vehicleType: Option<string>)

  /** The schema's paths. */
  datatype Path = Name | Email | Password | PasswordConfirm | MobileNumber | VehicleNumber | VehicleType

  const Paths: seq<Path> := [Name, Email, Password, PasswordConfirm, MobileNumber, VehicleNumber, VehicleType]

  function Get(doc: Document, p: Path): Option<string> {
    match p
    case Name => doc.name
    case Email => doc.email
    case Password => doc.password
    case PasswordConfirm => doc.passwordConfirm
    case MobileNumber => doc.mobileNumber
    case VehicleNumber => doc.vehicleNumber
    case VehicleType => doc.vehicleType
  }

  // ---------------------------------------------------------------------
  // Field rules
  // ---------------------------------------------------------------------

  /** The values of the `vehicleType` enumeration. */
  datatype VehicleKind = Car | Bike | Truck | Bus | Other

  function KindName(k: VehicleKind): string {
    match k
    case Car => "Car"
    case Bike => "Bike"
    case Truck => "Truck"
    case Bus => "Bus"
    case Other => "Other"
  }

  /** The enumeration check: an exact, case-sensitive comparison against each name. */
  function ParseVehicleKind(s: string): (r: Option<VehicleKind>)
    ensures r.Some? ==> KindName(r.value) == s
    ensures r.None? ==> forall k: VehicleKind :: KindName(k) != s
  {
    if s == "Car" then Some(Car)
    else if s == "Bike" then Some(Bike)
    else if s == "Truck" then Some(Truck)
    else if s == "Bus" then Some(Bus)
    else if s == "Other" then Some(Other)
    else None
  }

  lemma ParseKindName(k: VehicleKind)
    ensures ParseVehicleKind(KindName(k)) == Some(k)
  {
  }

  /** The five names the enumeration accepts. */
  lemma VehicleNames(s: string)
    ensures ParseVehicleKind(s).Some? <==> s in ["Car", "Bike", "Truck", "Bus", "Other"]
  {
  }

  lemma VehicleKindCaseSensitive()
    ensures ParseVehicleKind("car") == None && ParseVehicleKind("BUS") == None
  {
  }

  function CountDigits(s: string): (n: nat)
    ensures n <= |s|
    ensures n == |s| <==> forall i | 0 <= i < |s| :: Decimal.IsDigit(s[i])
  {
    if s == [] then 0
    else if Decimal.IsDigit(s[|s| - 1]) then CountDigits(s[..|s| - 1]) + 1
    else CountDigits(s[..|s| - 1])
  }

  /** The mobile number pattern `^\d{10}$`. */
  predicate IsMobileNumber(s: string): (ok: bool)
    ensures ok <==> |s| == 10 && forall i | 0 <= i < |s| :: Decimal.IsDigit(s[i])
  {
    |s| == 10 && CountDigits(s) == 10
  }

  /** The per-path `match` and `enum` rules; paths without one accept any string. */
  predicate MatchesRule(p: Path, s: string) {
    match p
    case Email => EmailPattern.Recognize(s)
    case MobileNumber => IsMobileNumber(s)
    case VehicleType => ParseVehicleKind(s).Some?
    case _ => true
  }

  /** A `required` string path holds a value that is not the empty string. */
  predicate Present(v: Option<string>) {
    v.Some? && |v.value| > 0
  }

  predicate PathValid(doc: Document, p: Path) {
    Present(Get(doc, p)) && MatchesRule(p, Get(doc, p).value)
  }

  /** The paths that fail validation; validation reports all of them at once. */
  function ValidationErrors(doc: Document): (errs: set<Path>)
    ensures Email !in errs <==> Present(doc.email) && EmailPattern.ValidEmail(doc.email.value)
    ensures MobileNumber !in errs <==>
              doc.mobileNumber.Some? && |doc.mobileNumber.value| == 10 &&
              forall i | 0 <= i < 10 :: Decimal.IsDigit(doc.mobileNumber.value[i])
    ensures VehicleType !in errs <==>
              doc.vehicleType.Some? && doc.vehicleType.value in ["Car", "Bike", "Truck", "Bus", "Other"]
    ensures forall p | p in errs :: p in Paths
    ensures forall p | p in [Name, Password, PasswordConfirm, VehicleNumber] :: p !in errs <==> Present(Get(doc, p))
  {
    EmailPattern.RecognizeCorrect(doc.email.GetOr(""));
    VehicleNames(doc.vehicleType.GetOr(""));
    set p | p in Paths && !PathValid(doc, p)
  }

  /**
   * What the schema and the pre-save hook accept, stated without the
   * recognizers: every path present and non-empty, the email of the pattern's
   * shape, ten ASCII digits, one of the five vehicle types, and the two
   * passwords equal.
   */
  ghost predicate Acceptable(doc: Document) {
    && Present(doc.name) && Present(doc.email) && Present(doc.password) && Present(doc.passwordConfirm)
    && Present(doc.mobileNumber) && Present(doc.vehicleNumber) && Present(doc.vehicleType)
    && EmailPattern.ValidEmail(doc.email.value)
    && |doc.mobileNumber.value| == 10
    && (forall i | 0 <= i < 10 :: Decimal.IsDigit(doc.mobileNumber.value[i]))
    && (exists k: VehicleKind :: KindName(k) == doc.vehicleType.value)
    && doc.password == doc.passwordConfirm
  }

  // ---------------------------------------------------------------------
  // The collection
  // ---------------------------------------------------------------------

  datatype SaveError =
    | ValidationFailed(paths: set<Path>)   // one or more field rules failed
    | PasswordMismatch                     // thrown by the pre-save hook
    | StoreUnavailable                     // the database could not be reached
    | DuplicateEmail                       // the unique index on `email` refused the insert

  /** Some stored document already carries this email. */
  predicate EmailTaken(users: seq<Document>, email: Option<string>) {
    exists i | 0 <= i < |users| :: users[i].email == email
  }

  ghost predicate UniqueEmails(users: seq<Document>) {
    forall i, j | 0 <= i < j < |users| :: users[i].email != users[j].email
  }

  /** The document as the hook leaves it: `passwordConfirm` cleared, nothing else touched. */
  function Stripped(doc: Document): (r: Document)
    ensures r.passwordConfirm == None
    ensures forall p | p in Paths && p != PasswordConfirm :: Get(r, p) == Get(doc, p)
  {
    doc.(passwordConfirm := None)
  }

  /**
   * The outcome of `save` on `doc` against the stored `users`: validation,
   * then the pre-save hook, then the insert. `fault` stands for the
   * database being unreachable.
   */
  function SaveOutcome(users: seq<Document>, doc: Document, fault: bool): (r: Result<Document, SaveError>)
    ensures r.Success? <==> Acceptable(doc) && !fault && !EmailTaken(users, doc.email)
    ensures r.Success? ==> r.value == Stripped(doc)
    ensures doc.password != doc.passwordConfirm ==> r.Failure?
    ensures r.Failure? && r.error.ValidationFailed? ==> r.error.paths != {}
  {
    var errs := ValidationErrors(doc);
    AcceptableIffNoErrors(doc);
    if errs != {} then Failure(ValidationFailed(errs))
    else if doc.password != doc.passwordConfirm then Failure(PasswordMismatch)
    else if fault then Failure(StoreUnavailable)
    else if EmailTaken(users, doc.email) then Failure(DuplicateEmail)
    else Success(Stripped(doc))
  }

  lemma AcceptableIffNoErrors(doc: Document)
    ensures Acceptable(doc) <==> ValidationErrors(doc) == {} && doc.password == doc.passwordConfirm
  {
    if ValidationErrors(doc) == {} && doc.password == doc.passwordConfirm {
      NoErrorsAcceptable(doc);
    }
    if Acceptable(doc) {
      AcceptableNoErrors(doc);
    }
  }

  lemma NoErrorsAcceptable(doc: Document)
    requires ValidationErrors(doc) == {} && doc.password == doc.passwordConfirm
    ensures Acceptable(doc)
  {
    var errs := ValidationErrors(doc);
    assert Name !in errs && Email !in errs && Password !in errs && PasswordConfirm !in errs;
    assert MobileNumber !in errs && VehicleNumber !in errs && VehicleType !in errs;
    assert PathValid(doc, Name) && PathValid(doc, Email) && PathValid(doc, Password);
    assert PathValid(doc, PasswordConfirm) && PathValid(doc, MobileNumber);
    assert PathValid(doc, VehicleNumber) && PathValid(doc, VehicleType);
    EmailPattern.RecognizeCorrect(doc.email.value);
    var v := doc.vehicleType.value;
    assert KindName(ParseVehicleKind(v).value) == v;
  }

  lemma AcceptableNoErrors(doc: Document)
    requires Acceptable(doc)
    ensures ValidationErrors(doc) == {}
  {
    var errs := ValidationErrors(doc);
    forall p: Path ensures PathValid(doc, p) {
      match p
      case Email =>
        EmailPattern.RecognizeCorrect(doc.email.value);
      case MobileNumber =>
        assert CountDigits(doc.mobileNumber.value) == 10;
      case VehicleType =>
        var k: VehicleKind :| KindName(k) == doc.vehicleType.value;
        ParseKindName(k);
      case _ =>
    }
    assert errs == {};
  }

  /** A stored document: no `passwordConfirm`, and an email. */
  ghost predicate Stored(u: Document) {
    u.passwordConfirm.None? && u.email.Some?
  }

  /** A successful save keeps the collection's emails unique. */
  lemma SaveKeepsUnique(users: seq<Document>, doc: Document, fault: bool)
    requires UniqueEmails(users)
    requires SaveOutcome(users, doc, fault).Success?
    ensures UniqueEmails(users + [SaveOutcome(users, doc, fault).value])
  {
    var u := SaveOutcome(users, doc, fault).value;
    var t := users + [u];
    forall i, j | 0 <= i < j < |t| ensures t[i].email != t[j].email {
      if j == |users| {
        assert t[i] == users[i];
      }
    }
  }

  /** A duplicate email is refused whatever else the document holds. */
  lemma DuplicateRefused(users: seq<Document>, doc: Document, fault: bool, k: nat)
    requires k < |users| && users[k].email == doc.email
    ensures SaveOutcome(users, doc, fault).Failure?
  {
  }

  /** The users collection. */
  class UserStore {
    var users: seq<Document>

    ghost predicate Valid()
      reads this
    {
      UniqueEmails(users) && forall i | 0 <= i < |users| :: Stored(users[i])
    }

    constructor ()
      ensures Valid() && users == []
    {
      users := [];
    }

    /** `User.find()`: every stored document, or a fault. */
    method Find(fault: bool) returns (r: Result<seq<Document>, SaveError>)
      ensures fault ==> r == Failure(StoreUnavailable)
      ensures !fault ==> r == Success(users)
    {
      if fault {
        return Failure(StoreUnavailable);
      }
      return Success(users);
    }

    /** `user.save()`: validate, run the pre-save hook, insert. All or nothing. */
    method Save(doc: Document, fault: bool) returns (r: Result<Document, SaveError>)
      requires Valid()
      modifies this
      ensures Valid()
      ensures r == SaveOutcome(old(users), doc, fault)
      ensures r.Success? ==> users == old(users) + [r.value]
      ensures r.Failure? ==> users == old(users)
    {
      var errs := ValidationErrors(doc);
      if errs != {} {
        return Failure(ValidationFailed(errs));
      }
      // the pre-save hook
      if doc.password != doc.passwordConfirm {
        return Failure(PasswordMismatch);
      }
      var saving := Stripped(doc);
      // the insert, refused by the unique index on a duplicate email
      if fault {
        return Failure(StoreUnavailable);
      }
      if EmailTaken(users, saving.email) {
        return Failure(DuplicateEmail);
      }
      SaveKeepsUnique(users, doc, fault);
      users := users + [saving];
      r := Success(saving);
    }
  }
}
