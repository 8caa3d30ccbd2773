/**
 * `UserByID.patch` writes every key of the request body onto the user with
 * `setattr`, in the body's order (app.py). The `@validates` hooks of the
 * model run on the way: an email is checked and lower-cased, a phone number
 * checked; the first refused value raises and the whole request is rolled
 * back. A password is written as given, without hashing. A key that is not
 * a column sets a plain Python attribute on the object and stores nothing;
 * names of the object's own attributes and methods (`__class__`, `to_dict`,
 * `_sa_instance_state`, ...) are not modelled.
 */
module UserPatch {
  import opened Wrappers
  import opened Validators
  import opened Schema

  datatype UserField = UserName | Email | PasswordField | Role | PhoneNumber

  /** A key of the PATCH body: a column of `users`, or another (plain attribute) name, which is not stored. */
  datatype PatchKey = Column(field: UserField) | Unmapped(name: string)

  /** The JSON key that names a column of `users`. */
  function KeyName(f: UserField): string {
    match f
    case UserName => "user_name"
    case Email => "email"
    case PasswordField => "password"
    case Role => "role"
    case PhoneNumber => "phone_number"
  }

  /**
   * A key of the JSON body: a column exactly when it is one of the five
   * column names, spelled exactly (`"Email"` is not a column).
   */
  function DecodeKey(name: string): (k: PatchKey)
    ensures k.Column? ==> KeyName(k.field) == name
    ensures k.Unmapped? ==> k.name == name && forall f :: KeyName(f) != name
  {
    if name == "user_name" then Column(UserName)
    else if name == "email" then Column(Email)
    else if name == "password" then Column(PasswordField)
    else if name == "role" then Column(Role)
    else if name == "phone_number" then Column(PhoneNumber)
    else Unmapped(name)
  }

  /** Every column name decodes to its column. */
  lemma DecodeKeyName(f: UserField)
    ensures DecodeKey(KeyName(f)) == Column(f)
  {
  }

  /** The body's entries, in order, with their keys decoded. */
  function DecodeBody(body: seq<(string, string)>): (p: seq<(PatchKey, string)>)
    ensures |p| == |body|
    ensures forall i | 0 <= i < |body| :: p[i] == (DecodeKey(body[i].0), body[i].1)
  {
    seq(|body|, i requires 0 <= i < |body| => (DecodeKey(body[i].0), body[i].1))
  }

  /** `setattr(user, key, value)` for one entry of the body. */
  function SetField(u: User, key: PatchKey, value: string): (r: Result<User, ValidationError>)
    ensures r.Failure? <==> Refused((key, value))
    ensures key.Unmapped? ==> r == Success(u)
  {
    match key
    case Unmapped(_) => Success(u)
    case Column(UserName) => Success(u.(userName := value))
    case Column(Email) =>
      (match ValidateEmail(value)
       case Success(e) => Success(u.(email := e))
       case Failure(err) => Failure(err))
    case Column(PasswordField) => Success(u.(password := Raw(value)))
    case Column(Role) => Success(u.(role := value))
    case Column(PhoneNumber) =>
      if ValidatePhone(Some(value)).Success? then Success(u.(phoneNumber := value)) else Failure(InvalidPhoneNumber)
  }

  /** An entry whose value a validator refuses. */
  predicate Refused(entry: (PatchKey, string)) {
    || (entry.0 == Column(Email) && !EmailPattern(entry.1))
    || (entry.0 == Column(PhoneNumber) && ValidatePhone(Some(entry.1)).Failure?)
  }

  /** The `setattr` loop over the body's entries, as a function of the entries seen so far. */
  function ApplyPatch(u: User, body: seq<(PatchKey, string)>): (r: Result<User, ValidationError>)
    ensures (forall i | 0 <= i < |body| :: body[i].0.Unmapped?) ==> r == Success(u)
  {
    if body == [] then Success(u)
    else
      match ApplyPatch(u, body[..|body| - 1])
      case Failure(e) => Failure(e)
      case Success(v) => SetField(v, body[|body| - 1].0, body[|body| - 1].1)
  }

  /** The value of the last entry for column `f`: the one `setattr` leaves in place. */
  function LastValue(body: seq<(PatchKey, string)>, f: UserField): (r: Option<string>)
    ensures r.Some? <==> exists i | 0 <= i < |body| :: body[i].0 == Column(f)
    ensures r.Some? ==> exists i | 0 <= i < |body| :: body[i] == (Column(f), r.value) && forall j | i < j < |body| :: body[j].0 != Column(f)
  {
    if body == [] then None
    else if body[|body| - 1].0 == Column(f) then Some(body[|body| - 1].1)
    else
      var r := LastValue(body[..|body| - 1], f);
      assert forall i | 0 <= i < |body| - 1 :: body[..|body| - 1][i] == body[i];
      r
  }

  /**
   * A patch fails (and is rolled back) exactly when one of its entries is an
   * email the pattern refuses or a phone number of the wrong length.
   */
  lemma {:induction false} PatchFailsIff(u: User, body: seq<(PatchKey, string)>)
    ensures ApplyPatch(u, body).Failure? <==> exists i | 0 <= i < |body| :: Refused(body[i])
  {
    if body != [] {
      var n := |body| - 1;
      var init := body[..n];
      PatchFailsIff(u, init);
      assert forall i | 0 <= i < n :: init[i] == body[i];
      match ApplyPatch(u, init)
      case Failure(_) =>
      case Success(v) =>
    }
  }

  /**
   * A successful patch overwrites exactly the columns the body names, each
   * with the value of its last entry (an email lower-cased, a password
   * unhashed), and keeps every other column.
   */
  lemma {:induction false} PatchOverwrites(u: User, body: seq<(PatchKey, string)>)
    requires ApplyPatch(u, body).Success?
    ensures var v := ApplyPatch(u, body).value;
            && v.userName == LastValue(body, UserName).GetOr(u.userName)
            && v.email == (if LastValue(body, Email).Some? then Lower(LastValue(body, Email).value) else u.email)
            && v.password == (if LastValue(body, PasswordField).Some? then Raw(LastValue(body, PasswordField).value) else u.password)
            && v.role == LastValue(body, Role).GetOr(u.role)
            && v.phoneNumber == LastValue(body, PhoneNumber).GetOr(u.phoneNumber)
  {
    if body != [] {
      var n := |body| - 1;
      var init := body[..n];
      assert ApplyPatch(u, init).Success?;
      PatchOverwrites(u, init);
    }
  }

  /**
   * After a patch that sets a password, the stored password is not a bcrypt
   * hash, so every later password check on that user raises.
   */
  lemma PatchedPasswordUnusable(u: User, body: seq<(PatchKey, string)>, attempt: string)
    requires ApplyPatch(u, body).Success?
    requires exists i | 0 <= i < |body| :: body[i].0 == Column(PasswordField)
    ensures CheckPassword(ApplyPatch(u, body).value.password, attempt).None?
  {
    PatchOverwrites(u, body);
  }
}
