/**
 * The user service: the lookup-or-throw of a user record (findUser), the field-by-field
 * build of a profile update (updateProfile), and the check of what the database reports
 * after an update (updateProfile, changePassword). The database calls are replaced by the
 * values they return.
 */
module UserService {
  import opened Wrappers

  /** The fields of a stored user record that the modelled code reads or writes. */
  datatype UserModel = UserModel(
    id: Option<string>,
    firstName: Option<string>,
    lastName: Option<string>,
    email: Option<string>,
    phoneCode: Option<string>,
    phoneNumber: Option<string>,
    role: Option<string>,
    isActive: Option<bool>,
    isFirstLogin: Option<bool>,
    createdBy: Option<string>)

  /** A value written by a `$set`: a text field, a flag, or a timestamp. */
  datatype FieldValue = Text(text: Option<string>) | Flag(flag: Option<bool>) | Time(at: int)

  /** The fields of a user record that a `$set` of the modelled code can name. */
  datatype Field = FirstName | LastName | PhoneCode | PhoneNumber | IsActive | Email | Role | UpdatedOn

  /** The document of a `$set`, by field. */
  type UpdateSet = map<Field, FieldValue>

  /** What the database reports after `updateOne`. */
  datatype UpdateResult = UpdateResult(acknowledged: bool, modifiedCount: int)

  /** JavaScript truthiness of an optional string: present and not empty. */
  predicate Truthy(s: Option<string>) {
    s.Some? && s.value != ""
  }

  /** findUser: a lookup that found nothing throws; otherwise the record is returned as found. */
  function FindUser(found: Option<UserModel>): (r: Result<UserModel, string>)
    ensures r.Failure? <==> found.None?
    ensures r.Failure? ==> r.error == "no-user-found"
    ensures r.Success? ==> r.value == found.value
  {
    match found
    case None => Failure("no-user-found")
    case Some(user) => Success(user)
  }

  /** The update did not take: not acknowledged, or no document modified. */
  predicate UpdateFailed(result: UpdateResult) {
    !result.acknowledged || result.modifiedCount == 0
  }

  /**
   * The two fields of a pair (first and last name, phone code and number) are written
   * together, with the request's values, as soon as either differs from the stored value.
   */
  function PairUpdate(keyA: Field, keyB: Field, storedA: Option<string>, storedB: Option<string>,
                      newA: Option<string>, newB: Option<string>): (r: UpdateSet)
    requires keyA != keyB
    ensures r.Keys == {} || r.Keys == {keyA, keyB}
    ensures keyA in r <==> storedA != newA || storedB != newB
    ensures keyA in r ==> r[keyA] == Text(newA) && r[keyB] == Text(newB)
  {
    if storedA != newA || storedB != newB then map[keyA := Text(newA), keyB := Text(newB)] else map[]
  }

  /** The text in `update` under `key`, or `current` when the update does not write that text field. */
  function TextOr(update: UpdateSet, key: Field, current: Option<string>): Option<string> {
    if key in update && update[key].Text? then update[key].text else current
  }

  /** The flag in `update` under `key`, or `current` when the update does not write that flag. */
  function FlagOr(update: UpdateSet, key: Field, current: Option<bool>): Option<bool> {
    if key in update && update[key].Flag? then update[key].flag else current
  }

  /** The stored record after the database applies a `$set`. */
  function ApplyUpdate(user: UserModel, update: UpdateSet): (r: UserModel)
    ensures update == map[] ==> r == user
    ensures r.id == user.id && r.isFirstLogin == user.isFirstLogin && r.createdBy == user.createdBy
    ensures FirstName in update && update[FirstName].Text? ==> r.firstName == update[FirstName].text
    ensures IsActive in update && update[IsActive].Flag? ==> r.isActive == update[IsActive].flag
  {
    user.(
      firstName := TextOr(update, FirstName, user.firstName),
      lastName := TextOr(update, LastName, user.lastName),
      email := TextOr(update, Email, user.email),
      phoneCode := TextOr(update, PhoneCode, user.phoneCode),
      phoneNumber := TextOr(update, PhoneNumber, user.phoneNumber),
      role := TextOr(update, Role, user.role),
      isActive := FlagOr(update, IsActive, user.isActive))
  }

  // ---------------------------------------------------------------------------
  // updateProfile
  // ---------------------------------------------------------------------------

  /** The fields of the profile request that the code destructures. */
  datatype UpdateProfileBody = UpdateProfileBody(
    firstName: Option<string>,
    lastName: Option<string>,
    phoneCode: Option<string>,
    phoneNumber: Option<string>)

  /**
   * The `data` document of updateProfile: the name pair when either name changed, the phone
   * pair when either phone field changed, and nothing else.
   */
  function ProfileChanges(user: UserModel, body: UpdateProfileBody): (data: UpdateSet)
    ensures data.Keys <= {FirstName, LastName, PhoneCode, PhoneNumber}
    ensures (FirstName in data <==> LastName in data)
      && (FirstName in data <==> user.firstName != body.firstName || user.lastName != body.lastName)
    ensures (PhoneCode in data <==> PhoneNumber in data)
      && (PhoneCode in data <==> user.phoneCode != body.phoneCode || user.phoneNumber != body.phoneNumber)
    ensures FirstName in data ==> data[FirstName] == Text(body.firstName) && data[LastName] == Text(body.lastName)
    ensures PhoneCode in data ==> data[PhoneCode] == Text(body.phoneCode) && data[PhoneNumber] == Text(body.phoneNumber)
  {
    PairUpdate(FirstName, LastName, user.firstName, user.lastName, body.firstName, body.lastName)
      + PairUpdate(PhoneCode, PhoneNumber, user.phoneCode, user.phoneNumber, body.phoneCode, body.phoneNumber)
  }

  /** Once the changes are stored, the same request asks for nothing more. */
  lemma ProfileChangesSettle(user: UserModel, body: UpdateProfileBody)
    ensures ProfileChanges(ApplyUpdate(user, ProfileChanges(user, body)), body) == map[]
  {
  }

  /**
   * updateProfile: returns the message and the `data` document sent to the database; the
   * uploaded file is ignored, and `result` is what the database reports for the update.
   */
  method UpdateProfile(found: Option<UserModel>, body: UpdateProfileBody, result: UpdateResult)
    returns (r: Result<string, string>, data: UpdateSet)
    ensures found.None? ==> r == Failure("no-user-found") && data == map[]
    ensures found.Some? ==> data == ProfileChanges(found.value, body)
    ensures found.Some? && UpdateFailed(result) ==> r == Failure("update-profile-fail")
    ensures found.Some? && !UpdateFailed(result) ==> r == Success("update-profile-success")
  {
    data := map[];
    var lookup := FindUser(found);
    if lookup.Failure? {
      return Failure(lookup.error), data;
    }
    var user := lookup.value;
    if user.firstName != body.firstName || user.lastName != body.lastName {
      data := data[FirstName := Text(body.firstName)];
      data := data[LastName := Text(body.lastName)];
    }
    if user.phoneCode != body.phoneCode || user.phoneNumber != body.phoneNumber {
      data := data[PhoneCode := Text(body.phoneCode)];
      data := data[PhoneNumber := Text(body.phoneNumber)];
    }
    if !result.acknowledged || result.modifiedCount == 0 {
      return Failure("update-profile-fail"), data;
    }
    r := Success("update-profile-success");
  }

  // ---------------------------------------------------------------------------
  // changePassword
  // ---------------------------------------------------------------------------

  /**
   * changePassword. Whether the new password hashes to the stored hash is decided by bcrypt
   * and is an input here, as is what the database reports for the update.
   */
  function ChangePassword(found: Option<UserModel>, sameAsCurrent: bool, result: UpdateResult): (r: Result<string, string>)
    ensures found.None? ==> r == Failure("no-user-found")
    ensures found.Some? && sameAsCurrent ==>
      r == Failure("Please enter a new password that is different from your current password.")
    ensures found.Some? && !sameAsCurrent ==>
      (r.Failure? <==> UpdateFailed(result))
      && (r.Failure? ==> r.error == "change-password-fail")
      && (r.Success? ==> r.value == "change-password-success")
  {
    if found.None? then Failure("no-user-found")
    else if sameAsCurrent then Failure("Please enter a new password that is different from your current password.")
    else if !result.acknowledged || result.modifiedCount == 0 then Failure("change-password-fail")
    else Success("change-password-success")
  }
}
