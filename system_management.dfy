/**
 * The administrator's account operations: the defaults a new account receives (createAccount)
 * and the `$set` built for an account update (updateAccount), with the status-change mail
 * (sendMailUserInactive). Database lookups, the clock and the mail transport are replaced by
 * the values they produce.
 */
module SystemManagementService {
  import opened Wrappers
  import opened UserService

  /** `CREATE_USER_DEFAULT.PHONE_CODE`, `.IS_ACTIVE` and `.IS_FIRST_LOGIN`. */
  const DefaultPhoneCode := "+84"
  const DefaultIsActive := false
  const DefaultIsFirstLogin := true

  /** The request body of createAccount. */
  datatype CreateAccountBody = CreateAccountBody(
    firstName: Option<string>,
    lastName: Option<string>,
    email: Option<string>,
    phoneCode: Option<string>,
    phoneNumber: Option<string>,
    role: Option<string>)

  /**
   * createAccount: an email already in use is rejected; the new record copies the body, is
   * inactive and awaits its first login, gets the default phone code when none was given,
   * and records who created it. `emailTaken` is the result of the email lookup and `mailSent`
   * the outcome of the activation mail.
   */
  method CreateAccount(body: CreateAccountBody, emailTaken: bool, actionById: string, mailSent: bool)
    returns (r: Result<UserModel, string>)
    ensures emailTaken ==> r == Failure("This email address has already existed")
    ensures !emailTaken && !mailSent ==> r == Failure("Sent email unsuccessfully")
    ensures r.Success? <==> !emailTaken && mailSent
    ensures r.Success? ==>
      var user := r.value;
      && user.id == None
      && user.firstName == body.firstName && user.lastName == body.lastName
      && user.email == body.email && user.phoneNumber == body.phoneNumber && user.role == body.role
      && user.isActive == Some(false) && user.isFirstLogin == Some(true)
      && user.phoneCode == (if Truthy(body.phoneCode) then body.phoneCode else Some(DefaultPhoneCode))
      && user.createdBy == Some(actionById)
  {
    var user := UserModel(None, body.firstName, body.lastName, body.email, body.phoneCode,
      body.phoneNumber, body.role, None, None, None);
    if emailTaken {
      return Failure("This email address has already existed");
    }
    user := user.(isActive := Some(DefaultIsActive));
    user := user.(isFirstLogin := Some(DefaultIsFirstLogin));
    if !Truthy(user.phoneCode) {
      user := user.(phoneCode := Some(DefaultPhoneCode));
    }
    user := user.(createdBy := Some(actionById));
    if !mailSent {
      return Failure("Sent email unsuccessfully");
    }
    r := Success(user);
  }

  /** The request body of updateAccount: the create body with an optional `isActive`. */
  datatype AdminUpdateAccountBody = AdminUpdateAccountBody(
    firstName: Option<string>,
    lastName: Option<string>,
    email: Option<string>,
    phoneCode: Option<string>,
    phoneNumber: Option<string>,
    role: Option<string>,
    isActive: Option<bool>)

  /**
   * The fields of `toBeUpdated`: each pair when either of its fields changed, `isActive` when it
   * changed, and `email` and `role` whenever the body holds a truthy value, changed or not.
   */
  function AccountChanges(user: UserModel, body: AdminUpdateAccountBody): (changes: UpdateSet)
    ensures changes.Keys <= {FirstName, LastName, PhoneCode, PhoneNumber, IsActive, Email, Role}
    ensures (FirstName in changes <==> LastName in changes)
      && (FirstName in changes <==> user.firstName != body.firstName || user.lastName != body.lastName)
    ensures (PhoneCode in changes <==> PhoneNumber in changes)
      && (PhoneCode in changes <==> user.phoneCode != body.phoneCode || user.phoneNumber != body.phoneNumber)
    ensures IsActive in changes <==> user.isActive != body.isActive
    ensures Email in changes <==> Truthy(body.email)
    ensures Role in changes <==> Truthy(body.role)
    ensures FirstName in changes ==> changes[FirstName] == Text(body.firstName) && changes[LastName] == Text(body.lastName)
    ensures PhoneCode in changes ==> changes[PhoneCode] == Text(body.phoneCode) && changes[PhoneNumber] == Text(body.phoneNumber)
    ensures IsActive in changes ==> changes[IsActive] == Flag(body.isActive)
    ensures Email in changes ==> changes[Email] == Text(body.email)
    ensures Role in changes ==> changes[Role] == Text(body.role)
  {
    WrittenAmong(user, body, AccountFields)
  }

  /** The fields among `fields` that updateAccount writes, with the body's values. */
  function WrittenAmong(user: UserModel, body: AdminUpdateAccountBody, fields: set<Field>): UpdateSet {
    map k | k in fields && Writes(user, body, k) :: NewValue(body, k)
  }

  /** Widening the fields considered by one adds that field exactly when it is written. */
  lemma WrittenAmongInsert(user: UserModel, body: AdminUpdateAccountBody, fields: set<Field>, k: Field)
    ensures WrittenAmong(user, body, fields + {k}) ==
      if Writes(user, body, k) then WrittenAmong(user, body, fields)[k := NewValue(body, k)]
      else WrittenAmong(user, body, fields)
  {
  }

  const AccountFields: set<Field> := {FirstName, LastName, PhoneCode, PhoneNumber, IsActive, Email, Role}

  /** Whether updateAccount writes field `k`. */
  predicate Writes(user: UserModel, body: AdminUpdateAccountBody, k: Field) {
    match k
    case FirstName | LastName => user.firstName != body.firstName || user.lastName != body.lastName
    case PhoneCode | PhoneNumber => user.phoneCode != body.phoneCode || user.phoneNumber != body.phoneNumber
    case IsActive => user.isActive != body.isActive
    case Email => Truthy(body.email)
    case Role => Truthy(body.role)
    case UpdatedOn => false
  }

  /** The body's value for field `k`. */
  function NewValue(body: AdminUpdateAccountBody, k: Field): FieldValue {
    match k
    case FirstName => Text(body.firstName)
    case LastName => Text(body.lastName)
    case PhoneCode => Text(body.phoneCode)
    case PhoneNumber => Text(body.phoneNumber)
    case IsActive => Flag(body.isActive)
    case Email => Text(body.email)
    case Role => Text(body.role)
    case UpdatedOn => Time(0)
  }

  /**
   * Once the changes are stored, the same request asks for nothing but the fields written
   * unconditionally: a truthy email and a truthy role.
   */
  lemma AccountChangesSettle(user: UserModel, body: AdminUpdateAccountBody)
    ensures AccountChanges(ApplyUpdate(user, AccountChanges(user, body)), body).Keys
      == (if Truthy(body.email) then {Email} else {}) + (if Truthy(body.role) then {Role} else {})
  {
  }

  /**
   * sendMailUserInactive: mails the user only when the new status is exactly `false`; a mail
   * that fails throws. The result tells whether a mail went out.
   */
  function SendMailUserInactive(isActive: Option<bool>, mailSent: bool): (r: Result<bool, string>)
    ensures isActive != Some(false) ==> r == Success(false)
    ensures isActive == Some(false) ==> (r.Failure? <==> !mailSent)
    ensures r.Failure? ==> r.error == "Send mail unsuccessfully"
    ensures r.Success? ==> (r.value <==> isActive == Some(false))
  {
    if isActive == Some(false) then
      if mailSent then Success(true) else Failure("Send mail unsuccessfully")
    else Success(false)
  }

  /**
   * updateAccount: returns the `$set` document, which also stamps `updatedOn` with `now`.
   * The account must exist and must have completed its first login; when `isActive` changes
   * to false the status mail is sent first, and its failure aborts the update.
   */
  method UpdateAccount(found: Option<UserModel>, body: AdminUpdateAccountBody, now: int, mailSent: bool)
    returns (r: Result<UpdateSet, string>)
    ensures found.None? ==> r == Failure("no-user-found")
    ensures found.Some? && found.value.isFirstLogin == Some(true) ==>
      r == Failure("Please activate this account before updating information")
    ensures found.Some? && found.value.isFirstLogin != Some(true) ==>
      var user := found.value;
      var mailing := user.isActive != body.isActive && body.isActive == Some(false);
      && (mailing && !mailSent ==> r == Failure("Send mail unsuccessfully"))
      && (!(mailing && !mailSent) ==> r == Success(AccountChanges(user, body)[UpdatedOn := Time(now)]))
  {
    var lookup := FindUser(found);
    if lookup.Failure? {
      return Failure(lookup.error);
    }
    var user := lookup.value;
    if user.isFirstLogin == Some(true) {
      return Failure("Please activate this account before updating information");
    }
    var toBeUpdated: UpdateSet := map[];
    ghost var fields: set<Field> := {};
    WrittenAmongInsert(user, body, fields, FirstName);
    WrittenAmongInsert(user, body, fields + {FirstName}, LastName);
    fields := fields + {FirstName, LastName};
    if user.firstName != body.firstName || user.lastName != body.lastName {
      toBeUpdated := toBeUpdated[FirstName := Text(body.firstName)];
      toBeUpdated := toBeUpdated[LastName := Text(body.lastName)];
    }
    assert toBeUpdated == WrittenAmong(user, body, fields);
    WrittenAmongInsert(user, body, fields, PhoneCode);
    WrittenAmongInsert(user, body, fields + {PhoneCode}, PhoneNumber);
    fields := fields + {PhoneCode, PhoneNumber};
    if user.phoneCode != body.phoneCode || user.phoneNumber != body.phoneNumber {
      toBeUpdated := toBeUpdated[PhoneCode := Text(body.phoneCode)];
      toBeUpdated := toBeUpdated[PhoneNumber := Text(body.phoneNumber)];
    }
    assert toBeUpdated == WrittenAmong(user, body, fields);
    WrittenAmongInsert(user, body, fields, IsActive);
    fields := fields + {IsActive};
    if user.isActive != body.isActive {
      toBeUpdated := toBeUpdated[IsActive := Flag(body.isActive)];
      var mail := SendMailUserInactive(body.isActive, mailSent);
      if mail.Failure? {
        return Failure(mail.error);
      }
    }
    assert toBeUpdated == WrittenAmong(user, body, fields);
    WrittenAmongInsert(user, body, fields, Email);
    fields := fields + {Email};
    if Truthy(body.email) {
      toBeUpdated := toBeUpdated[Email := Text(body.email)];
    }
    WrittenAmongInsert(user, body, fields, Role);
    fields := fields + {Role};
    if Truthy(body.role) {
      toBeUpdated := toBeUpdated[Role := Text(body.role)];
    }
    assert fields == AccountFields;
    r := Success(toBeUpdated[UpdatedOn := Time(now)]);
  }
}
