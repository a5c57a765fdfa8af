/**
 * The decision logic of `POST /users` and `PUT /users/:id` in
 * backend/server.js: an ordered chain of field checks whose first failure is
 * the reply, then one stored-procedure call whose outcome picks the reply.
 */
module Users {
  import opened JsText
  import opened Options
  import opened Validation

  /**
   * The request body of both handlers. Its six fields, in this order, are
   * also the six arguments of `add_user`. The update handler reads only the
   * names, the contact and the address.
   */
  datatype UserForm = UserForm(
    firstName: JsString, lastName: JsString, contact: JsString,
    email: JsString, address: JsString, password: JsString)

  /** The arguments of `update_user_details`, in order: the id from the URL, the names, contact, address. */
  datatype UpdateCall = UpdateCall(
    id: JsString, firstName: JsString, lastName: JsString, contact: JsString, address: JsString)

  /** The plain-text bodies of the two handlers; `res.send` gives each status 200. */
  datatype TextReply =
    | NameRejected
    | ContactRejected
    | EmailRejected
    | PasswordRejected
    | UserAdded
    | EmailAlreadyExists
    | UserUpdated
  {
    function Text(): string {
      match this
      case NameRejected => "Name too long"
      case ContactRejected => "Contact number must be exactly 10 digits"
      case EmailRejected => "Email must be a valid @gmail.com address"
      case PasswordRejected => "Password must be 8\U{2013}12 chars with upper, lower, number & special (# $ & @)"
      case UserAdded => "User Added"
      case EmailAlreadyExists => "Email already exists"
      case UserUpdated => "User Updated"
    }
  }

  /**
   * What the handler does with the response: it sends one of its texts, or
   * it sends nothing because a rejected database call escapes it (the update
   * handler has no catch, and what the client then sees is up to Express).
   */
  datatype Reply = Sent(text: TextReply) | Unanswered

  /** What one handler did: the stored procedure it called, if any, and what it replied. */
  datatype Handled<C> = Handled(call: Option<C>, reply: Reply)

  /** How a stored-procedure call ended: it returned, or it threw (a unique violation or anything else). */
  datatype StoreOutcome = Stored | StoreFailed(error: string)

  /** The field checks, and the reply each sends when it fails. */
  datatype Check = NameLength | ContactDigits | EmailFormat | PasswordStrength

  predicate Passes(c: Check, form: UserForm) {
    match c
    case NameLength => !NameTooLong(form.firstName, form.lastName)
    case ContactDigits => ValidContact(form.contact)
    case EmailFormat => ValidEmail(form.email)
    case PasswordStrength => ValidPassword(form.password)
  }

  function Rejection(c: Check): TextReply {
    match c
    case NameLength => NameRejected
    case ContactDigits => ContactRejected
    case EmailFormat => EmailRejected
    case PasswordStrength => PasswordRejected
  }

  /** The order in which the create handler checks. */
  const CreateChecks: seq<Check> := [NameLength, ContactDigits, EmailFormat, PasswordStrength]
  /** The order in which the update handler checks. */
  const UpdateChecks: seq<Check> := [NameLength, ContactDigits]

  /** The first check of the list that the form fails, if any. */
  function FirstFailure(checks: seq<Check>, form: UserForm): (r: Option<Check>)
    ensures r.None? <==> forall i :: 0 <= i < |checks| ==> Passes(checks[i], form)
    ensures r.Some? ==> exists i ::
      0 <= i < |checks| && checks[i] == r.value && !Passes(checks[i], form) &&
      forall j :: 0 <= j < i ==> Passes(checks[j], form)
  {
    if checks == [] then None
    else if !Passes(checks[0], form) then Some(checks[0])
    else FirstFailure(checks[1..], form)
  }

  /** The create checks, one after the other. */
  lemma CreateChecksUnfold(form: UserForm)
    ensures FirstFailure(CreateChecks, form) ==
      if !Passes(NameLength, form) then Some(NameLength)
      else if !Passes(ContactDigits, form) then Some(ContactDigits)
      else if !Passes(EmailFormat, form) then Some(EmailFormat)
      else if !Passes(PasswordStrength, form) then Some(PasswordStrength)
      else None
  {
    var c := CreateChecks;
    assert c[1..] == [ContactDigits, EmailFormat, PasswordStrength];
    assert c[1..][1..] == [EmailFormat, PasswordStrength];
    assert c[1..][1..][1..] == [PasswordStrength];
    assert c[1..][1..][1..][1..] == [];
    assert FirstFailure(c[1..][1..][1..], form) ==
      if !Passes(PasswordStrength, form) then Some(PasswordStrength) else None;
    assert FirstFailure(c[1..][1..], form) ==
      if !Passes(EmailFormat, form) then Some(EmailFormat) else FirstFailure(c[1..][1..][1..], form);
    assert FirstFailure(c[1..], form) ==
      if !Passes(ContactDigits, form) then Some(ContactDigits) else FirstFailure(c[1..][1..], form);
  }

  /** The update checks, one after the other. */
  lemma UpdateChecksUnfold(form: UserForm)
    ensures FirstFailure(UpdateChecks, form) ==
      if !Passes(NameLength, form) then Some(NameLength)
      else if !Passes(ContactDigits, form) then Some(ContactDigits)
      else None
  {
    assert UpdateChecks[1..] == [ContactDigits];
  }

  /** `POST /users`; `addUser` is what the database answers to the `add_user` call. */
  function CreateUser(form: UserForm, addUser: UserForm -> StoreOutcome): (r: Handled<UserForm>)
    ensures FirstFailure(CreateChecks, form).Some? ==>
      r == Handled(None, Sent(Rejection(FirstFailure(CreateChecks, form).value)))
    ensures FirstFailure(CreateChecks, form).None? ==>
      r.call == Some(form) &&
      r.reply == Sent(if addUser(form).Stored? then UserAdded else EmailAlreadyExists)
  {
    CreateChecksUnfold(form);
    if NameTooLong(form.firstName, form.lastName) then Handled(None, Sent(NameRejected))
    else if !ValidContact(form.contact) then Handled(None, Sent(ContactRejected))
    else if !ValidEmail(form.email) then Handled(None, Sent(EmailRejected))
    else if !ValidPassword(form.password) then Handled(None, Sent(PasswordRejected))
    else
      var reply := match addUser(form)
        case Stored => UserAdded
        case StoreFailed(_) => EmailAlreadyExists;
      Handled(Some(form), Sent(reply))
  }

  /** The `update_user_details` call for a body: the id from the URL, then the names, contact and address. */
  function DetailsCall(id: JsString, form: UserForm): UpdateCall {
    UpdateCall(id, form.firstName, form.lastName, form.contact, form.address)
  }

  /**
   * `PUT /users/:id`: only the names and the contact are checked;
   * `updateDetails` is what the database answers to `update_user_details`.
   */
  function UpdateUser(id: JsString, form: UserForm, updateDetails: UpdateCall -> StoreOutcome): (r: Handled<UpdateCall>)
    ensures FirstFailure(UpdateChecks, form).Some? ==>
      r == Handled(None, Sent(Rejection(FirstFailure(UpdateChecks, form).value)))
    ensures FirstFailure(UpdateChecks, form).None? ==> r.call == Some(DetailsCall(id, form))
    ensures r.reply == Sent(UserUpdated) <==>
      FirstFailure(UpdateChecks, form).None? && updateDetails(DetailsCall(id, form)).Stored?
    ensures r.reply.Unanswered? <==>
      FirstFailure(UpdateChecks, form).None? && updateDetails(DetailsCall(id, form)).StoreFailed?
  {
    UpdateChecksUnfold(form);
    if NameTooLong(form.firstName, form.lastName) then Handled(None, Sent(NameRejected))
    else if !ValidContact(form.contact) then Handled(None, Sent(ContactRejected))
    else
      var call := DetailsCall(id, form);
      var reply := match updateDetails(call)
        case Stored => Sent(UserUpdated)
        case StoreFailed(_) => Unanswered;
      Handled(Some(call), reply)
  }

  /** Checking a list a + b: b is consulted only when every check of a passes. */
  lemma {:induction false} FirstFailureAppend(a: seq<Check>, b: seq<Check>, form: UserForm)
    ensures FirstFailure(a + b, form) ==
      if FirstFailure(a, form).Some? then FirstFailure(a, form) else FirstFailure(b, form)
  {
    if a == [] {
      assert a + b == b;
    } else {
      assert (a + b)[0] == a[0];
      assert (a + b)[1..] == a[1..] + b;
      FirstFailureAppend(a[1..], b, form);
    }
  }

  /**
   * The update checks are the first two create checks: the update handler
   * rejects a form exactly when the create handler rejects it for its names
   * or its contact, and then with the same reply.
   */
  lemma CreateAndUpdateShareChecks(id: JsString, form: UserForm,
                                   addUser: UserForm -> StoreOutcome, updateDetails: UpdateCall -> StoreOutcome)
    ensures UpdateUser(id, form, updateDetails).call.None? <==>
      CreateUser(form, addUser).reply == Sent(NameRejected) || CreateUser(form, addUser).reply == Sent(ContactRejected)
    ensures UpdateUser(id, form, updateDetails).call.None? ==>
      UpdateUser(id, form, updateDetails).reply == CreateUser(form, addUser).reply
  {
    assert CreateChecks == UpdateChecks + [EmailFormat, PasswordStrength];
    FirstFailureAppend(UpdateChecks, [EmailFormat, PasswordStrength], form);
    assert [EmailFormat, PasswordStrength][1..] == [PasswordStrength];
  }

  /** The reply of the create handler depends on the store only through whether `add_user(form)` returned. */
  lemma CreateUsesOnlyStoreSuccess(form: UserForm, addUser1: UserForm -> StoreOutcome, addUser2: UserForm -> StoreOutcome)
    requires FirstFailure(CreateChecks, form).Some? || addUser1(form).Stored? == addUser2(form).Stored?
    ensures CreateUser(form, addUser1) == CreateUser(form, addUser2)
  {
  }

  /** Likewise, the update handler depends on the store only through whether `update_user_details` returned. */
  lemma UpdateUsesOnlyStoreSuccess(id: JsString, form: UserForm,
                                   updateDetails1: UpdateCall -> StoreOutcome, updateDetails2: UpdateCall -> StoreOutcome)
    requires FirstFailure(UpdateChecks, form).Some? ||
      updateDetails1(DetailsCall(id, form)).Stored? == updateDetails2(DetailsCall(id, form)).Stored?
    ensures UpdateUser(id, form, updateDetails1) == UpdateUser(id, form, updateDetails2)
  {
    UpdateChecksUnfold(form);
  }

  /** The update handler never reads the e-mail or the password of the body. */
  lemma UpdateIgnoresEmailAndPassword(id: JsString, form1: UserForm, form2: UserForm, updateDetails: UpdateCall -> StoreOutcome)
    requires form1.firstName == form2.firstName && form1.lastName == form2.lastName
    requires form1.contact == form2.contact && form1.address == form2.address
    ensures UpdateUser(id, form1, updateDetails) == UpdateUser(id, form2, updateDetails)
  {
    UpdateChecksUnfold(form1);
    UpdateChecksUnfold(form2);
  }

  /** Names are measured in UTF-16 code units: 26 characters above U+FFFF are too long. */
  lemma AstralNameTooLong(name: string, id: JsString, form: UserForm,
                          addUser: UserForm -> StoreOutcome, updateDetails: UpdateCall -> StoreOutcome)
    requires |name| == 26 && forall i :: 0 <= i < |name| ==> !IsBmp(name[i])
    requires form.firstName == Utf16(name)
    ensures CreateUser(form, addUser).reply == Sent(NameRejected)
    ensures UpdateUser(id, form, updateDetails).reply == Sent(NameRejected)
  {
    Utf16OfAstral(name);
    CreateChecksUnfold(form);
    UpdateChecksUnfold(form);
  }
}
