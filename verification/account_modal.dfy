/**
 * The three-step account dialog (Personal Info, Employment, Security): the
 * form's rules for names, roles and the password, the step navigation, the
 * reset when the dialog opens, and the role checkboxes.
 *
 * The e-mail address rule is a regular expression of the form library; it is a
 * parameter here (isEmail).
 */
module AccountModal {
  import opened Wrappers
  import opened Lists
  import opened Text

  const StepCount := 3
  const LastStep := StepCount - 1

  /** The minimum length of a new password, in UTF-16 code units as JavaScript strings count length. */
  const MinPasswordLength := 8

  datatype Field =
    | FirstName | MiddleName | LastName | Email | Designation | Section | Roles | Password | PasswordConfirmation

  datatype AccountValues = AccountValues(
    firstName: string, middleName: string, lastName: string, email: string,
    designation: string, section: string, roles: seq<int>,
    password: string, passwordConfirmation: string)

  /** The values of a new account: everything empty and no role. */
  const Blank := AccountValues("", "", "", "", "", "", [], "", "")

  datatype RoleRef = RoleRef(id: int, name: string)

  /** An existing account as the server describes it. */
  datatype UserRecord = UserRecord(
    firstName: string, middleName: Option<string>, lastName: string, email: string,
    designation: string, section: string, roles: seq<RoleRef>)

  // ---------------------------------------------------------------------------
  // The form schema
  // ---------------------------------------------------------------------------

  /** The password field: empty (leave unchanged) or at least eight UTF-16 code units long. */
  predicate PasswordValid(password: string) {
    password == "" || Utf16Length(password) >= MinPasswordLength
  }

  /** The form-level check: a non-empty password must equal its confirmation. */
  predicate PasswordsAgree(v: AccountValues)
    ensures PasswordsAgree(v) <==> v.password == "" || v.passwordConfirmation == v.password
  {
    if v.password != "" && v.password != v.passwordConfirmation then false else true
  }

  /**
   * One field's rule. A required text field must be non-empty (a minimum
   * length of one code unit); the middle name and the confirmation are
   * optional, and the password may be left empty.
   */
  predicate FieldValid(v: AccountValues, f: Field, isEmail: string -> bool)
    ensures f == MiddleName || f == PasswordConfirmation || (f == Password && v.password == "") ==> FieldValid(v, f, isEmail)
    ensures v == Blank && f in {FirstName, LastName, Designation, Section, Roles} ==> !FieldValid(v, f, isEmail)
  {
    match f
    case FirstName => v.firstName != ""
    case MiddleName => true
    case LastName => v.lastName != ""
    case Email => isEmail(v.email)
    case Designation => v.designation != ""
    case Section => v.section != ""
    case Roles => v.roles != []
    case Password => PasswordValid(v.password)
    case PasswordConfirmation => true
  }

  /**
   * The whole form passes: every field rule and the form-level password check.
   * A form that passes also passes the checks of the first two steps.
   */
  predicate FormValid(v: AccountValues, isEmail: string -> bool)
    ensures FormValid(v, isEmail) ==> StepComplete(v, 0, isEmail) && StepComplete(v, 1, isEmail)
  {
    var ok := (forall f: Field :: FieldValid(v, f, isEmail)) && PasswordsAgree(v);
    assert ok ==> FieldValid(v, FirstName, isEmail) && FieldValid(v, LastName, isEmail) && FieldValid(v, Email, isEmail);
    assert ok ==> FieldValid(v, Designation, isEmail) && FieldValid(v, Section, isEmail) && FieldValid(v, Roles, isEmail);
    ok
  }

  /** What the dialog demands before leaving each step; the security step is checked on submit. */
  predicate StepComplete(v: AccountValues, step: int, isEmail: string -> bool) {
    if step == 0 then v.firstName != "" && v.lastName != "" && isEmail(v.email)
    else if step == 1 then v.designation != "" && v.section != "" && v.roles != []
    else true
  }

  /**
   * The two password rules together: the password may stay empty, whatever the
   * confirmation holds; otherwise it needs eight UTF-16 code units and a
   * matching confirmation.
   */
  lemma PasswordRules(v: AccountValues)
    ensures PasswordValid(v.password) && PasswordsAgree(v) <==>
      v.password == "" || (Utf16Length(v.password) >= MinPasswordLength && v.passwordConfirmation == v.password)
  {
  }

  /**
   * The length rule counts code units, not characters: four characters beyond
   * U+FFFF (emoji, say) make a long enough password, while seven characters of
   * the Basic Multilingual Plane do not.
   */
  lemma PasswordLengthInCodeUnits(password: string)
    requires |password| == 4 && forall i :: 0 <= i < |password| ==> password[i] as int >= 0x1_0000
    ensures PasswordValid(password)
    ensures forall p: string :: |p| == 7 && (forall i :: 0 <= i < |p| ==> p[i] as int < 0x1_0000) ==> !PasswordValid(p)
  {
    Utf16LengthOfAstral(password);
    forall p: string | |p| == 7 && (forall i :: 0 <= i < |p| ==> p[i] as int < 0x1_0000)
      ensures !PasswordValid(p)
    {
      Utf16LengthOfBmp(p);
    }
  }

  // ---------------------------------------------------------------------------
  // Step validation
  // ---------------------------------------------------------------------------

  /** The fields validated on the first step are those StepComplete demands there. */
  lemma StepFields0(v: AccountValues, isEmail: string -> bool)
    ensures var fields := [FirstName, LastName, MiddleName, Email];
      (forall f :: f in fields ==> FieldValid(v, f, isEmail)) <==> StepComplete(v, 0, isEmail)
  {
    var fields := [FirstName, LastName, MiddleName, Email];
    assert FirstName in fields && LastName in fields && Email in fields;
  }

  /** The fields validated on the employment step are those StepComplete demands there. */
  lemma StepFields1(v: AccountValues, isEmail: string -> bool)
    ensures var fields := [Designation, Section, Roles];
      (forall f :: f in fields ==> FieldValid(v, f, isEmail)) <==> StepComplete(v, 1, isEmail)
  {
    var fields := [Designation, Section, Roles];
    assert Designation in fields && Section in fields && Roles in fields;
  }

  /** form.trigger: validates the given fields against the form schema. */
  method Trigger(v: AccountValues, fields: seq<Field>, isEmail: string -> bool) returns (isValid: bool)
    ensures isValid <==> forall f :: f in fields ==> FieldValid(v, f, isEmail)
  {
    isValid := true;
    var i := 0;
    while i < |fields|
      invariant 0 <= i <= |fields|
      invariant isValid <==> forall f :: f in fields[..i] ==> FieldValid(v, f, isEmail)
    {
      assert fields[..i + 1] == fields[..i] + [fields[i]];
      if !FieldValid(v, fields[i], isEmail) {
        isValid := false;
      }
      i := i + 1;
    }
    assert fields[..i] == fields;
  }

  /** The fields the dialog validates before leaving the given step, checked against the form schema. */
  method ValidateStep(v: AccountValues, step: int, isEmail: string -> bool) returns (isValid: bool)
    ensures isValid == StepComplete(v, step, isEmail)
  {
    var fieldsToValidate: seq<Field> := [];
    if step == 0 {
      fieldsToValidate := [FirstName, LastName, MiddleName, Email];
      StepFields0(v, isEmail);
    } else if step == 1 {
      fieldsToValidate := [Designation, Section, Roles];
      StepFields1(v, isEmail);
    }
    isValid := Trigger(v, fieldsToValidate, isEmail);
  }

  // ---------------------------------------------------------------------------
  // Opening the dialog and the role checkboxes
  // ---------------------------------------------------------------------------

  /** The form for editing an existing account: its details, its role ids, and both password fields empty. */
  function Prefill(user: UserRecord): (v: AccountValues)
    ensures v.password == "" && v.passwordConfirmation == ""
    ensures v.firstName == user.firstName && v.lastName == user.lastName && v.email == user.email
    ensures v.designation == user.designation && v.section == user.section
    ensures |v.roles| == |user.roles| && forall i :: 0 <= i < |v.roles| ==> v.roles[i] == user.roles[i].id
    ensures v.middleName == if user.middleName.Some? then user.middleName.value else ""
  {
    AccountValues(
      user.firstName, if user.middleName.Some? then user.middleName.value else "", user.lastName, user.email,
      user.designation, user.section, seq(|user.roles|, i requires 0 <= i < |user.roles| => user.roles[i].id),
      "", "")
  }

  /** An edit that leaves the password fields alone passes both password rules. */
  lemma PrefillKeepsPassword(user: UserRecord)
    ensures PasswordValid(Prefill(user).password) && PasswordsAgree(Prefill(user))
  {
  }

  /** The roles after ticking (checked) or unticking a role's checkbox. */
  function CheckRole(roles: seq<int>, id: int, checked: bool): (r: seq<int>)
    ensures checked ==> r == roles + [id]
    ensures !checked ==> id !in r && IsSubsequence(r, roles)
    ensures !checked ==> forall other :: other != id ==> multiset(r)[other] == multiset(roles)[other]
  {
    if checked then roles + [id]
    else
      RemoveAllSubsequence(roles, id);
      RemoveAll(roles, id)
  }

  /** Ticking a role that was not selected and unticking it again restores the roles. */
  lemma CheckThenUncheck(roles: seq<int>, id: int)
    requires id !in roles
    ensures CheckRole(CheckRole(roles, id, true), id, false) == roles
  {
    RemoveAllAppended(roles, id);
    RemoveAllAbsent(roles, id);
  }

  class Dialog {
    var activeStep: int
    var values: AccountValues

    predicate Valid()
      reads this
    {
      0 <= activeStep <= LastStep
    }

    constructor ()
      ensures Valid() && activeStep == 0 && values == Blank
    {
      activeStep := 0;
      values := Blank;
    }

    /** Validates the fields of the current step and, when they pass, moves on, never past the last step. */
    method NextStep(isEmail: string -> bool)
      requires Valid()
      modifies this
      ensures Valid()
      ensures StepComplete(old(values), old(activeStep), isEmail) ==>
        activeStep == if old(activeStep) + 1 < LastStep then old(activeStep) + 1 else LastStep
      ensures !StepComplete(old(values), old(activeStep), isEmail) ==> activeStep == old(activeStep)
      ensures values == old(values)
    {
      var isValid := ValidateStep(values, activeStep, isEmail);
      if isValid {
        activeStep := if activeStep + 1 < LastStep then activeStep + 1 else LastStep;
      }
    }

    /** Moves to the previous step, never below the first one. */
    method PrevStep()
      requires Valid()
      modifies this
      ensures Valid()
      ensures activeStep == if old(activeStep) - 1 > 0 then old(activeStep) - 1 else 0
      ensures values == old(values)
    {
      activeStep := if activeStep - 1 > 0 then activeStep - 1 else 0;
    }

    /**
     * The effect that runs when the dialog opens or closes or the account
     * changes: opening goes back to the first step, and the form is filled from
     * the account being edited or emptied for a new one.
     */
    method OpenEffect(isOpen: bool, user: Option<UserRecord>)
      requires Valid()
      modifies this
      ensures Valid()
      ensures activeStep == if isOpen then 0 else old(activeStep)
      ensures values == if user.Some? then Prefill(user.value) else Blank
    {
      if isOpen {
        activeStep := 0;
      }
      if user.Some? {
        values := Prefill(user.value);
      } else {
        values := Blank;
      }
    }

    /** Ticking or unticking a role's checkbox. */
    method SetRoleChecked(id: int, checked: bool)
      modifies this
      ensures values == old(values).(roles := CheckRole(old(values.roles), id, checked))
      ensures activeStep == old(activeStep)
    {
      values := values.(roles := CheckRole(values.roles, id, checked));
    }
  }
}
