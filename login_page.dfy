/** src/pages/admin/Login.jsx: the sign-in form's validation and its field
    updates. */
module LoginPage {
  import opened Strings

  datatype Field = Email | Password

  datatype LoginForm = LoginForm(email: string, password: string)

  /** The form as first shown. */
  const DefaultForm := LoginForm("admin@survey.com", "admin123")

  function FieldValue(f: LoginForm, name: Field): string {
    match name
    case Email => f.email
    case Password => f.password
  }

  /** `/\S+@\S+\.\S+/.test(s)`: somewhere a non-blank character, '@', a
      non-blank run, '.', and a non-blank character. */
  predicate EmailPattern(s: string) {
    exists at, dot :: 0 < at < |s| && 0 < dot < |s| && EmailAt(s, at, dot)
  }

  /** '@' at `at` and '.' at `dot`, each with a non-blank neighbour outside,
      and only non-blank characters (at least one) between them. */
  predicate EmailAt(s: string, at: int, dot: int) {
    0 < at && at + 1 < dot && dot + 1 < |s|
    && s[at] == '@' && s[dot] == '.' && !IsJsWhitespace(s[at - 1]) && !IsJsWhitespace(s[dot + 1])
    && forall k :: at < k < dot ==> !IsJsWhitespace(s[k])
  }

  const RequiredKey := "validation.required"
  const EmailKey := "validation.email"

  datatype Validation = Validation(errors: map<Field, string>, valid: bool)

  /** `validateForm()`: the new error map and whether it is empty. */
  function ValidateForm(f: LoginForm): (r: Validation)
    ensures r.valid <==> r.errors == map[]
  {
    var withEmail: map<Field, string> :=
      if f.email == "" then map[Email := RequiredKey]
      else if !EmailPattern(f.email) then map[Email := EmailKey]
      else map[];
    var errors := if f.password == "" then withEmail[Password := RequiredKey] else withEmail;
    Validation(errors, errors == map[])
  }

  /** An empty email is required, a non-empty one without the pattern is
      invalid, an empty password is required; nothing else is reported, and
      the form passes exactly when none of these holds. */
  lemma ValidateFormMeaning(f: LoginForm)
    ensures var errors := ValidateForm(f).errors;
            (Email in errors <==> f.email == "" || !EmailPattern(f.email))
            && (f.email == "" ==> errors[Email] == RequiredKey)
            && (f.email != "" && !EmailPattern(f.email) ==> errors[Email] == EmailKey)
            && (Password in errors <==> f.password == "")
            && (Password in errors ==> errors[Password] == RequiredKey)
            && (ValidateForm(f).valid <==> f.email != "" && EmailPattern(f.email) && f.password != "")
  {
    var errors := ValidateForm(f).errors;
    if f.email == "" || !EmailPattern(f.email) {
      assert Email in errors;
    }
    if f.password == "" {
      assert Password in errors;
    }
  }

  /** The pre-filled credentials pass validation. */
  lemma DefaultFormIsValid()
    ensures ValidateForm(DefaultForm).valid
  {
    var s := DefaultForm.email;
    assert s[5] == '@' && s[12] == '.' && s[4] == 'n' && s[13] == 'c';
    assert forall k :: 5 < k < 12 ==> !IsJsWhitespace(s[k]) by {
      assert s[6..12] == "survey";
    }
    assert EmailAt(s, 5, 12);
  }

  datatype FormState = FormState(form: LoginForm, errors: map<Field, string>)

  /** `handleChange(e)`: store the value; a shown error of that field is
      blanked (the key stays, with ""). */
  function HandleChange(st: FormState, name: Field, value: string): FormState {
    var form := match name
      case Email => st.form.(email := value)
      case Password => st.form.(password := value);
    var errors := if name in st.errors && st.errors[name] != "" then st.errors[name := ""] else st.errors;
    FormState(form, errors)
  }

  /** The edited field takes the value and the other keeps its own; only
      the edited field's error is blanked, the other error is untouched. */
  lemma HandleChangeMeaning(st: FormState, name: Field, value: string)
    ensures var next := HandleChange(st, name, value);
            FieldValue(next.form, name) == value
            && (forall other :: other != name ==> FieldValue(next.form, other) == FieldValue(st.form, other))
            && (name in st.errors ==> name in next.errors && next.errors[name] == "")
            && (name !in st.errors ==> name !in next.errors)
            && (forall other :: other != name ==>
                  (other in next.errors <==> other in st.errors)
                  && (other in st.errors ==> next.errors[other] == st.errors[other]))
  {
  }
}
