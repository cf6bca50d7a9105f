/**
 * `validateForm(formId)`: the check the contact form's submit handler runs
 * before letting the browser submit. The page's forms are given as a map
 * from form id to the form; an alert is returned as the outcome's message.
 */
module FormValidation {
  import opened Wrappers
  import opened Text
  import opened Email

  /** A form: the current value of each of its named controls. */
  datatype Form = Form(elements: map<string, string>)

  /** `true` (submit) or `false` together with the alert shown before it. */
  datatype Outcome = Submit | Reject(alert: string)

  const FillAllAlert := "Please fill all required fields"
  const EmailAlert := "Please enter a valid email address"

  /** `form.elements[name]?.value.trim()`: `None` stands for `undefined`. */
  function Field(form: Form, name: string): Option<string> {
    if name in form.elements then Some(Trim(form.elements[name])) else None
  }

  /** JavaScript's `!v` for a trimmed field: missing or empty. */
  predicate Blank(v: Option<string>) {
    v == None || v == Some("")
  }

  /** The control exists and holds something other than whitespace. */
  ghost predicate Filled(form: Form, name: string) {
    name in form.elements && !AllWs(form.elements[name])
  }

  ghost predicate AllFilled(form: Form) {
    Filled(form, "name") && Filled(form, "email") && Filled(form, "message")
  }

  function ValidateForm(forms: map<string, Form>, formId: string): (v: Outcome)
    ensures formId !in forms ==> v == Submit
    ensures formId in forms ==>
              (v == Reject(FillAllAlert) <==> !AllFilled(forms[formId]))
    ensures formId in forms ==>
              (v == Reject(EmailAlert) <==>
                 AllFilled(forms[formId])
                 && !MatchesPattern(Trim(forms[formId].elements["email"])))
    ensures v == Submit <==>
              formId !in forms
              || (AllFilled(forms[formId])
                  && MatchesPattern(Trim(forms[formId].elements["email"])))
  {
    if formId !in forms then
      Submit
    else
      var form := forms[formId];
      var name, email, message :=
        Field(form, "name"), Field(form, "email"), Field(form, "message");
      if Blank(name) || Blank(email) || Blank(message) then
        Reject(FillAllAlert)
      else
        EmailOkIsPattern(email.value);
        if !EmailOk(email.value) then Reject(EmailAlert) else Submit
  }

  /** The contact form the page ships, holding the given values. */
  function Contact(name: string, email: string, message: string): map<string, Form> {
    map["contact" := Form(map["name" := name, "email" := email, "message" := message])]
  }

  /** On the contact form the verdict depends only on the three values. */
  lemma ContactVerdict(name: string, email: string, message: string)
    ensures var v := ValidateForm(Contact(name, email, message), "contact");
            && (v == Reject(FillAllAlert) <==> AllWs(name) || AllWs(email) || AllWs(message))
            && (v == Submit <==> !AllWs(name) && !AllWs(email) && !AllWs(message)
                                 && MatchesPattern(Trim(email)))
  {
  }

  /** A filled-in form with a well-formed address is submitted. */
  lemma ContactAccepted()
    ensures ValidateForm(Contact("A", "a@b.com", "hi"), "contact") == Submit
  {
    ghost var n, e, m := "A", "a@b.com", "hi";
    assert !IsWs(n[0]) && !IsWs(e[0]) && !IsWs(m[0]);
    assert Trim(e) == e;
    EmailExamples();
    EmailOkIsPattern(e);
    ContactVerdict(n, e, m);
  }

  /** An address without a dot after its `@` is refused with the e-mail alert. */
  lemma ContactNoDotRejected()
    ensures ValidateForm(Contact("A", "bob@nodot", "hi"), "contact") == Reject(EmailAlert)
  {
    ghost var n, e, m := "A", "bob@nodot", "hi";
    assert !IsWs(n[0]) && !IsWs(e[0]) && !IsWs(m[0]);
    assert Trim(e) == e;
    EmailExamples();
    EmailOkIsPattern(e);
    ContactVerdict(n, e, m);
  }

  /** An empty name is refused with the fill-all alert. */
  lemma ContactEmptyNameRejected()
    ensures ValidateForm(Contact("", "a@b.com", "hi"), "contact") == Reject(FillAllAlert)
  {
    ContactVerdict("", "a@b.com", "hi");
  }
}
