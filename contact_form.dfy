/**
 * The contact form's state: each field's value, its "error" class and the
 * text of its error slot, and the submit button's label and disabled flag
 * across the simulated 1500 ms submission.
 */
module Contact {
  import opened Validation

  /** An input or textarea of the form, with the `<name>Error` element beside it when the page has one. */
  class FormField {
    const name: string
    const hasErrorSlot: bool
    var value: string
    var hasError: bool
    var errorText: string

    constructor (name: string, hasErrorSlot: bool, value: string)
      ensures this.name == name && this.hasErrorSlot == hasErrorSlot && this.value == value
      ensures !hasError && errorText == ""
    {
      this.name := name;
      this.hasErrorSlot := hasErrorSlot;
      this.value := value;
      hasError := false;
      errorText := "";
    }

    /** What validateField would decide for the current value. */
    predicate IsValid()
      reads this
    {
      CheckField(name, value).valid
    }

    /**
     * The state validateField leaves: the "error" class is set exactly when
     * the field is invalid, the error slot (if present) shows the rule's
     * message, which is empty exactly when the field is valid; the value is
     * not touched.
     */
    twostate predicate Validated()
      reads this
    {
      var check := CheckField(name, old(value));
      && value == old(value)
      && hasError == !check.valid
      && errorText == (if hasErrorSlot then check.message else old(errorText))
    }

    /** validateField. */
    method ValidateField() returns (ok: bool)
      modifies this
      ensures ok == old(IsValid())
      ensures Validated()
    {
      var check := CheckField(name, value);
      if hasErrorSlot {
        errorText := check.message;
      }
      hasError := !check.valid;
      ok := check.valid;
    }

    /**
     * The user edits the field: the new text replaces the value and the
     * input listener's clearError runs, so the next blur validates the new text.
     */
    method Input(newValue: string)
      modifies this
      ensures value == newValue && !hasError
      ensures errorText == if hasErrorSlot then "" else old(errorText)
    {
      value := newValue;
      ClearError();
    }

    /** clearError, run on every input event: the slot is emptied and the "error" class removed. */
    method ClearError()
      modifies this
      ensures !hasError && value == old(value)
      ensures errorText == if hasErrorSlot then "" else old(errorText)
    {
      if hasErrorSlot {
        errorText := "";
      }
      hasError := false;
    }
  }

  const SendingLabel: string := "Sending..."

  class ContactForm {
    const nameField: FormField
    const emailField: FormField
    const messageField: FormField
    var buttonText: string
    var buttonDisabled: bool
    /** The label captured by each scheduled 1500 ms completion, oldest first. */
    var pendingRestores: seq<string>

    ghost predicate Valid()
      reads this
    {
      nameField != emailField && nameField != messageField && emailField != messageField
    }

    constructor (nameField: FormField, emailField: FormField, messageField: FormField, buttonText: string)
      requires nameField != emailField && nameField != messageField && emailField != messageField
      ensures Valid()
      ensures this.nameField == nameField && this.emailField == emailField && this.messageField == messageField
      ensures this.buttonText == buttonText && !buttonDisabled && pendingRestores == []
    {
      this.nameField := nameField;
      this.emailField := emailField;
      this.messageField := messageField;
      this.buttonText := buttonText;
      buttonDisabled := false;
      pendingRestores := [];
    }

    /**
     * validateForm: every field is validated, also after an earlier one
     * failed, and the form is valid exactly when all three are.
     */
    method ValidateForm() returns (ok: bool)
      requires Valid()
      modifies nameField, emailField, messageField
      ensures ok == (old(nameField.IsValid()) && old(emailField.IsValid()) && old(messageField.IsValid()))
      ensures nameField.Validated() && emailField.Validated() && messageField.Validated()
    {
      ok := true;
      var nameOk := nameField.ValidateField();
      ok := nameOk && ok;
      var emailOk := emailField.ValidateField();
      ok := emailOk && ok;
      var messageOk := messageField.ValidateField();
      ok := messageOk && ok;
    }

    /**
     * handleSubmit: validate the whole form; when it is valid, relabel the
     * button "Sending...", disable it and schedule the completion, which
     * remembers the label the button had.
     */
    method HandleSubmit() returns (ok: bool)
      requires Valid()
      modifies this, nameField, emailField, messageField
      ensures Valid()
      ensures ok == (old(nameField.IsValid()) && old(emailField.IsValid()) && old(messageField.IsValid()))
      ensures nameField.Validated() && emailField.Validated() && messageField.Validated()
      ensures ok ==> buttonText == SendingLabel && buttonDisabled
      ensures ok ==> pendingRestores == old(pendingRestores) + [old(buttonText)]
      ensures !ok ==> buttonText == old(buttonText) && buttonDisabled == old(buttonDisabled)
      ensures !ok ==> pendingRestores == old(pendingRestores)
    {
      ok := ValidateForm();
      if ok {
        var originalText := buttonText;
        buttonText := SendingLabel;
        buttonDisabled := true;
        pendingRestores := pendingRestores + [originalText];
      }
    }

    /** The oldest scheduled completion fires: the button gets its label back and is enabled. */
    method SubmitComplete()
      requires |pendingRestores| > 0
      modifies this
      ensures buttonText == old(pendingRestores[0]) && !buttonDisabled
      ensures pendingRestores == old(pendingRestores[1..])
    {
      buttonText := pendingRestores[0];
      buttonDisabled := false;
      pendingRestores := pendingRestores[1..];
    }
  }

  /** A valid submission disables the button and the completion restores it. */
  method SubmitRoundTrip()
  {
    var name := new FormField("name", true, "Ann");
    var email := new FormField("email", true, "a@b.co");
    var message := new FormField("message", true, "Hello there, friend");
    var form := new ContactForm(name, email, message, "Send Message");
    PassingFormExample();
    var ok := form.HandleSubmit();
    assert ok;
    assert form.buttonText == SendingLabel && form.buttonDisabled;
    assert !name.hasError && !email.hasError && !message.hasError;
    form.SubmitComplete();
    assert form.buttonText == "Send Message" && !form.buttonDisabled;
  }

  /** An invalid submission reports all three errors and leaves the button alone. */
  method RejectedSubmission()
  {
    var name := new FormField("name", true, "");
    var email := new FormField("email", true, "bad");
    var message := new FormField("message", true, "short");
    var form := new ContactForm(name, email, message, "Send Message");
    FailingFormExample();
    var ok := form.HandleSubmit();
    assert !ok;
    assert name.errorText == "Name is required";
    assert email.errorText == EmailError;
    assert message.errorText == MessageLengthError;
    assert form.buttonText == "Send Message" && !form.buttonDisabled && form.pendingRestores == [];
  }
}
