/**
 * The sign-up page's submit handler (src/pages/Register.tsx): the password confirmation is
 * checked first, then that no field is empty, and only then is the account requested.
 */
module Register {
  import opened Wrappers
  import opened TextChecks

  const MismatchMessage := "As senhas não coincidem"
  const EmptyFieldsMessage := "Preencha todos os campos"
  const UnknownErrorMessage := "Erro desconhecido"

  /** What `signUp` receives: the three fields and nothing else. */
  datatype SignUpRequest = SignUpRequest(name: string, email: string, password: string)

  /** The first non-empty text of the error (its description, then its message), else a generic one. */
  function SignUpFailureMessage(errorDescription: Option<string>, message: Option<string>): (r: string)
    ensures errorDescription.Some? && errorDescription.value != "" ==> r == errorDescription.value
    ensures (errorDescription.None? || errorDescription == Some("")) && message.Some? && message.value != "" ==> r == message.value
    ensures (errorDescription.None? || errorDescription == Some("")) && (message.None? || message == Some("")) ==> r == UnknownErrorMessage
  {
    OrElse(errorDescription, OrElse(message, UnknownErrorMessage))
  }

  class RegisterPage {
    var name: string
    var email: string
    var password: string
    var confirmPass: string
    var error: Option<string>
    var loading: bool
    /** The sign-up calls made so far. */
    var sent: seq<SignUpRequest>

    constructor()
      ensures name == "" && email == "" && password == "" && confirmPass == ""
      ensures error == None && !loading && sent == []
    {
      name, email, password, confirmPass := "", "", "", "";
      error, loading, sent := None, false, [];
    }

    /**
     * Submits the form; `outcome` is how `signUp` ends when it is called. A mismatch is reported
     * even when fields are empty too, and nothing is sent unless both checks pass.
     */
    method Submit(outcome: Outcome)
      modifies this
      ensures name == old(name) && email == old(email)
      ensures password == old(password) && confirmPass == old(confirmPass)
      ensures password != confirmPass ==>
        error == Some(MismatchMessage) && sent == old(sent) && loading == old(loading)
      ensures password == confirmPass && (email == "" || password == "" || name == "") ==>
        error == Some(EmptyFieldsMessage) && sent == old(sent) && loading == old(loading)
      ensures password == confirmPass && email != "" && password != "" && name != "" ==>
        && sent == old(sent) + [SignUpRequest(name, email, password)]
        && !loading
        && error == (if outcome.Thrown? then Some(SignUpFailureMessage(outcome.errorDescription, outcome.message)) else None)
    {
      error := None;
      if password != confirmPass {
        error := Some(MismatchMessage);
        return;
      }
      if email == "" || password == "" || name == "" {
        error := Some(EmptyFieldsMessage);
        return;
      }
      loading := true;
      sent := sent + [SignUpRequest(name, email, password)];
      if outcome.Thrown? {
        error := Some(SignUpFailureMessage(outcome.errorDescription, outcome.message));
      }
      loading := false;
    }
  }
}
