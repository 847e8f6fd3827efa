/**
 * The password-reset request page (src/pages/ForgotPassword.tsx): a rejected address never
 * reaches the backend, and a sent request shows the same message whether or not the account
 * exists.
 */
module ForgotPassword {
  import opened Wrappers
  import opened TextChecks

  const ResetSentMessage := "Se o e-mail existir, enviamos instruções para redefinir sua senha."
  const ResetFailedMessage := "Não foi possível enviar o e-mail de redefinição."

  class ForgotPasswordPage {
    var email: string
    var loading: bool
    var error: Option<string>
    var success: Option<string>
    /** The addresses reset e-mails were requested for, in order. */
    var sent: seq<string>

    constructor()
      ensures email == "" && !loading && error == None && success == None && sent == []
    {
      email, loading, error, success, sent := "", false, None, None, [];
    }

    /**
     * Submits the form; `outcome` is how the reset call ends when it is made. Error and success
     * are cleared first, and `loading` is false once the call has ended either way.
     */
    method Submit(outcome: Outcome)
      modifies this
      ensures email == old(email)
      ensures !MatchesPattern(email) ==>
        && error == Some(InvalidEmailMessage) && success == None
        && sent == old(sent) && loading == old(loading)
      ensures MatchesPattern(email) ==> sent == old(sent) + [email] && !loading
      ensures MatchesPattern(email) && outcome.Done? ==> error == None && success == Some(ResetSentMessage)
      ensures MatchesPattern(email) && outcome.Thrown? ==>
        error == Some(OrElse(outcome.message, ResetFailedMessage)) && success == None
    {
      error := None;
      success := None;
      ValidEmailIffPattern(email);
      if email == "" || !IsValidEmail(email) {
        error := Some(InvalidEmailMessage);
        return;
      }
      loading := true;
      sent := sent + [email];
      if outcome.Done? {
        success := Some(ResetSentMessage);
      } else {
        error := Some(OrElse(outcome.message, ResetFailedMessage));
      }
      loading := false;
    }
  }
}
