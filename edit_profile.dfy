/**
 * The profile editor's submit handler (src/pages/EditPerfil.tsx): it checks the address and the
 * user name, then sends only the updates whose value differs from the signed-in user's, in order,
 * stopping at the first one that fails.
 */
module EditProfile {
  import opened Wrappers
  import opened TextChecks

  const MissingUsernameMessage := "Informe um nome de usuário."
  const UpdateFailedMessage := "Não foi possível atualizar o perfil."
  const UpdatedMessage := "Dados atualizados. Se o e-mail foi alterado, confirme via link enviado."

  /** A call into the user service. */
  datatype Request = UpdateEmail(email: string) | UpdateUsername(username: string)

  /**
   * The updates a valid submission sends: the address when it differs from the current one (a
   * missing current value differs from everything), then the name under the same rule.
   */
  function Updates(email: string, username: string, currentEmail: Option<string>, currentName: Option<string>): (r: seq<Request>)
    ensures UpdateEmail(email) in r <==> currentEmail != Some(email)
    ensures UpdateUsername(username) in r <==> currentName != Some(username)
    ensures forall i :: 0 <= i < |r| ==> r[i] == UpdateEmail(email) || r[i] == UpdateUsername(username)
    ensures |r| == (if currentEmail != Some(email) then 1 else 0) + (if currentName != Some(username) then 1 else 0)
    ensures |r| == 2 ==> r[0].UpdateEmail? && r[1].UpdateUsername?
  {
    (if currentEmail != Some(email) then [UpdateEmail(email)] else [])
    + (if currentName != Some(username) then [UpdateUsername(username)] else [])
  }

  class EditProfilePage {
    /** The signed-in user's address and name, as loaded. */
    const currentEmail: Option<string>
    const currentName: Option<string>
    /** The form fields. */
    var email: string
    var username: string
    var loading: bool
    var error: Option<string>
    var success: Option<string>
    /** The calls made into the user service so far. */
    var sent: seq<Request>

    /** The fields start from the user's values, or empty when they are missing. */
    constructor(userEmail: Option<string>, userName: Option<string>)
      ensures currentEmail == userEmail && currentName == userName
      ensures email == userEmail.GetOr("") && username == userName.GetOr("")
      ensures !loading && error == None && success == None && sent == []
    {
      currentEmail, currentName := userEmail, userName;
      email, username := userEmail.GetOr(""), userName.GetOr("");
      loading, error, success, sent := false, None, None, [];
    }

    /**
     * Submits the form. `emailOutcome` and `usernameOutcome` are how the two update calls end when
     * they are made. A rejected address stops before the name is looked at, a blank name before
     * any call; the success message appears only once every needed update has gone through.
     */
    method Submit(emailOutcome: Outcome, usernameOutcome: Outcome)
      modifies this
      ensures email == old(email) && username == old(username)
      ensures !MatchesPattern(email) ==>
        && error == Some(InvalidEmailMessage) && success == None
        && sent == old(sent) && loading == old(loading)
      ensures MatchesPattern(email) && AllSpace(username) ==>
        && error == Some(MissingUsernameMessage) && success == None
        && sent == old(sent) && loading == old(loading)
      ensures MatchesPattern(email) && !AllSpace(username) ==> !loading
      ensures MatchesPattern(email) && !AllSpace(username) && currentEmail != Some(email) && emailOutcome.Thrown? ==>
        && sent == old(sent) + [UpdateEmail(email)]
        && error == Some(OrElse(emailOutcome.message, UpdateFailedMessage)) && success == None
      ensures MatchesPattern(email) && !AllSpace(username) && (currentEmail == Some(email) || emailOutcome.Done?) ==>
        && sent == old(sent) + Updates(email, username, currentEmail, currentName)
        && if currentName != Some(username) && usernameOutcome.Thrown? then
             error == Some(OrElse(usernameOutcome.message, UpdateFailedMessage)) && success == None
           else
             error == None && success == Some(UpdatedMessage)
    {
      error := None;
      success := None;
      ValidEmailIffPattern(email);
      BlankIffAllSpace(username);
      if email == "" || !IsValidEmail(email) {
        error := Some(InvalidEmailMessage);
        return;
      }
      if Trim(username) == "" {
        error := Some(MissingUsernameMessage);
        return;
      }
      SendUpdates(emailOutcome, usernameOutcome);
    }

    /** The `try`/`finally` part of the handler, entered with error and success cleared. */
    method SendUpdates(emailOutcome: Outcome, usernameOutcome: Outcome)
      requires error == None && success == None
      modifies this
      ensures email == old(email) && username == old(username) && !loading
      ensures currentEmail != Some(email) && emailOutcome.Thrown? ==>
        && sent == old(sent) + [UpdateEmail(email)]
        && error == Some(OrElse(emailOutcome.message, UpdateFailedMessage)) && success == None
      ensures currentEmail == Some(email) || emailOutcome.Done? ==>
        && sent == old(sent) + Updates(email, username, currentEmail, currentName)
        && if currentName != Some(username) && usernameOutcome.Thrown? then
             error == Some(OrElse(usernameOutcome.message, UpdateFailedMessage)) && success == None
           else
             error == None && success == Some(UpdatedMessage)
    {
      loading := true;
      if currentEmail != Some(email) {
        sent := sent + [UpdateEmail(email)];
        if emailOutcome.Thrown? {
          error := Some(OrElse(emailOutcome.message, UpdateFailedMessage));
          loading := false;
          return;
        }
      }
      if currentName != Some(username) {
        sent := sent + [UpdateUsername(username)];
        if usernameOutcome.Thrown? {
          error := Some(OrElse(usernameOutcome.message, UpdateFailedMessage));
          loading := false;
          return;
        }
      }
      success := Some(UpdatedMessage);
      loading := false;
    }
  }
}
