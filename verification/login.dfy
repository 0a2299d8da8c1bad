/** The mock credential check of the login form
    (components/LoginPage.tsx). */
module Login {
  import opened Types

  /** The single accepted pair, compared exactly: no trimming, case matters. */
  const ValidUsername: string := "tecnico"
  const ValidPassword: string := "123"

  /** The message shown for any other pair. */
  const InvalidMessage: string := "Usuário ou senha inválidos. (tente: tecnico / 123)"

  /** The form's error text after a submit, and the user handed to
      `onLogin` (None when it was not called). */
  datatype Outcome = Outcome(error: string, loggedIn: Option<string>)

  /** `handleSubmit`. */
  function SubmitLogin(username: string, password: string): (r: Outcome)
    ensures r.loggedIn.Some? <==> username == ValidUsername && password == ValidPassword
    ensures r.loggedIn.Some? ==> r.loggedIn.value == username && r.error == ""
    ensures r.loggedIn.None? ==> r.error == InvalidMessage
  {
    if username == ValidUsername && password == ValidPassword then Outcome("", Some(username))
    else Outcome(InvalidMessage, None)
  }

  /** The failure message is never empty, so a failed submit always shows
      an error and a successful one never does. */
  lemma ErrorShownIffRejected(username: string, password: string)
    ensures SubmitLogin(username, password).error != "" <==> SubmitLogin(username, password).loggedIn.None?
  {
    assert |InvalidMessage| > 0;
  }

  /** Comparison is exact: surrounding spaces or a different case fail. */
  lemma NoNormalisation()
    ensures SubmitLogin("tecnico ", "123").loggedIn.None?
    ensures SubmitLogin("Tecnico", "123").loggedIn.None?
  {
    assert "tecnico " != ValidUsername by { assert |"tecnico "| != |ValidUsername|; }
    assert "Tecnico" != ValidUsername by { assert "Tecnico"[0] != ValidUsername[0]; }
  }
}
