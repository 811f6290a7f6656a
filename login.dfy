/**
 * Filling in the portal's login form and deciding, from the server's answer,
 * whether the login worked (`authenticate` and `_check_logged_in` of
 * `HomeInfoPointClient`).
 */
module Login {
  import opened Wrappers
  import opened Strings
  import opened Markup

  /** The page that holds the login form, relative to the base URL. */
  const LoginPage := "default.php"

  /**
   * Where the form is posted, given the base URL (ending in `/`) and the
   * form's `action` attribute.
   */
  function PostTarget(base: string, action: Option<string>): (r: string)
    ensures action.None? || action.value == "" ==> r == base + LoginPage
    ensures action.Some? && action.value != "" && StartsWith(action.value, "http") ==> r == action.value
    ensures action.Some? && action.value != "" && !StartsWith(action.value, "http") ==> r == base + action.value
  {
    match action
    case None => base + LoginPage
    case Some(a) =>
      if a == "" then base + LoginPage
      else if StartsWith(a, "http") then a
      else base + a
  }

  /** The part an input plays in the login. */
  datatype Role = Submit | UsernameField | PasswordField | Declared

  /**
   * The role of a named input, by case-insensitive rules on its type and
   * name: a submit button first, then a user/login name without "pass",
   * then a name with "pass"; everything else keeps its declared value.
   */
  function RoleOf(name: string, kind: string): (r: Role)
    ensures r == Submit <==> Lower(kind) == "submit"
    ensures r == PasswordField <==> Lower(kind) != "submit" && Contains(Lower(name), "pass")
    ensures r == UsernameField <==> Lower(kind) != "submit" && !Contains(Lower(name), "pass")
                                    && (Contains(Lower(name), "user") || Contains(Lower(name), "login"))
  {
    var n := Lower(name);
    if Lower(kind) == "submit" then Submit
    else if (Contains(n, "user") || Contains(n, "login")) && !Contains(n, "pass") then UsernameField
    else if Contains(n, "pass") then PasswordField
    else Declared
  }

  /** The value posted for a named input. */
  function FieldValue(name: string, input: Input, username: string, password: string): string
  {
    match RoleOf(name, input.kind)
    case UsernameField => username
    case PasswordField => password
    case _ => input.value
  }

  /** The input has the non-empty name `k`. */
  predicate NamedAs(input: Input, k: string)
  {
    input.name == Some(k) && k != ""
  }

  /** The name-to-value map built from the inputs in order; a later input of the same name wins. */
  function Fields(inputs: seq<Input>, username: string, password: string): (r: map<string, string>)
    ensures "" !in r
  {
    if |inputs| == 0 then map[]
    else
      var data := Fields(inputs[..|inputs| - 1], username, password);
      var last := inputs[|inputs| - 1];
      match last.name
      case None => data
      case Some(k) => if k == "" then data else data[k := FieldValue(k, last, username, password)]
  }

  /** The map has exactly one key per non-empty input name. */
  lemma {:induction false} FieldsKeys(inputs: seq<Input>, username: string, password: string, k: string)
    ensures k in Fields(inputs, username, password) <==> exists j :: 0 <= j < |inputs| && NamedAs(inputs[j], k)
  {
    if |inputs| > 0 {
      var init := inputs[..|inputs| - 1];
      FieldsKeys(init, username, password, k);
      assert forall j :: 0 <= j < |init| ==> init[j] == inputs[j];
    }
  }

  /** The value under a name is the one the last input of that name calls for. */
  lemma {:induction false} FieldsLastWins(inputs: seq<Input>, username: string, password: string, j: int, k: string)
    requires 0 <= j < |inputs| && NamedAs(inputs[j], k)
    requires forall l :: j < l < |inputs| ==> inputs[l].name != Some(k)
    ensures k in Fields(inputs, username, password)
    ensures Fields(inputs, username, password)[k] == FieldValue(k, inputs[j], username, password)
  {
    if j < |inputs| - 1 {
      FieldsLastWins(inputs[..|inputs| - 1], username, password, j, k);
    }
  }

  /**
   * The fallback keys added after classification: `username` unless `username`
   * or `user` is already a key, then `password` and `login` if absent.
   */
  function WithFallback(data: map<string, string>, username: string, password: string): (r: map<string, string>)
    ensures forall k :: k in data ==> k in r && r[k] == data[k]
    ensures r.Keys == data.Keys + {"password", "login"}
                      + (if "username" !in data && "user" !in data then {"username"} else {})
    ensures "username" !in data && "user" !in data ==> r["username"] == username
    ensures "password" !in data ==> r["password"] == password
    ensures "login" !in data ==> r["login"] == "Anmelden"
  {
    var withUser := if "username" !in data && "user" !in data then data["username" := username] else data;
    var withPassword := if "password" !in withUser then withUser["password" := password] else withUser;
    if "login" !in withPassword then withPassword["login" := "Anmelden"] else withPassword
  }

  /** Everything posted with the login form: the classified fields, plus `password` and `login` always. */
  function LoginFields(form: Form, username: string, password: string): (r: map<string, string>)
    ensures "password" in r && "login" in r
    ensures forall k :: k in Fields(form.inputs, username, password) ==> k in r && r[k] == Fields(form.inputs, username, password)[k]
  {
    WithFallback(Fields(form.inputs, username, password), username, password)
  }

  /** The strict logged-in marker. */
  predicate ShowsLogout(body: string)
  {
    Contains(body, "Abmelden") || Contains(body, "Logout")
  }

  /** German failure words, looked for in the lower-cased body. */
  predicate ShowsError(body: string)
  {
    var lower := Lower(body);
    Contains(lower, "fehler") || Contains(lower, "falsch") || Contains(lower, "nicht erfolgreich")
  }

  predicate IsErrorUrl(url: string)
  {
    Contains(url, "err=") || Contains(url, "error=")
  }

  /** How the answer to the login POST is judged. */
  datatype Verdict = LoggedIn | Refused | Unconfirmed

  /**
   * The signals in their fixed order: the logout marker wins over everything,
   * then the error words, then an error URL; with none of them the login is
   * left to a follow-up check.
   */
  function Decide(postBody: string, finalUrl: string): (v: Verdict)
    ensures v == LoggedIn <==> ShowsLogout(postBody)
    ensures v == Refused <==> !ShowsLogout(postBody) && (ShowsError(postBody) || IsErrorUrl(finalUrl))
  {
    if ShowsLogout(postBody) then LoggedIn
    else if ShowsError(postBody) then Refused
    else if IsErrorUrl(finalUrl) then Refused
    else Unconfirmed
  }

  /**
   * What the network answers during one login attempt: the form found on the
   * login page (if any), the body and final URL of the POST's response, and
   * the body of the follow-up GET of the login page.
   */
  datatype Exchange = Exchange(form: Option<Form>, postBody: string, finalUrl: string, confirmBody: string)

  /** Whether a login attempt with these answers succeeds. */
  function AuthSucceeds(x: Exchange): (ok: bool)
    ensures x.form.None? ==> !ok
    ensures x.form.Some? && ShowsLogout(x.postBody) ==> ok
    ensures x.form.Some? && !ShowsLogout(x.postBody) && ShowsError(x.postBody) ==> !ok
    ensures x.form.Some? && !ShowsLogout(x.postBody) && IsErrorUrl(x.finalUrl) ==> !ok
    ensures x.form.Some? && !ShowsLogout(x.postBody) && !ShowsError(x.postBody) && !IsErrorUrl(x.finalUrl)
            ==> ok == ShowsLogout(x.confirmBody)
  {
    x.form.Some? &&
    match Decide(x.postBody, x.finalUrl)
    case LoggedIn => true
    case Refused => false
    case Unconfirmed => ShowsLogout(x.confirmBody)
  }
}
