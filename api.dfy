/**
 * `HomeInfoPointClient`: the client that logs in to the portal and scrapes
 * the data page. Every network answer is a parameter; every request the
 * client would send is returned, in order, as a `Request`.
 */
module Api {
  import opened Wrappers
  import opened Strings
  import opened Markup
  import opened Results
  import opened Login
  import opened LastUpdatePass
  import opened AbsencesPass
  import opened GradesPass

  datatype Request = Get(url: string) | Post(url: string, fields: map<string, string>)

  /** The page that holds the data, relative to the base URL. */
  const DataPage := "getdata.php"

  /** All three passes over the data page; the absence pass can abort the whole fetch. */
  function ExtractPage(page: Page): (r: Result<FetchResult, FetchError>)
    ensures r.Err? <==> HasBadDayRow(AbsenceRows(Tables(page.elements)))
    ensures r.Err? ==> r.error.NotAnInteger?
    ensures r.Ok? ==> && r.value.lastUpdate == LastUpdate(page.text)
                      && AbsencesOf(Tables(page.elements)) == Ok(r.value.absences)
                      && r.value.grades == GradesOf(page.elements)
  {
    FoldRowsFails(AbsenceRows(Tables(page.elements)));
    match AbsencesOf(Tables(page.elements))
    case Err(e) => Err(e)
    case Ok(a) => Ok(FetchResult(LastUpdate(page.text), a, GradesOf(page.elements)))
  }

  class Client {
    const username: string
    const password: string
    var url: string

    /** The base URL always ends in `/`. */
    ghost predicate Valid()
      reads this
    {
      EndsWith(url, "/")
    }

    /** Stores the credentials and the base URL, appending `/` unless it is already there. */
    constructor (username: string, password: string, url: string)
      ensures Valid()
      ensures this.username == username && this.password == password
      ensures EndsWith(url, "/") ==> this.url == url
      ensures !EndsWith(url, "/") ==> this.url == url + "/"
    {
      this.username := username;
      this.password := password;
      this.url := url;
      new;
      if !EndsWith(this.url, "/") {
        this.url := this.url + "/";
      }
    }

    /** The login page under the base URL; since the base ends in `/`, a `/` precedes the page name. */
    function LoginUrl(): (r: string)
      reads this
      ensures StartsWith(r, url) && EndsWith(r, LoginPage)
      ensures Valid() ==> EndsWith(r, "/" + LoginPage)
    {
      url + LoginPage
    }

    /** The data page under the base URL; since the base ends in `/`, a `/` precedes the page name. */
    function DataUrl(): (r: string)
      reads this
      ensures StartsWith(r, url) && EndsWith(r, DataPage)
      ensures Valid() ==> EndsWith(r, "/" + DataPage)
    {
      url + DataPage
    }

    /**
     * The requests of one login attempt: the GET of the login page, then,
     * if it has a form, the POST of the filled-in form, and then the
     * follow-up GET only when the POST's answer settles nothing.
     */
    function AuthRequests(x: Exchange): (r: seq<Request>)
      reads this
      ensures 1 <= |r| <= 3 && r[0] == Get(LoginUrl())
      ensures x.form.None? <==> |r| == 1
      ensures x.form.Some? ==> r[1] == Post(PostTarget(url, x.form.value.action), LoginFields(x.form.value, username, password))
      ensures |r| == 3 <==> x.form.Some? && !ShowsLogout(x.postBody) && !ShowsError(x.postBody) && !IsErrorUrl(x.finalUrl)
      ensures |r| == 3 ==> r[2] == Get(LoginUrl())
    {
      match x.form
      case None => [Get(LoginUrl())]
      case Some(form) =>
        [Get(LoginUrl()), Post(PostTarget(url, form.action), LoginFields(form, username, password))]
        + if Decide(x.postBody, x.finalUrl) == Unconfirmed then [Get(LoginUrl())] else []
    }

    /** `_check_logged_in`: logged in only if the login page shows "Abmelden" or "Logout". */
    method CheckLoggedIn(body: string) returns (loggedIn: bool, sent: seq<Request>)
      requires Valid()
      ensures loggedIn <==> Contains(body, "Abmelden") || Contains(body, "Logout")
      ensures sent == [Get(LoginUrl())]
    {
      sent := [Get(url + LoginPage)];
      loggedIn := Contains(body, "Abmelden") || Contains(body, "Logout");
    }

    /** `authenticate`: fill in and post the login form, then judge the answer. */
    method Authenticate(x: Exchange) returns (ok: bool, sent: seq<Request>)
      requires Valid()
      ensures ok == AuthSucceeds(x)
      ensures sent == AuthRequests(x)
    {
      var startUrl := url + LoginPage;
      sent := [Get(startUrl)];
      if x.form.None? {
        return false, sent;
      }
      var form := x.form.value;
      var postUrl := PostTarget(url, form.action);

      var data: map<string, string> := map[];
      for i := 0 to |form.inputs|
        invariant data == Fields(form.inputs[..i], username, password)
      {
        var input := form.inputs[i];
        assert form.inputs[..i + 1][..i] == form.inputs[..i];
        if input.name.None? || input.name.value == "" {
          continue;
        }
        var name := input.name.value;
        var inputType := Lower(input.kind);
        var value := input.value;
        if inputType == "submit" {
          data := data[name := value];
          continue;
        }
        var lowerName := Lower(name);
        if (Contains(lowerName, "user") || Contains(lowerName, "login")) && !Contains(lowerName, "pass") {
          data := data[name := username];
        } else if Contains(lowerName, "pass") {
          data := data[name := password];
        } else {
          data := data[name := value];
        }
      }
      assert form.inputs[..|form.inputs|] == form.inputs;

      if "username" !in data && "user" !in data {
        data := data["username" := username];
      }
      if "password" !in data {
        data := data["password" := password];
      }
      if "login" !in data {
        data := data["login" := "Anmelden"];
      }
      sent := sent + [Post(postUrl, data)];

      match Decide(x.postBody, x.finalUrl)
      case LoggedIn =>
        ok := true;
      case Refused =>
        ok := false;
      case Unconfirmed =>
        var confirmSent;
        ok, confirmSent := CheckLoggedIn(x.confirmBody);
        sent := sent + confirmSent;
    }

    /**
     * `get_data`: log in only if the probe shows no logged-in session, fail
     * if that login fails, otherwise fetch the data page and run the three
     * passes over it.
     */
    method GetData(probeBody: string, x: Exchange, page: Page) returns (r: Result<FetchResult, FetchError>, sent: seq<Request>)
      requires Valid()
      ensures ShowsLogout(probeBody) ==> sent == [Get(LoginUrl()), Get(DataUrl())]
      ensures !ShowsLogout(probeBody) && AuthSucceeds(x) ==> sent == [Get(LoginUrl())] + AuthRequests(x) + [Get(DataUrl())]
      ensures !ShowsLogout(probeBody) && !AuthSucceeds(x) ==> sent == [Get(LoginUrl())] + AuthRequests(x)
      ensures !ShowsLogout(probeBody) && !AuthSucceeds(x) ==> r == Err(AuthenticationFailed)
      ensures ShowsLogout(probeBody) || AuthSucceeds(x) ==> r == ExtractPage(page)
    {
      var loggedIn;
      loggedIn, sent := CheckLoggedIn(probeBody);
      if !loggedIn {
        var ok, authSent := Authenticate(x);
        sent := sent + authSent;
        if !ok {
          return Err(AuthenticationFailed), sent;
        }
      }
      sent := sent + [Get(url + DataPage)];
      var lastUpdate := LastUpdate(page.text);
      var absences := ParseAbsences(Tables(page.elements));
      if absences.Err? {
        return Err(absences.error), sent;
      }
      var grades := ParseGrades(page.elements);
      r := Ok(FetchResult(lastUpdate, absences.value, grades));
    }
  }
}
