/**
 * The browser client (`SnippetApp`): the session kept in `localStorage`,
 * sign-in, sign-out and registration feedback, and the main view-model
 * `MainCtrl` that fetches, merges, creates and removes snippets.
 *
 * `$http` is modelled as an outbox: issuing a request appends it to
 * `requests`, and each success callback is a method of its own that receives
 * the response data, to be run whenever that response arrives.
 */
module SnippetApp {
  import opened Base
  import opened Entity

  // ---------------------------------------------------------------------
  // Session in localStorage
  // ---------------------------------------------------------------------

  const IsLoggedInKey: string := "isLoggedIn"
  const UserNameKey: string := "userName"

  /** `window.localStorage`: string keys to string values. */
  class LocalStorage {
    var items: map<string, string>

    constructor (items: map<string, string>)
      ensures this.items == items
    {
      this.items := items;
    }

    method SetItem(key: string, value: string)
      modifies this
      ensures items == old(items)[key := value]
    {
      items := items[key := value];
    }

    method RemoveItem(key: string)
      modifies this
      ensures items == old(items) - {key}
    {
      items := items - {key};
    }
  }

  /** `localStorage.getItem('isLoggedIn') === 'true'`: any other value, or
      none, is signed out. */
  predicate IsLoggedIn(items: map<string, string>) {
    IsLoggedInKey in items && items[IsLoggedInKey] == "true"
  }

  /** `localStorage.getItem('userName') || ''`. */
  function StoredUserName(items: map<string, string>): string {
    if UserNameKey in items then items[UserNameKey] else ""
  }

  /** Only the exact string `"true"` under `isLoggedIn` opens the session, and
      a missing `userName` reads as the empty name. */
  lemma SessionReadsStorage(items: map<string, string>, flag: string, name: string)
    ensures IsLoggedIn(items[IsLoggedInKey := flag]) <==> flag == "true"
    ensures !IsLoggedIn(items - {IsLoggedInKey})
    ensures StoredUserName(items[UserNameKey := name]) == name
    ensures StoredUserName(items - {UserNameKey}) == ""
  {
  }

  /** Whether the client acts as a named user: signed in with a non-empty name. */
  predicate ActsAsUser(items: map<string, string>) {
    IsLoggedIn(items) && StoredUserName(items) != ""
  }

  /** The storage left by `signOut`. */
  function SignedOut(items: map<string, string>): map<string, string> {
    items - {IsLoggedInKey, UserNameKey}
  }

  /** The storage left by a successful login as `name`. */
  function SignedIn(items: map<string, string>, name: string): map<string, string> {
    items[IsLoggedInKey := "true"][UserNameKey := name]
  }

  /** After sign-out the session is over and no name is remembered; every
      other key keeps its value. */
  lemma SignOutEndsSession(items: map<string, string>)
    ensures !IsLoggedIn(SignedOut(items)) && StoredUserName(SignedOut(items)) == ""
    ensures !ActsAsUser(SignedOut(items))
    ensures forall k :: k != IsLoggedInKey && k != UserNameKey ==>
              (k in SignedOut(items) <==> k in items) &&
              (k in items ==> SignedOut(items)[k] == items[k])
  {
  }

  /** After a successful login the session is open under the submitted
      name, and a non-empty name makes the client act as that user. */
  lemma LoginStartsSession(items: map<string, string>, name: string)
    ensures IsLoggedIn(SignedIn(items, name)) && StoredUserName(SignedIn(items, name)) == name
    ensures ActsAsUser(SignedIn(items, name)) <==> name != ""
    ensures forall k :: k != IsLoggedInKey && k != UserNameKey ==>
              (k in SignedIn(items, name) <==> k in items) &&
              (k in items ==> SignedIn(items, name)[k] == items[k])
  {
  }

  function SignOutMessage(name: string): string {
    if name != "" then name + " signed out successfully" else "Signed out successfully"
  }

  /** `window.signOut`: forgets the session and returns the text it alerts. */
  method SignOut(storage: LocalStorage) returns (message: string)
    modifies storage
    ensures storage.items == SignedOut(old(storage.items))
    ensures old(StoredUserName(storage.items)) != "" ==>
              message == old(StoredUserName(storage.items)) + " signed out successfully"
    ensures old(StoredUserName(storage.items)) == "" ==> message == "Signed out successfully"
  {
    var name := StoredUserName(storage.items);
    storage.RemoveItem(IsLoggedInKey);
    storage.RemoveItem(UserNameKey);
    message := SignOutMessage(name);
  }

  // ---------------------------------------------------------------------
  // HTTP requests the client issues
  // ---------------------------------------------------------------------

  datatype Verb = GET | POST | DELETE

  /** The `{ title, code, language }` form of the main view. */
  datatype Form = Form(title: string, code: string, language: string)

  /** The `{ name, password }` form of the login and register views. */
  datatype Credentials = Credentials(name: string, password: string)

  datatype Body = NoBody | FormBody(form: Form) | CredentialsBody(credentials: Credentials)

  /** A request as `$http` sends it; `userNameHeader` is `X-User-Name`. */
  datatype HttpRequest = HttpRequest(verb: Verb, url: string, userNameHeader: Option<string>, body: Body)

  /** What `res.data` held: a JSON array, or anything else. */
  datatype Data<T> = JsonArray(items: seq<T>) | OtherJson

  const GuestRequest: HttpRequest := HttpRequest(GET, "/api/snippets/guest", None, NoBody)
  const LanguagesRequest: HttpRequest := HttpRequest(GET, "/api/snippets/languages", None, NoBody)

  function MeRequest(name: string): HttpRequest {
    HttpRequest(GET, "/api/snippets/me", Some(name), NoBody)
  }

  /** The `X-User-Name` header `create` attaches. */
  function UserHeader(items: map<string, string>): (r: Option<string>)
    ensures r.Some? <==> IsLoggedIn(items) && StoredUserName(items) != ""
    ensures r.Some? ==> r.value == StoredUserName(items) && r.value != ""
  {
    if ActsAsUser(items) then Some(StoredUserName(items)) else None
  }

  /** The requests one run of `load` issues, in order. */
  function LoadRequests(items: map<string, string>): (r: seq<HttpRequest>)
    ensures 2 <= |r| <= 3 && r[0] == GuestRequest && r[|r| - 1] == LanguagesRequest
    ensures |r| == 3 <==> ActsAsUser(items)
  {
    [GuestRequest] + (if ActsAsUser(items) then [MeRequest(StoredUserName(items))] else []) +
    [LanguagesRequest]
  }

  function CreateRequest(form: Form, items: map<string, string>): HttpRequest {
    HttpRequest(POST, "/api/snippets", UserHeader(items), FormBody(form))
  }

  /** `load` fetches the user's own list exactly when it acts as a named
      user; a header it sends is never empty, and it is the one `create`
      would send from the same storage. */
  lemma LoadFetchesUserListIffActingAsUser(items: map<string, string>)
    ensures (exists name :: MeRequest(name) in LoadRequests(items)) <==> ActsAsUser(items)
    ensures forall r :: r in LoadRequests(items) && r.userNameHeader.Some? ==>
              r.userNameHeader == UserHeader(items) && r.userNameHeader.value != ""
    ensures GuestRequest in LoadRequests(items) && LanguagesRequest in LoadRequests(items)
  {
    var rs := LoadRequests(items);
    assert rs[0] == GuestRequest && rs[|rs| - 1] == LanguagesRequest;
    if ActsAsUser(items) {
      assert rs[1] == MeRequest(StoredUserName(items));
    }
  }

  // ---------------------------------------------------------------------
  // Login and registration
  // ---------------------------------------------------------------------

  /** `LoginCtrl`. */
  class LoginCtrl {
    var form: Credentials
    var requests: seq<HttpRequest>

    constructor ()
      ensures form == Credentials("", "") && requests == []
    {
      form := Credentials("", "");
      requests := [];
    }

    /** `vm.login`: posts the form. */
    method Login()
      modifies this
      ensures form == old(form)
      ensures requests == old(requests) + [HttpRequest(POST, "/api/auth/login", None, CredentialsBody(form))]
    {
      requests := requests + [HttpRequest(POST, "/api/auth/login", None, CredentialsBody(form))];
    }

    /** The success callback of `vm.login`: records the signed-in session. */
    method OnLoginSuccess(storage: LocalStorage)
      modifies storage
      ensures storage.items == SignedIn(old(storage.items), form.name)
      ensures IsLoggedIn(storage.items) && StoredUserName(storage.items) == form.name
    {
      storage.SetItem(IsLoggedInKey, "true");
      storage.SetItem(UserNameKey, form.name);
      LoginStartsSession(old(storage.items), form.name);
    }
  }

  /** The rejected `$http` promise of a failed registration: `err.data.message`,
      where any link may be missing. */
  datatype ErrorBody = ErrorBody(message: Option<string>)
  datatype HttpError = HttpError(data: Option<ErrorBody>)

  const RegisterFailedPrefix: string := "Registration failed: "
  const RegisterFailedDefault: string := "Registration failed! Please enter both name and password"

  /** The server's message, or `""` when there is none. */
  function ServerMessage(err: Option<HttpError>): string {
    if err.Some? && err.value.data.Some? && err.value.data.value.message.Some?
    then err.value.data.value.message.value
    else ""
  }

  /** The text `RegisterCtrl` alerts on failure: the server's message when it
      has a non-empty one, the fixed hint otherwise. */
  function RegisterFailureMessage(err: Option<HttpError>): (msg: string)
    ensures |msg| > |RegisterFailedPrefix| && msg[..|RegisterFailedPrefix|] == RegisterFailedPrefix
    ensures ServerMessage(err) != "" ==> msg[|RegisterFailedPrefix|..] == ServerMessage(err)
    ensures ServerMessage(err) == "" ==> msg[|RegisterFailedPrefix|..] == RegisterFailedDefault
  {
    var reason := ServerMessage(err);
    RegisterFailedPrefix + (if reason != "" then reason else RegisterFailedDefault)
  }

  // ---------------------------------------------------------------------
  // Language aliases for the highlighter
  // ---------------------------------------------------------------------

  /** The alias table of `prismAlias`, keyed by enum name. */
  const PrismAliases: map<string, string> := map[
    "JAVA" := "java", "JAVASCRIPT" := "javascript", "TYPESCRIPT" := "typescript",
    "PYTHON" := "python", "GO" := "go", "CSHARP" := "csharp", "CPP" := "cpp",
    "HTML" := "markup", "CSS" := "css", "SQL" := "sql", "JSON" := "json",
    "YAML" := "yaml", "SHELL" := "bash"]

  /** `vm.prismAlias`: the table entry, or `clike` for a name it lacks. */
  function PrismAlias(lang: string): (r: string)
    ensures r != ""
    ensures r == "clike" <==> lang !in PrismAliases
  {
    if lang in PrismAliases then PrismAliases[lang] else "clike"
  }

  /** The highlighter language meant for each server language. */
  function LanguageAlias(l: Language): string {
    match l
    case JAVA => "java"
    case JAVASCRIPT => "javascript"
    case TYPESCRIPT => "typescript"
    case PYTHON => "python"
    case GO => "go"
    case CSHARP => "csharp"
    case CPP => "cpp"
    case HTML => "markup"
    case CSS => "css"
    case SQL => "sql"
    case JSON => "json"
    case YAML => "yaml"
    case SHELL => "bash"
  }

  /** Every language the server knows gets its own alias, never the fallback. */
  lemma PrismAliasOfLanguage(l: Language)
    ensures PrismAlias(LanguageName(l)) == LanguageAlias(l)
    ensures PrismAlias(LanguageName(l)) != "clike"
  {
  }

  /** The fallback is used exactly for names that are no language. */
  lemma PrismAliasFallsBackOnUnknown(lang: string)
    ensures PrismAlias(lang) == "clike" <==> forall l :: LanguageName(l) != lang
  {
    if lang in PrismAliases {
      var l :=
        if lang == "JAVA" then JAVA else if lang == "JAVASCRIPT" then JAVASCRIPT
        else if lang == "TYPESCRIPT" then TYPESCRIPT else if lang == "PYTHON" then PYTHON
        else if lang == "GO" then GO else if lang == "CSHARP" then CSHARP
        else if lang == "CPP" then CPP else if lang == "HTML" then HTML
        else if lang == "CSS" then CSS else if lang == "SQL" then SQL
        else if lang == "JSON" then JSON else if lang == "YAML" then YAML
        else SHELL;
      assert LanguageName(l) == lang;
      PrismAliasOfLanguage(l);
    } else {
      forall l: Language ensures LanguageName(l) != lang {
        PrismAliasOfLanguage(l);
      }
    }
  }

  // ---------------------------------------------------------------------
  // The main view-model
  // ---------------------------------------------------------------------

  /** A snippet as the client receives it; `createdAt` is the instant as a
      number, which is what `new Date(...)` subtraction compares. */
  datatype ClientSnippet = ClientSnippet(id: string, title: string, code: string, language: string, createdAt: int)

  /** The order the comparator `new Date(b.createdAt) - new Date(a.createdAt)` asks for. */
  predicate SortedByCreatedAtDesc(s: seq<ClientSnippet>) {
    forall i, j :: 0 <= i < j < |s| ==> s[i].createdAt >= s[j].createdAt
  }

  /** `Array.prototype.sort` with that comparator, in place. */
  method SortByCreatedAtDesc(a: array<ClientSnippet>)
    modifies a
    ensures SortedByCreatedAtDesc(a[..])
    ensures multiset(a[..]) == multiset(old(a[..]))
  {
    var i := 0;
    while i < a.Length
      invariant 0 <= i <= a.Length
      invariant SortedByCreatedAtDesc(a[..i])
      invariant multiset(a[..]) == multiset(old(a[..]))
    {
      InsertIntoPrefix(a, i);
      i := i + 1;
    }
    assert a[..a.Length] == a[..];
  }

  /** One insertion step: `a[i]` moves left past every newer element, so that
      the sorted prefix `a[..i]` grows by one. */
  method InsertIntoPrefix(a: array<ClientSnippet>, i: nat)
    requires i < a.Length
    requires SortedByCreatedAtDesc(a[..i])
    modifies a
    ensures SortedByCreatedAtDesc(a[..i + 1])
    ensures multiset(a[..]) == multiset(old(a[..]))
  {
    var j := i;
    while 0 < j && a[j - 1].createdAt < a[j].createdAt
      invariant 0 <= j <= i
      invariant forall m, n :: 0 <= m < n <= i && m != j && n != j ==> a[m].createdAt >= a[n].createdAt
      invariant forall n :: j < n <= i ==> a[j].createdAt >= a[n].createdAt
      invariant multiset(a[..]) == multiset(old(a[..]))
    {
      Swap(a, j - 1, j);
      j := j - 1;
    }
  }

  method Swap(a: array<ClientSnippet>, p: nat, q: nat)
    requires p < a.Length && q < a.Length
    modifies a
    ensures a[..] == old(a[..])[p := old(a[q])][q := old(a[p])]
    ensures multiset(a[..]) == multiset(old(a[..]))
  {
    a[p], a[q] := a[q], a[p];
  }

  /** `MainCtrl`, the view-model of the `/app` route. */
  class MainCtrl {
    var form: Form
    var snippetsGuest: seq<ClientSnippet>
    var snippetsUser: seq<ClientSnippet>
    var snippetsAll: seq<ClientSnippet>
    var languages: Data<string>
    var requests: seq<HttpRequest>

    /** The merged list is always the guest and own lists together, newest first. */
    ghost predicate Valid()
      reads this
    {
      && SortedByCreatedAtDesc(snippetsAll)
      && multiset(snippetsAll) == multiset(snippetsGuest + snippetsUser)
    }

    /** The controller's construction: empty lists, the default form, then `load`. */
    constructor (storage: LocalStorage)
      ensures Valid()
      ensures form == Form("", "", "JAVA") && languages == JsonArray([])
      ensures snippetsGuest == [] && snippetsUser == [] && snippetsAll == []
      ensures requests == LoadRequests(storage.items)
    {
      form := Form("", "", "JAVA");
      snippetsGuest, snippetsUser, snippetsAll := [], [], [];
      languages := JsonArray([]);
      requests := [];
      new;
      Load(storage);
    }

    /** `updateAll`: the guest and own lists merged and sorted newest first. */
    method UpdateAll()
      modifies this
      ensures SortedByCreatedAtDesc(snippetsAll)
      ensures multiset(snippetsAll) == multiset(snippetsGuest + snippetsUser)
      ensures |snippetsAll| == |snippetsGuest| + |snippetsUser|
      ensures snippetsGuest == old(snippetsGuest) && snippetsUser == old(snippetsUser)
      ensures form == old(form) && languages == old(languages) && requests == old(requests)
    {
      var combined := snippetsGuest + snippetsUser;
      var a := new ClientSnippet[|combined|](k requires 0 <= k < |combined| => combined[k]);
      assert a[..] == combined;
      SortByCreatedAtDesc(a);
      snippetsAll := a[..];
      assert |multiset(snippetsAll)| == |multiset(combined)|;
    }

    /** `vm.load`: always asks for the guest list and the languages; asks for
        the own list only when acting as a named user, and otherwise empties
        it and re-merges at once. */
    method Load(storage: LocalStorage)
      requires Valid()
      modifies this
      ensures Valid()
      ensures requests == old(requests) + LoadRequests(storage.items)
      ensures form == old(form) && snippetsGuest == old(snippetsGuest) && languages == old(languages)
      ensures ActsAsUser(storage.items) ==>
                snippetsUser == old(snippetsUser) && snippetsAll == old(snippetsAll)
      ensures !ActsAsUser(storage.items) ==> snippetsUser == []
    {
      var isLoggedIn := IsLoggedIn(storage.items);
      var userName := StoredUserName(storage.items);
      requests := requests + [GuestRequest];
      if isLoggedIn && userName != "" {
        requests := requests + [MeRequest(userName)];
      } else {
        snippetsUser := [];
        UpdateAll();
      }
      requests := requests + [LanguagesRequest];
    }

    /** The guest list arrived: anything but an array counts as no snippets. */
    method OnGuestLoaded(data: Data<ClientSnippet>)
      modifies this
      ensures Valid()
      ensures snippetsGuest == if data.JsonArray? then data.items else []
      ensures snippetsUser == old(snippetsUser)
      ensures form == old(form) && languages == old(languages) && requests == old(requests)
    {
      snippetsGuest := if data.JsonArray? then data.items else [];
      UpdateAll();
    }

    /** The own list arrived: anything but an array counts as no snippets. */
    method OnUserLoaded(data: Data<ClientSnippet>)
      modifies this
      ensures Valid()
      ensures snippetsUser == if data.JsonArray? then data.items else []
      ensures snippetsGuest == old(snippetsGuest)
      ensures form == old(form) && languages == old(languages) && requests == old(requests)
    {
      snippetsUser := if data.JsonArray? then data.items else [];
      UpdateAll();
    }

    /** The language list arrived: taken as it is, unchecked. */
    method OnLanguagesLoaded(data: Data<string>)
      modifies this
      ensures languages == data
      ensures form == old(form) && requests == old(requests)
      ensures snippetsGuest == old(snippetsGuest) && snippetsUser == old(snippetsUser)
      ensures snippetsAll == old(snippetsAll)
    {
      languages := data;
    }

    /** `vm.create`: posts the form, naming the user only when acting as one. */
    method Create(storage: LocalStorage)
      modifies this
      ensures requests == old(requests) + [CreateRequest(form, storage.items)]
      ensures form == old(form) && languages == old(languages)
      ensures snippetsGuest == old(snippetsGuest) && snippetsUser == old(snippetsUser)
      ensures snippetsAll == old(snippetsAll)
    {
      var headers: Option<string> := None;
      var isLoggedIn := IsLoggedIn(storage.items);
      var userName := StoredUserName(storage.items);
      if isLoggedIn && userName != "" {
        headers := Some(userName);
      }
      requests := requests + [HttpRequest(POST, "/api/snippets", headers, FormBody(form))];
    }

    /** The success callback of `create`: clears title and code, keeps the
        chosen language, and reloads. */
    method OnCreateSuccess(storage: LocalStorage)
      requires Valid()
      modifies this
      ensures Valid()
      ensures form == old(form).(title := "", code := "")
      ensures form.language == old(form.language)
      ensures requests == old(requests) + LoadRequests(storage.items)
      ensures snippetsGuest == old(snippetsGuest) && languages == old(languages)
      ensures ActsAsUser(storage.items) ==>
                snippetsUser == old(snippetsUser) && snippetsAll == old(snippetsAll)
      ensures !ActsAsUser(storage.items) ==> snippetsUser == []
    {
      form := form.(code := "");
      form := form.(title := "");
      Load(storage);
    }

    /** `vm.remove`: asks the server to delete the snippet. */
    method Remove(id: string)
      modifies this
      ensures requests == old(requests) + [HttpRequest(DELETE, "/api/snippets/" + id, None, NoBody)]
      ensures form == old(form) && languages == old(languages)
      ensures snippetsGuest == old(snippetsGuest) && snippetsUser == old(snippetsUser)
      ensures snippetsAll == old(snippetsAll)
    {
      requests := requests + [HttpRequest(DELETE, "/api/snippets/" + id, None, NoBody)];
    }

    /** The success callback of `remove`: reloads everything from the server. */
    method OnRemoveSuccess(storage: LocalStorage)
      requires Valid()
      modifies this
      ensures Valid()
      ensures requests == old(requests) + LoadRequests(storage.items)
      ensures form == old(form) && snippetsGuest == old(snippetsGuest) && languages == old(languages)
      ensures ActsAsUser(storage.items) ==>
                snippetsUser == old(snippetsUser) && snippetsAll == old(snippetsAll)
      ensures !ActsAsUser(storage.items) ==> snippetsUser == []
    {
      Load(storage);
    }
  }
}
