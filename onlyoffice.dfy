/** The OnlyOffice integration (apps/web/src/lib/onlyoffice.ts): the server and app URLs
    read from the build environment and validated once, the document key, the editor
    configuration, and the cache of the one connector through which editor methods run. */
module OnlyOffice {
  import opened Wrappers
  import opened Text

  const DefaultServerUrl := "http://localhost:8080"
  const DefaultAppUrl := "http://localhost:5173"
  const ApiScriptPath := "/web-apps/apps/api/documents/api.js"

  /** The build-time variables; `None` is an unset variable. */
  datatype Env = Env(ooServerUrl: Option<string>, appUrl: Option<string>, token: Option<string>)

  /** The module's constants once the environment has been read. */
  datatype Settings = Settings(ooServerUrl: string, apiScript: string, appUrl: string, token: Option<string>)

  /** The test `/^https?:\/\//i`: the string starts with `http://` or `https://`, in any case. */
  predicate HasHttpScheme(s: string) {
    StartsWith(Lower(s), "http://") || StartsWith(Lower(s), "https://")
  }

  /** The scheme test ignores case. */
  lemma SchemeIgnoresCase(s: string)
    ensures HasHttpScheme(Lower(s)) == HasHttpScheme(s)
  {
    LowerIdempotent(s);
  }

  /** `s.replace(/\/$/, '')`: one trailing slash is removed, and no more. */
  function StripTrailingSlash(s: string): (r: string)
    ensures s == r + "/" || (r == s && (s == [] || s[|s| - 1] != '/'))
  {
    if s != [] && s[|s| - 1] == '/' then s[..|s| - 1] else s
  }

  /** Two trailing slashes leave one behind. */
  lemma StripOneSlashOnly(x: string)
    ensures StripTrailingSlash(x + "//") == x + "/"
  {
    assert (x + "//")[..|x| + 1] == x + "/";
  }

  /** Stripping keeps the scheme of anything longer than a bare `https://`. */
  lemma StripKeepsScheme(s: string)
    requires HasHttpScheme(s) && |s| > 8
    ensures HasHttpScheme(StripTrailingSlash(s))
  {
    var r := StripTrailingSlash(s);
    assert Lower(r) == Lower(s)[..|r|];
  }

  /** A bare `http://` passes the check but loses its scheme once stripped. */
  lemma BareSchemeStripped()
    ensures HasHttpScheme("http://") && !HasHttpScheme(StripTrailingSlash("http://"))
  {
    assert Lower("http://") == "http://";
    assert StripTrailingSlash("http://") == "http:/";
  }

  /** Reading the environment. The server URL falls back to its default only when unset
      (an empty value is kept and fails the check); the app URL is checked only when it is
      set to a non-empty value, and an empty value is used as it is. */
  function Configure(env: Env): (r: Result<Settings, string>)
    ensures r.Success? <==>
      HasHttpScheme(env.ooServerUrl.GetOr(DefaultServerUrl))
      && (env.appUrl == None || env.appUrl == Some("") || HasHttpScheme(env.appUrl.value))
    ensures r.Success? ==>
      r.value.ooServerUrl == StripTrailingSlash(env.ooServerUrl.GetOr(DefaultServerUrl))
      && r.value.apiScript == r.value.ooServerUrl + ApiScriptPath
      && r.value.appUrl == StripTrailingSlash(env.appUrl.GetOr(DefaultAppUrl))
      && r.value.token == env.token
  {
    var rawServer := env.ooServerUrl.GetOr(DefaultServerUrl);
    if !HasHttpScheme(rawServer) then
      Failure("[Sovereign] VITE_OO_SERVER_URL must start with http:// or https://. Got: \"" + rawServer + "\"")
    else
      var server := StripTrailingSlash(rawServer);
      var rawApp := env.appUrl.GetOr(DefaultAppUrl);
      if env.appUrl.Some? && env.appUrl.value != "" && !HasHttpScheme(rawApp) then
        Failure("[Sovereign] VITE_APP_URL must start with http:// or https://. Got: \"" + rawApp + "\"")
      else
        Success(Settings(server, server + ApiScriptPath, StripTrailingSlash(rawApp), env.token))
  }

  /** With nothing set, the defaults are used. */
  lemma ConfigureDefaults()
    ensures Configure(Env(None, None, None))
         == Success(Settings(DefaultServerUrl, DefaultServerUrl + ApiScriptPath, DefaultAppUrl, None))
  {
    assert Lower(DefaultServerUrl)[..7] == "http://";
  }

  /** A `javascript:` server URL is refused. */
  lemma ConfigureRefusesScript(env: Env)
    requires env.ooServerUrl == Some("javascript:alert(1)")
    ensures Configure(env).Failure?
  {
    var low := Lower("javascript:alert(1)");
    assert low[0] == LowerChar('j') == 'j';
    assert low[..7][0] != "http://"[0];
    assert low[..8][0] != "https://"[0];
  }

  /** An empty app URL is not checked and becomes the empty base. */
  lemma ConfigureEmptyAppUrl(env: Env)
    requires env.appUrl == Some("") && Configure(env).Success?
    ensures Configure(env).value.appUrl == ""
  {
  }

  /** `getOOApiScriptUrl`: a server URL given with a trailing slash gives no double slash. */
  lemma ApiScriptNoDoubleSlash(env: Env, host: string)
    requires env.ooServerUrl == Some(host + "/") && Configure(env).Success?
    ensures Configure(env).value.apiScript == host + ApiScriptPath
  {
    assert (host + "/")[..|host|] == host;
  }

  /** `generateDocumentKey`, with the random UUID as a parameter. */
  function GenerateDocumentKey(uuid: string): (r: string)
    ensures IsKeyFor(r, uuid)
  {
    "doc_" + uuid
  }

  /** `key` is the document key made from `uuid`. */
  predicate IsKeyFor(key: string, uuid: string) {
    StartsWith(key, "doc_") && key[4..] == uuid
  }

  /** Distinct UUIDs give distinct keys. */
  lemma DocumentKeysDistinct(u1: string, u2: string)
    requires u1 != u2
    ensures GenerateDocumentKey(u1) != GenerateDocumentKey(u2)
  {
    assert GenerateDocumentKey(u1)[4..] == u1;
  }

  /** The case-sensitive test `toAbsoluteUrl` uses. */
  predicate IsAbsolute(url: string) {
    StartsWith(url, "http://") || StartsWith(url, "https://")
  }

  /** `toAbsoluteUrl`: an absolute URL is kept; anything else is the app URL, one slash,
      and the URL without its leading slash. */
  function ToAbsoluteUrl(appUrl: string, url: string): (r: string)
    ensures IsAbsolute(url) ==> r == url
    ensures !IsAbsolute(url) ==>
      r == appUrl + "/" + (if url != [] && url[0] == '/' then url[1..] else url)
  {
    if IsAbsolute(url) then url
    else appUrl + (if StartsWith(url, "/") then "" else "/") + url
  }

  lemma {:induction false} StartsWithAppend(a: string, b: string, p: string)
    requires StartsWith(a, p)
    ensures StartsWith(a + b, p)
  {
    assert (a + b)[..|p|] == a[..|p|];
  }

  /** When the app URL has a lower-case scheme every result is absolute, so applying the
      function twice is applying it once. */
  lemma ToAbsoluteIdempotent(appUrl: string, url: string)
    requires IsAbsolute(appUrl)
    ensures IsAbsolute(ToAbsoluteUrl(appUrl, url))
    ensures ToAbsoluteUrl(appUrl, ToAbsoluteUrl(appUrl, url)) == ToAbsoluteUrl(appUrl, url)
  {
    if !IsAbsolute(url) {
      var tail := (if StartsWith(url, "/") then "" else "/") + url;
      assert ToAbsoluteUrl(appUrl, url) == appUrl + tail;
      if StartsWith(appUrl, "http://") {
        StartsWithAppend(appUrl, tail, "http://");
      } else {
        StartsWithAppend(appUrl, tail, "https://");
      }
    }
  }

  datatype Permissions = Permissions(comment: bool, download: bool, edit: bool, printing: bool, review: bool)

  datatype DocumentConfig = DocumentConfig(fileType: string, key: string, title: string, url: string,
                                           permissions: Permissions)

  datatype User = User(id: string, name: string)

  datatype Customization = Customization(
    autosave: bool, chat: bool, compactHeader: bool, compactToolbar: bool, feedback: bool,
    help: bool, hideRightMenu: bool, hideRulers: bool, toolbarNoTabs: bool,
    uiTheme: string, zoom: int)

  datatype EditorConfig = EditorConfig(callbackUrl: string, lang: string, user: User,
                                       customization: Customization)

  /** The configuration handed to `DocsAPI.DocEditor`; `token` is `None` when the
      configuration has no token field. */
  datatype OOConfig = OOConfig(token: Option<string>, document: DocumentConfig, documentType: string,
                               editorConfig: EditorConfig, height: string, width: string, kind: string)

  /** The arguments of `buildOOConfig`; an omitted user id or name is `None`. */
  datatype ConfigArgs = ConfigArgs(documentKey: string, documentUrl: string, documentTitle: string,
                                   callbackUrl: string, isDarkMode: bool,
                                   userId: Option<string>, userName: Option<string>)

  /** `buildOOConfig`: a Word document opened with every permission, its URL and the save
      callback made absolute, the theme following dark mode, the token included only when
      it is a non-empty string. */
  function BuildOOConfig(settings: Settings, a: ConfigArgs): (r: OOConfig)
    ensures r.token.Some? <==> settings.token.Some? && settings.token.value != ""
    ensures r.token.Some? ==> r.token == settings.token
    ensures r.document.fileType == "docx" && r.documentType == "word"
    ensures r.document.key == a.documentKey && r.document.title == a.documentTitle
    ensures r.document.url == ToAbsoluteUrl(settings.appUrl, a.documentUrl)
    ensures r.document.permissions == Permissions(true, true, true, true, true)
    ensures r.editorConfig.callbackUrl == ToAbsoluteUrl(settings.appUrl, a.callbackUrl)
    ensures r.editorConfig.lang == "en"
    ensures r.editorConfig.user.id == (if a.userId.Some? then a.userId.value else "user-1")
    ensures r.editorConfig.user.name == (if a.userName.Some? then a.userName.value else "Sovereign User")
    ensures r.editorConfig.customization.uiTheme
         == (if a.isDarkMode then "theme-dark" else "theme-classic-light")
    ensures r.editorConfig.customization.zoom == 100 && r.editorConfig.customization.autosave
    ensures r.height == "100%" && r.width == "100%" && r.kind == "desktop"
  {
    var token := if settings.token.Some? && settings.token.value != "" then settings.token else None;
    var document := DocumentConfig("docx", a.documentKey, a.documentTitle,
                                   ToAbsoluteUrl(settings.appUrl, a.documentUrl),
                                   Permissions(true, true, true, true, true));
    var theme := if a.isDarkMode then "theme-dark" else "theme-classic-light";
    var customization := Customization(true, false, true, false, false, false, false, false, false, theme, 100);
    var editor := EditorConfig(ToAbsoluteUrl(settings.appUrl, a.callbackUrl), "en",
                               User(a.userId.GetOr("user-1"), a.userName.GetOr("Sovereign User")),
                               customization);
    OOConfig(token, document, "word", editor, "100%", "100%", "desktop")
  }

  /** Under a configuration read from the environment, the document server is sent only
      absolute URLs, whatever the store holds. */
  lemma ConfigUrlsAbsolute(env: Env, a: ConfigArgs)
    requires Configure(env).Success?
    requires IsAbsolute(Configure(env).value.appUrl)
    ensures IsAbsolute(BuildOOConfig(Configure(env).value, a).document.url)
    ensures IsAbsolute(BuildOOConfig(Configure(env).value, a).editorConfig.callbackUrl)
  {
    var s := Configure(env).value;
    ToAbsoluteIdempotent(s.appUrl, a.documentUrl);
    ToAbsoluteIdempotent(s.appUrl, a.callbackUrl);
  }

  // ---------------------------------------------------------------- connector cache

  /** A connector returned by `createConnector`. */
  datatype Connector = Connector(id: nat)

  /** Data passed along with a connector method. */
  datatype CallData = NoData | Number(n: int) | Text(s: string)

  datatype MethodCall = MethodCall(connector: Connector, name: string, data: CallData)

  /** `_cachedConnector` and the methods run through it. */
  class ConnectorCache {
    var cached: Option<Connector>
    /** Every `executeMethod` call made, in order. */
    var executed: seq<MethodCall>

    constructor()
      ensures cached == None && executed == []
    {
      cached := None;
      executed := [];
    }

    /** `initOOConnector`: `created` is what `window.editor?.createConnector?.()` gives,
        `None` when there is no editor or it cannot create one. */
    method Init(created: Option<Connector>)
      modifies this
      ensures cached == created && executed == old(executed)
    {
      cached := created;
    }

    method Destroy()
      modifies this
      ensures cached == None && executed == old(executed)
    {
      cached := None;
    }

    /** `execOOMethod`: without a cached connector nothing happens (no connector is
        created); with one the method is run through it exactly once, and an exception it
        throws is swallowed, so the outcome is the same either way. */
    method Exec(name: string, data: CallData)
      modifies this
      ensures cached == old(cached)
      ensures old(cached).None? ==> executed == old(executed)
      ensures old(cached).Some? ==> executed == old(executed) + [MethodCall(old(cached).value, name, data)]
    {
      if cached.None? {
        return;
      }
      executed := executed + [MethodCall(cached.value, name, data)];
    }
  }

  /** After `destroyOOConnector`, calls are dropped until the next `initOOConnector`. */
  method ExecAfterDestroyDropped(cache: ConnectorCache, name: string, data: CallData)
    modifies cache
    ensures cache.cached == None && cache.executed == old(cache.executed)
  {
    cache.Destroy();
    cache.Exec(name, data);
  }
}
