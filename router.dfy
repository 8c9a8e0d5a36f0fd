/**
 * The action router of the session manager (src/main.py, `_handle_notification_action` and its
 * helpers): which category an application falls into, which window it should bring forward,
 * and which window-manager and process commands a click on an action asks for.
 * The commands themselves are opaque effects; their failures are never seen by the caller.
 */
module Router {
  import opened Wrappers
  import opened Text

  /** The four routing policies. */
  datatype Category = Chat | Email | Editor | Generic

  const ChatApps: seq<string> := ["discord", "element", "telegram", "whatsapp", "signal"]
  const EmailApps: seq<string> := ["thunderbird", "evolution", "geary"]
  const EditorApps: seq<string> := ["code", "visual studio code", "vscode"]
  /** Action keys for which a chat app gets more than focus. */
  const ChatKeys: seq<string> := ["reply", "open", "show"]
  /** The key combinations sent, as joined by `" ".join(keys)`. */
  const CtrlK: string := "CTRL K"
  const CtrlF: string := "CTRL F"

  /** The category of a lower-cased application name, first list that holds it. */
  function CategoryOf(app: string): Category
  {
    if app in ChatApps then Chat
    else if app in EmailApps then Email
    else if app in EditorApps then Editor
    else Generic
  }

  // ---------------------------------------------------------------------------
  // Window selection

  /** Window classes known to belong to an application (`app_mappings` of `_match_app_to_class`). */
  const AppMappings: map<string, seq<string>> := map[
    "discord" := ["discord", "discordcanary"],
    "telegram" := ["telegram-desktop", "telegramdesktop", "org.telegram.desktop"],
    "whatsapp" := ["whatsapp-for-linux", "whatsapp", "elecwhat"],
    "signal" := ["signal", "org.signal.signal"],
    "code" := ["code", "code-oss", "visual-studio-code"],
    "thunderbird" := ["thunderbird", "mozilla-thunderbird"],
    "firefox" := ["firefox", "firefox-esr"],
    "chrome" := ["google-chrome", "chromium", "chromium-browser"]
  ]

  /** The class names tried for an application; an unmapped name stands for itself. */
  function Aliases(app: string): seq<string>
  {
    if app in AppMappings then AppMappings[app] else [app]
  }

  /** `_match_app_to_class`: some alias of the application occurs in the window class. */
  predicate MatchAppToClass(app: string, windowClass: string)
  {
    exists i :: 0 <= i < |Aliases(app)| && Contains(windowClass, Aliases(app)[i])
  }

  /** For an application without a mapping, matching a class is plain substring search. */
  lemma UnmappedMatchesItself(app: string, windowClass: string)
    requires app !in AppMappings
    ensures MatchAppToClass(app, windowClass) <==> Contains(windowClass, app)
  {
    assert Aliases(app) == [app];
    if Contains(windowClass, app) {
      assert Contains(windowClass, Aliases(app)[0]);
    }
  }

  /** One client of the window manager's list; a missing key reads as "". */
  datatype Client = Client(windowClass: string, title: string, address: string)

  /**
   * An element of the decoded client list: a JSON object whose "class" and "title" are strings
   * (or missing), or an entry that raises when it is read — a non-object, or an object whose
   * "class" or "title" is null or not a string (`.lower()` then fails).
   */
  datatype ClientEntry = Object(client: Client) | NonObject

  /** The search condition of `_focus_application_window` for one client. */
  predicate Matches(c: Client, app: string)
  {
    Contains(Lower(c.windowClass), app) || Contains(Lower(c.title), app) || MatchAppToClass(app, Lower(c.windowClass))
  }

  /** The search loop stops at an entry: it matches, or reading it raises. */
  predicate Stops(e: ClientEntry, app: string)
  {
    e.NonObject? || Matches(e.client, app)
  }

  /** Index of the entry the search stops at, or the length of the list when it runs through. */
  function FirstStop(entries: seq<ClientEntry>, app: string): (k: nat)
    ensures k <= |entries|
    ensures forall j :: 0 <= j < k ==> entries[j].Object? && !Matches(entries[j].client, app)
    ensures k < |entries| ==> Stops(entries[k], app)
  {
    if entries == [] then 0
    else if Stops(entries[0], app) then 0
    else 1 + FirstStop(entries[1..], app)
  }

  /** How the search ends: the first matching client, no match, or an error from a non-object. */
  datatype Search = Found(client: Client) | NotFound | Raised

  function SearchClients(entries: seq<ClientEntry>, app: string): Search
  {
    var k := FirstStop(entries, app);
    if k == |entries| then NotFound
    else if entries[k].NonObject? then Raised
    else Found(entries[k].client)
  }

  /** The search loop of `_focus_application_window`. */
  method FindTarget(entries: seq<ClientEntry>, app: string) returns (s: Search)
    ensures s == SearchClients(entries, app)
    ensures s.NotFound? <==> forall j :: 0 <= j < |entries| ==> entries[j].Object? && !Matches(entries[j].client, app)
    ensures s.Found? ==> Object(s.client) in entries && Matches(s.client, app)
  {
    s := NotFound;
    var i := 0;
    while i < |entries|
      invariant 0 <= i <= |entries|
      invariant forall j :: 0 <= j < i ==> entries[j].Object? && !Matches(entries[j].client, app)
      invariant s == NotFound
    {
      match entries[i]
      case NonObject =>
        s := Raised;
        break;
      case Object(client) =>
        var windowClass := Lower(client.windowClass);
        var windowTitle := Lower(client.title);
        if Contains(windowClass, app) || Contains(windowTitle, app) || MatchAppToClass(app, windowClass) {
          s := Found(client);
          break;
        }
      i := i + 1;
    }
  }

  // ---------------------------------------------------------------------------
  // Effects

  /** The outside commands the router runs, in the order it runs them. */
  datatype Effect =
    | ListClients                       // hyprctl clients -j
    | FocusAddress(address: string)     // hyprctl dispatch focuswindow address:<address>
    | FocusClass(windowClass: string)   // hyprctl dispatch focuswindow class:^<class>$
    | Launch(command: string)           // run the application by name
    | Pause                             // sleep 0.1
    | SendShortcut(keys: string)        // hyprctl dispatch sendshortcut <keys> class:^.*$
    | OpenAtPath(path: string)          // code --goto <path>

  /**
   * What the client-list query gave: a failure that `_focus_application_window` catches (non-zero
   * exit, missing program, invalid JSON), a JSON value that raises as soon as it is iterated
   * (a number, `null`, a non-empty string or object), or a list of entries.
   */
  datatype ClientQuery = QueryFailed | Unusable | Listed(entries: seq<ClientEntry>)

  /** The outside world as one action sees it: the client list and the editor path match in the body. */
  datatype Environment = Environment(query: ClientQuery, pathMatch: Option<string>)

  /** The commands of one focus attempt, whether it focused a window, and whether it raised. */
  datatype Focus = Focus(effects: seq<Effect>, focused: bool, raised: bool)

  /**
   * `_focus_application_window`: focus the first match by address, else by class, else launch
   * the application; an error the function does not catch raises out of the routing.
   */
  function FocusOutcome(app: string, query: ClientQuery): Focus
  {
    match query
    case QueryFailed => Focus([ListClients, Launch(app)], false, false)
    case Unusable => Focus([ListClients], false, true)
    case Listed(entries) =>
      match SearchClients(entries, app)
      case Raised => Focus([ListClients], false, true)
      case NotFound => Focus([ListClients, Launch(app)], false, false)
      case Found(c) =>
        if c.address != "" then Focus([ListClients, FocusAddress(c.address)], true, false)
        else if c.windowClass != "" then Focus([ListClients, FocusClass(c.windowClass)], true, false)
        else Focus([ListClients, Launch(app)], false, false)
  }

  /** Focusing raises for this application and client list. */
  predicate Raises(app: string, query: ClientQuery)
  {
    FocusOutcome(app, query).raised
  }

  /**
   * Focus goes to the first matching client: by its address when it has one, else by its class;
   * a match without address and class launches the application instead.
   */
  lemma FocusPicksFirstMatch(app: string, entries: seq<ClientEntry>, k: nat)
    requires k < |entries| && entries[k].Object? && Matches(entries[k].client, app)
    requires forall j :: 0 <= j < k ==> entries[j].Object? && !Matches(entries[j].client, app)
    ensures var c := entries[k].client;
      && (c.address != "" ==> FocusOutcome(app, Listed(entries)) == Focus([ListClients, FocusAddress(c.address)], true, false))
      && (c.address == "" && c.windowClass != "" ==>
            FocusOutcome(app, Listed(entries)) == Focus([ListClients, FocusClass(c.windowClass)], true, false))
      && (c.address == "" && c.windowClass == "" ==>
            FocusOutcome(app, Listed(entries)) == Focus([ListClients, Launch(app)], false, false))
  {
  }

  /** With no matching client, and every entry readable, the application is launched. */
  lemma NoMatchLaunches(app: string, entries: seq<ClientEntry>)
    requires forall j :: 0 <= j < |entries| ==> entries[j].Object? && !Matches(entries[j].client, app)
    ensures FocusOutcome(app, Listed(entries)) == Focus([ListClients, Launch(app)], false, false)
  {
  }

  /**
   * The first non-object in the list raises exactly when no client before it matches; after a
   * match it is never read.
   */
  lemma NonObjectRaisesOnlyBeforeMatch(app: string, entries: seq<ClientEntry>, k: nat)
    requires k < |entries| && entries[k].NonObject?
    requires forall j :: 0 <= j < k ==> entries[j].Object?
    ensures Raises(app, Listed(entries)) <==> forall j :: 0 <= j < k ==> !Matches(entries[j].client, app)
  {
    var m := FirstStop(entries, app);
    if forall j :: 0 <= j < k ==> !Matches(entries[j].client, app) {
      forall j | 0 <= j < k
        ensures !Stops(entries[j], app)
      {
      }
    } else {
      var j :| 0 <= j < k && Matches(entries[j].client, app);
    }
  }

  /** A simulated key press: a short pause, then the shortcut (`_send_hyprland_keys`). */
  function SendKeys(keys: string): seq<Effect>
  {
    [Pause, SendShortcut(keys)]
  }

  /** `_handle_chat_app_action` with `_handle_discord_action` and `_handle_messaging_app_action`. */
  function ChatEffects(app: string, actionKey: string, query: ClientQuery): seq<Effect>
  {
    var focus := FocusOutcome(app, query);
    if focus.raised then focus.effects
    else if actionKey !in ChatKeys then focus.effects
    else if app == "discord" then focus.effects + (if actionKey == "reply" then SendKeys(CtrlK) else [])
    else if app == "telegram" || app == "whatsapp" then
      focus.effects + (if actionKey == "reply" then SendKeys(CtrlF) else [])
    else focus.effects
  }

  /** `_handle_code_app_action`: focus the editor; an "open" on an error report opens the file it names. */
  function EditorEffects(body: string, actionKey: string, env: Environment): seq<Effect>
  {
    var focus := FocusOutcome("code", env.query);
    if focus.raised then focus.effects
    else if actionKey == "open" && Contains(Lower(body), "error") && env.pathMatch.Some? then
      focus.effects + [OpenAtPath(env.pathMatch.value)]
    else focus.effects
  }

  /** `_handle_notification_action`: dispatch on the lower-cased application name. */
  function ActionEffects(appName: string, body: string, actionKey: string, env: Environment): seq<Effect>
  {
    var app := Lower(appName);
    match CategoryOf(app)
    case Chat => ChatEffects(app, actionKey, env.query)
    case Email => FocusOutcome(app, env.query).effects
    case Editor => EditorEffects(body, actionKey, env)
    case Generic => FocusOutcome(app, env.query).effects
  }

  /** Every routing starts with the client-list query, and a malformed answer stops it right there. */
  lemma RoutingStartsWithQuery(appName: string, body: string, actionKey: string, env: Environment)
    ensures var fx := ActionEffects(appName, body, actionKey, env); |fx| >= 1 && fx[0] == ListClients
    ensures env.query.Unusable? ==> ActionEffects(appName, body, actionKey, env) == [ListClients]
  {
  }

  /** The effects of a focus attempt never include a key press or a file opening. */
  lemma FocusHasNoKeysOrFiles(app: string, query: ClientQuery)
    ensures forall e :: e in FocusOutcome(app, query).effects ==> !e.SendShortcut? && !e.OpenAtPath? && !e.Pause?
  {
  }

  /**
   * A shortcut is sent exactly for a "reply" that got past the client query: Ctrl+K to Discord,
   * Ctrl+F to Telegram and WhatsApp, and nothing to any other application.
   */
  lemma ShortcutIff(appName: string, body: string, actionKey: string, env: Environment, keys: string)
    ensures SendShortcut(keys) in ActionEffects(appName, body, actionKey, env) <==>
      && actionKey == "reply" && !Raises(Lower(appName), env.query)
      && ((Lower(appName) == "discord" && keys == CtrlK)
          || ((Lower(appName) == "telegram" || Lower(appName) == "whatsapp") && keys == CtrlF))
  {
    var app := Lower(appName);
    FocusHasNoKeysOrFiles(app, env.query);
    FocusHasNoKeysOrFiles("code", env.query);
    if actionKey == "reply" && !Raises(app, env.query) {
      assert "reply" in ChatKeys;
    }
  }

  /**
   * The editor opens a file exactly for "open" on an editor notification whose lower-cased
   * body mentions "error" and in which a path was found, and only past the client query.
   */
  lemma OpenFileIff(appName: string, body: string, actionKey: string, env: Environment, path: string)
    ensures OpenAtPath(path) in ActionEffects(appName, body, actionKey, env) <==>
      && CategoryOf(Lower(appName)) == Editor && actionKey == "open" && !Raises("code", env.query)
      && Contains(Lower(body), "error") && env.pathMatch == Some(path)
  {
    var app := Lower(appName);
    FocusHasNoKeysOrFiles(app, env.query);
    FocusHasNoKeysOrFiles("code", env.query);
  }

  // ---------------------------------------------------------------------------
  // Chat information

  /** The dictionary `_extract_chat_info` builds; `chatName` is absent when no name was found. */
  datatype ChatInfo = ChatInfo(title: string, subtitle: Option<string>, body: string, appName: string,
                               chatName: Option<string>)

  /** A non-empty subtitle (Python truthiness of `str | None`). */
  predicate Truthy(s: Option<string>)
  {
    s.Some? && s.value != ""
  }

  /** `_extract_chat_info`: the stripped subtitle, else the stripped text before the title's first ':'. */
  function ExtractChatInfo(title: string, subtitle: Option<string>, body: string, appName: string): (r: ChatInfo)
    ensures r.title == title && r.subtitle == subtitle && r.body == body && r.appName == appName
    ensures r.chatName.Some? <==> Truthy(subtitle) || ':' in title
    ensures Truthy(subtitle) ==> r.chatName == Some(Strip(subtitle.value))
    ensures !Truthy(subtitle) && ':' in title ==> ':' !in r.chatName.value
    ensures r.chatName.Some? ==> Strip(r.chatName.value) == r.chatName.value
  {
    var name :=
      if Truthy(subtitle) then Some(Strip(subtitle.value))
      else if Contains(title, ":") then Some(Strip(Split(title, ":")[0]))
      else None;
    ColonContains(title);
    if !Truthy(subtitle) && ':' in title then
      SplitHead(title, ":");
      var i := IndexOf(title, ":").value;
      BeforeFirstColon(title, i);
      StripKeeps(Split(title, ":")[0], ':');
      StripIdempotent(Split(title, ":")[0]);
      ChatInfo(title, subtitle, body, appName, name)
    else
      if name.Some? then
        StripIdempotent(subtitle.value);
        ChatInfo(title, subtitle, body, appName, name)
      else ChatInfo(title, subtitle, body, appName, name)
  }

  /** `":" in s` is membership of the character. */
  lemma ColonContains(s: string)
    ensures Contains(s, ":") <==> ':' in s
  {
    IndexOfSpec(s, ":");
    if ':' in s {
      var j :| 0 <= j < |s| && s[j] == ':';
      assert s[j..j + 1] == ":";
      assert OccursAt(s, ":", j);
    }
    if Contains(s, ":") {
      var i := IndexOf(s, ":").value;
      assert s[i..i + 1] == ":";
      assert s[i] == ':';
    }
  }

  lemma BeforeFirstColon(s: string, i: nat)
    requires IndexOf(s, ":") == Some(i)
    ensures ':' !in s[..i]
  {
    IndexOfSpec(s, ":");
    if ':' in s[..i] {
      var j :| 0 <= j < i && s[..i][j] == ':';
      assert s[j..j + 1] == ":";
      assert OccursAt(s, ":", j);
    }
  }

  /** Stripping never brings in a character that was not there. */
  lemma {:induction false} StripKeeps(s: string, c: char)
    requires c !in s
    ensures c !in Strip(s)
  {
    TrimStartKeeps(s, c);
    TrimEndKeeps(TrimStart(s), c);
  }

  lemma {:induction false} TrimStartKeeps(s: string, c: char)
    requires c !in s
    ensures c !in TrimStart(s)
  {
    if s != [] && IsSpace(s[0]) {
      TrimStartKeeps(s[1..], c);
    }
  }

  lemma {:induction false} TrimEndKeeps(s: string, c: char)
    requires c !in s
    ensures c !in TrimEnd(s)
  {
    if s != [] && IsSpace(s[|s| - 1]) {
      TrimEndKeeps(s[..|s| - 1], c);
    }
  }

  /** Stripping twice is stripping once. */
  lemma {:induction false} StripIdempotent(s: string)
    ensures Strip(Strip(s)) == Strip(s)
  {
    var t := TrimStart(s);
    TrimStartEnds(s);
    TrimEndEnds(t);
    TrimEndKeepsStart(t);
    var u := TrimEnd(t);
    assert TrimStart(u) == u;
    TrimEndFixed(u);
  }

  lemma {:induction false} TrimStartEnds(s: string)
    ensures TrimStart(s) == [] || !IsSpace(TrimStart(s)[0])
  {
    if s != [] && IsSpace(s[0]) {
      TrimStartEnds(s[1..]);
    }
  }

  lemma {:induction false} TrimEndEnds(s: string)
    ensures TrimEnd(s) == [] || !IsSpace(TrimEnd(s)[|TrimEnd(s)| - 1])
  {
    if s != [] && IsSpace(s[|s| - 1]) {
      TrimEndEnds(s[..|s| - 1]);
    }
  }

  /** Trimming the end of a string that does not start with a space keeps that property. */
  lemma {:induction false} TrimEndKeepsStart(s: string)
    requires s == [] || !IsSpace(s[0])
    ensures TrimEnd(s) == [] || (TrimEnd(s)[0] == s[0])
  {
    if s != [] && IsSpace(s[|s| - 1]) {
      TrimEndKeepsStart(s[..|s| - 1]);
    }
  }

  lemma TrimEndFixed(u: string)
    requires u == [] || !IsSpace(u[|u| - 1])
    ensures TrimEnd(u) == u
  {
  }
}
