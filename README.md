# A verified model of a desktop notification daemon

This project is a Dafny model of the core of a small freedesktop notification server. The
server is written in Python for a Wayland desktop with the Hyprland compositor. It answers the
`org.freedesktop.Notifications` D-Bus calls and keeps one GTK layer-shell window per live
notification, stacked down the right-hand edge of the screen. Each window shows an HTML view of
the notification. Clicking an action button in the view routes the click to the application
that sent the notification, through `hyprctl`.

The modules follow the three core source files:

- `Parser` (`wrappers.dfy`, `text.dfy`, `parser.dfy`) models `NotificationParser`:
  - field set-up and the default expiry;
  - the "elecwhat" title/sender/body rewrite, including the `IndexError` it can raise;
  - the choice between hint image data and an icon search, and the icon names that search tries;
  - `unwrap_variant`.

  `Text` holds the Python string operations the code relies on:
  - the leftmost substring search behind `in` and `split`, and `split` itself, with their proved
    characterisations;
  - ASCII `lower`; `strip` over Python's whitespace set; and `replace`.
- `Window` (`window.dfy`) models the window code:
  - the action button pairs;
  - the HTML/JS escaping, with its inverse;
  - the navigation policy and the size clamping after the content is measured;
  - the initial size and position of a new window;
  - forwarding a click to the action callback.

  A window is a class whose size, position, top margin and destroyed flag are updated in place.
- `Router` (`router.dfy`) models `_handle_notification_action` and what it calls:
  - the app categories;
  - `_match_app_to_class`;
  - the choice of window to focus, as a loop (`FindTarget`) proved against a specification
    function;
  - the commands each routing runs, as a list of effects;
  - `_extract_chat_info`.
- `Stacking` (`stacking.dfy`) is the value-level specification of the restacking pass in `Notify`:
  - every existing window moves down by its own height plus the padding;
  - a window that reaches the threshold is force-closed;
  - the new window goes on top.
- `Session` (`session.dfy`) models `Notifications`: a class holding the counter, the window
  table, the armed expiry timers, the signals emitted and the routing effects run.

  Its invariants are:
  - every window in the table is shown, above the threshold, with its margin at its position;
  - the table's insertion order is increasing id order;
  - no id is ever reported closed twice;
  - no reported id is still in the table.

  `Notify`, the timer callback `Expire`, `CloseNotification`, `_close_window_by_id`,
  `_on_action_invoked` and the click path from a window all preserve these invariants.

The two D-Bus constants (`GetServerInformation`, `GetCapabilities`) are `Session.ServerInformation`
and `Session.Capabilities`.

Behaviour of the code that a reader of the freedesktop notification specification may not expect,
and which the model keeps:

- `Notify` can fail. When an "elecwhat" body holds U+200E but not U+200E followed by ":",
  `parse_content` raises `IndexError` after the counter was already incremented, and the D-Bus
  caller gets an error reply. The model's `Notify` returns `None` for that raise, with the counter
  advanced and nothing else changed.
- `CloseNotification` deletes the entry only when `by_program` is true. It does not destroy the
  window, does not emit a signal and does not cancel the timer.
- Windows are restacked only when a notification arrives, never when one is removed.
- The timer is never cancelled. When it fires for a window that is already gone from the table,
  it only destroys the window (again, if it was already closed).
- `expire_timeout` from the request is not passed to the parser, so every notification gets the
  default 5000 ms.

## Model

| member | source | states |
|---|---|---|
| Text.IndexOfSpec | src/noitifcation_parser.py:62-66 | the leftmost search behind `in` and `split` finds the first position where the separator occurs, with none earlier; finding nothing means it occurs nowhere |
| Text.SplitMoreThanOne | src/noitifcation_parser.py:62 | `len(s.split(sep)) > 1` exactly when `sep` occurs in `s` |
| Text.SplitHead | src/main.py:234 | the first piece of a split is the whole string when the separator is absent, else the text before its first occurrence |
| Text.SplitSecond | src/noitifcation_parser.py:64 | `s.split(sep)[1]` exists once `sep` occurs, starts right after the first `sep`, holds no `sep` and ends at the next `sep` or at the end |
| Parser.Unwrap | src/noitifcation_parser.py:172-182 | the unwrapped value holds no variant; a scalar is kept; a dict keeps its keys in order and a list or tuple keeps its length |
| Parser.UnwrapFixesExactlyVariantFree | src/noitifcation_parser.py:172-182 | unwrapping leaves a value unchanged exactly when it holds no variant at any depth |
| Parser.WrapsUnwrap | src/noitifcation_parser.py:172-182 | unwrapping removes only variant layers: the input is its unwrapped form with variants put above some of its parts, element by element and key by key |
| Parser.UnwrapWraps | src/noitifcation_parser.py:172-182 | the round trip: a variant-free value wrapped in variants at any depth unwraps back to itself, so a hint `Variant(w)` gives `w` |
| Parser.UnwrapIdempotent | src/noitifcation_parser.py:172-182 | unwrapping twice is the same as unwrapping once |
| Parser.HasImageData | src/noitifcation_parser.py:69-75 | the key is "image-data" when that hint is present, else "icon_data" when that one is, else empty, in both directions |
| Parser.IconName | src/noitifcation_parser.py:92-108 | no name exactly when icon and app name are both empty; otherwise the lower-cased, stripped icon (the app name when the icon is empty), except that "code" becomes "visual-studio-code": the result is "visual-studio-code" only when the cleaned name is "code" or already "visual-studio-code" |
| Parser.NameVariations | src/noitifcation_parser.py:122-138 | the variations tried are exactly the non-empty entries of the candidate list, so the empty name is never tried |
| Parser.SearchAppImage | src/noitifcation_parser.py:89-151 | no search exactly when icon and app name are both empty; a search looks for the icon name `IconName` gives, among exactly its `NameVariations`, which always include the name with "-desktop" and the original app name (or icon) |
| Parser.ImageOf | src/noitifcation_parser.py:77-87 | the picture comes from the hint exactly when `HasImageData` finds a key, and is then the variant-free unwrapped hint under that key; otherwise it is the icon search |
| Parser.CodeIconName | src/noitifcation_parser.py:99-108 | "Code", and " Code " given as the icon, both map to the "visual-studio-code" icon |
| Parser.ContentFailsIff | src/noitifcation_parser.py:58-67 | parsing the content fails exactly for "elecwhat" with a body holding U+200E but not U+200E followed by ":" |
| Parser.ElecwhatSplitsSender | src/noitifcation_parser.py:59-64 | for "elecwhat" with U+200E followed by ":" in the body, the subtitle is the body before the first ": " and the new body is the text after the first U+200E ":" up to the next one or the end; the title loses its first 11 characters, and 11 more when "elecwhat" still occurs in it |
| Parser.ElecwhatWithoutMark | src/noitifcation_parser.py:59-67 | for "elecwhat" with no U+200E in the body, subtitle and body are kept and the title loses its first 11 characters, and 11 more when "elecwhat" still occurs in it |
| Parser.TitleIsSuffix | src/noitifcation_parser.py:58-67 | whatever the app, the new title is a suffix of the old one |
| Parser.UnmentionedAppUnchanged | src/noitifcation_parser.py:66-67 | an app other than "elecwhat" whose name is absent from the title leaves title, subtitle and body unchanged |
| Parser.TitleCutIsPositional | src/noitifcation_parser.py:66-67 | the cut removes the first len(app)+3 characters whatever the name's position: "Message from Slack" becomes "from Slack" |
| Parser.TitleCut | src/noitifcation_parser.py:66-67 | any app other than "elecwhat" whose name occurs in the title loses the title's first len(app)+3 characters, and keeps subtitle and body |
| Parser.EmptyAppNameCutsThree | src/noitifcation_parser.py:66-67 | an empty app name occurs in every title, so every title loses its first three characters |
| Parser.NotificationParser.Init | src/noitifcation_parser.py:12-35 | the fields take the arguments; the subtitle starts empty; not replaceable and a 5000 ms expiry by default |
| Parser.NotificationParser.ParseImage | src/noitifcation_parser.py:77-87 | with image data in the hints, the image is the unwrapped hint under that key; otherwise it is the icon search |
| Parser.NotificationParser.ParseContent | src/noitifcation_parser.py:58-67 | succeeds exactly when the content rewrite succeeds, and then leaves title, subtitle and body as the rewrite gives them |
| Parser.NotificationParser.New | src/noitifcation_parser.py:12-56 | in the model, construction succeeds exactly when the content parses (image decoding, which can also raise, is taken as infallible); the new record holds the arguments, the default expiry, not replaceable, the rewritten content and the picture `ImageOf` gives |
| Window.ActionPairsAt | src/notification_window.py:187-200 | the flat action list yields len/2 buttons, button k holding key actions[2k] and label actions[2k+1] |
| Window.FlattenActionPairs | src/notification_window.py:187-200 | flattening the buttons gives back the action list without an unpaired last entry |
| Window.PrepareActionsData | src/notification_window.py:187-200 | the loop builds exactly the pairs of the flat list, an odd last entry dropped |
| Window.EscapeIsPerCharacter | src/notification_window.py:147-156 | the chain of five replaces escapes each character on its own (backslash first, so no escape is escaped again) |
| Window.EscapeHasNoLineBreaks | src/notification_window.py:147-156 | the escaped text holds no raw newline or carriage return |
| Window.UnescapeEscape | src/notification_window.py:147-156 | the escaping is injective: reading the escapes back gives the original text |
| Window.DecidePolicy | src/notification_window.py:318-332 | a navigation is ignored exactly when its URI is neither "file:///", nor empty, nor a "data:" URI; every other decision is used |
| Window.WebLinksIgnored | src/notification_window.py:318-332 | an http(s) link clicked in the view is ignored, while a new-window request for it is used |
| Window.FittedSize | src/notification_window.py:285-315 | a measured size is clamped to at least 200x50 and grown by 2 in each direction; a failed measurement falls back to 320x80 |
| Window.FittedSizeMonotone | src/notification_window.py:285-294 | larger content never gives a smaller window |
| Window.NotificationWindow.constructor | src/notification_window.py:39-81 | a new window holds its notification and callback, is 320x100, and sits at the padding with its top margin there |
| Window.NotificationWindow.OnDimensionsResult | src/notification_window.py:263-315 | the window's size becomes the fitted size of the measurement |
| Window.NotificationWindow.HandleActionMessage | src/notification_window.py:203-219 | a click calls back exactly when the window has a callback, passing the notification's id and the action key |
| Router.UnmappedMatchesItself | src/main.py:336-354 | for an app without a mapping, matching a window class is substring search for the app name |
| Router.FindTarget | src/main.py:273-285 | the search loop returns the first client whose class or title holds the app, or that the app maps to; no result means every entry is a client and none matches |
| Router.FocusPicksFirstMatch | src/main.py:287-314 | the first match is focused by its address when it has one, else by its class; with neither, the app is launched |
| Router.NoMatchLaunches | src/main.py:262-334 | with no matching client, focusing queries the clients and then launches the application |
| Router.NonObjectRaisesOnlyBeforeMatch | src/main.py:274-285 | an entry that is not a JSON object makes focusing raise exactly when no client before it matched |
| Router.RoutingStartsWithQuery | src/main.py:154-178 | every routing starts by listing the clients, and a malformed answer stops it there |
| Router.FocusHasNoKeysOrFiles | src/main.py:258-334 | focusing alone never sends keys, pauses or opens a file |
| Router.ShortcutIff | src/main.py:180-198 | a shortcut is sent exactly for "reply" on Discord (Ctrl+K) or on Telegram and WhatsApp (Ctrl+F), when focusing did not raise |
| Router.OpenFileIff | src/main.py:207-219 | the editor opens a path exactly for "open" on an editor app whose body mentions "error", when a path matched and focusing did not raise |
| Router.ExtractChatInfo | src/main.py:221-236 | the info copies the notification; a chat name exists exactly when the subtitle is non-empty or the title holds ":"; it is then the stripped subtitle, or else a name cut from the title that holds no ":"; it is always already stripped |
| Router.StripIdempotent | src/main.py:232-234 | stripping a stripped name changes nothing |
| Stacking.Kept | src/main.py:103-114 | the windows that stay after the pass are all above the threshold, and there are no more of them than before |
| Stacking.RestackShape | src/main.py:103-118 | the stack after an arrival is fit to show: every window is above the threshold, and increasing ids below the new id stay increasing with the new id last |
| Stacking.KeptIff | src/main.py:103-114 | a slot survives the pass exactly when it is the shifted form of a window that did not overflow |
| Stacking.ForcedClosesIff | src/main.py:103-114 | an id is force-closed exactly when its window overflows after the shift |
| Stacking.PassPartitions | src/main.py:103-114 | every window either survives or is force-closed, never both |
| Stacking.KeptOrder | src/main.py:103-114 | of any two survivors of an id-ordered stack, the earlier one has the smaller id |
| Stacking.KeptIncreasing | src/main.py:103-114 | survivors of an id-ordered stack are still in id order |
| Stacking.KeptNone | src/main.py:103-114 | when nothing overflows, every window is kept, shifted by its height plus the padding |
| Stacking.OldestLeaveFirst | src/main.py:103-114 | in an evenly stacked column, when a window overflows every older window overflows too |
| Stacking.EvenStackStaysEven | src/main.py:103-118 | windows of one height, evenly spaced, stay evenly spaced after a new window of that height arrives |
| Stacking.ShiftAllEven | src/main.py:103-118 | an even column with no overflow gains one evenly spaced window |
| Stacking.ShiftIgnoresNewcomerHeight | src/main.py:104-106 | an older window moves by its own height, not the newcomer's: a 50-high window at 10 moves to 70 under a 100-high newcomer |
| Session.AscendingIff | src/main.py:103 | the table's insertion order is increasing and holds exactly the issued ids still in the table |
| Session.AscendingRemove | src/main.py:380-400 | deleting an entry leaves the other entries in their insertion order |
| Session.ReportsOnceDistinct | src/main.py:380-400 | no two `NotificationClosed` signals carry the same id |
| Session.SignalsAfterForced | src/main.py:103-114 | the pass emits one `NotificationClosed(id, 1)` per force-closed window, in stack order |
| Session.PassReports | src/main.py:103-114 | the pass reports each force-closed id once, and the reported set grows by exactly the closed ids |
| Session.NotifyReports | src/main.py:103-118 | after `Notify`, no id is reported twice and no reported id is in the table |
| Session.RemoveReported | src/main.py:380-400 | a close that deletes an id and reports it only when it was present keeps every id reported at most once |
| Session.SurvivorIff | src/main.py:103-118 | an id stays in the table after the pass exactly when its window survives the shift |
| Session.TableAfterPass | src/main.py:103-118 | the insertion order after `Notify` is the survivors' ids followed by the new id |
| Session.KeptIdsBelow | src/main.py:103-118 | the survivors' ids are increasing and below the new id |
| Session.Notifications.constructor | src/main.py:34-40 | the daemon starts with counter 0, an empty table, no timers, no signals and no effects |
| Session.Notifications.Notify | src/main.py:76-125 | the counter grows by one; on a content parse failure (the source raises; the model returns `None`) nothing else changes; otherwise the new id is returned, the table's stack is the restack of the old one, one expiry signal per force-closed window is emitted, those windows are destroyed, and the new window's timer is armed; its record holds the request's fields (the given `expire_timeout` is dropped: the expiry is the default 5000 ms, and it is not replaceable) and the rewritten content |
| Session.Notifications.Prepare | src/main.py:88-101 | in the model, the record and window are created exactly when the content parses (image decoding taken as infallible), the window fresh at the padding with its callback, the record holding the arguments, the default expiry, not replaceable, and the rewritten content |
| Session.Notifications.Show | src/main.py:103-123 | the pass and the insertion: the new stack is the restack, the expiry signals are emitted, the overflowing windows are destroyed, and the invariants hold |
| Session.Notifications.Insert | src/main.py:116-123 | the new window enters the table and the timer set under the new id |
| Session.Notifications.PushDown | src/main.py:103-114 | the loop moves each window down and deletes exactly the overflowing ones from the table, with their signals |
| Session.Notifications.PushOne | src/main.py:104-114 | one window moves by its height plus the padding; above the threshold its margin follows, else it is closed as expired |
| Session.Notifications.AfterPassValid | src/main.py:103-118 | after the pass and the insertion, every window in the table is shown above the threshold |
| Session.Notifications.AfterPassOrder | src/main.py:103-118 | after the pass and the insertion, the insertion order is the survivors followed by the new id |
| Session.Notifications.AfterPassSlots | src/main.py:103-118 | after the pass and the insertion, the table's stack is exactly the restack of the old stack |
| Session.Notifications.CloseWindow | src/main.py:390-400 | the window is destroyed; if its id is in the table it is deleted and reported expired once; the timer is told not to repeat |
| Session.Notifications.Expire | src/main.py:120-123 | when the timer fires, the window is destroyed, the timer is gone and the id leaves the table; an expiry signal is emitted only if the id was still there |
| Session.Notifications.CloseNotification | src/main.py:127-131 | the entry is deleted only on a request by the program; nothing is destroyed or emitted |
| Session.Notifications.CloseWindowById | src/main.py:380-388 | a present id is destroyed, deleted and reported with the given reason; an absent id changes nothing |
| Session.Notifications.OnActionInvoked | src/main.py:133-152 | an unknown id does nothing; a known id runs the routing for its app and action, emits `ActionInvoked`, then `NotificationClosed(id, 2)`, and leaves the table |
| Session.Notifications.Dismiss | src/main.py:147-152 | emits `ActionInvoked` then `NotificationClosed(id, 2)`, destroys the window and deletes the id |
| Session.Notifications.HandleNotificationAction | src/main.py:154-178 | the effects grow by exactly the routing of the notification's app name, body and action |
| Session.Notifications.OnActionMessage | src/notification_window.py:203-219 | a click on a window with a callback, whose id is still in the table, emits `ActionInvoked` then `NotificationClosed(id, 2)`, destroys the window, deletes the id and runs the routing of its notification's app, body and action; otherwise nothing changes |

## Left out

- D-Bus transport, GTK, WebKit and the HTML template are not modelled. The view is represented
  by what the code computes for it: escaped text, button pairs, size and position.
- `const.py` is not part of this model. `NOTIFICATION_PADDING` and `SCREEN_HEIGHT_THRESHOLD` are
  the constructor parameters `padding` and `threshold` of `Session.Notifications`, with
  `padding < threshold`.
- External processes (`hyprctl`, `sleep`, `code`, launching an app) are effects appended to a
  log; they are never run. The `hyprctl clients -j` answer is a parameter: failed, not a usable
  list, or a list of entries.
- The result of the file-path regular expression in `_handle_code_app_action` is a parameter
  (`Environment.pathMatch`), not a regular-expression engine.
- The order of routing effects relative to signals is not modelled: effects and signals are two
  separate logs.
- Image decoding and base64 (`image_data_to_base64_png`, `_convert_icon_to_base64`) and the
  filesystem search over icon directories are left out. The model keeps the chosen image source:
  the unwrapped hint, or the icon names to search for.
- Parser.NotificationParser.New: image decoding is taken as infallible. In the source, a hint
  that is not a 7-tuple, or whose pixels GdkPixbuf rejects, makes `__init__` raise, so `Notify`
  raises after the counter grows; in the model such a notification is created. The same holds for
  `Session.Notifications.Prepare` and `Session.Notifications.Notify`, whose failure is only the
  content parse failure.
- Logging (`print`, `traceback`) is left out, and `_extract_chat_info`'s result only feeds a log
  line, so it has no effect on the state.
- Router.ExtractChatInfo: when the name comes from the title, the contract states that it holds no ":"
  and is stripped, not that it is exactly the stripped text before the first ":".
- Text.Lower: Python's `lower()` is modelled for ASCII letters only; other characters are kept.
- A failure of the layer-shell set-up (`_setup_layer_shell_properties` catching an exception)
  is not modelled; every new window gets its position and margin.
- The timer's duration, and the integer division of milliseconds into seconds, are not
  modelled. A timer is an entry in `armed`, and its firing is the `Expire` event.
- `hasattr(window, "notification")` in `_on_action_invoked` and `_handle_action_message` always
  holds for windows created here, and a GTK window is always truthy, so those checks are not
  modelled.
- Dictionary order: the table is a map, and its iteration order is the increasing order of ids.
  Ids come from a counter that only grows and are inserted once each, so this is the insertion
  order.
- Session.Notifications.Notify: its contract states the new record's fields, defaults and content
  but not its picture. The picture is stated on `Parser.NotificationParser.New`, which `Prepare`
  calls, because carrying the icon-search terms into the restacking proof makes it too costly.
- Session.Notifications.Prepare: like `Notify`, its contract leaves the picture to
  `Parser.NotificationParser.New`.
- Session.Notifications.CloseNotification: the window stays visible and its timer stays armed,
  as in the code; the model does not describe what is on screen beyond the destroyed flag.
- Window moves on screen (`set_margin`) are modelled as the `topMargin` field; redraws are not
  modelled.
