/**
 * The popup window of one notification (src/notification_window.py): its geometry fields,
 * the action buttons handed to the page, the escaping of text put into the page, the
 * navigation policy of the embedded web view and the forwarding of button clicks.
 */
module Window {
  import opened Wrappers
  import opened Text
  import Parser

  /** Size of a new window before its content is measured. */
  const InitialWidth: int := 320
  const InitialHeight: int := 100
  /** Size used when measuring the content fails. */
  const FallbackWidth: int := 320
  const FallbackHeight: int := 80
  /** Smallest content size kept after a measurement, and the border added around it. */
  const MinContentWidth: int := 200
  const MinContentHeight: int := 50
  const Border: int := 2

  // ---------------------------------------------------------------------------
  // Action buttons

  /** One `{key, label}` object of the page's action list. */
  datatype ActionButton = ActionButton(key: string, text: string)

  /** The buttons described by a flat D-Bus action list: consecutive key/label pairs. */
  function ActionPairs(actions: seq<string>): seq<ActionButton>
    decreases |actions|
  {
    if |actions| < 2 then [] else [ActionButton(actions[0], actions[1])] + ActionPairs(actions[2..])
  }

  /** There is one button per complete pair, and button `k` is built from items `2k` and `2k+1`. */
  lemma {:induction false} ActionPairsAt(actions: seq<string>)
    ensures |ActionPairs(actions)| == |actions| / 2
    ensures forall k :: 0 <= k < |actions| / 2 ==>
      ActionPairs(actions)[k] == ActionButton(actions[2 * k], actions[2 * k + 1])
    decreases |actions|
  {
    if |actions| >= 2 {
      var rest := actions[2..];
      ActionPairsAt(rest);
      forall k | 1 <= k < |actions| / 2
        ensures ActionPairs(actions)[k] == ActionButton(actions[2 * k], actions[2 * k + 1])
      {
        assert ActionPairs(actions)[k] == ActionPairs(rest)[k - 1];
        assert rest[2 * (k - 1)] == actions[2 * k] && rest[2 * (k - 1) + 1] == actions[2 * k + 1];
      }
    }
  }

  /** The flat key/label (text) list a sequence of buttons stands for. */
  function Flatten(buttons: seq<ActionButton>): seq<string>
  {
    if buttons == [] then [] else [buttons[0].key, buttons[0].text] + Flatten(buttons[1..])
  }

  /** Flattening the buttons gives back the action list without its unpaired last item, if any. */
  lemma {:induction false} FlattenActionPairs(actions: seq<string>)
    ensures Flatten(ActionPairs(actions)) == actions[..|actions| / 2 * 2]
    decreases |actions|
  {
    if |actions| >= 2 {
      FlattenActionPairs(actions[2..]);
      assert actions[2..][..|actions[2..]| / 2 * 2] == actions[2..|actions| / 2 * 2];
      assert actions[..|actions| / 2 * 2] == [actions[0], actions[1]] + actions[2..|actions| / 2 * 2];
    }
  }

  /** `_prepare_actions_data`: walks the list two items at a time and keeps complete pairs. */
  method PrepareActionsData(actions: seq<string>) returns (buttons: seq<ActionButton>)
    ensures |buttons| == |actions| / 2
    ensures forall k :: 0 <= k < |buttons| ==> buttons[k] == ActionButton(actions[2 * k], actions[2 * k + 1])
    ensures buttons == ActionPairs(actions)
  {
    if actions == [] {
      return [];
    }
    buttons := [];
    var i := 0;
    while i < |actions|
      invariant 0 <= i <= |actions| + 1 && i % 2 == 0
      invariant |buttons| == (if i <= |actions| then i / 2 else |actions| / 2)
      invariant forall k :: 0 <= k < |buttons| ==> buttons[k] == ActionButton(actions[2 * k], actions[2 * k + 1])
    {
      if i + 1 < |actions| {
        buttons := buttons + [ActionButton(actions[i], actions[i + 1])];
      }
      i := i + 2;
    }
    ActionPairsAt(actions);
  }

  // ---------------------------------------------------------------------------
  // Escaping text for the page

  /** How one character is written inside the page's quoted strings. */
  function EscapeChar(c: char): string
  {
    if c == '\\' then "\\\\"
    else if c == '"' then "\\\""
    else if c == '\'' then "\\'"
    else if c == '\n' then "\\n"
    else if c == '\r' then "\\r"
    else [c]
  }

  /** Character-by-character escaping: the reference `escape_for_html` is measured against. */
  function EscapeEach(s: string): string
  {
    if s == [] then [] else EscapeChar(s[0]) + EscapeEach(s[1..])
  }

  /** The chain of five replacements, backslash first. */
  function ReplaceChain(s: string): string
  {
    ReplaceChar(ReplaceChar(ReplaceChar(ReplaceChar(ReplaceChar(
      s, '\\', "\\\\"), '"', "\\\""), '\'', "\\'"), '\n', "\\n"), '\r', "\\r")
  }

  /** `escape_for_html`: empty text gives "", anything else goes through the replacement chain. */
  function EscapeForHtml(text: string): string
  {
    if text == "" then "" else ReplaceChain(text)
  }

  lemma ReplaceChainAppend(a: string, b: string)
    ensures ReplaceChain(a + b) == ReplaceChain(a) + ReplaceChain(b)
  {
    var r1a, r1b := ReplaceChar(a, '\\', "\\\\"), ReplaceChar(b, '\\', "\\\\");
    ReplaceCharAppend(a, b, '\\', "\\\\");
    var r2a, r2b := ReplaceChar(r1a, '"', "\\\""), ReplaceChar(r1b, '"', "\\\"");
    ReplaceCharAppend(r1a, r1b, '"', "\\\"");
    var r3a, r3b := ReplaceChar(r2a, '\'', "\\'"), ReplaceChar(r2b, '\'', "\\'");
    ReplaceCharAppend(r2a, r2b, '\'', "\\'");
    var r4a, r4b := ReplaceChar(r3a, '\n', "\\n"), ReplaceChar(r3b, '\n', "\\n");
    ReplaceCharAppend(r3a, r3b, '\n', "\\n");
    ReplaceCharAppend(r4a, r4b, '\r', "\\r");
  }

  /** The chain applied to one character gives that character's escape. */
  lemma ReplaceChainChar(c: char)
    ensures ReplaceChain([c]) == EscapeChar(c)
  {
    ReplaceCharSingle(c, '\\', "\\\\");
    if c == '\\' {
      Untouched("\\\\", 1);
    } else {
      ReplaceCharSingle(c, '"', "\\\"");
      if c == '"' {
        Untouched("\\\"", 2);
      } else {
        ReplaceCharSingle(c, '\'', "\\'");
        if c == '\'' {
          Untouched("\\'", 3);
        } else {
          ReplaceCharSingle(c, '\n', "\\n");
          if c == '\n' {
            Untouched("\\n", 4);
          } else {
            ReplaceCharSingle(c, '\r', "\\r");
          }
        }
      }
    }
  }

  /** The stages of the chain after stage `stage` leave text without their characters alone. */
  lemma Untouched(s: string, stage: nat)
    requires 1 <= stage <= 4
    requires stage < 2 ==> '"' !in s
    requires stage < 3 ==> '\'' !in s
    requires stage < 4 ==> '\n' !in s
    requires '\r' !in s
    ensures stage == 1 ==> ReplaceChar(ReplaceChar(ReplaceChar(ReplaceChar(s, '"', "\\\""), '\'', "\\'"), '\n', "\\n"), '\r', "\\r") == s
    ensures stage == 2 ==> ReplaceChar(ReplaceChar(ReplaceChar(s, '\'', "\\'"), '\n', "\\n"), '\r', "\\r") == s
    ensures stage == 3 ==> ReplaceChar(ReplaceChar(s, '\n', "\\n"), '\r', "\\r") == s
    ensures stage == 4 ==> ReplaceChar(s, '\r', "\\r") == s
  {
    if stage < 2 { ReplaceCharAbsent(s, '"', "\\\""); }
    if stage < 3 { ReplaceCharAbsent(s, '\'', "\\'"); }
    if stage < 4 { ReplaceCharAbsent(s, '\n', "\\n"); }
    ReplaceCharAbsent(s, '\r', "\\r");
  }

  /**
   * Since no replacement produces a character a later one rewrites, the chain equals the
   * character-by-character escaping.
   */
  lemma {:induction false} EscapeIsPerCharacter(s: string)
    ensures EscapeForHtml(s) == EscapeEach(s)
  {
    if s != [] {
      assert s == [s[0]] + s[1..];
      ReplaceChainAppend([s[0]], s[1..]);
      ReplaceChainChar(s[0]);
      EscapeIsPerCharacter(s[1..]);
      if s[1..] == [] {
        assert ReplaceChain([]) == [];
      }
    }
  }

  /** Escaped text holds no raw line feed or carriage return. */
  lemma {:induction false} EscapeHasNoLineBreaks(s: string)
    ensures '\n' !in EscapeForHtml(s) && '\r' !in EscapeForHtml(s)
  {
    EscapeIsPerCharacter(s);
    EscapeEachHasNoLineBreaks(s);
  }

  lemma {:induction false} EscapeEachHasNoLineBreaks(s: string)
    ensures '\n' !in EscapeEach(s) && '\r' !in EscapeEach(s)
  {
    if s != [] {
      EscapeEachHasNoLineBreaks(s[1..]);
    }
  }

  /** How the page reads a quoted string back: a backslash takes the next character literally, or as a line break for `n` and `r`. */
  function Unescape(s: string): string
    decreases |s|
  {
    if s == [] then []
    else if s[0] == '\\' && |s| >= 2 then
      [if s[1] == 'n' then '\n' else if s[1] == 'r' then '\r' else s[1]] + Unescape(s[2..])
    else [s[0]] + Unescape(s[1..])
  }

  /** Reading escaped text back gives the original text. */
  lemma {:induction false} UnescapeEscape(s: string)
    ensures Unescape(EscapeForHtml(s)) == s
  {
    EscapeIsPerCharacter(s);
    UnescapeEscapeEach(s);
  }

  lemma {:induction false} UnescapeEscapeEach(s: string)
    ensures Unescape(EscapeEach(s)) == s
  {
    if s != [] {
      var e := EscapeChar(s[0]);
      var t := EscapeEach(s[1..]);
      UnescapeEscapeEach(s[1..]);
      if |e| == 2 {
        assert (e + t)[2..] == t;
      } else {
        assert (e + t)[1..] == t;
      }
    }
  }

  // ---------------------------------------------------------------------------
  // Navigation policy

  /** WebKit's policy decision kinds. */
  datatype DecisionType = NavigationAction | NewWindowAction | Response

  /** What the handler does with a decision. */
  datatype Decision = Use | Ignore

  /** `_on_decide_policy`: navigation only to the page itself or to inline data; everything else goes through. */
  function DecidePolicy(kind: DecisionType, uri: string): (d: Decision)
    ensures d == Ignore <==> kind == NavigationAction && uri != "file:///" && uri != "" && !StartsWith(uri, "data:")
  {
    if kind == NavigationAction then
      if uri == "file:///" || uri == "" || StartsWith(uri, "data:") then Use else Ignore
    else Use
  }

  /** A click on a web link inside a notification never navigates the view away. */
  lemma WebLinksIgnored(uri: string)
    requires StartsWith(uri, "http://") || StartsWith(uri, "https://")
    ensures DecidePolicy(NavigationAction, uri) == Ignore
    ensures DecidePolicy(NewWindowAction, uri) == Use
  {
    assert uri[0] == 'h';
    assert uri != "file:///";
    assert !StartsWith(uri, "data:");
  }

  // ---------------------------------------------------------------------------
  // Size

  /** A content measurement taken by the page's script, or its failure. */
  datatype Measurement = Measured(width: int, height: int) | MeasureFailed

  datatype Size = Size(width: int, height: int)

  /** The window size `_on_js_dimensions_result` settles on. */
  function FittedSize(m: Measurement): (r: Size)
    ensures m.Measured? ==> r.width >= MinContentWidth + Border && r.height >= MinContentHeight + Border
    ensures m.Measured? && m.width >= MinContentWidth ==> r.width == m.width + Border
    ensures m.Measured? && m.width <= MinContentWidth ==> r.width == MinContentWidth + Border
    ensures m.Measured? && m.height >= MinContentHeight ==> r.height == m.height + Border
    ensures m.Measured? && m.height <= MinContentHeight ==> r.height == MinContentHeight + Border
    ensures m.MeasureFailed? ==> r == Size(FallbackWidth, FallbackHeight)
  {
    match m
    case Measured(w, h) =>
      Size((if w < MinContentWidth then MinContentWidth else w) + Border,
           (if h < MinContentHeight then MinContentHeight else h) + Border)
    case MeasureFailed => Size(FallbackWidth, FallbackHeight)
  }

  /** A larger measured content never gives a smaller window. */
  lemma FittedSizeMonotone(w1: int, h1: int, w2: int, h2: int)
    requires w1 <= w2 && h1 <= h2
    ensures FittedSize(Measured(w1, h1)).width <= FittedSize(Measured(w2, h2)).width
    ensures FittedSize(Measured(w1, h1)).height <= FittedSize(Measured(w2, h2)).height
  {
  }

  // ---------------------------------------------------------------------------
  // The window

  /** A notification popup: the record it shows and the geometry the session manager reads and moves. */
  class NotificationWindow {
    const notification: Parser.NotificationParser
    const hasCallback: bool
    var width: int
    var height: int
    var screenPos: int
    var topMargin: int
    var destroyed: bool

    /**
     * `create_notification_window` with `_setup_layer_shell_properties`: the initial size, and the
     * window placed at the top padding.
     */
    constructor (notification: Parser.NotificationParser, hasCallback: bool, padding: int)
      ensures this.notification == notification && this.hasCallback == hasCallback
      ensures width == InitialWidth && height == InitialHeight
      ensures screenPos == padding && topMargin == padding && !destroyed
    {
      this.notification := notification;
      this.hasCallback := hasCallback;
      width := InitialWidth;
      height := InitialHeight;
      screenPos := padding;
      topMargin := padding;
      destroyed := false;
    }

    /** `_on_js_dimensions_result`: clamp the measured content and add the border, or fall back. */
    method OnDimensionsResult(m: Measurement)
      modifies this`width, this`height
      ensures Size(width, height) == FittedSize(m)
    {
      match m
      case Measured(contentWidth, contentHeight) =>
        var newWidth, newHeight := contentWidth, contentHeight;
        if newWidth < MinContentWidth {
          newWidth := MinContentWidth;
        }
        if newHeight < MinContentHeight {
          newHeight := MinContentHeight;
        }
        width := newWidth + Border;
        height := newHeight + Border;
      case MeasureFailed =>
        width := FallbackWidth;
        height := FallbackHeight;
    }

    /** `destroy()`: tearing the window down; doing it twice is harmless. */
    method Destroy()
      modifies this`destroyed
      ensures destroyed
    {
      destroyed := true;
    }

    /**
     * `_handle_action_message`: the call `(notification id, action key)` to make on the action
     * callback, or none when the window has no callback.
     */
    method HandleActionMessage(actionKey: string) returns (call: Option<(nat, string)>)
      ensures call.Some? <==> hasCallback
      ensures call.Some? ==> call.value == (notification.id, actionKey)
    {
      if hasCallback {
        call := Some((notification.id, actionKey));
      } else {
        call := None;
      }
    }
  }
}
