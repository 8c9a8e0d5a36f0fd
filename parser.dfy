/**
 * The notification record built from one `Notify` request (`NotificationParser` in
 * src/noitifcation_parser.py): field setup, title/subtitle rewriting, the choice of image
 * source, the icon-name rules and the recursive unwrapping of D-Bus variants.
 */
module Parser {
  import opened Wrappers
  import opened Text

  /** Default expiry of a notification, in milliseconds. */
  const DefaultExpireTimeout: int := 5000

  /** Left-to-right mark, which the "elecwhat" client puts around the sender name. */
  const Lrm: string := "\U{200e}"

  // ---------------------------------------------------------------------------
  // D-Bus values and variant unwrapping

  /** A D-Bus value that is not a container. */
  datatype Atom = Str(s: string) | Int(i: int) | Bool(b: bool) | Bytes(data: seq<bv8>)

  /** A hint value as received: scalars, variants and the three container kinds. */
  datatype Value =
    | Scalar(atom: Atom)
    | Variant(inner: Value)
    | Dict(entries: seq<Entry>)
    | List(items: seq<Value>)
    | Tuple(items: seq<Value>)

  /** One key/value pair of a dictionary, in insertion order. */
  datatype Entry = Entry(key: Atom, value: Value)

  /** No variant occurs anywhere inside `v`. */
  predicate NoVariant(v: Value)
    decreases v
  {
    match v
    case Scalar(_) => true
    case Variant(_) => false
    case Dict(es) => forall i :: 0 <= i < |es| ==> NoVariant(es[i].value)
    case List(xs) => forall i :: 0 <= i < |xs| ==> NoVariant(xs[i])
    case Tuple(xs) => forall i :: 0 <= i < |xs| ==> NoVariant(xs[i])
  }

  /**
   * `unwrap_variant`: strips every variant, keeping the keys and order of dictionaries and
   * the length and kind of lists and tuples; scalars come back unchanged.
   */
  function Unwrap(v: Value): (r: Value)
    ensures NoVariant(r)
    ensures v.Scalar? ==> r == v
    ensures v.Dict? ==> r.Dict? && |r.entries| == |v.entries|
                        && forall i :: 0 <= i < |v.entries| ==> r.entries[i].key == v.entries[i].key
    ensures v.List? ==> r.List? && |r.items| == |v.items|
    ensures v.Tuple? ==> r.Tuple? && |r.items| == |v.items|
    decreases v
  {
    match v
    case Variant(inner) => Unwrap(inner)
    case Dict(es) => Dict(seq(|es|, i requires 0 <= i < |es| => Entry(es[i].key, Unwrap(es[i].value))))
    case List(xs) => List(seq(|xs|, i requires 0 <= i < |xs| => Unwrap(xs[i])))
    case Tuple(xs) => Tuple(seq(|xs|, i requires 0 <= i < |xs| => Unwrap(xs[i])))
    case Scalar(_) => v
  }

  /** Unwrapping leaves a value alone exactly when it holds no variant. */
  lemma {:induction false} UnwrapFixesExactlyVariantFree(v: Value)
    ensures Unwrap(v) == v <==> NoVariant(v)
    decreases v
  {
    match v
    case Scalar(_) =>
    case Variant(inner) =>
    case Dict(es) =>
      if NoVariant(v) {
        forall i | 0 <= i < |es| ensures Unwrap(es[i].value) == es[i].value {
          UnwrapFixesExactlyVariantFree(es[i].value);
        }
        assert Unwrap(v).entries == es;
      }
    case List(xs) =>
      if NoVariant(v) {
        forall i | 0 <= i < |xs| ensures Unwrap(xs[i]) == xs[i] {
          UnwrapFixesExactlyVariantFree(xs[i]);
        }
        assert Unwrap(v).items == xs;
      }
    case Tuple(xs) =>
      if NoVariant(v) {
        forall i | 0 <= i < |xs| ensures Unwrap(xs[i]) == xs[i] {
          UnwrapFixesExactlyVariantFree(xs[i]);
        }
        assert Unwrap(v).items == xs;
      }
  }

  /** Unwrapping twice is unwrapping once. */
  lemma UnwrapIdempotent(v: Value)
    ensures Unwrap(Unwrap(v)) == Unwrap(v)
  {
    UnwrapFixesExactlyVariantFree(Unwrap(v));
  }

  /**
   * `v` is the variant-free value `w` with variant layers put above any of its parts: the same
   * scalars, dictionary keys, and container kinds and lengths, part for part.
   */
  predicate Wraps(v: Value, w: Value)
    decreases v
  {
    match v
    case Variant(inner) => Wraps(inner, w)
    case Scalar(_) => w == v
    case Dict(es) =>
      && w.Dict? && |w.entries| == |es|
      && forall i :: 0 <= i < |es| ==> w.entries[i].key == es[i].key && Wraps(es[i].value, w.entries[i].value)
    case List(xs) => w.List? && |w.items| == |xs| && forall i :: 0 <= i < |xs| ==> Wraps(xs[i], w.items[i])
    case Tuple(xs) => w.Tuple? && |w.items| == |xs| && forall i :: 0 <= i < |xs| ==> Wraps(xs[i], w.items[i])
  }

  /** Unwrapping removes exactly the variant layers: `v` wraps its unwrapped form. */
  lemma {:induction false} WrapsUnwrap(v: Value)
    ensures Wraps(v, Unwrap(v))
    decreases v
  {
    match v
    case Scalar(_) =>
    case Variant(inner) => WrapsUnwrap(inner);
    case Dict(es) =>
      forall i | 0 <= i < |es| ensures Wraps(es[i].value, Unwrap(v).entries[i].value) {
        WrapsUnwrap(es[i].value);
      }
    case List(xs) =>
      forall i | 0 <= i < |xs| ensures Wraps(xs[i], Unwrap(v).items[i]) {
        WrapsUnwrap(xs[i]);
      }
    case Tuple(xs) =>
      forall i | 0 <= i < |xs| ensures Wraps(xs[i], Unwrap(v).items[i]) {
        WrapsUnwrap(xs[i]);
      }
  }

  /**
   * The round trip: wrapping a variant-free value in variants at any depth and unwrapping gives
   * that value back, so a hint `Variant(w)` unwraps to `w`.
   */
  lemma {:induction false} UnwrapWraps(v: Value, w: Value)
    requires NoVariant(w) && Wraps(v, w)
    ensures Unwrap(v) == w
    decreases v
  {
    match v
    case Scalar(_) =>
    case Variant(inner) => UnwrapWraps(inner, w);
    case Dict(es) =>
      forall i | 0 <= i < |es| ensures Unwrap(es[i].value) == w.entries[i].value {
        UnwrapWraps(es[i].value, w.entries[i].value);
      }
      assert Unwrap(v).entries == w.entries;
    case List(xs) =>
      forall i | 0 <= i < |xs| ensures Unwrap(xs[i]) == w.items[i] {
        UnwrapWraps(xs[i], w.items[i]);
      }
      assert Unwrap(v).items == w.items;
    case Tuple(xs) =>
      forall i | 0 <= i < |xs| ensures Unwrap(xs[i]) == w.items[i] {
        UnwrapWraps(xs[i], w.items[i]);
      }
      assert Unwrap(v).items == w.items;
  }

  // ---------------------------------------------------------------------------
  // Image source

  /** `has_image_data`: the hint key that carries raw image data, or "" when there is none. */
  function HasImageData(hints: map<string, Value>): (key: string)
    ensures key == "image-data" <==> "image-data" in hints
    ensures key == "icon_data" <==> "icon_data" in hints && "image-data" !in hints
    ensures key == "" <==> "image-data" !in hints && "icon_data" !in hints
  {
    if "image-data" in hints then "image-data"
    else if "icon_data" in hints then "icon_data"
    else ""
  }

  /**
   * Where a notification's picture comes from. Decoding the hint's pixels and probing the
   * icon directories are outside the model; the record keeps the inputs of those steps.
   */
  datatype ImageSource =
    | FromHint(key: string, data: Value)              // image_data_to_base64_png(unwrap_variant(hint))
    | IconSearch(name: string, candidates: set<string>) // file probe over the name variations
    | NoIcon                                            // search_app_image returned "" at once

  /**
   * The icon name `search_app_image` looks for: `app_icon` first, then `app_name`, lower-cased
   * and stripped, with "code" renamed to "visual-studio-code"; `None` when both are empty.
   */
  function IconName(appIcon: string, appName: string): (r: Option<string>)
    ensures r.None? <==> appIcon == "" && appName == ""
    ensures appIcon != "" ==> r.Some? && (r.value == "visual-studio-code" || r.value == Strip(Lower(appIcon)))
    ensures appIcon == "" && appName != "" ==>
      r.Some? && (r.value == "visual-studio-code" || r.value == Strip(Lower(appName)))
    ensures r.Some? && r.value != "visual-studio-code" ==> r.value != "code"
    ensures r.Some? && r.value == "visual-studio-code" ==>
      var cleaned := Strip(Lower(if appIcon != "" then appIcon else appName));
      cleaned == "code" || cleaned == "visual-studio-code"
  {
    var icon := if appIcon != "" then appIcon else appName;
    if icon == "" then None
    else
      var name := Strip(Lower(icon));
      Some(if name == "code" then "visual-studio-code" else name)
  }

  /** The ten spellings `search_app_image` lists before removing empty strings and duplicates. */
  function VariationList(name: string, appIcon: string, appName: string): seq<string>
  {
    var original := if appName != "" then appName else appIcon;
    [ name, ReplaceChar(name, ' ', "-"), ReplaceChar(name, ' ', "_"),
      original, ReplaceChar(original, ' ', "-"), ReplaceChar(original, ' ', "_"),
      name + "-desktop", name + "-browser", name + "browser", Lower(original) + "-desktop" ]
  }

  /** The candidate file names: the non-empty spellings, each once (Python's `set`, so unordered). */
  function NameVariations(name: string, appIcon: string, appName: string): (r: set<string>)
    ensures "" !in r
    ensures forall v :: v in r <==> v in VariationList(name, appIcon, appName) && v != ""
  {
    set v | v in VariationList(name, appIcon, appName) && v != ""
  }

  /** `search_app_image` up to the file probe. */
  function SearchAppImage(appIcon: string, appName: string): (r: ImageSource)
    ensures r.FromHint? == false
    ensures r.NoIcon? <==> appIcon == "" && appName == ""
    ensures r.IconSearch? ==> "" !in r.candidates && (r.name != "" ==> r.name in r.candidates)
    ensures r.IconSearch? ==> r.name + "-desktop" in r.candidates
    ensures r.IconSearch? && appName != "" ==> appName in r.candidates
    ensures r.IconSearch? && appName == "" ==> appIcon in r.candidates
    ensures r.IconSearch? ==> Some(r.name) == IconName(appIcon, appName)
    ensures r.IconSearch? ==> r.candidates == NameVariations(r.name, appIcon, appName)
  {
    match IconName(appIcon, appName)
    case None => NoIcon
    case Some(name) => IconSearch(name, NameVariations(name, appIcon, appName))
  }

  /**
   * The picture `parse_image` settles on: the unwrapped hint under the image key when there is
   * one, the icon search otherwise.
   */
  function ImageOf(hints: map<string, Value>, appIcon: string, appName: string): (r: ImageSource)
    ensures r.FromHint? <==> HasImageData(hints) != ""
    ensures r.FromHint? ==> r.key in hints && r.key == HasImageData(hints) && r.data == Unwrap(hints[r.key]) && NoVariant(r.data)
    ensures !r.FromHint? ==> r == SearchAppImage(appIcon, appName)
  {
    var key := HasImageData(hints);
    if key != "" then FromHint(key, Unwrap(hints[key])) else SearchAppImage(appIcon, appName)
  }

  /** A VS Code notification that names itself "Code" is looked up as "visual-studio-code". */
  lemma CodeIconName()
    ensures IconName("", "Code") == Some("visual-studio-code")
    ensures IconName(" Code ", "Slack") == Some("visual-studio-code")
  {
    assert Lower("Code") == "code";
    assert TrimEnd(TrimStart("code")) == "code";
    assert Lower(" Code ") == " code ";
    assert TrimStart(" code ") == "code ";
    assert TrimEnd("code ") == "code";
  }

  // ---------------------------------------------------------------------------
  // Title, subtitle and body

  /** The three text fields `parse_content` reads and rewrites. */
  datatype Content = Content(title: string, subtitle: Option<string>, body: string)

  /** The only failure of parsing: indexing past the end of a `split` result. */
  datatype ParseError = IndexError

  /**
   * `parse_content` on its input fields. For "elecwhat", the title loses its first
   * `len(app_name) + 3` characters and, when the body holds a left-to-right mark, the subtitle
   * becomes the body up to the first ": " and the body the second piece of `split("‎:")`
   * (which raises when that marker is missing). Then, for every app whose name occurs in the
   * title, the title again loses its first `len(app_name) + 3` characters.
   */
  function ContentOf(appName: string, c: Content): Result<Content, ParseError>
  {
    var step :=
      if appName != "elecwhat" then Ok(c)
      else
        var title := Drop(c.title, |appName| + 3);
        if |Split(c.body, Lrm)| > 1 then
          var parts := Split(c.body, Lrm + ":");
          if |parts| > 1 then Ok(Content(title, Some(Split(c.body, ": ")[0]), parts[1]))
          else Err(IndexError)
        else Ok(c.(title := title));
    match step
    case Err(e) => Err(e)
    case Ok(d) =>
      if Contains(d.title, appName) then Ok(d.(title := Drop(d.title, |appName| + 3))) else Ok(d)
  }

  /** Parsing fails only for "elecwhat", and exactly when the body has a mark but no mark-colon. */
  lemma ContentFailsIff(appName: string, c: Content)
    ensures ContentOf(appName, c).Err? <==>
      appName == "elecwhat" && Contains(c.body, Lrm) && !Contains(c.body, Lrm + ":")
  {
    SplitMoreThanOne(c.body, Lrm);
    SplitMoreThanOne(c.body, Lrm + ":");
  }

  /** A mark-colon implies a mark. */
  lemma MarkColonHasMark(s: string)
    requires Contains(s, Lrm + ":")
    ensures Contains(s, Lrm)
  {
    var i := IndexOf(s, Lrm + ":").value;
    IndexOfSpec(s, Lrm + ":");
    IndexOfSpec(s, Lrm);
    assert s[i..i + 1] == (Lrm + ":")[..1];
    assert OccursAt(s, Lrm, i);
  }

  /**
   * For "elecwhat" with a mark-colon in the body: the subtitle is the body's text before the
   * first ": " (all of it when there is none), and the body becomes the stretch right after the
   * first mark-colon, up to the next mark-colon or the end.
   */
  lemma {:induction false} ElecwhatSplitsSender(c: Content)
    requires Contains(c.body, Lrm + ":")
    ensures ContentOf("elecwhat", c).Ok?
    ensures var r := ContentOf("elecwhat", c).value; var i := IndexOf(c.body, Lrm + ":").value;
      && r.subtitle.Some?
      && (Contains(c.body, ": ") ==> r.subtitle.value == c.body[..IndexOf(c.body, ": ").value])
      && (!Contains(c.body, ": ") ==> r.subtitle.value == c.body)
      && i + 2 + |r.body| <= |c.body| && c.body[i + 2..i + 2 + |r.body|] == r.body
      && !Contains(r.body, Lrm + ":")
      && PieceAtOffset(c.body, Lrm + ":", i + 2, r.body)
    ensures var r := ContentOf("elecwhat", c).value; var t := Drop(c.title, 11);
      r.title == if Contains(t, "elecwhat") then Drop(t, 11) else t
  {
    MarkColonHasMark(c.body);
    SplitMoreThanOne(c.body, Lrm);
    SplitHead(c.body, ": ");
    SplitSecond(c.body, Lrm + ":", IndexOf(c.body, Lrm + ":").value);
  }

  /**
   * For "elecwhat" with no mark in the body, only the title changes: it loses its first eleven
   * characters, and eleven more when "elecwhat" still occurs in what is left.
   */
  lemma ElecwhatWithoutMark(c: Content)
    requires !Contains(c.body, Lrm)
    ensures var t := Drop(c.title, 11);
      ContentOf("elecwhat", c) == Ok(c.(title := if Contains(t, "elecwhat") then Drop(t, 11) else t))
  {
    SplitMoreThanOne(c.body, Lrm);
  }

  /** Whatever the app, the new title is a suffix of the old one: the rewrite only cuts a prefix. */
  lemma TitleIsSuffix(appName: string, c: Content)
    requires ContentOf(appName, c).Ok?
    ensures var t := ContentOf(appName, c).value.title;
      |t| <= |c.title| && t == c.title[|c.title| - |t|..]
  {
  }

  /** An app other than "elecwhat" whose name is absent from the title leaves every field as it was. */
  lemma UnmentionedAppUnchanged(appName: string, c: Content)
    requires appName != "elecwhat" && !Contains(c.title, appName)
    ensures ContentOf(appName, c) == Ok(c)
  {
  }

  /**
   * Any app other than "elecwhat" whose name occurs anywhere in the title loses the title's first
   * `len(app_name) + 3` characters, and keeps subtitle and body.
   */
  lemma TitleCut(appName: string, c: Content)
    requires appName != "elecwhat" && Contains(c.title, appName)
    ensures ContentOf(appName, c) == Ok(c.(title := Drop(c.title, |appName| + 3)))
  {
  }

  /**
   * The cut is by position, not by search: "Message from Slack" from "Slack" loses its first
   * eight characters and keeps the app name.
   */
  lemma TitleCutIsPositional()
    ensures ContentOf("Slack", Content("Message from Slack", None, "hi")) ==
      Ok(Content("from Slack", None, "hi"))
  {
    assert OccursAt("Message from Slack", "Slack", 13);
    OccursContains("Message from Slack", "Slack", 13);
  }

  /** An empty app name occurs in every title, so every title loses three characters. */
  lemma EmptyAppNameCutsThree(c: Content)
    ensures ContentOf("", c) == Ok(c.(title := Drop(c.title, 3)))
  {
    assert OccursAt(c.title, "", 0);
  }

  // ---------------------------------------------------------------------------
  // The record

  /**
   * `n` is the record `__init__` builds from these arguments: the fields hold them, the expiry and
   * `is_replaceable` keep their defaults, and the text is the rewritten content. (The picture is
   * stated apart, by `ImageOf`.)
   */
  ghost predicate Built(n: NotificationParser, id: nat, appName: string, replacesId: nat, appIcon: string,
                        summary: string, body: string, actions: seq<string>, hints: map<string, Value>)
    reads n
  {
    && ContentOf(appName, Content(summary, None, body)).Ok?
    && n.id == id && n.appName == appName && n.replacesId == replacesId && n.appIcon == appIcon
    && n.actions == actions && n.hints == hints
    && n.expireTimeout == DefaultExpireTimeout && !n.isReplaceable
    && Content(n.title, n.subtitle, n.body) == ContentOf(appName, Content(summary, None, body)).value
  }

  /** `NotificationParser`: one notification's data; `parse` rewrites its text and picks its image. */
  class NotificationParser {
    const id: nat
    const appName: string
    const replacesId: nat
    const appIcon: string
    const actions: seq<string>
    const hints: map<string, Value>
    const expireTimeout: int
    const isReplaceable: bool
    var title: string
    var subtitle: Option<string>
    var body: string
    var img: ImageSource

    /** The field setup of `__init__`, before `parse` runs; `img` is not set yet and reads `NoIcon`. */
    constructor Init(id: nat, appName: string, replacesId: nat, appIcon: string, summary: string,
                     body: string, actions: seq<string>, hints: map<string, Value>,
                     isReplaceable: bool := false, expireTimeout: int := DefaultExpireTimeout)
      ensures this.id == id && this.appName == appName && this.replacesId == replacesId
      ensures this.appIcon == appIcon && this.actions == actions && this.hints == hints
      ensures this.expireTimeout == expireTimeout && this.isReplaceable == isReplaceable
      ensures title == summary && subtitle == None && this.body == body && img == NoIcon
    {
      this.id := id;
      this.appName := appName;
      this.replacesId := replacesId;
      this.appIcon := appIcon;
      this.actions := actions;
      this.hints := hints;
      this.expireTimeout := expireTimeout;
      this.isReplaceable := isReplaceable;
      title := summary;
      subtitle := None;
      this.body := body;
      img := NoIcon;
    }

    /** `parse_image`: the hint's data when `has_image_data` finds a key, the icon search otherwise. */
    method ParseImage()
      modifies this`img
      ensures HasImageData(hints) != "" ==> img == FromHint(HasImageData(hints), Unwrap(hints[HasImageData(hints)]))
      ensures HasImageData(hints) == "" ==> img == SearchAppImage(appIcon, appName)
    {
      var key := HasImageData(hints);
      if key != "" {
        img := FromHint(key, Unwrap(hints[key]));
        return;
      }
      img := SearchAppImage(appIcon, appName);
    }

    /** `parse_content`; `ok` is false where Python raises `IndexError`. */
    method ParseContent() returns (ok: bool)
      modifies this`title, this`subtitle, this`body
      ensures var r := ContentOf(appName, old(Content(title, subtitle, body)));
        ok == r.Ok? && (ok ==> Content(title, subtitle, body) == r.value)
    {
      if appName == "elecwhat" {
        title := Drop(title, |appName| + 3);
        if |Split(body, Lrm)| > 1 {
          subtitle := Some(Split(body, ": ")[0]);
          var parts := Split(body, Lrm + ":");
          if |parts| <= 1 {
            return false;
          }
          body := parts[1];
        }
      }
      if Contains(title, appName) {
        title := Drop(title, |appName| + 3);
      }
      ok := true;
    }

    /**
     * The whole of `__init__`: field setup, then `parse_image`, then `parse_content`.
     * `None` stands for the constructor raising; the expiry and `isReplaceable` keep their defaults.
     */
    static method New(id: nat, appName: string, replacesId: nat, appIcon: string, summary: string,
                      body: string, actions: seq<string>, hints: map<string, Value>)
      returns (r: Option<NotificationParser>)
      ensures r.Some? <==> ContentOf(appName, Content(summary, None, body)).Ok?
      ensures r.Some? ==> fresh(r.value) && Built(r.value, id, appName, replacesId, appIcon, summary, body, actions, hints)
      ensures r.Some? ==> r.value.img == ImageOf(hints, appIcon, appName)
    {
      var n := new NotificationParser.Init(id, appName, replacesId, appIcon, summary, body, actions, hints);
      n.ParseImage();
      var ok := n.ParseContent();
      r := if ok then Some(n) else None;
    }
  }
}
