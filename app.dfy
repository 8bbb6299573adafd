/**
 * The editor shell (App.tsx): the text is the single source of truth; every change of
 * it re-derives the parsed value or the parse error, and the toolbar, the tree and the
 * AI actions change the text only under the guards the handlers test.
 */
module App {
  import opened Wrappers
  import opened Types
  import opened JsRuntime
  import opened Paths
  import opened JsonTree

  /** The `space` argument an indentation mode stands for: a tab character for 'tab',
      `parseInt` of the mode's digit otherwise (App.tsx:73, 80, 102, 117). Each mode
      indents every level by its own non-empty string: two spaces, four spaces or one
      tab, so formatting never produces the single-line form of minify. */
  function IndentSpace(mode: IndentMode): (sp: Space)
    ensures Gap(sp) == match mode case Two => "  " case Four => "    " case Tab => "\t"
    ensures Gap(sp) != Gap(NoSpace)
    ensures WhitespaceGap(sp)
  {
    match mode
    case Tab => Text("\t")
    case Two => assert Repeat(' ', 2) == "  "; Count(2)
    case Four => assert Repeat(' ', 4) == "    "; Count(4)
  }

  /** Different modes give different indentation. */
  lemma IndentModesDistinct(a: IndentMode, b: IndentMode)
    ensures Gap(IndentSpace(a)) == Gap(IndentSpace(b)) ==> a == b
  {
  }

  /** The document the editor opens with (App.tsx:20-33). */
  const InitialDocument: JsonValue := JObject([
    Member("project", JString("Nexus JSON Editor")),
    Member("version", JNumber(1.0)),
    Member("features", JArray([
      JString("Text Editor"), JString("Tree View"), JString("Auto-Formatting"), JString("AI Repair")])),
    Member("settings", JObject([Member("theme", JString("Dark")), Member("active", JBool(true))]))])

  /** On a faithful platform the initial document survives serialisation with any
      whitespace gap: its keys are distinct and none is an index, and its one number,
      1.0, is a double. */
  lemma InitialDocumentParses(h: Host, sp: Space)
    requires Faithful(h)
    requires WhitespaceGap(sp)
    ensures h.parse(h.stringify(InitialDocument, sp)) == Ok(InitialDocument)
  {
    assert h.isDouble(1.0) by {
      assert 1.0 == (1.0).Floor as real;
    }
    InitialDocumentStorable(h.isDouble);
  }

  /** The initial document has distinct keys, and its only number is 1.0. */
  lemma InitialDocumentStorable(ok: real -> bool)
    requires ok(1.0)
    ensures WellFormed(InitialDocument) && NumbersIn(InitialDocument, ok)
  {
    InitialNumbers(ok);
    InitialKeys();
  }

  /** The one number of the initial document, `version`, is 1.0. */
  lemma InitialNumbers(ok: real -> bool)
    requires ok(1.0)
    ensures NumbersIn(InitialDocument, ok)
  {
    var ms := InitialDocument.members;
    assert NumbersIn(ms[1].value, ok);
    assert NumbersIn(ms[2].value, ok);
    assert NumbersIn(ms[3].value, ok);
  }

  /** The keys of the initial document and of its `settings` object are distinct. */
  lemma InitialKeys()
    ensures WellFormed(InitialDocument)
  {
    var ms := InitialDocument.members;
    InitialTopKeys();
    InitialSettingsKeys();
    assert WellFormed(ms[2].value);
    assert forall i :: 0 <= i < |ms| ==> WellFormed(ms[i].value);
  }

  /** The top-level keys "project", "version", "features" and "settings". */
  lemma InitialTopKeys()
    ensures DistinctKeys(InitialDocument.members) && IndexKeysFirst(InitialDocument.members)
  {
    var ms := InitialDocument.members;
    assert ms[0].key[0] == 'p' && ms[1].key[0] == 'v' && ms[2].key[0] == 'f' && ms[3].key[0] == 's';
    WordKeysInOrder(ms);
  }

  /** The keys "theme" and "active" of `settings`. */
  lemma InitialSettingsKeys()
    ensures WellFormed(InitialDocument.members[3].value)
  {
    var settings := InitialDocument.members[3].value.members;
    assert settings[0].key[0] == 't' && settings[1].key[0] == 'a';
    WordKeysInOrder(settings);
  }

  /** Members whose keys all start with a non-digit have no index keys, so they are in
      enumeration order whatever their order. */
  lemma WordKeysInOrder(ms: seq<Member>)
    requires forall i :: 0 <= i < |ms| ==> ms[i].key != [] && !IsDigit(ms[i].key[0])
    ensures IndexKeysFirst(ms)
  {
    forall j | 0 <= j < |ms|
      ensures ParseIndex(ms[j].key).None?
    {
      assert !AllDigits(ms[j].key);
    }
  }

  /** `parsedJson` after the effect: the parsed value, or null when parsing threw. */
  function ParsedValue(r: Result<JsonValue, string>): (v: JsonValue)
    ensures r.Ok? ==> v == r.value
    ensures r.Err? ==> !Truthy(v)
  {
    match r
    case Ok(v) => v
    case Err(_) => JNull
  }

  /** `error` after the effect: null on success, the exception's message on failure. */
  function ParseError(r: Result<JsonValue, string>): (e: Option<string>)
    ensures e.None? <==> r.Ok?
    ensures e.Some? ==> e.value == r.error
  {
    match r
    case Ok(_) => None
    case Err(m) => Some(m)
  }

  /** A path a tree edit may carry: it addresses a node, and it is empty only when the
      root itself is a leaf (the only way the tree emits the empty path). */
  predicate EditTarget(root: JsonValue, path: Path) {
    At(root, path).Some? && (path == [] ==> !IsContainer(root))
  }

  /** The props of the tree's root node (App.tsx:270-277). */
  function RootProps(v: JsonValue): TreeNodeProps {
    TreeNodeProps(Some("root"), v, true, 0, [], None)
  }

  /** The tree pane: the root node when the parsed value is truthy, otherwise the
      "fix syntax errors" placeholder (App.tsx:269-283). */
  function TreePane(parsedJson: JsonValue): (pane: Option<TreeNodeProps>)
    ensures pane.Some? <==> Truthy(parsedJson)
    ensures pane.Some? ==> pane.value.value == parsedJson && pane.value.path == [] && pane.value.depth == 0
  {
    if Truthy(parsedJson) then Some(RootProps(parsedJson)) else None
  }

  /** Text that does not parse shows the placeholder, and so do the documents `0`,
      `false` and `""`, which do parse: the pane tests truthiness, not the error. */
  lemma FalsyRootShowsPlaceholder(r: Result<JsonValue, string>)
    ensures r.Err? ==> TreePane(ParsedValue(r)) == None
    ensures r.Ok? && r.value in {JNumber(0.0), JBool(false), JString(""), JNull} ==>
      ParseError(r) == None && TreePane(ParsedValue(r)) == None
  {
  }

  /** The root node's path addresses the whole value, and the root, being last, never
      renders a trailing comma. */
  lemma RootNode(v: JsonValue, isExpanded: bool, isEditing: bool, editValue: string, numberText: real -> string)
    ensures At(v, RootProps(v).path) == Some(v)
    ensures var nv := Render(RootProps(v), isExpanded, isEditing, editValue, numberText);
      CountOf(nv.row + nv.footer, CommaMark) == 0
    ensures var w := RenderAsWritten(RootProps(v), isExpanded, isEditing, editValue, numberText);
      CountOf(w.row + w.footer, CommaMark) == 0
  {
    RenderPunctuation(RootProps(v), isExpanded, isEditing, editValue, numberText, CommaMark);
    RenderAsWrittenPunctuation(RootProps(v), isExpanded, isEditing, editValue, numberText, CommaMark);
  }

  /** A node whose path addresses its value passes that property on to every child, so by
      induction from the root every rendered node's path addresses the node's value, and
      the paths the tree hands to `onUpdate` always exist. */
  lemma ChildPathsResolve(root: JsonValue, p: TreeNodeProps, i: nat)
    requires WellFormed(root) && At(root, p.path) == Some(p.value)
    requires i < |ChildProps(p)|
    ensures At(root, ChildProps(p)[i].path) == Some(ChildProps(p)[i].value)
  {
    var c := ChildProps(p)[i];
    var seg := ChildSegment(p.value, i);
    AtWellFormed(root, p.path, n => true);
    AtAppend(root, p.path, [seg]);
    assert At(p.value, [seg]) == Child(p.value, seg) by {
      assert [seg][1..] == [];
    }
    match p.value
    case JArray(items) =>
      IndexRoundTrip(i);
    case JObject(ms) =>
      var j := FindKey(ms, ms[i].key);
      assert j.Some?;
      assert j.value == i;
  }

  /** A leaf whose path addresses it is a valid target for a tree edit. */
  lemma LeafIsEditTarget(root: JsonValue, p: TreeNodeProps)
    requires At(root, p.path) == Some(p.value) && !IsContainer(p.value)
    ensures EditTarget(root, p.path)
  {
  }

  /** A value saved in the tree of a parsed document ends up in the document: on a
      faithful platform, the text the tree update writes parses back to the document
      with the saved value at the node's path. */
  lemma SavedEditLands(h: Host, root: JsonValue, p: TreeNodeProps, text: string, sp: Space)
    requires Faithful(h) && WellFormed(root) && NumbersIn(root, h.isDouble)
    requires At(root, p.path) == Some(p.value) && !IsContainer(p.value) && p.path != []
    requires WhitespaceGap(sp)
    ensures var x := CoercedValue(p.value, text, h.toNumber);
      var doc := SetAt(root, p.path, x);
      h.parse(h.stringify(doc, sp)) == Ok(doc) && At(doc, p.path) == Some(x)
  {
    var x := CoercedValue(p.value, text, h.toNumber);
    CoercedValueStorable(h, p.value, text);
    SetAtWellFormed(root, p.path, x, h.isDouble);
    SetAtGet(root, p.path, x);
  }

  /** The status badge over the tree. */
  datatype Badge = ValidJson | InvalidJson

  /** The badge as written (App.tsx:262): "Valid JSON" needs a truthy parsed value as
      well as no error. */
  function BadgeAsWritten(parsedJson: JsonValue, error: Option<string>): (b: Badge)
    ensures b == ValidJson ==> Truthy(parsedJson)
    ensures error.Some? && error.value != "" ==> b == InvalidJson
    ensures Truthy(parsedJson) && error.None? ==> b == ValidJson
  {
    if Truthy(parsedJson) && (error.None? || error.value == "") then ValidJson else InvalidJson
  }

  /** The badge as evidently intended: it reports whether the text parsed. */
  function StatusBadge(error: Option<string>): Badge {
    if error.None? then ValidJson else InvalidJson
  }

  /** The text `0` parses, yet the badge as written calls it invalid. */
  lemma FalsyDocumentBadgedInvalid()
    ensures var r: Result<JsonValue, string> := Ok(JNumber(0.0));
      ParseError(r) == None && BadgeAsWritten(ParsedValue(r), ParseError(r)) == InvalidJson
  {
  }

  /** The corrected badge says "Valid JSON" exactly when the text parsed. */
  lemma StatusBadgeReportsParse(r: Result<JsonValue, string>)
    ensures StatusBadge(ParseError(r)) == ValidJson <==> r.Ok?
  {
  }

  class Editor {
    const host: Host
    var jsonString: string
    var parsedJson: JsonValue
    var error: Option<string>
    var indentMode: IndentMode
    var aiPrompt: string

    /** The parsed value and the error are always those of the current text. */
    ghost predicate Valid()
      reads this
    {
      && parsedJson == ParsedValue(host.parse(jsonString))
      && error == ParseError(host.parse(jsonString))
    }

    /** Mounting: the initial document pretty-printed with two spaces, mode '2', an empty
        prompt, and the effect run once. */
    constructor (host: Host)
      ensures this.host == host && Valid()
      ensures jsonString == host.stringify(InitialDocument, IndentSpace(Two))
      ensures indentMode == Two && aiPrompt == ""
      ensures Faithful(host) ==> parsedJson == InitialDocument && error == None
    {
      this.host := host;
      jsonString := host.stringify(InitialDocument, Count(2));
      parsedJson := JNull;
      error := None;
      indentMode := Two;
      aiPrompt := "";
      new;
      Reparse();
      if Faithful(host) {
        InitialDocumentParses(host, IndentSpace(Two));
      }
    }

    /** The status badge the editor shows, as written: "Valid JSON" exactly when the text
        parses to a truthy value, so a document that parses to a falsy value is called
        invalid. */
    function Status(): (b: Badge)
      reads this
      ensures Valid() ==> (b == ValidJson <==> host.parse(jsonString).Ok? && Truthy(host.parse(jsonString).value))
    {
      BadgeAsWritten(parsedJson, error)
    }

    /** The effect on `jsonString` (App.tsx:47-56): parse; store the value and clear the
        error, or store the message and clear the value. The text is not touched. */
    method Reparse()
      modifies this`parsedJson, this`error
      ensures Valid()
    {
      match host.parse(jsonString) {
        case Ok(v) =>
          parsedJson := v;
          error := None;
        case Err(m) =>
          error := Some(m);
          parsedJson := JNull;
      }
    }

    /** `setJsonString` and the effect it triggers; typing in the text pane is this call. */
    method SetText(text: string)
      modifies this`jsonString, this`parsedJson, this`error
      ensures jsonString == text && Valid()
    {
      jsonString := text;
      Reparse();
    }

    /** `handleTreeUpdate` (App.tsx:59-75): with a truthy value, write `newValue` at
        `path` into a copy and re-serialise it with the current mode. The empty path
        (an edit of a leaf root) makes the final assignment throw, so nothing changes. */
    method TreeUpdate(path: Path, newValue: JsonValue)
      requires Valid()
      requires Truthy(parsedJson) ==> EditTarget(parsedJson, path)
      modifies this`jsonString, this`parsedJson, this`error
      ensures Valid()
      ensures !Truthy(old(parsedJson)) || path == [] ==> jsonString == old(jsonString)
      ensures Truthy(old(parsedJson)) && path != [] ==>
        jsonString == host.stringify(SetAt(old(parsedJson), path, newValue), IndentSpace(indentMode))
      ensures (&& Faithful(host) && WellFormed(newValue) && NumbersIn(newValue, host.isDouble)
               && Truthy(old(parsedJson)) && path != []) ==>
        && error == None
        && parsedJson == SetAt(old(parsedJson), path, newValue)
        && At(parsedJson, path) == Some(newValue)
    {
      if !Truthy(parsedJson) {
        return;
      }
      var newObj := parsedJson;  // structuredClone: values are never shared mutably here
      if path == [] {
        return;
      }
      ghost var before := parsedJson;
      newObj := WriteAtPath(newObj, path, newValue);
      var space := IndentSpace(indentMode);
      if Faithful(host) && WellFormed(newValue) && NumbersIn(newValue, host.isDouble) {
        assert host.parse(jsonString).Ok?;
        SetAtWellFormed(before, path, newValue, host.isDouble);
        assert host.parse(host.stringify(newObj, space)) == Ok(newObj);
        SetAtGet(before, path, newValue);
      }
      SetText(host.stringify(newObj, space));
    }

    /** `formatJson` (App.tsx:77-82): the mode is recorded even when the text is invalid;
        the text is re-serialised only when the parsed value is truthy. */
    method Format(mode: IndentMode)
      requires Valid()
      modifies this`indentMode, this`jsonString, this`parsedJson, this`error
      ensures Valid() && indentMode == mode
      ensures !Truthy(old(parsedJson)) ==> jsonString == old(jsonString)
      ensures Truthy(old(parsedJson)) ==> jsonString == host.stringify(old(parsedJson), IndentSpace(mode))
      ensures Faithful(host) ==> parsedJson == old(parsedJson) && error == old(error)
    {
      indentMode := mode;
      if !Truthy(parsedJson) {
        return;
      }
      ghost var before := parsedJson;
      if Faithful(host) {
        assert host.parse(jsonString).Ok?;
        assert host.parse(host.stringify(before, IndentSpace(mode))) == Ok(before);
      }
      SetText(host.stringify(parsedJson, IndentSpace(mode)));
    }

    /** `minifyJson` (App.tsx:84-87): with a truthy value, re-serialise without a space
        argument. */
    method Minify()
      requires Valid()
      modifies this`jsonString, this`parsedJson, this`error
      ensures Valid()
      ensures !Truthy(old(parsedJson)) ==> jsonString == old(jsonString)
      ensures Truthy(old(parsedJson)) ==> jsonString == host.stringify(old(parsedJson), NoSpace)
      ensures Faithful(host) ==> parsedJson == old(parsedJson) && error == old(error)
    {
      if !Truthy(parsedJson) {
        return;
      }
      ghost var before := parsedJson;
      if Faithful(host) {
        assert host.parse(jsonString).Ok?;
        assert host.parse(host.stringify(before, NoSpace)) == Ok(before);
      }
      SetText(host.stringify(parsedJson, NoSpace));
    }

    /** The clear button (App.tsx:215): the empty text, which does not parse. */
    method Clear()
      modifies this`jsonString, this`parsedJson, this`error
      ensures jsonString == "" && Valid()
      ensures Faithful(host) ==> error.Some? && parsedJson == JNull
    {
      SetText("");
    }

    /** Typing in the prompt box of the generate dialog. */
    method SetPrompt(prompt: string)
      modifies this`aiPrompt
      ensures aiPrompt == prompt
    {
      aiPrompt := prompt;
    }

    /** `handleAiFix` (App.tsx:94-109), with the repair service's answer as input (`None`
        when the call failed). It asks only when there is an error message; it writes the
        raw answer first, then, if that parses, its re-serialisation in the current mode. */
    method AiFix(reply: Option<string>) returns (requested: bool)
      requires Valid()
      modifies this`jsonString, this`parsedJson, this`error
      ensures Valid()
      ensures requested == (old(error).Some? && old(error).value != "")
      ensures !requested || reply.None? ==> jsonString == old(jsonString)
      ensures requested && reply.Some? ==>
        jsonString == match host.parse(reply.value)
          case Ok(v) => host.stringify(v, IndentSpace(indentMode))
          case Err(_) => reply.value
    {
      if error.None? || error.value == "" {
        return false;
      }
      requested := true;
      match reply {
        case None =>
          return;
        case Some(fixed) =>
          SetText(fixed);
          match host.parse(fixed) {
            case Err(_) =>
              return;
            case Ok(parsed) =>
              SetText(host.stringify(parsed, IndentSpace(indentMode)));
          }
      }
    }

    /** `handleAiGenerate` (App.tsx:111-126), with the generate service's answer as input
        (`None` when the call failed). It asks only for a non-blank prompt, and changes the
        text, and empties the prompt, only when the answer parses. */
    method AiGenerate(reply: Option<string>) returns (requested: bool)
      requires Valid()
      modifies this`jsonString, this`parsedJson, this`error, this`aiPrompt
      ensures Valid()
      ensures requested == (Trim(old(aiPrompt)) != "")
      ensures requested && reply.Some? && host.parse(reply.value).Ok? ==>
        && jsonString == host.stringify(host.parse(reply.value).value, IndentSpace(indentMode))
        && aiPrompt == ""
      ensures !(requested && reply.Some? && host.parse(reply.value).Ok?) ==>
        jsonString == old(jsonString) && aiPrompt == old(aiPrompt)
    {
      if Trim(aiPrompt) == "" {
        return false;
      }
      requested := true;
      match reply {
        case None =>
          return;
        case Some(generated) =>
          match host.parse(generated) {
            case Err(_) =>
              return;
            case Ok(parsed) =>
              SetText(host.stringify(parsed, IndentSpace(indentMode)));
              aiPrompt := "";
          }
      }
    }
  }

  /** Formatting twice with one mode gives the text formatting once gives. */
  method FormatTwice(e: Editor, mode: IndentMode)
    requires e.Valid() && Faithful(e.host)
    modifies e
    ensures e.Valid() && e.indentMode == mode
    ensures e.jsonString ==
      if Truthy(old(e.parsedJson)) then e.host.stringify(old(e.parsedJson), IndentSpace(mode)) else old(e.jsonString)
  {
    e.Format(mode);
    e.Format(mode);
  }
}
