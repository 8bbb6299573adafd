/**
 * One node of the interactive tree view (components/JsonTree.tsx): the type tag, the
 * coercion of edited text back to a value, how a container derives its children's
 * props, what a node renders, and the per-node state machine of expanding and editing.
 */
module JsonTree {
  import opened Wrappers
  import opened Types
  import opened JsRuntime

  /** `getDataType`: "null" for null, "array" for arrays, otherwise what `typeof` says. */
  function GetDataType(v: JsonValue): (tag: string)
    ensures IsContainer(v) <==> tag == "object" || tag == "array"
    ensures v.JArray? <==> tag == "array"
    ensures v.JNull? <==> tag == "null"
  {
    match v
    case JNull => "null"
    case JArray(_) => "array"
    case JString(_) => "string"
    case JNumber(_) => "number"
    case JBool(_) => "boolean"
    case JObject(_) => "object"
  }

  /** Two values get the same tag exactly when they are the same variant. */
  lemma DataTypeDeterminesVariant(a: JsonValue, b: JsonValue)
    ensures GetDataType(a) == GetDataType(b) <==>
      && (a.JString? <==> b.JString?) && (a.JNumber? <==> b.JNumber?) && (a.JBool? <==> b.JBool?)
      && (a.JNull? <==> b.JNull?) && (a.JArray? <==> b.JArray?) && (a.JObject? <==> b.JObject?)
  {
  }

  /** `String(value)` for a leaf, the text an edit starts from. */
  function ValueText(v: JsonValue, numberText: real -> string): (t: string)
    requires !IsContainer(v)
    ensures !v.JNumber? ==> CoercedValue(v, t, s => None) == v
  {
    match v
    case JString(s) => s
    case JNumber(n) => numberText(n)
    case JBool(b) => if b then "true" else "false"
    case JNull => "null"
  }

  /** The value a saved edit writes, decided by the variant of the node's original value.
      A number node takes the number the text denotes, a boolean node takes `true` or
      `false` on those exact words, a null node stays null on the exact word "null";
      every other text, and every edit of a string node, is written as that text. */
  function CoercedValue(original: JsonValue, text: string, toNumber: string -> Option<real>): (r: JsonValue)
    ensures r.JNumber? <==> original.JNumber? && toNumber(text).Some?
    ensures r.JNumber? ==> r.num == toNumber(text).value
    ensures r.JBool? <==> original.JBool? && (text == "true" || text == "false")
    ensures r.JBool? ==> r.b == (text == "true")
    ensures r.JNull? <==> original.JNull? && text == "null"
    ensures !IsContainer(r)
    ensures r.JString? ==> r.str == text
  {
    match original
    case JNumber(_) =>
      (match toNumber(text)
       case Some(n) => JNumber(n)
       case None => JString(text))
    case JBool(_) =>
      if text == "true" then JBool(true) else if text == "false" then JBool(false) else JString(text)
    case JNull => if text == "null" then JNull else JString(text)
    case _ => JString(text)
  }

  /** Saving the text an edit started from leaves a leaf as it was: a number's text reads
      back as that number on a faithful platform, and every other leaf's text does
      whatever `Number` does. */
  lemma SaveUnchangedKeepsValue(h: Host, v: JsonValue)
    requires Faithful(h) && NumbersIn(v, h.isDouble) && !IsContainer(v)
    ensures CoercedValue(v, ValueText(v, h.numberText), h.toNumber) == v
  {
  }

  /** On a faithful platform a saved value is one the document can hold: a leaf whose
      number, if any, is a double. */
  lemma CoercedValueStorable(h: Host, original: JsonValue, text: string)
    requires Faithful(h)
    ensures var r := CoercedValue(original, text, h.toNumber);
      WellFormed(r) && NumbersIn(r, h.isDouble)
  {
  }

  // ---------------------------------------------------------------------------
  // Children (components/JsonTree.tsx:202-214)

  /** The path segment of the i-th entry: the index as text for arrays, the key for objects. */
  function ChildSegment(v: JsonValue, i: nat): string
    requires IsContainer(v) && i < EntryCount(v)
  {
    if v.JArray? then NatToString(i) else v.members[i].key
  }

  function ChildValue(v: JsonValue, i: nat): (c: JsonValue)
    requires IsContainer(v) && i < EntryCount(v)
    ensures c < v
  {
    if v.JArray? then v.items[i] else v.members[i].value
  }

  /** The props each entry of `Object.entries(value)` is rendered with. */
  function ChildProps(p: TreeNodeProps): (cs: seq<TreeNodeProps>)
    ensures |cs| == (if IsContainer(p.value) then EntryCount(p.value) else 0)
    ensures forall i :: 0 <= i < |cs| ==>
      && cs[i].path == p.path + [ChildSegment(p.value, i)]
      && cs[i].value == ChildValue(p.value, i)
      && cs[i].keyName == (if p.value.JArray? then None else Some(p.value.members[i].key))
      && (cs[i].isLast <==> i == |cs| - 1)
      && cs[i].depth == p.depth + 1
      && cs[i].expanded == None
  {
    if !IsContainer(p.value) then []
    else
      var n := EntryCount(p.value);
      seq(n, i requires 0 <= i < n =>
        TreeNodeProps(
          if p.value.JArray? then None else Some(p.value.members[i].key),
          ChildValue(p.value, i),
          i == n - 1,
          p.depth + 1,
          p.path + [ChildSegment(p.value, i)],
          None))
  }

  /** In a well-formed value no two children share a path. */
  lemma ChildPathsDistinct(p: TreeNodeProps, i: nat, j: nat)
    requires WellFormed(p.value)
    requires i < j < |ChildProps(p)|
    ensures ChildProps(p)[i].path != ChildProps(p)[j].path
  {
    var cs := ChildProps(p);
    assert cs[i].path[|p.path|] == ChildSegment(p.value, i);
    assert cs[j].path[|p.path|] == ChildSegment(p.value, j);
    if p.value.JArray? {
      DecimalValueOfNatToString(i);
      DecimalValueOfNatToString(j);
    }
  }

  // ---------------------------------------------------------------------------
  // What a node renders (components/JsonTree.tsx:107-227)

  /** The visible parts of a node, in order. */
  datatype Piece =
    | Chevron(down: bool)          // the expand/collapse icon
    | KeyLabel(name: string)       // `"key":`
    | Open(bracket: char)
    | Close(bracket: char)
    | Ellipsis                     // the "more" icon of a collapsed container
    | Comma                        // the trailing separator
    | CountLabel(text: string)     // "n items" / "n keys"
    | Quote                        // a quote drawn around a string editor
    | Editor(buffer: string)       // the edit box and its text
    | Shown(text: string)          // a leaf's value in display mode

  /** A node's row, the children it renders, and the closing line after them. */
  datatype NodeView = NodeView(row: seq<Piece>, children: seq<TreeNodeProps>, footer: seq<Piece>)

  /** The punctuation a rendering is checked for. */
  datatype Mark = OpenMark | CloseMark | CommaMark

  predicate Marks(x: Piece, m: Mark) {
    match m
    case OpenMark => x.Open?
    case CloseMark => x.Close?
    case CommaMark => x.Comma?
  }

  function CountOf(s: seq<Piece>, m: Mark): nat {
    if s == [] then 0 else (if Marks(s[0], m) then 1 else 0) + CountOf(s[1..], m)
  }

  lemma {:induction false} CountOfAppend(a: seq<Piece>, b: seq<Piece>, m: Mark)
    ensures CountOf(a + b, m) == CountOf(a, m) + CountOf(b, m)
    decreases |a|
  {
    if a == [] {
      assert a + b == b;
    } else {
      assert (a + b)[0] == a[0] && (a + b)[1..] == a[1..] + b;
      CountOfAppend(a[1..], b, m);
    }
  }

  predicate IsEmptyContainer(v: JsonValue) {
    IsContainer(v) && EntryCount(v) == 0
  }

  function OpenBracket(v: JsonValue): char { if v.JArray? then '[' else '{' }

  function CloseBracket(v: JsonValue): char { if v.JArray? then ']' else '}' }

  /** The unit after the count: items of an array, keys of an object. */
  function CountUnit(v: JsonValue): string {
    if v.JArray? then " items" else " keys"
  }

  /** The count shown beside a collapsed container: the decimal numeral of its number of
      entries, then the unit. */
  function CountText(v: JsonValue): (r: string)
    ensures |r| > |CountUnit(v)| && r[|r| - |CountUnit(v)|..] == CountUnit(v)
    ensures var d := r[..|r| - |CountUnit(v)|]; AllDigits(d) && DecimalValue(d) == EntryCount(v)
  {
    var d := NatToString(EntryCount(v));
    DecimalValueOfNatToString(EntryCount(v));
    assert (d + CountUnit(v))[..|d|] == d;
    d + CountUnit(v)
  }

  function CommaUnlessLast(isLast: bool): seq<Piece> {
    if isLast then [] else [Comma]
  }

  /** The chevron (only on a non-empty container) and the key label (only with a key). */
  function Header(p: TreeNodeProps, isExpanded: bool): seq<Piece> {
    (if IsContainer(p.value) && !IsEmptyContainer(p.value) then [Chevron(isExpanded)] else [])
    + (if p.keyName.Some? then [KeyLabel(p.keyName.value)] else [])
  }

  /** `renderEditableValue`: the edit box (between quotes for a string) while editing,
      otherwise the value's text. */
  function LeafPieces(v: JsonValue, isEditing: bool, editValue: string, numberText: real -> string): (r: seq<Piece>)
    ensures Editor(editValue) in r <==> isEditing
    ensures Quote in r <==> isEditing && v.JString?
  {
    if isEditing then
      (if v.JString? then [Quote, Editor(editValue), Quote] else [Editor(editValue)])
    else match v
      case JString(s) => [Shown("\"" + s + "\"")]
      case JNumber(n) => [Shown(numberText(n))]
      case JBool(b) => [Shown(if b then "true" else "false")]
      case JNull => [Shown("null")]
      case _ => []
  }

  predicate ChildrenShown(v: JsonValue, isExpanded: bool) {
    IsContainer(v) && isExpanded && !IsEmptyContainer(v)
  }

  /** What a collapsed container shows after its opening bracket. */
  function Collapsed(p: TreeNodeProps): seq<Piece>
    requires IsContainer(p.value)
  {
    (if IsEmptyContainer(p.value) then [] else [Ellipsis])
    + [Close(CloseBracket(p.value))] + CommaUnlessLast(p.isLast) + [CountLabel(CountText(p.value))]
  }

  /** The row's content after the header, as written: an expanded container shows only
      its opening bracket there. */
  function BodyAsWritten(p: TreeNodeProps, isExpanded: bool, isEditing: bool, editValue: string,
                         numberText: real -> string): seq<Piece>
  {
    if IsContainer(p.value) then
      [Open(OpenBracket(p.value))] + (if isExpanded then [] else Collapsed(p))
    else LeafPieces(p.value, isEditing, editValue, numberText) + CommaUnlessLast(p.isLast)
  }

  /** The row's content after the header, as evidently intended: an expanded EMPTY
      container, which renders no closing line, closes its bracket in the row. */
  function Body(p: TreeNodeProps, isExpanded: bool, isEditing: bool, editValue: string,
                numberText: real -> string): seq<Piece>
  {
    if IsContainer(p.value) then
      [Open(OpenBracket(p.value))]
      + (if !isExpanded then Collapsed(p)
         else if IsEmptyContainer(p.value) then [Close(CloseBracket(p.value))] + CommaUnlessLast(p.isLast)
         else [])
    else LeafPieces(p.value, isEditing, editValue, numberText) + CommaUnlessLast(p.isLast)
  }

  /** The closing line, rendered after the children of an expanded non-empty container. */
  function Footer(p: TreeNodeProps, isExpanded: bool): seq<Piece> {
    if ChildrenShown(p.value, isExpanded) then [Close(CloseBracket(p.value))] + CommaUnlessLast(p.isLast) else []
  }

  /** The node as the component renders it (components/JsonTree.tsx:148-227). It agrees
      with the corrected `Render` except on an expanded empty container, which gets
      neither its closing bracket nor its trailing comma. */
  function RenderAsWritten(p: TreeNodeProps, isExpanded: bool, isEditing: bool, editValue: string,
                           numberText: real -> string): (nv: NodeView)
    ensures !(IsEmptyContainer(p.value) && isExpanded) ==> nv == Render(p, isExpanded, isEditing, editValue, numberText)
  {
    NodeView(
      Header(p, isExpanded) + BodyAsWritten(p, isExpanded, isEditing, editValue, numberText),
      if ChildrenShown(p.value, isExpanded) then ChildProps(p) else [],
      Footer(p, isExpanded))
  }

  /** The node as evidently intended; the same as `RenderAsWritten` except that an
      expanded empty container is closed in its own row. */
  function Render(p: TreeNodeProps, isExpanded: bool, isEditing: bool, editValue: string,
                  numberText: real -> string): NodeView
  {
    NodeView(
      Header(p, isExpanded) + Body(p, isExpanded, isEditing, editValue, numberText),
      if ChildrenShown(p.value, isExpanded) then ChildProps(p) else [],
      Footer(p, isExpanded))
  }

  lemma HeaderUnmarked(p: TreeNodeProps, isExpanded: bool, m: Mark)
    ensures CountOf(Header(p, isExpanded), m) == 0
  {
    var a := if IsContainer(p.value) && !IsEmptyContainer(p.value) then [Chevron(isExpanded)] else [];
    var b := if p.keyName.Some? then [KeyLabel(p.keyName.value)] else [];
    CountOfAppend(a, b, m);
  }

  lemma LeafUnmarked(v: JsonValue, isEditing: bool, editValue: string, numberText: real -> string, m: Mark)
    ensures CountOf(LeafPieces(v, isEditing, editValue, numberText), m) == 0
  {
    if isEditing && v.JString? {
      assert [Quote, Editor(editValue), Quote] == [Quote, Editor(editValue)] + [Quote];
      CountOfAppend([Quote, Editor(editValue)], [Quote], m);
      assert [Quote, Editor(editValue)] == [Quote] + [Editor(editValue)];
      CountOfAppend([Quote], [Editor(editValue)], m);
    }
  }

  /** A closing bracket, then the comma unless last: one bracket, one comma unless last. */
  lemma ClosingCount(p: TreeNodeProps, m: Mark)
    ensures CountOf([Close(CloseBracket(p.value))] + CommaUnlessLast(p.isLast), m)
         == (if m == CloseMark then 1 else if m == CommaMark && !p.isLast then 1 else 0)
  {
    CountOfAppend([Close(CloseBracket(p.value))], CommaUnlessLast(p.isLast), m);
  }

  lemma CollapsedCount(p: TreeNodeProps, m: Mark)
    requires IsContainer(p.value)
    ensures CountOf(Collapsed(p), m) == (if m == CloseMark then 1 else if m == CommaMark && !p.isLast then 1 else 0)
  {
    var e: seq<Piece> := if IsEmptyContainer(p.value) then [] else [Ellipsis];
    var cl := [Close(CloseBracket(p.value))] + CommaUnlessLast(p.isLast);
    var lab := [CountLabel(CountText(p.value))];
    assert Collapsed(p) == e + cl + lab;
    CountOfAppend(e, cl, m);
    CountOfAppend(e + cl, lab, m);
    ClosingCount(p, m);
  }

  lemma BodyCount(p: TreeNodeProps, isExpanded: bool, isEditing: bool, editValue: string,
                  numberText: real -> string, m: Mark)
    ensures CountOf(Body(p, isExpanded, isEditing, editValue, numberText), m) ==
      if ChildrenShown(p.value, isExpanded) then (if m == OpenMark then 1 else 0)
      else if IsContainer(p.value) then (if m == CommaMark then (if p.isLast then 0 else 1) else 1)
      else (if m == CommaMark && !p.isLast then 1 else 0)
  {
    var v := p.value;
    if IsContainer(v) {
      var op := [Open(OpenBracket(v))];
      var rest :=
        if !isExpanded then Collapsed(p)
        else if IsEmptyContainer(v) then [Close(CloseBracket(v))] + CommaUnlessLast(p.isLast)
        else [];
      CountOfAppend(op, rest, m);
      if !isExpanded {
        CollapsedCount(p, m);
      } else if IsEmptyContainer(v) {
        ClosingCount(p, m);
      }
    } else {
      LeafUnmarked(v, isEditing, editValue, numberText, m);
      CountOfAppend(LeafPieces(v, isEditing, editValue, numberText), CommaUnlessLast(p.isLast), m);
    }
  }

  /** Every node shows one trailing comma unless it is the last of its siblings, and a
      container shows exactly one opening and one closing bracket, in every state. */
  lemma {:induction false} RenderPunctuation(p: TreeNodeProps, isExpanded: bool, isEditing: bool, editValue: string,
                                             numberText: real -> string, m: Mark)
    ensures var nv := Render(p, isExpanded, isEditing, editValue, numberText);
      CountOf(nv.row + nv.footer, m) ==
        match m
        case CommaMark => if p.isLast then 0 else 1
        case _ => if IsContainer(p.value) then 1 else 0
  {
    var h := Header(p, isExpanded);
    var b := Body(p, isExpanded, isEditing, editValue, numberText);
    var f := Footer(p, isExpanded);
    CountOfAppend(h, b, m);
    CountOfAppend(h + b, f, m);
    HeaderUnmarked(p, isExpanded, m);
    BodyCount(p, isExpanded, isEditing, editValue, numberText, m);
    if ChildrenShown(p.value, isExpanded) {
      ClosingCount(p, m);
    }
  }

  /** The rendering as written is the corrected one short of what closes an expanded
      empty container in its own row: its closing bracket and its comma. */
  lemma AsWrittenMissesClosing(p: TreeNodeProps, isExpanded: bool, isEditing: bool, editValue: string,
                               numberText: real -> string)
    ensures var w := RenderAsWritten(p, isExpanded, isEditing, editValue, numberText);
      var nv := Render(p, isExpanded, isEditing, editValue, numberText);
      && w.children == nv.children && w.footer == nv.footer
      && nv.row == w.row + (if IsEmptyContainer(p.value) && isExpanded
                            then [Close(CloseBracket(p.value))] + CommaUnlessLast(p.isLast) else [])
  {
    if IsEmptyContainer(p.value) && isExpanded {
      var h := Header(p, isExpanded);
      var o := [Open(OpenBracket(p.value))];
      var c := [Close(CloseBracket(p.value))] + CommaUnlessLast(p.isLast);
      assert BodyAsWritten(p, isExpanded, isEditing, editValue, numberText) == o;
      assert Body(p, isExpanded, isEditing, editValue, numberText) == o + c;
      assert h + (o + c) == (h + o) + c;
    }
  }

  /** A piece other than a closing bracket or a comma is in the program's row exactly
      when it is in the corrected row. */
  lemma AsWrittenShowsSame(p: TreeNodeProps, isExpanded: bool, isEditing: bool, editValue: string,
                           numberText: real -> string, q: Piece)
    requires !q.Close? && !q.Comma?
    ensures q in RenderAsWritten(p, isExpanded, isEditing, editValue, numberText).row
        <==> q in Render(p, isExpanded, isEditing, editValue, numberText).row
  {
    AsWrittenMissesClosing(p, isExpanded, isEditing, editValue, numberText);
    var c := [Close(CloseBracket(p.value))] + CommaUnlessLast(p.isLast);
    assert q !in c;
  }

  /** The punctuation the program draws: as `RenderPunctuation` states for the corrected
      rendering, except that an expanded empty container shows neither its closing bracket
      nor its comma. */
  lemma RenderAsWrittenPunctuation(p: TreeNodeProps, isExpanded: bool, isEditing: bool, editValue: string,
                                   numberText: real -> string, m: Mark)
    ensures var w := RenderAsWritten(p, isExpanded, isEditing, editValue, numberText);
      var open := IsEmptyContainer(p.value) && isExpanded;
      CountOf(w.row + w.footer, m) ==
        match m
        case CommaMark => if p.isLast || open then 0 else 1
        case CloseMark => if IsContainer(p.value) && !open then 1 else 0
        case OpenMark => if IsContainer(p.value) then 1 else 0
  {
    var w := RenderAsWritten(p, isExpanded, isEditing, editValue, numberText);
    var nv := Render(p, isExpanded, isEditing, editValue, numberText);
    RenderPunctuation(p, isExpanded, isEditing, editValue, numberText, m);
    AsWrittenMissesClosing(p, isExpanded, isEditing, editValue, numberText);
    if IsEmptyContainer(p.value) && isExpanded {
      var c := [Close(CloseBracket(p.value))] + CommaUnlessLast(p.isLast);
      assert w.footer == [] && nv.footer == [];
      assert nv.row + nv.footer == (w.row + w.footer) + c;
      CountOfAppend(w.row + w.footer, c, m);
      ClosingCount(p, m);
    }
  }

  /** Among a container's children, in the corrected rendering exactly those before the
      last draw a trailing comma; as written, a child that is an expanded empty container
      draws none. */
  lemma ChildCommas(p: TreeNodeProps, i: nat, isExpanded: bool, isEditing: bool, editValue: string,
                    numberText: real -> string)
    requires i < |ChildProps(p)|
    ensures var nv := Render(ChildProps(p)[i], isExpanded, isEditing, editValue, numberText);
      CountOf(nv.row + nv.footer, CommaMark) == (if i < |ChildProps(p)| - 1 then 1 else 0)
    ensures var w := RenderAsWritten(ChildProps(p)[i], isExpanded, isEditing, editValue, numberText);
      CountOf(w.row + w.footer, CommaMark)
        == (if i < |ChildProps(p)| - 1 && !(IsEmptyContainer(ChildProps(p)[i].value) && isExpanded) then 1 else 0)
  {
    RenderPunctuation(ChildProps(p)[i], isExpanded, isEditing, editValue, numberText, CommaMark);
    RenderAsWrittenPunctuation(ChildProps(p)[i], isExpanded, isEditing, editValue, numberText, CommaMark);
  }

  /** A node renders children only when it is an expanded non-empty container, and
      then exactly the children derived from its props. */
  lemma RenderChildren(p: TreeNodeProps, isExpanded: bool, isEditing: bool, editValue: string,
                       numberText: real -> string)
    ensures var nv := Render(p, isExpanded, isEditing, editValue, numberText);
      && (nv.children != [] <==> ChildrenShown(p.value, isExpanded))
      && (nv.children != [] ==> nv.children == ChildProps(p))
    ensures var w := RenderAsWritten(p, isExpanded, isEditing, editValue, numberText);
      && (w.children != [] <==> ChildrenShown(p.value, isExpanded))
      && (w.children != [] ==> w.children == ChildProps(p))
  {
  }

  lemma BodyHasNoChevron(p: TreeNodeProps, isExpanded: bool, isEditing: bool, editValue: string,
                         numberText: real -> string)
    ensures Chevron(isExpanded) !in Body(p, isExpanded, isEditing, editValue, numberText)
  {
    var c := Chevron(isExpanded);
    if IsContainer(p.value) {
      var tail :=
        if !isExpanded then Collapsed(p)
        else if IsEmptyContainer(p.value) then [Close(CloseBracket(p.value))] + CommaUnlessLast(p.isLast)
        else [];
      assert Body(p, isExpanded, isEditing, editValue, numberText) == [Open(OpenBracket(p.value))] + tail;
      if !isExpanded {
        var e: seq<Piece> := if IsEmptyContainer(p.value) then [] else [Ellipsis];
        assert tail == e + [Close(CloseBracket(p.value))] + CommaUnlessLast(p.isLast) + [CountLabel(CountText(p.value))];
        assert c !in e && c !in CommaUnlessLast(p.isLast);
      }
    } else {
      var l := LeafPieces(p.value, isEditing, editValue, numberText);
      assert c !in l;
      assert Body(p, isExpanded, isEditing, editValue, numberText) == l + CommaUnlessLast(p.isLast);
    }
  }

  /** The chevron is drawn exactly on non-empty containers, pointing down when expanded. */
  lemma RenderChevron(p: TreeNodeProps, isExpanded: bool, isEditing: bool, editValue: string,
                      numberText: real -> string)
    ensures Chevron(isExpanded) in Render(p, isExpanded, isEditing, editValue, numberText).row
        <==> IsContainer(p.value) && !IsEmptyContainer(p.value)
    ensures Chevron(isExpanded) in RenderAsWritten(p, isExpanded, isEditing, editValue, numberText).row
        <==> IsContainer(p.value) && !IsEmptyContainer(p.value)
  {
    AsWrittenShowsSame(p, isExpanded, isEditing, editValue, numberText, Chevron(isExpanded));
    var h := Header(p, isExpanded);
    var b := Body(p, isExpanded, isEditing, editValue, numberText);
    assert Render(p, isExpanded, isEditing, editValue, numberText).row == h + b;
    BodyHasNoChevron(p, isExpanded, isEditing, editValue, numberText);
    assert Chevron(isExpanded) in h <==> IsContainer(p.value) && !IsEmptyContainer(p.value);
  }

  /** The "n items" / "n keys" count is shown exactly while a container is collapsed. */
  lemma RenderCountLabel(p: TreeNodeProps, isExpanded: bool, isEditing: bool, editValue: string,
                         numberText: real -> string)
    ensures CountLabel(CountText(p.value)) in Render(p, isExpanded, isEditing, editValue, numberText).row
        <==> IsContainer(p.value) && !isExpanded
    ensures CountLabel(CountText(p.value)) in RenderAsWritten(p, isExpanded, isEditing, editValue, numberText).row
        <==> IsContainer(p.value) && !isExpanded
  {
    var lab := CountLabel(CountText(p.value));
    AsWrittenShowsSame(p, isExpanded, isEditing, editValue, numberText, lab);
    var h := Header(p, isExpanded);
    var b := Body(p, isExpanded, isEditing, editValue, numberText);
    assert Render(p, isExpanded, isEditing, editValue, numberText).row == h + b;
    assert lab !in h;
    BodyCountLabel(p, isExpanded, isEditing, editValue, numberText);
  }

  /** After the header, the count label is drawn exactly for a collapsed container. */
  lemma BodyCountLabel(p: TreeNodeProps, isExpanded: bool, isEditing: bool, editValue: string,
                       numberText: real -> string)
    ensures CountLabel(CountText(p.value)) in Body(p, isExpanded, isEditing, editValue, numberText)
        <==> IsContainer(p.value) && !isExpanded
  {
    var lab := CountLabel(CountText(p.value));
    var b := Body(p, isExpanded, isEditing, editValue, numberText);
    if !IsContainer(p.value) {
      var l := LeafPieces(p.value, isEditing, editValue, numberText);
      assert forall x :: x in l ==> !x.CountLabel?;
      assert b == l + CommaUnlessLast(p.isLast);
    } else if !isExpanded {
      assert b[|b| - 1] == lab;
    } else {
      var tail := if IsEmptyContainer(p.value) then [Close(CloseBracket(p.value))] + CommaUnlessLast(p.isLast) else [];
      assert b == [Open(OpenBracket(p.value))] + tail;
      assert lab !in tail;
    }
  }

  /** The root of the document `[]`, forced open, renders `[` and never its `]`. */
  lemma ExpandedEmptyArrayIsNotClosed(numberText: real -> string)
    ensures var nv := RenderAsWritten(TreeNodeProps(Some("root"), JArray([]), true, 0, [], None),
                                      true, false, "", numberText);
      && nv.row + nv.footer == [KeyLabel("root"), Open('[')]
      && CountOf(nv.row + nv.footer, CloseMark) == 0
  {
    var nv := RenderAsWritten(TreeNodeProps(Some("root"), JArray([]), true, 0, [], None), true, false, "", numberText);
    assert nv.row + nv.footer == [KeyLabel("root"), Open('[')];
    assert [KeyLabel("root"), Open('[')][1..] == [Open('[')];
  }

  // ---------------------------------------------------------------------------
  // Per-node state (components/JsonTree.tsx:56-105)

  /** A call of `onUpdate(path, newValue)`. */
  datatype Update = Update(path: Path, newValue: JsonValue)

  class TreeNode {
    const host: Host
    const props: TreeNodeProps
    var isExpanded: bool
    var isEditing: bool
    var editValue: string

    /** Only leaves are ever edited. */
    ghost predicate Valid()
      reads this
    {
      isEditing ==> !IsContainer(props.value)
    }

    /** Mounting: `expanded` defaults to false, and the effect on `depth` forces the root open. */
    constructor (host: Host, props: TreeNodeProps)
      ensures this.host == host && this.props == props
      ensures isExpanded == (props.depth == 0 || props.expanded == Some(true))
      ensures !isEditing && editValue == ""
      ensures Valid()
    {
      this.host := host;
      this.props := props;
      isExpanded := props.expanded.GetOr(false);
      isEditing := false;
      editValue := "";
      new;
      if props.depth == 0 {
        isExpanded := true;
      }
    }

    /** What the node shows now, as the component renders it. */
    function View(): NodeView
      reads this
    {
      RenderAsWritten(props, isExpanded, isEditing, editValue, host.numberText)
    }

    /** `handleToggle`. */
    method Toggle()
      requires Valid()
      modifies this`isExpanded
      ensures Valid()
      ensures isExpanded == !old(isExpanded)
    {
      isExpanded := !isExpanded;
    }

    /** `handleStartEdit`: a container is left alone; a leaf enters edit mode with its
        value's text in the buffer. */
    method StartEdit()
      requires Valid()
      modifies this`isEditing, this`editValue
      ensures Valid()
      ensures IsContainer(props.value) ==> isEditing == old(isEditing) && editValue == old(editValue)
      ensures !IsContainer(props.value) ==> isEditing && editValue == ValueText(props.value, host.numberText)
    {
      if IsContainer(props.value) {
        return;
      }
      isEditing := true;
      editValue := ValueText(props.value, host.numberText);
    }

    /** A click on the row: a container toggles, a leaf starts editing. */
    method Click()
      requires Valid()
      modifies this
      ensures Valid()
      ensures IsContainer(props.value) ==>
        isExpanded == !old(isExpanded) && isEditing == old(isEditing) && editValue == old(editValue)
      ensures !IsContainer(props.value) ==>
        isExpanded == old(isExpanded) && isEditing && editValue == ValueText(props.value, host.numberText)
    {
      if IsContainer(props.value) {
        Toggle();
      } else {
        StartEdit();
      }
    }

    /** Typing in the edit box replaces the buffer. */
    method Change(text: string)
      requires Valid()
      modifies this`editValue
      ensures Valid()
      ensures editValue == text
    {
      editValue := text;
    }

    /** `handleSaveEdit`, run on Enter and on blur: leaves edit mode, keeps the buffer,
        and hands back exactly one update for the node's own path, a leaf's path when the
        node was editing. */
    method SaveEdit() returns (update: Update)
      requires Valid()
      modifies this`isEditing
      ensures Valid()
      ensures old(isEditing) ==> !IsContainer(props.value)
      ensures !isEditing
      ensures update.path == props.path
      ensures update.newValue == CoercedValue(props.value, editValue, host.toNumber)
    {
      isEditing := false;
      var newValue := JString(editValue);
      var tag := GetDataType(props.value);
      if tag == "number" {
        var n := host.toNumber(editValue);
        if n.Some? {
          newValue := JNumber(n.value);
        }
      } else if tag == "boolean" {
        if editValue == "true" {
          newValue := JBool(true);
        }
        if editValue == "false" {
          newValue := JBool(false);
        }
      } else if tag == "null" {
        if editValue == "null" {
          newValue := JNull;
        }
      }
      update := Update(props.path, newValue);
    }

    /** `handleCancelEdit`: leaves edit mode and empties the buffer; no update. */
    method CancelEdit()
      requires Valid()
      modifies this`isEditing, this`editValue
      ensures Valid()
      ensures !isEditing && editValue == ""
    {
      isEditing := false;
      editValue := "";
    }

    /** `handleKeyDown` of the edit box, the same for every kind of leaf: Enter without
        Shift saves, Escape cancels, any other key (Shift+Enter among them) does neither. */
    method KeyDown(key: string, shift: bool) returns (update: Option<Update>)
      requires Valid()
      modifies this`isEditing, this`editValue
      ensures Valid()
      ensures old(isEditing) && update.Some? ==> !IsContainer(props.value)
      ensures key == "Enter" && !shift ==>
        && update == Some(Update(props.path, CoercedValue(props.value, old(editValue), host.toNumber)))
        && !isEditing && editValue == old(editValue)
      ensures key == "Escape" ==> update == None && !isEditing && editValue == ""
      ensures !(key == "Enter" && !shift) && key != "Escape" ==>
        update == None && isEditing == old(isEditing) && editValue == old(editValue)
    {
      update := None;
      if key == "Enter" && !shift {
        var u := SaveEdit();
        update := Some(u);
      }
      if key == "Escape" {
        CancelEdit();
      }
    }
  }
}
