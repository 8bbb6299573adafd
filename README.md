# Nexus JSON Editor — a verified model of its core

Nexus JSON Editor is a browser tool for JSON documents. It has two synchronised panes:
a text pane and an interactive tree. This project models the logic underneath both.

The editor shell (`App.tsx`) keeps the document text as the single source of truth.
- Every change of the text re-derives either the parsed value or the parse error.
- Format, minify and clear rewrite the text only under the guards the handlers test.
- An edit made in the tree is written into a copy of the parsed value at a path of
  string segments. The copy is then serialised again with the active indentation.
- The AI repair and AI generate actions have their own guards. They also differ in when
  they write the service's answer.

Each tree node (`components/JsonTree.tsx`) does four things:
- tags its value's type;
- derives its children's props: path, key label, last-sibling flag and depth;
- renders brackets, commas, chevrons and count labels;
- runs a small state machine of expanding, editing, saving and cancelling. Saving
  coerces the edited text back to the node's original type.

## Modules

| file | module | contents |
|---|---|---|
| `wrappers.dfy` | `Wrappers` | `Option`, `Result` |
| `types.dfy` | `Types` | `JsonValue`, `IndentMode`, `TreeNodeProps` |
| `js_runtime.dfy` | `JsRuntime` | the platform calls, as a `Host` of functions; what the parser yields (`WellFormed`); the predicate `Faithful` |
| `paths.dfy` | `Paths` | path lookup `At`, the functional write `SetAt`, and the looping `WriteAtPath` |
| `json_tree.dfy` | `JsonTree` | one tree node: tag, coercion, children, rendering, and the `TreeNode` class |
| `app.dfy` | `App` | the `Editor` class: parse effect, tree update, format, minify, clear, AI actions, status badge |

`JsRuntime` also defines the smaller built-ins in full:
- truthiness;
- `String(index)` and the array-index reading of a property key;
- `String.prototype.trim`;
- the indentation gap of `JSON.stringify`.

## Platform calls

The following are function-typed fields of a `Host` value:
- `JSON.parse`, with an error carrying the exception's message;
- `JSON.stringify` with its `space` argument;
- `Number(text)`, with `None` standing for NaN;
- `String(number)`;
- `isDouble`, which tells which reals a JavaScript number holds exactly: the finite
  binary64 values.

The predicate `JsRuntime.Faithful(host)` states what the model needs of them. Take
`isDouble` to be the finite binary64 values. A browser then meets every clause, with
one exception: a number literal beyond the double range, which "## Left out" describes.
The clauses:
- text that `stringify` produced parses back to the value it came from. This holds for
  every well-formed value and every gap made of JSON whitespace, which covers every
  gap the editor passes. Well-formed means three things:
  - each object has distinct keys, listed in the order the object enumerates them:
    array-index keys first, ascending, then the others;
  - arrays are shorter than 2^32;
  - every number is a double;
- the parser yields only well-formed values, and it rejects the empty text;
- `Number` yields only doubles;
- `Number` reads back what `String` wrote for a double;
- every integer of magnitude at most 2^53 is a double.

Contracts that need these facts take `Faithful(host)` as a hypothesis. It is never
assumed.

## Behaviour worth noting

- When coercion fails, a saved edit is written as the raw text, as a string value. So
  `12x` typed into a number node becomes the string `"12x"`
  (components/JsonTree.tsx:84-98).
- The Enter/Escape key rules are the same for every kind of leaf. Shift+Enter never saves,
  whatever the leaf's type (components/JsonTree.tsx:19-29).
- The guards test truthiness. So the valid documents `0`, `false` and `""` count as "no
  value", the same as invalid text (App.tsx:60, 79, 85, 269).

## Model

| member | source | states |
|---|---|---|
| `App.Editor.constructor` | App.tsx:20-56 | The editor opens on the initial document serialised with two spaces, in mode '2', with an empty prompt. On a faithful platform the parsed value is that document and there is no error. |
| `App.Editor.Reparse` | App.tsx:47-56 | After parsing, the value and error are those of the current text: the value and no error on success, null and the message on failure; the text is untouched. |
| `App.Editor.SetText` | App.tsx:47-56 | Setting the text re-establishes the parse invariant for the new text. |
| `App.Editor.TreeUpdate` | App.tsx:59-75 | With a falsy value, or for the empty path, the text is unchanged. Otherwise the text is the serialisation, in the current mode, of the old value with `newValue` written at `path`. On a faithful platform, if the new value is well-formed and its numbers are doubles, then the new parsed value is that written value, the node at `path` is `newValue`, and there is no error. |
| `Paths.WriteAtPath` | App.tsx:63-70 | The loop that walks to the parent and the assignment at the last segment give exactly `SetAt(root, path, x)`. |
| `Paths.Rebuild` | App.tsx:70 | The assignment through the aliased `current` shows at the root: rebuilding each node the walk passed around its new child gives exactly `SetAt` from the first node. |
| `Paths.SetAtGet` | App.tsx:66-70 | After the write, the node at `path` is the new value. |
| `Paths.SetAtElsewhere` | App.tsx:66-70 | Every path that is neither a prefix nor an extension of `path` addresses the same node as before. |
| `Paths.SetAtAncestor` | App.tsx:66-70 | Each ancestor on the route is its old self with the write applied below it, and it keeps its shape: the same variant and the same length or the same keys. |
| `Paths.SetAtWellFormed` | App.tsx:63-74 | Writing a well-formed value into a well-formed document gives a well-formed document. Writing a value of doubles into a document of doubles gives a document of doubles. So the result serialises and parses back. |
| `Paths.SetChildGet` | App.tsx:70 | Assigning one property or element makes it read back as the new value and keeps the container's shape. |
| `Paths.SetChildOther` | App.tsx:70 | Assigning one property leaves every other property as it was. |
| `Paths.AtAppend` | App.tsx:66-69 | Walking `p + q` is walking `p`, then `q` from where `p` ended. |
| `Paths.AtPrefix` | App.tsx:67-69 | If a path resolves, every prefix resolves, and the rest of the path resolves from there. |
| `Paths.SetChildWellFormed` | App.tsx:70 | Assigning a well-formed value to an existing property or element of a well-formed container keeps it well-formed. Assigning a value of doubles into a container of doubles keeps it a container of doubles. |
| `Paths.AtWellFormed` | App.tsx:67-68 | Every node reached from a well-formed document is well-formed, and every node reached from a document of doubles holds only doubles. |
| `Paths.Child` | App.tsx:68 | `current[seg]` finds nothing on a leaf. On an array it finds an element exactly when the key reads as an index below the length. On an object, when it finds nothing no member has the key, and when it finds a value that value is a member under the key. |
| `Paths.At` | App.tsx:66-69 | The empty path addresses the value itself, and a non-empty path addresses a strictly smaller part of it. |
| `Paths.SetChild` | App.tsx:70 | Assigning one property or element keeps the container's variant, length and keys. |
| `Paths.SetAt` | App.tsx:66-70 | Writing at a path keeps the root's variant, length and keys. |
| `Paths.FindKey` | App.tsx:66-70 | Property lookup finds the first member with the key, or reports that none has it. |
| `App.Editor.Format` | App.tsx:77-82 | The mode is always recorded. The text is unchanged when the value is falsy, and otherwise becomes the value serialised with the mode's indentation. With a faithful platform the value and error are unchanged. |
| `App.FormatTwice` | App.tsx:77-82 | Formatting twice with one mode leaves the text that formatting once leaves. |
| `App.Editor.Minify` | App.tsx:84-87 | The text is unchanged when the value is falsy, and otherwise becomes the value serialised with no `space` argument. With a faithful platform the value and error are unchanged. |
| `App.Editor.Clear` | App.tsx:215 | The text becomes empty, and with a faithful platform this is a parse error with no value. |
| `App.Editor.AiFix` | App.tsx:94-109 | The service is asked exactly when there is a non-empty error message. A failed request leaves the text. An answer that parses ends up re-serialised in the current mode. An answer that does not parse is left in the text as it came. |
| `App.Editor.AiGenerate` | App.tsx:111-126 | The service is asked exactly when the trimmed prompt is non-empty. Only an answer that parses replaces the text, re-serialised in the current mode, and empties the prompt. Any failure leaves the text and the prompt as they were. |
| `App.Editor.SetPrompt` | App.tsx:312-313 | Typing in the prompt box replaces the prompt. |
| `App.IndentSpace` | App.tsx:73-81 | Mode '2' indents by two spaces, '4' by four and 'tab' by one tab. None of them is the empty gap of minify, and each is JSON whitespace, so the text still parses. |
| `App.IndentModesDistinct` | App.tsx:73-80 | Different modes give different indentation. |
| `App.ParsedValue` | App.tsx:49-54 | After a successful parse the value is the parsed value. After a failed parse the value is falsy, so every guard that tests it blocks. |
| `App.ParseError` | App.tsx:49-54 | There is no error exactly when parsing succeeded, and otherwise the error is the exception's message. |
| `App.InitialDocumentParses` | App.tsx:20-33 | On a faithful platform the initial document parses back from its serialisation with any whitespace gap, so in every mode. |
| `App.RootNode` | App.tsx:269-277 | The root node's empty path addresses the whole value. The root is last, so it renders no trailing comma, both as the program draws it and in the corrected rendering. |
| `App.ChildPathsResolve` | components/JsonTree.tsx:204-212 | In a well-formed document, if a node's path addresses its value, then every child's path addresses the child's value. Array indices written as text are read back as the same index. |
| `App.TreePane` | App.tsx:269-283 | The tree is shown exactly when the parsed value is truthy. It then shows a root node for the whole value, at depth 0 with the empty path. |
| `App.FalsyRootShowsPlaceholder` | App.tsx:269-283 | Text that fails to parse shows the placeholder. So do the documents `0`, `false`, `""` and `null`, which parse without error. |
| `App.SavedEditLands` | App.tsx:59-75 | On a faithful platform, a value saved at a leaf of a parsed document gives text that parses back to the document with that value at the leaf's path. This holds for any whitespace gap. |
| `App.LeafIsEditTarget` | components/JsonTree.tsx:99 | The path a leaf hands to `onUpdate` satisfies the tree update's precondition. |
| `App.FalsyDocumentBadgedInvalid` | App.tsx:262 | The text `0` parses without error, yet the badge as written reads "Invalid JSON". |
| `App.BadgeAsWritten` | App.tsx:262 | "Valid JSON" is shown only for a truthy value, and never while there is an error message. A truthy value with no error always shows "Valid JSON". |
| `App.Editor.Status` | App.tsx:262 | The editor shows "Valid JSON" exactly when the text parses to a truthy value. So text that fails to parse is never called valid, and neither is a document that parses to `0`, `false`, `""` or `null`. |
| `App.StatusBadgeReportsParse` | App.tsx:262 | The corrected badge reads "Valid JSON" exactly when the text parsed. |
| `JsRuntime.Truthy` | App.tsx:60-87 | Every array and object is truthy, even an empty one, so an empty document `[]` or `{}` passes every guard. |
| `JsRuntime.Trim` | App.tsx:112 | The trimmed prompt is no longer than the prompt, and it neither starts nor ends with whitespace. |
| `JsRuntime.FalsyValues` | App.tsx:60-87 | Exactly four parsed values are falsy: null, false, 0 and the empty string. Every container is truthy, even an empty one. |
| `JsRuntime.BlankIffAllWhitespace` | App.tsx:112 | A prompt trims to empty exactly when every character is JavaScript whitespace. |
| `JsRuntime.TrimStart` | App.tsx:112 | Removing leading whitespace gives the longest suffix that does not start with whitespace. |
| `JsRuntime.TrimEnd` | App.tsx:112 | Removing trailing whitespace gives the longest prefix that does not end with whitespace. |
| `JsRuntime.Gap` | App.tsx:73-86 | The indentation gap is at most ten characters, and it is empty without a `space` argument. |
| `JsRuntime.NatToString` | components/JsonTree.tsx:212 | `index.toString()` is a non-empty string of decimal digits with no leading zero. |
| `JsRuntime.IndexRoundTrip` | components/JsonTree.tsx:212 | The key an array child is given reads back as that child's index. |
| `JsRuntime.ParseIndex` | App.tsx:68-70 | A key that reads as an array index is below 2^32 - 1 and is the canonical numeral of that index, so two different keys never address the same element. |
| `JsRuntime.DecimalValueOfNatToString` | components/JsonTree.tsx:212 | The digits of `index.toString()` denote the index. |
| `JsRuntime.NatToStringOfDecimal` | components/JsonTree.tsx:212 | A canonical numeral is the text of the number it denotes. |
| `JsonTree.GetDataType` | components/JsonTree.tsx:5-62 | The tag is "null" exactly for null and "array" exactly for arrays. A value is a container exactly when its tag is "object" or "array". |
| `JsonTree.DataTypeDeterminesVariant` | components/JsonTree.tsx:5-9 | Two values share a tag exactly when they are the same variant. |
| `JsonTree.CoercedValue` | components/JsonTree.tsx:84-98 | A save yields a number only on a number node whose text `Number` accepts, and then that number. It yields a boolean only on a boolean node with the exact text "true" or "false". It yields null only on a null node with the exact text "null". Otherwise it yields the raw text as a string. |
| `JsonTree.SaveUnchangedKeepsValue` | components/JsonTree.tsx:79-98 | On a faithful platform, saving the text an edit started from leaves a leaf unchanged, for every leaf whose number is a double. |
| `JsonTree.TreeNode.SaveEdit` | components/JsonTree.tsx:82-100 | Saving leaves edit mode and produces exactly one update, for the node's own path, whose value is the coerced text. A node that was editing is a leaf. |
| `JsonTree.TreeNode.CancelEdit` | components/JsonTree.tsx:102-105 | Cancelling leaves edit mode, empties the buffer and produces no update. |
| `JsonTree.TreeNode.StartEdit` | components/JsonTree.tsx:75-80 | A container is left as it was. A leaf enters edit mode with `String(value)` in the buffer. |
| `JsonTree.TreeNode.Toggle` | components/JsonTree.tsx:70-73 | Toggling flips the expanded flag. |
| `JsonTree.TreeNode.Click` | components/JsonTree.tsx:153 | A click on a container's row toggles it and does not edit. A click on a leaf's row starts an edit and leaves the expanded flag. |
| `JsonTree.TreeNode.Change` | components/JsonTree.tsx:45 | Typing replaces the edit buffer. |
| `JsonTree.TreeNode.KeyDown` | components/JsonTree.tsx:19-29 | Enter without Shift saves the buffer as one update. Escape cancels with no update. Every other key, Shift+Enter included, changes no state and produces no update. |
| `JsonTree.TreeNode.constructor` | components/JsonTree.tsx:56-68 | A node starts expanded exactly when it is the root or its `expanded` prop is true, and starts not editing with an empty buffer. |
| `JsonTree.ChildProps` | components/JsonTree.tsx:204-214 | A container has one child per entry, and a leaf has none. For child i: the path is the parent path plus the index text or the key; the key label is absent for array children; the child is last exactly when i = n-1; the depth is one more than the parent's; no `expanded` prop is given. |
| `JsonTree.ChildPathsDistinct` | components/JsonTree.tsx:204-212 | In a well-formed value no two children share a path. |
| `JsonTree.RenderPunctuation` | components/JsonTree.tsx:171-225 | Corrected rendering, in every state: a node shows one trailing comma exactly when it is not last, and a container shows exactly one opening and one closing bracket. |
| `JsonTree.ChildCommas` | components/JsonTree.tsx:184-221 | In the corrected rendering, exactly the children before the last draw a trailing comma. As the program draws them, the children before the last draw one unless they are an expanded empty container, which draws none. |
| `JsonTree.AsWrittenMissesClosing` | components/JsonTree.tsx:171-225 | The program's rendering is the corrected one without the closing bracket and comma of an expanded empty container, and the two renderings have the same children and closing line. |
| `JsonTree.RenderAsWrittenPunctuation` | components/JsonTree.tsx:171-225 | As the program draws it, a node shows one comma unless it is last, and a container one opening and one closing bracket. The exception is an expanded empty container, which shows its opening bracket and neither of the others. |
| `JsonTree.RenderChildren` | components/JsonTree.tsx:202-214 | Children are rendered exactly for an expanded non-empty container, and they are the derived child props. This holds both as the program draws them and in the corrected rendering. |
| `JsonTree.RenderChevron` | components/JsonTree.tsx:107-159 | The chevron appears exactly on non-empty containers, and its direction follows the expanded flag. This holds both as the program draws it and in the corrected rendering. |
| `JsonTree.RenderCountLabel` | components/JsonTree.tsx:181-189 | The "n items" or "n keys" label appears exactly while a container is collapsed. This holds both as the program draws it and in the corrected rendering. |
| `JsonTree.RenderAsWritten` | components/JsonTree.tsx:148-227 | The node as the component renders it. It agrees with the corrected rendering everywhere except on an expanded empty container. |
| `JsonTree.LeafPieces` | components/JsonTree.tsx:109-146 | A leaf shows the edit box exactly while editing, and the quotes around it exactly when a string is being edited. |
| `JsonTree.CountText` | components/JsonTree.tsx:187 | The count label is the decimal numeral of the number of entries, followed by " items" for an array or " keys" for an object. |
| `JsonTree.ValueText` | components/JsonTree.tsx:79 | For a string, boolean or null leaf, the text an edit starts from coerces back to the same value, whatever `Number` does. |
| `JsonTree.CoercedValueStorable` | components/JsonTree.tsx:82-99 | On a faithful platform every saved value is a well-formed leaf whose number, if any, is a double. |
| `JsonTree.ExpandedEmptyArrayIsNotClosed` | components/JsonTree.tsx:171-225 | As written, the root document `[]`, which is forced open, renders its key and `[` and no closing bracket. |

## Left out

- The AI services (services/geminiService.ts) are network calls. Their answers are inputs to
  `App.Editor.AiFix` and `App.Editor.AiGenerate`, with `None` for a failed request. The
  services' `|| "{}"` fallback for an empty answer belongs to the service and is not part of this model.
- The loading flag, the `disabled` state of the buttons, the modal's visibility, the alert
  dialogs and async interleaving of answers are not modelled; they are presentation and
  framework scheduling.
- The clipboard copy, the wrap toggle, the mobile tab switcher, the text editor component
  (components/CodeEditor.tsx), styling and icons are not modelled; they are browser I/O or
  presentation.
- The internals of `JSON.parse`, `JSON.stringify`, `Number()` and `String(number)` are not
  modelled: they are platform calls, given as the fields of `Host`. Floating-point
  precision is not modelled; numbers are `real`.
- `JsonTree.CoercedValue`: `Number` of "Infinity" or "1e999" is an infinity, not NaN.
  The program writes that infinity, and `JSON.stringify` turns it into `null`, so such an
  edit makes the leaf null. The model's numbers are finite reals, and its `Number`
  returns only doubles. So in the model such text counts as NaN and is written as a
  string.
- `JsRuntime.Gap`: `Faithful` ties the gap to the output of `stringify` only through
  whether the text parses back, for gaps of JSON whitespace. The layout of that text is
  not modelled. The gap lemmas describe the `space` argument each mode passes.
- Objects keep their members in the order the object enumerates them, and well-formed
  values have array-index keys first. So `Object.entries` and the model agree on the
  order of every parsed object. Duplicate keys in the text are not modelled: a faithful
  parser yields distinct keys.
- Number literals beyond the double range are not modelled. `JSON.parse("[1e400]")`
  yields an infinity, which a `real` cannot hold. The program shows that value, and
  Format or Minify then writes it as `null`. The model's parser yields only finite
  doubles, so `App.Editor.Format` and `App.Editor.Minify` keep such a value only in the
  model.
- `App.Editor.TreeUpdate`: requires the path to address an existing node. In JavaScript a
  missing segment would create a key or throw. The tree only ever emits existing paths, as
  `App.ChildPathsResolve` and `App.LeafIsEditTarget` show.
- `App.Editor.TreeUpdate`: `structuredClone` is not modelled separately. Values are
  immutable, so the old parsed value cannot be changed by the write. `Paths.WriteAtPath`
  rebuilds each ancestor on the way back up, which stands for the in-place assignment
  through the aliased `current` reference.
- `App.Editor.TreeUpdate`: the empty path is modelled as a failed edit that changes nothing.
  The tree sends the empty path when the root is a leaf, and the assignment then throws.
- A React state update whose value equals the current state does not re-run the effect.
  This is not modelled separately, because the re-parse gives the same value and error.
- Blur saving an edit when a node unmounts is not modelled; it is framework timing.
- `JsonTree.TreeNode.KeyDown`: the newline that Shift+Enter inserts is the text box's
  default behaviour. It arrives as an ordinary `JsonTree.TreeNode.Change`.
- The `EditorSettings` interface (types.ts:9-13) is declared but not used by the core,
  so it is not modelled.

## Findings

| source | as written | input that shows it | evidently intended | confidence | as-written member | corrected member |
|---|---|---|---|---|---|---|
| components/JsonTree.tsx:171-225 | The closing bracket and comma of a container are drawn only when it is collapsed, or after its children when it is expanded and non-empty. An expanded empty container draws neither. | The document `[]` or `{}` (its root is forced open), or any empty container the user expands | Every container closes its bracket, and every node but the last has a trailing comma | high; not executed | `JsonTree.ExpandedEmptyArrayIsNotClosed` | `JsonTree.RenderPunctuation` |
| App.tsx:262 | The status badge reads "Valid JSON" only when the parsed value is truthy and there is no error. | The text `0`, `false`, `""` or `null`, which parse without error | The badge reports whether the text parsed | medium; not executed | `App.FalsyDocumentBadgedInvalid` | `App.StatusBadgeReportsParse` |
