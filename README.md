# Amazon States Language editor core, modelled in Dafny

This project models three parts of a browser editor for AWS Step Functions state
machines:

- **The structural validator** of `src/validation/asl.ts`. `validateAsl` takes a
  decoded JSON document and reports a list of issues. Each issue has a severity,
  a message, a dotted path such as `<root>.States.Hello.Choices[0].Next`, and
  optionally the name of the state it concerns.
  - It checks `StartAt` and `States`, the `Next`/`End` rules, and the Choice,
    Parallel and Map sections.
  - It recurses into every Parallel branch and into the Map `Iterator`.
  - It resolves `Next`, `Default` and `Choices[i].Next` against the names the
    scope declares.
  - Finally it runs a stack-and-visited-set traversal from `StartAt` and warns
    about every declared state the traversal does not reach.
- **The marker mapper** of `src/validation/monacoMarkers.ts`. It turns issues
  into editor markers, each with a line/column range, a message and a severity.
  - A marker's range comes from the issue's path, looked up in the JSON tree.
  - If that fails, the range comes from the first quoted occurrence of the
    state name.
  - If that fails too, the range is the document start.
  - A parse error overrides everything with one error marker.
- **The editor store** of `src/store/useStore.ts`. It holds the initial
  definition and the view settings, merges settings patches, replaces the
  definition, and inserts a per-type state template with `addState`.

## Layout

| file | module | contents |
|---|---|---|
| `json.dfy` | `JsonModel` | decoded JSON values; objects are ordered `(key, value)` lists; property read, property assignment and JavaScript truthiness |
| `text.dfy` | `Text` | decimal rendering of indices and reading them back; the whitespace set of `String.prototype.trim` |
| `asl.dfy` | `Asl` | issue kinds, paths, the edges of a state, reachability as walks, and the issues of a run as functions |
| `asl_validator.dfy` | `AslValidator` | the validator's loops as methods, each proved equal to the function of `Asl` it computes |
| `asl_properties.dfy` | `AslProperties` | the rules the validator promises, proved about those functions |
| `markers.dfy` | `Markers` | the position scanner, ranges, the path tokenizer, and marker creation with its fallback |
| `store.dfy` | `Store` | the `EditorStore` class, the templates, and their validation outcome |

Every issue kind is a constructor of `Asl.IssueKind`. The kind fixes the
severity (`Asl.SeverityOf`) and the message text (`Asl.Message`).

## Model

| member | source | states |
|---|---|---|
| JsonModel.Keys | src/validation/asl.ts:109 | the declared names of an object, one per member, in declaration order |
| JsonModel.Get | src/validation/asl.ts:83-84 | a property read only returns a value that the object actually holds under that key |
| JsonModel.GetDefined | src/validation/asl.ts:109 | a read finds a value exactly when the key is among the declared names |
| JsonModel.GetFirst | src/store/useStore.ts:58-61 | the first member of a key is what a read of that key returns |
| JsonModel.GetMissing | src/store/useStore.ts:87-93 | a key carried by no member reads as absent |
| JsonModel.Put | src/store/useStore.ts:127 | assignment keeps the key order and appends a new key at the end |
| JsonModel.PutGet | src/store/useStore.ts:52-54 | after assignment the key reads as the new value and every other key reads as before |
| Text.DigitsValueOfNatToString | src/validation/monacoMarkers.ts:74 | reading back a rendered index with `Number` gives the index |
| Text.NatToStringInjective | src/validation/asl.ts:209 | distinct indices render to distinct path segments |
| AslProperties.JoinPathExtends | src/validation/asl.ts:23-24 | `joinPath` extends its base, by at least the segment's length |
| AslProperties.JoinPathInjective | src/validation/asl.ts:23-24 | a non-empty base is determined by the joined path |
| AslProperties.IndexPathInjective | src/validation/asl.ts:209 | `base[i]` determines `i` |
| AslValidator.PushChoiceTargets | src/validation/asl.ts:44-46 | the loop appends, in order, the `Next` of every object rule that has a string `Next` |
| AslValidator.PushBranchTargets | src/validation/asl.ts:55-61 | the loop appends, in order, the `StartAt` of every object branch with a string `StartAt` and an object `States` |
| AslValidator.PushChoiceBlock | src/validation/asl.ts:41-50 | a Choice's edges are its rule targets followed by its string `Default` |
| AslValidator.PushIteratorTarget | src/validation/asl.ts:65-70 | a Map's edge is the `StartAt` of an object `Iterator` when it is a string |
| AslValidator.TransitionsForState | src/validation/asl.ts:34-73 | the method returns the edges of the state in the order the source pushes them |
| AslProperties.TransitionsMatchEdges | src/validation/asl.ts:34-73 | a name is among the transitions exactly when the state has that name as one of its edges: `Next`, `Choices[i].Next` or `Default` of a Choice, an eligible branch `StartAt` of a Parallel, or `Iterator.StartAt` of a Map |
| AslProperties.ChoiceTargetsMembers | src/validation/asl.ts:44-46 | a name is collected from the rules exactly when some rule is an object whose `Next` is that name |
| AslProperties.BranchTargetsMembers | src/validation/asl.ts:55-61 | a name is collected from the branches exactly when some branch is an object with that `StartAt` and an object `States` |
| AslValidator.PushUnvisited | src/validation/asl.ts:374-376 | the stack is only extended, with declared transition targets, and every declared target ends up visited or pending |
| AslValidator.Pop | src/validation/asl.ts:365-376 | one loop iteration keeps the traversal invariant and shrinks the stack or the set of unvisited names |
| AslValidator.Visit | src/validation/asl.ts:368-376 | visiting a popped unseen name adds exactly that name to the visited set and keeps the invariant |
| AslValidator.ReachableFrom | src/validation/asl.ts:360-377 | the loop terminates, and a declared name ends up visited exactly when a walk along the edges leads to it from `StartAt` and it is not empty |
| AslValidator.ClosedSetContainsReached | src/validation/asl.ts:364-377 | a visited set that holds `StartAt` and is closed under steps holds every reachable name |
| AslValidator.StepExtendsWalk | src/validation/asl.ts:373-376 | a name reached by a walk, followed by one edge, gives a reached name |
| AslValidator.CheckTransitions | src/validation/asl.ts:154-193 | the `Next`/`End` checks append exactly the transition issues of the state |
| AslProperties.TransitionRules | src/validation/asl.ts:154-193 | at a typed state's own path: `Next` with `End: true` is an error, for every type; a non-terminal, non-Choice state with neither is an error; a Succeed/Fail state with a string `Next` or a boolean `End` gets the warning; nothing else is reported there |
| AslValidator.CheckChoiceItems | src/validation/asl.ts:208-233 | the rule loop appends the shape issues of every rule, in order |
| AslValidator.CheckChoiceShape | src/validation/asl.ts:195-259 | the Choice section appends the `Choices`, `End` and `Next` issues |
| AslProperties.ChoiceShapeRules | src/validation/asl.ts:195-259 | a Choice gets the `.Choices` error exactly when `Choices` is not a non-empty array, the `.End` error exactly when `End` is a boolean, and the `.Next` error exactly when `Next` is a string |
| AslProperties.ChoiceItemRules | src/validation/asl.ts:208-233 | rule i gets an error at `Choices[i]` exactly when it is not an object, and one at `Choices[i].Next` exactly when it is an object without a string `Next` |
| AslValidator.CheckBranches | src/validation/asl.ts:274-293 | every object branch is validated as a scope at `Branches[i]`, and every other branch gets one error there |
| AslValidator.CheckParallel | src/validation/asl.ts:261-295 | the Parallel section appends the `Branches` issues, nested scopes included |
| AslValidator.CheckMap | src/validation/asl.ts:297-316 | the Map section appends the `Iterator` error or the nested scope's issues |
| AslProperties.ParallelPaths | src/validation/asl.ts:274-293 | every issue of a Parallel section lies under `<statePath>.Branches` |
| AslProperties.BranchesPaths | src/validation/asl.ts:274-293 | branch issues lie under the branches' path |
| AslProperties.BranchesEachUnder | src/validation/asl.ts:274-293 | each issue of the first n branches lies under `Branches[i]` for some branch i < n |
| AslProperties.BranchesContainBranch | src/validation/asl.ts:274-293 | every issue that branch i reports (its nested scope's issues, or the not-an-object error at `Branches[i]`) is among the branches' issues |
| AslProperties.ParallelBranchesRule | src/validation/asl.ts:262-293 | a missing, non-array or empty `Branches` gives exactly the one error at `.Branches`; otherwise each issue lies under some `Branches[i]` |
| AslProperties.ParallelBranchReported | src/validation/asl.ts:274-293 | every branch of a Parallel is reported in full: the issues of an object branch at `Branches[i]`, or the not-an-object error there |
| AslProperties.MapPaths | src/validation/asl.ts:309-314 | every issue of a Map section lies under `<statePath>.Iterator` |
| AslValidator.CheckChoiceReferences | src/validation/asl.ts:342-357 | the reference loop appends one error per rule whose string `Next` is undeclared |
| AslValidator.CheckReferences | src/validation/asl.ts:318-357 | the reference checks append the `Next`, `Default` and `Choices[i].Next` errors |
| AslProperties.ReferenceKinds | src/validation/asl.ts:318-357 | reference checks report only missing-target errors |
| AslProperties.NextReferenceRule | src/validation/asl.ts:248-258 | the issues at `<statePath>.Next` are the Choice's "does not support `Next`" error, then one missing-target error when the string `Next` is undeclared (src/validation/asl.ts:318-328) |
| AslProperties.DanglingChoiceNext | src/validation/asl.ts:318-328 | a Choice with an undeclared string `Next` gets exactly two errors at `.Next` |
| AslProperties.DefaultReferenceRule | src/validation/asl.ts:330-340 | a Choice gets the `.Default` error exactly when its `Default` is a string naming no declared state |
| AslProperties.ChoiceNextReferenceRule | src/validation/asl.ts:342-357 | the `Choices[i].Next` error appears exactly when rule i is an object whose string `Next` is undeclared |
| AslProperties.DefaultAtRule | src/validation/asl.ts:330-340 | the issues at `<statePath>.Default` are exactly one missing-target error when the state is a Choice whose string `Default` is undeclared, and none otherwise, whatever the state's type and other members |
| AslProperties.ChoiceEntryNextRule | src/validation/asl.ts:208-233 | the issues at `<statePath>.Choices[i].Next` are exactly the missing-`Next` error when entry i of a Choice is an object without a string `Next`, or the missing-target error (src/validation/asl.ts:342-357) when its string `Next` is undeclared, and none otherwise; there is never more than one |
| AslProperties.ChoiceItemsAt | src/validation/asl.ts:208-233 | of the entry shape checks, only entry i's reports at `Choices[i].Next`, and only when entry i is an object |
| AslProperties.ChoiceReferencesAt | src/validation/asl.ts:342-357 | of the entry reference checks, only entry i's reports at `Choices[i].Next` |
| AslValidator.ValidateTypedState | src/validation/asl.ts:154-357 | a typed state gets its transition, Choice, Parallel, Map and reference issues, in that order |
| AslValidator.ValidateState | src/validation/asl.ts:123-357 | the loop body appends exactly the issues of one state |
| AslProperties.UntypedStateSingleIssue | src/validation/asl.ts:125-152 | a non-object state, or one without a non-blank string `Type`, gets exactly one error and no later check |
| AslProperties.StatePaths | src/validation/asl.ts:123 | every issue of a state lies under that state's path |
| AslValidator.ValidateEntries | src/validation/asl.ts:122-358 | the state loop appends every state's issues in declaration order |
| AslValidator.PushWarnings | src/validation/asl.ts:379-391 | given the visited set, the loop appends one warning per unvisited declared name, in declaration order |
| AslValidator.WarnUnreachable | src/validation/asl.ts:360-392 | the reachability pass appends exactly the unreachable-state warnings |
| AslProperties.UnreachableRule | src/validation/asl.ts:360-392 | a declared name is warned exactly when it is empty or no walk from `StartAt` reaches it |
| AslProperties.EmptyNameAlwaysWarned | src/validation/asl.ts:366 | a state declared under the empty name is always warned |
| AslProperties.UnreachableWarnedOnce | src/validation/asl.ts:379-391 | each unreachable declared name is warned exactly once, and a reachable one never |
| AslProperties.WarningKinds | src/validation/asl.ts:379-391 | every reachability issue is a warning about a declared name, at `<States path>.<name>` |
| AslValidator.ValidateScope | src/validation/asl.ts:75-393 | the method appends exactly the issues of the scope; its `StartAt` and `States` checks, per-state loop, nested scopes and traversal all agree with the specification functions |
| AslProperties.StatesNotObjectStopsScope | src/validation/asl.ts:86-107 | when `States` is not an object the scope reports only the `StartAt` error (if `StartAt` is not a string) and then the `States` error |
| AslProperties.ScopeLayout | src/validation/asl.ts:86-392 | an object `States` gives the `StartAt` issues, then the per-state issues in declaration order, then (only for a string `StartAt`) the warnings about declared names |
| AslProperties.MissingStartAtWarnsEveryState | src/validation/asl.ts:109-120 | a string `StartAt` naming no state is reported first, and every declared state is then warned, in declaration order (src/validation/asl.ts:360-391) |
| AslProperties.ScopePaths | src/validation/asl.ts:23-24 | every issue of a scope is at its `StartAt` or under its `States`, so it extends the scope path, nested scopes included |
| AslProperties.ScopeContainsState | src/validation/asl.ts:122-358 | every issue of the i-th declared state is an issue of its scope |
| AslValidator.ValidateAsl | src/validation/asl.ts:395-417 | a non-object document yields exactly one error at `<root>`; an object is validated as the root scope |
| Markers.NewlineCount | src/validation/monacoMarkers.ts:22-24 | the lines advanced are the line feeds in the scanned text |
| Markers.ColumnTailRule | src/validation/monacoMarkers.ts:22-27 | the column counts the characters after the last line feed |
| Markers.Clamp | src/validation/monacoMarkers.ts:20 | the scan stops at the offset or at the end of the text; a negative offset scans nothing |
| Markers.OffsetToPosition | src/validation/monacoMarkers.ts:16-31 | the line is one more than the line feeds before the clamped offset, and the column one more than the characters after the last of them |
| Markers.PositionAtMonotone | src/validation/monacoMarkers.ts:16-31 | a later offset never gives an earlier position |
| Markers.RangeFromOffsets | src/validation/monacoMarkers.ts:33-42 | the start offset is raised to 0, the end to the start offset, and the range is never inverted |
| Markers.DocStartShape | src/validation/monacoMarkers.ts:105 | the document-start range is zero-width at (1,1) on empty text and covers the first character otherwise |
| Markers.SeverityToMonaco | src/validation/monacoMarkers.ts:44-48 | error becomes Error and every other severity becomes Warning |
| Markers.IndexOfRule | src/validation/monacoMarkers.ts:52 | `indexOf` gives -1 exactly when the needle occurs nowhere, else its first occurrence |
| Markers.GuessRangeRule | src/validation/monacoMarkers.ts:50-55 | nothing exactly when the quoted name occurs nowhere; otherwise the range of the name without its quotes at its first quoted occurrence |
| Markers.StripRootRule | src/validation/monacoMarkers.ts:59-60 | a leading `<root>` and one following dot are stripped; other paths are kept |
| Markers.SplitDotsJoin | src/validation/monacoMarkers.ts:66 | splitting on dots and joining the parts back gives the path |
| Markers.SplitDotsDotFree | src/validation/monacoMarkers.ts:66 | the parts contain no dot |
| Markers.MatchSegmentRule | src/validation/monacoMarkers.ts:68 | the pattern accepts a non-empty bracket-free key, optionally followed by `[digits]`, and nothing else |
| Markers.PartTokensRule | src/validation/monacoMarkers.ts:66-75 | an empty part yields nothing, a key yields the key, `Key[n]` yields the key then `n`, and any other part is kept verbatim |
| Markers.Tokenize | src/validation/monacoMarkers.ts:65-75 | the loop yields the tokens of the dot-separated parts, in order |
| Markers.ValidatorPathRoundTrip | src/validation/monacoMarkers.ts:57-75 | tokenizing a path the validator built from simple keys and indices gives back those keys and indices, in order (src/validation/asl.ts:23-24) |
| Markers.DottedNameSplits | src/validation/monacoMarkers.ts:66 | a state name containing a dot tokenizes as two keys |
| Markers.LocationRule | src/validation/monacoMarkers.ts:57-90 | a path reduced to the root gives no location, a node of non-positive length gives none, and a found node gives the range of its offsets |
| Markers.PathToJsoncLocation | src/validation/monacoMarkers.ts:57-90 | the method computes that location from the tokenizer loop and the tree lookup |
| Markers.IssueMarker | src/validation/monacoMarkers.ts:112-130 | the loop body produces the marker of one issue |
| Markers.CreateMarkersFromIssues | src/validation/monacoMarkers.ts:92-134 | the method returns the markers of the issues, or the parse-error marker |
| Markers.ParseErrorMarker | src/validation/monacoMarkers.ts:102-109 | a non-empty parse error gives exactly one Error marker over the first character with the parse-error message, whatever the issues |
| Markers.IssueMarkersPointwise | src/validation/monacoMarkers.ts:111-131 | one marker per issue, marker i built from issue i |
| Markers.MarkerPerIssue | src/validation/monacoMarkers.ts:111-131 | without a parse error: one marker per issue, in order, with the issue's message, Error exactly for error issues, and a well-formed range |
| Markers.MarkerRangeWellFormed | src/validation/monacoMarkers.ts:114-124 | whichever tier supplies it, a marker's range is never inverted |
| Markers.FallbackOrder | src/validation/monacoMarkers.ts:114-124 | a path lookup that succeeds (for a path other than empty or `<root>`) wins; otherwise a found state name; otherwise the document start |
| Store.MergeSettings | src/store/useStore.ts:45-48 | the merged settings keep every existing key, take every patch key, and read the patch value wherever the patch has one |
| Store.EditorStore.constructor | src/store/useStore.ts:36-43 | the store starts with the initial definition and the default view settings |
| Store.EditorStore.SetAslDefinition | src/store/useStore.ts:44 | the definition is replaced and the view settings are unchanged |
| Store.EditorStore.UpdateViewSettings | src/store/useStore.ts:45-48 | the view settings become the merge of the old settings and the patch; the definition is unchanged |
| Store.StateTemplate | src/store/useStore.ts:58-125 | the switch builds the template of the requested type |
| Store.EditorStore.AddState | src/store/useStore.ts:49-130 | the definition becomes the one with the template inserted under the name; the view settings are unchanged |
| Store.AddStateFrame | src/store/useStore.ts:49-130 | the new state replaces any entry of that name; every other state and every other top-level field reads as before |
| Store.FalsyStatesReplaced | src/store/useStore.ts:52-54 | a missing or falsy `States` ends up holding just the new state |
| Store.TemplateShape | src/store/useStore.ts:58-124 | every template has `Type` equal to the requested type and no `Next`; all but Choice and Fail have `End: true`, and those two have no `End`; Wait has `Seconds: 5` and Task a `Resource` |
| Store.ChoiceTemplateShape | src/store/useStore.ts:74-86 | the Choice template has one rule, the computed `Default`, and neither `Next` nor `End` |
| Store.ChoiceDefaultRule | src/store/useStore.ts:83-84 | `Default` is a truthy `StartAt`, else the first state name before the insertion, else absent |
| Store.ParallelTemplateShape | src/store/useStore.ts:94-109 | the Parallel template embeds one branch scope starting at its only state |
| Store.MapTemplateShape | src/store/useStore.ts:110-124 | the Map template's `Iterator` is a scope starting at its only state |
| Store.NestedScopeClean | src/store/useStore.ts:97-107 | the embedded scope (a Pass state with `End: true` named by `StartAt`) validates with no issue |
| Store.TemplateClean | src/store/useStore.ts:58-124 | every template except Choice's, for a non-blank type other than Succeed, validates as a state with no issue |
| Store.SucceedTemplateWarns | src/store/useStore.ts:58-61 | a Succeed template keeps `End: true`, which draws only the terminal-state warning (src/validation/asl.ts:183-193) |
| Store.ChoiceTemplateStateFlagged | src/store/useStore.ts:77-82 | the Choice template's rule has no `Next`, so the validator reports it at `.Choices[0].Next` (src/validation/asl.ts:222-231) |
| Store.ChoiceTemplateFlagged | src/store/useStore.ts:49-130 | validating the definition after adding a Choice state reports that rule at `<root>.States.<name>.Choices[0].Next` |
| Store.LinearScopeClean | src/validation/asl.ts:75-393 | a scope of two plain states, the first leading to the second and the second ending, validates with no issue |
| Store.InitialAslClean | src/store/useStore.ts:18-34 | the initial definition (Pass `Hello` leading to Pass `World` with `End: true`) validates with no issue |

A Succeed or Fail state whose `Next` is a string and whose `End` is `true` gets
both the `Next`-with-`End` error (src/validation/asl.ts:157) and the
terminal-state warning (src/validation/asl.ts:183), because the two checks are
independent of each other. `AslProperties.TransitionRules` states both.

## Left out

- React components, the App shell, DOM events, the debounce timer and the Monaco runtime: user interface, not logic.
- `JSON.parse` and the text-to-tree decoding: the validator receives a decoded value. Numbers are integers, because nothing inspects a number beyond its truthiness.
- jsonc-parser's `parseTree` and `findNodeAtLocation`: foreign calls. They are the `locate` parameter of `Markers.Location`, an arbitrary function from text and tokens to an optional offset/length. A failed parse is one more way for `locate` to answer nothing.
- The `monaco` parameter: `MarkerSeverity` is the two-valued `Markers.MarkerSeverity`.
- Zustand's `set`, subscriptions, and the aliasing of `States`. The shallow copy at src/store/useStore.ts:51 shares the old `States` object, which line 127 then mutates. `Store.EditorStore.AddState` assigns a new value and does not capture that the previous definition object changes too.
- Store.AddedState: when `States` is truthy but not an object, the model leaves the definition unchanged. The source throws when `States` is a primitive. When `States` is an array, an integer-like state name writes an array element that JSON shows (growing the array with `null` holes), and any other name adds a property that JSON does not show.
- JavaScript key ordering: integer-like keys enumerate first in `Object.keys`/`Object.entries`. The model keeps declaration order, including for the Choice template's "first state name".
- Duplicate keys: JSON objects have unique keys. Only the lemmas that need this (`AslProperties.UnreachableWarnedOnce`) assume it.
- Store.ChoiceTemplateShape: a `Default` that evaluates to `undefined` is modelled as absent, which is how JSON serialises it.
- `addIssue`'s `issue.path ?? defaultPath`: no call site passes a `path`, so every issue takes the default path.
- Markers.OffsetToPosition: counts Dafny characters, whereas the source counts UTF-16 code units. These differ only for characters outside the Basic Multilingual Plane.
- Markers.PartTokensRule: `Number(match[3])` is read as an unbounded natural number. The model ignores floating-point rounding of very long digit runs.
- AslValidator.PushUnvisited: states only what the traversal proof needs (the stack grows by declared targets, and each declared target is visited or pending), not the exact push order.
- Message text is reproduced in `Asl.Message` but stated about only through `Markers.MarkerPerIssue`, which copies it to the marker.
- Store fields the components use but `useStore.ts` does not define (`aslText`, `parseError`, undo/redo and the like) are not part of this model.
