/** The Amazon States Language structural checks of src/validation/asl.ts,
    stated as functions: what one validation run reports for a scope (a
    `StartAt` plus a `States` object), state by state, and which states count
    as reachable. The methods of AslValidator compute the same issues with
    the source's loops and are proved equal to these functions. */
module Asl {
  import opened JsonModel
  import opened Text

  datatype Severity = Error | Warning

  /** One constructor per `addIssue` call site, carrying the values that the
      message interpolates. */
  datatype IssueKind =
    | RootNotObject
    | StartAtNotString
    | StatesNotObject
    | StartAtMissing(target: string)
    | StateNotObject
    | TypeMissing
    | NextAndEnd
    | NoNextOrEnd
    | TerminalTransition(stateType: string)
    | ChoicesEmpty
    | ChoiceNotObject
    | ChoiceWithoutNext
    | ChoiceHasEnd
    | ChoiceHasNext
    | BranchesEmpty
    | BranchNotObject
    | IteratorNotObject
    | NextMissing(target: string)
    | DefaultMissing(target: string)
    | ChoiceNextMissing(index: nat, target: string)
    | Unreachable

  /** A `ValidationIssue`: its severity and message are fixed by its kind. */
  datatype Issue = Issue(kind: IssueKind, path: string, stateName: Option<string>)

  function SeverityOf(kind: IssueKind): Severity {
    match kind
    case TerminalTransition(_) => Warning
    case Unreachable => Warning
    case _ => Error
  }

  function Message(kind: IssueKind): string {
    match kind
    case RootNotObject => "ASL must be a JSON object."
    case StartAtNotString => "`StartAt` must be a string."
    case StatesNotObject => "`States` must be an object."
    case StartAtMissing(t) => "StartAt points to a missing state: " + t + "."
    case StateNotObject => "State definition must be an object."
    case TypeMissing => "State is missing a valid `Type`."
    case NextAndEnd => "A state cannot have `Next` and `End: true` at the same time."
    case NoNextOrEnd => "State must have `Next` or `End: true`."
    case TerminalTransition(t) => "States of type " + t + " typically do not use `Next`/`End`. "
    case ChoicesEmpty => "Choice must have a non-empty `Choices` array."
    case ChoiceNotObject => "Each item in `Choices` must be an object."
    case ChoiceWithoutNext => "Each Choice must have `Next`."
    case ChoiceHasEnd => "Choice does not support `End`. "
    case ChoiceHasNext => "Choice does not support `Next`; use `Default` and `Choices[].Next`."
    case BranchesEmpty => "Parallel must have a non-empty `Branches` array."
    case BranchNotObject => "Each branch must be an object."
    case IteratorNotObject => "Map must have an `Iterator` object."
    case NextMissing(t) => "Next points to a missing state: " + t + "."
    case DefaultMissing(t) => "Default points to a missing state: " + t + "."
    case ChoiceNextMissing(i, t) => "Choices[" + NatToString(i) + "].Next points to a missing state: " + t + "."
    case Unreachable => "State is not reachable from `StartAt`. "
  }

  /** `joinPath`: an empty base yields the segment alone. */
  function JoinPath(base: string, segment: string): string {
    if base != "" then base + "." + segment else segment
  }

  /** The `${path}[${idx}]` paths of array entries. */
  function IndexPath(base: string, i: nat): string {
    base + "[" + NatToString(i) + "]"
  }

  // ---------------------------------------------------------------------
  // Field probes (`isString(x.F)`, `isBoolean(x.F)`, `x.End === true`)

  function StrField(obj: Fields, key: string): Option<string> {
    match Get(obj, key)
    case Some(JStr(s)) => Some(s)
    case _ => None
  }

  predicate IsBoolField(obj: Fields, key: string) {
    Get(obj, key).Some? && Get(obj, key).value.JBool?
  }

  /** `hasEnd`: `End` is the boolean `true`. */
  predicate HasEnd(obj: Fields) {
    Get(obj, "End") == Some(JBool(true))
  }

  predicate IsTerminalType(ty: string) {
    ty == "Succeed" || ty == "Fail"
  }

  // ---------------------------------------------------------------------
  // getTransitionsForState

  function NextTargets(state: Fields): seq<string> {
    match StrField(state, "Next")
    case Some(t) => [t]
    case None => []
  }

  function ChoiceNextTargets(items: seq<Json>, n: nat): seq<string>
    requires n <= |items|
  {
    if n == 0 then []
    else
      ChoiceNextTargets(items, n - 1) + RuleTargets(items[n - 1])
  }

  /** The edge a choice rule contributes: its `Next`, when it is an object
      with a string `Next`. */
  function RuleTargets(item: Json): seq<string> {
    match item
    case JObj(c) => (match StrField(c, "Next") case Some(t) => [t] case None => [])
    case _ => []
  }

  function DefaultTargets(state: Fields): seq<string> {
    match StrField(state, "Default")
    case Some(t) => [t]
    case None => []
  }

  /** A branch contributes its `StartAt` only when it is an object with a
      string `StartAt` and an object `States`. */
  function BranchStartTargets(branches: seq<Json>, n: nat): seq<string>
    requires n <= |branches|
  {
    if n == 0 then []
    else
      BranchStartTargets(branches, n - 1) + BranchTargets(branches[n - 1])
  }

  function BranchTargets(branch: Json): seq<string> {
    match branch
    case JObj(b) =>
      (match (StrField(b, "StartAt"), Get(b, "States"))
       case (Some(t), Some(JObj(_))) => [t]
       case _ => [])
    case _ => []
  }

  function IteratorTargets(state: Fields): seq<string> {
    match Get(state, "Iterator")
    case Some(JObj(it)) => (match StrField(it, "StartAt") case Some(t) => [t] case None => [])
    case _ => []
  }

  /** The outgoing edges of a state object, in the order the source pushes them. */
  function Transitions(state: Fields): seq<string> {
    var ty := Get(state, "Type");
    NextTargets(state)
    + (if ty == Some(JStr("Choice")) then
         (match Get(state, "Choices") case Some(JArr(items)) => ChoiceNextTargets(items, |items|) case _ => [])
         + DefaultTargets(state)
       else [])
    + (if ty == Some(JStr("Parallel")) then
         (match Get(state, "Branches") case Some(JArr(bs)) => BranchStartTargets(bs, |bs|) case _ => [])
       else [])
    + (if ty == Some(JStr("Map")) then IteratorTargets(state) else [])
  }

  /** The edges of a state described field by field, independently of the
      order in which `getTransitionsForState` collects them. */
  ghost predicate IsEdge(state: Fields, t: string) {
    var ty := Get(state, "Type");
    || StrField(state, "Next") == Some(t)
    || (ty == Some(JStr("Choice")) && (ChoiceRuleTarget(state, t) || StrField(state, "Default") == Some(t)))
    || (ty == Some(JStr("Parallel")) && BranchStartTarget(state, t))
    || (ty == Some(JStr("Map")) && IteratorStartTarget(state, t))
  }

  /** A choice rule that is an object whose `Next` is the string `t`. */
  predicate RuleLeadsTo(item: Json, t: string) {
    item.JObj? && StrField(item.fields, "Next") == Some(t)
  }

  /** A branch that is an object with `StartAt` the string `t` and an object
      `States`. */
  predicate BranchStartsAt(b: Json, t: string) {
    b.JObj? && StrField(b.fields, "StartAt") == Some(t)
    && Get(b.fields, "States").Some? && Get(b.fields, "States").value.JObj?
  }

  ghost predicate ChoiceRuleTarget(state: Fields, t: string) {
    match Get(state, "Choices")
    case Some(JArr(items)) => exists i :: 0 <= i < |items| && RuleLeadsTo(items[i], t)
    case _ => false
  }

  ghost predicate BranchStartTarget(state: Fields, t: string) {
    match Get(state, "Branches")
    case Some(JArr(bs)) => exists i :: 0 <= i < |bs| && BranchStartsAt(bs[i], t)
    case _ => false
  }

  ghost predicate IteratorStartTarget(state: Fields, t: string) {
    match Get(state, "Iterator")
    case Some(JObj(it)) => StrField(it, "StartAt") == Some(t)
    case _ => false
  }

  // ---------------------------------------------------------------------
  // Reachability (the stack/visited-set pass, stated as walks)

  /** One traversal step: from a non-empty name whose state is an object,
      along one of its transitions, to a declared name. */
  ghost predicate Step(states: Fields, x: string, y: string) {
    && x != ""
    && y in Keys(states)
    && match Get(states, x)
       case Some(JObj(st)) => y in Transitions(st)
       case _ => false
  }

  /** The k-th step of a candidate walk. */
  ghost predicate StepAt(states: Fields, p: seq<string>, k: nat)
    requires k + 1 < |p|
  {
    Step(states, p[k], p[k + 1])
  }

  ghost predicate IsWalk(states: Fields, p: seq<string>) {
    |p| > 0 && forall k :: 0 <= k < |p| - 1 ==> StepAt(states, p, k)
  }

  ghost predicate Reaches(states: Fields, start: string, n: string) {
    exists p :: IsWalk(states, p) && p[0] == start && p[|p| - 1] == n
  }

  /** The empty name is never marked reachable: the traversal skips it. */
  ghost predicate IsReachable(states: Fields, start: string, n: string) {
    n != "" && Reaches(states, start, n)
  }

  // ---------------------------------------------------------------------
  // The issues of one validation run

  /** `validateAsl`. */
  ghost function AslIssues(definition: Json): seq<Issue> {
    match definition
    case JObj(fields) => ScopeIssues(fields, "<root>")
    case _ => [Issue(RootNotObject, "<root>", None)]
  }

  /** The `StartAt` checks that precede the per-state checks. */
  function StartAtIssues(scope: Fields, scopePath: string, names: Option<seq<string>>): seq<Issue> {
    var startAt := StrField(scope, "StartAt");
    var path := JoinPath(scopePath, "StartAt");
    (if startAt.None? then [Issue(StartAtNotString, path, None)] else [])
    + (if startAt.Some? && names.Some? && startAt.value !in names.value
       then [Issue(StartAtMissing(startAt.value), path, None)] else [])
  }

  /** `validateStateMachineScope`. */
  ghost function ScopeIssues(scope: Fields, scopePath: string): seq<Issue>
    decreases JObj(scope), 3
  {
    match Get(scope, "States")
    case Some(JObj(states)) =>
      var statesPath := JoinPath(scopePath, "States");
      StartAtIssues(scope, scopePath, Some(Keys(states)))
      + EntriesIssues(states, |states|, Keys(states), statesPath)
      + ReachabilityIssues(scope, states, statesPath)
    case _ =>
      StartAtIssues(scope, scopePath, None) + [Issue(StatesNotObject, JoinPath(scopePath, "States"), None)]
  }

  /** The warnings appended after a scope's structural checks; none when
      `StartAt` is not a string. */
  ghost function ReachabilityIssues(scope: Fields, states: Fields, statesPath: string): seq<Issue> {
    match StrField(scope, "StartAt")
    case Some(start) => UnreachableWarnings(states, start, |states|, statesPath)
    case None => []
  }

  /** The per-state issues of the first n declared states. */
  ghost function EntriesIssues(states: Fields, n: nat, names: seq<string>, statesPath: string): seq<Issue>
    requires n <= |states|
    decreases JObj(states), n
  {
    if n == 0 then []
    else
      EntriesIssues(states, n - 1, names, statesPath)
      + StateIssues(states[n - 1].0, states[n - 1].1, names, JoinPath(statesPath, states[n - 1].0))
  }

  /** A state that is not an object, or has no non-blank string `Type`, gets
      one issue and nothing else. */
  ghost function StateIssues(name: string, raw: Json, names: seq<string>, statePath: string): seq<Issue>
    decreases raw, 2
  {
    match raw
    case JObj(state) =>
      var ty := StrField(state, "Type");
      if ty.None? || IsBlank(ty.value) then [Issue(TypeMissing, JoinPath(statePath, "Type"), Some(name))]
      else TypedStateIssues(name, state, ty.value, names, statePath)
    case _ => [Issue(StateNotObject, statePath, Some(name))]
  }

  ghost function TypedStateIssues(name: string, state: Fields, ty: string, names: seq<string>, statePath: string): seq<Issue>
    decreases JObj(state), 1
  {
    TransitionIssues(name, state, ty, statePath)
    + (if ty == "Choice" then ChoiceShapeIssues(name, state, statePath) else [])
    + (if ty == "Parallel" then ParallelIssues(name, state, statePath) else [])
    + (if ty == "Map" then MapIssues(name, state, statePath) else [])
    + ReferenceIssues(name, state, ty, names, statePath)
  }

  /** The `Next`/`End` rules that apply to every typed state. */
  function TransitionIssues(name: string, state: Fields, ty: string, statePath: string): seq<Issue> {
    var hasNext := StrField(state, "Next").Some?;
    var hasEnd := HasEnd(state);
    var terminal := IsTerminalType(ty);
    (if hasNext && hasEnd then [Issue(NextAndEnd, statePath, Some(name))] else [])
    + (if !terminal && !hasNext && !hasEnd && ty != "Choice" then [Issue(NoNextOrEnd, statePath, Some(name))] else [])
    + (if terminal && (hasNext || IsBoolField(state, "End")) then [Issue(TerminalTransition(ty), statePath, Some(name))] else [])
  }

  function ChoiceShapeIssues(name: string, state: Fields, statePath: string): seq<Issue> {
    ChoiceListIssues(name, Get(state, "Choices"), JoinPath(statePath, "Choices"))
    + (if IsBoolField(state, "End") then [Issue(ChoiceHasEnd, JoinPath(statePath, "End"), Some(name))] else [])
    + (if StrField(state, "Next").Some? then [Issue(ChoiceHasNext, JoinPath(statePath, "Next"), Some(name))] else [])
  }

  /** The checks on the `Choices` member itself: a non-empty array whose
      entries are each checked in turn. */
  function ChoiceListIssues(name: string, choices: Option<Json>, choicesPath: string): seq<Issue> {
    match choices
    case Some(JArr(items)) =>
      if |items| == 0 then [Issue(ChoicesEmpty, choicesPath, Some(name))]
      else ChoiceItemIssues(name, items, |items|, choicesPath)
    case _ => [Issue(ChoicesEmpty, choicesPath, Some(name))]
  }

  function ChoiceItemIssues(name: string, items: seq<Json>, n: nat, choicesPath: string): seq<Issue>
    requires n <= |items|
  {
    if n == 0 then []
    else ChoiceItemIssues(name, items, n - 1, choicesPath) + ChoiceItemIssue(name, items[n - 1], IndexPath(choicesPath, n - 1))
  }

  function ChoiceItemIssue(name: string, item: Json, itemPath: string): seq<Issue> {
    match item
    case JObj(c) =>
      if StrField(c, "Next").None? then [Issue(ChoiceWithoutNext, JoinPath(itemPath, "Next"), Some(name))] else []
    case _ => [Issue(ChoiceNotObject, itemPath, Some(name))]
  }

  ghost function ParallelIssues(name: string, state: Fields, statePath: string): seq<Issue>
    decreases JObj(state), 0
  {
    var branchesPath := JoinPath(statePath, "Branches");
    match Get(state, "Branches")
    case Some(JArr(bs)) =>
      if |bs| == 0 then [Issue(BranchesEmpty, branchesPath, Some(name))]
      else BranchesIssues(name, bs, |bs|, branchesPath)
    case _ => [Issue(BranchesEmpty, branchesPath, Some(name))]
  }

  /** Each object branch is validated as a nested scope at `Branches[i]`. */
  ghost function BranchesIssues(name: string, bs: seq<Json>, n: nat, branchesPath: string): seq<Issue>
    requires n <= |bs|
    decreases JArr(bs), n
  {
    if n == 0 then []
    else
      BranchesIssues(name, bs, n - 1, branchesPath)
      + match bs[n - 1]
        case JObj(b) => ScopeIssues(b, IndexPath(branchesPath, n - 1))
        case _ => [Issue(BranchNotObject, IndexPath(branchesPath, n - 1), Some(name))]
  }

  ghost function MapIssues(name: string, state: Fields, statePath: string): seq<Issue>
    decreases JObj(state), 0
  {
    var iteratorPath := JoinPath(statePath, "Iterator");
    match Get(state, "Iterator")
    case Some(JObj(it)) => ScopeIssues(it, iteratorPath)
    case _ => [Issue(IteratorNotObject, iteratorPath, Some(name))]
  }

  /** References resolved against the names declared in the same scope. */
  function ReferenceIssues(name: string, state: Fields, ty: string, names: seq<string>, statePath: string): seq<Issue> {
    (match StrField(state, "Next")
     case Some(t) => if t !in names then [Issue(NextMissing(t), JoinPath(statePath, "Next"), Some(name))] else []
     case None => [])
    + (if ty == "Choice" then
         (match StrField(state, "Default")
          case Some(d) => if d !in names then [Issue(DefaultMissing(d), JoinPath(statePath, "Default"), Some(name))] else []
          case None => [])
         + (match Get(state, "Choices")
            case Some(JArr(items)) => ChoiceReferenceIssues(name, items, |items|, names, JoinPath(statePath, "Choices"))
            case _ => [])
       else [])
  }

  function ChoiceReferenceIssues(name: string, items: seq<Json>, n: nat, names: seq<string>, choicesPath: string): seq<Issue>
    requires n <= |items|
  {
    if n == 0 then []
    else
      ChoiceReferenceIssues(name, items, n - 1, names, choicesPath)
      + ChoiceReferenceIssue(name, items[n - 1], n - 1, names, IndexPath(choicesPath, n - 1))
  }

  /** The reference check of entry `index`: an object whose string `Next`
      names no declared state. */
  function ChoiceReferenceIssue(name: string, item: Json, index: nat, names: seq<string>, itemPath: string): seq<Issue> {
    match item
    case JObj(c) =>
      (match StrField(c, "Next")
       case Some(t) => if t !in names then [Issue(ChoiceNextMissing(index, t), JoinPath(itemPath, "Next"), Some(name))] else []
       case None => [])
    case _ => []
  }

  /** One warning per declared state that no walk from `StartAt` reaches, in
      declaration order. */
  ghost function UnreachableWarnings(states: Fields, start: string, n: nat, statesPath: string): seq<Issue>
    requires n <= |states|
  {
    if n == 0 then []
    else UnreachableWarnings(states, start, n - 1, statesPath) + UnreachableWarning(states, start, statesPath, states[n - 1].0)
  }

  /** One step of the warning list, for callers that must not unfold it. */
  lemma UnreachableWarningsStep(states: Fields, start: string, n: nat, statesPath: string)
    requires 0 < n <= |states|
    ensures UnreachableWarnings(states, start, n, statesPath)
            == UnreachableWarnings(states, start, n - 1, statesPath) + UnreachableWarning(states, start, statesPath, states[n - 1].0)
  {
  }

  /** The warning of one declared name: none when it is reachable. */
  ghost function UnreachableWarning(states: Fields, start: string, statesPath: string, name: string): seq<Issue> {
    if IsReachable(states, start, name) then [] else [Issue(Unreachable, JoinPath(statesPath, name), Some(name))]
  }
}
