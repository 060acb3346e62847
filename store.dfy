/** The editor's state of src/store/useStore.ts: the current state-machine
    definition and the graph view settings, with the two updates the core
    defines. `addState` inserts a per-type state template, and the lemmas here
    tie those templates to what the validator of module Asl reports. */
module Store {
  import opened JsonModel
  import opened Text
  import opened Asl
  import AslProperties

  // ---------------------------------------------------------------------
  // Constants

  const TaskResource := "arn:aws:lambda:us-east-1:123456789012:function:MyFunction"

  /** `{ Type: "Pass", End: true }`. */
  function PassEnd(): Json {
    JObj([("Type", JStr("Pass")), ("End", JBool(true))])
  }

  /** `initialASL`: Pass `Hello` leads to Pass `World`, which ends. */
  function InitialAsl(): Fields {
    [ ("Comment", JStr("A Hello World example of the Amazon States Language using Pass states")),
      ("StartAt", JStr("Hello")),
      ("States", JObj([("Hello", JObj(InitialHello())), ("World", JObj(InitialWorld()))]))
    ]
  }

  function InitialHello(): Fields {
    [("Type", JStr("Pass")), ("Result", JStr("Hello")), ("Next", JStr("World"))]
  }

  function InitialWorld(): Fields {
    [("Type", JStr("Pass")), ("Result", JStr("World")), ("End", JBool(true))]
  }

  function DefaultViewSettings(): map<string, Json> {
    map["showToolbar" := JBool(true), "showMinimap" := JBool(true),
        "showControls" := JBool(true), "graphTheme" := JStr("dark")]
  }

  // ---------------------------------------------------------------------
  // The update functions

  /** `{ ...current, ...patch }`. */
  function MergeSettings(current: map<string, Json>, patch: map<string, Json>): (r: map<string, Json>)
    ensures r.Keys == current.Keys + patch.Keys
    ensures forall k :: k in patch ==> r[k] == patch[k]
    ensures forall k :: k in current && k !in patch ==> r[k] == current[k]
  {
    current + patch
  }

  /** A falsy `States` is first replaced by an empty object. */
  function WithStates(definition: Fields): Fields {
    if Truthy(Get(definition, "States")) then definition else Put(definition, "States", JObj([]))
  }

  /** The `States` object after that replacement, when it is an object. */
  function StatesBefore(definition: Fields): Fields {
    match Get(WithStates(definition), "States")
    case Some(JObj(states)) => states
    case _ => []
  }

  /** The insertion goes through when `States` is falsy or an object. A
      truthy `States` of another kind makes the assignment throw (a
      primitive) or leaves the document's JSON unchanged (an array). */
  predicate Accepts(definition: Fields) {
    !Truthy(Get(definition, "States")) || Get(definition, "States").value.JObj?
  }

  /** The Choice template's `Default`: a truthy `StartAt`, else the first
      state name before the insertion, else nothing. */
  function ChoiceDefault(definition: Fields): Option<Json> {
    if Truthy(Get(definition, "StartAt")) then Get(definition, "StartAt")
    else match Get(definition, "States")
      case Some(JObj(states)) => if |states| > 0 then Some(JStr(states[0].0)) else None
      case _ => None
  }

  function ChoiceRule(): Json {
    JObj([("Variable", JStr("$.MyVariable")), ("StringEquals", JStr("MyValue"))])
  }

  /** The scope embedded by the Parallel and Map templates. */
  function NestedScope(start: string): Fields {
    [("StartAt", JStr(start)), ("States", JObj([(start, PassEnd())]))]
  }

  /** The state object `addState` builds for a type, given the definition
      after the `States` replacement. A spread `{ ...base, Key: v }` whose key
      is not yet in `base` appends that key, so the templates are written as
      the member lists the spreads produce. */
  function Template(stateType: string, definition: Fields): Fields {
    var ty, end := ("Type", JStr(stateType)), ("End", JBool(true));
    if stateType == "Wait" then [ty, end, ("Seconds", JNum(5))]
    else if stateType == "Task" then [ty, end, ("Resource", JStr(TaskResource))]
    else if stateType == "Choice" then
      match ChoiceDefault(definition)
      case Some(d) => [("Type", JStr("Choice")), ("Choices", JArr([ChoiceRule()])), ("Default", d)]
      case None => [("Type", JStr("Choice")), ("Choices", JArr([ChoiceRule()]))]
    else if stateType == "Fail" then
      [("Type", JStr("Fail")), ("Error", JStr("GenericError")), ("Cause", JStr("An error occurred"))]
    else if stateType == "Parallel" then [ty, end, ("Branches", JArr([JObj(NestedScope("ParallelState"))]))]
    else if stateType == "Map" then
      [ty, end, ("ItemsPath", JStr("$.items")), ("Iterator", JObj(NestedScope("MapState")))]
    else [ty, end]
  }

  /** The definition after `addState(name, stateType)`. */
  function AddedState(definition: Fields, name: string, stateType: string): Fields {
    var d := WithStates(definition);
    match Get(d, "States")
    case Some(JObj(states)) => Put(d, "States", JObj(Put(states, name, JObj(Template(stateType, d)))))
    case _ => definition
  }

  /** Where `States` is an object, the template goes in under the name. */
  lemma AddedStateInObject(definition: Fields, name: string, stateType: string, states: Fields)
    requires Get(WithStates(definition), "States") == Some(JObj(states))
    ensures AddedState(definition, name, stateType)
            == Put(WithStates(definition), "States", JObj(Put(states, name, JObj(Template(stateType, WithStates(definition))))))
  {
  }

  /** Where `States` is truthy but not an object, nothing changes. */
  lemma AddedStateOtherwise(definition: Fields, name: string, stateType: string)
    requires !(Get(WithStates(definition), "States").Some? && Get(WithStates(definition), "States").value.JObj?)
    ensures AddedState(definition, name, stateType) == definition
  {
  }

  /** The `let stateDefinition = ...; switch (stateType)` part of `addState`:
      the default `{ Type, End: true }` object, extended or replaced per type. */
  method StateTemplate(stateType: string, newDefinition: Fields) returns (stateDefinition: Fields)
    ensures stateDefinition == Template(stateType, newDefinition)
  {
    stateDefinition := [("Type", JStr(stateType)), ("End", JBool(true))];
    if stateType == "Wait" {
      stateDefinition := stateDefinition + [("Seconds", JNum(5))];
    } else if stateType == "Task" {
      stateDefinition := stateDefinition + [("Resource", JStr(TaskResource))];
    } else if stateType == "Choice" {
      var default: Option<Json> := None;
      if Truthy(Get(newDefinition, "StartAt")) {
        default := Get(newDefinition, "StartAt");
      } else {
        match Get(newDefinition, "States") {
          case Some(JObj(states)) =>
            if |states| > 0 {
              default := Some(JStr(states[0].0));
            }
          case _ =>
        }
      }
      stateDefinition := [("Type", JStr("Choice")), ("Choices", JArr([ChoiceRule()]))];
      if default.Some? {
        stateDefinition := stateDefinition + [("Default", default.value)];
      }
    } else if stateType == "Fail" {
      stateDefinition := [("Type", JStr("Fail")), ("Error", JStr("GenericError")), ("Cause", JStr("An error occurred"))];
    } else if stateType == "Parallel" {
      stateDefinition := stateDefinition + [("Branches", JArr([JObj(NestedScope("ParallelState"))]))];
    } else if stateType == "Map" {
      stateDefinition := stateDefinition + [("ItemsPath", JStr("$.items")), ("Iterator", JObj(NestedScope("MapState")))];
    }
  }

  // ---------------------------------------------------------------------
  // The store

  class EditorStore {
    var aslDefinition: Fields
    var viewSettings: map<string, Json>

    constructor()
      ensures aslDefinition == InitialAsl()
      ensures viewSettings == DefaultViewSettings()
    {
      aslDefinition := InitialAsl();
      viewSettings := DefaultViewSettings();
    }

    /** `setAslDefinition`: the definition is replaced wholesale. */
    method SetAslDefinition(definition: Fields)
      modifies this
      ensures aslDefinition == definition
      ensures viewSettings == old(viewSettings)
    {
      aslDefinition := definition;
    }

    /** `updateViewSettings`. */
    method UpdateViewSettings(settings: map<string, Json>)
      modifies this
      ensures viewSettings == MergeSettings(old(viewSettings), settings)
      ensures aslDefinition == old(aslDefinition)
    {
      viewSettings := viewSettings + settings;
    }

    /** `addState`: the template is chosen by a switch on the type and then
        assigned into the copied definition's `States`. */
    method AddState(stateName: string, stateType: string)
      modifies this
      ensures aslDefinition == AddedState(old(aslDefinition), stateName, stateType)
      ensures viewSettings == old(viewSettings)
    {
      var newDefinition := aslDefinition;
      if !Truthy(Get(newDefinition, "States")) {
        newDefinition := Put(newDefinition, "States", JObj([]));
      }
      var stateDefinition := StateTemplate(stateType, newDefinition);
      assert newDefinition == WithStates(old(aslDefinition));
      match Get(newDefinition, "States") {
        case Some(JObj(states)) =>
          aslDefinition := Put(newDefinition, "States", JObj(Put(states, stateName, JObj(stateDefinition))));
          AddedStateInObject(old(aslDefinition), stateName, stateType, states);
        case _ =>
          AddedStateOtherwise(old(aslDefinition), stateName, stateType);
      }
    }
  }

  // ---------------------------------------------------------------------
  // What `addState` changes

  /** The new state replaces any entry of that name; every other state and
      every other top-level field reads as before; a definition whose
      `States` is truthy but not an object is left alone. */
  lemma AddStateFrame(definition: Fields, name: string, stateType: string)
    ensures var r := AddedState(definition, name, stateType);
            && (!Accepts(definition) ==> r == definition)
            && (Accepts(definition) ==>
                  && Get(r, "States").Some? && Get(r, "States").value.JObj?
                  && Get(Get(r, "States").value.fields, name) == Some(JObj(Template(stateType, WithStates(definition))))
                  && (forall n :: n != name ==> Get(Get(r, "States").value.fields, n) == Get(StatesBefore(definition), n))
                  && (forall k :: k != "States" ==> Get(r, k) == Get(definition, k)))
  {
    var d := WithStates(definition);
    if !Truthy(Get(definition, "States")) {
      PutGet(definition, "States", JObj([]));
    }
    if Accepts(definition) {
      var states := StatesBefore(definition);
      var t := JObj(Template(stateType, d));
      PutGet(states, name, t);
      PutGet(d, "States", JObj(Put(states, name, t)));
    }
  }

  /** A falsy or missing `States` ends up holding just the new state. */
  lemma FalsyStatesReplaced(definition: Fields, name: string, stateType: string)
    requires !Truthy(Get(definition, "States"))
    ensures Get(AddedState(definition, name, stateType), "States")
            == Some(JObj([(name, JObj(Template(stateType, WithStates(definition))))]))
  {
    var d := WithStates(definition);
    PutGet(definition, "States", JObj([]));
    PutGet(d, "States", JObj([(name, JObj(Template(stateType, d)))]));
  }

  /** Every template has `Type` and no `Next`. All but Fail and Choice have
      `End: true` and `Type` equal to the requested type; Wait adds
      `Seconds: 5` and Task a `Resource`. Fail and Choice have no `End`. */
  lemma TemplateShape(stateType: string, definition: Fields)
    ensures var t := Template(stateType, definition);
            && Get(t, "Next").None?
            && Get(t, "Type") == Some(JStr(stateType))
            && (stateType != "Choice" && stateType != "Fail" ==> HasEnd(t))
            && (stateType == "Choice" || stateType == "Fail" ==> Get(t, "End").None?)
            && (stateType == "Wait" ==> Get(t, "Seconds") == Some(JNum(5)))
            && (stateType == "Task" ==> Get(t, "Resource") == Some(JStr(TaskResource)))
  {
    TemplateTypeAndNext(stateType, definition);
    TemplateEnd(stateType, definition);
    TemplateExtras(stateType, definition);
  }

  lemma TemplateTypeAndNext(stateType: string, definition: Fields)
    ensures Get(Template(stateType, definition), "Next").None?
    ensures Get(Template(stateType, definition), "Type") == Some(JStr(stateType))
  {
    var t := Template(stateType, definition);
    GetFirst(t, 0);
    GetMissing(t, "Next");
  }

  lemma TemplateEnd(stateType: string, definition: Fields)
    ensures stateType != "Choice" && stateType != "Fail" ==> HasEnd(Template(stateType, definition))
    ensures stateType == "Choice" || stateType == "Fail" ==> Get(Template(stateType, definition), "End").None?
  {
    var t := Template(stateType, definition);
    if stateType == "Choice" || stateType == "Fail" {
      GetMissing(t, "End");
    } else {
      GetFirst(t, 1);
    }
  }

  lemma TemplateExtras(stateType: string, definition: Fields)
    ensures stateType == "Wait" ==> Get(Template(stateType, definition), "Seconds") == Some(JNum(5))
    ensures stateType == "Task" ==> Get(Template(stateType, definition), "Resource") == Some(JStr(TaskResource))
  {
    if stateType == "Wait" || stateType == "Task" {
      GetFirst(Template(stateType, definition), 2);
    }
  }

  /** The Choice template: one rule, the computed `Default` when there is one,
      and neither `Next` nor `End`. */
  lemma ChoiceTemplateShape(definition: Fields)
    ensures var t := Template("Choice", definition);
            && Get(t, "Type") == Some(JStr("Choice"))
            && Get(t, "Choices") == Some(JArr([ChoiceRule()]))
            && Get(t, "Default") == ChoiceDefault(definition)
            && Get(t, "Next").None? && Get(t, "End").None?
  {
    var t := Template("Choice", definition);
    GetFirst(t, 0);
    GetFirst(t, 1);
    GetMissing(t, "Next");
    GetMissing(t, "End");
    if ChoiceDefault(definition).Some? {
      GetFirst(t, 2);
    } else {
      GetMissing(t, "Default");
    }
  }

  /** The Choice template's `Default` is the existing `StartAt` when truthy,
      else the first state name declared before the insertion, else absent. */
  lemma ChoiceDefaultRule(definition: Fields)
    ensures var t := Template("Choice", WithStates(definition));
            && (Truthy(Get(definition, "StartAt")) ==> Get(t, "Default") == Get(definition, "StartAt"))
            && (!Truthy(Get(definition, "StartAt")) && |StatesBefore(definition)| > 0
                ==> Get(t, "Default") == Some(JStr(StatesBefore(definition)[0].0)))
            && (!Truthy(Get(definition, "StartAt")) && |StatesBefore(definition)| == 0
                ==> Get(t, "Default").None?)
  {
    ChoiceTemplateShape(WithStates(definition));
    if !Truthy(Get(definition, "States")) {
      PutGet(definition, "States", JObj([]));
    }
  }

  lemma ParallelTemplateShape(definition: Fields)
    ensures Get(Template("Parallel", definition), "Branches") == Some(JArr([JObj(NestedScope("ParallelState"))]))
  {
    GetFirst(Template("Parallel", definition), 2);
  }

  lemma MapTemplateShape(definition: Fields)
    ensures Get(Template("Map", definition), "Iterator") == Some(JObj(NestedScope("MapState")))
  {
    GetFirst(Template("Map", definition), 3);
  }

  // ---------------------------------------------------------------------
  // What the validator says about the templates

  lemma ConcatEmpty(a: seq<Issue>, b: seq<Issue>, c: seq<Issue>, d: seq<Issue>, e: seq<Issue>)
    requires a == [] && b == [] && c == [] && d == [] && e == []
    ensures a + b + c + d + e == []
  {
  }

  /** A state that is not a Choice draws no issue when its transition rules,
      its nested scopes and its references report nothing. */
  lemma TypedStateEmpty(name: string, state: Fields, ty: string, names: seq<string>, statePath: string)
    requires ty != "Choice"
    requires TransitionIssues(name, state, ty, statePath) == []
    requires ty == "Parallel" ==> ParallelIssues(name, state, statePath) == []
    requires ty == "Map" ==> MapIssues(name, state, statePath) == []
    requires ReferenceIssues(name, state, ty, names, statePath) == []
    ensures TypedStateIssues(name, state, ty, names, statePath) == []
  {
    AslProperties.TypedStateLayout(name, state, ty, names, statePath);
    ConcatEmpty(TransitionIssues(name, state, ty, statePath),
                if ty == "Choice" then ChoiceShapeIssues(name, state, statePath) else [],
                if ty == "Parallel" then ParallelIssues(name, state, statePath) else [],
                if ty == "Map" then MapIssues(name, state, statePath) else [],
                ReferenceIssues(name, state, ty, names, statePath));
  }

  /** Without `Next`, with `End: true` and a type that may transition, the
      transition and reference rules report nothing. */
  lemma EndTransitionsEmpty(name: string, state: Fields, ty: string, names: seq<string>, statePath: string)
    requires ty != "Choice" && !IsTerminalType(ty)
    requires StrField(state, "Next").None? && HasEnd(state)
    ensures TransitionIssues(name, state, ty, statePath) == []
    ensures ReferenceIssues(name, state, ty, names, statePath) == []
  {
  }

  /** A state of a plain type that ends with `End: true` draws no issue. */
  lemma EndStateClean(name: string, state: Fields, ty: string, names: seq<string>, statePath: string)
    requires ty != "Choice" && ty != "Parallel" && ty != "Map" && !IsTerminalType(ty)
    requires StrField(state, "Next").None? && HasEnd(state)
    ensures TypedStateIssues(name, state, ty, names, statePath) == []
  {
    EndTransitionsEmpty(name, state, ty, names, statePath);
    TypedStateEmpty(name, state, ty, names, statePath);
  }

  /** A state of a plain type whose `Next` names a declared state, without
      `End`, draws no issue. */
  lemma LinkedStateClean(name: string, state: Fields, ty: string, names: seq<string>, statePath: string, target: string)
    requires ty != "Choice" && ty != "Parallel" && ty != "Map" && !IsTerminalType(ty)
    requires StrField(state, "Next") == Some(target) && target in names && !HasEnd(state)
    ensures TypedStateIssues(name, state, ty, names, statePath) == []
  {
    assert TransitionIssues(name, state, ty, statePath) == [];
    assert ReferenceIssues(name, state, ty, names, statePath) == [];
    TypedStateEmpty(name, state, ty, names, statePath);
  }

  lemma ChoiceRuleHasNoNext()
    ensures ChoiceRule().JObj? && StrField(ChoiceRule().fields, "Next").None?
  {
    GetMissing(ChoiceRule().fields, "Next");
  }

  /** `Pass` is a non-blank type with none of the type-specific rules. */
  lemma PassIsPlain()
    ensures !IsBlank("Pass")
    ensures "Pass" != "Choice" && "Pass" != "Parallel" && "Pass" != "Map" && !IsTerminalType("Pass")
  {
    assert !IsJsWhitespace("Pass"[0]);
  }

  /** A state object whose type is a non-blank string draws exactly the
      issues of its type's rules. */
  lemma StateTyped(name: string, state: Fields, ty: string, names: seq<string>, statePath: string)
    requires StrField(state, "Type") == Some(ty) && !IsBlank(ty)
    ensures StateIssues(name, JObj(state), names, statePath) == TypedStateIssues(name, state, ty, names, statePath)
  {
  }

  /** A scope whose `StartAt` is declared, whose states draw no issue and
      whose states are all reachable validates cleanly. */
  lemma ScopeEmpty(scope: Fields, scopePath: string, states: Fields, start: string)
    requires Get(scope, "States") == Some(JObj(states))
    requires StrField(scope, "StartAt") == Some(start) && start in Keys(states)
    requires EntriesIssues(states, |states|, Keys(states), JoinPath(scopePath, "States")) == []
    requires UnreachableWarnings(states, start, |states|, JoinPath(scopePath, "States")) == []
    ensures ScopeIssues(scope, scopePath) == []
  {
    var statesPath := JoinPath(scopePath, "States");
    var a := StartAtIssues(scope, scopePath, Some(Keys(states)));
    var e := EntriesIssues(states, |states|, Keys(states), statesPath);
    var r := ReachabilityIssues(scope, states, statesPath);
    assert a == [];
    assert r == [];
    assert ScopeIssues(scope, scopePath) == a + e + r;
    ConcatEmpty(a, e, r, [], []);
  }

  /** A walk of one state reaches that state. */
  lemma ReachesItself(states: Fields, a: string)
    requires a != ""
    ensures IsReachable(states, a, a)
  {
    assert IsWalk(states, [a]);
  }

  /** A declared state named by the start state's transitions is reachable. */
  lemma ReachesSuccessor(states: Fields, a: string, b: string, sa: Fields)
    requires a != "" && b != "" && b in Keys(states)
    requires Get(states, a) == Some(JObj(sa)) && b in Transitions(sa)
    ensures IsReachable(states, a, b)
  {
    assert StepAt(states, [a, b], 0);
    assert IsWalk(states, [a, b]);
  }

  /** The nested scope of the Parallel and Map templates validates cleanly. */
  lemma NestedScopeClean(start: string, scopePath: string)
    requires start != ""
    ensures ScopeIssues(NestedScope(start), scopePath) == []
  {
    var scope := NestedScope(start);
    var states := [(start, PassEnd())];
    var statesPath := JoinPath(scopePath, "States");
    assert Get(scope, "States") == Some(JObj(states));
    assert Keys(states) == [start];
    PassIsPlain();
    EndStateClean(start, PassEnd().fields, "Pass", [start], JoinPath(statesPath, start));
    StateTyped(start, PassEnd().fields, "Pass", [start], JoinPath(statesPath, start));
    assert EntriesIssues(states, 1, [start], statesPath) == [];
    ReachesItself(states, start);
    assert UnreachableWarnings(states, start, 1, statesPath) == [];
    ScopeEmpty(scope, scopePath, states, start);
  }

  lemma ParallelIssuesEmpty(name: string, state: Fields, statePath: string, branch: Fields)
    requires Get(state, "Branches") == Some(JArr([JObj(branch)]))
    requires ScopeIssues(branch, IndexPath(JoinPath(statePath, "Branches"), 0)) == []
    ensures ParallelIssues(name, state, statePath) == []
  {
    var bs := [JObj(branch)];
    var branchesPath := JoinPath(statePath, "Branches");
    assert BranchesIssues(name, bs, 1, branchesPath) == BranchesIssues(name, bs, 0, branchesPath) + [];
  }

  lemma MapIssuesEmpty(name: string, state: Fields, statePath: string, body: Fields)
    requires Get(state, "Iterator") == Some(JObj(body))
    requires ScopeIssues(body, JoinPath(statePath, "Iterator")) == []
    ensures MapIssues(name, state, statePath) == []
  {
  }

  /** A Parallel state ending with `End: true` whose single branch validates
      cleanly draws no issue. */
  lemma ParallelStateClean(name: string, state: Fields, names: seq<string>, statePath: string, branch: Fields)
    requires StrField(state, "Next").None? && HasEnd(state)
    requires Get(state, "Branches") == Some(JArr([JObj(branch)]))
    requires ScopeIssues(branch, IndexPath(JoinPath(statePath, "Branches"), 0)) == []
    ensures TypedStateIssues(name, state, "Parallel", names, statePath) == []
  {
    ParallelIssuesEmpty(name, state, statePath, branch);
    EndTransitionsEmpty(name, state, "Parallel", names, statePath);
    TypedStateEmpty(name, state, "Parallel", names, statePath);
  }

  /** A Map state ending with `End: true` whose iterator validates cleanly
      draws no issue. */
  lemma MapStateClean(name: string, state: Fields, names: seq<string>, statePath: string, body: Fields)
    requires StrField(state, "Next").None? && HasEnd(state)
    requires Get(state, "Iterator") == Some(JObj(body))
    requires ScopeIssues(body, JoinPath(statePath, "Iterator")) == []
    ensures TypedStateIssues(name, state, "Map", names, statePath) == []
  {
    MapIssuesEmpty(name, state, statePath, body);
    EndTransitionsEmpty(name, state, "Map", names, statePath);
    TypedStateEmpty(name, state, "Map", names, statePath);
  }

  /** Every template but Choice's validates cleanly as a state when its type
      is not blank and is not Succeed: End-terminated states, the Fail state
      (which needs no transition), and the Parallel and Map states with their
      nested scopes. */
  lemma TemplateClean(stateType: string, definition: Fields, name: string, names: seq<string>, statePath: string)
    requires !IsBlank(stateType) && stateType != "Choice" && stateType != "Succeed"
    ensures StateIssues(name, JObj(Template(stateType, definition)), names, statePath) == []
  {
    var t := Template(stateType, definition);
    TemplateShape(stateType, definition);
    assert StateIssues(name, JObj(t), names, statePath) == TypedStateIssues(name, t, stateType, names, statePath);
    if stateType == "Fail" {
      assert TypedStateIssues(name, t, "Fail", names, statePath) == [];
    } else if stateType == "Parallel" {
      ParallelTemplateShape(definition);
      NestedScopeClean("ParallelState", IndexPath(JoinPath(statePath, "Branches"), 0));
      ParallelStateClean(name, t, names, statePath, NestedScope("ParallelState"));
    } else if stateType == "Map" {
      MapTemplateShape(definition);
      NestedScopeClean("MapState", JoinPath(statePath, "Iterator"));
      MapStateClean(name, t, names, statePath, NestedScope("MapState"));
    } else {
      EndStateClean(name, t, stateType, names, statePath);
    }
  }

  /** A Succeed template keeps `End: true`, which draws the terminal-state
      warning and nothing else. */
  lemma SucceedTemplateWarns(definition: Fields, name: string, names: seq<string>, statePath: string)
    ensures StateIssues(name, JObj(Template("Succeed", definition)), names, statePath)
            == [Issue(TerminalTransition("Succeed"), statePath, Some(name))]
  {
    var t := Template("Succeed", definition);
    TemplateShape("Succeed", definition);
    assert !IsJsWhitespace("Succeed"[0]);
    assert TypedStateIssues(name, t, "Succeed", names, statePath)
           == [Issue(TerminalTransition("Succeed"), statePath, Some(name))];
  }

  /** The Choice template's only rule has no `Next`, which the validator
      reports at `.Choices[0].Next`. */
  lemma ChoiceTemplateStateFlagged(definition: Fields, name: string, names: seq<string>, statePath: string)
    ensures Issue(ChoiceWithoutNext, JoinPath(IndexPath(JoinPath(statePath, "Choices"), 0), "Next"), Some(name))
              in StateIssues(name, JObj(Template("Choice", definition)), names, statePath)
  {
    var t := Template("Choice", definition);
    ChoiceTemplateShape(definition);
    assert !IsBlank("Choice") by {
      assert !IsJsWhitespace("Choice"[0]);
    }
    StateTyped(name, t, "Choice", names, statePath);
    ChoiceRuleHasNoNext();
    AslProperties.ChoiceItemRules(name, t, names, statePath, 0);
  }

  /** Validating the definition after adding a Choice reports its rule at
      `.Choices[0].Next`. */
  lemma ChoiceTemplateFlagged(definition: Fields, name: string)
    requires Accepts(definition)
    ensures var statePath := JoinPath(JoinPath("<root>", "States"), name);
            Issue(ChoiceWithoutNext, JoinPath(IndexPath(JoinPath(statePath, "Choices"), 0), "Next"), Some(name))
              in AslIssues(JObj(AddedState(definition, name, "Choice")))
  {
    var r := AddedState(definition, name, "Choice");
    AddStateFrame(definition, name, "Choice");
    var states := Get(r, "States").value.fields;
    var t := JObj(Template("Choice", WithStates(definition)));
    assert (name, t) in states;
    var i :| 0 <= i < |states| && states[i] == (name, t);
    var statePath := JoinPath(JoinPath("<root>", "States"), name);
    ChoiceTemplateStateFlagged(WithStates(definition), name, Keys(states), statePath);
    AslProperties.ScopeContainsState(r, "<root>", i);
  }

  /** A scope of two states of plain types, the first leading to the second
      by `Next` and the second ending with `End: true`, starting at the
      first, validates with no issue. */
  lemma LinearScopeClean(scope: Fields, scopePath: string, a: string, b: string, sa: Fields, sb: Fields, ta: string, tb: string)
    requires a != "" && b != "" && a != b
    requires StrField(scope, "StartAt") == Some(a)
    requires Get(scope, "States") == Some(JObj([(a, JObj(sa)), (b, JObj(sb))]))
    requires StrField(sa, "Type") == Some(ta) && !IsBlank(ta)
    requires ta != "Choice" && ta != "Parallel" && ta != "Map" && !IsTerminalType(ta)
    requires StrField(sa, "Next") == Some(b) && !HasEnd(sa)
    requires StrField(sb, "Type") == Some(tb) && !IsBlank(tb)
    requires tb != "Choice" && tb != "Parallel" && tb != "Map" && !IsTerminalType(tb)
    requires StrField(sb, "Next").None? && HasEnd(sb)
    ensures ScopeIssues(scope, scopePath) == []
  {
    var states := [(a, JObj(sa)), (b, JObj(sb))];
    var statesPath := JoinPath(scopePath, "States");
    assert Keys(states) == [a, b];
    assert EntriesIssues(states, 2, [a, b], statesPath) == [] by {
      LinkedStateClean(a, sa, ta, [a, b], JoinPath(statesPath, a), b);
      StateTyped(a, sa, ta, [a, b], JoinPath(statesPath, a));
      EndStateClean(b, sb, tb, [a, b], JoinPath(statesPath, b));
      StateTyped(b, sb, tb, [a, b], JoinPath(statesPath, b));
      assert EntriesIssues(states, 1, [a, b], statesPath) == [];
    }
    assert UnreachableWarnings(states, a, 2, statesPath) == [] by {
      ReachesItself(states, a);
      assert Get(states, a) == Some(JObj(sa));
      assert b in Transitions(sa);
      ReachesSuccessor(states, a, b, sa);
      assert UnreachableWarnings(states, a, 1, statesPath) == [];
    }
    ScopeEmpty(scope, scopePath, states, a);
  }


  /** The initial definition validates with no issues. */
  lemma InitialAslClean()
    ensures AslIssues(JObj(InitialAsl())) == []
  {
    InitialShape();
    PassIsPlain();
    assert "Hello" != "World";
    LinearScopeClean(InitialAsl(), "<root>", "Hello", "World", InitialHello(), InitialWorld(), "Pass", "Pass");
  }

  lemma InitialShape()
    ensures StrField(InitialAsl(), "StartAt") == Some("Hello")
    ensures Get(InitialAsl(), "States") == Some(JObj([("Hello", JObj(InitialHello())), ("World", JObj(InitialWorld()))]))
    ensures StrField(InitialHello(), "Type") == Some("Pass") && StrField(InitialHello(), "Next") == Some("World")
    ensures !HasEnd(InitialHello())
    ensures StrField(InitialWorld(), "Type") == Some("Pass") && StrField(InitialWorld(), "Next").None?
    ensures HasEnd(InitialWorld())
  {
  }

}
