/** The validator of src/validation/asl.ts as the source runs it: loops that
    push onto a shared issue list, a recursive call per nested scope, and a
    stack/visited-set traversal for reachability. Every method returns the
    list it was given extended by exactly the issues the specification
    functions of module Asl prescribe. */
module AslValidator {
  import opened JsonModel
  import opened Text
  import opened Asl

  // ---------------------------------------------------------------------
  // getTransitionsForState

  /** The `for (const choice of choices)` loop. */
  method PushChoiceTargets(transitions: seq<string>, items: seq<Json>) returns (out: seq<string>)
    ensures out == transitions + ChoiceNextTargets(items, |items|)
  {
    out := transitions;
    for i := 0 to |items|
      invariant out == transitions + ChoiceNextTargets(items, i)
    {
      var choice := items[i];
      ghost var piece := RuleTargets(choice);
      assert ChoiceNextTargets(items, i + 1) == ChoiceNextTargets(items, i) + piece;
      ghost var before := out;
      if choice.JObj? {
        var choiceNext := Get(choice.fields, "Next");
        if choiceNext.Some? && choiceNext.value.JStr? {
          out := out + [choiceNext.value.s];
        }
      }
      assert out == before + piece;
      AppendAssoc(transitions, ChoiceNextTargets(items, i), piece);
    }
  }

  /** The `for (const branch of branches)` loop. */
  method PushBranchTargets(transitions: seq<string>, bs: seq<Json>) returns (out: seq<string>)
    ensures out == transitions + BranchStartTargets(bs, |bs|)
  {
    out := transitions;
    for i := 0 to |bs|
      invariant out == transitions + BranchStartTargets(bs, i)
    {
      var branch := bs[i];
      ghost var piece := BranchTargets(branch);
      assert BranchStartTargets(bs, i + 1) == BranchStartTargets(bs, i) + piece;
      ghost var before := out;
      if branch.JObj? {
        var branchStartAt := Get(branch.fields, "StartAt");
        var branchStates := Get(branch.fields, "States");
        if branchStartAt.Some? && branchStartAt.value.JStr? && branchStates.Some? && branchStates.value.JObj? {
          out := out + [branchStartAt.value.s];
        }
      }
      assert out == before + piece;
      AppendAssoc(transitions, BranchStartTargets(bs, i), piece);
    }
  }

  /** The `stateType === "Choice"` block: every `Choices[i].Next`, then `Default`. */
  method PushChoiceBlock(transitions: seq<string>, state: Fields) returns (out: seq<string>)
    ensures out == transitions
                   + (match Get(state, "Choices") case Some(JArr(items)) => ChoiceNextTargets(items, |items|) case _ => [])
                   + DefaultTargets(state)
  {
    out := transitions;
    var choices := Get(state, "Choices");
    if choices.Some? && choices.value.JArr? {
      out := PushChoiceTargets(out, choices.value.items);
    }
    ghost var afterChoices := out;
    var defaultTarget := Get(state, "Default");
    if defaultTarget.Some? && defaultTarget.value.JStr? {
      out := out + [defaultTarget.value.s];
    }
  }

  /** The `stateType === "Map"` block. */
  method PushIteratorTarget(transitions: seq<string>, state: Fields) returns (out: seq<string>)
    ensures out == transitions + IteratorTargets(state)
  {
    out := transitions;
    var iteratorField := Get(state, "Iterator");
    if iteratorField.Some? && iteratorField.value.JObj? {
      var iteratorStartAt := Get(iteratorField.value.fields, "StartAt");
      if iteratorStartAt.Some? && iteratorStartAt.value.JStr? {
        out := out + [iteratorStartAt.value.s];
      }
    }
  }

  /** `getTransitionsForState`. */
  method TransitionsForState(state: Fields) returns (transitions: seq<string>)
    ensures transitions == Transitions(state)
  {
    var stateType := Get(state, "Type");
    ghost var nt := NextTargets(state);
    ghost var ct := if stateType == Some(JStr("Choice")) then
                      (match Get(state, "Choices") case Some(JArr(items)) => ChoiceNextTargets(items, |items|) case _ => [])
                      + DefaultTargets(state)
                    else [];
    ghost var pt := if stateType == Some(JStr("Parallel")) then
                      (match Get(state, "Branches") case Some(JArr(bs)) => BranchStartTargets(bs, |bs|) case _ => [])
                    else [];
    ghost var mt := if stateType == Some(JStr("Map")) then IteratorTargets(state) else [];
    transitions := [];
    var next := Get(state, "Next");
    if next.Some? && next.value.JStr? {
      transitions := transitions + [next.value.s];
    }
    assert transitions == nt;
    if stateType == Some(JStr("Choice")) {
      transitions := PushChoiceBlock(transitions, state);
      AppendAssoc(nt, (match Get(state, "Choices") case Some(JArr(items)) => ChoiceNextTargets(items, |items|) case _ => []),
                  DefaultTargets(state));
    }
    assert transitions == nt + ct;
    if stateType == Some(JStr("Parallel")) {
      var branches := Get(state, "Branches");
      if branches.Some? && branches.value.JArr? {
        transitions := PushBranchTargets(transitions, branches.value.items);
      }
    }
    assert transitions == nt + ct + pt;
    if stateType == Some(JStr("Map")) {
      transitions := PushIteratorTarget(transitions, state);
    }
    assert transitions == nt + ct + pt + mt;
  }

  // ---------------------------------------------------------------------
  // Reachability

  /** The `for (const next of nextStates)` loop: pushes every declared,
      not yet visited target. */
  method PushUnvisited(stack: seq<string>, targets: seq<string>, names: seq<string>, reachable: set<string>)
    returns (out: seq<string>)
    ensures |out| >= |stack| && forall k :: 0 <= k < |stack| ==> out[k] == stack[k]
    ensures forall k :: |stack| <= k < |out| ==> out[k] in names && out[k] in targets
    ensures forall t :: t in targets && t in names ==> t in reachable || t in out
  {
    out := stack;
    for i := 0 to |targets|
      invariant |out| >= |stack| && forall k :: 0 <= k < |stack| ==> out[k] == stack[k]
      invariant forall k :: |stack| <= k < |out| ==> out[k] in names && out[k] in targets
      invariant forall j :: 0 <= j < i && targets[j] in names ==> targets[j] in reachable || targets[j] in out
    {
      var next := targets[i];
      if next in names && next !in reachable {
        out := out + [next];
      }
    }
  }

  /** The loop invariant of the reachability pass: everything visited or
      pending lies in the declared names plus `StartAt`, is reached by a walk
      from `StartAt`, and every step out of the visited set ends on the empty
      name, in the set, or on the stack. */
  ghost predicate Frontier(states: Fields, start: string, universe: set<string>, r: set<string>, stack: seq<string>) {
    && r <= universe
    && (forall k :: 0 <= k < |stack| ==> stack[k] in universe)
    && (forall x :: x in r ==> x != "" && Reaches(states, start, x))
    && (forall k :: 0 <= k < |stack| ==> Reaches(states, start, stack[k]))
    && (start == "" || start in r || start in stack)
    && ClosedModulo(states, r, stack)
  }

  /** Every step out of the visited set lands in it, in the pending stack, or on
      the empty name. */
  ghost predicate ClosedModulo(states: Fields, r: set<string>, pending: seq<string>) {
    forall x, y :: x in r && Step(states, x, y) ==> y == "" || y in r || y in pending
  }

  /** The reachability pass: a stack seeded with `StartAt`, a visited set, and
      pushes restricted to declared names. On return, a declared name is in
      the set exactly when some walk from `StartAt` reaches it. */
  method ReachableFrom(states: Fields, start: string) returns (reachable: set<string>)
    ensures forall n :: n in Keys(states) ==> (n in reachable <==> IsReachable(states, start, n))
  {
    var names := Keys(states);
    ghost var universe := (set n | n in names) + {start};
    reachable := {};
    var stack := [start];
    FrontierStart(states, start, universe);
    while |stack| > 0
      invariant Frontier(states, start, universe, reachable, stack)
      decreases |universe - reachable|, |stack|
    {
      reachable, stack := Pop(states, start, names, universe, reachable, stack);
    }
    FrontierExhausted(states, start, universe, reachable, stack);
  }

  /** Before the first pop, only `StartAt` is pending. */
  lemma FrontierStart(states: Fields, start: string, universe: set<string>)
    requires start in universe
    ensures Frontier(states, start, universe, {}, [start])
  {
    assert IsWalk(states, [start]);
  }

  /** One iteration of the traversal loop: pop a name, skip it when it is empty
      or visited, otherwise visit it. Either the visited set grows or the stack
      shrinks. */
  method Pop(states: Fields, start: string, names: seq<string>, ghost universe: set<string>,
             r: set<string>, stack: seq<string>)
    returns (r': set<string>, stack': seq<string>)
    requires names == Keys(states)
    requires universe == (set n | n in names) + {start}
    requires |stack| > 0
    requires Frontier(states, start, universe, r, stack)
    ensures Frontier(states, start, universe, r', stack')
    ensures (r' == r && |stack'| < |stack|) || |universe - r'| < |universe - r|
  {
    var current := stack[|stack| - 1];
    if current == "" || current in r {
      DropVisited(states, start, universe, r, stack);
      r', stack' := r, stack[..|stack| - 1];
    } else {
      assert current in universe;
      assert universe - (r + {current}) < universe - r;
      r', stack' := Visit(states, start, names, universe, r, stack);
    }
  }

  /** With nothing pending, the visited set is exactly the reachable names. */
  lemma FrontierExhausted(states: Fields, start: string, universe: set<string>, r: set<string>, stack: seq<string>)
    requires |stack| == 0
    requires Frontier(states, start, universe, r, stack)
    ensures forall n :: n in Keys(states) ==> (n in r <==> IsReachable(states, start, n))
  {
    forall n | IsReachable(states, start, n) ensures n in r {
      ClosedSetContainsReached(states, start, r, n);
    }
  }

  /** Popping a name that is empty or already visited keeps the invariant. */
  lemma DropVisited(states: Fields, start: string, universe: set<string>, r: set<string>, stack: seq<string>)
    requires |stack| > 0 && (stack[|stack| - 1] == "" || stack[|stack| - 1] in r)
    requires Frontier(states, start, universe, r, stack)
    ensures Frontier(states, start, universe, r, stack[..|stack| - 1])
  {
    var rest, current := stack[..|stack| - 1], stack[|stack| - 1];
    assert stack == rest + [current];
    forall k | 0 <= k < |rest| ensures rest[k] in universe && Reaches(states, start, rest[k]) {
      assert rest[k] == (rest + [current])[k];
    }
    forall x, y | x in r && Step(states, x, y) ensures y == "" || y in r || y in rest {
      assert y == "" || y in r || y in rest + [current];
    }
  }

  /** The visit of a popped name not seen before: mark it, and push its
      declared, unvisited targets. */
  method Visit(states: Fields, start: string, names: seq<string>, ghost universe: set<string>,
               r: set<string>, stack: seq<string>)
    returns (r': set<string>, stack': seq<string>)
    requires names == Keys(states)
    requires universe == (set n | n in names) + {start}
    requires |stack| > 0 && stack[|stack| - 1] != "" && stack[|stack| - 1] !in r
    requires Frontier(states, start, universe, r, stack)
    ensures r' == r + {stack[|stack| - 1]}
    ensures Frontier(states, start, universe, r', stack')
  {
    var current := stack[|stack| - 1];
    var rest := stack[..|stack| - 1];
    r' := r + {current};
    var currentState := Get(states, current);
    if !(currentState.Some? && currentState.value.JObj?) {
      VisitKeepsFrontier(states, start, universe, r, stack, rest);
      stack' := rest;
      return;
    }
    var nextStates := TransitionsForState(currentState.value.fields);
    stack' := PushUnvisited(rest, nextStates, names, r');
    assert Reaches(states, start, stack[|stack| - 1]);
    forall k | |rest| <= k < |stack'| ensures stack'[k] in universe && Reaches(states, start, stack'[k]) {
      StepExtendsWalk(states, start, current, stack'[k]);
    }
    VisitKeepsFrontier(states, start, universe, r, stack, stack');
  }

  /** Marking the popped name, once its successors are visited or pending,
      keeps the invariant. */
  lemma VisitKeepsFrontier(states: Fields, start: string, universe: set<string>, r: set<string>,
                           stack: seq<string>, pushed: seq<string>)
    requires |stack| > 0 && stack[|stack| - 1] != ""
    requires Frontier(states, start, universe, r, stack)
    requires |pushed| >= |stack| - 1 && forall k :: 0 <= k < |stack| - 1 ==> pushed[k] == stack[k]
    requires forall k :: |stack| - 1 <= k < |pushed| ==> pushed[k] in universe && Reaches(states, start, pushed[k])
    requires forall y :: Step(states, stack[|stack| - 1], y) ==> y in r || y == stack[|stack| - 1] || y in pushed
    ensures Frontier(states, start, universe, r + {stack[|stack| - 1]}, pushed)
  {
    var current := stack[|stack| - 1];
    forall k | 0 <= k < |pushed| ensures pushed[k] in universe && Reaches(states, start, pushed[k]) {
      if k < |stack| - 1 {
        assert pushed[k] == stack[k];
      }
    }
    assert start == "" || start in r || start == current || start in pushed by {
      if start in stack {
        var k :| 0 <= k < |stack| && stack[k] == start;
        if k < |stack| - 1 { assert pushed[k] == start; }
      }
    }
    forall x, y | x in r + {current} && Step(states, x, y) ensures y == "" || y in r + {current} || y in pushed {
      if x != current {
        assert y == "" || y in r || y in stack;
        if y in stack {
          var k :| 0 <= k < |stack| && stack[k] == y;
          if k < |stack| - 1 { assert pushed[k] == y; }
        }
      }
    }
  }

  lemma StepExtendsWalk(states: Fields, start: string, x: string, y: string)
    requires Reaches(states, start, x) && Step(states, x, y)
    ensures Reaches(states, start, y)
  {
    var p :| IsWalk(states, p) && p[0] == start && p[|p| - 1] == x;
    WalkSnoc(states, p, y);
    var q := p + [y];
    assert q[0] == start && q[|q| - 1] == y;
  }

  /** A walk followed by a step from its last name is a walk. */
  lemma WalkSnoc(states: Fields, p: seq<string>, y: string)
    requires IsWalk(states, p) && Step(states, p[|p| - 1], y)
    ensures IsWalk(states, p + [y])
  {
    var q := p + [y];
    forall k | 0 <= k < |q| - 1 ensures StepAt(states, q, k) {
      if k < |p| - 1 {
        StepAtPrefix(states, p, q, k);
      } else {
        StepAtLast(states, p, y);
      }
    }
  }

  lemma StepAtLast(states: Fields, p: seq<string>, y: string)
    requires |p| > 0 && Step(states, p[|p| - 1], y)
    ensures StepAt(states, p + [y], |p| - 1)
  {
    var q := p + [y];
    assert q[|p| - 1] == p[|p| - 1] && q[|p|] == y;
  }

  /** A step of a walk is a step of every walk extending it. */
  lemma StepAtPrefix(states: Fields, p: seq<string>, q: seq<string>, k: nat)
    requires k + 1 < |p| <= |q| && q[..|p|] == p
    requires StepAt(states, p, k)
    ensures StepAt(states, q, k)
  {
    assert q[k] == p[k] && q[k + 1] == p[k + 1];
  }

  /** A visited set closed under steps that contains the start holds every
      non-empty name some walk reaches. */
  lemma ClosedSetContainsReached(states: Fields, start: string, r: set<string>, n: string)
    requires start == "" || start in r
    requires forall x, y :: x in r && Step(states, x, y) ==> y == "" || y in r
    requires IsReachable(states, start, n)
    ensures n in r
  {
    var p :| IsWalk(states, p) && p[0] == start && p[|p| - 1] == n;
    if |p| > 1 {
      assert StepAt(states, p, 0);
    }
    var k := 0;
    while k < |p| - 1
      invariant 0 <= k <= |p| - 1
      invariant p[k] in r
    {
      assert StepAt(states, p, k);
      if k + 1 < |p| - 1 {
        assert StepAt(states, p, k + 1);
      }
      k := k + 1;
    }
  }

  // ---------------------------------------------------------------------
  // Per-state checks

  /** The `Next`/`End` rules of one typed state. */
  method CheckTransitions(issues: seq<Issue>, name: string, state: Fields, ty: string, statePath: string)
    returns (out: seq<Issue>)
    ensures out == issues + TransitionIssues(name, state, ty, statePath)
  {
    out := issues;
    var hasNext := StrField(state, "Next").Some?;
    var hasEnd := Get(state, "End") == Some(JBool(true));
    if hasNext && hasEnd {
      out := out + [Issue(NextAndEnd, statePath, Some(name))];
    }
    var isTerminalType := ty == "Succeed" || ty == "Fail";
    if !isTerminalType && !hasNext && !hasEnd && ty != "Choice" {
      out := out + [Issue(NoNextOrEnd, statePath, Some(name))];
    }
    var end := Get(state, "End");
    if isTerminalType && (hasNext || (end.Some? && end.value.JBool?)) {
      out := out + [Issue(TerminalTransition(ty), statePath, Some(name))];
    }
  }

  /** The `choices.forEach` shape loop. */
  method CheckChoiceItems(issues: seq<Issue>, name: string, items: seq<Json>, choicesPath: string)
    returns (out: seq<Issue>)
    ensures out == issues + ChoiceItemIssues(name, items, |items|, choicesPath)
  {
    out := issues;
    for idx := 0 to |items|
      invariant out == issues + ChoiceItemIssues(name, items, idx, choicesPath)
    {
      var choicePath := IndexPath(choicesPath, idx);
      var choice := items[idx];
      if !choice.JObj? {
        out := out + [Issue(ChoiceNotObject, choicePath, Some(name))];
      } else if StrField(choice.fields, "Next").None? {
        out := out + [Issue(ChoiceWithoutNext, JoinPath(choicePath, "Next"), Some(name))];
      }
    }
  }

  /** The `Choices` shape checks and the `End`/`Next` rules of a Choice state. */
  method CheckChoiceShape(issues: seq<Issue>, name: string, state: Fields, statePath: string)
    returns (out: seq<Issue>)
    ensures out == issues + ChoiceShapeIssues(name, state, statePath)
  {
    out := issues;
    var choicesPath := JoinPath(statePath, "Choices");
    var choices := Get(state, "Choices");
    if !(choices.Some? && choices.value.JArr?) || |choices.value.items| == 0 {
      out := out + [Issue(ChoicesEmpty, choicesPath, Some(name))];
    } else {
      out := CheckChoiceItems(out, name, choices.value.items, choicesPath);
    }
    ghost var afterItems := out;
    var end := Get(state, "End");
    if end.Some? && end.value.JBool? {
      out := out + [Issue(ChoiceHasEnd, JoinPath(statePath, "End"), Some(name))];
    }
    ghost var afterEnd := out;
    if StrField(state, "Next").Some? {
      out := out + [Issue(ChoiceHasNext, JoinPath(statePath, "Next"), Some(name))];
    }
  }

  /** The `branches.forEach` loop: each object branch is validated as a
      nested scope at `Branches[idx]`. */
  method CheckBranches(issues: seq<Issue>, name: string, bs: seq<Json>, branchesPath: string)
    returns (out: seq<Issue>)
    ensures out == issues + BranchesIssues(name, bs, |bs|, branchesPath)
    decreases JArr(bs), 0
  {
    out := issues;
    for idx := 0 to |bs|
      invariant out == issues + BranchesIssues(name, bs, idx, branchesPath)
    {
      var branchPath := IndexPath(branchesPath, idx);
      var branch := bs[idx];
      ghost var prev := BranchesIssues(name, bs, idx, branchesPath);
      ghost var piece := match branch
                         case JObj(b) => ScopeIssues(b, branchPath)
                         case _ => [Issue(BranchNotObject, branchPath, Some(name))];
      assert BranchesIssues(name, bs, idx + 1, branchesPath) == prev + piece;
      if !branch.JObj? {
        out := out + [Issue(BranchNotObject, branchPath, Some(name))];
      } else {
        out := ValidateScope(out, branch.fields, branchPath);
      }
      AppendAssoc(issues, prev, piece);
    }
  }

  /** The `Branches` checks of a Parallel state. */
  method CheckParallel(issues: seq<Issue>, name: string, state: Fields, statePath: string)
    returns (out: seq<Issue>)
    ensures out == issues + ParallelIssues(name, state, statePath)
    decreases JObj(state), 0
  {
    var branchesPath := JoinPath(statePath, "Branches");
    var branches := Get(state, "Branches");
    if !(branches.Some? && branches.value.JArr?) || |branches.value.items| == 0 {
      out := issues + [Issue(BranchesEmpty, branchesPath, Some(name))];
    } else {
      out := CheckBranches(issues, name, branches.value.items, branchesPath);
    }
  }

  /** The `Iterator` check of a Map state. */
  method CheckMap(issues: seq<Issue>, name: string, state: Fields, statePath: string)
    returns (out: seq<Issue>)
    ensures out == issues + MapIssues(name, state, statePath)
    decreases JObj(state), 0
  {
    var iteratorPath := JoinPath(statePath, "Iterator");
    var iteratorField := Get(state, "Iterator");
    if !(iteratorField.Some? && iteratorField.value.JObj?) {
      out := issues + [Issue(IteratorNotObject, iteratorPath, Some(name))];
    } else {
      out := ValidateScope(issues, iteratorField.value.fields, iteratorPath);
    }
  }

  /** The `state.Choices.forEach` reference loop. */
  method CheckChoiceReferences(issues: seq<Issue>, name: string, items: seq<Json>, names: seq<string>, choicesPath: string)
    returns (out: seq<Issue>)
    ensures out == issues + ChoiceReferenceIssues(name, items, |items|, names, choicesPath)
  {
    out := issues;
    for idx := 0 to |items|
      invariant out == issues + ChoiceReferenceIssues(name, items, idx, names, choicesPath)
    {
      var choice := items[idx];
      if choice.JObj? {
        var choiceNext := StrField(choice.fields, "Next");
        if choiceNext.Some? && choiceNext.value !in names {
          out := out + [Issue(ChoiceNextMissing(idx, choiceNext.value), JoinPath(IndexPath(choicesPath, idx), "Next"), Some(name))];
        }
      }
    }
  }

  /** The reference checks: `Next`, and for a Choice its `Default` and every
      `Choices[i].Next`, against the names of the enclosing scope. */
  method CheckReferences(issues: seq<Issue>, name: string, state: Fields, ty: string, names: seq<string>, statePath: string)
    returns (out: seq<Issue>)
    ensures out == issues + ReferenceIssues(name, state, ty, names, statePath)
  {
    ghost var np := match StrField(state, "Next")
                    case Some(t) => if t !in names then [Issue(NextMissing(t), JoinPath(statePath, "Next"), Some(name))] else []
                    case None => [];
    ghost var dp := match StrField(state, "Default")
                    case Some(d) => if d !in names then [Issue(DefaultMissing(d), JoinPath(statePath, "Default"), Some(name))] else []
                    case None => [];
    ghost var cp := match Get(state, "Choices")
                    case Some(JArr(items)) => ChoiceReferenceIssues(name, items, |items|, names, JoinPath(statePath, "Choices"))
                    case _ => [];
    assert ReferenceIssues(name, state, ty, names, statePath) == np + (if ty == "Choice" then dp + cp else []);
    out := issues;
    var next := StrField(state, "Next");
    if next.Some? && next.value !in names {
      out := out + [Issue(NextMissing(next.value), JoinPath(statePath, "Next"), Some(name))];
    }
    assert out == issues + np;
    if ty == "Choice" {
      var defaultTarget := StrField(state, "Default");
      if defaultTarget.Some? && defaultTarget.value !in names {
        out := out + [Issue(DefaultMissing(defaultTarget.value), JoinPath(statePath, "Default"), Some(name))];
      }
      assert out == issues + np + dp;
      var choices := Get(state, "Choices");
      if choices.Some? && choices.value.JArr? {
        out := CheckChoiceReferences(out, name, choices.value.items, names, JoinPath(statePath, "Choices"));
      }
      assert out == issues + np + dp + cp;
      AppendAssoc(issues + np, dp, cp);
      AppendAssoc(issues, np, dp + cp);
    } else {
      assert np + [] == np;
    }
  }

  /** The checks of a state whose `Type` is a non-blank string. */
  method ValidateTypedState(issues: seq<Issue>, name: string, state: Fields, ty: string, names: seq<string>, statePath: string)
    returns (out: seq<Issue>)
    ensures out == issues + TypedStateIssues(name, state, ty, names, statePath)
    decreases JObj(state), 1
  {
    ghost var t := TransitionIssues(name, state, ty, statePath);
    ghost var cs := if ty == "Choice" then ChoiceShapeIssues(name, state, statePath) else [];
    ghost var ps := if ty == "Parallel" then ParallelIssues(name, state, statePath) else [];
    ghost var ms := if ty == "Map" then MapIssues(name, state, statePath) else [];
    ghost var rs := ReferenceIssues(name, state, ty, names, statePath);
    out := CheckTransitions(issues, name, state, ty, statePath);
    if ty == "Choice" {
      out := CheckChoiceShape(out, name, state, statePath);
    }
    assert out == issues + t + cs;
    if ty == "Parallel" {
      out := CheckParallel(out, name, state, statePath);
    }
    assert out == issues + t + cs + ps;
    if ty == "Map" {
      out := CheckMap(out, name, state, statePath);
    }
    assert out == issues + t + cs + ps + ms;
    out := CheckReferences(out, name, state, ty, names, statePath);
    AppendAssoc(issues, t, cs);
    AppendAssoc(issues, t + cs, ps);
    AppendAssoc(issues, t + cs + ps, ms);
    AppendAssoc(issues, t + cs + ps + ms, rs);
    assert TypedStateIssues(name, state, ty, names, statePath) == t + cs + ps + ms + rs;
  }

  /** The loop body of the per-state pass. */
  method ValidateState(issues: seq<Issue>, name: string, raw: Json, names: seq<string>, statePath: string)
    returns (out: seq<Issue>)
    ensures out == issues + StateIssues(name, raw, names, statePath)
    decreases raw, 2
  {
    if !raw.JObj? {
      out := issues + [Issue(StateNotObject, statePath, Some(name))];
      return;
    }
    var stateType := StrField(raw.fields, "Type");
    if stateType.None? || IsBlank(stateType.value) {
      out := issues + [Issue(TypeMissing, JoinPath(statePath, "Type"), Some(name))];
      return;
    }
    out := ValidateTypedState(issues, name, raw.fields, stateType.value, names, statePath);
  }

  // ---------------------------------------------------------------------
  // Scopes

  lemma AppendAssoc<T>(a: seq<T>, b: seq<T>, c: seq<T>)
    ensures (a + b) + c == a + (b + c)
  {
  }

  /** The `for (const [stateName, rawState] of Object.entries(states))` loop. */
  method ValidateEntries(issues: seq<Issue>, states: Fields, names: seq<string>, statesPath: string)
    returns (out: seq<Issue>)
    ensures out == issues + EntriesIssues(states, |states|, names, statesPath)
    decreases JObj(states), |states| + 1
  {
    out := issues;
    for i := 0 to |states|
      invariant out == issues + EntriesIssues(states, i, names, statesPath)
    {
      var stateName := states[i].0;
      out := ValidateState(out, stateName, states[i].1, names, JoinPath(statesPath, stateName));
      assert EntriesIssues(states, i + 1, names, statesPath)
          == EntriesIssues(states, i, names, statesPath) + StateIssues(stateName, states[i].1, names, JoinPath(statesPath, stateName));
      AppendAssoc(issues, EntriesIssues(states, i, names, statesPath),
                  StateIssues(stateName, states[i].1, names, JoinPath(statesPath, stateName)));
    }
  }

  /** The `for (const stateName of stateNames)` warning loop. */
  method WarnUnreachable(issues: seq<Issue>, states: Fields, start: string, statesPath: string)
    returns (out: seq<Issue>)
    ensures out == issues + UnreachableWarnings(states, start, |states|, statesPath)
  {
    var reachable := ReachableFrom(states, start);
    out := PushWarnings(issues, states, start, reachable, statesPath);
  }

  /** The warning loop proper, given the visited set of the traversal. */
  method PushWarnings(issues: seq<Issue>, states: Fields, start: string, reachable: set<string>, statesPath: string)
    returns (out: seq<Issue>)
    requires forall n :: n in Keys(states) ==> (n in reachable <==> IsReachable(states, start, n))
    ensures out == issues + UnreachableWarnings(states, start, |states|, statesPath)
  {
    out := issues;
    for i := 0 to |states|
      invariant out == issues + UnreachableWarnings(states, start, i, statesPath)
    {
      var stateName := states[i].0;
      assert stateName in Keys(states);
      ghost var prev := UnreachableWarnings(states, start, i, statesPath);
      ghost var warning := UnreachableWarning(states, start, statesPath, stateName);
      UnreachableWarningsStep(states, start, i + 1, statesPath);
      if stateName !in reachable {
        out := out + [Issue(Unreachable, JoinPath(statesPath, stateName), Some(stateName))];
      }
      assert out == issues + prev + warning;
      AppendAssoc(issues, prev, warning);
    }
  }

  /** `validateStateMachineScope`. */
  method ValidateScope(issues: seq<Issue>, scope: Fields, scopePath: string) returns (out: seq<Issue>)
    ensures out == issues + ScopeIssues(scope, scopePath)
    decreases JObj(scope), 3
  {
    out := issues;
    var startAt := StrField(scope, "StartAt");
    var startAtPath := JoinPath(scopePath, "StartAt");
    if startAt.None? {
      out := out + [Issue(StartAtNotString, startAtPath, None)];
    }
    var statesField := Get(scope, "States");
    if !(statesField.Some? && statesField.value.JObj?) {
      ghost var head := StartAtIssues(scope, scopePath, None);
      assert out == issues + head;
      out := out + [Issue(StatesNotObject, JoinPath(scopePath, "States"), None)];
      AppendAssoc(issues, head, [Issue(StatesNotObject, JoinPath(scopePath, "States"), None)]);
      return;
    }
    var states := statesField.value.fields;
    var stateNames := Keys(states);
    if startAt.Some? && startAt.value !in stateNames {
      out := out + [Issue(StartAtMissing(startAt.value), startAtPath, None)];
    }
    ghost var startIssues := StartAtIssues(scope, scopePath, Some(stateNames));
    assert out == issues + startIssues;
    var statesPath := JoinPath(scopePath, "States");
    out := ValidateEntries(out, states, stateNames, statesPath);
    ghost var entries := EntriesIssues(states, |states|, stateNames, statesPath);
    ghost var reach := ReachabilityIssues(scope, states, statesPath);
    ghost var structural := out;
    if startAt.Some? {
      out := WarnUnreachable(out, states, startAt.value, statesPath);
    }
    assert out == structural + reach;
    AppendAssoc(issues, startIssues, entries);
    AppendAssoc(issues, startIssues + entries, reach);
  }

  /** `validateAsl`: a non-object document yields exactly one error at
      `<root>`; an object is validated as the root scope. */
  method ValidateAsl(definition: Json) returns (issues: seq<Issue>)
    ensures !definition.JObj? ==> issues == [Issue(RootNotObject, "<root>", None)]
    ensures definition.JObj? ==> issues == ScopeIssues(definition.fields, "<root>")
  {
    if !definition.JObj? {
      issues := [Issue(RootNotObject, "<root>", None)];
      return;
    }
    issues := ValidateScope([], definition.fields, "<root>");
  }
}
