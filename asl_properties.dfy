/** What the validator of src/validation/asl.ts promises, proved about the
    functions of module Asl (and therefore, through the postconditions of
    module AslValidator, about the methods that compute them). */
module AslProperties {
  import opened JsonModel
  import opened Text
  import opened Asl

  // ---------------------------------------------------------------------
  // Paths

  /** Every issue in the list has a path that extends `base`. */
  ghost predicate Under(issues: seq<Issue>, base: string) {
    forall i :: 0 <= i < |issues| ==> base <= issues[i].path
  }

  /** Every issue in the list has a path that strictly extends `base`. */
  ghost predicate Beyond(issues: seq<Issue>, base: string) {
    forall i :: 0 <= i < |issues| ==> base <= issues[i].path && |base| < |issues[i].path|
  }

  /** The issues reported at exactly `path`, in order. */
  function IssuesAt(issues: seq<Issue>, path: string): (r: seq<Issue>)
    ensures forall x :: x in r <==> x in issues && x.path == path
  {
    if |issues| == 0 then []
    else (if issues[0].path == path then [issues[0]] else []) + IssuesAt(issues[1..], path)
  }

  lemma {:induction false} IssuesAtAppend(a: seq<Issue>, b: seq<Issue>, path: string)
    ensures IssuesAt(a + b, path) == IssuesAt(a, path) + IssuesAt(b, path)
  {
    if |a| == 0 {
      assert a + b == b;
    } else {
      assert (a + b)[1..] == a[1..] + b;
      IssuesAtAppend(a[1..], b, path);
    }
  }

  lemma {:induction false} IssuesAtAll(issues: seq<Issue>, path: string)
    requires forall i :: 0 <= i < |issues| ==> issues[i].path == path
    ensures IssuesAt(issues, path) == issues
  {
    if |issues| > 0 {
      IssuesAtAll(issues[1..], path);
    }
  }

  lemma {:induction false} IssuesAtNone(issues: seq<Issue>, path: string)
    requires forall i :: 0 <= i < |issues| ==> issues[i].path != path
    ensures IssuesAt(issues, path) == []
  {
    if |issues| > 0 {
      IssuesAtNone(issues[1..], path);
    }
  }

  lemma PrefixTrans(a: string, b: string, c: string)
    requires a <= b && b <= c
    ensures a <= c
  {
    assert c[..|b|][..|a|] == c[..|a|];
  }

  /** `joinPath(base, segment)` extends `base`, and by more than `base` when the
      segment is non-empty. */
  lemma JoinPathExtends(base: string, segment: string)
    ensures base <= JoinPath(base, segment)
    ensures |JoinPath(base, segment)| >= |base| + |segment|
  {
    if base != "" {
      assert JoinPath(base, segment)[..|base|] == base;
    }
  }

  lemma IndexPathExtends(base: string, i: nat)
    ensures base <= IndexPath(base, i) && |IndexPath(base, i)| > |base|
  {
    assert IndexPath(base, i)[..|base|] == base;
  }

  lemma UnderWeaken(issues: seq<Issue>, base: string, mid: string)
    requires Under(issues, mid) && base <= mid
    ensures Under(issues, base)
  {
    forall i | 0 <= i < |issues| ensures base <= issues[i].path {
      PrefixTrans(base, mid, issues[i].path);
    }
  }

  /** Everything under `joinPath(base, segment)` with a non-empty segment lies
      strictly beyond `base`. */
  lemma UnderSegmentIsBeyond(issues: seq<Issue>, base: string, segment: string)
    requires segment != ""
    requires Under(issues, JoinPath(base, segment))
    ensures Beyond(issues, base)
  {
    JoinPathExtends(base, segment);
    forall i | 0 <= i < |issues| ensures base <= issues[i].path && |base| < |issues[i].path| {
      PrefixTrans(base, JoinPath(base, segment), issues[i].path);
    }
  }

  lemma BeyondAtBaseIsEmpty(issues: seq<Issue>, base: string)
    requires Beyond(issues, base)
    ensures IssuesAt(issues, base) == []
  {
    IssuesAtNone(issues, base);
  }

  /** A path under `joinPath(base, a)` is never `joinPath(base, b)` when the two
      segments start with different characters. */
  lemma SegmentsDiverge(base: string, a: string, b: string)
    requires a != "" && b != "" && a[0] != b[0]
    ensures !(JoinPath(base, a) <= JoinPath(base, b))
  {
    var k := if base == "" then 0 else |base| + 1;
    assert JoinPath(base, a)[k] == a[0];
    assert JoinPath(base, b)[k] == b[0];
  }

  lemma UnderMissesDivergent(issues: seq<Issue>, base: string, a: string, b: string)
    requires a != "" && b != "" && a[0] != b[0]
    requires Under(issues, JoinPath(base, a))
    ensures IssuesAt(issues, JoinPath(base, b)) == []
  {
    SegmentsDiverge(base, a, b);
    IssuesAtNone(issues, JoinPath(base, b));
  }

  /** Where a scope reports: at its `StartAt`, or under its `States`. */
  ghost predicate InScope(path: string, scopePath: string) {
    path == JoinPath(scopePath, "StartAt") || JoinPath(scopePath, "States") <= path
  }

  // ---------------------------------------------------------------------
  // Every issue of a scope lies under that scope's path (one mutual
  // induction following the recursion of the validator)

  lemma {:induction false} ScopePaths(scope: Fields, scopePath: string)
    ensures forall i :: 0 <= i < |ScopeIssues(scope, scopePath)| ==> InScope(ScopeIssues(scope, scopePath)[i].path, scopePath)
    ensures Under(ScopeIssues(scope, scopePath), scopePath)
    decreases JObj(scope), 3
  {
    var statesPath := JoinPath(scopePath, "States");
    match Get(scope, "States")
    case Some(JObj(states)) =>
      var warnings := ReachabilityIssues(scope, states, statesPath);
      EntriesPaths(states, |states|, Keys(states), statesPath);
      match StrField(scope, "StartAt") {
        case Some(start) => WarningPaths(states, start, |states|, statesPath);
        case None =>
      }
      ScopeLayoutPaths(StartAtIssues(scope, scopePath, Some(Keys(states))),
                       EntriesIssues(states, |states|, Keys(states), statesPath), warnings, scopePath);
    case _ =>
      ScopeLayoutPaths(StartAtIssues(scope, scopePath, None), [Issue(StatesNotObject, statesPath, None)], [], scopePath);
      assert ScopeIssues(scope, scopePath) == StartAtIssues(scope, scopePath, None) + [Issue(StatesNotObject, statesPath, None)] + [];
  }

  /** The `StartAt` issues followed by two lists under `States` are laid out
      as a scope's issues are. */
  lemma ScopeLayoutPaths(a: seq<Issue>, b: seq<Issue>, c: seq<Issue>, scopePath: string)
    requires forall i :: 0 <= i < |a| ==> a[i].path == JoinPath(scopePath, "StartAt")
    requires Under(b, JoinPath(scopePath, "States")) && Under(c, JoinPath(scopePath, "States"))
    ensures forall i :: 0 <= i < |a + b + c| ==> InScope((a + b + c)[i].path, scopePath)
    ensures Under(a + b + c, scopePath)
  {
    var s := a + b + c;
    JoinPathExtends(scopePath, "StartAt");
    JoinPathExtends(scopePath, "States");
    forall i | 0 <= i < |s| ensures InScope(s[i].path, scopePath) && scopePath <= s[i].path {
      if i < |a| {
        assert s[i] == a[i];
      } else if i < |a| + |b| {
        assert s[i] == b[i - |a|];
        PrefixTrans(scopePath, JoinPath(scopePath, "States"), s[i].path);
      } else {
        assert s[i] == c[i - |a| - |b|];
        PrefixTrans(scopePath, JoinPath(scopePath, "States"), s[i].path);
      }
    }
  }

  lemma {:induction false} EntriesPaths(states: Fields, n: nat, names: seq<string>, statesPath: string)
    requires n <= |states|
    ensures Under(EntriesIssues(states, n, names, statesPath), statesPath)
    decreases JObj(states), n
  {
    if n > 0 {
      var name := states[n - 1].0;
      EntriesPaths(states, n - 1, names, statesPath);
      StatePaths(name, states[n - 1].1, names, JoinPath(statesPath, name));
      JoinPathExtends(statesPath, name);
      UnderWeaken(StateIssues(name, states[n - 1].1, names, JoinPath(statesPath, name)), statesPath, JoinPath(statesPath, name));
    }
  }

  lemma {:induction false} StatePaths(name: string, raw: Json, names: seq<string>, statePath: string)
    ensures Under(StateIssues(name, raw, names, statePath), statePath)
    decreases raw, 2
  {
    match raw
    case JObj(state) =>
      var ty := StrField(state, "Type");
      if ty.None? || IsBlank(ty.value) {
        JoinPathExtends(statePath, "Type");
      } else {
        TypedStatePaths(name, state, ty.value, names, statePath);
      }
    case _ =>
  }

  /** The issues of a typed state all lie under its path, and the ones at the
      path itself are exactly the `Next`/`End` rules. */
  lemma {:induction false} TypedStatePaths(name: string, state: Fields, ty: string, names: seq<string>, statePath: string)
    ensures Under(TypedStateIssues(name, state, ty, names, statePath), statePath)
    ensures IssuesAt(TypedStateIssues(name, state, ty, names, statePath), statePath) == TransitionIssues(name, state, ty, statePath)
    decreases JObj(state), 1
  {
    var t := TransitionIssues(name, state, ty, statePath);
    var cs := if ty == "Choice" then ChoiceShapeIssues(name, state, statePath) else [];
    var ps := if ty == "Parallel" then ParallelIssues(name, state, statePath) else [];
    var ms := if ty == "Map" then MapIssues(name, state, statePath) else [];
    var rs := ReferenceIssues(name, state, ty, names, statePath);
    TypedStateLayout(name, state, ty, names, statePath);
    ChoiceShapeBeyond(name, state, statePath);
    if ty == "Parallel" {
      ParallelPaths(name, state, statePath);
      UnderSegmentIsBeyond(ParallelIssues(name, state, statePath), statePath, "Branches");
    }
    if ty == "Map" {
      MapPaths(name, state, statePath);
      UnderSegmentIsBeyond(MapIssues(name, state, statePath), statePath, "Iterator");
    }
    ReferenceBeyond(name, state, ty, names, statePath);
    IssuesAtAll(t, statePath);
    FiveBeyond(t, cs, ps, ms, rs, statePath);
  }

  lemma FiveBeyond(t: seq<Issue>, cs: seq<Issue>, ps: seq<Issue>, ms: seq<Issue>, rs: seq<Issue>, base: string)
    requires Under(t, base) && IssuesAt(t, base) == t
    requires Beyond(cs, base) && Beyond(ps, base) && Beyond(ms, base) && Beyond(rs, base)
    ensures Under(t + cs + ps + ms + rs, base)
    ensures IssuesAt(t + cs + ps + ms + rs, base) == t
  {
    AppendBeyond(t, cs, base);
    AppendBeyond(t + cs, ps, base);
    AppendBeyond(t + cs + ps, ms, base);
    AppendBeyond(t + cs + ps + ms, rs, base);
  }

  /** Appending issues strictly beyond `base` keeps a list under `base` and
      adds nothing at `base` itself. */
  lemma AppendBeyond(a: seq<Issue>, b: seq<Issue>, base: string)
    requires Under(a, base) && Beyond(b, base)
    ensures Under(a + b, base)
    ensures IssuesAt(a + b, base) == IssuesAt(a, base)
  {
    BeyondAtBaseIsEmpty(b, base);
    IssuesAtAppend(a, b, base);
    forall i | 0 <= i < |a + b| ensures base <= (a + b)[i].path {
      if i >= |a| { assert (a + b)[i] == b[i - |a|]; }
    }
  }

  /** The nested issues of a Parallel state lie under `<statePath>.Branches`. */
  lemma {:induction false} ParallelPaths(name: string, state: Fields, statePath: string)
    ensures Under(ParallelIssues(name, state, statePath), JoinPath(statePath, "Branches"))
    decreases JObj(state), 0
  {
    match Get(state, "Branches")
    case Some(JArr(bs)) =>
      if |bs| > 0 {
        BranchesPaths(name, bs, |bs|, JoinPath(statePath, "Branches"));
      }
    case _ =>
  }

  /** The issues of the first n branches lie under `Branches`. */
  lemma {:induction false} BranchesPaths(name: string, bs: seq<Json>, n: nat, branchesPath: string)
    requires n <= |bs|
    ensures Under(BranchesIssues(name, bs, n, branchesPath), branchesPath)
    decreases JArr(bs), n
  {
    if n > 0 {
      BranchesPaths(name, bs, n - 1, branchesPath);
      var branchPath := IndexPath(branchesPath, n - 1);
      IndexPathExtends(branchesPath, n - 1);
      match bs[n - 1]
      case JObj(b) =>
        ScopePaths(b, branchPath);
        UnderWeaken(ScopeIssues(b, branchPath), branchesPath, branchPath);
      case _ =>
    }
  }

  /** Each issue of the first n branches lies under `Branches[i]` for the
      branch i that reported it. */
  lemma {:induction false} BranchesEachUnder(name: string, bs: seq<Json>, n: nat, branchesPath: string)
    requires n <= |bs|
    ensures forall x :: x in BranchesIssues(name, bs, n, branchesPath)
              ==> exists i :: 0 <= i < n && IndexPath(branchesPath, i) <= x.path
  {
    if n > 0 {
      BranchesEachUnder(name, bs, n - 1, branchesPath);
      var prev := BranchesIssues(name, bs, n - 1, branchesPath);
      var branchPath := IndexPath(branchesPath, n - 1);
      var piece := match bs[n - 1]
                   case JObj(b) => ScopeIssues(b, branchPath)
                   case _ => [Issue(BranchNotObject, branchPath, Some(name))];
      assert BranchesIssues(name, bs, n, branchesPath) == prev + piece;
      match bs[n - 1] {
        case JObj(b) => ScopePaths(b, branchPath);
        case _ =>
      }
      assert Under(piece, branchPath);
      forall x | x in piece
        ensures exists i :: 0 <= i < n && IndexPath(branchesPath, i) <= x.path
      {
        var k :| 0 <= k < |piece| && piece[k] == x;
        assert branchPath <= x.path;
      }
    }
  }

  /** What branch i reports: the issues of its nested scope when it is an
      object, the not-an-object error at `Branches[i]` otherwise. */
  ghost function BranchReport(name: string, branch: Json, branchPath: string): seq<Issue> {
    match branch
    case JObj(b) => ScopeIssues(b, branchPath)
    case _ => [Issue(BranchNotObject, branchPath, Some(name))]
  }

  lemma BranchesSnoc(name: string, bs: seq<Json>, n: nat, branchesPath: string)
    requires 0 < n <= |bs|
    ensures BranchesIssues(name, bs, n, branchesPath)
            == BranchesIssues(name, bs, n - 1, branchesPath) + BranchReport(name, bs[n - 1], IndexPath(branchesPath, n - 1))
  {
  }

  /** Each issue of branch i is reported among the issues of all branches. */
  lemma BranchesContainBranch(name: string, bs: seq<Json>, branchesPath: string, i: nat, x: Issue)
    requires i < |bs| && x in BranchReport(name, bs[i], IndexPath(branchesPath, i))
    ensures x in BranchesIssues(name, bs, |bs|, branchesPath)
  {
    var n := |bs|;
    var parts := seq(n, k requires 0 <= k < n => BranchReport(name, bs[k], IndexPath(branchesPath, k)));
    var totals := seq(n + 1, k requires 0 <= k <= n => BranchesIssues(name, bs, k, branchesPath));
    forall k | 0 <= k < n
      ensures totals[k + 1] == totals[k] + parts[k]
    {
      BranchesSnoc(name, bs, k + 1, branchesPath);
    }
    PartInTotal(parts, totals, i, x);
  }

  /** A Parallel whose `Branches` is missing, not an array or empty gets the
      one error at `.Branches`; otherwise each of its issues lies under the
      `Branches[i]` of some branch i. */
  lemma ParallelBranchesRule(name: string, state: Fields, statePath: string)
    ensures var branches := Get(state, "Branches");
            !(branches.Some? && branches.value.JArr? && |branches.value.items| > 0)
            ==> ParallelIssues(name, state, statePath) == [Issue(BranchesEmpty, JoinPath(statePath, "Branches"), Some(name))]
    ensures var branches := Get(state, "Branches");
            branches.Some? && branches.value.JArr? && |branches.value.items| > 0
            ==> forall x :: x in ParallelIssues(name, state, statePath)
                  ==> exists i :: 0 <= i < |branches.value.items| && IndexPath(JoinPath(statePath, "Branches"), i) <= x.path
  {
    match Get(state, "Branches")
    case Some(JArr(bs)) =>
      if |bs| > 0 {
        BranchesEachUnder(name, bs, |bs|, JoinPath(statePath, "Branches"));
      }
    case _ =>
  }

  /** Every branch of a Parallel is reported: the issues of an object branch
      at `Branches[i]`, or the not-an-object error there. */
  lemma ParallelBranchReported(name: string, state: Fields, statePath: string, i: nat)
    requires Get(state, "Branches").Some? && Get(state, "Branches").value.JArr?
    requires i < |Get(state, "Branches").value.items|
    ensures forall x :: x in BranchReport(name, Get(state, "Branches").value.items[i], IndexPath(JoinPath(statePath, "Branches"), i))
              ==> x in ParallelIssues(name, state, statePath)
  {
    var bs := Get(state, "Branches").value.items;
    var branchPath := IndexPath(JoinPath(statePath, "Branches"), i);
    assert ParallelIssues(name, state, statePath) == BranchesIssues(name, bs, |bs|, JoinPath(statePath, "Branches"));
    forall x | x in BranchReport(name, bs[i], branchPath)
      ensures x in ParallelIssues(name, state, statePath)
    {
      BranchesContainBranch(name, bs, JoinPath(statePath, "Branches"), i, x);
    }
  }

  /** The nested issues of a Map state lie under `<statePath>.Iterator`. */
  lemma {:induction false} MapPaths(name: string, state: Fields, statePath: string)
    ensures Under(MapIssues(name, state, statePath), JoinPath(statePath, "Iterator"))
    decreases JObj(state), 0
  {
    match Get(state, "Iterator")
    case Some(JObj(it)) => ScopePaths(it, JoinPath(statePath, "Iterator"));
    case _ =>
  }

  lemma {:induction false} WarningPaths(states: Fields, start: string, n: nat, statesPath: string)
    requires n <= |states|
    ensures Under(UnreachableWarnings(states, start, n, statesPath), statesPath)
  {
    if n > 0 {
      WarningPaths(states, start, n - 1, statesPath);
      UnreachableWarningsStep(states, start, n, statesPath);
      JoinPathExtends(statesPath, states[n - 1].0);
    }
  }

  lemma {:induction false} ChoiceItemPaths(name: string, items: seq<Json>, n: nat, choicesPath: string)
    requires n <= |items|
    ensures Under(ChoiceItemIssues(name, items, n, choicesPath), choicesPath)
  {
    if n > 0 {
      ChoiceItemPaths(name, items, n - 1, choicesPath);
      var itemPath := IndexPath(choicesPath, n - 1);
      IndexPathExtends(choicesPath, n - 1);
      JoinPathExtends(itemPath, "Next");
      PrefixTrans(choicesPath, itemPath, JoinPath(itemPath, "Next"));
    }
  }

  lemma {:induction false} ChoiceReferencePaths(name: string, items: seq<Json>, n: nat, names: seq<string>, choicesPath: string)
    requires n <= |items|
    ensures Under(ChoiceReferenceIssues(name, items, n, names, choicesPath), choicesPath)
  {
    if n > 0 {
      ChoiceReferencePaths(name, items, n - 1, names, choicesPath);
      var itemPath := IndexPath(choicesPath, n - 1);
      IndexPathExtends(choicesPath, n - 1);
      JoinPathExtends(itemPath, "Next");
      PrefixTrans(choicesPath, itemPath, JoinPath(itemPath, "Next"));
    }
  }

  lemma ChoiceShapeBeyond(name: string, state: Fields, statePath: string)
    ensures Beyond(ChoiceShapeIssues(name, state, statePath), statePath)
  {
    var choicesPath := JoinPath(statePath, "Choices");
    JoinPathExtends(statePath, "End");
    JoinPathExtends(statePath, "Next");
    ChoiceListUnder(name, Get(state, "Choices"), choicesPath);
    UnderSegmentIsBeyond(ChoiceListIssues(name, Get(state, "Choices"), choicesPath), statePath, "Choices");
  }

  lemma ChoiceListUnder(name: string, choices: Option<Json>, choicesPath: string)
    ensures Under(ChoiceListIssues(name, choices, choicesPath), choicesPath)
  {
    JoinPathExtends(choicesPath, "");
    match choices
    case Some(JArr(items)) =>
      if |items| > 0 {
        ChoiceItemPaths(name, items, |items|, choicesPath);
      }
    case _ =>
  }

  lemma ReferenceBeyond(name: string, state: Fields, ty: string, names: seq<string>, statePath: string)
    ensures Beyond(ReferenceIssues(name, state, ty, names, statePath), statePath)
  {
    JoinPathExtends(statePath, "Next");
    JoinPathExtends(statePath, "Default");
    var choicesPath := JoinPath(statePath, "Choices");
    JoinPathExtends(statePath, "Choices");
    match Get(state, "Choices")
    case Some(JArr(items)) =>
      ChoiceReferencePaths(name, items, |items|, names, choicesPath);
      UnderSegmentIsBeyond(ChoiceReferenceIssues(name, items, |items|, names, choicesPath), statePath, "Choices");
    case _ =>
  }

  // ---------------------------------------------------------------------
  // Scope shape

  /** When `States` is not an object the scope reports at most the `StartAt`
      error and then the `States` error: no per-state checks, no warnings. */
  lemma StatesNotObjectStopsScope(scope: Fields, scopePath: string)
    requires !(Get(scope, "States").Some? && Get(scope, "States").value.JObj?)
    ensures ScopeIssues(scope, scopePath)
            == (if StrField(scope, "StartAt").None? then [Issue(StartAtNotString, JoinPath(scopePath, "StartAt"), None)] else [])
               + [Issue(StatesNotObject, JoinPath(scopePath, "States"), None)]
    ensures 1 <= |ScopeIssues(scope, scopePath)| <= 2
  {
  }

  /** A state that is not an object, or lacks a non-blank string `Type`, gets
      exactly one error and none of the later checks (references included). */
  lemma UntypedStateSingleIssue(name: string, raw: Json, names: seq<string>, statePath: string)
    requires !raw.JObj? || StrField(raw.fields, "Type").None? || IsBlank(StrField(raw.fields, "Type").value)
    ensures StateIssues(name, raw, names, statePath)
            == [if !raw.JObj? then Issue(StateNotObject, statePath, Some(name))
                else Issue(TypeMissing, JoinPath(statePath, "Type"), Some(name))]
  {
  }

  // ---------------------------------------------------------------------
  // The `Next`/`End` rules

  /** The issues at a typed state's own path are exactly the three transition
      rules, each stated as an if-and-only-if. A Succeed or Fail state never
      gets the missing-transition error. */
  lemma TransitionRules(name: string, state: Fields, ty: string, names: seq<string>, statePath: string)
    ensures Issue(NextAndEnd, statePath, Some(name)) in TypedStateIssues(name, state, ty, names, statePath)
            <==> StrField(state, "Next").Some? && HasEnd(state)
    ensures Issue(NoNextOrEnd, statePath, Some(name)) in TypedStateIssues(name, state, ty, names, statePath)
            <==> !IsTerminalType(ty) && ty != "Choice" && StrField(state, "Next").None? && !HasEnd(state)
    ensures Issue(TerminalTransition(ty), statePath, Some(name)) in TypedStateIssues(name, state, ty, names, statePath)
            <==> IsTerminalType(ty) && (StrField(state, "Next").Some? || IsBoolField(state, "End"))
    ensures forall x :: x in TypedStateIssues(name, state, ty, names, statePath) && x.path == statePath
              ==> x.kind in {NextAndEnd, NoNextOrEnd, TerminalTransition(ty)}
  {
    var all := TypedStateIssues(name, state, ty, names, statePath);
    var t := TransitionIssues(name, state, ty, statePath);
    TypedStatePaths(name, state, ty, names, statePath);
    TransitionMembers(name, state, ty, statePath);
    forall x | x in all && x.path == statePath ensures x.kind in {NextAndEnd, NoNextOrEnd, TerminalTransition(ty)} {
      assert x in IssuesAt(all, statePath);
    }
    assert Issue(NextAndEnd, statePath, Some(name)) in all <==> Issue(NextAndEnd, statePath, Some(name)) in IssuesAt(all, statePath);
    assert Issue(NoNextOrEnd, statePath, Some(name)) in all <==> Issue(NoNextOrEnd, statePath, Some(name)) in IssuesAt(all, statePath);
    assert Issue(TerminalTransition(ty), statePath, Some(name)) in all
           <==> Issue(TerminalTransition(ty), statePath, Some(name)) in IssuesAt(all, statePath);
  }

  /** The three transition rules, read off `TransitionIssues` alone. */
  lemma TransitionMembers(name: string, state: Fields, ty: string, statePath: string)
    ensures Issue(NextAndEnd, statePath, Some(name)) in TransitionIssues(name, state, ty, statePath)
            <==> StrField(state, "Next").Some? && HasEnd(state)
    ensures Issue(NoNextOrEnd, statePath, Some(name)) in TransitionIssues(name, state, ty, statePath)
            <==> !IsTerminalType(ty) && ty != "Choice" && StrField(state, "Next").None? && !HasEnd(state)
    ensures Issue(TerminalTransition(ty), statePath, Some(name)) in TransitionIssues(name, state, ty, statePath)
            <==> IsTerminalType(ty) && (StrField(state, "Next").Some? || IsBoolField(state, "End"))
    ensures forall x :: x in TransitionIssues(name, state, ty, statePath)
              ==> x.kind in {NextAndEnd, NoNextOrEnd, TerminalTransition(ty)}
  {
  }

  // ---------------------------------------------------------------------
  // Choice rules

  lemma {:induction false} ChoiceItemKinds(name: string, items: seq<Json>, n: nat, choicesPath: string)
    requires n <= |items|
    ensures forall x :: x in ChoiceItemIssues(name, items, n, choicesPath) ==> x.kind in {ChoiceNotObject, ChoiceWithoutNext}
  {
    if n > 0 {
      ChoiceItemKinds(name, items, n - 1, choicesPath);
    }
  }

  lemma {:induction false} ChoiceReferenceKinds(name: string, items: seq<Json>, n: nat, names: seq<string>, choicesPath: string)
    requires n <= |items|
    ensures forall x :: x in ChoiceReferenceIssues(name, items, n, names, choicesPath) ==> x.kind.ChoiceNextMissing?
  {
    if n > 0 {
      ChoiceReferenceKinds(name, items, n - 1, names, choicesPath);
    }
  }

  /** The parts a Choice state's issues are made of. */
  lemma ChoiceStateLayout(name: string, state: Fields, names: seq<string>, statePath: string)
    ensures TypedStateIssues(name, state, "Choice", names, statePath)
            == TransitionIssues(name, state, "Choice", statePath) + ChoiceShapeIssues(name, state, statePath)
               + ReferenceIssues(name, state, "Choice", names, statePath)
  {
    TypedStateLayout(name, state, "Choice", names, statePath);
    DropEmpty(TransitionIssues(name, state, "Choice", statePath), ChoiceShapeIssues(name, state, statePath),
              ReferenceIssues(name, state, "Choice", names, statePath));
  }

  /** The five parts a typed state's issues are made of, in order. */
  lemma TypedStateLayout(name: string, state: Fields, ty: string, names: seq<string>, statePath: string)
    ensures TypedStateIssues(name, state, ty, names, statePath)
            == TransitionIssues(name, state, ty, statePath)
               + (if ty == "Choice" then ChoiceShapeIssues(name, state, statePath) else [])
               + (if ty == "Parallel" then ParallelIssues(name, state, statePath) else [])
               + (if ty == "Map" then MapIssues(name, state, statePath) else [])
               + ReferenceIssues(name, state, ty, names, statePath)
  {
  }

  lemma FiveAt(t: seq<Issue>, cs: seq<Issue>, ps: seq<Issue>, ms: seq<Issue>, rs: seq<Issue>, p: string)
    ensures IssuesAt(t + cs + ps + ms + rs, p) == IssuesAt(t, p) + IssuesAt(cs, p) + IssuesAt(ps, p) + IssuesAt(ms, p) + IssuesAt(rs, p)
  {
    IssuesAtAppend(t, cs, p);
    IssuesAtAppend(t + cs, ps, p);
    IssuesAtAppend(t + cs + ps, ms, p);
    IssuesAtAppend(t + cs + ps + ms, rs, p);
  }

  /** Membership in three concatenated lists, for the rules whose issue kind
      only one of the parts can produce. */
  lemma ChoiceShapeMembership(name: string, state: Fields, names: seq<string>, statePath: string, x: Issue)
    requires x.kind in {ChoicesEmpty, ChoiceHasEnd, ChoiceHasNext, ChoiceNotObject, ChoiceWithoutNext}
    ensures x in TransitionIssues(name, state, "Choice", statePath) + ChoiceShapeIssues(name, state, statePath)
                 + ReferenceIssues(name, state, "Choice", names, statePath)
            <==> x in ChoiceShapeIssues(name, state, statePath)
  {
    TransitionMembers(name, state, "Choice", statePath);
    ReferenceKinds(name, state, "Choice", names, statePath);
    MiddleMembership(TransitionIssues(name, state, "Choice", statePath), ChoiceShapeIssues(name, state, statePath),
                     ReferenceIssues(name, state, "Choice", names, statePath), x);
  }

  /** References only produce the three missing-target kinds. */
  lemma ReferenceKinds(name: string, state: Fields, ty: string, names: seq<string>, statePath: string)
    ensures forall x :: x in ReferenceIssues(name, state, ty, names, statePath)
              ==> x.kind.NextMissing? || x.kind.DefaultMissing? || x.kind.ChoiceNextMissing?
  {
    match Get(state, "Choices") {
      case Some(JArr(items)) =>
        ChoiceReferenceKinds(name, items, |items|, names, JoinPath(statePath, "Choices"));
      case _ =>
    }
  }

  /** The shape rules of a Choice state as if-and-only-if statements. */
  lemma ChoiceShapeRules(name: string, state: Fields, names: seq<string>, statePath: string)
    ensures Issue(ChoicesEmpty, JoinPath(statePath, "Choices"), Some(name)) in TypedStateIssues(name, state, "Choice", names, statePath)
            <==> !(Get(state, "Choices").Some? && Get(state, "Choices").value.JArr? && |Get(state, "Choices").value.items| > 0)
    ensures Issue(ChoiceHasEnd, JoinPath(statePath, "End"), Some(name)) in TypedStateIssues(name, state, "Choice", names, statePath)
            <==> IsBoolField(state, "End")
    ensures Issue(ChoiceHasNext, JoinPath(statePath, "Next"), Some(name)) in TypedStateIssues(name, state, "Choice", names, statePath)
            <==> StrField(state, "Next").Some?
  {
    ChoiceStateLayout(name, state, names, statePath);
    ChoiceShapeMembership(name, state, names, statePath, Issue(ChoicesEmpty, JoinPath(statePath, "Choices"), Some(name)));
    ChoiceShapeMembership(name, state, names, statePath, Issue(ChoiceHasEnd, JoinPath(statePath, "End"), Some(name)));
    ChoiceShapeMembership(name, state, names, statePath, Issue(ChoiceHasNext, JoinPath(statePath, "Next"), Some(name)));
    ChoiceShapeMembers(name, state, statePath);
  }

  /** The shape rules read off `ChoiceShapeIssues` alone. */
  lemma ChoiceShapeMembers(name: string, state: Fields, statePath: string)
    ensures Issue(ChoicesEmpty, JoinPath(statePath, "Choices"), Some(name)) in ChoiceShapeIssues(name, state, statePath)
            <==> !(Get(state, "Choices").Some? && Get(state, "Choices").value.JArr? && |Get(state, "Choices").value.items| > 0)
    ensures Issue(ChoiceHasEnd, JoinPath(statePath, "End"), Some(name)) in ChoiceShapeIssues(name, state, statePath)
            <==> IsBoolField(state, "End")
    ensures Issue(ChoiceHasNext, JoinPath(statePath, "Next"), Some(name)) in ChoiceShapeIssues(name, state, statePath)
            <==> StrField(state, "Next").Some?
  {
    match Get(state, "Choices") {
      case Some(JArr(items)) =>
        ChoiceItemKinds(name, items, |items|, JoinPath(statePath, "Choices"));
      case _ =>
    }
  }

  /** `base[i]` determines i. */
  lemma IndexPathInjective(base: string, i: nat, j: nat)
    requires IndexPath(base, i) == IndexPath(base, j)
    ensures i == j
  {
    var s := IndexPath(base, i);
    assert s[|base| + 1 .. |s| - 1] == NatToString(i);
    assert IndexPath(base, j)[|base| + 1 .. |s| - 1] == NatToString(j);
    NatToStringInjective(i, j);
  }

  /** `joinPath(a, segment)` determines a non-empty a. */
  lemma JoinPathInjective(a: string, b: string, segment: string)
    requires a != "" && b != ""
    requires JoinPath(a, segment) == JoinPath(b, segment)
    ensures a == b
  {
    var s := JoinPath(a, segment);
    assert s[..|s| - |segment| - 1] == a;
    assert JoinPath(b, segment)[..|s| - |segment| - 1] == b;
  }

  lemma {:induction false} ChoiceItemMembership(name: string, items: seq<Json>, n: nat, choicesPath: string, i: nat)
    requires n <= |items|
    ensures Issue(ChoiceNotObject, IndexPath(choicesPath, i), Some(name)) in ChoiceItemIssues(name, items, n, choicesPath)
            <==> i < n && !items[i].JObj?
    ensures Issue(ChoiceWithoutNext, JoinPath(IndexPath(choicesPath, i), "Next"), Some(name)) in ChoiceItemIssues(name, items, n, choicesPath)
            <==> i < n && items[i].JObj? && StrField(items[i].fields, "Next").None?
  {
    if n > 0 {
      ChoiceItemMembership(name, items, n - 1, choicesPath, i);
      var last := IndexPath(choicesPath, n - 1);
      var here := IndexPath(choicesPath, i);
      var piece := ChoiceItemIssue(name, items[n - 1], last);
      assert ChoiceItemIssues(name, items, n, choicesPath) == ChoiceItemIssues(name, items, n - 1, choicesPath) + piece;
      assert Issue(ChoiceNotObject, here, Some(name)) in piece <==> i == n - 1 && !items[n - 1].JObj? by {
        if here == last {
          IndexPathInjective(choicesPath, i, n - 1);
        }
      }
      assert Issue(ChoiceWithoutNext, JoinPath(here, "Next"), Some(name)) in piece
             <==> i == n - 1 && items[n - 1].JObj? && StrField(items[n - 1].fields, "Next").None? by {
        if JoinPath(here, "Next") == JoinPath(last, "Next") {
          IndexPathExtends(choicesPath, i);
          IndexPathExtends(choicesPath, n - 1);
          JoinPathInjective(here, last, "Next");
          IndexPathInjective(choicesPath, i, n - 1);
        }
      }
    }
  }

  /** Entry i of `Choices` gets an error at `Choices[i]` exactly when it is
      not an object, and one at `Choices[i].Next` exactly when it is an object
      without a string `Next`. */
  lemma ChoiceItemRules(name: string, state: Fields, names: seq<string>, statePath: string, i: nat)
    requires Get(state, "Choices").Some? && Get(state, "Choices").value.JArr?
    requires i < |Get(state, "Choices").value.items|
    ensures var items := Get(state, "Choices").value.items;
            var itemPath := IndexPath(JoinPath(statePath, "Choices"), i);
            && (Issue(ChoiceNotObject, itemPath, Some(name)) in TypedStateIssues(name, state, "Choice", names, statePath)
                <==> !items[i].JObj?)
            && (Issue(ChoiceWithoutNext, JoinPath(itemPath, "Next"), Some(name)) in TypedStateIssues(name, state, "Choice", names, statePath)
                <==> items[i].JObj? && StrField(items[i].fields, "Next").None?)
  {
    var items := Get(state, "Choices").value.items;
    var choicesPath := JoinPath(statePath, "Choices");
    var itemPath := IndexPath(choicesPath, i);
    ChoiceStateLayout(name, state, names, statePath);
    ChoiceShapeMembership(name, state, names, statePath, Issue(ChoiceNotObject, itemPath, Some(name)));
    ChoiceShapeMembership(name, state, names, statePath, Issue(ChoiceWithoutNext, JoinPath(itemPath, "Next"), Some(name)));
    ChoiceItemMembership(name, items, |items|, choicesPath, i);
    assert ChoiceShapeIssues(name, state, statePath)
        == ChoiceItemIssues(name, items, |items|, choicesPath)
           + (if IsBoolField(state, "End") then [Issue(ChoiceHasEnd, JoinPath(statePath, "End"), Some(name))] else [])
           + (if StrField(state, "Next").Some? then [Issue(ChoiceHasNext, JoinPath(statePath, "Next"), Some(name))] else []);
  }

  // ---------------------------------------------------------------------
  // Reference rules

  lemma ChoiceShapeAtNext(name: string, state: Fields, statePath: string)
    ensures IssuesAt(ChoiceShapeIssues(name, state, statePath), JoinPath(statePath, "Next"))
            == if StrField(state, "Next").Some? then [Issue(ChoiceHasNext, JoinPath(statePath, "Next"), Some(name))] else []
  {
    var choicesPath := JoinPath(statePath, "Choices");
    var p := JoinPath(statePath, "Next");
    var head := ChoiceListIssues(name, Get(state, "Choices"), choicesPath);
    var endPart := if IsBoolField(state, "End") then [Issue(ChoiceHasEnd, JoinPath(statePath, "End"), Some(name))] else [];
    var nextPart := if StrField(state, "Next").Some? then [Issue(ChoiceHasNext, p, Some(name))] else [];
    ChoiceListUnder(name, Get(state, "Choices"), choicesPath);
    UnderMissesDivergent(head, statePath, "Choices", "Next");
    SegmentsDiverge(statePath, "End", "Next");
    IssuesAtNone(endPart, p);
    IssuesAtAll(nextPart, p);
    OnlyLastAt(head, endPart, nextPart, p);
  }

  lemma OnlyLastAt(a: seq<Issue>, b: seq<Issue>, c: seq<Issue>, p: string)
    requires IssuesAt(a, p) == [] && IssuesAt(b, p) == [] && IssuesAt(c, p) == c
    ensures IssuesAt(a + b + c, p) == c
  {
    IssuesAtAppend(a, b, p);
    IssuesAtAppend(a + b, c, p);
  }

  lemma ReferenceAtNext(name: string, state: Fields, ty: string, names: seq<string>, statePath: string)
    ensures IssuesAt(ReferenceIssues(name, state, ty, names, statePath), JoinPath(statePath, "Next"))
            == match StrField(state, "Next")
               case Some(t) => if t !in names then [Issue(NextMissing(t), JoinPath(statePath, "Next"), Some(name))] else []
               case None => []
  {
    var p := JoinPath(statePath, "Next");
    var nextPart := match StrField(state, "Next")
                    case Some(t) => if t !in names then [Issue(NextMissing(t), p, Some(name))] else []
                    case None => [];
    var defaultPart := match StrField(state, "Default")
                       case Some(d) => if d !in names then [Issue(DefaultMissing(d), JoinPath(statePath, "Default"), Some(name))] else []
                       case None => [];
    var choicePart := match Get(state, "Choices")
                      case Some(JArr(items)) => ChoiceReferenceIssues(name, items, |items|, names, JoinPath(statePath, "Choices"))
                      case _ => [];
    IssuesAtAll(nextPart, p);
    if ty == "Choice" {
      assert ReferenceIssues(name, state, ty, names, statePath) == nextPart + (defaultPart + choicePart);
      SegmentsDiverge(statePath, "Default", "Next");
      IssuesAtNone(defaultPart, p);
      match Get(state, "Choices") {
        case Some(JArr(items)) =>
          ChoiceReferencePaths(name, items, |items|, names, JoinPath(statePath, "Choices"));
        case _ =>
      }
      UnderMissesDivergent(choicePart, statePath, "Choices", "Next");
      IssuesAtAppend(defaultPart, choicePart, p);
      IssuesAtAppend(nextPart, defaultPart + choicePart, p);
    } else {
      assert ReferenceIssues(name, state, ty, names, statePath) == nextPart + [];
    }
  }

  /** The issues at `<statePath>.Next`: a Choice's "does not support `Next`"
      error, then the missing-target error when the string `Next` names no
      declared state. So a dangling `Next` gets exactly one reference error,
      and a Choice with a dangling `Next` gets exactly two errors. */
  lemma NextReferenceRule(name: string, state: Fields, ty: string, names: seq<string>, statePath: string)
    ensures IssuesAt(TypedStateIssues(name, state, ty, names, statePath), JoinPath(statePath, "Next"))
            == (if ty == "Choice" && StrField(state, "Next").Some? then [Issue(ChoiceHasNext, JoinPath(statePath, "Next"), Some(name))] else [])
               + (match StrField(state, "Next")
                  case Some(t) => if t !in names then [Issue(NextMissing(t), JoinPath(statePath, "Next"), Some(name))] else []
                  case None => [])
  {
    var p := JoinPath(statePath, "Next");
    var t := TransitionIssues(name, state, ty, statePath);
    var cs := if ty == "Choice" then ChoiceShapeIssues(name, state, statePath) else [];
    var ps := if ty == "Parallel" then ParallelIssues(name, state, statePath) else [];
    var ms := if ty == "Map" then MapIssues(name, state, statePath) else [];
    var rs := ReferenceIssues(name, state, ty, names, statePath);
    var a: seq<Issue> := if ty == "Choice" && StrField(state, "Next").Some? then [Issue(ChoiceHasNext, p, Some(name))] else [];
    var b: seq<Issue> := match StrField(state, "Next")
                         case Some(x) => if x !in names then [Issue(NextMissing(x), p, Some(name))] else []
                         case None => [];
    TypedStateLayout(name, state, ty, names, statePath);
    NothingElseAtNext(name, state, ty, statePath);
    if ty == "Choice" {
      ChoiceShapeAtNext(name, state, statePath);
    } else {
      IssuesAtNone(cs, p);
    }
    ReferenceAtNext(name, state, ty, names, statePath);
    OnlyTwoAt(t, cs, ps, ms, rs, p, a, b);
  }

  lemma OnlyTwoAt(t: seq<Issue>, cs: seq<Issue>, ps: seq<Issue>, ms: seq<Issue>, rs: seq<Issue>, p: string,
                  a: seq<Issue>, b: seq<Issue>)
    requires IssuesAt(t, p) == [] && IssuesAt(ps, p) == [] && IssuesAt(ms, p) == []
    requires IssuesAt(cs, p) == a && IssuesAt(rs, p) == b
    ensures IssuesAt(t + cs + ps + ms + rs, p) == a + b
  {
    FiveAt(t, cs, ps, ms, rs, p);
    assert [] + a + [] + [] + b == a + b;
  }

  /** The transition rules and the nested scopes report nothing at `.Next`. */
  lemma NothingElseAtNext(name: string, state: Fields, ty: string, statePath: string)
    ensures IssuesAt(TransitionIssues(name, state, ty, statePath), JoinPath(statePath, "Next")) == []
    ensures IssuesAt(if ty == "Parallel" then ParallelIssues(name, state, statePath) else [], JoinPath(statePath, "Next")) == []
    ensures IssuesAt(if ty == "Map" then MapIssues(name, state, statePath) else [], JoinPath(statePath, "Next")) == []
  {
    JoinPathExtends(statePath, "Next");
    IssuesAtNone(TransitionIssues(name, state, ty, statePath), JoinPath(statePath, "Next"));
    ParallelPaths(name, state, statePath);
    UnderMissesDivergent(ParallelIssues(name, state, statePath), statePath, "Branches", "Next");
    MapPaths(name, state, statePath);
    UnderMissesDivergent(MapIssues(name, state, statePath), statePath, "Iterator", "Next");
  }

  /** A Choice whose string `Next` names no declared state gets two errors at
      `<statePath>.Next`. */
  lemma DanglingChoiceNext(name: string, state: Fields, names: seq<string>, statePath: string, target: string)
    requires StrField(state, "Next") == Some(target) && target !in names
    ensures IssuesAt(TypedStateIssues(name, state, "Choice", names, statePath), JoinPath(statePath, "Next"))
            == [Issue(ChoiceHasNext, JoinPath(statePath, "Next"), Some(name)),
                Issue(NextMissing(target), JoinPath(statePath, "Next"), Some(name))]
  {
    NextReferenceRule(name, state, "Choice", names, statePath);
  }

  /** A Choice's string `Default` gets an error exactly when it names no
      declared state; `Default` is not checked on other types. */
  lemma DefaultReferenceRule(name: string, state: Fields, names: seq<string>, statePath: string, target: string)
    ensures Issue(DefaultMissing(target), JoinPath(statePath, "Default"), Some(name)) in TypedStateIssues(name, state, "Choice", names, statePath)
            <==> StrField(state, "Default") == Some(target) && target !in names
  {
    var x := Issue(DefaultMissing(target), JoinPath(statePath, "Default"), Some(name));
    ReferenceMembership(name, state, names, statePath, x);
    var np := match StrField(state, "Next")
              case Some(t) => if t !in names then [Issue(NextMissing(t), JoinPath(statePath, "Next"), Some(name))] else []
              case None => [];
    var dp := match StrField(state, "Default")
              case Some(d) => if d !in names then [Issue(DefaultMissing(d), JoinPath(statePath, "Default"), Some(name))] else []
              case None => [];
    var cp := match Get(state, "Choices")
              case Some(JArr(items)) => ChoiceReferenceIssues(name, items, |items|, names, JoinPath(statePath, "Choices"))
              case _ => [];
    assert ReferenceIssues(name, state, "Choice", names, statePath) == np + (dp + cp);
    match Get(state, "Choices") {
      case Some(JArr(items)) =>
        ChoiceReferenceKinds(name, items, |items|, names, JoinPath(statePath, "Choices"));
      case _ =>
    }
    assert x !in np && x !in cp;
    MiddleMembership(np, dp, cp, x);
  }

  /** Missing-target errors of a Choice come from its reference checks alone. */
  lemma ReferenceMembership(name: string, state: Fields, names: seq<string>, statePath: string, x: Issue)
    requires x.kind.DefaultMissing? || x.kind.ChoiceNextMissing?
    ensures x in TypedStateIssues(name, state, "Choice", names, statePath)
            <==> x in ReferenceIssues(name, state, "Choice", names, statePath)
  {
    ChoiceStateLayout(name, state, names, statePath);
    TransitionMembers(name, state, "Choice", statePath);
    ChoiceShapeKinds(name, state, statePath);
    LastMembership(TransitionIssues(name, state, "Choice", statePath), ChoiceShapeIssues(name, state, statePath),
                   ReferenceIssues(name, state, "Choice", names, statePath), x);
  }

  lemma ChoiceShapeKinds(name: string, state: Fields, statePath: string)
    ensures forall x :: x in ChoiceShapeIssues(name, state, statePath)
              ==> x.kind in {ChoicesEmpty, ChoiceHasEnd, ChoiceHasNext, ChoiceNotObject, ChoiceWithoutNext}
  {
    match Get(state, "Choices") {
      case Some(JArr(items)) =>
        ChoiceItemKinds(name, items, |items|, JoinPath(statePath, "Choices"));
      case _ =>
    }
  }

  lemma {:induction false} ChoiceReferenceMembership(name: string, items: seq<Json>, n: nat, names: seq<string>, choicesPath: string,
                                                     i: nat, target: string)
    requires n <= |items|
    ensures Issue(ChoiceNextMissing(i, target), JoinPath(IndexPath(choicesPath, i), "Next"), Some(name))
              in ChoiceReferenceIssues(name, items, n, names, choicesPath)
            <==> i < n && items[i].JObj? && StrField(items[i].fields, "Next") == Some(target) && target !in names
  {
    if n > 0 {
      ChoiceReferenceMembership(name, items, n - 1, names, choicesPath, i, target);
    }
  }

  /** `Choices[i].Next` gets an error exactly when it is a string naming no
      declared state. */
  lemma ChoiceNextReferenceRule(name: string, state: Fields, names: seq<string>, statePath: string, i: nat, target: string)
    requires Get(state, "Choices").Some? && Get(state, "Choices").value.JArr?
    ensures var items := Get(state, "Choices").value.items;
            Issue(ChoiceNextMissing(i, target), JoinPath(IndexPath(JoinPath(statePath, "Choices"), i), "Next"), Some(name))
              in TypedStateIssues(name, state, "Choice", names, statePath)
            <==> i < |items| && items[i].JObj? && StrField(items[i].fields, "Next") == Some(target) && target !in names
  {
    var items := Get(state, "Choices").value.items;
    var choicesPath := JoinPath(statePath, "Choices");
    var x := Issue(ChoiceNextMissing(i, target), JoinPath(IndexPath(choicesPath, i), "Next"), Some(name));
    ReferenceMembership(name, state, names, statePath, x);
    var np := match StrField(state, "Next")
              case Some(t) => if t !in names then [Issue(NextMissing(t), JoinPath(statePath, "Next"), Some(name))] else []
              case None => [];
    var dp := match StrField(state, "Default")
              case Some(d) => if d !in names then [Issue(DefaultMissing(d), JoinPath(statePath, "Default"), Some(name))] else []
              case None => [];
    var cp := ChoiceReferenceIssues(name, items, |items|, names, choicesPath);
    assert ReferenceIssues(name, state, "Choice", names, statePath) == np + (dp + cp);
    assert x !in np && x !in dp;
    InAppend(np, dp + cp, x);
    InAppend(dp, cp, x);
    ChoiceReferenceMembership(name, items, |items|, names, choicesPath, i, target);
  }

  // ---------------------------------------------------------------------
  // The issues at `.Default` and at `.Choices[i].Next`

  /** Two prefixes of one path are comparable. */
  lemma PrefixesComparable(a: string, b: string, p: string)
    requires a <= p && b <= p
    ensures a <= b || b <= a
  {
    if |a| <= |b| {
      assert a == p[..|a|] && b[..|a|] == p[..|a|];
    } else {
      assert b == p[..|b|] && a[..|b|] == p[..|b|];
    }
  }

  /** Nothing under `joinPath(base, a)` lies at or under `joinPath(base, b)`
      when the two segments start with different characters. */
  lemma UnderMissesBelow(issues: seq<Issue>, base: string, a: string, b: string, p: string)
    requires a != "" && b != "" && a[0] != b[0]
    requires Under(issues, JoinPath(base, a)) && JoinPath(base, b) <= p
    ensures IssuesAt(issues, p) == []
  {
    SegmentsDiverge(base, a, b);
    SegmentsDiverge(base, b, a);
    forall i | 0 <= i < |issues| ensures issues[i].path != p {
      if issues[i].path == p {
        PrefixesComparable(JoinPath(base, a), JoinPath(base, b), p);
      }
    }
    IssuesAtNone(issues, p);
  }

  /** `Choices[k]` is never `Choices[i].Next`, and `Choices[k].Next` is
      `Choices[i].Next` only for k == i. */
  lemma EntryPaths(choicesPath: string, k: nat, i: nat)
    ensures IndexPath(choicesPath, k) != JoinPath(IndexPath(choicesPath, i), "Next")
    ensures JoinPath(IndexPath(choicesPath, k), "Next") == JoinPath(IndexPath(choicesPath, i), "Next") <==> k == i
  {
    var q, r := IndexPath(choicesPath, k), IndexPath(choicesPath, i);
    IndexPathExtends(choicesPath, k);
    IndexPathExtends(choicesPath, i);
    assert q[|q| - 1] == ']';
    assert JoinPath(r, "Next") == r + "." + "Next";
    assert JoinPath(r, "Next")[|JoinPath(r, "Next")| - 1] == 't';
    if JoinPath(q, "Next") == JoinPath(r, "Next") {
      JoinPathInjective(q, r, "Next");
      IndexPathInjective(choicesPath, k, i);
    }
  }

  /** `Choices[i].Next` extends `<statePath>.Choices`. */
  lemma EntryNextExtends(statePath: string, i: nat)
    ensures JoinPath(statePath, "Choices") <= JoinPath(IndexPath(JoinPath(statePath, "Choices"), i), "Next")
    ensures |statePath| < |JoinPath(statePath, "Choices")| < |JoinPath(IndexPath(JoinPath(statePath, "Choices"), i), "Next")|
  {
    var choicesPath := JoinPath(statePath, "Choices");
    var itemPath := IndexPath(choicesPath, i);
    JoinPathExtends(statePath, "Choices");
    IndexPathExtends(choicesPath, i);
    JoinPathExtends(itemPath, "Next");
    PrefixTrans(choicesPath, itemPath, JoinPath(itemPath, "Next"));
  }

  /** The shape check of entry k reports at `Choices[i].Next` all it reports
      when k == i and the entry is an object, and nothing otherwise. */
  lemma ChoiceItemAt(name: string, item: Json, choicesPath: string, k: nat, i: nat)
    ensures IssuesAt(ChoiceItemIssue(name, item, IndexPath(choicesPath, k)), JoinPath(IndexPath(choicesPath, i), "Next"))
            == if k == i && item.JObj? then ChoiceItemIssue(name, item, IndexPath(choicesPath, k)) else []
  {
    EntryPaths(choicesPath, k, i);
  }

  lemma ChoiceItemIssuesSnoc(name: string, items: seq<Json>, n: nat, choicesPath: string, p: string)
    requires 0 < n <= |items|
    ensures IssuesAt(ChoiceItemIssues(name, items, n, choicesPath), p) == IssuesAt(ChoiceItemIssues(name, items, n - 1, choicesPath), p) + IssuesAt(ChoiceItemIssue(name, items[n - 1], IndexPath(choicesPath, n - 1)), p)
  {
    IssuesAtAppend(ChoiceItemIssues(name, items, n - 1, choicesPath), ChoiceItemIssue(name, items[n - 1], IndexPath(choicesPath, n - 1)), p);
  }

  /** At any path p where no entry other than i reports, the entry checks
      report what entry i reports. */
  lemma ChoiceItemsAtPath(name: string, items: seq<Json>, n: nat, choicesPath: string, i: nat, p: string)
    requires n <= |items|
    requires forall k :: 0 <= k < n && k != i ==> IssuesAt(ChoiceItemIssue(name, items[k], IndexPath(choicesPath, k)), p) == []
    ensures IssuesAt(ChoiceItemIssues(name, items, n, choicesPath), p)
            == if i < n then IssuesAt(ChoiceItemIssue(name, items[i], IndexPath(choicesPath, i)), p) else []
  {
    var parts := seq(n, k requires 0 <= k < n => IssuesAt(ChoiceItemIssue(name, items[k], IndexPath(choicesPath, k)), p));
    var totals := seq(n + 1, k requires 0 <= k <= n => IssuesAt(ChoiceItemIssues(name, items, k, choicesPath), p));
    forall k | 0 <= k < n
      ensures totals[k + 1] == totals[k] + parts[k]
    {
      ChoiceItemIssuesSnoc(name, items, k + 1, choicesPath, p);
    }
    OnlyOnePart(parts, totals, i);
  }

  /** The entry checks report at `Choices[i].Next` what an object entry i
      reports, and nothing when there is no such entry. */
  lemma ChoiceItemsAt(name: string, items: seq<Json>, n: nat, choicesPath: string, i: nat)
    requires n <= |items|
    ensures IssuesAt(ChoiceItemIssues(name, items, n, choicesPath), JoinPath(IndexPath(choicesPath, i), "Next"))
            == if i < n && items[i].JObj? then ChoiceItemIssue(name, items[i], IndexPath(choicesPath, i)) else []
  {
    var p := JoinPath(IndexPath(choicesPath, i), "Next");
    forall k | 0 <= k < n && k != i
      ensures IssuesAt(ChoiceItemIssue(name, items[k], IndexPath(choicesPath, k)), p) == []
    {
      ChoiceItemAt(name, items[k], choicesPath, k, i);
    }
    ChoiceItemsAtPath(name, items, n, choicesPath, i, p);
    if i < n {
      ChoiceItemAt(name, items[i], choicesPath, i, i);
    }
  }

  /** The reference check of entry k reports at `Choices[i].Next` all it
      reports when k == i, and nothing otherwise. */
  lemma ChoiceReferenceAt(name: string, item: Json, names: seq<string>, choicesPath: string, k: nat, i: nat)
    ensures IssuesAt(ChoiceReferenceIssue(name, item, k, names, IndexPath(choicesPath, k)), JoinPath(IndexPath(choicesPath, i), "Next"))
            == if k == i then ChoiceReferenceIssue(name, item, k, names, IndexPath(choicesPath, k)) else []
  {
    EntryPaths(choicesPath, k, i);
  }

  lemma ChoiceReferenceIssuesSnoc(name: string, items: seq<Json>, n: nat, names: seq<string>, choicesPath: string, p: string)
    requires 0 < n <= |items|
    ensures IssuesAt(ChoiceReferenceIssues(name, items, n, names, choicesPath), p) == IssuesAt(ChoiceReferenceIssues(name, items, n - 1, names, choicesPath), p) + IssuesAt(ChoiceReferenceIssue(name, items[n - 1], n - 1, names, IndexPath(choicesPath, n - 1)), p)
  {
    IssuesAtAppend(ChoiceReferenceIssues(name, items, n - 1, names, choicesPath), ChoiceReferenceIssue(name, items[n - 1], n - 1, names, IndexPath(choicesPath, n - 1)), p);
  }

  /** At any path p where no entry other than i reports, the entry checks
      report what entry i reports. */
  lemma ChoiceReferencesAtPath(name: string, items: seq<Json>, n: nat, names: seq<string>, choicesPath: string, i: nat, p: string)
    requires n <= |items|
    requires forall k :: 0 <= k < n && k != i ==> IssuesAt(ChoiceReferenceIssue(name, items[k], k, names, IndexPath(choicesPath, k)), p) == []
    ensures IssuesAt(ChoiceReferenceIssues(name, items, n, names, choicesPath), p)
            == if i < n then IssuesAt(ChoiceReferenceIssue(name, items[i], i, names, IndexPath(choicesPath, i)), p) else []
  {
    var parts := seq(n, k requires 0 <= k < n => IssuesAt(ChoiceReferenceIssue(name, items[k], k, names, IndexPath(choicesPath, k)), p));
    var totals := seq(n + 1, k requires 0 <= k <= n => IssuesAt(ChoiceReferenceIssues(name, items, k, names, choicesPath), p));
    forall k | 0 <= k < n
      ensures totals[k + 1] == totals[k] + parts[k]
    {
      ChoiceReferenceIssuesSnoc(name, items, k + 1, names, choicesPath, p);
    }
    OnlyOnePart(parts, totals, i);
  }

  /** The entry reference checks report at `Choices[i].Next` what entry i
      reports, and nothing when there is no such entry. */
  lemma ChoiceReferencesAt(name: string, items: seq<Json>, n: nat, names: seq<string>, choicesPath: string, i: nat)
    requires n <= |items|
    ensures IssuesAt(ChoiceReferenceIssues(name, items, n, names, choicesPath), JoinPath(IndexPath(choicesPath, i), "Next"))
            == if i < n then ChoiceReferenceIssue(name, items[i], i, names, IndexPath(choicesPath, i)) else []
  {
    var p := JoinPath(IndexPath(choicesPath, i), "Next");
    forall k | 0 <= k < n && k != i
      ensures IssuesAt(ChoiceReferenceIssue(name, items[k], k, names, IndexPath(choicesPath, k)), p) == []
    {
      ChoiceReferenceAt(name, items[k], names, choicesPath, k, i);
    }
    ChoiceReferencesAtPath(name, items, n, names, choicesPath, i, p);
    if i < n {
      ChoiceReferenceAt(name, items[i], names, choicesPath, i, i);
    }
  }

  /** The `Choices` array checks report at `Choices[i].Next` only what the
      shape check of an object entry i reports. */
  lemma ChoiceListAtEntry(name: string, items: seq<Json>, choicesPath: string, i: nat)
    ensures IssuesAt(ChoiceListIssues(name, Some(JArr(items)), choicesPath), JoinPath(IndexPath(choicesPath, i), "Next"))
            == if i < |items| && items[i].JObj? then ChoiceItemIssue(name, items[i], IndexPath(choicesPath, i)) else []
  {
    var p := JoinPath(IndexPath(choicesPath, i), "Next");
    if |items| == 0 {
      IndexPathExtends(choicesPath, i);
      JoinPathExtends(IndexPath(choicesPath, i), "Next");
      IssuesAtNone([Issue(ChoicesEmpty, choicesPath, Some(name))], p);
    } else {
      ChoiceItemsAt(name, items, |items|, choicesPath, i);
    }
  }

  /** Of the Choice shape checks, only the `Choices` array checks report at
      `Choices[i].Next`. */
  lemma ChoiceShapeAtEntry(name: string, state: Fields, statePath: string, i: nat)
    ensures var choicesPath := JoinPath(statePath, "Choices");
            var p := JoinPath(IndexPath(choicesPath, i), "Next");
            IssuesAt(ChoiceShapeIssues(name, state, statePath), p) == IssuesAt(ChoiceListIssues(name, Get(state, "Choices"), choicesPath), p)
  {
    var choicesPath := JoinPath(statePath, "Choices");
    var p := JoinPath(IndexPath(choicesPath, i), "Next");
    var head := ChoiceListIssues(name, Get(state, "Choices"), choicesPath);
    var endPart := if IsBoolField(state, "End") then [Issue(ChoiceHasEnd, JoinPath(statePath, "End"), Some(name))] else [];
    var nextPart := if StrField(state, "Next").Some? then [Issue(ChoiceHasNext, JoinPath(statePath, "Next"), Some(name))] else [];
    assert ChoiceShapeIssues(name, state, statePath) == head + endPart + nextPart;
    EntryNextExtends(statePath, i);
    UnderMissesBelow(endPart, statePath, "End", "Choices", p);
    UnderMissesBelow(nextPart, statePath, "Next", "Choices", p);
    IssuesAtAppend(head, endPart, p);
    IssuesAtAppend(head + endPart, nextPart, p);
    assert IssuesAt(head, p) + [] + [] == IssuesAt(head, p);
  }

  /** Of the reference checks, only the checks of the `Choices` entries of a
      Choice report at `Choices[i].Next`. */
  lemma ReferenceAtEntry(name: string, state: Fields, ty: string, names: seq<string>, statePath: string, i: nat)
    requires Get(state, "Choices").Some? && Get(state, "Choices").value.JArr?
    ensures var items := Get(state, "Choices").value.items;
            var choicesPath := JoinPath(statePath, "Choices");
            IssuesAt(ReferenceIssues(name, state, ty, names, statePath), JoinPath(IndexPath(choicesPath, i), "Next"))
            == if ty == "Choice" && i < |items| then ChoiceReferenceIssue(name, items[i], i, names, IndexPath(choicesPath, i)) else []
  {
    var items := Get(state, "Choices").value.items;
    var choicesPath := JoinPath(statePath, "Choices");
    var p := JoinPath(IndexPath(choicesPath, i), "Next");
    var np := match StrField(state, "Next")
              case Some(t) => if t !in names then [Issue(NextMissing(t), JoinPath(statePath, "Next"), Some(name))] else []
              case None => [];
    var dp := match StrField(state, "Default")
              case Some(d) => if d !in names then [Issue(DefaultMissing(d), JoinPath(statePath, "Default"), Some(name))] else []
              case None => [];
    var cp := ChoiceReferenceIssues(name, items, |items|, names, choicesPath);
    EntryNextExtends(statePath, i);
    UnderMissesBelow(np, statePath, "Next", "Choices", p);
    if ty == "Choice" {
      assert ReferenceIssues(name, state, ty, names, statePath) == np + (dp + cp);
      UnderMissesBelow(dp, statePath, "Default", "Choices", p);
      ChoiceReferencesAt(name, items, |items|, names, choicesPath, i);
      IssuesAtAppend(dp, cp, p);
      IssuesAtAppend(np, dp + cp, p);
    } else {
      assert ReferenceIssues(name, state, ty, names, statePath) == np + [];
    }
  }

  /** The two checks of one `Choices` entry, written out: an object without a
      string `Next` gets the missing-`Next` error, an object whose `Next`
      names no declared state the missing-target error. */
  lemma EntryNextIssues(name: string, item: Json, i: nat, names: seq<string>, itemPath: string)
    requires item.JObj?
    ensures ChoiceItemIssue(name, item, itemPath)
            == if StrField(item.fields, "Next").None? then [Issue(ChoiceWithoutNext, JoinPath(itemPath, "Next"), Some(name))] else []
    ensures ChoiceReferenceIssue(name, item, i, names, itemPath)
            == if StrField(item.fields, "Next").Some? && StrField(item.fields, "Next").value !in names
               then [Issue(ChoiceNextMissing(i, StrField(item.fields, "Next").value), JoinPath(itemPath, "Next"), Some(name))] else []
  {
  }

  /** The issues at `<statePath>.Choices[i].Next`: for a Choice whose entry i
      is an object, the missing-`Next` error or the missing-target error,
      never both; nothing otherwise, and nothing for other state types. */
  lemma ChoiceEntryNextRule(name: string, state: Fields, ty: string, names: seq<string>, statePath: string, i: nat)
    requires Get(state, "Choices").Some? && Get(state, "Choices").value.JArr?
    ensures var items := Get(state, "Choices").value.items;
            var p := JoinPath(IndexPath(JoinPath(statePath, "Choices"), i), "Next");
            IssuesAt(TypedStateIssues(name, state, ty, names, statePath), p)
            == (if ty == "Choice" && i < |items| && items[i].JObj? && StrField(items[i].fields, "Next").None?
                then [Issue(ChoiceWithoutNext, p, Some(name))] else [])
               + (if ty == "Choice" && i < |items| && items[i].JObj? && StrField(items[i].fields, "Next").Some?
                     && StrField(items[i].fields, "Next").value !in names
                  then [Issue(ChoiceNextMissing(i, StrField(items[i].fields, "Next").value), p, Some(name))] else [])
    ensures |IssuesAt(TypedStateIssues(name, state, ty, names, statePath), JoinPath(IndexPath(JoinPath(statePath, "Choices"), i), "Next"))| <= 1
  {
    var items := Get(state, "Choices").value.items;
    var p := JoinPath(IndexPath(JoinPath(statePath, "Choices"), i), "Next");
    var a: seq<Issue> := if ty == "Choice" && i < |items| && items[i].JObj? && StrField(items[i].fields, "Next").None?
                         then [Issue(ChoiceWithoutNext, p, Some(name))] else [];
    var b: seq<Issue> := if ty == "Choice" && i < |items| && items[i].JObj? && StrField(items[i].fields, "Next").Some?
                            && StrField(items[i].fields, "Next").value !in names
                         then [Issue(ChoiceNextMissing(i, StrField(items[i].fields, "Next").value), p, Some(name))] else [];
    TypedStateLayout(name, state, ty, names, statePath);
    NothingElseAtEntry(name, state, ty, statePath, i);
    EntryChecksAt(name, state, ty, names, statePath, i);
    OnlyTwoAt(TransitionIssues(name, state, ty, statePath),
              if ty == "Choice" then ChoiceShapeIssues(name, state, statePath) else [],
              if ty == "Parallel" then ParallelIssues(name, state, statePath) else [],
              if ty == "Map" then MapIssues(name, state, statePath) else [],
              ReferenceIssues(name, state, ty, names, statePath), p, a, b);
  }

  /** The transition rules and the nested scopes report nothing at
      `Choices[i].Next`. */
  lemma NothingElseAtEntry(name: string, state: Fields, ty: string, statePath: string, i: nat)
    ensures var p := JoinPath(IndexPath(JoinPath(statePath, "Choices"), i), "Next");
            IssuesAt(TransitionIssues(name, state, ty, statePath), p) == []
            && IssuesAt(if ty == "Parallel" then ParallelIssues(name, state, statePath) else [], p) == []
            && IssuesAt(if ty == "Map" then MapIssues(name, state, statePath) else [], p) == []
  {
    var p := JoinPath(IndexPath(JoinPath(statePath, "Choices"), i), "Next");
    EntryNextExtends(statePath, i);
    IssuesAtNone(TransitionIssues(name, state, ty, statePath), p);
    ParallelPaths(name, state, statePath);
    UnderMissesBelow(if ty == "Parallel" then ParallelIssues(name, state, statePath) else [], statePath, "Branches", "Choices", p);
    MapPaths(name, state, statePath);
    UnderMissesBelow(if ty == "Map" then MapIssues(name, state, statePath) else [], statePath, "Iterator", "Choices", p);
  }

  /** The Choice shape checks and the reference checks at `Choices[i].Next`,
      written out. */
  lemma EntryChecksAt(name: string, state: Fields, ty: string, names: seq<string>, statePath: string, i: nat)
    requires Get(state, "Choices").Some? && Get(state, "Choices").value.JArr?
    ensures var items := Get(state, "Choices").value.items;
            var p := JoinPath(IndexPath(JoinPath(statePath, "Choices"), i), "Next");
            IssuesAt(if ty == "Choice" then ChoiceShapeIssues(name, state, statePath) else [], p)
            == if ty == "Choice" && i < |items| && items[i].JObj? && StrField(items[i].fields, "Next").None?
               then [Issue(ChoiceWithoutNext, p, Some(name))] else []
    ensures var items := Get(state, "Choices").value.items;
            var p := JoinPath(IndexPath(JoinPath(statePath, "Choices"), i), "Next");
            IssuesAt(ReferenceIssues(name, state, ty, names, statePath), p)
            == if ty == "Choice" && i < |items| && items[i].JObj? && StrField(items[i].fields, "Next").Some?
                  && StrField(items[i].fields, "Next").value !in names
               then [Issue(ChoiceNextMissing(i, StrField(items[i].fields, "Next").value), p, Some(name))] else []
  {
    var items := Get(state, "Choices").value.items;
    var choicesPath := JoinPath(statePath, "Choices");
    var itemPath := IndexPath(choicesPath, i);
    var p := JoinPath(itemPath, "Next");
    ReferenceAtEntry(name, state, ty, names, statePath, i);
    if ty == "Choice" {
      ChoiceShapeAtEntry(name, state, statePath, i);
      assert Get(state, "Choices") == Some(JArr(items));
      ChoiceListAtEntry(name, items, choicesPath, i);
      if i < |items| && items[i].JObj? {
        EntryNextIssues(name, items[i], i, names, itemPath);
      } else if i < |items| {
        assert ChoiceReferenceIssue(name, items[i], i, names, itemPath) == [];
      }
    } else {
      IssuesAtNone([], p);
    }
  }

  /** The issues at `<statePath>.Default`: exactly one missing-target error
      when the state is a Choice whose string `Default` names no declared
      state, and nothing otherwise; `Default` is not checked on other types. */
  lemma DefaultAtRule(name: string, state: Fields, ty: string, names: seq<string>, statePath: string)
    ensures IssuesAt(TypedStateIssues(name, state, ty, names, statePath), JoinPath(statePath, "Default"))
            == if ty == "Choice" && StrField(state, "Default").Some? && StrField(state, "Default").value !in names
               then [Issue(DefaultMissing(StrField(state, "Default").value), JoinPath(statePath, "Default"), Some(name))]
               else []
  {
    var p := JoinPath(statePath, "Default");
    var t := TransitionIssues(name, state, ty, statePath);
    var cs := if ty == "Choice" then ChoiceShapeIssues(name, state, statePath) else [];
    var ps := if ty == "Parallel" then ParallelIssues(name, state, statePath) else [];
    var ms := if ty == "Map" then MapIssues(name, state, statePath) else [];
    var rs := ReferenceIssues(name, state, ty, names, statePath);
    var b: seq<Issue> := if ty == "Choice" && StrField(state, "Default").Some? && StrField(state, "Default").value !in names
                         then [Issue(DefaultMissing(StrField(state, "Default").value), p, Some(name))] else [];
    TypedStateLayout(name, state, ty, names, statePath);
    JoinPathExtends(statePath, "Default");
    IssuesAtNone(t, p);
    ChoiceShapeAtDefault(name, state, statePath);
    if ty != "Choice" {
      IssuesAtNone(cs, p);
    }
    ParallelPaths(name, state, statePath);
    UnderMissesBelow(ps, statePath, "Branches", "Default", p);
    MapPaths(name, state, statePath);
    UnderMissesBelow(ms, statePath, "Iterator", "Default", p);
    ReferenceAtDefault(name, state, ty, names, statePath);
    OnlyTwoAt(t, cs, ps, ms, rs, p, [], b);
    assert [] + b == b;
  }

  /** The Choice shape checks report nothing at `.Default`. */
  lemma ChoiceShapeAtDefault(name: string, state: Fields, statePath: string)
    ensures IssuesAt(ChoiceShapeIssues(name, state, statePath), JoinPath(statePath, "Default")) == []
  {
    var choicesPath := JoinPath(statePath, "Choices");
    var p := JoinPath(statePath, "Default");
    var head := ChoiceListIssues(name, Get(state, "Choices"), choicesPath);
    var endPart := if IsBoolField(state, "End") then [Issue(ChoiceHasEnd, JoinPath(statePath, "End"), Some(name))] else [];
    var nextPart := if StrField(state, "Next").Some? then [Issue(ChoiceHasNext, JoinPath(statePath, "Next"), Some(name))] else [];
    ChoiceListUnder(name, Get(state, "Choices"), choicesPath);
    UnderMissesBelow(head, statePath, "Choices", "Default", p);
    UnderMissesBelow(endPart, statePath, "End", "Default", p);
    UnderMissesBelow(nextPart, statePath, "Next", "Default", p);
    IssuesAtAppend(head, endPart, p);
    IssuesAtAppend(head + endPart, nextPart, p);
  }

  /** The checks of the `Choices` entries report nothing at `.Default`. */
  lemma ChoiceReferencesMissDefault(name: string, items: seq<Json>, names: seq<string>, statePath: string)
    ensures IssuesAt(ChoiceReferenceIssues(name, items, |items|, names, JoinPath(statePath, "Choices")), JoinPath(statePath, "Default")) == []
  {
    ChoiceReferencePaths(name, items, |items|, names, JoinPath(statePath, "Choices"));
    UnderMissesBelow(ChoiceReferenceIssues(name, items, |items|, names, JoinPath(statePath, "Choices")),
                     statePath, "Choices", "Default", JoinPath(statePath, "Default"));
  }

  /** The reference checks report at `.Default` only a Choice's missing
      `Default` target. */
  lemma ReferenceAtDefault(name: string, state: Fields, ty: string, names: seq<string>, statePath: string)
    ensures IssuesAt(ReferenceIssues(name, state, ty, names, statePath), JoinPath(statePath, "Default"))
            == if ty == "Choice" && StrField(state, "Default").Some? && StrField(state, "Default").value !in names
               then [Issue(DefaultMissing(StrField(state, "Default").value), JoinPath(statePath, "Default"), Some(name))]
               else []
  {
    var p := JoinPath(statePath, "Default");
    var np := match StrField(state, "Next")
              case Some(t) => if t !in names then [Issue(NextMissing(t), JoinPath(statePath, "Next"), Some(name))] else []
              case None => [];
    var dp := match StrField(state, "Default")
              case Some(d) => if d !in names then [Issue(DefaultMissing(d), p, Some(name))] else []
              case None => [];
    var cp := match Get(state, "Choices")
              case Some(JArr(items)) => ChoiceReferenceIssues(name, items, |items|, names, JoinPath(statePath, "Choices"))
              case _ => [];
    UnderMissesBelow(np, statePath, "Next", "Default", p);
    if ty == "Choice" {
      assert ReferenceIssues(name, state, ty, names, statePath) == np + (dp + cp);
      IssuesAtAll(dp, p);
      match Get(state, "Choices") {
        case Some(JArr(items)) => ChoiceReferencesMissDefault(name, items, names, statePath);
        case _ =>
      }
      IssuesAtAppend(dp, cp, p);
      assert IssuesAt(dp + cp, p) == dp + [] == dp;
      IssuesAtAppend(np, dp + cp, p);
      assert IssuesAt(np + (dp + cp), p) == [] + dp == dp;
    } else {
      assert ReferenceIssues(name, state, ty, names, statePath) == np + [];
      IssuesAtAppend(np, [], p);
    }
  }

  // ---------------------------------------------------------------------
  // Edges and reachability

  lemma {:induction false} ChoiceTargetsMembers(items: seq<Json>, n: nat, t: string)
    requires n <= |items|
    ensures t in ChoiceNextTargets(items, n) <==> exists i :: 0 <= i < n && RuleLeadsTo(items[i], t)
  {
    if n > 0 {
      var prev := ChoiceNextTargets(items, n - 1);
      var piece := RuleTargets(items[n - 1]);
      ChoiceTargetsMembers(items, n - 1, t);
      RuleLeadsToStep(items, n, t);
      RuleTargetsOf(items[n - 1], t);
      InAppend(prev, piece, t);
      UnionStep(t in prev, t in piece, t in prev + piece,
                exists i :: 0 <= i < n - 1 && RuleLeadsTo(items[i], t), RuleLeadsTo(items[n - 1], t),
                exists i :: 0 <= i < n && RuleLeadsTo(items[i], t));
    }
  }

  lemma RuleLeadsToStep(items: seq<Json>, n: nat, t: string)
    requires 0 < n <= |items|
    ensures (exists i :: 0 <= i < n && RuleLeadsTo(items[i], t))
            <==> (exists i :: 0 <= i < n - 1 && RuleLeadsTo(items[i], t)) || RuleLeadsTo(items[n - 1], t)
  {
    if exists i :: 0 <= i < n && RuleLeadsTo(items[i], t) {
      var i :| 0 <= i < n && RuleLeadsTo(items[i], t);
    }
  }

  lemma {:induction false} BranchTargetsMembers(bs: seq<Json>, n: nat, t: string)
    requires n <= |bs|
    ensures t in BranchStartTargets(bs, n) <==> exists i :: 0 <= i < n && BranchStartsAt(bs[i], t)
  {
    if n > 0 {
      var prev := BranchStartTargets(bs, n - 1);
      var piece := BranchTargets(bs[n - 1]);
      BranchTargetsMembers(bs, n - 1, t);
      BranchStartsAtStep(bs, n, t);
      BranchTargetsOf(bs[n - 1], t);
      InAppend(prev, piece, t);
      UnionStep(t in prev, t in piece, t in prev + piece,
                exists i :: 0 <= i < n - 1 && BranchStartsAt(bs[i], t), BranchStartsAt(bs[n - 1], t),
                exists i :: 0 <= i < n && BranchStartsAt(bs[i], t));
    }
  }

  lemma BranchStartsAtStep(bs: seq<Json>, n: nat, t: string)
    requires 0 < n <= |bs|
    ensures (exists i :: 0 <= i < n && BranchStartsAt(bs[i], t))
            <==> (exists i :: 0 <= i < n - 1 && BranchStartsAt(bs[i], t)) || BranchStartsAt(bs[n - 1], t)
  {
    if exists i :: 0 <= i < n && BranchStartsAt(bs[i], t) {
      var i :| 0 <= i < n && BranchStartsAt(bs[i], t);
    }
  }

  lemma RuleTargetsOf(item: Json, t: string)
    ensures t in RuleTargets(item) <==> RuleLeadsTo(item, t)
  {
  }

  lemma BranchTargetsOf(b: Json, t: string)
    ensures t in BranchTargets(b) <==> BranchStartsAt(b, t)
  {
    if b.JObj? {
      match (StrField(b.fields, "StartAt"), Get(b.fields, "States"))
      case (Some(x), Some(JObj(_))) =>
        assert BranchTargets(b) == [x];
      case _ =>
    }
  }

  /** `getTransitionsForState` yields exactly the edges of the state: `Next`;
      for a Choice every `Choices[i].Next` and `Default`; for a Parallel the
      `StartAt` of every object branch with a string `StartAt` and an object
      `States`; for a Map the `Iterator.StartAt`. */
  lemma TransitionsMatchEdges(state: Fields, t: string)
    ensures t in Transitions(state) <==> IsEdge(state, t)
  {
    match Get(state, "Choices") {
      case Some(JArr(items)) => ChoiceTargetsMembers(items, |items|, t);
      case _ =>
    }
    match Get(state, "Branches") {
      case Some(JArr(bs)) => BranchTargetsMembers(bs, |bs|, t);
      case _ =>
    }
  }

  lemma {:induction false} WarningMembership(states: Fields, start: string, n: nat, statesPath: string, name: string)
    requires n <= |states|
    ensures Issue(Unreachable, JoinPath(statesPath, name), Some(name)) in UnreachableWarnings(states, start, n, statesPath)
            <==> DeclaredBefore(states, n, name) && !IsReachable(states, start, name)
  {
    if n > 0 {
      var w := Issue(Unreachable, JoinPath(statesPath, name), Some(name));
      var last := states[n - 1].0;
      var prev := UnreachableWarnings(states, start, n - 1, statesPath);
      var piece := UnreachableWarning(states, start, statesPath, last);
      var unreached := !IsReachable(states, start, name);
      WarningMembership(states, start, n - 1, statesPath, name);
      WarningOfPiece(states, start, statesPath, last, name);
      DeclaredBeforeStep(states, n, name);
      UnreachableWarningsStep(states, start, n, statesPath);
      MembershipStep(w in prev, w in piece, w in prev + piece, DeclaredBefore(states, n - 1, name),
                     DeclaredBefore(states, n, name), last == name, unreached);
    }
  }

  /** The warning for `name` comes from the piece of `last` exactly when the
      two are the same unreachable name. */
  lemma WarningOfPiece(states: Fields, start: string, statesPath: string, last: string, name: string)
    ensures Issue(Unreachable, JoinPath(statesPath, name), Some(name)) in UnreachableWarning(states, start, statesPath, last)
            <==> last == name && !IsReachable(states, start, name)
  {
    if !IsReachable(states, start, last) {
      assert UnreachableWarning(states, start, statesPath, last) == [Issue(Unreachable, JoinPath(statesPath, last), Some(last))];
    }
  }

  /** A declared name is warned exactly when no walk from `StartAt` reaches
      it. */
  lemma UnreachableRule(states: Fields, start: string, statesPath: string, name: string)
    ensures Issue(Unreachable, JoinPath(statesPath, name), Some(name)) in UnreachableWarnings(states, start, |states|, statesPath)
            <==> name in Keys(states) && !IsReachable(states, start, name)
  {
    WarningMembership(states, start, |states|, statesPath, name);
    DeclaredBeforeAll(states, name);
  }

  /** The traversal never marks the empty name, so a state declared under the
      empty name is always warned. */
  lemma EmptyNameAlwaysWarned(states: Fields, start: string, statesPath: string)
    requires "" in Keys(states)
    ensures Issue(Unreachable, JoinPath(statesPath, ""), Some("")) in UnreachableWarnings(states, start, |states|, statesPath)
  {
    UnreachableRule(states, start, statesPath, "");
  }

  /** Some state among the first n is declared under `name`. */
  ghost predicate DeclaredBefore(states: Fields, n: nat, name: string)
    requires n <= |states|
  {
    name in Keys(states)[..n]
  }

  lemma DeclaredBeforeStep(states: Fields, n: nat, name: string)
    requires 0 < n <= |states|
    ensures DeclaredBefore(states, n, name) <==> DeclaredBefore(states, n - 1, name) || states[n - 1].0 == name
  {
    assert Keys(states)[..n] == Keys(states)[..n - 1] + [states[n - 1].0];
  }

  lemma DeclaredBeforeAll(states: Fields, name: string)
    ensures DeclaredBefore(states, |states|, name) <==> name in Keys(states)
  {
    assert Keys(states)[..|states|] == Keys(states);
  }

  lemma NotDeclaredTwice(states: Fields, n: nat)
    requires 0 < n <= |states| && UniqueKeys(states)
    ensures !DeclaredBefore(states, n - 1, states[n - 1].0)
  {
    var before := Keys(states)[..n - 1];
    forall j | 0 <= j < |before| ensures before[j] != states[n - 1].0 {
      assert before[j] == states[j].0;
    }
  }

  /** The warning of `last` is the warning of `name` exactly when the two
      names agree and the name is unreachable. */
  lemma WarningOfCount(states: Fields, start: string, statesPath: string, last: string, name: string)
    ensures multiset(UnreachableWarning(states, start, statesPath, last))[Issue(Unreachable, JoinPath(statesPath, name), Some(name))]
            == if last == name && !IsReachable(states, start, name) then 1 else 0
  {
    var w := Issue(Unreachable, JoinPath(statesPath, name), Some(name));
    var piece := UnreachableWarning(states, start, statesPath, last);
    if !IsReachable(states, start, last) {
      assert piece == [Issue(Unreachable, JoinPath(statesPath, last), Some(last))];
      assert multiset(piece)[w] == if last == name then 1 else 0;
    }
  }

  lemma {:induction false} WarningCount(states: Fields, start: string, n: nat, statesPath: string, name: string)
    requires n <= |states| && UniqueKeys(states)
    ensures multiset(UnreachableWarnings(states, start, n, statesPath))[Issue(Unreachable, JoinPath(statesPath, name), Some(name))]
            == if DeclaredBefore(states, n, name) && !IsReachable(states, start, name) then 1 else 0
  {
    if n > 0 {
      WarningCount(states, start, n - 1, statesPath, name);
      var w := Issue(Unreachable, JoinPath(statesPath, name), Some(name));
      var last := states[n - 1].0;
      var prev := UnreachableWarnings(states, start, n - 1, statesPath);
      var piece := UnreachableWarning(states, start, statesPath, last);
      var unreached := !IsReachable(states, start, name);
      UnreachableWarningsStep(states, start, n, statesPath);
      MultisetCountAppend(prev, piece, w);
      WarningOfCount(states, start, statesPath, last, name);
      DeclaredBeforeStep(states, n, name);
      if last == name {
        NotDeclaredTwice(states, n);
      }
      CountStep(multiset(prev)[w], multiset(piece)[w], multiset(prev + piece)[w], DeclaredBefore(states, n - 1, name),
                DeclaredBefore(states, n, name), last == name, unreached);
    }
  }

  /** With unique keys, each unreachable declared name is warned exactly once,
      and a reachable one never. */
  lemma UnreachableWarnedOnce(states: Fields, start: string, statesPath: string, name: string)
    requires UniqueKeys(states)
    ensures multiset(UnreachableWarnings(states, start, |states|, statesPath))[Issue(Unreachable, JoinPath(statesPath, name), Some(name))]
            == if name in Keys(states) && !IsReachable(states, start, name) then 1 else 0
  {
    WarningCount(states, start, |states|, statesPath, name);
    DeclaredBeforeAll(states, name);
  }

  lemma {:induction false} WarningKinds(states: Fields, start: string, n: nat, statesPath: string)
    requires n <= |states|
    ensures forall x :: x in UnreachableWarnings(states, start, n, statesPath)
              ==> x.kind == Unreachable && x.stateName.Some? && x.stateName.value in Keys(states)
                  && x.path == JoinPath(statesPath, x.stateName.value)
  {
    if n > 0 {
      WarningKinds(states, start, n - 1, statesPath);
      UnreachableWarningsStep(states, start, n, statesPath);
      var last := states[n - 1].0;
      assert last == Keys(states)[n - 1];
      forall x | x in UnreachableWarning(states, start, statesPath, last)
        ensures x.kind == Unreachable && x.stateName.Some? && x.stateName.value in Keys(states)
                && x.path == JoinPath(statesPath, x.stateName.value)
      {
      }
    }
  }

  /** A scope with an object `States` reports its `StartAt` checks, then every
      state's checks in declaration order, then (only when `StartAt` is a
      string) its unreachable-state warnings, which are warnings about
      declared names. */
  lemma ScopeLayout(scope: Fields, scopePath: string)
    requires Get(scope, "States").Some? && Get(scope, "States").value.JObj?
    ensures var states := Get(scope, "States").value.fields;
            var statesPath := JoinPath(scopePath, "States");
            && ScopeIssues(scope, scopePath)
               == StartAtIssues(scope, scopePath, Some(Keys(states)))
                  + EntriesIssues(states, |states|, Keys(states), statesPath)
                  + ReachabilityIssues(scope, states, statesPath)
            && (StrField(scope, "StartAt").None? ==> ReachabilityIssues(scope, states, statesPath) == [])
            && (forall x :: x in ReachabilityIssues(scope, states, statesPath)
                  ==> SeverityOf(x.kind) == Warning && x.kind == Unreachable
                      && x.stateName.Some? && x.stateName.value in Keys(states)
                      && x.path == JoinPath(statesPath, x.stateName.value))
  {
    var states := Get(scope, "States").value.fields;
    var statesPath := JoinPath(scopePath, "States");
    match StrField(scope, "StartAt") {
      case Some(start) => WarningKinds(states, start, |states|, statesPath);
      case None =>
    }
  }

  /** From a `StartAt` that is not declared, no declared name is reachable. */
  lemma MissingStartReachesNothing(states: Fields, start: string, name: string)
    requires start !in Keys(states) && name in Keys(states)
    ensures !IsReachable(states, start, name)
  {
    forall p | IsWalk(states, p) && p[0] == start ensures p[|p| - 1] != name {
      if |p| > 1 {
        assert StepAt(states, p, 0);
        GetDefined(states, start);
      }
    }
  }

  lemma {:induction false} AllWarned(states: Fields, start: string, n: nat, statesPath: string)
    requires start !in Keys(states) && n <= |states|
    ensures UnreachableWarnings(states, start, n, statesPath) == AllUnreachable(states, statesPath)[..n]
  {
    if n > 0 {
      var all := AllUnreachable(states, statesPath);
      var last := states[n - 1].0;
      AllWarned(states, start, n - 1, statesPath);
      UnreachableWarningsStep(states, start, n, statesPath);
      assert last in Keys(states) by {
        assert last == Keys(states)[n - 1];
      }
      MissingStartReachesNothing(states, start, last);
      assert UnreachableWarning(states, start, statesPath, last) == [all[n - 1]];
      PrefixSnoc(UnreachableWarnings(states, start, n, statesPath), UnreachableWarnings(states, start, n - 1, statesPath),
                 UnreachableWarning(states, start, statesPath, last), all, n);
    }
  }

  /** One `Unreachable` warning per declared state, in declaration order. */
  function AllUnreachable(states: Fields, statesPath: string): (r: seq<Issue>)
    ensures |r| == |states|
    ensures forall k :: 0 <= k < |states| ==> r[k] == Issue(Unreachable, JoinPath(statesPath, states[k].0), Some(states[k].0))
  {
    seq(|states|, k requires 0 <= k < |states| => Issue(Unreachable, JoinPath(statesPath, states[k].0), Some(states[k].0)))
  }

  /** A string `StartAt` naming no declared state: the scope's first issue is
      the missing-target error, and its last issues are one warning per
      declared state, in declaration order. */
  lemma MissingStartAtWarnsEveryState(scope: Fields, scopePath: string)
    requires Get(scope, "States").Some? && Get(scope, "States").value.JObj?
    requires StrField(scope, "StartAt").Some?
    requires StrField(scope, "StartAt").value !in Keys(Get(scope, "States").value.fields)
    ensures var states := Get(scope, "States").value.fields;
            var start := StrField(scope, "StartAt").value;
            var issues := ScopeIssues(scope, scopePath);
            && |issues| >= 1 + |states|
            && issues[0] == Issue(StartAtMissing(start), JoinPath(scopePath, "StartAt"), None)
            && issues[|issues| - |states|..] == AllUnreachable(states, JoinPath(scopePath, "States"))
  {
    var states := Get(scope, "States").value.fields;
    var start := StrField(scope, "StartAt").value;
    var statesPath := JoinPath(scopePath, "States");
    var head := StartAtIssues(scope, scopePath, Some(Keys(states)));
    var entries := EntriesIssues(states, |states|, Keys(states), statesPath);
    var warnings := UnreachableWarnings(states, start, |states|, statesPath);
    var issues := ScopeIssues(scope, scopePath);
    assert head == [Issue(StartAtMissing(start), JoinPath(scopePath, "StartAt"), None)];
    assert issues == head + entries + warnings by {
      assert ReachabilityIssues(scope, states, statesPath) == warnings;
    }
    assert warnings == AllUnreachable(states, statesPath) by {
      AllWarned(states, start, |states|, statesPath);
      assert AllUnreachable(states, statesPath)[..|states|] == AllUnreachable(states, statesPath);
    }
    BothEnds(issues, head, entries, warnings);
    assert issues[0] == issues[..1][0];
  }

  // ---------------------------------------------------------------------
  // Where a state's issues end up

  lemma {:induction false} EntriesContainState(states: Fields, n: nat, names: seq<string>, statesPath: string, i: nat)
    requires i < n <= |states|
    ensures forall x :: x in StateIssues(states[i].0, states[i].1, names, JoinPath(statesPath, states[i].0))
              ==> x in EntriesIssues(states, n, names, statesPath)
  {
    var own := StateIssues(states[i].0, states[i].1, names, JoinPath(statesPath, states[i].0));
    var prev := EntriesIssues(states, n - 1, names, statesPath);
    var last := StateIssues(states[n - 1].0, states[n - 1].1, names, JoinPath(statesPath, states[n - 1].0));
    assert EntriesIssues(states, n, names, statesPath) == prev + last;
    if i < n - 1 {
      EntriesContainState(states, n - 1, names, statesPath, i);
      assert forall x :: x in own ==> x in prev;
    } else {
      assert own == last;
    }
  }

  /** Every issue of the i-th declared state is an issue of its scope. */
  lemma ScopeContainsState(scope: Fields, scopePath: string, i: nat)
    requires Get(scope, "States").Some? && Get(scope, "States").value.JObj?
    requires i < |Get(scope, "States").value.fields|
    ensures var states := Get(scope, "States").value.fields;
            var statesPath := JoinPath(scopePath, "States");
            forall x :: x in StateIssues(states[i].0, states[i].1, Keys(states), JoinPath(statesPath, states[i].0))
              ==> x in ScopeIssues(scope, scopePath)
  {
    var states := Get(scope, "States").value.fields;
    ScopeLayout(scope, scopePath);
    EntriesContainState(states, |states|, Keys(states), JoinPath(scopePath, "States"), i);
  }

  // ---------------------------------------------------------------------
  // Sequence helpers: concatenation, membership and the propositional and
  // arithmetic steps shared by the inductions above

  lemma InAppend<T>(a: seq<T>, b: seq<T>, x: T)
    ensures x in a + b <==> x in a || x in b
  {
  }

  lemma MiddleMembership(t: seq<Issue>, cs: seq<Issue>, rs: seq<Issue>, x: Issue)
    requires x !in t && x !in rs
    ensures x in t + cs + rs <==> x in cs
  {
  }

  lemma LastMembership(t: seq<Issue>, cs: seq<Issue>, rs: seq<Issue>, x: Issue)
    requires x !in t && x !in cs
    ensures x in t + cs + rs <==> x in rs
  {
  }

  lemma DropEmpty(t: seq<Issue>, cs: seq<Issue>, rs: seq<Issue>)
    ensures t + cs + [] + [] + rs == t + cs + rs
  {
  }

  /** Reading a list `head + rest + tail` from both ends. */
  lemma BothEnds(issues: seq<Issue>, head: seq<Issue>, rest: seq<Issue>, tail: seq<Issue>)
    requires issues == head + rest + tail
    ensures |issues| >= |head| + |tail|
    ensures issues[..|head|] == head && issues[|issues| - |tail|..] == tail
  {
  }

  /** A list built as the first n - 1 elements of `all` and then its element
      n - 1 is the first n elements of `all`. */
  lemma PrefixSnoc<T>(w: seq<T>, prev: seq<T>, piece: seq<T>, all: seq<T>, n: nat)
    requires 0 < n <= |all|
    requires w == prev + piece && prev == all[..n - 1] && piece == [all[n - 1]]
    ensures w == all[..n]
  {
    assert all[..n] == all[..n - 1] + [all[n - 1]];
  }

  lemma MultisetCountAppend(a: seq<Issue>, b: seq<Issue>, x: Issue)
    ensures multiset(a + b)[x] == multiset(a)[x] + multiset(b)[x]
  {
    assert multiset(a + b) == multiset(a) + multiset(b);
  }

  /** The propositional step of a membership induction over a list built by
      appending one piece at a time. */
  lemma UnionStep(inPrev: bool, inPiece: bool, inAll: bool, before: bool, here: bool, now: bool)
    requires inPrev <==> before
    requires inPiece <==> here
    requires inAll <==> inPrev || inPiece
    requires now <==> before || here
    ensures inAll <==> now
  {
  }

  /** The propositional step shared by the membership induction. */
  lemma MembershipStep(inPrev: bool, inPiece: bool, inAll: bool, before: bool, now: bool, same: bool, unreached: bool)
    requires inPrev <==> before && unreached
    requires inPiece <==> same && unreached
    requires inAll <==> inPrev || inPiece
    requires now <==> before || same
    ensures inAll <==> now && unreached
  {
  }

  /** The arithmetic step shared by the counting induction. */
  lemma CountStep(inPrev: int, inPiece: int, inAll: int, before: bool, now: bool, same: bool, unreached: bool)
    requires inPrev == if before && unreached then 1 else 0
    requires inPiece == if same && unreached then 1 else 0
    requires inAll == inPrev + inPiece
    requires now <==> before || same
    requires same ==> !before
    ensures inAll == if now && unreached then 1 else 0
  {
  }

  /** A part of a running concatenation is contained in its end. */
  lemma {:induction false} PartInTotal<T>(parts: seq<seq<T>>, totals: seq<seq<T>>, i: nat, x: T)
    requires |totals| == |parts| + 1
    requires forall k :: 0 <= k < |parts| ==> totals[k + 1] == totals[k] + parts[k]
    requires i < |parts| && x in parts[i]
    ensures x in totals[|parts|]
  {
    var n := |parts|;
    assert totals[n] == totals[n - 1] + parts[n - 1];
    if i < n - 1 {
      PartInTotal(parts[..n - 1], totals[..n], i, x);
    }
  }

  /** A running concatenation of parts of which only part i can be non-empty
      ends in part i, or in nothing when there is no part i. */
  lemma {:induction false} OnlyOnePart<T>(parts: seq<seq<T>>, totals: seq<seq<T>>, i: nat)
    requires |totals| == |parts| + 1 && totals[0] == []
    requires forall k :: 0 <= k < |parts| ==> totals[k + 1] == totals[k] + parts[k]
    requires forall k :: 0 <= k < |parts| && k != i ==> parts[k] == []
    ensures totals[|parts|] == if i < |parts| then parts[i] else []
  {
    var n := |parts|;
    if n > 0 {
      OnlyOnePart(parts[..n - 1], totals[..n], i);
      assert totals[n] == totals[n - 1] + parts[n - 1];
      if i == n - 1 {
        assert totals[n - 1] + parts[n - 1] == parts[n - 1];
      } else {
        assert parts[n - 1] == [];
        assert totals[n - 1] + parts[n - 1] == totals[n - 1];
      }
    }
  }
}
