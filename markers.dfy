/** The mapping from validation issues to editor markers of
    src/validation/monacoMarkers.ts: offsets become 1-based line/column
    positions, a dotted issue path becomes a list of keys and indices for a
    JSON tree lookup, and every issue gets a range by a three-tier fallback.

    The JSON tree lookup (`parseTree` plus `findNodeAtLocation` of
    jsonc-parser) is foreign code; it is the parameter `locate`, which maps
    the text and the tokens to the offset and length of a node, or to
    nothing. */
module Markers {
  import opened JsonModel
  import opened Text
  import Asl

  // ---------------------------------------------------------------------
  // Positions

  /** A Monaco position: both coordinates start at 1. */
  datatype Position = Position(lineNumber: nat, column: nat)

  datatype Range = Range(startLineNumber: nat, startColumn: nat, endLineNumber: nat, endColumn: nat)

  /** Monaco's `MarkerSeverity`, of which only two values are used. */
  datatype MarkerSeverity = Error | Warning

  /** `IMarkerData`: a range, a message and a severity. */
  datatype Marker = Marker(range: Range, message: string, severity: MarkerSeverity)

  /** `b` is not before `a` in line-then-column order. */
  predicate NotBefore(a: Position, b: Position) {
    a.lineNumber < b.lineNumber || (a.lineNumber == b.lineNumber && a.column <= b.column)
  }

  /** The number of line feeds in `s`. */
  function NewlineCount(s: string): (r: nat)
    ensures r == multiset(s)['\n']
  {
    if |s| == 0 then 0
    else
      assert s == s[..|s| - 1] + [s[|s| - 1]];
      NewlineCount(s[..|s| - 1]) + (if s[|s| - 1] == '\n' then 1 else 0)
  }

  /** The number of characters after the last line feed of `s` (all of `s`
      when it has none). */
  function ColumnTail(s: string): nat {
    if |s| == 0 then 0
    else if s[|s| - 1] == '\n' then 0
    else ColumnTail(s[..|s| - 1]) + 1
  }

  /** The tail is as long as possible without a line feed: it is preceded by
      one or by the start of `s`. */
  lemma {:induction false} ColumnTailRule(s: string)
    ensures ColumnTail(s) <= |s|
    ensures forall i :: |s| - ColumnTail(s) <= i < |s| ==> s[i] != '\n'
    ensures ColumnTail(s) < |s| ==> s[|s| - 1 - ColumnTail(s)] == '\n'
  {
    if |s| > 0 && s[|s| - 1] != '\n' {
      ColumnTailRule(s[..|s| - 1]);
      var r := ColumnTail(s);
      assert forall i :: |s| - r <= i < |s| - 1 ==> s[i] == s[..|s| - 1][i];
    }
  }

  /** The position just after the characters of `s`. */
  function PositionAfter(s: string): (p: Position)
    ensures p.lineNumber >= 1 && p.column >= 1
  {
    Position(1 + NewlineCount(s), 1 + ColumnTail(s))
  }

  /** The source's offset loop stops at the offset or at the end of the text,
      whichever comes first; a negative offset scans nothing. */
  function Clamp(offset: int, n: nat): (k: nat)
    ensures k <= n
    ensures offset <= 0 ==> k == 0
    ensures 0 <= offset <= n ==> k == offset
    ensures offset >= n ==> k == n
  {
    if offset < 0 then 0 else if offset > n then n else offset
  }

  /** What `offsetToPosition(text, offset)` returns. */
  function PositionAt(text: string, offset: int): Position {
    PositionAfter(text[..Clamp(offset, |text|)])
  }

  /** `offsetToPosition`: the line/column scanner over the first characters. */
  method OffsetToPosition(text: string, offset: int) returns (p: Position)
    ensures p == PositionAt(text, offset)
    ensures p.lineNumber == 1 + multiset(text[..Clamp(offset, |text|)])['\n']
  {
    var line := 1;
    var column := 1;
    var i := 0;
    while i < offset && i < |text|
      invariant 0 <= i <= Clamp(offset, |text|)
      invariant line == 1 + NewlineCount(text[..i])
      invariant column == 1 + ColumnTail(text[..i])
    {
      assert text[..i + 1][..i] == text[..i];
      if text[i] == '\n' {
        line := line + 1;
        column := 1;
      } else {
        column := column + 1;
      }
      i := i + 1;
    }
    p := Position(line, column);
  }

  /** Scanning one more character never moves the position backwards. */
  lemma PositionAfterStep(s: string)
    requires |s| > 0
    ensures NotBefore(PositionAfter(s[..|s| - 1]), PositionAfter(s))
  {
  }

  lemma {:induction false} PositionAfterMonotone(s: string, k: nat)
    requires k <= |s|
    ensures NotBefore(PositionAfter(s[..k]), PositionAfter(s))
    decreases |s| - k
  {
    if k < |s| {
      PositionAfterMonotone(s[..|s| - 1], k);
      assert s[..|s| - 1][..k] == s[..k];
      PositionAfterStep(s);
    } else {
      assert s[..k] == s;
    }
  }

  /** A later offset gives a position that is not before an earlier one; so
      does any offset compared with a non-positive one. */
  lemma PositionAtMonotone(text: string, a: int, b: int)
    requires a <= b || a <= 0
    ensures NotBefore(PositionAt(text, a), PositionAt(text, b))
  {
    var j := Clamp(b, |text|);
    PositionAfterMonotone(text[..j], Clamp(a, |text|));
    assert text[..j][..Clamp(a, |text|)] == text[..Clamp(a, |text|)];
  }

  function Max(a: int, b: int): int {
    if a >= b then a else b
  }

  function StartOf(r: Range): Position {
    Position(r.startLineNumber, r.startColumn)
  }

  function EndOf(r: Range): Position {
    Position(r.endLineNumber, r.endColumn)
  }

  /** A range with 1-based coordinates whose end is not before its start. */
  predicate WellFormed(r: Range) {
    r.startLineNumber >= 1 && r.startColumn >= 1 && NotBefore(StartOf(r), EndOf(r))
  }

  /** `rangeFromOffsets`: the start offset is raised to 0 and the end offset to
      the start offset, so the range is never inverted. */
  function RangeFromOffsets(text: string, startOffset: int, endOffset: int): (r: Range)
    ensures WellFormed(r)
    ensures StartOf(r) == PositionAt(text, Max(0, startOffset))
    ensures EndOf(r) == PositionAt(text, Max(startOffset, endOffset))
  {
    var start := PositionAt(text, Max(0, startOffset));
    var end := PositionAt(text, Max(startOffset, endOffset));
    PositionAtMonotone(text, Max(0, startOffset), Max(startOffset, endOffset));
    Range(start.lineNumber, start.column, end.lineNumber, end.column)
  }

  /** The document-start range used as the last fallback. */
  function DocStart(text: string): Range {
    RangeFromOffsets(text, 0, if |text| < 1 then |text| else 1)
  }

  /** The document-start range covers the first character: zero-width at (1,1)
      on an empty text, up to the start of line 2 when the text begins with a
      line feed, and (1,1)-(1,2) otherwise. */
  lemma DocStartShape(text: string)
    ensures |text| == 0 ==> DocStart(text) == Range(1, 1, 1, 1)
    ensures |text| > 0 && text[0] == '\n' ==> DocStart(text) == Range(1, 1, 2, 1)
    ensures |text| > 0 && text[0] != '\n' ==> DocStart(text) == Range(1, 1, 1, 2)
  {
    if |text| > 0 {
      assert text[..1] == [text[0]];
      assert text[..1][..0] == [];
    }
  }

  /** `severityToMonaco`: only an error issue becomes an Error marker. */
  function SeverityToMonaco(severity: Asl.Severity): (m: MarkerSeverity)
    ensures m == Error <==> severity == Asl.Error
    ensures m == Warning <==> severity != Asl.Error
  {
    if severity == Asl.Error then Error else Warning
  }

  // ---------------------------------------------------------------------
  // Finding a state name in the text

  predicate OccursAt(text: string, needle: string, i: int) {
    0 <= i && i + |needle| <= |text| && text[i..i + |needle|] == needle
  }

  function IndexFrom(text: string, needle: string, k: nat): int
    requires k <= |text| + 1
    decreases |text| + 1 - k
  {
    if k + |needle| > |text| then -1
    else if text[k..k + |needle|] == needle then k
    else IndexFrom(text, needle, k + 1)
  }

  lemma {:induction false} IndexFromRule(text: string, needle: string, k: nat)
    requires k <= |text| + 1
    ensures var r := IndexFrom(text, needle, k);
            && (r == -1 || k <= r)
            && (r >= 0 ==> OccursAt(text, needle, r) && forall j :: k <= j < r ==> !OccursAt(text, needle, j))
            && (r == -1 ==> forall j :: k <= j ==> !OccursAt(text, needle, j))
    decreases |text| + 1 - k
  {
    if k + |needle| <= |text| && text[k..k + |needle|] != needle {
      IndexFromRule(text, needle, k + 1);
    }
  }

  /** `String.prototype.indexOf`: the first offset where `needle` occurs, or
      -1 when it occurs nowhere. */
  function IndexOf(text: string, needle: string): int {
    IndexFrom(text, needle, 0)
  }

  lemma IndexOfRule(text: string, needle: string)
    ensures IndexOf(text, needle) >= -1
    ensures IndexOf(text, needle) == -1 <==> forall j :: !OccursAt(text, needle, j)
    ensures IndexOf(text, needle) >= 0 ==>
              && OccursAt(text, needle, IndexOf(text, needle))
              && forall j :: j < IndexOf(text, needle) ==> !OccursAt(text, needle, j)
  {
    IndexFromRule(text, needle, 0);
  }

  function Quoted(name: string): (q: string)
    ensures |q| == |name| + 2 && q[1..|q| - 1] == name
  {
    "\"" + name + "\""
  }

  /** `guessRangeForStateName`. */
  function GuessRangeForStateName(text: string, stateName: string): Option<Range> {
    var idx := IndexOf(text, Quoted(stateName));
    if idx < 0 then None
    else Some(RangeFromOffsets(text, idx + 1, idx + |Quoted(stateName)| - 1))
  }

  /** Nothing exactly when the quoted name occurs nowhere; otherwise the range
      of the name, without its quotes, at its first quoted occurrence. */
  lemma GuessRangeRule(text: string, stateName: string)
    ensures GuessRangeForStateName(text, stateName).None? <==> forall j :: !OccursAt(text, Quoted(stateName), j)
    ensures GuessRangeForStateName(text, stateName).Some? ==>
              var idx := IndexOf(text, Quoted(stateName));
              && OccursAt(text, Quoted(stateName), idx)
              && (forall j :: j < idx ==> !OccursAt(text, Quoted(stateName), j))
              && text[idx + 1..idx + 1 + |stateName|] == stateName
              && GuessRangeForStateName(text, stateName).value == RangeFromOffsets(text, idx + 1, idx + 1 + |stateName|)
  {
    GuessRangeNone(text, stateName);
    GuessRangeFirst(text, stateName);
    GuessRangeName(text, stateName);
    GuessRangeOffsets(text, stateName);
  }

  lemma GuessRangeNone(text: string, stateName: string)
    ensures GuessRangeForStateName(text, stateName).None? <==> forall j :: !OccursAt(text, Quoted(stateName), j)
  {
    IndexOfRule(text, Quoted(stateName));
  }

  lemma GuessRangeFirst(text: string, stateName: string)
    ensures GuessRangeForStateName(text, stateName).Some? ==>
              var idx := IndexOf(text, Quoted(stateName));
              && OccursAt(text, Quoted(stateName), idx)
              && (forall j :: j < idx ==> !OccursAt(text, Quoted(stateName), j))
  {
    IndexOfRule(text, Quoted(stateName));
  }

  lemma GuessRangeName(text: string, stateName: string)
    ensures GuessRangeForStateName(text, stateName).Some? ==>
              var idx := IndexOf(text, Quoted(stateName));
              && 0 <= idx && idx + 1 + |stateName| <= |text|
              && text[idx + 1..idx + 1 + |stateName|] == stateName
  {
    var needle := Quoted(stateName);
    var idx := IndexOf(text, needle);
    if idx >= 0 {
      IndexOfFound(text, needle);
      QuotedNameAt(text, stateName, idx);
    }
  }

  lemma GuessRangeOffsets(text: string, stateName: string)
    ensures GuessRangeForStateName(text, stateName).Some? ==>
              var idx := IndexOf(text, Quoted(stateName));
              GuessRangeForStateName(text, stateName).value == RangeFromOffsets(text, idx + 1, idx + 1 + |stateName|)
  {
  }

  lemma IndexOfFound(text: string, needle: string)
    ensures IndexOf(text, needle) >= 0 ==> OccursAt(text, needle, IndexOf(text, needle))
  {
    IndexOfRule(text, needle);
  }

  /** Where the quoted name occurs, the name itself starts one character on. */
  lemma QuotedNameAt(text: string, name: string, idx: int)
    requires OccursAt(text, Quoted(name), idx)
    ensures text[idx + 1..idx + 1 + |name|] == name
  {
    var needle := Quoted(name);
    assert text[idx..idx + |needle|] == needle;
    forall j | 0 <= j < |name| ensures text[idx + 1 + j] == name[j] {
      assert text[idx + 1 + j] == text[idx..idx + |needle|][1 + j];
      assert needle[1 + j] == needle[1..|needle| - 1][j];
    }
  }

  // ---------------------------------------------------------------------
  // Tokenizing an issue path

  /** A `findNodeAtLocation` path element. */
  datatype Token = Key(key: string) | Index(index: nat)

  /** `path.replace(/^<root>\.?/, "")`. */
  function StripRoot(path: string): string {
    if |path| >= 6 && path[..6] == "<root>" then
      if |path| > 6 && path[6] == '.' then path[7..] else path[6..]
    else path
  }

  /** The root prefix and one following dot are removed; a path that does not
      start with the root marker is kept. */
  lemma StripRootRule(rest: string)
    ensures StripRoot("<root>" + "." + rest) == rest
    ensures StripRoot("<root>") == ""
    ensures !("<root>" <= rest) ==> StripRoot(rest) == rest
  {
    var p := "<root>" + "." + rest;
    assert p[..6] == "<root>";
    assert p[6] == '.';
    assert p[7..] == rest;
    if |rest| >= 6 && rest[..6] == "<root>" {
      assert "<root>" <= rest;
    }
  }

  /** Joining parts with dots; the inverse of `SplitDots`. */
  function JoinDots(parts: seq<string>): string
    requires |parts| > 0
  {
    if |parts| == 1 then parts[0] else parts[0] + "." + JoinDots(parts[1..])
  }

  /** `s.split(".")`: the maximal dot-free pieces, empty ones included. */
  function SplitDots(s: string): (parts: seq<string>)
    ensures |parts| > 0
  {
    if |s| == 0 then [""]
    else if s[0] == '.' then [""] + SplitDots(s[1..])
    else
      var rest := SplitDots(s[1..]);
      [[s[0]] + rest[0]] + rest[1..]
  }

  /** The parts are dot-free. */
  lemma {:induction false} SplitDotsDotFree(s: string)
    ensures forall i :: 0 <= i < |SplitDots(s)| ==> '.' !in SplitDots(s)[i]
  {
    if |s| > 0 {
      SplitDotsDotFree(s[1..]);
      var rest := SplitDots(s[1..]);
      var parts := SplitDots(s);
      if s[0] == '.' {
        assert forall i :: 1 <= i < |parts| ==> parts[i] == rest[i - 1];
      } else {
        assert forall i :: 1 <= i < |parts| ==> parts[i] == rest[i];
        assert parts[0] == [s[0]] + rest[0];
      }
    }
  }

  /** Joining the parts with dots gives the string back. */
  lemma {:induction false} SplitDotsJoin(s: string)
    ensures JoinDots(SplitDots(s)) == s
  {
    if |s| > 0 {
      var rest := SplitDots(s[1..]);
      SplitDotsJoin(s[1..]);
      var parts := SplitDots(s);
      if s[0] == '.' {
        assert parts == [""] + rest;
        assert parts[1..] == rest;
        assert JoinDots(parts) == "" + "." + s[1..];
        assert s == "" + "." + s[1..];
      } else {
        var p0 := [s[0]] + rest[0];
        assert parts == [p0] + rest[1..];
        if |rest| == 1 {
          assert JoinDots(parts) == p0;
          assert JoinDots(rest) == rest[0];
        } else {
          assert parts[1..] == rest[1..];
          var tail := JoinDots(rest[1..]);
          assert JoinDots(parts) == p0 + "." + tail;
          assert JoinDots(rest) == rest[0] + "." + tail;
          assert p0 + "." + tail == [s[0]] + (rest[0] + "." + tail);
        }
        assert s == [s[0]] + s[1..];
      }
    }
  }

  /** A dot-free prefix followed by a dot splits off as one part. */
  lemma {:induction false} SplitDotsCons(a: string, b: string)
    requires '.' !in a
    ensures SplitDots(a + "." + b) == [a] + SplitDots(b)
  {
    if |a| == 0 {
      assert a + "." + b == "." + b;
      assert ("." + b)[1..] == b;
    } else {
      SplitDotsCons(a[1..], b);
      assert (a + "." + b)[1..] == a[1..] + "." + b;
      assert [a[0]] + a[1..] == a;
    }
  }

  /** A dot-free string is a single part. */
  lemma {:induction false} SplitDotsSingle(a: string)
    requires '.' !in a
    ensures SplitDots(a) == [a]
  {
    if |a| > 0 {
      SplitDotsSingle(a[1..]);
      assert [a[0]] + a[1..] == a;
    }
  }

  predicate IsBracket(c: char) {
    c == '[' || c == ']'
  }

  predicate NoBrackets(s: string) {
    forall i :: 0 <= i < |s| ==> !IsBracket(s[i])
  }

  /** The offset of the first bracket, or the length when there is none. */
  function BracketIndex(s: string): (i: nat)
    ensures i <= |s|
  {
    if |s| == 0 then 0
    else if IsBracket(s[0]) then 0
    else 1 + BracketIndex(s[1..])
  }

  lemma {:induction false} BracketIndexRule(s: string)
    ensures NoBrackets(s[..BracketIndex(s)])
    ensures BracketIndex(s) < |s| ==> IsBracket(s[BracketIndex(s)])
  {
    if |s| > 0 && !IsBracket(s[0]) {
      BracketIndexRule(s[1..]);
      var i := BracketIndex(s);
      assert forall j :: 1 <= j < i ==> s[..i][j] == s[1..][..i - 1][j - 1];
    }
  }

  /** `part` is `key[digits]` with a non-empty bracket-free key of length b. */
  predicate IndexedForm(part: string, b: int) {
    && 0 < b && b + 2 < |part|
    && NoBrackets(part[..b]) && part[b] == '[' && part[|part| - 1] == ']'
    && AllDigits(part[b + 1..|part| - 1])
  }

  /** The outcome of `/^([^[\]]+)(\[(\d+)\])?$/.exec(part)`. */
  datatype SegmentMatch = NoMatch | Plain(key: string) | Indexed(key: string, digits: string)

  /** `/^([^[\]]+)(\[(\d+)\])?$/.exec(part)`: the key runs up to the first
      bracket. */
  function MatchSegment(part: string): SegmentMatch {
    var b := BracketIndex(part);
    if b == 0 then NoMatch
    else if b == |part| then Plain(part)
    else if part[b] == '[' && part[|part| - 1] == ']' && b + 2 < |part| && AllDigits(part[b + 1..|part| - 1]) then
      Indexed(part[..b], part[b + 1..|part| - 1])
    else NoMatch
  }

  /** The pattern accepts a non-empty bracket-free key, optionally followed
      by a bracketed non-empty run of decimal digits, and nothing else. */
  lemma MatchSegmentRule(part: string)
    ensures MatchSegment(part).Plain? <==> |part| > 0 && NoBrackets(part)
    ensures MatchSegment(part).Plain? ==> MatchSegment(part).key == part
    ensures MatchSegment(part).Indexed? <==> exists b :: IndexedForm(part, b)
    ensures MatchSegment(part).Indexed? ==>
              var m := MatchSegment(part);
              && IndexedForm(part, |m.key|) && m.key == part[..|m.key|]
              && m.digits == part[|m.key| + 1..|part| - 1]
  {
    var b := BracketIndex(part);
    BracketIndexRule(part);
    forall c | 0 <= c < b ensures !IsBracket(part[c]) {
      assert part[..b][c] == part[c];
    }
    if b == |part| {
      assert part[..b] == part;
    }
    if MatchSegment(part).Indexed? {
      assert IndexedForm(part, b);
    }
    forall c | IndexedForm(part, c) ensures c == b {
      IndexedFormUnique(part, c, b);
    }
  }

  /** The key of an indexed segment ends at its first bracket. */
  lemma IndexedFormUnique(part: string, b1: int, b2: int)
    requires IndexedForm(part, b1) && IndexedForm(part, b2)
    ensures b1 == b2
  {
    forall c | 0 <= c < b1 ensures !IsBracket(part[c]) {
      assert part[..b1][c] == part[c];
    }
    forall c | 0 <= c < b2 ensures !IsBracket(part[c]) {
      assert part[..b2][c] == part[c];
    }
  }

  /** The tokens one non-empty part contributes. */
  function PartTokens(part: string): seq<Token> {
    if part == "" then []
    else
      match MatchSegment(part)
      case NoMatch => [Key(part)]
      case Plain(k) => [Key(k)]
      case Indexed(k, d) => [Key(k), Index(DigitsValue(d))]
  }

  /** A key part yields that key; `Key[n]` yields the key then the number; a
      non-empty part the pattern rejects is kept verbatim; an empty part
      yields nothing. */
  lemma PartTokensRule(part: string, key: string, digits: string)
    ensures part == "" ==> PartTokens(part) == []
    ensures |key| > 0 && NoBrackets(key) ==> PartTokens(key) == [Key(key)]
    ensures |key| > 0 && NoBrackets(key) && |digits| > 0 && AllDigits(digits)
            ==> PartTokens(key + "[" + digits + "]") == [Key(key), Index(DigitsValue(digits))]
    ensures part != "" && !(NoBrackets(part)) && (forall b :: !IndexedForm(part, b))
            ==> PartTokens(part) == [Key(part)]
  {
    MatchSegmentRule(part);
    MatchSegmentRule(key);
    if |key| > 0 && NoBrackets(key) && |digits| > 0 && AllDigits(digits) {
      var s := key + "[" + digits + "]";
      MatchSegmentRule(s);
      assert s[..|key|] == key;
      assert s[|key| + 1..|s| - 1] == digits;
      assert IndexedForm(s, |key|);
      var m := MatchSegment(s);
      IndexedFormUnique(s, |m.key|, |key|);
    }
  }

  /** The concatenation of `f` over `xs`, in order. */
  function FlatMap<A, B>(f: A -> seq<B>, xs: seq<A>): seq<B> {
    if |xs| == 0 then [] else FlatMap(f, xs[..|xs| - 1]) + f(xs[|xs| - 1])
  }

  lemma {:induction false} FlatMapAppend<A, B>(f: A -> seq<B>, a: seq<A>, b: seq<A>)
    ensures FlatMap(f, a + b) == FlatMap(f, a) + FlatMap(f, b)
  {
    if |b| > 0 {
      FlatMapAppend(f, a, b[..|b| - 1]);
      assert (a + b)[..|a + b| - 1] == a + b[..|b| - 1];
    } else {
      assert a + b == a;
    }
  }

  /** The tokens of the parts, in order. */
  function PartsTokens(parts: seq<string>): seq<Token> {
    FlatMap(PartTokens, parts)
  }

  /** The tokenizer loop of `pathToJsoncLocation`, on the already stripped
      path. */
  method Tokenize(normalized: string) returns (tokens: seq<Token>)
    ensures tokens == PartsTokens(SplitDots(normalized))
  {
    var parts := SplitDots(normalized);
    tokens := [];
    var i := 0;
    while i < |parts|
      invariant 0 <= i <= |parts|
      invariant tokens == PartsTokens(parts[..i])
    {
      var part := parts[i];
      assert parts[..i + 1][..i] == parts[..i];
      if part != "" {
        var m := MatchSegment(part);
        match m {
          case NoMatch =>
            tokens := tokens + [Key(part)];
          case Plain(k) =>
            tokens := tokens + [Key(k)];
          case Indexed(k, d) =>
            tokens := tokens + [Key(k)];
            tokens := tokens + [Index(DigitsValue(d))];
        }
      }
      i := i + 1;
    }
    assert parts[..i] == parts;
  }

  /** The token path of an issue path; nothing when only the root is left. */
  function PathTokens(path: string): Option<seq<Token>> {
    var normalized := StripRoot(path);
    if normalized == "" then None else Some(PartsTokens(SplitDots(normalized)))
  }

  // -- round trip with the validator's path builder

  /** One step of a validator path: `.key` or `.key[i]`. */
  datatype PathStep = Field(key: string) | Entry(key: string, index: nat)

  /** A key the tokenizer keeps whole: non-empty, no dot, no bracket. */
  predicate SimpleKey(key: string) {
    |key| > 0 && '.' !in key && NoBrackets(key)
  }

  /** The path the validator builds by `joinPath` and `${path}[${idx}]`. */
  function RenderPath(base: string, steps: seq<PathStep>): string
    decreases |steps|
  {
    if |steps| == 0 then base
    else
      var next := match steps[0]
        case Field(k) => Asl.JoinPath(base, k)
        case Entry(k, i) => Asl.IndexPath(Asl.JoinPath(base, k), i);
      RenderPath(next, steps[1..])
  }

  function Segment(step: PathStep): string {
    match step
    case Field(k) => k
    case Entry(k, i) => k + "[" + NatToString(i) + "]"
  }

  function Segments(steps: seq<PathStep>): seq<string> {
    if |steps| == 0 then [] else [Segment(steps[0])] + Segments(steps[1..])
  }

  function StepTokens(step: PathStep): seq<Token> {
    match step
    case Field(k) => [Key(k)]
    case Entry(k, i) => [Key(k), Index(i)]
  }

  function StepsTokens(steps: seq<PathStep>): seq<Token> {
    if |steps| == 0 then [] else StepTokens(steps[0]) + StepsTokens(steps[1..])
  }

  predicate AllSimple(steps: seq<PathStep>) {
    forall i :: 0 <= i < |steps| ==> SimpleKey(steps[i].key)
  }

  lemma SegmentDotFree(step: PathStep)
    requires SimpleKey(step.key)
    ensures '.' !in Segment(step) && |Segment(step)| > 0
  {
    if step.Entry? {
      var d := NatToString(step.index);
      assert forall j :: 0 <= j < |d| ==> d[j] != '.';
    }
  }

  lemma {:induction false} RenderPathDotted(base: string, steps: seq<PathStep>)
    requires base != "" && |steps| > 0
    ensures RenderPath(base, steps) == base + "." + JoinDots(Segments(steps))
    decreases |steps|
  {
    var seg := Segment(steps[0]);
    var next := base + "." + seg;
    match steps[0] {
      case Field(k) =>
      case Entry(k, i) =>
        assert Asl.IndexPath(Asl.JoinPath(base, k), i) == base + "." + (k + "[" + NatToString(i) + "]");
    }
    assert RenderPath(base, steps) == RenderPath(next, steps[1..]);
    assert Segments(steps) == [seg] + Segments(steps[1..]);
    if |steps| > 1 {
      RenderPathDotted(next, steps[1..]);
      var rest := JoinDots(Segments(steps[1..]));
      assert JoinDots(Segments(steps)) == seg + "." + rest;
      DotAssoc(base, seg, rest);
    } else {
      assert JoinDots(Segments(steps)) == seg;
    }
  }

  lemma DotAssoc(a: string, b: string, c: string)
    ensures (a + "." + b) + "." + c == a + "." + (b + "." + c)
  {
  }

  lemma {:induction false} SplitRendered(steps: seq<PathStep>)
    requires |steps| > 0 && AllSimple(steps)
    ensures SplitDots(JoinDots(Segments(steps))) == Segments(steps)
  {
    SegmentDotFree(steps[0]);
    if |steps| == 1 {
      SplitDotsSingle(Segment(steps[0]));
    } else {
      assert Segments(steps)[1..] == Segments(steps[1..]);
      SplitDotsCons(Segment(steps[0]), JoinDots(Segments(steps[1..])));
      SplitRendered(steps[1..]);
    }
  }

  lemma StepTokensOfSegment(step: PathStep)
    requires SimpleKey(step.key)
    ensures PartTokens(Segment(step)) == StepTokens(step)
  {
    match step {
      case Field(k) =>
        PartTokensRule("", k, "");
      case Entry(k, i) =>
        PartTokensRule("", k, NatToString(i));
        DigitsValueOfNatToString(i);
    }
  }

  lemma {:induction false} TokensOfSegments(steps: seq<PathStep>)
    requires AllSimple(steps)
    ensures PartsTokens(Segments(steps)) == StepsTokens(steps)
  {
    if |steps| > 0 {
      TokensOfSegments(steps[1..]);
      FlatMapAppend(PartTokens, [Segment(steps[0])], Segments(steps[1..]));
      StepTokensOfSegment(steps[0]);
      assert PartsTokens([Segment(steps[0])]) == PartTokens(Segment(steps[0]));
    }
  }

  /** Tokenizing a path the validator built from simple keys gives back its
      keys and indices, in order. */
  lemma ValidatorPathRoundTrip(steps: seq<PathStep>)
    requires |steps| > 0 && AllSimple(steps)
    ensures PathTokens(RenderPath("<root>", steps)) == Some(StepsTokens(steps))
  {
    var joined := JoinDots(Segments(steps));
    RenderPathDotted("<root>", steps);
    StripRootRule(joined);
    SegmentDotFree(steps[0]);
    assert |joined| > 0 by {
      if |steps| > 1 {
        assert Segments(steps)[1..] == Segments(steps[1..]);
      }
    }
    SplitRendered(steps);
    TokensOfSegments(steps);
    var path := RenderPath("<root>", steps);
    assert StripRoot(path) == joined;
    assert PathTokens(path) == Some(PartsTokens(SplitDots(joined)));
  }

  /** A state name with a dot renders like two nested keys, so its path
      tokenizes into two keys. */
  lemma DottedNameSplits()
    ensures RenderPath("<root>", [Field("States"), Field("a.b")])
            == RenderPath("<root>", [Field("States"), Field("a"), Field("b")])
    ensures PathTokens(RenderPath("<root>", [Field("States"), Field("a.b")]))
            == Some([Key("States"), Key("a"), Key("b")])
  {
    var steps := [Field("States"), Field("a"), Field("b")];
    var p := "<root>" + "." + "States";
    assert RenderPath("<root>", [Field("States"), Field("a.b")]) == p + "." + "a.b";
    assert RenderPath("<root>", steps) == p + "." + "a" + "." + "b";
    assert p + "." + "a" + "." + "b" == p + "." + "a.b";
    assert AllSimple(steps) by {
      assert NoBrackets("States") && NoBrackets("a") && NoBrackets("b");
    }
    ValidatorPathRoundTrip(steps);
    assert StepsTokens(steps) == [Key("States"), Key("a"), Key("b")];
  }

  // ---------------------------------------------------------------------
  // Locations and markers

  /** The offset and length of a JSON tree node. */
  datatype Span = Span(offset: int, length: int)

  /** What `pathToJsoncLocation` returns. */
  function Location(text: string, path: string, locate: (string, seq<Token>) -> Option<Span>): Option<Range> {
    match PathTokens(path)
    case None => None
    case Some(tokens) =>
      match locate(text, tokens)
      case None => None
      case Some(node) =>
        if node.offset + node.length <= node.offset then None
        else Some(RangeFromOffsets(text, node.offset, node.offset + node.length))
  }

  /** A path reduced to the root gives no location; a node of non-positive
      length gives none; otherwise the range spans the node. */
  lemma LocationRule(text: string, path: string, locate: (string, seq<Token>) -> Option<Span>)
    ensures StripRoot(path) == "" ==> Location(text, path, locate).None?
    ensures PathTokens(path).Some? && locate(text, PathTokens(path).value).Some?
            && locate(text, PathTokens(path).value).value.length <= 0
            ==> Location(text, path, locate).None?
    ensures Location(text, path, locate).Some? ==>
              && PathTokens(path).Some?
              && var node := locate(text, PathTokens(path).value);
                 && node.Some? && node.value.length > 0
                 && Location(text, path, locate).value
                    == RangeFromOffsets(text, node.value.offset, node.value.offset + node.value.length)
  {
  }

  /** `pathToJsoncLocation`. */
  method PathToJsoncLocation(text: string, path: string, locate: (string, seq<Token>) -> Option<Span>)
    returns (r: Option<Range>)
    ensures r == Location(text, path, locate)
  {
    var normalized := StripRoot(path);
    if normalized == "" {
      return None;
    }
    var tokens := Tokenize(normalized);
    var node := locate(text, tokens);
    if node.None? {
      return None;
    }
    var start := node.value.offset;
    var end := node.value.offset + node.value.length;
    if end <= start {
      return None;
    }
    r := Some(RangeFromOffsets(text, start, end));
  }

  /** The three-tier fallback: the path lookup (skipped for an empty or root
      path), then the quoted state name (skipped for a missing or empty
      name), then the document start. */
  function MarkerRange(text: string, issue: Asl.Issue, locate: (string, seq<Token>) -> Option<Span>): Range {
    var byPath := if issue.path != "" && issue.path != "<root>" then Location(text, issue.path, locate) else None;
    if byPath.Some? then byPath.value
    else
      var byName := if issue.stateName.Some? && issue.stateName.value != ""
                    then GuessRangeForStateName(text, issue.stateName.value) else None;
      if byName.Some? then byName.value else DocStart(text)
  }

  function MarkerOf(text: string, issue: Asl.Issue, locate: (string, seq<Token>) -> Option<Span>): Marker {
    Marker(MarkerRange(text, issue, locate), Asl.Message(issue.kind), SeverityToMonaco(Asl.SeverityOf(issue.kind)))
  }

  function IssueMarkers(text: string, issues: seq<Asl.Issue>, locate: (string, seq<Token>) -> Option<Span>): seq<Marker> {
    if |issues| == 0 then []
    else IssueMarkers(text, issues[..|issues| - 1], locate) + [MarkerOf(text, issues[|issues| - 1], locate)]
  }

  /** A parse error is reported when it is a non-empty string. */
  predicate HasParseError(parseError: Option<string>) {
    parseError.Some? && parseError.value != ""
  }

  /** What `createMarkersFromIssues` returns. */
  function MarkersFor(text: string, issues: seq<Asl.Issue>, parseError: Option<string>,
                      locate: (string, seq<Token>) -> Option<Span>): seq<Marker> {
    if HasParseError(parseError) then [Marker(DocStart(text), parseError.value, Error)]
    else IssueMarkers(text, issues, locate)
  }

  /** The body of the issue loop of `createMarkersFromIssues`: the range is
      reassigned tier by tier. */
  method IssueMarker(text: string, issue: Asl.Issue, locate: (string, seq<Token>) -> Option<Span>)
    returns (marker: Marker)
    ensures marker == MarkerOf(text, issue, locate)
  {
    var range: Option<Range> := None;
    if issue.path != "" && issue.path != "<root>" {
      range := PathToJsoncLocation(text, issue.path, locate);
    }
    if range.None? && issue.stateName.Some? && issue.stateName.value != "" {
      range := GuessRangeForStateName(text, issue.stateName.value);
    }
    if range.None? {
      range := Some(RangeFromOffsets(text, 0, if |text| < 1 then |text| else 1));
    }
    marker := Marker(range.value, Asl.Message(issue.kind), SeverityToMonaco(Asl.SeverityOf(issue.kind)));
  }

  /** `createMarkersFromIssues`. */
  method CreateMarkersFromIssues(text: string, issues: seq<Asl.Issue>, parseError: Option<string>,
                                 locate: (string, seq<Token>) -> Option<Span>)
    returns (markers: seq<Marker>)
    ensures markers == MarkersFor(text, issues, parseError, locate)
  {
    markers := [];
    if parseError.Some? && parseError.value != "" {
      markers := markers + [Marker(RangeFromOffsets(text, 0, if |text| < 1 then |text| else 1), parseError.value, Error)];
      return markers;
    }
    var i := 0;
    while i < |issues|
      invariant 0 <= i <= |issues|
      invariant markers == IssueMarkers(text, issues[..i], locate)
    {
      var marker := IssueMarker(text, issues[i], locate);
      assert issues[..i + 1][..i] == issues[..i];
      assert IssueMarkers(text, issues[..i + 1], locate) == IssueMarkers(text, issues[..i], locate) + [marker];
      markers := markers + [marker];
      i := i + 1;
    }
    assert issues[..i] == issues;
  }

  /** A parse error gives exactly one Error marker over the first character,
      carrying the parse-error message, whatever the issues are. */
  lemma ParseErrorMarker(text: string, issues: seq<Asl.Issue>, parseError: Option<string>,
                         locate: (string, seq<Token>) -> Option<Span>)
    requires HasParseError(parseError)
    ensures MarkersFor(text, issues, parseError, locate) == [Marker(DocStart(text), parseError.value, Error)]
  {
  }

  lemma {:induction false} IssueMarkersPointwise(text: string, issues: seq<Asl.Issue>, locate: (string, seq<Token>) -> Option<Span>)
    ensures |IssueMarkers(text, issues, locate)| == |issues|
    ensures forall i :: 0 <= i < |issues| ==> IssueMarkers(text, issues, locate)[i] == MarkerOf(text, issues[i], locate)
  {
    if |issues| > 0 {
      var n := |issues|;
      var prefix := issues[..n - 1];
      IssueMarkersPointwise(text, prefix, locate);
      var ms := IssueMarkers(text, issues, locate);
      var last := MarkerOf(text, issues[n - 1], locate);
      assert ms == IssueMarkers(text, prefix, locate) + [last];
      forall i | 0 <= i < n ensures ms[i] == MarkerOf(text, issues[i], locate) {
        if i < n - 1 {
          assert prefix[i] == issues[i];
          assert ms[i] == IssueMarkers(text, prefix, locate)[i];
        }
      }
    }
  }

  /** Without a parse error there is one marker per issue, in order, with the
      issue's message, Error exactly for error issues, and a well-formed range
      chosen by the fallback. */
  lemma MarkerPerIssue(text: string, issues: seq<Asl.Issue>, parseError: Option<string>,
                       locate: (string, seq<Token>) -> Option<Span>)
    requires !HasParseError(parseError)
    ensures var markers := MarkersFor(text, issues, parseError, locate);
            && |markers| == |issues|
            && forall i :: 0 <= i < |issues| ==>
                 && markers[i].message == Asl.Message(issues[i].kind)
                 && (markers[i].severity == Error <==> Asl.SeverityOf(issues[i].kind) == Asl.Error)
                 && markers[i].range == MarkerRange(text, issues[i], locate)
                 && WellFormed(markers[i].range)
  {
    IssueMarkersPointwise(text, issues, locate);
    forall i | 0 <= i < |issues| ensures WellFormed(MarkerRange(text, issues[i], locate)) {
      MarkerRangeWellFormed(text, issues[i], locate);
    }
  }

  lemma MarkerRangeWellFormed(text: string, issue: Asl.Issue, locate: (string, seq<Token>) -> Option<Span>)
    ensures WellFormed(MarkerRange(text, issue, locate))
  {
  }

  /** The tiers in order: a successful path lookup wins; otherwise a found
      state name; otherwise the document start. */
  lemma FallbackOrder(text: string, issue: Asl.Issue, locate: (string, seq<Token>) -> Option<Span>)
    ensures issue.path != "" && issue.path != "<root>" && Location(text, issue.path, locate).Some?
            ==> MarkerRange(text, issue, locate) == Location(text, issue.path, locate).value
    ensures (issue.path == "" || issue.path == "<root>" || Location(text, issue.path, locate).None?)
            && issue.stateName.Some? && issue.stateName.value != ""
            && GuessRangeForStateName(text, issue.stateName.value).Some?
            ==> MarkerRange(text, issue, locate) == GuessRangeForStateName(text, issue.stateName.value).value
    ensures (issue.path == "" || issue.path == "<root>" || Location(text, issue.path, locate).None?)
            && (issue.stateName.None? || issue.stateName.value == ""
                || GuessRangeForStateName(text, issue.stateName.value).None?)
            ==> MarkerRange(text, issue, locate) == DocStart(text)
  {
  }
}
