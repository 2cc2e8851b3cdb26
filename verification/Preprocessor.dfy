/**
 How the linter keeps its brace stack across conditional compilation: it saves the stack at #if, goes back to it at
 #else and #elif, and continues after #endif as if only the first branch had been there.
 */
module Preprocessor {
  datatype Directive = If | Else | Endif | Other

  // A line: the directive it is, and what the rest of Update does to the brace stack on it
  datatype Line<!S> = Line(directive: Directive, effect: seq<S> -> seq<S>)

  datatype PreprocessorInfo<S> = PreprocessorInfo(stackBeforeIf: seq<S>, stackBeforeElse: seq<S>, seenElse: bool)

  datatype State<S> = State(stack: seq<S>, ppStack: seq<PreprocessorInfo<S>>) {
    function Preprocessed(directive: Directive): (s: State<S>) {
      match directive
      case Other => this
      case If => State(stack, ppStack + [PreprocessorInfo(stack, [], false)])
      case Else =>
        if ppStack == [] then this
        else
          var top := ppStack[|ppStack| - 1];
          State(top.stackBeforeIf,
                ppStack[..|ppStack| - 1]
                + [if top.seenElse then top else PreprocessorInfo(top.stackBeforeIf, stack, true)])
      case Endif =>
        if ppStack == [] then this
        else
          var top := ppStack[|ppStack| - 1];
          State(if top.seenElse then top.stackBeforeElse else stack, ppStack[..|ppStack| - 1])
    }

    function After(line: Line<S>): (s: State<S>) {
      var s := Preprocessed(line.directive);
      State(line.effect(s.stack), s.ppStack)
    }

    function AfterAll(lines: seq<Line<S>>): (s: State<S>)
      decreases |lines|
    {
      if lines == [] then this else After(lines[0]).AfterAll(lines[1..])
    }

    // Only a frame that has seen its #else holds a stack to return to.
    predicate Valid() {
      forall k :: 0 <= k < |ppStack| ==> ppStack[k].seenElse || ppStack[k].stackBeforeElse == []
    }

    // The same state if no #else had been seen: back to the outermost #else, its branch and all inside it forgotten
    function FirstBranchesOnly(): (s: State<S>) {
      var d := FirstElse(Seen(ppStack));
      if d == |ppStack| then this
      else State(ppStack[d].stackBeforeElse, ppStack[..d] + [PreprocessorInfo(ppStack[d].stackBeforeIf, [], false)])
    }
  }

  class NestingState<S> {
    var stack: seq<S>
    var ppStack: seq<PreprocessorInfo<S>>

    ghost function Value(): (s: State<S>)
      reads this
    {
      State(stack, ppStack)
    }

    constructor ()
      ensures Value() == State([], [])
    {
      stack, ppStack := [], [];
    }

    method UpdatePreprocessor(directive: Directive)
      modifies this
      ensures Value() == old(Value()).Preprocessed(directive)
    {
      var last := |ppStack| - 1;
      match directive {
        case If =>
          ppStack := ppStack + [PreprocessorInfo(stack, [], false)];
        case Else =>
          if ppStack != [] {
            if !ppStack[last].seenElse {
              ppStack := ppStack[last := ppStack[last].(seenElse := true)];
              ppStack := ppStack[last := ppStack[last].(stackBeforeElse := stack)];
            }
            stack := ppStack[last].stackBeforeIf;
          }
        case Endif =>
          if ppStack != [] {
            if ppStack[last].seenElse {
              stack := ppStack[last].stackBeforeElse;
            }
            ppStack := ppStack[..last];
          }
        case Other =>
      }
    }

    method Update(line: Line<S>)
      modifies this
      ensures Value() == old(Value()).After(line)
    {
      UpdatePreprocessor(line.directive);
      stack := line.effect(stack);
    }

    /** Every line of a file in turn: the stack is the one the lines of the first branches alone produce, provided
        no branch after the first is left open at the end. */
    method UpdateAll(lines: seq<Line<S>>)
      requires Value() == State([], [])
      modifies this
      ensures Value() == State([], []).AfterAll(lines)
      ensures Value().FirstBranchesOnly() == State([], []).AfterAll(Erased([], lines))
      ensures Live(ScannedAll([], lines)) ==> Value() == State([], []).AfterAll(Erased([], lines))
    {
      ghost var start := Value();
      for k := 0 to |lines|
        invariant Value() == start.AfterAll(lines[..k])
      {
        AfterSnoc(start, lines[..k], lines[k]);
        assert lines[..k + 1] == lines[..k] + [lines[k]];
        Update(lines[k]);
      }
      assert lines[..|lines|] == lines;
      Erasure(start, lines);
      FinalScan(start, lines);
    }
  }

  // ---------------------------------------------------------------------------
  // Erasing the branches after the first

  // For each open #if, whether its #else has been seen
  function Seen<S>(ppStack: seq<PreprocessorInfo<S>>): (seen: seq<bool>)
    ensures |seen| == |ppStack|
  {
    seq(|ppStack|, (i: nat) requires i < |ppStack| => ppStack[i].seenElse)
  }

  function FirstElse(seen: seq<bool>): (d: nat)
    ensures d <= |seen| && (d < |seen| ==> seen[d])
    ensures forall i :: 0 <= i < d ==> !seen[i]
  {
    if seen == [] || seen[0] then 0 else 1 + FirstElse(seen[1..])
  }

  predicate Live(seen: seq<bool>) {
    forall i :: 0 <= i < |seen| ==> !seen[i]
  }

  // The open conditionals after one more directive; an #else or #endif of no #if is ignored.
  function Scanned(seen: seq<bool>, directive: Directive): (r: seq<bool>) {
    match directive
    case Other => seen
    case If => seen + [false]
    case Else => if seen == [] then [] else seen[..|seen| - 1] + [true]
    case Endif => if seen == [] then [] else seen[..|seen| - 1]
  }

  function ScannedAll<S>(seen: seq<bool>, lines: seq<Line<S>>): (r: seq<bool>)
    decreases |lines|
  {
    if lines == [] then seen else ScannedAll(Scanned(seen, lines[0].directive), lines[1..])
  }

  // A line, unless it lies in a branch after a first one; the #endif stays, the #else and #elif go.
  function ErasedFirst<S>(seen: seq<bool>, line: Line<S>): (r: seq<Line<S>>) {
    if Live(Scanned(seen, line.directive)) then [line] else []
  }

  function Erased<S>(seen: seq<bool>, lines: seq<Line<S>>): (r: seq<Line<S>>)
    decreases |lines|
  {
    if lines == [] then []
    else
      ErasedFirst(seen, lines[0]) + Erased(Scanned(seen, lines[0].directive), lines[1..])
  }

  lemma {:induction false} AfterSnoc<S>(s: State<S>, lines: seq<Line<S>>, line: Line<S>)
    ensures s.AfterAll(lines + [line]) == s.AfterAll(lines).After(line)
    decreases |lines|
  {
    if lines == [] {
      assert s.After(line).AfterAll([]) == s.After(line);
    } else {
      AfterSnoc(s.After(lines[0]), lines[1..], line);
      assert (lines + [line])[1..] == lines[1..] + [line];
    }
  }

  lemma FirstElseUnique(seen: seq<bool>, d: nat)
    requires d <= |seen| && (d < |seen| ==> seen[d]) && forall i :: 0 <= i < d ==> !seen[i]
    ensures FirstElse(seen) == d
  {
  }

  // One directive keeps the scan in step with the checkpoints, and the frames valid.
  lemma StepKeepsValid<S>(s: State<S>, line: Line<S>)
    requires s.Valid()
    ensures s.After(line).Valid() && Seen(s.After(line).ppStack) == Scanned(Seen(s.ppStack), line.directive)
  {
  }

  // The first #else of a live conditional: the erased run stays where it was.
  lemma EnterLaterBranch<S>(s: State<S>)
    requires s.Valid() && s.ppStack != [] && Live(Seen(s.ppStack))
    ensures s.Preprocessed(Else).FirstBranchesOnly() == s == s.FirstBranchesOnly()
  {
    var n := |s.ppStack|;
    var top, t := s.ppStack[n - 1], s.Preprocessed(Else);
    assert !Seen(s.ppStack)[n - 1];
    assert Seen(t.ppStack) == Seen(s.ppStack)[..n - 1] + [true];
    FirstElseUnique(Seen(s.ppStack), n);
    FirstElseUnique(Seen(t.ppStack), n - 1);
    assert top == PreprocessorInfo(top.stackBeforeIf, [], false);
    assert t.ppStack[n - 1] == PreprocessorInfo(top.stackBeforeIf, s.stack, true);
    assert t.ppStack[..n - 1] == s.ppStack[..n - 1];
    assert s.ppStack == s.ppStack[..n - 1] + [top];
  }

  // Inside a later branch nothing shows, and neither does the #endif of a conditional opened inside it.
  lemma StayInLaterBranch<S>(s: State<S>, line: Line<S>)
    requires s.Valid() && !Live(Seen(s.ppStack)) && !Live(Scanned(Seen(s.ppStack), line.directive))
    ensures s.After(line).FirstBranchesOnly() == s.FirstBranchesOnly()
  {
    var d, t := FirstElse(Seen(s.ppStack)), s.After(line);
    StepKeepsValid(s, line);
    FirstElseScanned(Seen(s.ppStack), line.directive);
    assert s.ppStack[d].seenElse;
    assert t.ppStack[..d] == s.ppStack[..d];
    assert t.ppStack[d] == s.ppStack[d];
  }

  // In a first branch, or on the way back to one, both runs take the same step.
  lemma StepInFirstBranch<S>(s: State<S>, line: Line<S>)
    requires s.Valid() && Live(Scanned(Seen(s.ppStack), line.directive))
    ensures s.After(line).FirstBranchesOnly() == s.FirstBranchesOnly().After(line)
  {
    var d := FirstElse(Seen(s.ppStack));
    StepKeepsValid(s, line);
    FirstElseScanned(Seen(s.ppStack), line.directive);
    if d < |s.ppStack| {
      assert s.FirstBranchesOnly().ppStack[..d] == s.ppStack[..d];
    }
  }

  /** One line, seen from the erased run: a line of a first branch is one step there, any other is none. */
  lemma ErasureStep<S>(s: State<S>, line: Line<S>)
    requires s.Valid()
    ensures s.After(line).FirstBranchesOnly()
            == if Live(Scanned(Seen(s.ppStack), line.directive)) then s.FirstBranchesOnly().After(line)
               else s.FirstBranchesOnly()
  {
    var seen := Seen(s.ppStack);
    if Live(Scanned(seen, line.directive)) {
      StepInFirstBranch(s, line);
    } else if Live(seen) {
      FirstElseScanned(seen, line.directive);
      FirstElseUnique(seen, |seen|);
      EnterLaterBranch(s);
      StepKeepsValid(s, line);
      OnlyTheFrames(s.Preprocessed(Else), s.After(line));
    } else {
      StayInLaterBranch(s, line);
    }
  }

  // In a later branch the current stack is not looked at.
  lemma OnlyTheFrames<S>(s: State<S>, t: State<S>)
    requires s.ppStack == t.ppStack && !Live(Seen(s.ppStack))
    ensures s.FirstBranchesOnly() == t.FirstBranchesOnly()
  {
  }

  // Where the outermost dead branch begins, after one more directive
  lemma FirstElseScanned(seen: seq<bool>, directive: Directive)
    ensures var d, n, seen' := FirstElse(seen), |seen|, Scanned(seen, directive);
            && (Live(seen') <==> FirstElse(seen') == |seen'|)
            && (Live(seen') && d < n ==> directive == Endif && d == n - 1)
            && (!Live(seen') ==>
                FirstElse(seen') == (if d < n then d else n - 1) && (d == n ==> directive == Else && n > 0))
  {
    var d, n, seen' := FirstElse(seen), |seen|, Scanned(seen, directive);
    if d < n && !(directive == Endif && d == n - 1) {
      assert seen'[if directive == Else then n - 1 else d];
      FirstElseUnique(seen', d);
    } else if d == n && directive == Else && n > 0 {
      assert seen'[n - 1];
      FirstElseUnique(seen', n - 1);
    } else {
      FirstElseUnique(seen', |seen'|);
    }
  }

  /** Erasure, over every sequence of lines, nested or not: deleting each branch after the first commutes with
      running the stacks. */
  lemma {:induction false} Erasure<S>(s: State<S>, lines: seq<Line<S>>)
    requires s.Valid()
    ensures s.FirstBranchesOnly().AfterAll(Erased(Seen(s.ppStack), lines)) == s.AfterAll(lines).FirstBranchesOnly()
    decreases |lines|
  {
    if lines != [] {
      var t := s.After(lines[0]);
      StepKeepsValid(s, lines[0]);
      ErasureStep(s, lines[0]);
      Erasure(t, lines[1..]);
      var rest := Erased(Seen(t.ppStack), lines[1..]);
      if Live(Seen(t.ppStack)) {
        assert ([lines[0]] + rest)[1..] == rest;
      } else {
        assert [] + rest == rest;
      }
    }
  }

  lemma {:induction false} FinalScan<S>(s: State<S>, lines: seq<Line<S>>)
    requires s.Valid()
    ensures Seen(s.AfterAll(lines).ppStack) == ScannedAll(Seen(s.ppStack), lines)
    ensures Live(ScannedAll(Seen(s.ppStack), lines)) ==> s.AfterAll(lines).FirstBranchesOnly() == s.AfterAll(lines)
    decreases |lines|
  {
    if lines != [] {
      StepKeepsValid(s, lines[0]);
      FinalScan(s.After(lines[0]), lines[1..]);
    }
    if Live(ScannedAll(Seen(s.ppStack), lines)) {
      FirstElseUnique(ScannedAll(Seen(s.ppStack), lines), |ScannedAll(Seen(s.ppStack), lines)|);
    }
  }

  // ---------------------------------------------------------------------------
  // Well-nested files, where the erased sequence can be read off the syntax

  datatype File<!S> =
    | Empty
    | Plain(line: Line<S>, rest: File<S>)
    | Conditional(opening: Line<S>, body: File<S>, branches: Branches<S>, closing: Line<S>, rest: File<S>)
  datatype Branches<!S> = NoMore | Branch(otherwise: Line<S>, body: File<S>, more: Branches<S>)

  predicate WellNested<S>(f: File<S>) {
    match f
    case Empty => true
    case Plain(line, rest) => line.directive == Other && WellNested(rest)
    case Conditional(opening, body, branches, closing, rest) =>
      && opening.directive == If && closing.directive == Endif
      && WellNested(body) && WellNestedBranches(branches) && WellNested(rest)
  }

  predicate WellNestedBranches<S>(b: Branches<S>) {
    match b
    case NoMore => true
    case Branch(otherwise, body, more) =>
      otherwise.directive == Else && WellNested(body) && WellNestedBranches(more)
  }

  function Lines<S>(f: File<S>): (lines: seq<Line<S>>) {
    match f
    case Empty => []
    case Plain(line, rest) => [line] + Lines(rest)
    case Conditional(opening, body, branches, closing, rest) =>
      [opening] + Lines(body) + BranchLines(branches) + [closing] + Lines(rest)
  }

  function BranchLines<S>(b: Branches<S>): (lines: seq<Line<S>>) {
    match b
    case NoMore => []
    case Branch(otherwise, body, more) => [otherwise] + Lines(body) + BranchLines(more)
  }

  // Everything from the first #else or #elif to the matching #endif deleted, at every depth
  function FirstBranches<S>(f: File<S>): (r: File<S>) {
    match f
    case Empty => Empty
    case Plain(line, rest) => Plain(line, FirstBranches(rest))
    case Conditional(opening, body, _, closing, rest) =>
      Conditional(opening, FirstBranches(body), NoMore, closing, FirstBranches(rest))
  }

  lemma {:induction false} ScannedConcat<S>(seen: seq<bool>, a: seq<Line<S>>, b: seq<Line<S>>)
    ensures ScannedAll(seen, a + b) == ScannedAll(ScannedAll(seen, a), b)
    decreases |a|
  {
    if a == [] {
      assert a + b == b;
    } else {
      ScannedConcat(Scanned(seen, a[0].directive), a[1..], b);
      assert (a + b)[1..] == a[1..] + b;
    }
  }

  lemma ErasedCons<S>(seen: seq<bool>, lines: seq<Line<S>>)
    requires lines != []
    ensures Erased(seen, lines) == ErasedFirst(seen, lines[0]) + Erased(Scanned(seen, lines[0].directive), lines[1..])
  {
  }

  lemma {:induction false} ErasedConcat<S>(seen: seq<bool>, a: seq<Line<S>>, b: seq<Line<S>>)
    ensures ScannedAll(seen, a + b) == ScannedAll(ScannedAll(seen, a), b)
    ensures Erased(seen, a + b) == Erased(seen, a) + Erased(ScannedAll(seen, a), b)
    decreases |a|
  {
    ScannedConcat(seen, a, b);
    if a == [] {
      assert a + b == b;
    } else {
      var seen' := Scanned(seen, a[0].directive);
      ErasedConcat(seen', a[1..], b);
      assert (a + b)[1..] == a[1..] + b;
      ErasedPrefix(seen, a, a + b, Erased(seen', a[1..]), Erased(ScannedAll(seen, a), b));
    }
  }

  lemma ErasedPrefix<S>(seen: seq<bool>, a: seq<Line<S>>, ab: seq<Line<S>>, x: seq<Line<S>>, y: seq<Line<S>>)
    requires a != [] && ab != [] && ab[0] == a[0] && x == Erased(Scanned(seen, a[0].directive), a[1..])
    requires Erased(Scanned(seen, a[0].directive), ab[1..]) == x + y
    ensures Erased(seen, ab) == Erased(seen, a) + y
  {
    ErasedCons(seen, ab);
    ErasedCons(seen, a);
    Associative(ErasedFirst(seen, a[0]), x, y);
  }

  lemma Associative<T>(x: seq<T>, y: seq<T>, z: seq<T>)
    ensures x + (y + z) == x + y + z
  {
  }

  lemma ErasedOne<S>(seen: seq<bool>, line: Line<S>)
    ensures ScannedAll(seen, [line]) == Scanned(seen, line.directive)
    ensures Erased(seen, [line]) == ErasedFirst(seen, line)
  {
    assert [line][1..] == [];
  }

  // A well-nested stretch leaves the open conditionals as they were; in a dead stretch all of it goes.
  lemma {:induction false} ErasedFile<S>(seen: seq<bool>, f: File<S>)
    requires WellNested(f)
    ensures ScannedAll(seen, Lines(f)) == seen
    ensures Erased(seen, Lines(f)) == if Live(seen) then Lines(FirstBranches(f)) else []
    decreases f
  {
    match f
    case Empty =>
    case Plain(line, rest) =>
      ErasedConcat(seen, [line], Lines(rest));
      ErasedOne(seen, line);
      ErasedFile(seen, rest);
    case Conditional(opening, body, branches, closing, rest) =>
      var inside := seen + [false];
      ErasedFile(inside, body);
      ErasedBranches(seen, false, branches);
      var inside' := ScannedAll(inside, BranchLines(branches));
      assert Scanned(inside', Endif) == seen;
      ErasedFile(seen, rest);
      assert Live(inside) <==> Live(seen);
      ErasedConditional(seen, opening, Lines(body), BranchLines(branches), closing, Lines(rest));
  }

  lemma ErasedConditional<S>(seen: seq<bool>, opening: Line<S>, a: seq<Line<S>>, b: seq<Line<S>>, closing: Line<S>,
                             c: seq<Line<S>>)
    ensures var s1 := Scanned(seen, opening.directive);
            var s2 := ScannedAll(s1, a);
            var s3 := ScannedAll(s2, b);
            var s4 := Scanned(s3, closing.directive);
            && ScannedAll(seen, [opening] + a + b + [closing] + c) == ScannedAll(s4, c)
            && Erased(seen, [opening] + a + b + [closing] + c)
               == ErasedFirst(seen, opening) + Erased(s1, a) + Erased(s2, b) + ErasedFirst(s3, closing) + Erased(s4, c)
  {
    ErasedOne(seen, opening);
    ErasedConcat(seen, [opening], a);
    ErasedConcat(seen, [opening] + a, b);
    ErasedOne(ScannedAll(seen, [opening] + a + b), closing);
    ErasedConcat(seen, [opening] + a + b, [closing]);
    ErasedConcat(seen, [opening] + a + b + [closing], c);
  }

  lemma {:induction false} ErasedBranches<S>(seen: seq<bool>, seenElse: bool, b: Branches<S>)
    requires WellNestedBranches(b)
    ensures exists e :: ScannedAll(seen + [seenElse], BranchLines(b)) == seen + [e]
    ensures Erased(seen + [seenElse], BranchLines(b)) == []
    decreases b
  {
    match b
    case NoMore =>
    case Branch(otherwise, body, more) =>
      var inside := seen + [true];
      ErasedOne(seen + [seenElse], otherwise);
      assert inside[|seen|];
      assert Scanned(seen + [seenElse], Else) == inside;
      ErasedConcat(seen + [seenElse], [otherwise], Lines(body));
      ErasedFile(inside, body);
      ErasedConcat(seen + [seenElse], [otherwise] + Lines(body), BranchLines(more));
      ErasedBranches(seen, true, more);
  }

  lemma {:induction false} AfterConcat<S>(s: State<S>, a: seq<Line<S>>, b: seq<Line<S>>)
    ensures s.AfterAll(a + b) == s.AfterAll(a).AfterAll(b)
    decreases |a|
  {
    if a == [] {
      assert a + b == b;
    } else {
      AfterConcat(s.After(a[0]), a[1..], b);
      assert (a + b)[1..] == a[1..] + b;
    }
  }

  lemma AfterOne<S>(s: State<S>, line: Line<S>)
    ensures s.AfterAll([line]) == s.After(line)
  {
    assert [line][1..] == [];
    assert s.After(line).AfterAll([]) == s.After(line);
  }

  /** The erasure theorem for well-nested files: from any state whatever, inside any open conditionals, the state
      after the file is the state after the file without its #else and #elif branches. */
  lemma {:induction false} WellNestedErasure<S>(s: State<S>, f: File<S>)
    requires WellNested(f)
    ensures s.AfterAll(Lines(f)) == s.AfterAll(Lines(FirstBranches(f)))
    ensures s.AfterAll(Lines(f)).ppStack == s.ppStack
    decreases f
  {
    match f
    case Empty =>
    case Plain(line, rest) =>
      AfterOne(s, line);
      AfterConcat(s, [line], Lines(rest));
      AfterConcat(s, [line], Lines(FirstBranches(rest)));
      WellNestedErasure(s.After(line), rest);
    case Conditional(opening, body, branches, closing, rest) =>
      var inside := s.After(opening);
      WellNestedErasure(inside, body);
      var first := inside.AfterAll(Lines(body));
      assert first.ppStack[..|s.ppStack|] == s.ppStack;
      LaterBranches(first, branches);
      var last := first.AfterAll(BranchLines(branches));
      assert first.Preprocessed(Endif) == last.Preprocessed(Endif);
      WellNestedErasure(first.After(closing), rest);
      AfterConditional(s, opening, Lines(body), BranchLines(branches), closing, Lines(rest));
      AfterConditional(s, opening, Lines(FirstBranches(body)), [], closing, Lines(FirstBranches(rest)));
  }

  // The branches after the first leave behind only what #endif undoes, and the stack that each of them starts from.
  lemma {:induction false} LaterBranches<S>(s: State<S>, b: Branches<S>)
    requires WellNestedBranches(b) && s.ppStack != []
    ensures s.AfterAll(BranchLines(b)).ppStack != []
    ensures s.AfterAll(BranchLines(b)).Preprocessed(Endif) == s.Preprocessed(Endif)
    ensures s.AfterAll(BranchLines(b)).Preprocessed(Else).stack == s.Preprocessed(Else).stack
    decreases b
  {
    match b
    case NoMore =>
    case Branch(otherwise, body, more) =>
      AfterOne(s, otherwise);
      AfterConcat(s, [otherwise], Lines(body));
      AfterConcat(s, [otherwise] + Lines(body), BranchLines(more));
      WellNestedErasure(s.After(otherwise), body);
      LaterBranches(s.After(otherwise).AfterAll(Lines(body)), more);
  }

  lemma AfterConditional<S>(s: State<S>, opening: Line<S>, a: seq<Line<S>>, b: seq<Line<S>>, closing: Line<S>,
                            c: seq<Line<S>>)
    ensures s.AfterAll([opening] + a + b + [closing] + c)
            == s.After(opening).AfterAll(a).AfterAll(b).After(closing).AfterAll(c)
  {
    AfterOne(s, opening);
    AfterConcat(s, [opening], a);
    AfterConcat(s, [opening] + a, b);
    AfterSnoc(s, [opening] + a + b, closing);
    AfterConcat(s, [opening] + a + b + [closing], c);
  }

  // ---------------------------------------------------------------------------
  // The stack, read off the syntax alone: no checkpoints, and no branch but those one is in

  // After a file: each conditional counts with its first branch.
  function StackAfter<S>(f: File<S>, stack: seq<S>): (r: seq<S>) {
    match f
    case Empty => stack
    case Plain(line, rest) => StackAfter(rest, line.effect(stack))
    case Conditional(opening, body, _, closing, rest) =>
      StackAfter(rest, closing.effect(StackAfter(body, opening.effect(stack))))
  }

  // A place in a file: after some of it, in the first branch of a conditional, or in a later one after others
  datatype Place<!S> =
    | Reached(before: File<S>)
    | InFirst(before: File<S>, opening: Line<S>, inside: Place<S>)
    | InLater(before: File<S>, opening: Line<S>, body: File<S>, others: Branches<S>, otherwise: Line<S>,
              inside: Place<S>)

  predicate WellPlaced<S>(at: Place<S>) {
    WellNested(at.before) &&
    match at
    case Reached(_) => true
    case InFirst(_, opening, inside) => opening.directive == If && WellPlaced(inside)
    case InLater(_, opening, body, others, otherwise, inside) =>
      && opening.directive == If && WellNested(body) && WellNestedBranches(others)
      && otherwise.directive == Else && WellPlaced(inside)
  }

  // The lines before it
  function LinesTo<S>(at: Place<S>): (lines: seq<Line<S>>) {
    match at
    case Reached(before) => Lines(before)
    case InFirst(before, opening, inside) => Lines(before) + ([opening] + LinesTo(inside))
    case InLater(before, opening, body, others, otherwise, inside) =>
      Lines(before) + (([opening] + Lines(body) + BranchLines(others)) + ([otherwise] + LinesTo(inside)))
  }

  // The stack there: a later branch starts from the stack before its #if.
  function StackAt<S>(at: Place<S>, stack: seq<S>): (r: seq<S>) {
    match at
    case Reached(before) => StackAfter(before, stack)
    case InFirst(before, opening, inside) => StackAt(inside, opening.effect(StackAfter(before, stack)))
    case InLater(before, _, _, _, otherwise, inside) => StackAt(inside, otherwise.effect(StackAfter(before, stack)))
  }

  /** Whatever the state, a well-nested file takes its stack to the one read off the syntax, and leaves the checkpoints
      as they were. */
  lemma {:induction false} FileMeaning<S>(s: State<S>, f: File<S>)
    requires WellNested(f)
    ensures s.AfterAll(Lines(f)) == State(StackAfter(f, s.stack), s.ppStack)
    decreases f
  {
    match f
    case Empty =>
    case Plain(line, rest) =>
      AfterOne(s, line);
      AfterConcat(s, [line], Lines(rest));
      FileMeaning(s.After(line), rest);
    case Conditional(opening, body, branches, closing, rest) =>
      var first := s.After(opening).AfterAll(Lines(body));
      FileMeaning(s.After(opening), body);
      assert first.ppStack[..|s.ppStack|] == s.ppStack;
      LaterBranches(first, branches);
      FileMeaning(first.After(closing), rest);
      AfterConditional(s, opening, Lines(body), BranchLines(branches), closing, Lines(rest));
  }

  // An #else or #elif takes the stack back to what it was before its #if, however many branches came before.
  lemma BranchStartsAtIf<S>(s: State<S>, opening: Line<S>, body: File<S>, others: Branches<S>)
    requires opening.directive == If && WellNested(body) && WellNestedBranches(others)
    ensures var t := s.AfterAll([opening] + Lines(body) + BranchLines(others));
            t.Preprocessed(Else).stack == s.stack && t.Preprocessed(Endif).ppStack == s.ppStack
  {
    var first := s.After(opening).AfterAll(Lines(body));
    AfterOne(s, opening);
    AfterConcat(s, [opening], Lines(body));
    AfterConcat(s, [opening] + Lines(body), BranchLines(others));
    FileMeaning(s.After(opening), body);
    assert first.ppStack[..|s.ppStack|] == s.ppStack;
    LaterBranches(first, others);
  }

  /** At every place in a well-nested file, at any depth of first and later branches, the linter has the stack read off
      the syntax. */
  lemma {:induction false} PlaceMeaning<S>(s: State<S>, at: Place<S>)
    requires WellPlaced(at)
    ensures s.AfterAll(LinesTo(at)).stack == StackAt(at, s.stack)
    decreases at
  {
    var t := s.AfterAll(Lines(at.before));
    FileMeaning(s, at.before);
    match at
    case Reached(_) =>
    case InFirst(before, opening, inside) =>
      AfterConcat(s, Lines(before), [opening] + LinesTo(inside));
      AfterOne(t, opening);
      AfterConcat(t, [opening], LinesTo(inside));
      PlaceMeaning(t.After(opening), inside);
    case InLater(before, opening, body, others, otherwise, inside) =>
      var skipped := [opening] + Lines(body) + BranchLines(others);
      var u := t.AfterAll(skipped);
      AfterConcat(s, Lines(before), skipped + ([otherwise] + LinesTo(inside)));
      AfterConcat(t, skipped, [otherwise] + LinesTo(inside));
      BranchStartsAtIf(t, opening, body, others);
      AfterOne(u, otherwise);
      AfterConcat(u, [otherwise], LinesTo(inside));
      PlaceMeaning(u.After(otherwise), inside);
  }

  /** What stands in later branches cannot matter: two files with the same first branches end alike. */
  lemma LaterBranchesDoNotMatter<S>(s: State<S>, a: seq<Line<S>>, b: seq<Line<S>>)
    requires s.Valid() && Erased(Seen(s.ppStack), a) == Erased(Seen(s.ppStack), b)
    requires Live(ScannedAll(Seen(s.ppStack), a)) && Live(ScannedAll(Seen(s.ppStack), b))
    ensures s.AfterAll(a) == s.AfterAll(b)
  {
    Erasure(s, a);
    Erasure(s, b);
    FinalScan(s, a);
    FinalScan(s, b);
  }
}
