/** The linter's bracket matcher: the text from an opening bracket up to the bracket that closes it. */
module TextInside {
  import opened Missing

  predicate Opening(c: char) { c == '(' || c == '{' || c == '[' }

  predicate Closing(c: char) { c == ')' || c == '}' || c == ']' }

  function Match(c: char): (m: char)
    requires Opening(c)
    ensures Closing(m)
  {
    match c
    case '(' => ')'
    case '{' => '}'
    case _ => ']'
  }

  // ---------------------------------------------------------------------------
  // Balanced text, by its grammar: brackets close in the order opposite to the one they open in

  datatype Tree = Nil | Plain(c: char, rest: Tree) | Group(open: char, inner: Tree, close: char, rest: Tree)

  predicate Brackets(open: char, close: char) {
    (open == '(' && close == ')') || (open == '{' && close == '}') || (open == '[' && close == ']')
  }

  predicate Parses(t: Tree) {
    match t
    case Nil => true
    case Plain(c, rest) => c !in "(){}[]" && Parses(rest)
    case Group(open, inner, close, rest) => Brackets(open, close) && Parses(inner) && Parses(rest)
  }

  function Flatten(t: Tree): (s: string) {
    match t
    case Nil => ""
    case Plain(c, rest) => [c] + Flatten(rest)
    case Group(open, inner, close, rest) => [open] + Flatten(inner) + [close] + Flatten(rest)
  }

  ghost predicate Balanced(s: string) {
    exists t :: Parses(t) && Flatten(t) == s
  }

  // The bracket before start is closed at end.
  ghost predicate Encloses(text: string, start: nat, end: nat)
    requires 0 < start <= |text| && Opening(text[start - 1])
  {
    start <= end < |text| && Brackets(text[start - 1], text[end]) && Balanced(text[start..end])
  }

  // ---------------------------------------------------------------------------
  // Reading with a stack of the closing brackets still expected, the innermost last

  // The stack after one more character; None for a closing bracket that is not the one expected
  function Pushed(stack: string, c: char): (r: Option<string>)
    requires stack != ""
  {
    var top := |stack| - 1;
    if c == stack[top] then Some(stack[..top])
    else if Closing(c) then None
    else if Opening(c) then Some(stack + [Match(c)])
    else Some(stack)
  }

  // The number of characters read when the stack runs empty; None for a wrong bracket or the end of the text
  function Scan(stack: string, text: string): (r: Option<nat>)
    decreases |text|
  {
    if stack == "" then Some(0)
    else if text == "" || Pushed(stack, text[0]).None? then None
    else Later(Scan(Pushed(stack, text[0]).value, text[1..]), 1)
  }

  function Later(r: Option<nat>, n: nat): (r': Option<nat>) {
    if r.None? then None else Some(r.value + n)
  }

  predicate Closers(stack: string) {
    forall k :: 0 <= k < |stack| ==> Closing(stack[k])
  }

  lemma ScanCons(stack: string, c: char, text: string)
    requires stack != ""
    ensures Scan(stack, [c] + text)
            == if Pushed(stack, c).None? then None else Later(Scan(Pushed(stack, c).value, text), 1)
  {
    assert ([c] + text)[1..] == text;
  }

  lemma ScanNext(stack: string, text: string, position: nat)
    requires stack != "" && position < |text|
    ensures Scan(stack, text[position..])
            == if Pushed(stack, text[position]).None? then None
               else Later(Scan(Pushed(stack, text[position]).value, text[position + 1..]), 1)
  {
    assert text[position..] == [text[position]] + text[position + 1..];
    ScanCons(stack, text[position], text[position + 1..]);
  }

  lemma GroupText(open: string, inner: string, close: string, rest: string, text: string)
    ensures (open + inner + close + rest) + text == open + (inner + (close + (rest + text)))
  {
  }

  // Balanced text leaves the stack as it was.
  lemma {:induction false} ScanBalanced(t: Tree, stack: string, text: string)
    requires Parses(t) && stack != "" && Closers(stack)
    ensures Scan(stack, Flatten(t) + text) == Later(Scan(stack, text), |Flatten(t)|)
    decreases t
  {
    match t
    case Nil => assert "" + text == text;
    case Plain(c, rest) =>
      assert Flatten(t) + text == [c] + (Flatten(rest) + text);
      ScanCons(stack, c, Flatten(rest) + text);
      ScanBalanced(rest, stack, text);
    case Group(open, inner, close, rest) =>
      var pushed, s := stack + [close], Flatten(rest) + text;
      assert Closers(pushed);
      ScanBalanced(inner, pushed, [close] + s);
      ScanGroup(stack, open, close, pushed, Flatten(inner) + ([close] + s), s, [close] + s, |Flatten(inner)|);
      ScanBalanced(rest, stack, text);
      GroupText([open], Flatten(inner), [close], Flatten(rest), text);
      LaterTwice(Scan(stack, text), |Flatten(rest)|, |Flatten(inner)| + 2);
  }

  lemma LaterTwice(r: Option<nat>, m: nat, n: nat)
    ensures Later(Later(r, m), n) == Later(r, m + n)
  {
  }

  lemma PushedAndPopped(stack: string, open: char, close: char)
    requires stack != "" && Closers(stack) && Brackets(open, close)
    ensures Pushed(stack, open) == Some(stack + [close]) && Pushed(stack + [close], close) == Some(stack)
  {
    assert Closing(stack[|stack| - 1]) && Match(open) == close;
    assert (stack + [close])[..|stack|] == stack;
  }

  // A group leaves the stack as it was, if the n characters inside leave it so.
  lemma ScanGroup(stack: string, open: char, close: char, pushed: string, inside: string, rest: string, after: string,
                  n: nat)
    requires stack != "" && Closers(stack) && Brackets(open, close) && pushed == stack + [close]
    requires after == [close] + rest && Scan(pushed, inside) == Later(Scan(pushed, after), n)
    ensures Scan(stack, [open] + inside) == Later(Scan(stack, rest), n + 2)
  {
    PushedAndPopped(stack, open, close);
    ScanCons(stack, open, inside);
    ScanCons(pushed, close, rest);
  }

  // t is what text starts with, c comes next and text' is the remainder.
  predicate Splits(text: string, t: string, c: char, text': string) {
    text == t + ([c] + text')
  }

  lemma SplitsGroup(text: string, open: char, inner: Tree, after: string, tail: Tree, c: char, text': string)
    requires text != "" && text[0] == open && Opening(open) && Parses(inner) && Parses(tail)
    requires Splits(text[1..], Flatten(inner), Match(open), after) && Splits(after, Flatten(tail), c, text')
    ensures Splits(text, Flatten(Group(open, inner, Match(open), tail)), c, text')
    ensures |Flatten(Group(open, inner, Match(open), tail))| == 2 + |Flatten(inner)| + |Flatten(tail)|
  {
    assert text == [open] + text[1..];
    GroupText([open], Flatten(inner), [Match(open)], Flatten(tail), [c] + text');
  }

  lemma SplitsPlain(text: string, first: char, tail: Tree, c: char, text': string)
    requires Parses(Plain(first, tail))
    requires text != "" && text[0] == first && Splits(text[1..], Flatten(tail), c, text')
    ensures Splits(text, Flatten(Plain(first, tail)), c, text') && |Flatten(Plain(first, tail))| == 1 + |Flatten(tail)|
  {
    assert text == [first] + text[1..];
    assert text == Flatten(Plain(first, tail)) + ([c] + text');
  }

  // Balanced text and the bracket on top of the stack leave the rest of the text to the rest of the stack.
  lemma SplitsRead(stack: string, text: string, t: Tree, text': string)
    requires stack != "" && Closers(stack) && Parses(t) && Splits(text, Flatten(t), stack[|stack| - 1], text')
    ensures Scan(stack, text) == Later(Scan(stack[..|stack| - 1], text'), |Flatten(t)| + 1)
  {
    var top := stack[|stack| - 1];
    ScanBalanced(t, stack, [top] + text');
    ScanCons(stack, top, text');
  }

  // Whatever empties the stack first reads a balanced stretch and the bracket on top.
  lemma {:induction false} ScanSplits(stack: string, text: string) returns (t: Tree, text': string)
    requires stack != "" && Closers(stack) && Scan(stack, text).Some?
    ensures Parses(t) && Splits(text, Flatten(t), stack[|stack| - 1], text')
    ensures Scan(stack, text) == Later(Scan(stack[..|stack| - 1], text'), |Flatten(t)| + 1)
    decreases |text|
  {
    ScanFirst(stack, text);
    var c, rest, top := text[0], text[1..], stack[|stack| - 1];
    if c == top {
      t, text' := Nil, rest;
      assert text == [c] + rest;
    } else if Opening(c) {
      var pushed := stack + [Match(c)];
      var inner, after := ScanSplits(pushed, rest);
      assert pushed[..|stack|] == stack;
      var tail;
      tail, text' := ScanSplits(stack, after);
      t := Group(c, inner, Match(c), tail);
      SplitsGroup(text, c, inner, after, tail, top, text');
    } else {
      var tail;
      tail, text' := ScanSplits(stack, rest);
      t := Plain(c, tail);
      SplitsPlain(text, c, tail, top, text');
    }
    SplitsRead(stack, text, t, text');
  }

  lemma ScanFirst(stack: string, text: string)
    requires stack != "" && Scan(stack, text).Some?
    ensures text != "" && Pushed(stack, text[0]).Some?
    ensures Scan(stack, text) == Later(Scan(Pushed(stack, text[0]).value, text[1..]), 1)
    ensures Scan(Pushed(stack, text[0]).value, text[1..]).Some?
  {
  }

  lemma ScanSound(stack: string, closer: char, text: string, n: nat)
    requires stack == [closer] && Closing(closer) && Scan(stack, text) == Some(n + 1)
    ensures n < |text| && text[n] == closer && Balanced(text[..n])
  {
    var t, text' := ScanSplits(stack, text);
    assert stack[..0] == "";
    assert Flatten(t) == text[..n];
  }

  lemma ScanComplete(stack: string, closer: char, text: string, n: nat)
    requires stack == [closer] && Closing(closer) && n < |text| && text[n] == closer && Balanced(text[..n])
    ensures Scan(stack, text) == Some(n + 1)
  {
    var t :| Parses(t) && Flatten(t) == text[..n];
    ScanBalanced(t, stack, text[n..]);
    assert text == text[..n] + text[n..];
    assert text[n..] == [closer] + text[n + 1..];
    ScanCons(stack, closer, text[n + 1..]);
    assert stack[..0] == "";
  }

  /** Sound and complete: reading stops right after position end exactly when the bracket is closed there. */
  lemma ScanIff(text: string, start: nat, end: nat)
    requires 0 < start <= end <= |text| && Opening(text[start - 1])
    ensures Scan([Match(text[start - 1])], text[start..]) == Some(end - start + 1) <==> Encloses(text, start, end)
  {
    var closer, n := Match(text[start - 1]), end - start;
    var stack, rest := [closer], text[start..];
    assert rest[..n] == text[start..end];
    if Scan(stack, rest) == Some(n + 1) {
      ScanSound(stack, closer, rest, n);
    }
    if Encloses(text, start, end) {
      assert rest[n] == closer;
      ScanComplete(stack, closer, rest, n);
    }
  }

  /** A bracket is closed in one place at most. */
  lemma EnclosesUnique(text: string, start: nat, end: nat, end': nat)
    requires 0 < start <= |text| && Opening(text[start - 1])
    requires Encloses(text, start, end) && Encloses(text, start, end')
    ensures end == end'
  {
    ScanIff(text, start, end);
    ScanIff(text, start, end');
  }

  // r is the text up to the closing bracket, which is the only one; None exactly when there is none.
  ghost predicate IsTextInside(text: string, start: nat, r: Option<string>)
    requires 0 < start <= |text| && Opening(text[start - 1])
  {
    match r
    case None => forall end :: !Encloses(text, start, end)
    case Some(t) => Encloses(text, start, start + |t|) && t == text[start..start + |t|]
  }

  lemma ScanDecides(text: string, start: nat, whole: Option<nat>)
    requires 0 < start <= |text| && Opening(text[start - 1])
    requires whole == Scan([Match(text[start - 1])], text[start..])
    ensures whole.None? ==> IsTextInside(text, start, None)
    ensures whole.Some? && 0 < whole.value <= |text| - start ==>
              IsTextInside(text, start, Some(text[start..start + whole.value - 1]))
  {
    if whole.None? {
      forall end | start <= end < |text| ensures !Encloses(text, start, end) {
        ScanIff(text, start, end);
      }
    } else if 0 < whole.value <= |text| - start {
      ScanIff(text, start, start + whole.value - 1);
    }
  }

  /** The text between the opening bracket before startPosition and the bracket that closes it. */
  method GetTextInside(text: string, startPosition: nat) returns (r: Option<string>)
    requires 0 < startPosition <= |text| && Opening(text[startPosition - 1])
    ensures IsTextInside(text, startPosition, r)
  {
    var punctuationStack := [Match(text[startPosition - 1])];
    ghost var whole := Scan(punctuationStack, text[startPosition..]);
    ScanDecides(text, startPosition, whole);
    var position := startPosition;
    while punctuationStack != "" && position < |text|
      invariant startPosition <= position <= |text|
      invariant position == startPosition ==> punctuationStack != ""
      invariant whole == Later(Scan(punctuationStack, text[position..]), position - startPosition)
    {
      var top := |punctuationStack| - 1;
      ScanNext(punctuationStack, text, position);
      if text[position] == punctuationStack[top] {
        punctuationStack := punctuationStack[..top];
      } else if Closing(text[position]) {
        return None;
      } else if Opening(text[position]) {
        punctuationStack := punctuationStack + [Match(text[position])];
      }
      position := position + 1;
    }
    if punctuationStack != "" {
      return None;
    }
    return Some(text[startPosition..position - 1]);
  }
}
