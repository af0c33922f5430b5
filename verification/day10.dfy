/**
 * Syntax scoring: each line of brackets is read with a stack of the
 * openers not yet closed. A closer that does not match the top of the
 * stack makes the line corrupt; a line that ends with openers left is
 * incomplete, and the closers for them, innermost first, complete it.
 */
module Day10Syntax {
  import opened Common
  import opened Text

  /** Index into the opener and closer tables: round, square, curly, angle. */
  type Bracket = k: nat | k < 4

  const Openers: seq<char> := ['(', '[', '{', '<']
  const Closers: seq<char> := [')', ']', '}', '>']

  /** Python's `list.index` on a four-entry table: the first position holding c, or the ValueError. */
  function IndexIn(table: seq<char>, c: char): (r: Option<Bracket>)
    requires |table| == 4
    ensures r.Some? <==> c in table
    ensures r.Some? ==> table[r.value] == c && c !in table[..r.value]
  {
    if table[0] == c then Some(0)
    else if table[1] == c then Some(1)
    else if table[2] == c then Some(2)
    else if table[3] == c then Some(3)
    else None
  }

  predicate IsCloser(c: char)
  {
    c in Closers
  }

  /** What one line yields: the first wrong closer, or the closers that finish it. */
  datatype Outcome = Corrupt(found: char) | Incomplete(completion: string)

  /** Reading state: the stack of open brackets (top last), or the closer that stopped the line. */
  datatype Progress = Reading(stack: seq<Bracket>) | Stopped(found: char)

  /**
   * Feeds characters to the stack: an opener is pushed; anything else pops
   * the stack (IndexError when it is empty) and is looked up among the
   * closers (ValueError when it is none); a closer other than the popped
   * opener's stops the line.
   */
  function Feed(s: string, stack: seq<Bracket>): Result<Progress>
    decreases |s|
  {
    if s == [] then Ok(Reading(stack))
    else match IndexIn(Openers, s[0])
      case Some(k) => Feed(s[1..], stack + [k])
      case None =>
        if stack == [] then Err(IndexError)
        else match IndexIn(Closers, s[0])
          case None => Err(ValueError)
          case Some(k) =>
            if stack[|stack| - 1] != k then Ok(Stopped(s[0]))
            else Feed(s[1..], stack[..|stack| - 1])
  }

  /** The closers of the open brackets, from the top of the stack down. */
  function Completion(stack: seq<Bracket>): (r: string)
    ensures |r| == |stack|
    ensures forall i :: 0 <= i < |r| ==> r[i] == Closers[stack[|stack| - 1 - i]]
  {
    if stack == [] then [] else [Closers[stack[|stack| - 1]]] + Completion(stack[..|stack| - 1])
  }

  /** The outcome of a stripped line. */
  function Analyse(text: string): Result<Outcome>
  {
    match Feed(text, [])
    case Err(e) => Err(e)
    case Ok(Stopped(c)) => Ok(Corrupt(c))
    case Ok(Reading(stack)) => Ok(Incomplete(Completion(stack)))
  }

  /** The outcome of one line as read from the file, whitespace stripped first. */
  function LineOutcome(line: string): Result<Outcome>
  {
    Analyse(Strip(line))
  }

  /** The per-line body of `analyse_lines`: a loop pushing and popping a stack. */
  method AnalyseLine(line: string) returns (r: Result<Outcome>)
    ensures r == LineOutcome(line)
  {
    var text := Strip(line);
    var stack: seq<Bracket> := [];
    var i := 0;
    while i < |text|
      invariant 0 <= i <= |text|
      invariant Feed(text, []) == Feed(text[i..], stack)
    {
      var c := text[i];
      assert text[i..][0] == c && text[i..][1..] == text[i + 1..];
      var k := IndexIn(Openers, c);
      if k.Some? {
        stack := stack + [k.value];
      } else {
        if stack == [] {
          return Err(IndexError);
        }
        var top := stack[|stack| - 1];
        stack := stack[..|stack| - 1];
        var closer := IndexIn(Closers, c);
        if closer.None? {
          return Err(ValueError);
        }
        if top != closer.value {
          return Ok(Corrupt(c));
        }
      }
      i := i + 1;
    }
    return Ok(Incomplete(Completion(stack)));
  }

  /** The generator over all lines: the outcomes in order, or the first line's exception. */
  function Outcomes(lines: seq<string>): Result<seq<Outcome>>
  {
    if lines == [] then Ok([])
    else match LineOutcome(lines[0])
      case Err(e) => Err(e)
      case Ok(o) =>
        match Outcomes(lines[1..])
        case Err(e) => Err(e)
        case Ok(rest) => Ok([o] + rest)
  }

  /**
   * The generator yields one outcome per line, in order, when every line
   * reads; otherwise the exception of the first line that fails.
   */
  lemma {:induction false} OutcomesPerLine(lines: seq<string>)
    ensures Outcomes(lines).Ok? ==>
      |Outcomes(lines).value| == |lines| &&
      forall i :: 0 <= i < |lines| ==> LineOutcome(lines[i]) == Ok(Outcomes(lines).value[i])
    ensures Outcomes(lines).Err? ==>
      exists i :: 0 <= i < |lines| && LineOutcome(lines[i]) == Err(Outcomes(lines).error) &&
        forall j :: 0 <= j < i ==> LineOutcome(lines[j]).Ok?
  {
    if lines != [] && LineOutcome(lines[0]).Ok? {
      OutcomesPerLine(lines[1..]);
      if Outcomes(lines).Err? {
        var i :| 0 <= i < |lines[1..]| && LineOutcome(lines[1..][i]) == Err(Outcomes(lines).error) &&
          forall j :: 0 <= j < i ==> LineOutcome(lines[1..][j]).Ok?;
        assert LineOutcome(lines[i + 1]) == Err(Outcomes(lines).error);
        forall j | 0 <= j < i + 1 ensures LineOutcome(lines[j]).Ok? {
          if j > 0 { assert lines[j] == lines[1..][j - 1]; }
        }
      }
    }
  }

  // ---------------------------------------------------------------------------
  // What the stack discipline means
  // ---------------------------------------------------------------------------

  /** Reading s then t is reading s, then reading t from where s left the stack. */
  lemma {:induction false} FeedAppend(s: string, t: string, stack: seq<Bracket>)
    ensures Feed(s + t, stack) ==
      match Feed(s, stack)
      case Ok(Reading(next)) => Feed(t, next)
      case other => other
    decreases |s|
  {
    if s != [] {
      assert (s + t)[0] == s[0] && (s + t)[1..] == s[1..] + t;
      match IndexIn(Openers, s[0])
      case Some(k) =>
        FeedAppend(s[1..], t, stack + [k]);
      case None =>
        if stack != [] && IndexIn(Closers, s[0]).Some? && stack[|stack| - 1] == IndexIn(Closers, s[0]).value {
          FeedAppend(s[1..], t, stack[..|stack| - 1]);
        }
    } else {
      assert s + t == t;
    }
  }

  predicate AllClosers(t: string)
  {
    forall i :: 0 <= i < |t| ==> IsCloser(t[i])
  }

  /** A string of closers empties the stack exactly when it is the stack's completion. */
  lemma {:induction false} ClosersEmptyStack(t: string, stack: seq<Bracket>)
    requires AllClosers(t)
    ensures Feed(t, stack) == Ok(Reading([])) <==> t == Completion(stack)
    decreases |t|
  {
    if t != [] {
      assert IsCloser(t[0]);
      assert IndexIn(Openers, t[0]).None?;
      if stack != [] {
        var top := stack[|stack| - 1];
        var k := IndexIn(Closers, t[0]).value;
        assert Completion(stack)[0] == Closers[top];
        if top == k {
          assert AllClosers(t[1..]) by {
            forall i | 0 <= i < |t[1..]| ensures IsCloser(t[1..][i]) { assert t[1..][i] == t[i + 1]; }
          }
          ClosersEmptyStack(t[1..], stack[..|stack| - 1]);
          assert Completion(stack) == [t[0]] + Completion(stack[..|stack| - 1]);
        } else {
          assert Closers[top] != t[0];
        }
      }
    }
  }

  /**
   * An incomplete line's completion is the one string of closers that
   * finishes it: appended, the line leaves no bracket open, and no other
   * string of closers does that.
   */
  lemma CompletionFinishes(text: string, t: string)
    requires Analyse(text).Ok? && Analyse(text).value.Incomplete?
    requires AllClosers(t)
    ensures Analyse(text + t) == Ok(Incomplete([])) <==> t == Analyse(text).value.completion
  {
    FeedAppend(text, t, []);
    var stack := Feed(text, []).value.stack;
    ClosersEmptyStack(t, stack);
    match Feed(t, stack)
    case Err(_) =>
    case Ok(Stopped(_)) =>
    case Ok(Reading(rest)) =>
      assert Analyse(text + t) == Ok(Incomplete(Completion(rest)));
      assert |Completion(rest)| == |rest|;
  }

  lemma CompletionIsClosers(stack: seq<Bracket>)
    ensures AllClosers(Completion(stack))
  {
  }

  /** A completion is made of closers, so appending it finishes the line. */
  lemma CompletionCompletes(text: string)
    requires Analyse(text).Ok? && Analyse(text).value.Incomplete?
    ensures Analyse(text + Analyse(text).value.completion) == Ok(Incomplete([]))
  {
    CompletionIsClosers(Feed(text, []).value.stack);
    CompletionFinishes(text, Analyse(text).value.completion);
  }

  /** A corrupt line stays corrupt, at the same closer, whatever follows it. */
  lemma CorruptStops(text: string, t: string)
    requires Analyse(text).Ok? && Analyse(text).value.Corrupt?
    ensures Analyse(text + t) == Analyse(text)
  {
    FeedAppend(text, t, []);
  }

  /**
   * Where a read stops: at some position the prefix reads without error,
   * the stack is not empty, and the character there is a closer that does
   * not close the bracket on top.
   */
  lemma {:induction false} StoppedAt(s: string, stack: seq<Bracket>)
    requires Feed(s, stack).Ok? && Feed(s, stack).value.Stopped?
    ensures exists i :: 0 <= i < |s| && Mismatch(s, stack, i) && s[i] == Feed(s, stack).value.found
    decreases |s|
  {
    assert [s[0]][0] == s[0] && [s[0]][1..] == [];
    match IndexIn(Openers, s[0])
    case Some(k) =>
      StoppedAt(s[1..], stack + [k]);
      var i :| 0 <= i < |s[1..]| && Mismatch(s[1..], stack + [k], i) && s[1..][i] == Feed(s, stack).value.found;
      ShiftMismatch(s, stack, i);
    case None =>
      var k := IndexIn(Closers, s[0]).value;
      if stack[|stack| - 1] != k {
        assert s[..0] == [];
        assert Mismatch(s, stack, 0);
      } else {
        StoppedAt(s[1..], stack[..|stack| - 1]);
        var i :| 0 <= i < |s[1..]| && Mismatch(s[1..], stack[..|stack| - 1], i) && s[1..][i] == Feed(s, stack).value.found;
        ShiftMismatch(s, stack, i);
      }
  }

  /** Position i holds a closer that does not match the top of the stack left by s[..i]. */
  predicate Mismatch(s: string, stack: seq<Bracket>, i: int)
    requires 0 <= i < |s|
  {
    && Feed(s[..i], stack).Ok? && Feed(s[..i], stack).value.Reading?
    && Feed(s[..i], stack).value.stack != []
    && IsCloser(s[i])
    && Closers[Last(Feed(s[..i], stack).value.stack)] != s[i]
  }

  function Last(stack: seq<Bracket>): Bracket
    requires stack != []
  {
    stack[|stack| - 1]
  }

  /** A mismatch found after the first character is a mismatch of the whole string one position on. */
  lemma ShiftMismatch(s: string, stack: seq<Bracket>, i: nat)
    requires s != [] && i < |s| - 1
    requires Feed([s[0]], stack) == Ok(Reading(Push(s[0], stack)))
    requires Mismatch(s[1..], Push(s[0], stack), i)
    ensures Mismatch(s, stack, i + 1)
  {
    assert s[..i + 1] == [s[0]] + s[1..][..i];
    FeedAppend([s[0]], s[1..][..i], stack);
    assert [s[0]][1..] == [];
  }

  /** The stack after one character that neither errs nor stops the read. */
  function Push(c: char, stack: seq<Bracket>): seq<Bracket>
  {
    match IndexIn(Openers, c)
    case Some(k) => stack + [k]
    case None => if stack == [] then [] else stack[..|stack| - 1]
  }

  /** A mismatching closer stops the read there, whatever follows. */
  lemma StopsAtMismatch(s: string, stack: seq<Bracket>, i: nat)
    requires i < |s| && Mismatch(s, stack, i)
    ensures Feed(s, stack) == Ok(Stopped(s[i]))
  {
    assert s == s[..i] + s[i..];
    FeedAppend(s[..i], s[i..], stack);
    assert s[i..][0] == s[i];
    assert IndexIn(Openers, s[i]).None?;
  }

  /**
   * A line is corrupt at c exactly when some position holds c, a closer
   * that does not match the innermost bracket left open by the text before
   * it: the first entry of that prefix's completion.
   */
  lemma CorruptIff(text: string, c: char)
    ensures Analyse(text) == Ok(Corrupt(c)) <==>
      exists i :: 0 <= i < |text| && text[i] == c && IsCloser(c) &&
        Analyse(text[..i]).Ok? && Analyse(text[..i]).value.Incomplete? &&
        Analyse(text[..i]).value.completion != [] && Analyse(text[..i]).value.completion[0] != c
  {
    if Analyse(text) == Ok(Corrupt(c)) {
      StoppedAt(text, []);
      var i :| 0 <= i < |text| && Mismatch(text, [], i) && text[i] == c;
      assert Analyse(text[..i]).value.completion[0] == Closers[Last(Feed(text[..i], []).value.stack)];
    }
    if exists i :: 0 <= i < |text| && text[i] == c && IsCloser(c) &&
        Analyse(text[..i]).Ok? && Analyse(text[..i]).value.Incomplete? &&
        Analyse(text[..i]).value.completion != [] && Analyse(text[..i]).value.completion[0] != c
    {
      var i :| 0 <= i < |text| && text[i] == c && IsCloser(c) &&
        Analyse(text[..i]).Ok? && Analyse(text[..i]).value.Incomplete? &&
        Analyse(text[..i]).value.completion != [] && Analyse(text[..i]).value.completion[0] != c;
      assert Mismatch(text, [], i);
      StopsAtMismatch(text, [], i);
    }
  }

  // ---------------------------------------------------------------------------
  // Scores
  // ---------------------------------------------------------------------------

  /** Part one's table; only closers are ever looked up, as CorruptIsCloser shows. */
  function ErrorPoints(c: char): nat
  {
    if c == ')' then 3 else if c == ']' then 57 else if c == '}' then 1197 else if c == '>' then 25137 else 0
  }

  lemma CorruptIsCloser(text: string)
    requires Analyse(text).Ok? && Analyse(text).value.Corrupt?
    ensures IsCloser(Analyse(text).value.found)
    ensures ErrorPoints(Analyse(text).value.found) in {3, 57, 1197, 25137}
  {
    StoppedAt(text, []);
  }

  function CorruptScores(outcomes: seq<Outcome>): seq<int>
  {
    if outcomes == [] then []
    else (if outcomes[0].Corrupt? then [ErrorPoints(outcomes[0].found) as int] else []) + CorruptScores(outcomes[1..])
  }

  /** Part one: the points of every corrupt line's closer, summed. */
  function SyntaxErrorScore(lines: seq<string>): Result<int>
  {
    match Outcomes(lines)
    case Err(e) => Err(e)
    case Ok(outcomes) => Ok(Sum(CorruptScores(outcomes)))
  }

  /** How many outcomes are corrupt lines. */
  function CorruptCount(outcomes: seq<Outcome>): nat
  {
    if outcomes == [] then 0 else (if outcomes[0].Corrupt? then 1 else 0) + CorruptCount(outcomes[1..])
  }

  lemma {:induction false} CorruptScoresBounds(outcomes: seq<Outcome>)
    requires forall i :: 0 <= i < |outcomes| && outcomes[i].Corrupt? ==> IsCloser(outcomes[i].found)
    ensures 3 * CorruptCount(outcomes) <= Sum(CorruptScores(outcomes)) <= 25137 * CorruptCount(outcomes)
  {
    if outcomes != [] {
      var rest := outcomes[1..];
      CorruptScoresBounds(rest);
      assert CorruptScores(outcomes) == (if outcomes[0].Corrupt? then [ErrorPoints(outcomes[0].found) as int] else []) + CorruptScores(rest);
      SumConcat(if outcomes[0].Corrupt? then [ErrorPoints(outcomes[0].found) as int] else [], CorruptScores(rest));
      if outcomes[0].Corrupt? {
        assert 3 <= ErrorPoints(outcomes[0].found) <= 25137;
      }
    }
  }

  /**
   * Part one's total lies between 3 and 25137 points per corrupt line, so it
   * is zero exactly when no line is corrupt; it is an error exactly when
   * some line raises.
   */
  lemma SyntaxErrorScoreBounds(lines: seq<string>)
    ensures SyntaxErrorScore(lines).Ok? <==> Outcomes(lines).Ok?
    ensures SyntaxErrorScore(lines).Ok? ==>
      3 * CorruptCount(Outcomes(lines).value) <= SyntaxErrorScore(lines).value <= 25137 * CorruptCount(Outcomes(lines).value)
  {
    if Outcomes(lines).Ok? {
      var outcomes := Outcomes(lines).value;
      OutcomesPerLine(lines);
      forall i | 0 <= i < |outcomes| && outcomes[i].Corrupt? ensures IsCloser(outcomes[i].found) {
        CorruptIsCloser(Strip(lines[i]));
      }
      CorruptScoresBounds(outcomes);
    }
  }

  /** The generator over two blocks of lines: the first block's exception, else the second's, else both outcome lists in order. */
  lemma {:induction false} OutcomesAppend(a: seq<string>, b: seq<string>)
    ensures Outcomes(a + b) ==
      match Outcomes(a)
      case Err(e) => Err(e)
      case Ok(oa) =>
        match Outcomes(b)
        case Err(e) => Err(e)
        case Ok(ob) => Ok(oa + ob)
  {
    if a != [] {
      assert (a + b)[0] == a[0] && (a + b)[1..] == a[1..] + b;
      OutcomesAppend(a[1..], b);
      if LineOutcome(a[0]).Ok? && Outcomes(a[1..]).Ok? && Outcomes(b).Ok? {
        var o := LineOutcome(a[0]).value;
        assert [o] + (Outcomes(a[1..]).value + Outcomes(b).value) == ([o] + Outcomes(a[1..]).value) + Outcomes(b).value;
      }
    } else {
      assert a + b == b;
      if Outcomes(b).Ok? {
        assert [] + Outcomes(b).value == Outcomes(b).value;
      }
    }
  }

  lemma {:induction false} CorruptScoresAppend(s: seq<Outcome>, t: seq<Outcome>)
    ensures CorruptScores(s + t) == CorruptScores(s) + CorruptScores(t)
  {
    if s != [] {
      assert (s + t)[1..] == s[1..] + t;
      CorruptScoresAppend(s[1..], t);
    } else {
      assert s + t == t;
    }
  }

  /**
   * Part one's total is additive over the lines: the total of two blocks is
   * the sum of their totals, and an exception in the first block wins over
   * one in the second.
   */
  lemma SyntaxErrorScoreAppend(a: seq<string>, b: seq<string>)
    ensures SyntaxErrorScore(a + b) ==
      match SyntaxErrorScore(a)
      case Err(e) => Err(e)
      case Ok(sa) =>
        match SyntaxErrorScore(b)
        case Err(e) => Err(e)
        case Ok(sb) => Ok(sa + sb)
  {
    OutcomesAppend(a, b);
    if Outcomes(a).Ok? && Outcomes(b).Ok? {
      CorruptScoresAppend(Outcomes(a).value, Outcomes(b).value);
      SumConcat(CorruptScores(Outcomes(a).value), CorruptScores(Outcomes(b).value));
    }
  }

  /** Part two's table. */
  function ClosePoints(c: char): nat
  {
    if c == ')' then 1 else if c == ']' then 2 else if c == '}' then 3 else if c == '>' then 4 else 0
  }

  function Reverse(s: string): (r: string)
    ensures |r| == |s|
  {
    if s == [] then [] else Reverse(s[1..]) + [s[0]]
  }

  /** The sum of 5^i times the points of the i-th closer counted from the end, from index i on. */
  function WeightedSum(rev: string, i: nat): nat
  {
    if rev == [] then 0
    else
      PowPositive(5, i);
      Pow(5, i) * ClosePoints(rev[0]) + WeightedSum(rev[1..], i + 1)
  }

  /** A completion's score, as the sum over `enumerate(reversed(line))`. */
  function CompletionScore(completion: string): nat
  {
    WeightedSum(Reverse(completion), 0)
  }

  lemma {:induction false} WeightedSumShift(rev: string, i: nat)
    ensures WeightedSum(rev, i + 1) == 5 * WeightedSum(rev, i)
    decreases |rev|
  {
    if rev != [] {
      WeightedSumShift(rev[1..], i + 1);
    }
  }

  /** Each closer appended shifts the score one base-5 digit up: the first closer weighs most. */
  lemma CompletionScoreAppend(c: string, x: char)
    ensures CompletionScore(c + [x]) == 5 * CompletionScore(c) + ClosePoints(x)
  {
    assert Reverse(c + [x]) == [x] + Reverse(c) by { ReverseAppend(c, x); }
    WeightedSumShift(Reverse(c), 0);
  }

  lemma {:induction false} ReverseAppend(c: string, x: char)
    ensures Reverse(c + [x]) == [x] + Reverse(c)
    decreases |c|
  {
    if c != [] {
      assert (c + [x])[1..] == c[1..] + [x];
      ReverseAppend(c[1..], x);
    } else {
      assert c + [x] == [x];
      assert Reverse([x]) == Reverse([]) + [x];
    }
  }

  /** Distinct strings of closers score differently: the score is a base-5 numeral with digits 1 to 4. */
  lemma {:induction false} CompletionScoreInjective(a: string, b: string)
    requires AllClosers(a) && AllClosers(b)
    requires CompletionScore(a) == CompletionScore(b)
    ensures a == b
    decreases |a|
  {
    if a == [] || b == [] {
      if a != [] { NonEmptyScores(a); }
      if b != [] { NonEmptyScores(b); }
    } else {
      var a', x := a[..|a| - 1], a[|a| - 1];
      var b', y := b[..|b| - 1], b[|b| - 1];
      assert a == a' + [x] && b == b' + [y];
      CompletionScoreAppend(a', x);
      CompletionScoreAppend(b', y);
      assert IsCloser(x) && IsCloser(y);
      assert ClosePoints(x) == ClosePoints(y) by {
        assert 5 * CompletionScore(a') + ClosePoints(x) == 5 * CompletionScore(b') + ClosePoints(y);
      }
      assert AllClosers(a') by { forall i | 0 <= i < |a'| ensures IsCloser(a'[i]) { assert a'[i] == a[i]; } }
      assert AllClosers(b') by { forall i | 0 <= i < |b'| ensures IsCloser(b'[i]) { assert b'[i] == b[i]; } }
      CompletionScoreInjective(a', b');
    }
  }

  lemma NonEmptyScores(a: string)
    requires AllClosers(a) && a != []
    ensures CompletionScore(a) > 0
  {
    CompletionScoreAppend(a[..|a| - 1], a[|a| - 1]);
    assert a == a[..|a| - 1] + [a[|a| - 1]];
    assert IsCloser(a[|a| - 1]);
  }

  function IncompleteScores(outcomes: seq<Outcome>): seq<int>
  {
    if outcomes == [] then []
    else (if outcomes[0].Incomplete? then [CompletionScore(outcomes[0].completion) as int] else []) + IncompleteScores(outcomes[1..])
  }

  /** The element at index floor(n / 2) of the sorted scores; IndexError when there are none. */
  function Middle(scores: seq<int>): Result<int>
  {
    var sorted := SortAscending(scores);
    if |sorted| / 2 < |sorted| then Ok(sorted[|sorted| / 2]) else Err(IndexError)
  }

  /** Part two's answer. */
  function MiddleScoreSpec(lines: seq<string>): Result<int>
  {
    match Outcomes(lines)
    case Err(e) => Err(e)
    case Ok(outcomes) => Middle(IncompleteScores(outcomes))
  }

  /** Part two: score the incomplete lines in a loop, sort, take the middle. */
  method MiddleScore(lines: seq<string>) returns (r: Result<int>)
    ensures r == MiddleScoreSpec(lines)
  {
    var outcomes := Outcomes(lines);
    if outcomes.Err? {
      return Err(outcomes.error);
    }
    var incomplete := outcomes.value;
    var scores: seq<int> := [];
    for i := 0 to |incomplete|
      invariant scores + IncompleteScores(incomplete[i..]) == IncompleteScores(incomplete)
    {
      assert incomplete[i..][1..] == incomplete[i + 1..];
      if incomplete[i].Incomplete? {
        scores := scores + [CompletionScore(incomplete[i].completion)];
      }
    }
    assert incomplete[|incomplete|..] == [];
    assert scores == IncompleteScores(incomplete);
    var sorted := SortAscending(scores);
    if |sorted| == 0 {
      return Err(IndexError);
    }
    return Ok(sorted[|sorted| / 2]);
  }

  /** v sits between lo and hi, which together with v are the scores, lo holding floor(n / 2) of them. */
  predicate MedianSplit(scores: seq<int>, v: int, lo: multiset<int>, hi: multiset<int>)
  {
    && lo + multiset{v} + hi == multiset(scores)
    && |lo| == |scores| / 2
    && (forall x :: x in lo ==> x <= v)
    && (forall x :: x in hi ==> v <= x)
  }

  /**
   * The middle score splits the scores: floor(n / 2) of them are at most it,
   * the remaining ones at least it; there is none when no line is incomplete.
   */
  lemma MiddleIsMedian(scores: seq<int>)
    ensures Middle(scores).Ok? <==> scores != []
    ensures Middle(scores).Ok? ==> exists lo, hi :: MedianSplit(scores, Middle(scores).value, lo, hi)
  {
    if scores != [] {
      var t := SortAscending(scores);
      var m := |t| / 2;
      var lo, hi := multiset(t[..m]), multiset(t[m + 1..]);
      SortedSplit(t, m, lo, hi);
      assert Middle(scores) == Ok(t[m]);
      assert MedianSplit(scores, Middle(scores).value, lo, hi);
    }
  }

  /** In a sorted sequence the element at index floor(n / 2) splits it. */
  lemma SortedSplit(t: seq<int>, m: nat, lo: multiset<int>, hi: multiset<int>)
    requires Sorted(t) && m == |t| / 2 < |t|
    requires lo == multiset(t[..m]) && hi == multiset(t[m + 1..])
    ensures MedianSplit(t, t[m], lo, hi)
  {
    assert t == t[..m] + [t[m]] + t[m + 1..];
    forall x | x in lo ensures x <= t[m] {
      var j :| 0 <= j < m && t[..m][j] == x;
    }
    forall x | x in hi ensures t[m] <= x {
      var j :| 0 <= j < |t[m + 1..]| && t[m + 1..][j] == x;
      assert x == t[m + 1 + j];
    }
  }
}
