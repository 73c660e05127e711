/** `parse_trace` of strace_parser.py: the line parser folded over the lines
    of a trace, with the table of pending unfinished calls threaded from one
    line to the next. Reading the file is left to the caller: the trace is
    the sequence of its lines. */
module TraceParser {
  import opened Wrappers
  import opened Text
  import opened LineParser
  import TraceOptions

  /** The parts of every line that produced a call, in order, and the
      pending table after the last line. */
  datatype Parsed = Parsed(calls: seq<LineParts>, pending: seq<Pending>)

  /** What one line adds to the list of calls. */
  function Produced(parts: Option<LineParts>): (r: seq<LineParts>)
    ensures |r| <= 1
  {
    match parts
    case None => []
    case Some(p) => [p]
  }

  /** How many of `calls` have the given type. */
  function Count(calls: seq<LineParts>, t: CallType): (n: nat)
    ensures n <= |calls|
  {
    if calls == [] then 0
    else (if calls[0].callType == t then 1 else 0) + Count(calls[1..], t)
  }

  /** What one line does: the call it produced, if any, and the pending
      table after it. */
  type Step = (string, seq<Pending>) -> Result<(Option<LineParts>, seq<Pending>)>

  /** The line parser under fixed options, as a step of the fold. */
  function LineStep(opts: TraceOptions.Options): Step {
    (line, pending) => ParseLine(opts, line, pending)
  }

  /** What `ParseLine` promises about one line: a produced call has a numeric
      pid, an unfinished call adds one pending entry, a resumed call removes
      one, and anything else leaves the table alone. */
  predicate Balanced(step: Step, line: string, pending: seq<Pending>) {
    match step(line, pending)
    case Err(_) => true
    case Ok(out) =>
      match out.0
      case None => out.1 == pending
      case Some(parts) =>
        && IsDigits(parts.pid)
        && (parts.callType == Unfinished ==> |out.1| == |pending| + 1)
        && (parts.callType == Resumed ==> |out.1| + 1 == |pending|)
        && (parts.callType == Completed ==> out.1 == pending)
  }

  /** Every line is stripped, blank lines are skipped, and the first
      exception ends the parse. */
  function Fold(step: Step, lines: seq<string>, pending: seq<Pending>): (r: Result<Parsed>)
    ensures r.Ok? ==> |r.value.calls| <= |lines|
    decreases |lines|
  {
    if lines == [] then Ok(Parsed([], pending))
    else
      var line := Strip(lines[0]);
      if line == [] then Fold(step, lines[1..], pending)
      else
        var first :- step(line, pending);
        var more :- Fold(step, lines[1..], first.1);
        Ok(Parsed(Produced(first.0) + more.calls, more.pending))
  }

  /** `parse_trace` over the lines of a trace, starting with nothing pending.
      The pending table's size always balances the unfinished calls against
      the resumed ones. */
  function ParseTrace(opts: TraceOptions.Options, lines: seq<string>): (r: Result<Parsed>)
    ensures r.Ok? ==> |r.value.calls| <= |lines|
    ensures r.Ok? ==> forall i :: 0 <= i < |r.value.calls| ==> IsDigits(r.value.calls[i].pid)
    ensures r.Ok? ==> |r.value.pending| + Count(r.value.calls, Resumed) == Count(r.value.calls, Unfinished)
  {
    LineStepBalanced(opts);
    FoldBalanced(LineStep(opts), lines, []);
    Fold(LineStep(opts), lines, [])
  }

  lemma {:induction false} LineStepBalanced(opts: TraceOptions.Options)
    ensures forall line, pending :: Balanced(LineStep(opts), line, pending)
  {
    forall line, pending
      ensures Balanced(LineStep(opts), line, pending)
    {
      var r := ParseLine(opts, line, pending);
      assert LineStep(opts)(line, pending) == r;
    }
  }

  lemma {:induction false} CountAppend(a: seq<LineParts>, b: seq<LineParts>, t: CallType)
    ensures Count(a + b, t) == Count(a, t) + Count(b, t)
  {
    if a != [] {
      assert (a + b)[1..] == a[1..] + b;
      CountAppend(a[1..], b, t);
    } else {
      assert a + b == b;
    }
  }

  /** The pending table's size balances the two counts after any run of a
      step that keeps the balance line by line. */
  lemma {:induction false} FoldBalanced(step: Step, lines: seq<string>, pending: seq<Pending>)
    requires forall line, q :: Balanced(step, line, q)
    ensures var r := Fold(step, lines, pending);
      r.Ok? ==>
        && (forall i :: 0 <= i < |r.value.calls| ==> IsDigits(r.value.calls[i].pid))
        && |r.value.pending| + Count(r.value.calls, Resumed) == |pending| + Count(r.value.calls, Unfinished)
    decreases |lines|
  {
    if lines != [] {
      var line := Strip(lines[0]);
      if line == [] {
        FoldBalanced(step, lines[1..], pending);
      } else {
        match step(line, pending)
        case Err(_) =>
        case Ok(first) =>
          LineBalanced(step, line, pending, first);
          FoldBalanced(step, lines[1..], first.1);
          match Fold(step, lines[1..], first.1)
          case Err(_) =>
          case Ok(more) =>
            CombineBalanced(Produced(first.0), more.calls, |pending|, |first.1|, |more.pending|);
      }
    }
  }

  /** One balanced line in terms of the counts. */
  lemma {:induction false} LineBalanced(step: Step, line: string, pending: seq<Pending>, first: (Option<LineParts>, seq<Pending>))
    requires Balanced(step, line, pending) && step(line, pending) == Ok(first)
    ensures forall i :: 0 <= i < |Produced(first.0)| ==> IsDigits(Produced(first.0)[i].pid)
    ensures |first.1| + Count(Produced(first.0), Resumed) == |pending| + Count(Produced(first.0), Unfinished)
  {
    if first.0.Some? {
      var p := first.0.value;
      assert Produced(first.0) == [p];
      assert [p][1..] == [];
    }
  }

  /** The balance of one line followed by the balance of the rest. */
  lemma {:induction false} CombineBalanced(head: seq<LineParts>, tail: seq<LineParts>, before: nat, middle: nat, after: nat)
    requires forall i :: 0 <= i < |head| ==> IsDigits(head[i].pid)
    requires forall i :: 0 <= i < |tail| ==> IsDigits(tail[i].pid)
    requires middle + Count(head, Resumed) == before + Count(head, Unfinished)
    requires after + Count(tail, Resumed) == middle + Count(tail, Unfinished)
    ensures forall i :: 0 <= i < |head + tail| ==> IsDigits((head + tail)[i].pid)
    ensures after + Count(head + tail, Resumed) == before + Count(head + tail, Unfinished)
  {
    CountAppend(head, tail, Resumed);
    CountAppend(head, tail, Unfinished);
    forall i | 0 <= i < |head + tail|
      ensures IsDigits((head + tail)[i].pid)
    {
      if i >= |head| {
        assert (head + tail)[i] == tail[i - |head|];
      }
    }
  }

  /** The rest of a trace parsed after a first part has been. */
  function Then(step: Step, first: Result<Parsed>, rest: seq<string>): Result<Parsed> {
    match first
    case Err(e) => Err(e)
    case Ok(a) =>
      match Fold(step, rest, a.pending)
      case Err(e) => Err(e)
      case Ok(b) => Ok(Parsed(a.calls + b.calls, b.pending))
  }

  /** Parsing two pieces of a trace one after the other is parsing their
      concatenation: the fold carries nothing but the pending table. */
  lemma {:induction false} FoldAppend(step: Step, a: seq<string>, b: seq<string>, pending: seq<Pending>)
    ensures Fold(step, a + b, pending) == Then(step, Fold(step, a, pending), b)
    decreases |a|
  {
    if a == [] {
      assert a + b == b;
      match Fold(step, b, pending)
      case Err(e) =>
      case Ok(r) =>
        assert [] + r.calls == r.calls;
    } else {
      var ab := a + b;
      assert ab[0] == a[0];
      assert ab[1..] == a[1..] + b;
      if Strip(a[0]) == [] {
        FoldAppend(step, a[1..], b, pending);
      } else {
        FoldStep(step, ab, pending);
        FoldStep(step, a, pending);
        match step(Strip(a[0]), pending)
        case Err(e) =>
        case Ok(first) =>
          FoldAppend(step, a[1..], b, first.1);
          ThenPrepend(step, Produced(first.0), Fold(step, a[1..], first.1), b);
      }
    }
  }

  /** The fold over lines whose first line is not blank. */
  lemma {:induction false} FoldStep(step: Step, lines: seq<string>, pending: seq<Pending>)
    requires lines != [] && Strip(lines[0]) != []
    ensures Fold(step, lines, pending)
      == match step(Strip(lines[0]), pending)
         case Err(e) => Err(e)
         case Ok(first) =>
           match Fold(step, lines[1..], first.1)
           case Err(e) => Err(e)
           case Ok(more) => Ok(Parsed(Produced(first.0) + more.calls, more.pending))
  {
  }

  /** Calls produced before a first part carry through the rest. */
  lemma {:induction false} ThenPrepend(step: Step, head: seq<LineParts>, first: Result<Parsed>, rest: seq<string>)
    ensures Then(step, if first.Ok? then Ok(Parsed(head + first.value.calls, first.value.pending)) else Err(first.error), rest)
         == (var r := Then(step, first, rest); if r.Ok? then Ok(Parsed(head + r.value.calls, r.value.pending)) else Err(r.error))
  {
    match first
    case Err(_) =>
    case Ok(m) =>
      match Fold(step, rest, m.pending)
      case Err(_) =>
      case Ok(n) =>
        assert head + (m.calls + n.calls) == (head + m.calls) + n.calls;
  }

  /** A blank line anywhere in a trace changes nothing. */
  lemma {:induction false} BlankLineIgnored(step: Step, a: seq<string>, blank: string, b: seq<string>, pending: seq<Pending>)
    requires Strip(blank) == []
    ensures Fold(step, a + [blank] + b, pending) == Fold(step, a + b, pending)
  {
    calc {
      Fold(step, a + [blank] + b, pending);
      { assert a + [blank] + b == a + ([blank] + b); }
      Fold(step, a + ([blank] + b), pending);
      { FoldAppend(step, a, [blank] + b, pending); }
      Then(step, Fold(step, a, pending), [blank] + b);
      { ThenBlank(step, Fold(step, a, pending), blank, b); }
      Then(step, Fold(step, a, pending), b);
      { FoldAppend(step, a, b, pending); }
      Fold(step, a + b, pending);
    }
  }

  lemma {:induction false} ThenBlank(step: Step, first: Result<Parsed>, blank: string, b: seq<string>)
    requires Strip(blank) == []
    ensures Then(step, first, [blank] + b) == Then(step, first, b)
  {
    if first.Ok? {
      FoldBlank(step, blank, b, first.value.pending);
    }
  }

  /** A blank first line is skipped. */
  lemma {:induction false} FoldBlank(step: Step, blank: string, b: seq<string>, pending: seq<Pending>)
    requires Strip(blank) == []
    ensures Fold(step, [blank] + b, pending) == Fold(step, b, pending)
  {
    var lines := [blank] + b;
    assert lines[0] == blank;
    assert lines[1..] == b;
  }

  /** A one-line trace is one step on the stripped line. */
  lemma {:induction false} SingleLine(step: Step, line: string, pending: seq<Pending>)
    requires Strip(line) != []
    ensures Fold(step, [line], pending)
      == match step(Strip(line), pending)
         case Err(e) => Err(e)
         case Ok(first) => Ok(Parsed(Produced(first.0), first.1))
  {
    assert [line][1..] == [];
    match step(Strip(line), pending)
    case Err(e) =>
    case Ok(first) =>
      assert Produced(first.0) + [] == Produced(first.0);
  }
}
