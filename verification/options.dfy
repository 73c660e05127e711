/** Detection of the strace options a trace was recorded with, from the
    shape of its first line (`_detect_trace_options` in strace_parser.py).

    strace prints, before the call name, the pid (-f with -o), then the
    timestamp column (-t, -tt, -ttt or -r), then the bracketed instruction
    pointer (-i); after the return value it prints the elapsed time in
    angle brackets (-T). -v is recognised by the absence of the abbreviated
    environment marker in the parameters of the first call, execve. */
module TraceOptions {
  import opened Wrappers
  import opened Text
  import opened Patterns

  /** The timestamp formats of -t, -tt, -ttt and -r. */
  datatype Timestamp = Clock | ClockMicros | Epoch | Relative

  datatype Options = Options(
    instPointer: bool,
    timestamp: Option<Timestamp>,
    elapsedTime: bool,
    verbose: bool,
    output: bool,
    fork: bool)

  /** Seconds since the epoch when the parser was written: a leading number
      above this is an absolute (-ttt) stamp, anything else is relative (-r). */
  const EpochSeconds := 1371488434

  /** The three groups of the first-line pattern: what precedes the call's
      bracket, the parameters, and what follows the return value. */
  datatype FirstLine = FirstLine(front: string, params: string, after: string)

  /** The first-line pattern `(.+)\((.+)\)[ ]+=[ ]+[-0-9]+(.*)` with its
      first group ending at the FIRST bracket, which is what the columns
      before the call name need (the corrected reading). */
  function MatchFirstLine(line: string): (r: Option<FirstLine>)
    ensures r.Some? ==> r.value.front != [] && r.value.params != []
    ensures r.Some? ==> forall k :: 0 <= k < |r.value.front| ==> r.value.front[k] != '('
  {
    var p := Find(line, "(");
    if p < 1 then None
    else
      BeforeFirst(line, p);
      match MatchReturn(line, p + 1, IsNumeral)
      case None => None
      case Some(m) => if m.body == [] then None else Some(FirstLine(line[..p], m.body, m.rest))
  }

  lemma {:induction false} BeforeFirst(line: string, p: nat)
    requires p == Find(line, "(")
    ensures forall k :: 0 <= k < p ==> line[k] != '('
  {
    forall k | 0 <= k < p
      ensures line[k] != '('
    {
      assert !OccursAt(line, "(", k);
      assert line[k..k + 1] == [line[k]];
    }
  }

  /** The same pattern as the regular expression engine runs it: the greedy
      `(.+)` makes the first group end at the LAST bracket that still leaves
      a non-empty parameter group before the return part. */
  function MatchFirstLineAsWritten(line: string): (r: Option<FirstLine>)
    ensures r.Some? ==> r.value.front != [] && r.value.params != []
  {
    match LastTail(line, IsNumeral, |line|)
    case None => None
    case Some(q) =>
      if q < 2 then None
      else
        var p := RFindUpTo(line, "(", q - 2);
        if p < 1 then None else SplitAtBracket(line, p)
  }

  /** The front before the bracket at `p` and the parameters after it. */
  function SplitAtBracket(line: string, p: nat): (r: Option<FirstLine>)
    requires 1 <= p < |line|
    ensures r.Some? ==> r.value.front != [] && r.value.params != []
  {
    match MatchReturn(line, p + 1, IsNumeral)
    case None => None
    case Some(m) => if m.body == [] then None else Some(FirstLine(line[..p], m.body, m.rest))
  }

  /** A column holding the instruction pointer, as `[b7739424]`. */
  predicate IsBracketed(col: string) {
    Contains(col, "[") && Contains(col, "]")
  }

  /** The whole seconds of an epoch or relative stamp: the integer before
      its first `.`. */
  function StampSeconds(col: string): Option<int> {
    ParseInt(Slice(col, 0, Find(col, ".")))
  }

  /** The timestamp format a column was printed in. */
  function TimestampOf(col: string): (r: Result<Timestamp>)
    ensures r.Err? ==> r.error == BadTimestamp && !Contains(col, ":")
    ensures r.Ok? && (r.value.Epoch? || r.value.Relative?) ==> Contains(col, ".")
    ensures r.Err? <==> !Contains(col, ":") && (!Contains(col, ".") || StampSeconds(col).None?)
    ensures (r.Ok? && (r.value.Clock? || r.value.ClockMicros?)) <==> Contains(col, ":")
  {
    if Contains(col, ":") then
      Ok(if Contains(col, ".") then ClockMicros else Clock)
    else if !Contains(col, ".") then
      Err(BadTimestamp)
    else
      match StampSeconds(col)
      case None => Err(BadTimestamp)
      case Some(seconds) => Ok(if seconds > EpochSeconds then Epoch else Relative)
  }

  /** The options shown by the columns between the pid and the call name:
      an instruction pointer alone, or a timestamp optionally followed by an
      instruction pointer. */
  function FrontOptions(cols: seq<string>): (r: Result<(bool, Option<Timestamp>)>)
    ensures r.Ok? ==> |cols| == (if r.value.0 then 1 else 0) + (if r.value.1.Some? then 1 else 0)
    ensures r.Ok? && r.value.0 ==> IsBracketed(cols[|cols| - 1])
  {
    if cols == [] then Ok((false, None))
    else if IsBracketed(cols[0]) then
      if |cols| == 1 then Ok((true, None)) else Err(LeftoverOptions)
    else
      match TimestampOf(cols[0])
      case Err(e) => Err(e)
      case Ok(ts) =>
        if |cols| == 1 then Ok((false, Some(ts)))
        else if !IsBracketed(cols[1]) then Err(BadInstPointer)
        else if |cols| == 2 then Ok((true, Some(ts)))
        else Err(LeftoverOptions)
  }

  /** The columns before the call's bracket: the pid, the option columns and
      the call name, which must be execve. Answers the options the middle
      columns show. */
  function ReadFront(words: seq<string>): (r: Result<(bool, Option<Timestamp>)>)
    ensures r.Ok? ==> 2 <= |words| <= 4 && IsDigits(words[0]) && words[|words| - 1] == "execve"
    ensures r.Ok? ==> |words| == 2 + (if r.value.0 then 1 else 0) + (if r.value.1.Some? then 1 else 0)
  {
    if |words| < 1 || |words| > 4 then Err(BadFrontPart)
    else if |words| == 1 then Err(PidOptionMissing)
    else if !IsDigits(words[0]) then Err(BadPid)
    else
      match FrontOptions(words[1..|words| - 1])
      case Err(e) => Err(e)
      case Ok(front) => if words[|words| - 1] != "execve" then Err(NotExecve) else Ok(front)
  }

  /** The abbreviated environment strace prints without -v. */
  predicate Abbreviated(params: string) {
    Contains(params, "[/*") && Contains(params, "*/]")
  }

  /** The options shown by the three groups of a first line. */
  function DetectSplit(f: FirstLine): (r: Result<Options>)
    ensures r.Ok? ==> r.value.verbose && r.value.output && r.value.fork && !Abbreviated(f.params)
    ensures r.Ok? ==> ReadFront(Words(f.front)).Ok?
  {
    match ReadFront(Words(f.front))
    case Err(e) => Err(e)
    case Ok(front) =>
      if Abbreviated(f.params) then Err(VerboseMissing)
      else Ok(Options(front.0, front.1, Contains(f.after, "<") && Contains(f.after, ">"), true, true, true))
  }

  /** The options of a trace whose first line is `line`, once the first-line
      pattern has split it as `split`. */
  function DetectWith(line: string, split: Option<FirstLine>): (r: Result<Options>)
    ensures r.Ok? ==> split.Some? && Find(line, "(") >= 0 && Find(line, ")") >= 0 && Find(line, "=") >= 0
  {
    if Find(line, "(") < 0 || Find(line, ")") < 0 || Find(line, "=") < 0 then Err(NoCallStructure)
    else
      match split
      case None => Err(BadFirstLine)
      case Some(f) => DetectSplit(f)
  }

  /** The options a trace was recorded with, from its first line (without
      its line terminator), split by the greedy first-line pattern. */
  function DetectTraceOptions(line: string): (r: Result<Options>)
    ensures r.Ok? ==> r.value.verbose && r.value.output && r.value.fork
  {
    DetectWith(line, MatchFirstLineAsWritten(line))
  }

  /** The corrected detection: the first group ends at the first bracket. */
  function DetectFirstBracket(line: string): (r: Result<Options>)
    ensures r.Ok? ==> r.value.verbose && r.value.output && r.value.fork
  {
    DetectWith(line, MatchFirstLine(line))
  }

  // ---------------------------------------------------------------------
  // What strace prints, and the round trip through the detection.

  /** A timestamp column's content: its format and the time it shows. */
  datatype Stamp = Stamp(kind: Timestamp, seconds: nat, micros: nat)

  /** The time of day -t prints, as hours, minutes and seconds. */
  function TimeOfDay(seconds: nat): string {
    NatToString(seconds / 3600 % 24) + ":" + NatToString(seconds / 60 % 60) + ":" + NatToString(seconds % 60)
  }

  function StampText(st: Stamp): string {
    match st.kind
    case Clock => TimeOfDay(st.seconds)
    case ClockMicros => TimeOfDay(st.seconds) + "." + NatToString(st.micros)
    case _ => NatToString(st.seconds) + "." + NatToString(st.micros)
  }

  /** An -ttt stamp counts seconds since the epoch and an -r stamp the time
      since the previous call, and the parser tells them apart by size. */
  predicate StampFits(st: Stamp) {
    && (st.kind.Epoch? ==> st.seconds > EpochSeconds)
    && (st.kind.Relative? ==> st.seconds <= EpochSeconds)
  }

  predicate IsHexOrUnknown(c: char) {
    IsDigit(c) || ('a' <= c <= 'f') || c == '?'
  }

  /** The instruction pointer as -i prints it, in hexadecimal or as `?`s. */
  predicate IsAddress(a: string) {
    forall i :: 0 <= i < |a| ==> IsHexOrUnknown(a[i])
  }

  function PointerText(a: string): string {
    "[" + a + "]"
  }

  /** The option columns between the pid and the call name. */
  function MiddleColumns(stamp: Option<Stamp>, ip: Option<string>): seq<string> {
    (if stamp.Some? then [StampText(stamp.value)] else []) + (if ip.Some? then [PointerText(ip.value)] else [])
  }

  /** The columns before the call's bracket. */
  function FrontColumns(pid: nat, stamp: Option<Stamp>, ip: Option<string>): seq<string> {
    [NatToString(pid)] + MiddleColumns(stamp, ip) + ["execve"]
  }

  /** A time as -T prints it after the return value. */
  datatype Duration = Duration(seconds: nat, micros: nat)

  function ElapsedText(d: Option<Duration>): string {
    if d.Some? then " <" + NatToString(d.value.seconds) + "." + NatToString(d.value.micros) + ">" else ""
  }

  /** The first line of a trace: the execve call, with the columns the
      options add. */
  function FirstLineText(pid: nat, stamp: Option<Stamp>, ip: Option<string>, params: string, ret: nat, elapsed: Option<Duration>): string {
    Join(FrontColumns(pid, stamp, ip), " ") + "(" + params + ReturnText(NatToString(ret)) + ElapsedText(elapsed)
  }

  /** The options whose columns `FirstLineText` prints. */
  function OptionsShown(stamp: Option<Stamp>, ip: Option<string>, elapsed: Option<Duration>): Options {
    Options(ip.Some?, if stamp.Some? then Some(stamp.value.kind) else None, elapsed.Some?, true, true, true)
  }

  /** Detection recovers every option from the line strace printed with it,
      when the parameters hold no bracket for the greedy group to stop at. */
  lemma {:induction false} DetectRendered(pid: nat, stamp: Option<Stamp>, ip: Option<string>, params: string, ret: nat, elapsed: Option<Duration>)
    requires stamp.Some? ==> StampFits(stamp.value)
    requires ip.Some? ==> IsAddress(ip.value)
    requires params != [] && '(' !in params && !Abbreviated(params)
    ensures DetectTraceOptions(FirstLineText(pid, stamp, ip, params, ret, elapsed)) == Ok(OptionsShown(stamp, ip, elapsed))
  {
    var line := FirstLineText(pid, stamp, ip, params, ret, elapsed);
    var f := FirstLine(Join(FrontColumns(pid, stamp, ip), " "), params, ElapsedText(elapsed));
    RenderedSplitGreedy(pid, stamp, ip, params, ret, elapsed);
    DetectWithOf(line, MatchFirstLineAsWritten(line), f);
    RenderedFront(pid, stamp, ip);
    ElapsedFacts(elapsed);
  }

  /** An abbreviated environment in the parameters means -v was not used. */
  lemma {:induction false} DetectAbbreviated(pid: nat, stamp: Option<Stamp>, ip: Option<string>, params: string, ret: nat, elapsed: Option<Duration>)
    requires stamp.Some? ==> StampFits(stamp.value)
    requires ip.Some? ==> IsAddress(ip.value)
    requires '(' !in params && Abbreviated(params)
    ensures DetectTraceOptions(FirstLineText(pid, stamp, ip, params, ret, elapsed)) == Err(VerboseMissing)
  {
    var line := FirstLineText(pid, stamp, ip, params, ret, elapsed);
    var f := FirstLine(Join(FrontColumns(pid, stamp, ip), " "), params, ElapsedText(elapsed));
    ContainsHead(params, "[/*");
    RenderedSplitGreedy(pid, stamp, ip, params, ret, elapsed);
    DetectWithOf(line, MatchFirstLineAsWritten(line), f);
    RenderedFront(pid, stamp, ip);
  }

  /** A first line whose only column before the bracket is the call name
      has no pid: -f was not used. */
  lemma {:induction false} DetectWithoutPid(name: string, params: string, ret: nat, after: string)
    requires IsWord(name) && forall k :: 0 <= k < |name| ==> name[k] != '('
    requires params != [] && '(' !in params
    requires (after == [] || !IsNumeral(after[0])) && '=' !in after
    ensures DetectTraceOptions(name + "(" + params + ReturnText(NatToString(ret)) + after) == Err(PidOptionMissing)
  {
    var line := name + "(" + params + ReturnText(NatToString(ret)) + after;
    MatchFirstLineAsWrittenOf(name, params, NatToString(ret), after);
    CallStructure(name, params, NatToString(ret), after);
    DetectWithOf(line, MatchFirstLineAsWritten(line), FirstLine(name, params, after));
    SingleWord(name);
  }

  /** The corrected detection recovers every option from any printed first
      line, whatever its parameters hold. */
  lemma {:induction false} DetectFirstBracketRendered(pid: nat, stamp: Option<Stamp>, ip: Option<string>, params: string, ret: nat, elapsed: Option<Duration>)
    requires stamp.Some? ==> StampFits(stamp.value)
    requires ip.Some? ==> IsAddress(ip.value)
    requires params != [] && !Abbreviated(params)
    ensures DetectFirstBracket(FirstLineText(pid, stamp, ip, params, ret, elapsed)) == Ok(OptionsShown(stamp, ip, elapsed))
  {
    var line := FirstLineText(pid, stamp, ip, params, ret, elapsed);
    var f := FirstLine(Join(FrontColumns(pid, stamp, ip), " "), params, ElapsedText(elapsed));
    RenderedSplit(pid, stamp, ip, params, ret, elapsed);
    DetectWithOf(line, MatchFirstLine(line), f);
    RenderedFront(pid, stamp, ip);
    ElapsedFacts(elapsed);
  }

  lemma {:induction false} SingleWord(name: string)
    requires IsWord(name)
    ensures ReadFront(Words(name)) == Err(PidOptionMissing)
  {
    WordsJoin([name]);
    assert Join([name], " ") == name;
  }

  /** Once a pattern has split a line, detection goes on from its three
      groups. */
  lemma {:induction false} DetectWithOf(line: string, split: Option<FirstLine>, f: FirstLine)
    requires Find(line, "(") >= 0 && Find(line, ")") >= 0 && Find(line, "=") >= 0
    requires split == Some(f)
    ensures DetectWith(line, split) == DetectSplit(f)
  {
  }

  /** The greedy pattern splits a printed first line at its call bracket
      when the parameters hold no bracket. */
  lemma {:induction false} RenderedSplitGreedy(pid: nat, stamp: Option<Stamp>, ip: Option<string>, params: string, ret: nat, elapsed: Option<Duration>)
    requires stamp.Some? ==> StampFits(stamp.value)
    requires ip.Some? ==> IsAddress(ip.value)
    requires params != [] && '(' !in params
    ensures var line := FirstLineText(pid, stamp, ip, params, ret, elapsed);
      && Find(line, "(") >= 0 && Find(line, ")") >= 0 && Find(line, "=") >= 0
      && MatchFirstLineAsWritten(line) == Some(FirstLine(Join(FrontColumns(pid, stamp, ip), " "), params, ElapsedText(elapsed)))
  {
    var front := Join(FrontColumns(pid, stamp, ip), " ");
    FrontLacksBracket(pid, stamp, ip);
    ElapsedFacts(elapsed);
    MatchFirstLineAsWrittenOf(front, params, NatToString(ret), ElapsedText(elapsed));
    CallStructure(front, params, NatToString(ret), ElapsedText(elapsed));
  }

  /** The corrected pattern splits a printed first line at its call bracket. */
  lemma {:induction false} RenderedSplit(pid: nat, stamp: Option<Stamp>, ip: Option<string>, params: string, ret: nat, elapsed: Option<Duration>)
    requires stamp.Some? ==> StampFits(stamp.value)
    requires ip.Some? ==> IsAddress(ip.value)
    requires params != []
    ensures var line := FirstLineText(pid, stamp, ip, params, ret, elapsed);
      && Find(line, "(") >= 0 && Find(line, ")") >= 0 && Find(line, "=") >= 0
      && MatchFirstLine(line) == Some(FirstLine(Join(FrontColumns(pid, stamp, ip), " "), params, ElapsedText(elapsed)))
  {
    var front := Join(FrontColumns(pid, stamp, ip), " ");
    FrontLacksBracket(pid, stamp, ip);
    ElapsedFacts(elapsed);
    MatchFirstLineOf(front, params, NatToString(ret), ElapsedText(elapsed));
    CallStructure(front, params, NatToString(ret), ElapsedText(elapsed));
  }

  /** The printed columns before the call are read back as the options that
      printed them. */
  lemma {:induction false} RenderedFront(pid: nat, stamp: Option<Stamp>, ip: Option<string>)
    requires stamp.Some? ==> StampFits(stamp.value)
    requires ip.Some? ==> IsAddress(ip.value)
    ensures ReadFront(Words(Join(FrontColumns(pid, stamp, ip), " "))) == Ok((ip.Some?, if stamp.Some? then Some(stamp.value.kind) else None))
  {
    var middle := MiddleColumns(stamp, ip);
    assert FrontColumns(pid, stamp, ip) == [NatToString(pid)] + middle + ["execve"];
    MiddleColumnsAreWords(stamp, ip);
    ReadFrontJoined(NatToString(pid), middle);
    FrontOptionsRendered(stamp, ip);
  }

  lemma {:induction false} MiddleColumnsAreWords(stamp: Option<Stamp>, ip: Option<string>)
    requires stamp.Some? ==> StampFits(stamp.value)
    requires ip.Some? ==> IsAddress(ip.value)
    ensures forall i :: 0 <= i < |MiddleColumns(stamp, ip)| ==> IsWord(MiddleColumns(stamp, ip)[i])
  {
    FrontColumnsAreWords(0, stamp, ip);
    assert MiddleColumns(stamp, ip) == FrontColumns(0, stamp, ip)[1..|FrontColumns(0, stamp, ip)| - 1];
  }

  /** The words of a front part are split into pid, option columns and name. */
  lemma {:induction false} ReadFrontJoined(pid: string, middle: seq<string>)
    requires IsDigits(pid) && |middle| <= 2
    requires forall i :: 0 <= i < |middle| ==> IsWord(middle[i])
    ensures ReadFront(Words(Join([pid] + middle + ["execve"], " "))) == FrontOptions(middle)
  {
    var w := [pid] + middle + ["execve"];
    FrontAllWords(pid, middle);
    WordsJoin(w);
    ReadFrontOf(pid, middle);
  }

  lemma {:induction false} FrontAllWords(pid: string, middle: seq<string>)
    requires IsDigits(pid)
    requires forall i :: 0 <= i < |middle| ==> IsWord(middle[i])
    ensures var w := [pid] + middle + ["execve"]; forall i :: 0 <= i < |w| ==> IsWord(w[i])
  {
    var w := [pid] + middle + ["execve"];
    forall i | 0 <= i < |w|
      ensures IsWord(w[i])
    {
      if i == 0 {
        assert forall k :: 0 <= k < |pid| ==> IsDigit(pid[k]);
      } else if i < |w| - 1 {
        assert w[i] == middle[i - 1];
      }
    }
  }

  lemma {:induction false} ReadFrontOf(pid: string, middle: seq<string>)
    requires IsDigits(pid) && |middle| <= 2
    ensures ReadFront([pid] + middle + ["execve"]) == FrontOptions(middle)
  {
    var w := [pid] + middle + ["execve"];
    assert w[1..|w| - 1] == middle;
  }

  // ---------------------------------------------------------------------
  // Finding: the greedy first group.

  /** The line `1 execve("(") = 0`: a first line whose parameters hold a
      bracket, as an exported shell function in the environment does. */
  function BracketInParams(): string {
    FirstLineText(1, None, None, "\"(\"", 0, None)
  }

  lemma {:induction false} BracketInParamsText()
    ensures BracketInParams() == "1 execve(\"(\") = 0"
  {
    assert Join(["1", "execve"], " ") == "1 execve";
  }

  /** As written, the first group runs up to the bracket inside the
      parameters, so the call name read from it is `execve("`. */
  lemma {:induction false} GreedyFrontMisreadsName()
    ensures DetectTraceOptions(BracketInParams()) == Err(NotExecve)
  {
    var line := BracketInParams();
    BracketInParamsText();
    GreedySplit(line);
    BracketInParamsStructure(line);
    MisreadWords("1", "execve(\"", "1 execve(\"");
    assert ReadFront(["1", "execve(\""]) == Err(NotExecve);
  }

  lemma {:induction false} BracketInParamsStructure(line: string)
    requires line == "1 execve(\"(\") = 0"
    ensures Find(line, "(") >= 0 && Find(line, ")") >= 0 && Find(line, "=") >= 0
  {
    assert OccursAt(line, "(", 8) && OccursAt(line, ")", 12) && OccursAt(line, "=", 14);
    FindContains(line, "(");
    FindContains(line, ")");
    FindContains(line, "=");
  }

  lemma {:induction false} MisreadWords(a: string, b: string, front: string)
    requires a == "1" && b == "execve(\"" && front == "1 execve(\""
    ensures Words(front) == [a, b]
  {
    MisreadPieces(a, b, front);
    TwoWords(a, b, front);
  }

  lemma {:induction false} MisreadPieces(a: string, b: string, front: string)
    requires a == "1" && b == "execve(\"" && front == "1 execve(\""
    ensures IsWord(a) && IsWord(b) && a + " " + b == front
  {
    PlainWord(a);
    PlainWord(b);
  }

  /** A word of ASCII letters, digits and punctuation holds no whitespace. */
  lemma {:induction false} PlainWord(w: string)
    requires w != [] && forall i :: 0 <= i < |w| ==> '!' <= w[i] <= '~'
    ensures IsWord(w)
  {
  }

  lemma {:induction false} TwoWords(a: string, b: string, s: string)
    requires IsWord(a) && IsWord(b) && s == a + " " + b
    ensures Words(s) == [a, b]
  {
    var ws := [a, b];
    assert ws[1..] == [b];
    WordsJoin(ws);
    JoinCons(a, [b], " ");
  }


  /** Where the greedy pattern splits the line `1 execve("(") = 0`. */
  lemma {:induction false} GreedySplit(line: string)
    requires line == "1 execve(\"(\") = 0"
    ensures MatchFirstLineAsWritten(line) == Some(FirstLine("1 execve(\"", "\"", ""))
  {
    GreedyReturn(line);
    assert OccursAt(line, "(", 10);
    assert line[..10] == "1 execve(\"";
    GreedySplitFrom(line, 12, 10, "1 execve(\"", Returned("\"", "0", ""));
  }

  lemma {:induction false} GreedyReturn(line: string)
    requires line == "1 execve(\"(\") = 0"
    ensures LastTail(line, IsNumeral, |line|) == Some(12)
    ensures MatchReturn(line, 11, IsNumeral) == Some(Returned("\"", "0", ""))
  {
    GreedyLastTail(line);
    GreedyMatchReturn(line);
  }

  lemma {:induction false} GreedyLastTail(line: string)
    requires line == "1 execve(\"(\") = 0"
    ensures LastTail(line, IsNumeral, |line|) == Some(12)
  {
    assert line[16..] == "0" + "";
    ReturnFacts(line, 12, "0", "", IsNumeral);
  }

  lemma {:induction false} GreedyMatchReturn(line: string)
    requires line == "1 execve(\"(\") = 0"
    ensures MatchReturn(line, 11, IsNumeral) == Some(Returned("\"", "0", ""))
  {
    var prefix := "1 execve(\"(";
    assert line == prefix + "\"" + ReturnText("0") + "";
    MatchReturnOf(prefix, "\"", "0", "", IsNumeral);
  }

  lemma {:induction false} GreedySplitFrom(line: string, q: nat, p: nat, front: string, m: Returned)
    requires LastTail(line, IsNumeral, |line|) == Some(q) && q >= 2
    requires 1 <= p <= q - 2 && RFindUpTo(line, "(", q - 2) == p && line[..p] == front
    requires MatchReturn(line, p + 1, IsNumeral) == Some(m) && m.body != []
    ensures MatchFirstLineAsWritten(line) == Some(FirstLine(front, m.body, m.rest))
  {
    AsWrittenAt(line, q, p);
    SplitAtBracketIs(line, p, front, m);
  }

  lemma {:induction false} AsWrittenAt(line: string, q: nat, p: nat)
    requires LastTail(line, IsNumeral, |line|) == Some(q) && q >= 2
    requires 1 <= p <= q - 2 && RFindUpTo(line, "(", q - 2) == p
    ensures MatchFirstLineAsWritten(line) == SplitAtBracket(line, p)
  {
  }

  lemma {:induction false} SplitAtBracketIs(line: string, p: nat, front: string, m: Returned)
    requires 1 <= p < |line| && line[..p] == front
    requires MatchReturn(line, p + 1, IsNumeral) == Some(m) && m.body != []
    ensures SplitAtBracket(line, p) == Some(FirstLine(front, m.body, m.rest))
  {
  }

  /** With the first group ending at the first bracket the same line is
      accepted and shows no optional column. */
  lemma {:induction false} FirstBracketReadsName()
    ensures DetectFirstBracket(BracketInParams()) == Ok(Options(false, None, false, true, true, true))
  {
    if Contains("\"(\"", "[/*") {
      ContainsHead("\"(\"", "[/*");
    }
    DetectFirstBracketRendered(1, None, None, "\"(\"", 0, None);
  }

  /** Whatever line it splits, the greedy first group leaves no bracket in
      the parameters, except possibly as their last character. */
  lemma {:induction false} GreedyParamsBracketFree(line: string)
    ensures var r := MatchFirstLineAsWritten(line);
      r.Some? ==> forall k :: 0 <= k < |r.value.params| - 1 ==> r.value.params[k] != '('
  {
    match LastTail(line, IsNumeral, |line|)
    case None =>
    case Some(q) =>
      if q >= 2 {
        var p := RFindUpTo(line, "(", q - 2);
        if p >= 1 {
          var m := MatchReturn(line, p + 1, IsNumeral);
          if m.Some? && m.value.body != [] {
            assert m.value.body == line[p + 1..q];
            forall k | 0 <= k < |m.value.body| - 1
              ensures m.value.body[k] != '('
            {
              assert m.value.body[k] == line[p + 1 + k];
              assert !OccursAt(line, "(", p + 1 + k);
            }
          }
        }
      }
  }

  // ---------------------------------------------------------------------
  // Helper facts.

  /** A character that is not a digit does not occur in a decimal numeral. */
  lemma {:induction false} NotInNumeral(n: nat, c: char)
    requires !IsDigit(c)
    ensures c !in NatToString(n)
  {
    var s := NatToString(n);
    assert forall k :: 0 <= k < |s| ==> IsDigit(s[k]);
  }

  /** For a one-character needle, `in` on strings is membership. */
  lemma {:induction false} ContainsChar(s: string, c: char)
    ensures Contains(s, [c]) <==> c in s
  {
    if c in s {
      var k :| 0 <= k < |s| && s[k] == c;
      assert OccursAt(s, [c], k);
    }
    if Contains(s, [c]) {
      var k :| 0 <= k <= |s| && OccursAt(s, [c], k);
      assert s[k] == c;
    }
  }

  /** A text that contains `sub` contains its first character. */
  lemma {:induction false} ContainsHead(s: string, sub: string)
    requires sub != [] && Contains(s, sub)
    ensures sub[0] in s
  {
    var k :| 0 <= k <= |s| && OccursAt(s, sub, k);
    assert s[k] == sub[0];
  }

  lemma {:induction false} StampChars(st: Stamp)
    ensures '[' !in StampText(st) && '(' !in StampText(st) && ' ' !in StampText(st)
    ensures ':' in StampText(st) <==> st.kind.Clock? || st.kind.ClockMicros?
    ensures '.' in StampText(st) <==> !st.kind.Clock?
    ensures StampText(st) != []
  {
    forall c: char | !IsDigit(c)
      ensures c !in NatToString(st.seconds) && c !in NatToString(st.micros)
      ensures c !in NatToString(st.seconds / 3600 % 24)
      ensures c !in NatToString(st.seconds / 60 % 60) && c !in NatToString(st.seconds % 60)
    {
      NotInNumeral(st.seconds, c);
      NotInNumeral(st.micros, c);
      NotInNumeral(st.seconds / 3600 % 24, c);
      NotInNumeral(st.seconds / 60 % 60, c);
      NotInNumeral(st.seconds % 60, c);
    }
  }

  /** The timestamp column is read back as the format it was printed in. */
  lemma {:induction false} TimestampOfStamp(st: Stamp)
    requires StampFits(st)
    ensures TimestampOf(StampText(st)) == Ok(st.kind)
  {
    var col := StampText(st);
    StampChars(st);
    ContainsChar(col, ':');
    if st.kind.Clock? || st.kind.ClockMicros? {
      ContainsChar(col, '.');
    } else {
      NumericStampRead(st.seconds, st.micros);
    }
  }

  /** A stamp printed as seconds and microseconds is read by the seconds. */
  lemma {:induction false} NumericStampRead(seconds: nat, micros: nat)
    ensures var col := NatToString(seconds) + "." + NatToString(micros);
      && Contains(col, ".")
      && Slice(col, 0, Find(col, ".")) == NatToString(seconds)
      && ParseInt(NatToString(seconds)) == Some(seconds)
  {
    var digits := NatToString(seconds);
    var col := digits + "." + NatToString(micros);
    NotInNumeral(seconds, '.');
    assert OccursAt(col, ".", |digits|);
    forall j | 0 <= j < |digits|
      ensures !OccursAt(col, ".", j)
    {
      assert col[j] == digits[j];
    }
    FindFirst(col, ".", |digits|);
    assert Slice(col, 0, |digits|) == digits;
    ParseIntToString(seconds);
  }

  lemma {:induction false} PointerChars(a: string)
    requires IsAddress(a)
    ensures IsBracketed(PointerText(a))
    ensures '(' !in PointerText(a) && ' ' !in PointerText(a)
  {
    var t := PointerText(a);
    ContainsChar(t, '[');
    ContainsChar(t, ']');
    assert t[0] == '[';
    assert t[|t| - 1] == ']';
    assert forall k :: 0 <= k < |a| ==> IsHexOrUnknown(a[k]);
  }

  /** The columns between the pid and the call name are read back as the
      options that printed them. */
  lemma {:induction false} FrontOptionsRendered(stamp: Option<Stamp>, ip: Option<string>)
    requires stamp.Some? ==> StampFits(stamp.value)
    requires ip.Some? ==> IsAddress(ip.value)
    ensures FrontOptions(MiddleColumns(stamp, ip)) == Ok((ip.Some?, if stamp.Some? then Some(stamp.value.kind) else None))
  {
    if ip.Some? {
      PointerChars(ip.value);
    }
    if stamp.Some? {
      var col := StampText(stamp.value);
      StampChars(stamp.value);
      ContainsChar(col, '[');
      TimestampOfStamp(stamp.value);
      assert !IsBracketed(col);
    }
  }

  /** A word has no whitespace in it. */
  lemma {:induction false} WordWithout(w: string)
    requires w != [] && ' ' !in w && forall c :: c in w ==> !IsSpace(c)
    ensures IsWord(w)
  {
    forall i | 0 <= i < |w|
      ensures !IsSpace(w[i])
    {
      assert w[i] in w;
    }
  }

  lemma {:induction false} FrontColumnsAreWords(pid: nat, stamp: Option<Stamp>, ip: Option<string>)
    requires stamp.Some? ==> StampFits(stamp.value)
    requires ip.Some? ==> IsAddress(ip.value)
    ensures forall i :: 0 <= i < |FrontColumns(pid, stamp, ip)| ==> IsWord(FrontColumns(pid, stamp, ip)[i])
    ensures forall i :: 0 <= i < |FrontColumns(pid, stamp, ip)| ==> '(' !in FrontColumns(pid, stamp, ip)[i]
    ensures IsDigits(FrontColumns(pid, stamp, ip)[0])
    ensures var cols := FrontColumns(pid, stamp, ip); cols[|cols| - 1] == "execve"
  {
    var cols := FrontColumns(pid, stamp, ip);
    forall i | 0 <= i < |cols|
      ensures IsWord(cols[i]) && '(' !in cols[i]
    {
      var w := cols[i];
      forall c | c in w
        ensures !IsSpace(c) && c != '('
      {
        if w == NatToString(pid) {
          if !IsDigit(c) {
            NotInNumeral(pid, c);
          }
        } else if stamp.Some? && w == StampText(stamp.value) {
          StampChars(stamp.value);
          var k :| 0 <= k < |w| && w[k] == c;
          StampCharIs(stamp.value, k);
        } else if ip.Some? && w == PointerText(ip.value) {
          var k :| 0 <= k < |w| && w[k] == c;
          if 0 < k < |w| - 1 {
            assert w[k] == ip.value[k - 1];
          }
        }
      }
      if stamp.Some? {
        StampChars(stamp.value);
      }
      WordWithout(w);
    }
  }

  /** Every character of a timestamp column is a digit, `:` or `.`. */
  lemma {:induction false} StampCharIs(st: Stamp, k: nat)
    requires k < |StampText(st)|
    ensures var c := StampText(st)[k]; IsDigit(c) || c == ':' || c == '.'
  {
    var c := StampText(st)[k];
    if !IsDigit(c) && c != ':' && c != '.' {
      assert c in StampText(st);
      NotInNumeral(st.seconds, c);
      NotInNumeral(st.micros, c);
      NotInNumeral(st.seconds / 3600 % 24, c);
      NotInNumeral(st.seconds / 60 % 60, c);
      NotInNumeral(st.seconds % 60, c);
    }
  }

  /** A character in none of the parts is not in their join. */
  lemma {:induction false} JoinLacks(ws: seq<string>, c: char)
    requires forall i :: 0 <= i < |ws| ==> c !in ws[i]
    requires c != ' '
    ensures c !in Join(ws, " ")
    decreases |ws|
  {
    if |ws| > 1 {
      JoinLacks(ws[1..], c);
    }
  }

  lemma {:induction false} FrontLacksBracket(pid: nat, stamp: Option<Stamp>, ip: Option<string>)
    requires stamp.Some? ==> StampFits(stamp.value)
    requires ip.Some? ==> IsAddress(ip.value)
    ensures var front := Join(FrontColumns(pid, stamp, ip), " ");
      front != [] && forall k :: 0 <= k < |front| ==> front[k] != '('
  {
    var cols := FrontColumns(pid, stamp, ip);
    FrontColumnsAreWords(pid, stamp, ip);
    JoinLacks(cols, '(');
    var front := Join(cols, " ");
    forall k | 0 <= k < |front|
      ensures front[k] != '('
    {
      assert front[k] in front;
    }
    WordsJoin(cols);
  }

  lemma {:induction false} ElapsedFacts(elapsed: Option<Duration>)
    ensures var after := ElapsedText(elapsed);
      && (after == [] || !IsNumeral(after[0]))
      && '=' !in after
      && (Contains(after, "<") && Contains(after, ">") <==> elapsed.Some?)
  {
    var after := ElapsedText(elapsed);
    if elapsed.Some? {
      NotInNumeral(elapsed.value.seconds, '=');
      NotInNumeral(elapsed.value.micros, '=');
      assert after[1] == '<' && after[|after| - 1] == '>';
    }
    ContainsChar(after, '<');
    ContainsChar(after, '>');
  }

  /** A line with a bracket, a closing bracket and an equals sign passes the
      first structural check. */
  lemma {:induction false} CallStructure(front: string, params: string, ret: string, after: string)
    ensures var line := front + "(" + params + ReturnText(ret) + after;
      Find(line, "(") >= 0 && Find(line, ")") >= 0 && Find(line, "=") >= 0
  {
    var line := front + "(" + params + ReturnText(ret) + after;
    var q := |front| + 1 + |params|;
    assert OccursAt(line, "(", |front|);
    assert OccursAt(line, ")", q);
    assert OccursAt(line, "=", q + 2);
    FindContains(line, "(");
    FindContains(line, ")");
    FindContains(line, "=");
  }

  /** The corrected pattern splits a printed first line into its three parts. */
  lemma {:induction false} MatchFirstLineOf(front: string, params: string, ret: string, after: string)
    requires front != [] && forall k :: 0 <= k < |front| ==> front[k] != '('
    requires params != []
    requires ret != [] && forall k :: 0 <= k < |ret| ==> IsNumeral(ret[k])
    requires after == [] || !IsNumeral(after[0])
    requires '=' !in after
    ensures MatchFirstLine(front + "(" + params + ReturnText(ret) + after) == Some(FirstLine(front, params, after))
  {
    var line := front + "(" + params + ReturnText(ret) + after;
    var prefix := front + "(";
    assert line == prefix + params + ReturnText(ret) + after;
    assert line[..|front|] == front && line[|front|] == '(';
    FindFirstBracket(line, front);
    MatchReturnOf(prefix, params, ret, after, IsNumeral);
    FirstLineFrom(line, front, Returned(params, ret, after));
  }

  /** The greedy pattern splits a line at its call bracket when the
      parameters hold no other bracket. */
  lemma {:induction false} MatchFirstLineAsWrittenOf(front: string, params: string, ret: string, after: string)
    requires front != [] && forall k :: 0 <= k < |front| ==> front[k] != '('
    requires params != [] && '(' !in params
    requires ret != [] && forall k :: 0 <= k < |ret| ==> IsNumeral(ret[k])
    requires after == [] || !IsNumeral(after[0])
    requires '=' !in after
    ensures MatchFirstLineAsWritten(front + "(" + params + ReturnText(ret) + after) == Some(FirstLine(front, params, after))
  {
    MatchFirstLineOf(front, params, ret, after);
    GreedyAgrees(front + "(" + params + ReturnText(ret) + after);
  }

  /** The two readings of the first-line pattern agree on every line whose
      parameters, read up to the first bracket, hold no other bracket. */
  lemma {:induction false} GreedyAgrees(line: string)
    ensures var c := MatchFirstLine(line);
      c.Some? && '(' !in c.value.params ==> MatchFirstLineAsWritten(line) == c
  {
    var c := MatchFirstLine(line);
    if c.Some? && '(' !in c.value.params {
      var p := Find(line, "(");
      var m := MatchReturn(line, p + 1, IsNumeral).value;
      var q := LastTail(line, IsNumeral, |line|).value;
      assert m.body == line[p + 1..q] == c.value.params;
      LastBracketBefore(line, p, m.body);
      AsWrittenAt(line, q, p);
    }
  }

  /** And they agree on every line whose greedy front holds no bracket. */
  lemma {:induction false} FirstBracketAgrees(line: string)
    ensures var g := MatchFirstLineAsWritten(line);
      g.Some? && '(' !in g.value.front ==> MatchFirstLine(line) == g
  {
    var g := MatchFirstLineAsWritten(line);
    if g.Some? && '(' !in g.value.front {
      var q := LastTail(line, IsNumeral, |line|).value;
      var p := RFindUpTo(line, "(", q - 2);
      AsWrittenAt(line, q, p);
      assert g.value.front == line[..p];
      assert line[p] == line[p..p + 1][0];
      FindFirstBracket(line, g.value.front);
    }
  }

  /** The bracket in front of bracket-free parameters is the last one before
      their end. */
  lemma {:induction false} LastBracketBefore(line: string, p: nat, params: string)
    requires |params| >= 1 && p + 1 + |params| <= |line| && line[p] == '('
    requires line[p + 1..p + 1 + |params|] == params && '(' !in params
    ensures RFindUpTo(line, "(", p + |params| - 1) == p
  {
    assert OccursAt(line, "(", p);
    forall j | p < j <= p + |params| - 1
      ensures !OccursAt(line, "(", j)
    {
      assert line[j] == params[j - p - 1];
    }
  }

  lemma {:induction false} FirstLineFrom(line: string, front: string, m: Returned)
    requires 1 <= |front| < |line| && Find(line, "(") == |front| && line[..|front|] == front
    requires MatchReturn(line, |front| + 1, IsNumeral) == Some(m) && m.body != []
    ensures MatchFirstLine(line) == Some(FirstLine(front, m.body, m.rest))
  {
  }

}
