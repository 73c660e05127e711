/** `_parse_line` of strace_parser.py: one trace line split into its parts,
    with the table of pending unfinished calls threaded through.

    A line is a pid, the optional timestamp and instruction-pointer columns,
    then one of three call shapes: an unfinished call (`name(args <unfinished
    ...>`), the resumption of one (`<... name resumed> args) = ret`) or a
    completed call (`name(args) = ret`). Every exception the source raises
    becomes an `Err`. */
module LineParser {
  import opened Wrappers
  import opened Text
  import opened Patterns
  import opened QuoteMerge
  import TraceOptions

  datatype CallType = Unfinished | Resumed | Completed

  /** The first item of the return pair: digit strings and `-1` are cast to
      integers, `?` and hexadecimal values stay text. */
  datatype ReturnValue = Number(n: int) | Verbatim(text: string)

  /** The `line_parts` dictionary. `ret` is the pair (value, error label);
      `elapsed` is the text between the last `<` and the last `>`. */
  datatype LineParts = LineParts(
    callType: CallType,
    pid: string,
    timestamp: Option<string>,
    instPointer: Option<string>,
    name: string,
    args: seq<string>,
    ret: Option<(ReturnValue, Option<string>)>,
    elapsed: Option<string>)

  /** An `UnfinishedSyscall`, saved until its call is resumed. */
  datatype Pending = Pending(pid: string, name: string, args: seq<string>)

  /** `UnfinishedSyscall.__eq__`: the pid and the name decide, the saved
      arguments do not. */
  predicate SameCall(a: Pending, b: Pending) {
    a.pid == b.pid && a.name == b.name
  }

  /** `UnfinishedSyscall.__ne__` */
  predicate DifferentCall(a: Pending, b: Pending) {
    !SameCall(a, b)
  }

  /** What `strip("[]")` removes from the instruction pointer. */
  const Brackets: set<char> := {'[', ']'}

  /** The columns in front of the call. */
  datatype Head = Head(pid: string, timestamp: Option<string>, instPointer: Option<string>)

  // ---------------------------------------------------------------------
  // `_parse_args`

  /** What `_parse_args` splits: the blob without surrounding whitespace and
      without trailing commas (an unfinished call can end in one). */
  function ArgsText(blob: string): string {
    RStripChars(Strip(blob), {','})
  }

  /** `_parse_args`: nothing for a blank blob, otherwise the `", "` split
      with quoted strings joined back together. */
  function ParseArgs(blob: string): (r: seq<string>)
    ensures r == [] <==> ArgsText(blob) == []
    ensures Join(r, Sep) == ArgsText(blob)
    ensures |r| <= |SplitOn(ArgsText(blob), Sep)|
    ensures Settled(r)
  {
    var s := ArgsText(blob);
    if s == [] then []
    else
      JoinSplitOn(s, Sep);
      MergeQuoteArgs(SplitOn(s, Sep))
  }

  /** An argument list strace could have printed: no argument contains the
      separator, quoted strings are closed, and the printed list has no
      whitespace at either end and no trailing comma. */
  predicate Printable(args: seq<string>) {
    args != [] ==>
      && Settled(args)
      && (forall i :: 0 <= i < |args| ==> !Contains(args[i], Sep))
      && args[0] != [] && !IsSpace(args[0][0])
      && var last := args[|args| - 1];
         last != [] && !IsSpace(last[|last| - 1]) && last[|last| - 1] != ','
  }

  /** Arguments printed with `", "` between them are read back unchanged. */
  lemma {:induction false} ParseArgsPrinted(args: seq<string>)
    requires Printable(args)
    ensures ParseArgs(Join(args, Sep)) == args
  {
    if args != [] {
      var s := Join(args, Sep);
      JoinEnds(args);
      StripUnspaced(s);
      RStripKeeps(s, {','});
      SplitOnJoin(args);
      if |args| > 1 {
        MergeFromFixpoint(args);
      }
    }
  }

  /** The first and last characters of a joined list come from its first and
      last parts. */
  lemma {:induction false} JoinEnds(args: seq<string>)
    requires args != [] && args[0] != [] && args[|args| - 1] != []
    ensures var s := Join(args, Sep); var last := args[|args| - 1];
      s != [] && s[0] == args[0][0] && s[|s| - 1] == last[|last| - 1]
  {
    if |args| > 1 {
      var init := args[..|args| - 1];
      var last := args[|args| - 1];
      assert args == init + [last];
      JoinAppend(init, [last], Sep);
      JoinCons(args[0], args[1..], Sep);
      assert args == [args[0]] + args[1..];
    }
  }

  lemma {:induction false} RStripKeeps(s: string, chars: set<char>)
    requires s != [] && s[|s| - 1] !in chars
    ensures RStripChars(s, chars) == s
  {
  }

  /** Splitting on `", "` undoes joining with it when no part contains the
      separator: a part ending in `,` cannot form a separator with the `, `
      after it, since the separator's second character is a space. */
  lemma {:induction false} SplitOnJoin(args: seq<string>)
    requires args != []
    requires forall i :: 0 <= i < |args| ==> !Contains(args[i], Sep)
    ensures SplitOn(Join(args, Sep), Sep) == args
    decreases |args|
  {
    if |args| > 1 {
      var a := args[0];
      var rest := Join(args[1..], Sep);
      var s := a + Sep + rest;
      JoinCons(a, args[1..], Sep);
      assert args == [a] + args[1..];
      assert Join(args, Sep) == s;
      assert OccursAt(s, Sep, |a|);
      forall k | 0 <= k < |a|
        ensures !OccursAt(s, Sep, k)
      {
        NoSepInside(a, rest, k);
      }
      FindFirst(s, Sep, |a|);
      assert s[..|a|] == a;
      assert s[|a| + 2..] == rest;
      SplitOnJoin(args[1..]);
    } else {
      FindContains(args[0], Sep);
    }
  }

  /** No separator starts inside a separator-free first part: one starting
      at its last character would need a space where the separator's comma is. */
  lemma {:induction false} NoSepInside(a: string, rest: string, k: nat)
    requires !Contains(a, Sep) && k < |a|
    ensures !OccursAt(a + Sep + rest, Sep, k)
  {
    var s := a + Sep + rest;
    if k + 2 <= |a| {
      assert a[k..k + 2] == s[k..k + 2];
      assert !OccursAt(a, Sep, k);
    } else {
      assert s[k + 1] == ',';
    }
  }

  // ---------------------------------------------------------------------
  // The three call patterns

  const UnfinishedMark: string := "<unfinished "
  const ResumedMark: string := " resumed> "

  /** `([^(]+)\((.*)\<unfinished .*`: the call name (everything before the
      first bracket, at least one character) and the argument text, which
      runs up to the last `<unfinished `. */
  function MatchUnfinished(s: string): (r: Option<(string, string)>)
    ensures r.Some? ==> var name := r.value.0; var text := r.value.1;
      && name != [] && |name| + 1 + |text| <= |s|
      && s[..|name|] == name && s[|name|] == '(' && s[|name| + 1..|name| + 1 + |text|] == text
      && (forall k :: 0 <= k < |name| ==> name[k] != '(')
      && OccursAt(s, UnfinishedMark, |name| + 1 + |text|)
  {
    var p := Find(s, "(");
    var u := RFind(s, UnfinishedMark);
    if p < 1 || u < p + 1 then None
    else
      NoBracketBefore(s, p);
      Some((s[..p], s[p + 1..u]))
  }

  /** Before the first bracket there is no bracket. */
  lemma {:induction false} NoBracketBefore(s: string, p: nat)
    requires p <= |s| && forall k :: 0 <= k <= |s| && k < p ==> !OccursAt(s, "(", k)
    ensures forall k :: 0 <= k < p ==> s[k] != '('
  {
    forall k | 0 <= k < p
      ensures s[k] != '('
    {
      assert !OccursAt(s, "(", k);
    }
  }

  /** `\<\.\.\. ([^ ]+) resumed\> (.*)\)[ ]+=[ ]+([a-fx\d\-?]+)(.*)`: the
      call name and the return part after the new arguments. */
  function MatchResumed(s: string): (r: Option<(string, Returned)>)
    ensures r.Some? ==> var name := r.value.0;
      && name != [] && StartsWith(s, "<... ") && 5 + |name| + 10 <= |s|
      && s[5..5 + |name|] == name && OccursAt(s, ResumedMark, 5 + |name|)
      && (forall k :: 0 <= k < |name| ==> name[k] != ' ')
  {
    if !StartsWith(s, "<... ") then None
    else
      var n := Run(s, 5, NotBlank);
      if n == 0 || !OccursAt(s, ResumedMark, 5 + n) then None
      else
        match MatchReturn(s, 5 + n + 10, IsReturnChar)
        case None => None
        case Some(m) => Some((s[5..5 + n], m))
  }

  /** `([^(]+)\((.*)\)[ ]+=[ ]+([a-fx\d\-?]+)(.*)`: the call name and the
      return part after the arguments. */
  function MatchCompleted(s: string): (r: Option<(string, Returned)>)
    ensures r.Some? ==> var name := r.value.0;
      && name != [] && |name| < |s| && s[..|name|] == name && s[|name|] == '('
      && (forall k :: 0 <= k < |name| ==> name[k] != '(')
  {
    var p := Find(s, "(");
    if p < 1 then None
    else
      NoBracketBefore(s, p);
      match MatchReturn(s, p + 1, IsReturnChar)
      case None => None
      case Some(m) => Some((s[..p], m))
  }

  // ---------------------------------------------------------------------
  // The return part

  predicate IsUpperLetter(c: char) {
    'A' <= c <= 'Z'
  }

  predicate IsLowerLetter(c: char) {
    'a' <= c <= 'z'
  }

  /** `str.isupper` on ASCII text: some upper-case letter and no lower-case one. */
  predicate IsUpper(t: string) {
    && (exists i :: 0 <= i < |t| && IsUpperLetter(t[i]))
    && (forall i :: 0 <= i < |t| ==> !IsLowerLetter(t[i]))
  }

  /** What an error label must look like: `E…` in capitals. */
  predicate IsErrorLabel(t: string) {
    StartsWith(t, "E") && IsUpper(t)
  }

  /** The four accepted shapes of the return token. */
  predicate IsReturnToken(value: string) {
    IsDigits(value) || value == "-1" || value == "?" || StartsWith(value, "0x")
  }

  /** The error label at the front of `text`, and what follows it. */
  function ReadLabel(text: string): (r: Result<(string, string)>)
    ensures r.Ok? ==> IsErrorLabel(r.value.0) && IsWord(r.value.0)
    ensures r.Ok? ==> r.value.1 != [] && !IsSpace(r.value.1[0])
    ensures r == Err(MissingField) <==> |Words(text)| < 2
  {
    match SplitOnce(text)
    case None => Err(MissingField)
    case Some(split) => if IsErrorLabel(split.0) then Ok(split) else Err(BadErrorLabel)
  }

  /** Validation of the return token: the value, the error label if any, and
      the text left for the elapsed time. */
  function ReadReturn(value: string, rest: string): (r: Result<(ReturnValue, Option<string>, string)>)
    ensures !IsReturnToken(value) ==> r == Err(BadReturn)
    ensures r.Ok? ==> IsReturnToken(value)
    ensures r.Ok? ==> (r.value.0.Number? <==> IsDigits(value) || value == "-1")
    ensures r.Ok? && r.value.0.Number? ==> ParseInt(value) == Some(r.value.0.n)
    ensures r.Ok? && r.value.0.Verbatim? ==> r.value.0.text == value
    ensures r.Ok? && r.value.1.Some? ==> IsErrorLabel(r.value.1.value) && (value == "-1" || value == "?")
    ensures r.Ok? && value == "-1" ==> r.value.1.Some?
  {
    if !IsReturnToken(value) then Err(BadReturn)
    else if value == "-1" then
      MinusOne();
      var found :- ReadLabel(rest);
      Ok((Number(-1), Some(found.0), found.1))
    else if IsDigits(value) then
      Ok((Number(DecimalValue(value)), None, rest))
    else if value == "?" then ReadUnreturned(rest)
    else Ok((Verbatim(value), None, rest))
  }

  /** The `?` of a call that did not return, with the error label that
      may follow it. */
  function ReadUnreturned(rest: string): (r: Result<(ReturnValue, Option<string>, string)>)
    ensures r.Ok? ==> r.value.0 == Verbatim("?")
    ensures r.Ok? && r.value.1.Some? ==> IsErrorLabel(r.value.1.value)
  {
    var t := Strip(rest);
    if StartsWith(t, "E") then
      var found :- ReadLabel(t);
      Ok((Verbatim("?"), Some(found.0), found.1))
    else Ok((Verbatim("?"), None, t))
  }

  lemma {:induction false} MinusOne()
    ensures ParseInt("-1") == Some(-1)
  {
    ParseIntToString(-1);
    assert IntToString(-1) == "-1";
  }

  /** A failed call printed with its label and description. */
  lemma {:induction false} ReadReturnError(tag: string, description: string)
    requires IsErrorLabel(tag) && IsWord(tag)
    requires description != [] && !IsSpace(description[0])
    ensures ReadReturn("-1", " " + tag + " " + description) == Ok((Number(-1), Some(tag), description))
  {
    ReadLabelPrinted(tag, description);
  }

  lemma {:induction false} ReadLabelPrinted(tag: string, description: string)
    requires IsErrorLabel(tag) && IsWord(tag)
    requires description != [] && !IsSpace(description[0])
    ensures ReadLabel(" " + tag + " " + description) == Ok((tag, description))
  {
    var printed := tag + " " + description;
    assert " " + tag + " " + description == [' '] + printed;
    SplitOnceOf(tag, description);
    assert printed[0] == tag[0];
    SplitOnceSpace(printed);
  }

  /** A leading space does not change `split(None, 1)`. */
  lemma {:induction false} SplitOnceSpace(s: string)
    requires s != [] && !IsSpace(s[0])
    ensures SplitOnce([' '] + s) == SplitOnce(s)
  {
    LStripSpaced(s);
    assert LStripWhere(s, IsSpace) == s;
  }

  /** A successful call printed with a decimal return value. */
  lemma {:induction false} ReadReturnNumber(n: nat, rest: string)
    ensures ReadReturn(NatToString(n), rest) == Ok((Number(n), None, rest))
  {
    var v := NatToString(n);
    NatToStringValue(n);
    assert v[0] != '-';
    assert v != "-1" && v != "?" && IsDigits(v);
  }

  /** `float(remaining_line[rfind("<") + 1 : rfind(">")])` without the float. */
  function ElapsedSlice(text: string): string {
    Slice(text, RFind(text, "<") + 1, RFind(text, ">"))
  }

  /** The slice is exactly what a closing `<…>` encloses. */
  lemma {:induction false} ElapsedSliceOf(before: string, t: string)
    requires '<' !in t && '>' !in t
    ensures ElapsedSlice(before + "<" + t + ">") == t
  {
    var s := before + "<" + t + ">";
    var i := |before|;
    assert OccursAt(s, "<", i);
    forall j | i < j <= |s|
      ensures !OccursAt(s, "<", j)
    {
      if j < |s| - 1 {
        assert s[j] == t[j - i - 1];
      }
      if j < |s| && s[j] != '<' {
        assert s[j..j + 1] != "<" by {
          assert s[j..j + 1][0] == s[j];
        }
      }
    }
    RFindLast(s, "<", i);
    assert OccursAt(s, ">", |s| - 1);
    RFindLast(s, ">", |s| - 1);
    assert s[i + 1..|s| - 1] == t;
  }

  // ---------------------------------------------------------------------
  // `_fix_args`

  const ShutdownFlags: seq<string> := ["SHUT_RD", "SHUT_WR", "SHUT_RDWR"]

  /** `{0: 'SHUT_RD', 1: 'SHUT_WR', 2: 'SHUT_RDWR'}[int(c)]`; None where
      `int` or the lookup raises. */
  function ShutdownFlag(c: char): (r: Option<string>)
    ensures r.Some? <==> '0' <= c <= '2'
    ensures r.Some? ==> r.value in ShutdownFlags
  {
    if '0' <= c <= '2' then Some(ShutdownFlags[c as int - '0' as int]) else None
  }

  /** The digit `shutdown` takes for a flag: the inverse of `ShutdownFlag`. */
  function ShutdownHow(flag: string): (r: Option<char>)
  {
    if flag == "SHUT_RD" then Some('0')
    else if flag == "SHUT_WR" then Some('1')
    else if flag == "SHUT_RDWR" then Some('2')
    else None
  }

  lemma {:induction false} ShutdownFlagInverse(c: char)
    ensures ShutdownFlag(c).Some? ==> ShutdownHow(ShutdownFlag(c).value) == Some(c)
  {
  }

  lemma {:induction false} ShutdownHowInverse(flag: string)
    ensures ShutdownHow(flag).Some? ==> ShutdownFlag(ShutdownHow(flag).value) == Some(flag)
  {
  }

  /** `_fix_args`: a `shutdown…` call's second argument becomes the flag its
      first character names; a `restart_syscall…` call loses its arguments;
      every other call keeps them. */
  function FixArgs(name: string, args: seq<string>): (r: Result<seq<string>>)
    ensures !StartsWith(name, "shutdown") && !StartsWith(name, "restart_syscall") ==> r == Ok(args)
    ensures StartsWith(name, "restart_syscall") ==> r == Ok([])
    ensures StartsWith(name, "shutdown") ==>
      (r.Ok? <==> |args| >= 2 && args[1] != [] && '0' <= args[1][0] <= '2')
    ensures StartsWith(name, "shutdown") && r.Ok? ==>
      && |r.value| == |args|
      && (forall i :: 0 <= i < |args| && i != 1 ==> r.value[i] == args[i])
      && ShutdownHow(r.value[1]) == Some(args[1][0])
  {
    ExclusivePrefixes(name);
    var fixed :- if StartsWith(name, "shutdown") then FixShutdown(args) else Ok(args);
    if StartsWith(name, "restart_syscall") then Ok([])
    else Ok(fixed)
  }

  lemma {:induction false} ExclusivePrefixes(name: string)
    ensures !(StartsWith(name, "restart_syscall") && StartsWith(name, "shutdown"))
  {
    if |name| > 0 {
      assert StartsWith(name, "restart_syscall") ==> name[0] == 'r';
      assert StartsWith(name, "shutdown") ==> name[0] == 's';
    }
  }

  function FixShutdown(args: seq<string>): (r: Result<seq<string>>) {
    if |args| < 2 || args[1] == [] then Err(BadShutdownArg)
    else
      match ShutdownFlag(args[1][0])
      case None => Err(BadShutdownArg)
      case Some(flag) => Ok(args[1 := flag])
  }

  /** The leading digit strace prints for `how` is replaced by its flag. */
  lemma {:induction false} ShutdownPrinted(fd: string, how: nat, note: string)
    requires how < 3
    ensures FixArgs("shutdown", [fd, [DigitChar(how)] + note]) == Ok([fd, ShutdownFlags[how]])
  {
    var args := [fd, [DigitChar(how)] + note];
    assert args[1][0] == DigitChar(how);
    assert ShutdownFlag(DigitChar(how)) == Some(ShutdownFlags[how]);
    assert args[1 := ShutdownFlags[how]] == [fd, ShutdownFlags[how]];
    assert StartsWith("shutdown", "shutdown");
  }

  // ---------------------------------------------------------------------
  // The pending table

  /** Index of the first pending call `SameCall` as (pid, name). */
  function FirstPending(pending: seq<Pending>, pid: string, name: string): (r: Option<nat>)
    ensures r.Some? ==> r.value < |pending| && SameCall(pending[r.value], Pending(pid, name, []))
    ensures forall j :: 0 <= j < |pending| && (r.None? || j < r.value) ==> DifferentCall(pending[j], Pending(pid, name, []))
  {
    if pending == [] then None
    else if SameCall(pending[0], Pending(pid, name, [])) then Some(0)
    else
      match FirstPending(pending[1..], pid, name)
      case None => None
      case Some(i) => Some(i + 1)
  }

  /** `list.pop(i)` */
  function Remove(pending: seq<Pending>, i: nat): (r: seq<Pending>)
    requires i < |pending|
    ensures |r| + 1 == |pending|
    ensures forall j :: 0 <= j < i ==> r[j] == pending[j]
    ensures forall j :: i <= j < |r| ==> r[j] == pending[j + 1]
  {
    pending[..i] + pending[i + 1..]
  }

  // ---------------------------------------------------------------------
  // `_parse_line`

  /** Lines whose text after the pid starts with `+++` or `---` report
      signals and exits, and produce nothing. */
  predicate IsSignalLine(afterPid: string) {
    StartsWith(afterPid, "+++") || StartsWith(afterPid, "---")
  }

  /** One whitespace-delimited column when the option that prints it is set. */
  function OptionalColumn(text: string, present: bool): (r: Result<(Option<string>, string)>)
    ensures r.Ok? ==> (r.value.0.Some? <==> present)
    ensures !present ==> r == Ok((None, text))
  {
    if !present then Ok((None, text))
    else
      match SplitOnce(text)
      case None => Err(MissingField)
      case Some(split) => Ok((Some(split.0), split.1))
  }

  /** The pid and the option columns; None for a signal line. */
  function ReadHead(opts: TraceOptions.Options, line: string): (r: Result<Option<(Head, string)>>)
    ensures r.Ok? && r.value.Some? ==> IsDigits(r.value.value.0.pid)
    ensures r.Ok? && r.value.Some? ==> (r.value.value.0.timestamp.Some? <==> opts.timestamp.Some?)
    ensures r.Ok? && r.value.Some? ==> (r.value.value.0.instPointer.Some? <==> opts.instPointer)
  {
    match SplitOnce(line)
    case None => Err(MissingField)
    case Some(first) =>
      var pid := first.0;
      if !IsDigits(pid) then Err(BadPid)
      else if IsSignalLine(first.1) then Ok(None)
      else
        var stamp :- OptionalColumn(first.1, opts.timestamp.Some?);
        var pointer :- OptionalColumn(stamp.1, opts.instPointer);
        var ip := match pointer.0 case None => None case Some(p) => Some(StripChars(p, Brackets));
        Ok(Some((Head(pid, stamp.0, ip), pointer.1)))
  }

  /** The return part of a completed or resumed call, then `_fix_args`. */
  function Finish(opts: TraceOptions.Options, head: Head, callType: CallType, name: string, args: seq<string>,
                  m: Returned): (r: Result<LineParts>)
    ensures r.Ok? ==> r.value.callType == callType && r.value.name == name && r.value.ret.Some?
    ensures r.Ok? ==> r.value.pid == head.pid && r.value.timestamp == head.timestamp
                      && r.value.instPointer == head.instPointer
    ensures r.Ok? ==> FixArgs(name, args) == Ok(r.value.args)
    ensures r.Ok? ==> var ret := r.value.ret.value;
      (r.value.elapsed.Some? <==> opts.elapsedTime && ret != (Verbatim("?"), None))
  {
    var ret :- ReadReturn(m.value, m.rest);
    var elapsed := if opts.elapsedTime && (ret.0, ret.1) != (Verbatim("?"), None) then Some(ElapsedSlice(ret.2)) else None;
    var fixed :- FixArgs(name, args);
    Ok(LineParts(callType, head.pid, head.timestamp, head.instPointer, name, fixed, Some((ret.0, ret.1)), elapsed))
  }

  /** The call part of a line, classified as unfinished, resumed or completed. */
  function ParseCall(opts: TraceOptions.Options, head: Head, rem: string, pending: seq<Pending>)
    : (r: Result<(LineParts, seq<Pending>)>)
    ensures r.Ok? ==> r.value.0.pid == head.pid
    ensures r.Ok? && Contains(rem, "<unfinished ...") ==>
      && r.value.0.callType == Unfinished && r.value.0.ret.None? && r.value.0.elapsed.None?
      && r.value.1 == pending + [Pending(head.pid, r.value.0.name, r.value.0.args)]
    ensures r.Ok? && !Contains(rem, "<unfinished ...") && Contains(rem, " resumed>") ==>
      && r.value.0.callType == Resumed
      && var i := FirstPending(pending, head.pid, r.value.0.name);
         i.Some? && r.value.1 == Remove(pending, i.value)
    ensures r.Ok? && !Contains(rem, "<unfinished ...") && !Contains(rem, " resumed>") ==>
      r.value.0.callType == Completed && r.value.1 == pending
  {
    if Contains(rem, "<unfinished ...") then
      match MatchUnfinished(rem)
      case None => Err(BadUnfinishedLine)
      case Some(call) =>
        var args := ParseArgs(call.1);
        Ok((LineParts(Unfinished, head.pid, head.timestamp, head.instPointer, call.0, args, None, None),
            pending + [Pending(head.pid, call.0, args)]))
    else if Contains(rem, " resumed>") then
      match MatchResumed(rem)
      case None => Err(BadResumedLine)
      case Some(call) =>
        match FirstPending(pending, head.pid, call.0)
        case None => Err(DanglingResume)
        case Some(i) =>
          var parts :- Finish(opts, head, Resumed, call.0, pending[i].args + ParseArgs(call.1.body), call.1);
          Ok((parts, Remove(pending, i)))
    else
      match MatchCompleted(rem)
      case None => Err(BadCompletedLine)
      case Some(call) =>
        var parts :- Finish(opts, head, Completed, call.0, ParseArgs(call.1.body), call.1);
        Ok((parts, pending))
  }

  /** `_parse_line`: the parts of one line (None for a signal line) and the
      pending table after it. */
  function ParseLine(opts: TraceOptions.Options, line: string, pending: seq<Pending>)
    : (r: Result<(Option<LineParts>, seq<Pending>)>)
    ensures r.Ok? && r.value.0.None? ==> r.value.1 == pending
    ensures r.Ok? && r.value.0.Some? ==> var parts := r.value.0.value;
      && IsDigits(parts.pid)
      && (parts.callType == Unfinished ==> r.value.1 == pending + [Pending(parts.pid, parts.name, parts.args)])
      && (parts.callType == Resumed ==> |r.value.1| + 1 == |pending|)
      && (parts.callType == Completed ==> r.value.1 == pending)
  {
    var head :- ReadHead(opts, line);
    match head
    case None => Ok((None, pending))
    case Some(h) =>
      var call :- ParseCall(opts, h.0, h.1, pending);
      Ok((Some(call.0), call.1))
  }

  // ---------------------------------------------------------------------
  // Printed lines are read back

  const UnfinishedTail: string := "<unfinished ..."

  /** An unfinished call as strace prints it: the name up to the first
      bracket, the arguments so far, then `<unfinished ...` and a tail
      without `<` (such as `>` or ` exit status 0>`). */
  function UnfinishedText(name: string, text: string, more: string): string {
    name + "(" + text + UnfinishedTail + more
  }

  lemma {:induction false} MatchUnfinishedOf(name: string, text: string, more: string)
    requires name != [] && forall k :: 0 <= k < |name| ==> name[k] != '('
    requires '<' !in more
    ensures MatchUnfinished(UnfinishedText(name, text, more)) == Some((name, text))
  {
    var s := UnfinishedText(name, text, more);
    var u := |name| + 1 + |text|;
    assert s[..|name|] == name && s[|name|] == '(';
    FindFirstBracket(s, name);
    assert s[u..u + 15] == UnfinishedTail;
    assert s[u + 15..] == more;
    UnfinishedTailLast(s, u, more);
    RFindLast(s, UnfinishedMark, u);
    assert s[|name| + 1..u] == text;
  }

  /** The mark inside the tail is the last one: no `<` follows it. */
  lemma {:induction false} UnfinishedTailLast(s: string, u: nat, more: string)
    requires u + 15 <= |s| && s[u..u + 15] == UnfinishedTail && s[u + 15..] == more && '<' !in more
    ensures OccursAt(s, UnfinishedMark, u)
    ensures forall j :: u < j <= |s| ==> !OccursAt(s, UnfinishedMark, j)
  {
    assert s[u..u + 12] == s[u..u + 15][..12];
    forall j | u < j <= |s|
      ensures !OccursAt(s, UnfinishedMark, j)
    {
      if j < u + 15 {
        assert s[j] == UnfinishedTail[j - u];
      } else if j < |s| {
        assert s[j] == more[j - u - 15];
      }
      if j < |s| {
        assert s[j] != '<';
        if j + 12 <= |s| {
          assert s[j..j + 12][0] == s[j];
        }
      }
    }
  }

  /** An unfinished line only adds its call to the pending table. */
  lemma {:induction false} UnfinishedPrinted(opts: TraceOptions.Options, head: Head, name: string, text: string, more: string,
                          pending: seq<Pending>)
    requires name != [] && forall k :: 0 <= k < |name| ==> name[k] != '('
    requires '<' !in more
    ensures var args := ParseArgs(text);
      ParseCall(opts, head, UnfinishedText(name, text, more), pending)
      == Ok((LineParts(Unfinished, head.pid, head.timestamp, head.instPointer, name, args, None, None),
             pending + [Pending(head.pid, name, args)]))
  {
    var s := UnfinishedText(name, text, more);
    MatchUnfinishedOf(name, text, more);
    var u := |name| + 1 + |text|;
    assert s[u..u + 15] == UnfinishedTail;
    assert OccursAt(s, UnfinishedTail, u);
  }

  /** The return part strace prints for a resumed or completed call. */
  predicate PrintedReturn(value: string, rest: string) {
    && value != [] && (forall k :: 0 <= k < |value| ==> IsReturnChar(value[k]))
    && (rest == [] || !IsReturnChar(rest[0]))
    && '=' !in rest
  }

  /** A resumed call as strace prints it. */
  function ResumedText(name: string, text: string, value: string, rest: string): string {
    "<... " + name + ResumedMark + text + ReturnText(value) + rest
  }

  /** The head of a resumed line: its mark, its name and the resumed mark. */
  lemma {:induction false} ResumedHead(s: string, name: string)
    requires name != [] && forall k :: 0 <= k < |name| ==> name[k] != ' '
    requires 5 + |name| + 10 <= |s|
    requires s[..5] == "<... " && s[5..5 + |name|] == name && s[5 + |name|..5 + |name| + 10] == ResumedMark
    ensures MatchResumed(s) == (match MatchReturn(s, 5 + |name| + 10, IsReturnChar)
                                case None => None
                                case Some(m) => Some((name, m)))
  {
    assert StartsWith(s, "<... ");
    assert OccursAt(s, ResumedMark, 5 + |name|);
    assert s[5 + |name|] == ResumedMark[0];
    forall k | 5 <= k < 5 + |name|
      ensures NotBlank(s[k])
    {
      assert s[k] == name[k - 5];
    }
    RunOf(s, 5, NotBlank, |name|);
  }

  lemma {:induction false} MatchResumedOf(name: string, text: string, value: string, rest: string)
    requires name != [] && forall k :: 0 <= k < |name| ==> name[k] != ' '
    requires PrintedReturn(value, rest)
    ensures MatchResumed(ResumedText(name, text, value, rest)) == Some((name, Returned(text, value, rest)))
  {
    var lead := "<... ";
    var prefix := lead + name + ResumedMark;
    var s := prefix + text + ReturnText(value) + rest;
    FrontPieces(lead, name, ResumedMark, text, ReturnText(value), rest);
    ResumedHead(s, name);
    MatchReturnOf(prefix, text, value, rest, IsReturnChar);
  }

  /** A resumed line takes the first pending call with its pid and name out
      of the table; its arguments are the saved ones followed by the new ones. */
  lemma {:induction false} ResumedPrinted(opts: TraceOptions.Options, head: Head, name: string, text: string, value: string,
                       rest: string, pending: seq<Pending>, i: nat)
    requires name != [] && forall k :: 0 <= k < |name| ==> name[k] != ' '
    requires PrintedReturn(value, rest)
    requires !Contains(ResumedText(name, text, value, rest), UnfinishedTail)
    requires i < |pending| && SameCall(pending[i], Pending(head.pid, name, []))
    requires forall j :: 0 <= j < i ==> DifferentCall(pending[j], Pending(head.pid, name, []))
    ensures var finished := Finish(opts, head, Resumed, name, pending[i].args + ParseArgs(text), Returned(text, value, rest));
      ParseCall(opts, head, ResumedText(name, text, value, rest), pending)
      == if finished.Ok? then Ok((finished.value, Remove(pending, i))) else Err(finished.error)
  {
    MatchResumedOf(name, text, value, rest);
    ResumedMarked(name, text, value, rest);
    FirstPendingIs(pending, head.pid, name, i);
    ParseCallResumed(opts, head, ResumedText(name, text, value, rest), pending, name, Returned(text, value, rest));
  }

  lemma {:induction false} ResumedMarked(name: string, text: string, value: string, rest: string)
    ensures Contains(ResumedText(name, text, value, rest), " resumed>")
  {
    var s := ResumedText(name, text, value, rest);
    assert s[5 + |name|..5 + |name| + 9] == " resumed>";
    assert OccursAt(s, " resumed>", 5 + |name|);
  }

  /** The resumed branch of `ParseCall` once the pattern has matched. */
  lemma {:induction false} ParseCallResumed(opts: TraceOptions.Options, head: Head, rem: string, pending: seq<Pending>, name: string,
                         m: Returned)
    requires !Contains(rem, UnfinishedTail) && Contains(rem, " resumed>")
    requires MatchResumed(rem) == Some((name, m))
    ensures ParseCall(opts, head, rem, pending)
      == match FirstPending(pending, head.pid, name)
         case None => Err(DanglingResume)
         case Some(i) =>
           var finished := Finish(opts, head, Resumed, name, pending[i].args + ParseArgs(m.body), m);
           if finished.Ok? then Ok((finished.value, Remove(pending, i))) else Err(finished.error)
  {
  }

  lemma {:induction false} FirstPendingIs(pending: seq<Pending>, pid: string, name: string, i: nat)
    requires i < |pending| && SameCall(pending[i], Pending(pid, name, []))
    requires forall j :: 0 <= j < i ==> DifferentCall(pending[j], Pending(pid, name, []))
    ensures FirstPending(pending, pid, name) == Some(i)
  {
  }

  /** A resumed line with nothing pending for its pid and name raises. */
  lemma {:induction false} DanglingResumeFails(opts: TraceOptions.Options, head: Head, name: string, text: string, value: string,
                            rest: string, pending: seq<Pending>)
    requires name != [] && forall k :: 0 <= k < |name| ==> name[k] != ' '
    requires PrintedReturn(value, rest)
    requires !Contains(ResumedText(name, text, value, rest), UnfinishedTail)
    requires forall j :: 0 <= j < |pending| ==> DifferentCall(pending[j], Pending(head.pid, name, []))
    ensures ParseCall(opts, head, ResumedText(name, text, value, rest), pending) == Err(DanglingResume)
  {
    MatchResumedOf(name, text, value, rest);
    ResumedMarked(name, text, value, rest);
    ParseCallResumed(opts, head, ResumedText(name, text, value, rest), pending, name, Returned(text, value, rest));
  }

  /** An unfinished line followed by its resumed line: the pending table
      returns to what it was, and the call's arguments are the ones printed
      before the interruption followed by the ones printed after it. */
  lemma {:induction false} UnfinishedThenResumed(opts: TraceOptions.Options, head: Head, name: string, before: string, more: string,
                              after: string, value: string, rest: string, pending: seq<Pending>)
    requires name != [] && forall k :: 0 <= k < |name| ==> name[k] != '(' && name[k] != ' '
    requires '<' !in more
    requires PrintedReturn(value, rest)
    requires !Contains(ResumedText(name, after, value, rest), UnfinishedTail)
    requires forall j :: 0 <= j < |pending| ==> DifferentCall(pending[j], Pending(head.pid, name, []))
    ensures var first := ParseCall(opts, head, UnfinishedText(name, before, more), pending);
      && first.Ok?
      && var second := ParseCall(opts, head, ResumedText(name, after, value, rest), first.value.1);
         var finished := Finish(opts, head, Resumed, name, ParseArgs(before) + ParseArgs(after),
                                Returned(after, value, rest));
         second == if finished.Ok? then Ok((finished.value, pending)) else Err(finished.error)
  {
    UnfinishedPrinted(opts, head, name, before, more, pending);
    var saved := Pending(head.pid, name, ParseArgs(before));
    var table := pending + [saved];
    assert table[|pending|] == saved;
    ResumedPrinted(opts, head, name, after, value, rest, table, |pending|);
    assert Remove(table, |pending|) == pending;
  }

  /** A completed call as strace prints it. */
  function CompletedText(name: string, text: string, value: string, rest: string): string {
    name + "(" + text + ReturnText(value) + rest
  }

  lemma {:induction false} MatchCompletedOf(name: string, text: string, value: string, rest: string)
    requires name != [] && forall k :: 0 <= k < |name| ==> name[k] != '('
    requires PrintedReturn(value, rest)
    ensures MatchCompleted(CompletedText(name, text, value, rest)) == Some((name, Returned(text, value, rest)))
  {
    var prefix := name + "(";
    var s := prefix + text + ReturnText(value) + rest;
    assert s == CompletedText(name, text, value, rest);
    assert s[..|name|] == name && s[|name|] == '(';
    FindFirstBracket(s, name);
    MatchReturnOf(prefix, text, value, rest, IsReturnChar);
    MatchCompletedFrom(s, name, Returned(text, value, rest));
  }

  lemma {:induction false} MatchCompletedFrom(s: string, name: string, m: Returned)
    requires 1 <= |name| < |s| && Find(s, "(") == |name| && s[..|name|] == name
    requires MatchReturn(s, |name| + 1, IsReturnChar) == Some(m)
    ensures MatchCompleted(s) == Some((name, m))
  {
  }

  /** A completed line, one with neither the unfinished nor the resumed
      marker, leaves the pending table alone. */
  lemma {:induction false} CompletedPrinted(opts: TraceOptions.Options, head: Head, name: string, text: string, value: string,
                         rest: string, pending: seq<Pending>)
    requires name != [] && forall k :: 0 <= k < |name| ==> name[k] != '('
    requires PrintedReturn(value, rest)
    requires var s := CompletedText(name, text, value, rest);
      !Contains(s, UnfinishedTail) && !Contains(s, " resumed>")
    ensures var finished := Finish(opts, head, Completed, name, ParseArgs(text), Returned(text, value, rest));
      ParseCall(opts, head, CompletedText(name, text, value, rest), pending)
      == if finished.Ok? then Ok((finished.value, pending)) else Err(finished.error)
  {
    MatchCompletedOf(name, text, value, rest);
  }

  /** A successful call printed with its arguments and a decimal return
      value is read back as exactly those parts. */
  lemma {:induction false} CompletedRoundTrip(opts: TraceOptions.Options, head: Head, name: string, args: seq<string>, n: nat,
                           rest: string, pending: seq<Pending>)
    requires name != [] && forall k :: 0 <= k < |name| ==> name[k] != '('
    requires FixArgs(name, args) == Ok(args) && Printable(args)
    requires PrintedReturn(NatToString(n), rest)
    requires var s := CompletedText(name, Join(args, Sep), NatToString(n), rest);
      !Contains(s, UnfinishedTail) && !Contains(s, " resumed>")
    ensures ParseCall(opts, head, CompletedText(name, Join(args, Sep), NatToString(n), rest), pending)
      == Ok((LineParts(Completed, head.pid, head.timestamp, head.instPointer, name, args, Some((Number(n), None)),
                       if opts.elapsedTime then Some(ElapsedSlice(rest)) else None),
             pending))
  {
    NumberIsReturnText(n);
    CompletedPrinted(opts, head, name, Join(args, Sep), NatToString(n), rest, pending);
    ParseArgsPrinted(args);
    FinishNumber(opts, head, Completed, name, args, Join(args, Sep), n, rest);
  }

  /** The return part of a call that returned `n`. */
  lemma {:induction false} FinishNumber(opts: TraceOptions.Options, head: Head, callType: CallType, name: string, args: seq<string>,
                     text: string, n: nat, rest: string)
    requires FixArgs(name, args) == Ok(args)
    ensures Finish(opts, head, callType, name, args, Returned(text, NatToString(n), rest))
      == Ok(LineParts(callType, head.pid, head.timestamp, head.instPointer, name, args, Some((Number(n), None)),
                      if opts.elapsedTime then Some(ElapsedSlice(rest)) else None))
  {
    ReadReturnNumber(n, rest);
  }

  /** The digits of a number are return characters. */
  lemma {:induction false} NumberIsReturnText(n: nat)
    ensures var v := NatToString(n); v != [] && forall k :: 0 <= k < |v| ==> IsReturnChar(v[k])
  {
  }

  /** A column printed in front of `rest` when its option is set. */
  function Column(c: Option<string>, rest: string): string {
    match c
    case None => rest
    case Some(x) => x + " " + rest
  }

  /** The instruction pointer as strace prints it, in brackets. */
  function Bracketed(ip: Option<string>): Option<string> {
    match ip
    case None => None
    case Some(p) => Some("[" + p + "]")
  }

  /** The columns in front of the call as strace prints them. */
  function HeadText(h: Head, rem: string): string {
    h.pid + " " + Column(h.timestamp, Column(Bracketed(h.instPointer), rem))
  }

  /** A column the options ask for, printed as one word. */
  predicate PrintableColumn(c: Option<string>, present: bool) {
    (c.Some? <==> present) && (c.Some? ==> IsWord(c.value))
  }

  /** An instruction pointer that brackets can be put around and taken off. */
  predicate PrintablePointer(ip: Option<string>, present: bool) {
    && (ip.Some? <==> present)
    && (ip.Some? ==> var p := ip.value;
         IsWord(p) && p[0] != '[' && p[0] != ']' && p[|p| - 1] != '[' && p[|p| - 1] != ']')
  }

  /** The pid and the option columns are read back from their printed form. */
  lemma {:induction false} ReadHeadPrinted(opts: TraceOptions.Options, h: Head, rem: string)
    requires IsDigits(h.pid)
    requires PrintableColumn(h.timestamp, opts.timestamp.Some?)
    requires PrintablePointer(h.instPointer, opts.instPointer)
    requires rem != [] && !IsSpace(rem[0])
    requires !IsSignalLine(Column(h.timestamp, Column(Bracketed(h.instPointer), rem)))
    ensures ReadHead(opts, HeadText(h, rem)) == Ok(Some((h, rem)))
  {
    var afterStamp := Column(Bracketed(h.instPointer), rem);
    var afterPid := Column(h.timestamp, afterStamp);
    PointerColumn(h.instPointer, rem);
    ColumnRead(h.timestamp, afterStamp);
    ColumnRead(Bracketed(h.instPointer), rem);
    assert IsWord(h.pid);
    SplitOnceOf(h.pid, afterPid);
  }

  /** The bracketed pointer is one word whose brackets strip off. */
  lemma {:induction false} PointerColumn(ip: Option<string>, rem: string)
    requires ip.Some? ==> var p := ip.value;
      IsWord(p) && p[0] != '[' && p[0] != ']' && p[|p| - 1] != '[' && p[|p| - 1] != ']'
    requires rem != [] && !IsSpace(rem[0])
    ensures Bracketed(ip).Some? ==> IsWord(Bracketed(ip).value)
    ensures Bracketed(ip).Some? ==> StripChars(Bracketed(ip).value, Brackets) == ip.value
    ensures var t := Column(Bracketed(ip), rem); t != [] && !IsSpace(t[0])
  {
    if ip.Some? {
      var b := "[" + ip.value + "]";
      BracketedWord(ip.value);
      BracketsStrip(ip.value);
      assert (b + " " + rem)[0] == b[0];
    }
  }

  lemma {:induction false} BracketedWord(p: string)
    requires IsWord(p)
    ensures var b := "[" + p + "]"; IsWord(b) && b[0] == '['
  {
    var b := "[" + p + "]";
    forall k | 0 <= k < |b|
      ensures !IsSpace(b[k])
    {
      if 0 < k < |b| - 1 {
        assert b[k] == p[k - 1];
      }
    }
  }

  lemma {:induction false} BracketsStrip(p: string)
    requires p != [] && p[0] !in Brackets && p[|p| - 1] !in Brackets
    ensures StripChars("[" + p + "]", Brackets) == p
  {
    var tail := p + [']'];
    assert "[" + p + "]" == ['['] + tail;
    LStripCharsCons('[', tail, Brackets);
    assert tail[0] == p[0];
    StripKeepFront(tail, Brackets);
    RStripCharsSnoc(p, ']', Brackets);
    StripCharsKeep(p, Brackets);
  }

  lemma {:induction false} StripKeepFront(s: string, chars: set<char>)
    requires s != [] && s[0] !in chars
    ensures LStripChars(s, chars) == s
  {
  }

  /** One printed column is split off again by `split(None, 1)`. */
  lemma {:induction false} ColumnRead(c: Option<string>, rest: string)
    requires c.Some? ==> IsWord(c.value)
    requires rest != [] && !IsSpace(rest[0])
    ensures OptionalColumn(Column(c, rest), c.Some?) == Ok((c, rest))
    ensures var t := Column(c, rest); t != [] && !IsSpace(t[0])
  {
    if c.Some? {
      SplitOnceOf(c.value, rest);
      assert (c.value + " " + rest)[0] == c.value[0];
    }
  }

  /** A signal or exit line produces nothing and leaves the table alone. */
  lemma {:induction false} SignalLineSkipped(opts: TraceOptions.Options, pid: string, rest: string, pending: seq<Pending>)
    requires IsDigits(pid) && IsSignalLine(rest)
    ensures ParseLine(opts, pid + " " + rest, pending) == Ok((None, pending))
  {
    assert rest[0] == '+' || rest[0] == '-';
    SplitOnceOf(pid, rest);
  }

  /** A whole completed line, columns included, is read back. */
  lemma {:induction false} CompletedLineRoundTrip(opts: TraceOptions.Options, h: Head, name: string, args: seq<string>, n: nat,
                               rest: string, pending: seq<Pending>)
    requires IsDigits(h.pid)
    requires PrintableColumn(h.timestamp, opts.timestamp.Some?)
    requires PrintablePointer(h.instPointer, opts.instPointer)
    requires name != [] && !IsSpace(name[0]) && forall k :: 0 <= k < |name| ==> name[k] != '('
    requires FixArgs(name, args) == Ok(args) && Printable(args)
    requires PrintedReturn(NatToString(n), rest)
    requires var s := CompletedText(name, Join(args, Sep), NatToString(n), rest);
      !Contains(s, UnfinishedTail) && !Contains(s, " resumed>")
    requires !IsSignalLine(Column(h.timestamp, Column(Bracketed(h.instPointer), CompletedText(name, Join(args, Sep), NatToString(n), rest))))
    ensures ParseLine(opts, HeadText(h, CompletedText(name, Join(args, Sep), NatToString(n), rest)), pending)
      == Ok((Some(LineParts(Completed, h.pid, h.timestamp, h.instPointer, name, args, Some((Number(n), None)),
                            if opts.elapsedTime then Some(ElapsedSlice(rest)) else None)),
             pending))
  {
    var rem := CompletedText(name, Join(args, Sep), NatToString(n), rest);
    assert rem[0] == name[0];
    ReadHeadPrinted(opts, h, rem);
    CompletedRoundTrip(opts, h, name, args, n, rest, pending);
  }

  /** A call that did not return but carries an error label. */
  lemma {:induction false} ReadReturnUnreturned(tag: string, description: string)
    requires IsErrorLabel(tag) && IsWord(tag)
    requires description != [] && !IsSpace(description[0]) && !IsSpace(description[|description| - 1])
    ensures ReadReturn("?", " " + tag + " " + description) == Ok((Verbatim("?"), Some(tag), description))
  {
    ReadUnreturnedLabel(tag, description);
  }

  lemma {:induction false} ReadUnreturnedLabel(tag: string, description: string)
    requires IsErrorLabel(tag) && IsWord(tag)
    requires description != [] && !IsSpace(description[0]) && !IsSpace(description[|description| - 1])
    ensures ReadUnreturned(" " + tag + " " + description) == Ok((Verbatim("?"), Some(tag), description))
  {
    var printed := tag + " " + description;
    assert " " + tag + " " + description == [' '] + printed;
    assert printed[0] == tag[0] && printed[|printed| - 1] == description[|description| - 1];
    StripSpaced(printed);
    LabelFirst(tag, description);
    ReadLabelOf(tag, description);
  }

  lemma {:induction false} LabelFirst(tag: string, description: string)
    requires IsErrorLabel(tag)
    ensures StartsWith(tag + " " + description, "E")
  {
    assert (tag + " " + description)[..1] == tag[..1];
  }

  lemma {:induction false} ReadLabelOf(tag: string, description: string)
    requires IsErrorLabel(tag) && IsWord(tag)
    requires description != [] && !IsSpace(description[0])
    ensures ReadLabel(tag + " " + description) == Ok((tag, description))
  {
    SplitOnceOf(tag, description);
  }

  lemma {:induction false} StripSpaced(s: string)
    requires s != [] && !IsSpace(s[0]) && !IsSpace(s[|s| - 1])
    ensures Strip([' '] + s) == s
  {
    LStripSpaced(s);
    StripUnspaced(s);
  }
}
