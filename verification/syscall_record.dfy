/** The `Syscall` record of posix_omni_parser/Syscall.py: the parts of one
    parsed line, checked, with the arguments cast by the posix engine. */
module SyscallRecord {
  import opened Wrappers
  import opened Text
  import opened Arguments
  import opened Casting
  import LineParser

  /** The three call types, as integer codes. */
  const UnfinishedCode: int := 0
  const ResumedCode: int := 1
  const CompleteCode: int := 2

  /** The `line_parts` a posix parser hands over. The `return` key must be
      present (an unfinished call holds None there, hence the `Option`); a
      missing one makes the record raise, which the model does not represent.
      The timestamp, instruction-pointer and elapsed-time keys are optional:
      an absent key and a key holding None give the same record. */
  datatype PosixParts = PosixParts(
    callType: int,
    pid: string,
    name: string,
    args: seq<string>,
    ret: Option<(LineParser.ReturnValue, Option<string>)>,
    timestamp: Option<string>,
    instPointer: Option<string>,
    elapsed: Option<string>)

  /** A `Syscall`. `args` is None for the calls a recorder injected itself
      (their names contain `syscall_`). */
  datatype Syscall = Syscall(
    callType: int,
    pid: string,
    name: string,
    args: Option<seq<ArgumentValue>>,
    ret: Option<(LineParser.ReturnValue, Option<string>)>,
    timestamp: Option<string>,
    instPointer: Option<string>,
    elapsed: Option<string>)

  predicate IsCallType(code: int) {
    code == UnfinishedCode || code == ResumedCode || code == CompleteCode
  }

  predicate Injected(name: string) {
    Contains(name, "syscall_")
  }

  /** The constructor, given the tag that reaches `cast_args`. */
  function Build(defs: seq<Definition>, parts: PosixParts, tag: CallTag, ipOk: string -> bool): (r: Result<Syscall>)
    ensures !IsCallType(parts.callType) ==> r == Err(BadSyscallType)
    ensures r.Ok? ==> IsCallType(r.value.callType) && r.value.callType == parts.callType
    ensures r.Ok? ==> (r.value.args.None? <==> Injected(parts.name))
    ensures r.Ok? ==> r.value.pid == parts.pid && r.value.name == parts.name && r.value.ret == parts.ret
    ensures r.Ok? ==> r.value.timestamp == parts.timestamp && r.value.instPointer == parts.instPointer
                      && r.value.elapsed == parts.elapsed
    ensures Injected(parts.name) && IsCallType(parts.callType) ==> r.Ok?
  {
    if !IsCallType(parts.callType) then Err(BadSyscallType)
    else
      var args :- if Injected(parts.name) then Ok(None)
                  else match CastArgs(Posix, parts.name, tag, defs, parts.args, ipOk)
                       case Err(e) => Err(e)
                       case Ok(a) => Ok(Some(a));
      Ok(Syscall(parts.callType, parts.pid, parts.name, args, parts.ret, parts.timestamp, parts.instPointer,
                 parts.elapsed))
  }

  /** `Syscall.__init__` as written: the integer type code goes to
      `cast_args`, which looks for the string "unfinished". */
  function MakeSyscallAsWritten(defs: seq<Definition>, parts: PosixParts, ipOk: string -> bool): (r: Result<Syscall>)
    ensures !IsCallType(parts.callType) ==> r == Err(BadSyscallType)
    ensures r.Ok? ==> (r.value.args.None? <==> Injected(parts.name))
  {
    Build(defs, parts, TypeCode(parts.callType), ipOk)
  }

  /** The name of a type code, as the line parser spells it. */
  function TypeNameOf(code: int): (r: string)
    ensures r == "unfinished" <==> code == UnfinishedCode
  {
    if code == UnfinishedCode then "unfinished" else if code == ResumedCode then "resumed" else "completed"
  }

  /** `Syscall.__init__` with the type code translated to its name, so that
      an unfinished call stops casting when its tokens run out. */
  function MakeSyscall(defs: seq<Definition>, parts: PosixParts, ipOk: string -> bool): (r: Result<Syscall>)
    ensures !IsCallType(parts.callType) ==> r == Err(BadSyscallType)
    ensures r.Ok? ==> (r.value.args.None? <==> Injected(parts.name))
  {
    Build(defs, parts, TypeName(TypeNameOf(parts.callType)), ipOk)
  }

  /** The tag decides the unfinished behaviour only through its name: an
      integer code never selects it. */
  lemma {:induction false} CodeNeverUnfinished(code: int)
    ensures !MarksUnfinished(TypeCode(code))
    ensures MarksUnfinished(TypeName(TypeNameOf(code))) <==> code == UnfinishedCode
  {
  }

  /** A record for a recognised type and a traced call carries the cast
      arguments, or fails as the cast does. */
  lemma {:induction false} BuildCasts(defs: seq<Definition>, parts: PosixParts, tag: CallTag, ipOk: string -> bool)
    requires IsCallType(parts.callType) && !Injected(parts.name)
    ensures var c := CastArgs(Posix, parts.name, tag, defs, parts.args, ipOk);
      Build(defs, parts, tag, ipOk)
      == if c.Ok? then Ok(Syscall(parts.callType, parts.pid, parts.name, Some(c.value), parts.ret, parts.timestamp,
                                  parts.instPointer, parts.elapsed))
         else Err(c.error)
  {
  }

  /** As written, a record for an unfinished call that has printed no
      argument yet gets one missing value per parameter of its definition. */
  lemma {:induction false} UnfinishedPaddedAsWritten(defs: seq<Definition>, parts: PosixParts, ipOk: string -> bool, i: nat)
    requires parts.callType == UnfinishedCode && parts.args == [] && !Injected(parts.name)
    requires i < |defs| && Names(Posix, parts.name, defs[i]) && defs[i].parameters.Some?
    requires forall j :: 0 <= j < i ==> !Names(Posix, parts.name, defs[j])
    ensures var params := defs[i].parameters.value;
      MakeSyscallAsWritten(defs, parts, ipOk).Ok?
      && MakeSyscallAsWritten(defs, parts, ipOk).value.args
         == Some(AllMissing(params))
  {
    var params := defs[i].parameters.value;
    var tag := TypeCode(parts.callType);
    assert ParamsOf(Posix, defs[i]) == Ok(params);
    assert !MarksUnfinished(tag);
    CastArgsNoTokens(Posix, parts.name, tag, defs, CastStep(Posix, parts.name, ipOk), i);
    BuildCasts(defs, parts, tag, ipOk);
  }

  /** Corrected, a record for an unfinished call that has printed no
      argument yet gets no arguments: casting stops where the tokens end. */
  lemma {:induction false} UnfinishedStops(defs: seq<Definition>, parts: PosixParts, ipOk: string -> bool, i: nat)
    requires parts.callType == UnfinishedCode && parts.args == [] && !Injected(parts.name)
    requires i < |defs| && Names(Posix, parts.name, defs[i]) && defs[i].parameters.Some?
    requires forall j :: 0 <= j < i ==> !Names(Posix, parts.name, defs[j])
    ensures MakeSyscall(defs, parts, ipOk).Ok? && MakeSyscall(defs, parts, ipOk).value.args == Some([])
  {
    var tag := TypeName(TypeNameOf(parts.callType));
    assert MarksUnfinished(tag);
    UnfinishedNoTokens(Posix, parts.name, tag, defs, CastStep(Posix, parts.name, ipOk), i);
    BuildCasts(defs, parts, tag, ipOk);
  }

  /** Corrected, an unfinished call's arguments never hold a missing value
      with nothing given: casting stops where the printed arguments end. */
  lemma {:induction false} UnfinishedNeverPads(defs: seq<Definition>, parts: PosixParts, ipOk: string -> bool, i: nat)
    requires parts.callType == UnfinishedCode && !Injected(parts.name)
    requires i < |defs| && Names(Posix, parts.name, defs[i]) && defs[i].parameters.Some?
    requires forall j :: 0 <= j < i ==> !Names(Posix, parts.name, defs[j])
    ensures var r := MakeSyscall(defs, parts, ipOk);
      r.Ok? ==> forall k :: 0 <= k < |r.value.args.value| && r.value.args.value[k].Missing? ==>
                  r.value.args.value[k].given.Some?
  {
    var tag := TypeName(TypeNameOf(parts.callType));
    CastArgsOfEntry(Posix, parts.name, tag, defs, parts.args, CastStep(Posix, parts.name, ipOk), i);
    var params := defs[i].parameters.value;
    var cast := CastParams(CastStep(Posix, parts.name, ipOk), true, params, parts.args);
    if cast.Ok? {
      var all := cast.value.0 + Leftovers(cast.value.1);
      forall k | 0 <= k < |all| && all[k].Missing?
        ensures all[k].given.Some?
      {
      }
    }
  }

  /** `isSuccessful`: neither `-1` nor `?` was returned. A record without a
      return part (an unfinished call) raises. */
  function IsSuccessful(s: Syscall): (r: Result<bool>)
    ensures r.Err? <==> s.ret.None?
    ensures r.Err? ==> r.error == NoReturn
  {
    match s.ret
    case None => Err(NoReturn)
    case Some(ret) => Ok(ret.0 != LineParser.Number(-1) && ret.0 != LineParser.Verbatim("?"))
  }

  /** For a return part read from a trace line, success is decided by the
      printed token: it fails exactly for `-1` and `?`, and any error label
      means failure. */
  lemma {:induction false} SuccessOfPrinted(s: Syscall, value: string, rest: string)
    requires LineParser.ReadReturn(value, rest).Ok?
    requires var read := LineParser.ReadReturn(value, rest).value; s.ret == Some((read.0, read.1))
    ensures IsSuccessful(s) == Ok(value != "-1" && value != "?")
    ensures LineParser.ReadReturn(value, rest).value.1.Some? ==> IsSuccessful(s) == Ok(false)
  {
    var read := LineParser.ReadReturn(value, rest).value;
    if read.0.Number? && IsDigits(value) {
      assert ParseInt(value) == Some(DecimalValue(value));
    }
    if value == "-1" {
      LineParser.MinusOne();
    }
  }

  /** `UnfinishedSyscall.__eq__` is an equivalence on (pid, name), and
      `__ne__` is its negation. */
  lemma {:induction false} SameCallEquivalence(a: LineParser.Pending, b: LineParser.Pending, c: LineParser.Pending)
    ensures LineParser.SameCall(a, a)
    ensures LineParser.SameCall(a, b) ==> LineParser.SameCall(b, a)
    ensures LineParser.SameCall(a, b) && LineParser.SameCall(b, c) ==> LineParser.SameCall(a, c)
    ensures LineParser.SameCall(a, b) <==> (a.pid, a.name) == (b.pid, b.name)
    ensures LineParser.DifferentCall(a, b) <==> !LineParser.SameCall(a, b)
  {
  }
}
