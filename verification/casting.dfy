/** Argument casting: choosing a parsing class for each parameter of a
    syscall definition, running it over the argument tokens, and wrapping
    whatever is left over. Both engines are modelled: the posix engine of
    posix_omni_parser/parsing_classes.py and the older engine of the
    top-level parsing_classes.py. */
module Casting {
  import opened Wrappers
  import opened Text
  import opened Arguments
  import opened Structures

  /** The parsing class chosen for a parameter. */
  datatype Kind =
    | AsUnimplemented
    | AsFilepath
    | AsPollFds
    | AsFd
    | AsFlags
    | AsHex
    | AsInt
    | AsSockaddr
    | AsStat

  /** The parsing classes that read a whole structure. */
  predicate IsStructure(kind: Kind) {
    kind.AsSockaddr? || kind.AsStat? || kind.AsPollFds?
  }

  /** The structures the source reads as absent when printed as an address. */
  predicate IsAddressable(kind: Kind) {
    kind.AsSockaddr? || kind.AsStat?
  }

  /** The kind of value each parsing class produces. */
  function KindOf(v: ArgumentValue): Kind {
    match v
    case Int(_) => AsInt
    case Hex(_) => AsHex
    case FileDescriptor(_) => AsFd
    case Filepath(_) => AsFilepath
    case Flags(_) => AsFlags
    case Sockaddr(_) => AsSockaddr
    case Stat(_) => AsStat
    case PollFds(_) => AsPollFds
    case Unimplemented(_) => AsUnimplemented
    case Missing(_, _) => AsUnimplemented
  }

  // ----- choosing a parsing class -----

  /** A number type: `int` or any `..._t`. */
  predicate NumberType(typ: string) {
    typ == "int" || EndsWith(typ, "_t")
  }

  /** A parameter name that marks a set of flags. */
  predicate FlagName(name: string) {
    Contains(name, "flag") || Contains(name, "mode") || Contains(name, "prot") || Contains(name, "domain")
  }

  /** The `type` argument of `socket` and its relatives. */
  predicate SocketType(syscall: string, p: Param) {
    Contains(syscall, "socket") && p.typ == Some("int") && Contains(p.name, "type")
  }

  /** A `char *` parameter that names a file. */
  predicate PathName(name: string) {
    Contains(name, "path") || Contains(name, "filename")
  }

  /** The class the posix engine picks for a number-typed parameter; `value`
      is the first remaining token, which decides between `Flags` and `Int`
      when nothing else does. */
  function PosixNumberKind(syscall: string, p: Param, typ: string, value: string): (r: Kind)
    ensures r in {AsFd, AsFlags, AsHex, AsInt}
    ensures r == AsFd <==> Contains(p.name, "fd")
    ensures r == AsInt <==>
      && !Contains(p.name, "fd") && !FlagName(p.name) && !SocketType(syscall, p)
      && !p.pointer && typ != "off_t" && typ != "size_t"
      && IsDigits(value) && !Contains(value, "|")
    ensures !Contains(p.name, "fd") && (FlagName(p.name) || SocketType(syscall, p)) ==> r == AsFlags
    ensures r == AsHex <==>
      && !Contains(p.name, "fd") && !FlagName(p.name) && !SocketType(syscall, p)
      && (p.pointer || typ == "off_t" || typ == "size_t")
  {
    if Contains(p.name, "fd") then AsFd
    else if FlagName(p.name) then AsFlags
    else if SocketType(syscall, p) then AsFlags
    else if p.pointer then AsHex
    else if typ == "off_t" || typ == "size_t" then AsHex
    else if Contains(value, "|") || !IsDigits(value) then AsFlags
    else AsInt
  }

  /** `_get_parsing_class` of the posix engine. An untyped parameter is
      unimplemented; a `pollfd` that is not a pointer is refused. */
  function PosixKind(syscall: string, p: Param, value: string): (r: Result<Kind>)
    ensures r.Err? <==> p.typ == Some("pollfd") && !p.pointer
    ensures r.Err? ==> r.error == NonPointerPollfd
    ensures p.typ.None? ==> r == Ok(AsUnimplemented)
    ensures r == Ok(AsFilepath) <==> p.typ == Some("char") && p.pointer && PathName(p.name)
    ensures r == Ok(AsStat) <==> p.typ == Some("stat") && p.isStruct
    ensures r == Ok(AsSockaddr) <==> p.typ == Some("sockaddr")
    ensures r == Ok(AsPollFds) <==> p.typ == Some("pollfd") && p.pointer
  {
    match p.typ
    case None => Ok(AsUnimplemented)
    case Some(typ) =>
      if typ == "char" && p.pointer then
        if PathName(p.name) then Ok(AsFilepath) else Ok(AsUnimplemented)
      else if typ == "pollfd" then
        if p.pointer then Ok(AsPollFds) else Err(NonPointerPollfd)
      else if NumberType(typ) then Ok(PosixNumberKind(syscall, p, typ, value))
      else if typ == "sockaddr" then Ok(AsSockaddr)
      else if p.isStruct && typ == "stat" then Ok(AsStat)
      else Ok(AsUnimplemented)
  }

  /** `_get_parsing_class` of the legacy engine: no `Hex`, `Stat` or
      pollfd classes, every other number is an `Int`, and a parameter
      without a type is an error (its `endswith` is called on nothing). */
  function LegacyKind(syscall: string, p: Param): (r: Result<Kind>)
    ensures r.Err? <==> p.typ.None?
    ensures r.Err? ==> r.error == UntypedParameter
    ensures r.Ok? ==> r.value in {AsUnimplemented, AsFilepath, AsFd, AsFlags, AsInt, AsSockaddr}
  {
    match p.typ
    case None => Err(UntypedParameter)
    case Some(typ) =>
      if typ == "char" && p.pointer then
        if PathName(p.name) then Ok(AsFilepath) else Ok(AsUnimplemented)
      else if NumberType(typ) then
        if Contains(p.name, "fd") then Ok(AsFd)
        else if FlagName(p.name) || SocketType(syscall, p) then Ok(AsFlags)
        else Ok(AsInt)
      else if typ == "sockaddr" then Ok(AsSockaddr)
      else Ok(AsUnimplemented)
  }

  function ParsingClass(engine: Engine, syscall: string, p: Param, value: string): Result<Kind> {
    if engine == Posix then PosixKind(syscall, p, value) else LegacyKind(syscall, p)
  }

  /** For a typed parameter the legacy engine picks what the posix engine
      picks, except that what the posix engine reads as `Hex` the legacy
      engine reads as `Int`, the posix-only structures are unimplemented,
      and a number whose token merely looks symbolic stays an `Int`. */
  lemma {:induction false} LegacyKindFollowsPosix(syscall: string, p: Param, value: string)
    requires p.typ.Some?
    ensures PosixKind(syscall, p, value) in {Ok(AsFd), Ok(AsFilepath), Ok(AsSockaddr), Ok(AsInt), Ok(AsUnimplemented)}
            ==> LegacyKind(syscall, p) == PosixKind(syscall, p, value)
    ensures PosixKind(syscall, p, value) == Ok(AsHex) ==> LegacyKind(syscall, p) == Ok(AsInt)
    ensures PosixKind(syscall, p, value) in {Ok(AsStat), Ok(AsPollFds), Err(NonPointerPollfd)}
            ==> LegacyKind(syscall, p) == Ok(AsUnimplemented)
    ensures PosixKind(syscall, p, value) == Ok(AsFlags) ==> LegacyKind(syscall, p) in {Ok(AsFlags), Ok(AsInt)}
    ensures LegacyKind(syscall, p) == Ok(AsFlags) ==> PosixKind(syscall, p, value) == Ok(AsFlags)
  {
    var typ := p.typ.value;
    if typ == "sockaddr" || typ == "pollfd" || typ == "stat" {
      assert !EndsWith(typ, "_t");
    }
  }

  // ----- running a parsing class -----

  /** A constructor outcome lifted to the optional value of a structure. */
  function Present(c: Cast): (r: Result<(Option<ArgumentValue>, seq<string>)>)
    ensures r.Ok? <==> c.Ok?
    ensures r.Ok? ==> r.value == (Some(c.value.0), c.value.1)
    ensures r.Err? ==> r.error == c.error
  {
    var v :- c;
    Ok((Some(v.0), v.1))
  }

  /** The one-token parsing classes, read from the token `t`; `last`
      says that `t` is the only token left. */
  function ScalarValue(engine: Engine, kind: Kind, t: string, last: bool): (r: Result<ArgumentValue>)
    requires !IsStructure(kind)
    ensures r.Ok? ==> KindOf(r.value) == kind
  {
    match kind
    case AsUnimplemented => Ok(UnimplementedValue(t))
    case AsFilepath => FilepathValue(engine, t)
    case AsFd => FdValue(engine, t)
    case AsFlags => FlagsValue(engine, t, last)
    case AsHex => Ok(HexValue(t))
    case AsInt => IntValue(t)
  }

  /** `Sockaddr`, with an address token read as an absent value. */
  function SockaddrArg(engine: Engine, tokens: seq<string>, ipOk: string -> bool)
    : (r: Result<(Option<ArgumentValue>, seq<string>)>)
    requires tokens != []
    ensures r.Ok? ==> IsSuffix(r.value.1, tokens)
    ensures r.Ok? && r.value.0.Some? ==> KindOf(r.value.0.value) == AsSockaddr && |r.value.1| < |tokens|
    ensures r.Ok? && r.value.0.None? ==> StartsWith(tokens[0], "0x") && r.value.1 == tokens
    ensures StartsWith(tokens[0], "0x") ==> r == Ok((None, tokens))
  {
    var s :- SockaddrValueOf(engine, tokens, ipOk);
    Ok((if s.0.Some? then Some(Sockaddr(s.0.value)) else None, s.1))
  }

  /** `Stat`, with an address token read as an absent value. */
  function StatArg(tokens: seq<string>): (r: Result<(Option<ArgumentValue>, seq<string>)>)
    requires tokens != []
    ensures r.Ok? ==> IsSuffix(r.value.1, tokens)
    ensures r.Ok? && r.value.0.Some? ==> KindOf(r.value.0.value) == AsStat && |r.value.1| < |tokens|
    ensures r.Ok? && r.value.0.None? ==> StartsWith(tokens[0], "0x") && r.value.1 == tokens
    ensures StartsWith(tokens[0], "0x") ==> r == Ok((None, tokens))
  {
    var s :- StatValue(tokens);
    Ok((if s.0.Some? then Some(Stat(s.0.value)) else None, s.1))
  }

  lemma {:induction false} KindOfPollFds(fds: seq<PollFd>)
    ensures KindOf(PollFds(fds)) == AsPollFds
  {
  }

  /** `PollFDPointer`. */
  function PollArg(tokens: seq<string>): (r: Result<(Option<ArgumentValue>, seq<string>)>)
    requires tokens != []
    ensures r.Ok? ==> IsSuffix(r.value.1, tokens) && r.value.0.Some?
    ensures r.Ok? ==> KindOf(r.value.0.value) == AsPollFds && |r.value.1| < |tokens|
  {
    match PollFdsValue(tokens)
    case Err(e) => Err(e)
    case Ok(s) =>
      KindOfPollFds(s.0);
      Ok((Some(PollFds(s.0)), s.1))
  }

  /** The parsing classes that read a whole structure. */
  function StructureValue(engine: Engine, kind: Kind, tokens: seq<string>, ipOk: string -> bool)
    : (r: Result<(Option<ArgumentValue>, seq<string>)>)
    requires tokens != [] && IsStructure(kind)
    ensures r.Ok? ==> IsSuffix(r.value.1, tokens)
    ensures r.Ok? && r.value.0.Some? ==> KindOf(r.value.0.value) == kind && |r.value.1| < |tokens|
    ensures r.Ok? && r.value.0.None? ==> IsAddressable(kind) && StartsWith(tokens[0], "0x") && r.value.1 == tokens
    ensures IsAddressable(kind) && StartsWith(tokens[0], "0x") ==> r == Ok((None, tokens))
  {
    match kind
    case AsSockaddr => SockaddrArg(engine, tokens, ipOk)
    case AsStat => StatArg(tokens)
    case AsPollFds => PollArg(tokens)
  }

  /** Runs the parsing class on the remaining tokens. The value is absent
      when a structure was printed as an address; the address token is then
      left in place. `ipOk` stands for `socket.inet_aton` accepting an
      address. */
  function Construct(engine: Engine, kind: Kind, tokens: seq<string>, ipOk: string -> bool)
    : (r: Result<(Option<ArgumentValue>, seq<string>)>)
    requires tokens != []
    ensures r.Ok? ==> IsSuffix(r.value.1, tokens)
    ensures r.Ok? && r.value.0.Some? ==> KindOf(r.value.0.value) == kind && |r.value.1| < |tokens|
    ensures r.Ok? && r.value.0.None? ==> IsAddressable(kind) && StartsWith(tokens[0], "0x") && r.value.1 == tokens
    ensures IsAddressable(kind) && StartsWith(tokens[0], "0x") ==> r == Ok((None, tokens))
  {
    if IsStructure(kind) then StructureValue(engine, kind, tokens, ipOk)
    else
      var v :- ScalarValue(engine, kind, tokens[0], |tokens| == 1);
      assert IsSuffix(tokens[1..], tokens);
      Ok((Some(v), tokens[1..]))
  }

  /** `_cast_syscall_arg`: a parameter with no tokens left is missing with
      nothing given; a structure printed as an address is missing with the
      address given. */
  function CastArg(engine: Engine, syscall: string, p: Param, tokens: seq<string>, ipOk: string -> bool): (r: Cast)
    ensures tokens == [] ==> r == Ok((Missing(p, None), []))
    ensures r.Ok? ==> IsSuffix(r.value.1, tokens)
    ensures r.Ok? && r.value.0.Missing? ==> r.value.0.expected == p
    ensures r.Ok? && r.value.0.Missing? ==> (r.value.0.given.None? <==> tokens == [])
    ensures r.Ok? && r.value.0.Missing? && r.value.0.given.Some? ==>
              r.value.1 == tokens && r.value.0.given == Some(tokens[0]) && StartsWith(tokens[0], "0x")
    ensures r.Ok? && !r.value.0.Missing? ==> |r.value.1| < |tokens|
  {
    if tokens == [] then Ok((Missing(p, None), tokens))
    else
      var kind :- ParsingClass(engine, syscall, p, tokens[0]);
      var built :- Construct(engine, kind, tokens, ipOk);
      match built.0
      case None => Ok((Missing(p, Some(tokens[0])), tokens))
      case Some(v) => Ok((v, built.1))
  }

  /** A structure parameter printed as an address (the call failed, so
      strace did not dereference it) is missing, the address is recorded as
      what was given, and the token stays for the next parameter. */
  lemma {:induction false} MissingAddressStays(engine: Engine, syscall: string, p: Param, address: string, tokens: seq<string>,
                            ipOk: string -> bool)
    requires p.typ == Some("sockaddr") || (engine == Posix && p.typ == Some("stat") && p.isStruct)
    requires StartsWith(address, "0x")
    ensures CastArg(engine, syscall, p, [address] + tokens, ipOk) == Ok((Missing(p, Some(address)), [address] + tokens))
  {
    var ts := [address] + tokens;
    assert ts[0] == address;
    if engine == Legacy {
      assert !EndsWith("sockaddr", "_t");
    }
  }

  /** What the parameter loop relies on about the cast of one parameter:
      with no tokens left it is missing with nothing given and consumes
      nothing; otherwise it leaves a suffix of the tokens, and a missing
      value names its parameter and has something given. */
  predicate StepFacts(p: Param, tokens: seq<string>, c: Cast) {
    && (tokens == [] ==> c == Ok((Missing(p, None), [])))
    && (c.Ok? ==> IsSuffix(c.value.1, tokens))
    && (c.Ok? && c.value.0.Missing? ==> c.value.0.expected == p && (c.value.0.given.None? <==> tokens == []))
  }

  /** A per-parameter cast that keeps `StepFacts` on every input. */
  ghost predicate Lawful(step: (Param, seq<string>) -> Cast) {
    forall p, tokens :: StepFacts(p, tokens, step(p, tokens))
  }

  /** The cast `cast_args` applies to each parameter of this call. */
  function CastStep(engine: Engine, syscall: string, ipOk: string -> bool): (step: (Param, seq<string>) -> Cast)
    ensures Lawful(step)
  {
    (p, tokens) => CastArg(engine, syscall, p, tokens, ipOk)
  }

  /** The loop over the definition's parameters, each cast by `step`. An
      unfinished call stops at the first parameter for which no token is
      left. */
  function CastParams(step: (Param, seq<string>) -> Cast, unfinished: bool, params: seq<Param>, tokens: seq<string>)
    : (r: Result<(seq<ArgumentValue>, seq<string>)>)
    requires Lawful(step)
    ensures r.Ok? ==> IsSuffix(r.value.1, tokens)
    ensures r.Ok? ==> |r.value.0| <= |params|
    ensures r.Ok? && !unfinished ==> |r.value.0| == |params|
    ensures r.Ok? && unfinished && |r.value.0| < |params| ==> r.value.1 == []
    ensures r.Ok? ==> forall i :: 0 <= i < |r.value.0| && r.value.0[i].Missing? ==> r.value.0[i].expected == params[i]
    ensures r.Ok? && unfinished ==> forall i :: 0 <= i < |r.value.0| ==> r.value.0[i].Missing? ==> r.value.0[i].given.Some?
    decreases |params|
  {
    if params == [] || (unfinished && tokens == []) then Ok(([], tokens))
    else
      assert StepFacts(params[0], tokens, step(params[0], tokens));
      match step(params[0], tokens)
      case Err(e) => Err(e)
      case Ok(first) =>
        match CastParams(step, unfinished, params[1..], first.1)
        case Err(e) => Err(e)
        case Ok(more) =>
          SuffixTrans(more.1, first.1, tokens);
          Ok(([first.0] + more.0, more.1))
  }

  /** The tokens no parameter consumed, each kept verbatim. */
  function Leftovers(tokens: seq<string>): (r: seq<ArgumentValue>)
    ensures |r| == |tokens|
    ensures forall i :: 0 <= i < |r| ==> r[i] == Unimplemented(tokens[i])
  {
    seq(|tokens|, i requires 0 <= i < |tokens| => Unimplemented(tokens[i]))
  }

  /** Each leftover value prints as the token it wraps, in both engines. */
  lemma {:induction false} LeftoversPrint(tokens: seq<string>)
    ensures forall i :: 0 <= i < |tokens| ==>
              Str(Posix, Leftovers(tokens)[i]) == Some(tokens[i]) && Str(Legacy, Leftovers(tokens)[i]) == Some(tokens[i])
  {
    forall i | 0 <= i < |tokens|
      ensures Str(Posix, Leftovers(tokens)[i]) == Some(tokens[i]) && Str(Legacy, Leftovers(tokens)[i]) == Some(tokens[i])
    {
      var v := UnimplementedValue(tokens[i]);
    }
  }

  /** Once a finished call's tokens run out, every remaining parameter is
      missing with nothing given. */
  lemma {:induction false} ExhaustedAllMissing(step: (Param, seq<string>) -> Cast, params: seq<Param>)
    requires Lawful(step)
    ensures CastParams(step, false, params, []) == Ok((AllMissing(params), []))
    decreases |params|
  {
    if params != [] {
      ExhaustedAllMissing(step, params[1..]);
      assert StepFacts(params[0], [], step(params[0], []));
      MissingCons(params);
    }
  }

  /** One missing value with nothing given per parameter. */
  function AllMissing(params: seq<Param>): (r: seq<ArgumentValue>)
    ensures |r| == |params|
    ensures forall i :: 0 <= i < |r| ==> r[i] == Missing(params[i], None)
  {
    seq(|params|, i requires 0 <= i < |params| => Missing(params[i], None))
  }

  lemma {:induction false} MissingCons(params: seq<Param>)
    requires params != []
    ensures AllMissing(params) == [Missing(params[0], None)] + AllMissing(params[1..])
  {
    var r := [Missing(params[0], None)] + AllMissing(params[1..]);
    assert forall k :: 0 <= k < |params| ==> AllMissing(params)[k] == r[k];
  }

  // ----- looking up the definition -----

  /** Whether a catalog entry is the one for `syscall`. The posix engine
      also tries the name with its leading and trailing underscores removed
      (`_llseek` is `llseek`). */
  predicate Names(engine: Engine, syscall: string, d: Definition) {
    syscall == d.name || (engine == Posix && StripChars(syscall, {'_'}) == d.name)
  }

  /** Position of the first catalog entry for `syscall` at or after `from`. */
  function FindDefinition(engine: Engine, syscall: string, defs: seq<Definition>, from: nat): (r: Option<nat>)
    requires from <= |defs|
    ensures r.Some? ==> from <= r.value < |defs| && Names(engine, syscall, defs[r.value])
    ensures r.Some? ==> forall j :: from <= j < r.value ==> !Names(engine, syscall, defs[j])
    ensures r.None? ==> forall j :: from <= j < |defs| ==> !Names(engine, syscall, defs[j])
    decreases |defs| - from
  {
    if from == |defs| then None
    else if Names(engine, syscall, defs[from]) then Some(from)
    else FindDefinition(engine, syscall, defs, from + 1)
  }

  /** The `syscall_type` value `cast_args` receives: a line parser passes the
      type's name, the posix record its integer code. Only the name
      "unfinished" selects the behaviour for unfinished calls. */
  datatype CallTag = TypeName(name: string) | TypeCode(code: int)

  predicate MarksUnfinished(t: CallTag) {
    t == TypeName("unfinished")
  }

  /** `cast_args`: the definition's parameters cast in order, then every
      unconsumed token wrapped as unimplemented. A call with no catalog
      entry is an error in both engines; an entry without a parameter list
      casts nothing in the posix engine and is an error in the legacy one. */
  function CastArgs(engine: Engine, syscall: string, syscallType: CallTag, defs: seq<Definition>, tokens: seq<string>,
                    ipOk: string -> bool): (r: Result<seq<ArgumentValue>>)
    ensures FindDefinition(engine, syscall, defs, 0).None? ==> r == Err(UnknownSyscall)
  {
    CastEntry(engine, syscall, syscallType, defs, tokens, CastStep(engine, syscall, ipOk))
  }

  /** `cast_args` with the cast of one parameter given as `step`; `CastArgs`
      passes `CastStep`, and the lemmas below hold for any lawful step. */
  function CastEntry(engine: Engine, syscall: string, syscallType: CallTag, defs: seq<Definition>, tokens: seq<string>,
                     step: (Param, seq<string>) -> Cast): (r: Result<seq<ArgumentValue>>)
    requires Lawful(step)
    ensures FindDefinition(engine, syscall, defs, 0).None? ==> r == Err(UnknownSyscall)
  {
    var index :- match FindDefinition(engine, syscall, defs, 0)
                 case None => Err(UnknownSyscall)
                 case Some(i) => Ok(i);
    var params :- ParamsOf(engine, defs[index]);
    var cast :- CastParams(step, MarksUnfinished(syscallType), params, tokens);
    Ok(cast.0 + Leftovers(cast.1))
  }

  /** The parameters of the entry `cast_args` uses. */
  function ParamsOf(engine: Engine, d: Definition): Result<seq<Param>> {
    match d.parameters
    case Some(ps) => Ok(ps)
    case None => if engine == Posix then Ok([]) else Err(NoDefinition)
  }

  /** `cast_args` unfolded at the first matching entry. */
  lemma {:induction false} CastArgsOfEntry(engine: Engine, syscall: string, syscallType: CallTag, defs: seq<Definition>, tokens: seq<string>,
                      step: (Param, seq<string>) -> Cast, i: nat)
    requires Lawful(step)
    requires i < |defs| && Names(engine, syscall, defs[i])
    requires forall j :: 0 <= j < i ==> !Names(engine, syscall, defs[j])
    requires ParamsOf(engine, defs[i]).Ok?
    ensures var params := ParamsOf(engine, defs[i]).value;
            var cast := CastParams(step, MarksUnfinished(syscallType), params, tokens);
            CastEntry(engine, syscall, syscallType, defs, tokens, step)
            == (if cast.Ok? then Ok(cast.value.0 + Leftovers(cast.value.1)) else Err(cast.error))
  {
    assert FindDefinition(engine, syscall, defs, 0) == Some(i) by {
      FirstDefinition(engine, syscall, defs, i);
    }
  }

  /** One step of the finished-call loop: the first parameter is cast,
      then the rest from the tokens it left. */
  lemma {:induction false} CastParamsCons(step: (Param, seq<string>) -> Cast, params: seq<Param>, tokens: seq<string>)
    requires Lawful(step) && params != [] && CastParams(step, false, params, tokens).Ok?
    ensures step(params[0], tokens).Ok?
    ensures CastParams(step, false, params[1..], step(params[0], tokens).value.1).Ok?
    ensures CastParams(step, false, params, tokens).value
            == ([step(params[0], tokens).value.0] + CastParams(step, false, params[1..], step(params[0], tokens).value.1).value.0,
                CastParams(step, false, params[1..], step(params[0], tokens).value.1).value.1)
  {
  }

  /** For a finished call, parameter `k` is missing with nothing given
      exactly when the parameters before it used up every token. */
  lemma {:induction false} CastParamsPrefix(step: (Param, seq<string>) -> Cast, params: seq<Param>, tokens: seq<string>, k: nat)
    requires Lawful(step) && k < |params| && CastParams(step, false, params, tokens).Ok?
    ensures CastParams(step, false, params[..k], tokens).Ok?
    ensures CastParams(step, false, params, tokens).value.0[k] == Missing(params[k], None)
            <==> CastParams(step, false, params[..k], tokens).value.1 == []
    decreases k
  {
    CastParamsCons(step, params, tokens);
    var first := step(params[0], tokens).value;
    var more := CastParams(step, false, params[1..], first.1).value;
    if k == 0 {
      assert StepFacts(params[0], tokens, step(params[0], tokens));
      assert params[..0] == [];
    } else {
      CastParamsPrefix(step, params[1..], first.1, k - 1);
      PrefixStep(step, params, tokens, k);
      assert params[1..][k - 1] == params[k];
      assert ([first.0] + more.0)[k] == more.0[k - 1];
    }
  }

  /** The prefix of `k` parameters runs the first one, then the next `k - 1`. */
  lemma {:induction false} PrefixStep(step: (Param, seq<string>) -> Cast, params: seq<Param>, tokens: seq<string>, k: nat)
    requires Lawful(step) && 0 < k <= |params|
    requires step(params[0], tokens).Ok?
    requires CastParams(step, false, params[1..][..k - 1], step(params[0], tokens).value.1).Ok?
    ensures CastParams(step, false, params[..k], tokens).Ok?
    ensures CastParams(step, false, params[..k], tokens).value.1
            == CastParams(step, false, params[1..][..k - 1], step(params[0], tokens).value.1).value.1
  {
    var pre := params[..k];
    assert pre[0] == params[0];
    assert pre[1..] == params[1..][..k - 1];
  }

  /** The loop's values followed by the leftover tokens: one value per
      parameter of a finished call, then one unimplemented value per
      unconsumed token. */
  lemma {:induction false} FinishedWithLeftovers(step: (Param, seq<string>) -> Cast, params: seq<Param>, tokens: seq<string>)
    requires Lawful(step) && CastParams(step, false, params, tokens).Ok?
    ensures var cast := CastParams(step, false, params, tokens).value;
            var vals := cast.0 + Leftovers(cast.1);
            && |vals| == |params| + |cast.1|
            && vals[..|params|] == cast.0
            && (forall j :: 0 <= j < |cast.1| ==> vals[|params| + j] == Unimplemented(cast.1[j]))
  {
    var cast := CastParams(step, false, params, tokens).value;
    var vals := cast.0 + Leftovers(cast.1);
    assert vals[..|params|] == cast.0;
    forall j | 0 <= j < |cast.1|
      ensures vals[|params| + j] == Unimplemented(cast.1[j])
    {
      assert vals[|params| + j] == Leftovers(cast.1)[j];
    }
  }

  /** A finished call's arguments: one value per parameter of the first
      matching entry, then one unimplemented value per unconsumed token. */
  lemma {:induction false} CastArgsFinished(engine: Engine, syscall: string, syscallType: CallTag, defs: seq<Definition>,
                                            tokens: seq<string>, step: (Param, seq<string>) -> Cast, i: nat,
                                            vals: seq<ArgumentValue>)
    requires Lawful(step) && !MarksUnfinished(syscallType)
    requires i < |defs| && Names(engine, syscall, defs[i])
    requires forall j :: 0 <= j < i ==> !Names(engine, syscall, defs[j])
    requires ParamsOf(engine, defs[i]).Ok?
    requires CastEntry(engine, syscall, syscallType, defs, tokens, step) == Ok(vals)
    ensures CastParams(step, false, ParamsOf(engine, defs[i]).value, tokens).Ok?
    ensures var cast := CastParams(step, false, ParamsOf(engine, defs[i]).value, tokens).value;
            |vals| == |ParamsOf(engine, defs[i]).value| + |cast.1|
    ensures var cast := CastParams(step, false, ParamsOf(engine, defs[i]).value, tokens).value;
            vals[..|ParamsOf(engine, defs[i]).value|] == cast.0
    ensures var cast := CastParams(step, false, ParamsOf(engine, defs[i]).value, tokens).value;
            forall j :: 0 <= j < |cast.1| ==> vals[|ParamsOf(engine, defs[i]).value| + j] == Unimplemented(cast.1[j])
  {
    FinishedEntry(engine, syscall, syscallType, defs, tokens, step, i, vals);
    FinishedWithLeftovers(step, ParamsOf(engine, defs[i]).value, tokens);
  }

  /** A finished call's successful cast is the loop's values followed by
      the leftovers. */
  lemma {:induction false} FinishedEntry(engine: Engine, syscall: string, syscallType: CallTag, defs: seq<Definition>,
                                         tokens: seq<string>, step: (Param, seq<string>) -> Cast, i: nat,
                                         vals: seq<ArgumentValue>)
    requires Lawful(step) && !MarksUnfinished(syscallType)
    requires i < |defs| && Names(engine, syscall, defs[i])
    requires forall j :: 0 <= j < i ==> !Names(engine, syscall, defs[j])
    requires ParamsOf(engine, defs[i]).Ok?
    requires CastEntry(engine, syscall, syscallType, defs, tokens, step) == Ok(vals)
    ensures CastParams(step, false, ParamsOf(engine, defs[i]).value, tokens).Ok?
    ensures var cast := CastParams(step, false, ParamsOf(engine, defs[i]).value, tokens).value;
            vals == cast.0 + Leftovers(cast.1)
  {
    CastArgsOfEntry(engine, syscall, syscallType, defs, tokens, step, i);
  }

  /** In a finished call's arguments, value `k` (for `k` a parameter
      position) names parameter `k` when it is missing, and it is missing
      with nothing given exactly when the parameters before it used up
      every token. */
  lemma {:induction false} CastArgsMissingAt(engine: Engine, syscall: string, syscallType: CallTag, defs: seq<Definition>,
                                             tokens: seq<string>, step: (Param, seq<string>) -> Cast, i: nat,
                                             vals: seq<ArgumentValue>, k: nat)
    requires Lawful(step) && !MarksUnfinished(syscallType)
    requires i < |defs| && Names(engine, syscall, defs[i])
    requires forall j :: 0 <= j < i ==> !Names(engine, syscall, defs[j])
    requires ParamsOf(engine, defs[i]).Ok? && k < |ParamsOf(engine, defs[i]).value|
    requires CastEntry(engine, syscall, syscallType, defs, tokens, step) == Ok(vals)
    ensures var params := ParamsOf(engine, defs[i]).value;
            var before := CastParams(step, false, params[..k], tokens);
            && k < |vals|
            && (vals[k].Missing? ==> vals[k].expected == params[k])
            && before.Ok?
            && (vals[k] == Missing(params[k], None) <==> before.value.1 == [])
  {
    var params := ParamsOf(engine, defs[i]).value;
    CastArgsFinished(engine, syscall, syscallType, defs, tokens, step, i, vals);
    var cast := CastParams(step, false, params, tokens).value;
    assert vals[k] == vals[..|params|][k] == cast.0[k];
    CastParamsPrefix(step, params, tokens, k);
  }

  /** A finished call that printed no argument gets one missing value with
      nothing given per parameter of its entry. */
  lemma {:induction false} CastArgsNoTokens(engine: Engine, syscall: string, syscallType: CallTag, defs: seq<Definition>,
                                            step: (Param, seq<string>) -> Cast, i: nat)
    requires Lawful(step) && !MarksUnfinished(syscallType)
    requires i < |defs| && Names(engine, syscall, defs[i])
    requires forall j :: 0 <= j < i ==> !Names(engine, syscall, defs[j])
    requires ParamsOf(engine, defs[i]).Ok?
    ensures CastEntry(engine, syscall, syscallType, defs, [], step) == Ok(AllMissing(ParamsOf(engine, defs[i]).value))
  {
    var params := ParamsOf(engine, defs[i]).value;
    CastArgsOfEntry(engine, syscall, syscallType, defs, [], step, i);
    ExhaustedAllMissing(step, params);
    assert AllMissing(params) + Leftovers([]) == AllMissing(params);
  }

  /** An unfinished call that printed no argument gets no values at all. */
  lemma {:induction false} UnfinishedNoTokens(engine: Engine, syscall: string, syscallType: CallTag, defs: seq<Definition>,
                                              step: (Param, seq<string>) -> Cast, i: nat)
    requires Lawful(step) && MarksUnfinished(syscallType)
    requires i < |defs| && Names(engine, syscall, defs[i])
    requires forall j :: 0 <= j < i ==> !Names(engine, syscall, defs[j])
    requires ParamsOf(engine, defs[i]).Ok?
    ensures CastEntry(engine, syscall, syscallType, defs, [], step) == Ok([])
  {
    var params := ParamsOf(engine, defs[i]).value;
    CastArgsOfEntry(engine, syscall, syscallType, defs, [], step, i);
    assert CastParams(step, true, params, []) == Ok(([], []));
    assert [] + Leftovers([]) == [];
  }

  /** The lookup stops at the first entry for the call. */
  lemma {:induction false} FirstDefinition(engine: Engine, syscall: string, defs: seq<Definition>, i: nat)
    requires i < |defs| && Names(engine, syscall, defs[i])
    requires forall j :: 0 <= j < i ==> !Names(engine, syscall, defs[j])
    ensures FindDefinition(engine, syscall, defs, 0) == Some(i)
  {
    var r := FindDefinition(engine, syscall, defs, 0);
    if r.None? {
      assert false;
    } else if r.value != i {
      assert false;
    }
  }

  /** A posix catalog entry without a parameter list keeps every token as
      an unimplemented value. */
  lemma {:induction false} UndefinedKeepsTokens(syscall: string, syscallType: CallTag, defs: seq<Definition>, tokens: seq<string>,
                             ipOk: string -> bool, i: nat)
    requires i < |defs| && Names(Posix, syscall, defs[i]) && defs[i].parameters.None?
    requires forall j :: 0 <= j < i ==> !Names(Posix, syscall, defs[j])
    ensures CastArgs(Posix, syscall, syscallType, defs, tokens, ipOk) == Ok(Leftovers(tokens))
  {
    CastArgsOfEntry(Posix, syscall, syscallType, defs, tokens, CastStep(Posix, syscall, ipOk), i);
    assert CastParams(CastStep(Posix, syscall, ipOk), MarksUnfinished(syscallType), [], tokens) == Ok(([], tokens));
    assert [] + Leftovers(tokens) == Leftovers(tokens);
  }

  /** The legacy engine refuses an entry without a parameter list. */
  lemma {:induction false} LegacyNeedsDefinition(syscall: string, syscallType: CallTag, defs: seq<Definition>, tokens: seq<string>,
                              ipOk: string -> bool, i: nat)
    requires i < |defs| && Names(Legacy, syscall, defs[i]) && defs[i].parameters.None?
    requires forall j :: 0 <= j < i ==> !Names(Legacy, syscall, defs[j])
    ensures CastArgs(Legacy, syscall, syscallType, defs, tokens, ipOk) == Err(NoDefinition)
  {
    FirstDefinition(Legacy, syscall, defs, i);
  }
}
