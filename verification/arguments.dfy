/** The typed argument values of the two casting engines and the scalar
    constructors, each of which consumes exactly one token.

    The source's constructors pop tokens off a shared mutable list; here a
    constructor takes the token list and returns its value together with the
    tokens it did not consume. */
module Arguments {
  import opened Wrappers
  import opened Text
  import opened Modes

  /** posix_omni_parser/parsing_classes.py or the older top-level parsing_classes.py. */
  datatype Engine = Posix | Legacy

  /** One parameter of a syscall definition from the definition catalog. */
  datatype Param = Param(name: string, typ: Option<string>, pointer: bool, isStruct: bool)

  /** A catalog entry: the call name and, when known, its parameter list. */
  datatype Definition = Definition(name: string, parameters: Option<seq<Param>>)

  datatype Fd = FdNumber(n: int) | FdCwd

  /** The address kinds of a unix-domain socket (man 7 unix), plus `sun_path=`. */
  datatype PathKind = Unnamed | Pathname | Abstract | Sun

  /** What follows the family inside a sockaddr structure. */
  datatype SockPayload =
    | PathPayload(kind: PathKind, path: string)
    | DataPayload(data: string)
    | InetPayload(port: int, ip: string)
    | NetlinkPayload(pid: int, groups: string)
    | RawPayload(fields: seq<string>)

  datatype SockaddrValue = SockNull | SockFields(family: string, payload: SockPayload)

  /** One `struct pollfd`; `revents` comes from the returned part of the line. */
  datatype PollFd = PollFd(fd: int, events: string, revents: Option<string>)

  datatype ArgumentValue =
    | Int(n: int)
    | Hex(digits: string)
    | FileDescriptor(fd: Fd)
    | Filepath(path: string)
    | Flags(flags: seq<string>)
    | Sockaddr(addr: SockaddrValue)
    | Stat(fields: seq<string>)
    | PollFds(fds: seq<PollFd>)
    | Unimplemented(raw: string)
    | Missing(expected: Param, given: Option<string>)

  /** A constructor's outcome: the value and the tokens left over. */
  type Cast = Result<(ArgumentValue, seq<string>)>

  /** `MissingValue.__eq__`: equal to every other missing value and to nothing
      else; what was expected and what was given play no part. */
  predicate MissingEquals(a: ArgumentValue, b: ArgumentValue) {
    a.Missing? && b.Missing?
  }

  /** Missing values compare equal whatever they hold, and unequal to any
      other value; `__ne__` is the negation. */
  lemma {:induction false} MissingEqualityIgnoresContents(p: Param, q: Param, g: Option<string>, h: Option<string>, v: ArgumentValue)
    ensures MissingEquals(Missing(p, g), Missing(q, h))
    ensures MissingEquals(Missing(p, g), v) <==> v.Missing?
    ensures MissingEquals(v, Missing(p, g)) <==> v.Missing?
  {
  }

  /** `__str__` of a value; None where the source prints a Python list or
      object rather than trace text, or has no `value` to print. */
  function Str(engine: Engine, v: ArgumentValue): Option<string> {
    match v
    case Int(n) => Some(IntToString(n))
    case Hex(h) => Some(h)
    case FileDescriptor(FdNumber(n)) => Some(IntToString(n))
    case FileDescriptor(FdCwd) => Some("AT_FDCWD")
    case Filepath(p) => Some(if engine == Posix then "\"" + p + "\"" else p)
    case Flags(fs) =>
      if engine == Legacy then None
      else if |fs| == 1 then Some(fs[0])
      else Some(Join(fs, "|"))
    case Stat(fields) => if engine == Posix then Some("{" + Join(fields, ", ") + "}") else None
    case Unimplemented(raw) => Some(raw)
    case _ => None
  }

  /** A one-token constructor: the value read from the next token, and the
      tokens after it. */
  function Consume(v: Result<ArgumentValue>, tokens: seq<string>): (r: Cast)
    requires tokens != []
    ensures r.Ok? <==> v.Ok?
    ensures r.Ok? ==> r.value == (v.value, tokens[1..])
    ensures r.Err? ==> r.error == v.error
  {
    var value :- v;
    Ok((value, tokens[1..]))
  }

  // ----- UnimplementedType -----

  /** `UnimplementedType`: keeps the token verbatim, and prints it back. */
  function UnimplementedValue(t: string): (r: ArgumentValue)
    ensures Str(Posix, r) == Some(t) && Str(Legacy, r) == Some(t)
  {
    Unimplemented(t)
  }

  // ----- Int -----

  /** One enclosing pair of square brackets removed: strace prints the
      integer behind a pointer such as `socklen_t *addrlen` as `[n]`. */
  function Unbracket(t: string): (r: string)
    ensures StartsWith(t, "[") && EndsWith(t, "]") && |t| >= 2 ==> "[" + r + "]" == t
    ensures !(StartsWith(t, "[") && EndsWith(t, "]")) ==> r == t
  {
    if StartsWith(t, "[") && EndsWith(t, "]") then Slice(t, 1, -1) else t
  }

  /** `Int` (identical in both engines). */
  function IntValue(t: string): (r: Result<ArgumentValue>)
    ensures r.Ok? ==> r.value.Int?
    ensures r.Ok? <==> ParseInt(Unbracket(t)).Some?
    ensures r.Err? ==> r.error == BadInt
  {
    match ParseInt(Unbracket(t))
    case Some(n) => Ok(Int(n))
    case None => Err(BadInt)
  }

  lemma {:induction false} UnbracketPlain(d: string)
    requires d != [] && d[0] != '['
    ensures Unbracket(d) == d
  {
  }

  lemma {:induction false} UnbracketWrapped(d: string)
    ensures Unbracket("[" + d + "]") == d
  {
    var t := "[" + d + "]";
    assert StartsWith(t, "[") && EndsWith(t, "]");
    assert t[1..|t| - 1] == d;
  }

  /** An integer printed plainly or behind a pointer is read back, and
      printing the value gives the plain token again. */
  lemma {:induction false} IntValueRoundTrip(n: int)
    ensures IntValue(IntToString(n)) == Ok(Int(n))
    ensures IntValue("[" + IntToString(n) + "]") == Ok(Int(n))
    ensures Str(Posix, Int(n)) == Some(IntToString(n))
  {
    ParseIntToString(n);
    var d := IntToString(n);
    UnbracketPlain(d);
    UnbracketWrapped(d);
  }

  // ----- Hex -----

  /** `Hex`: a leading `0x` is dropped, anything else is kept as it is. */
  function HexValue(t: string): (r: ArgumentValue)
    ensures r.Hex?
    ensures StartsWith(t, "0x") ==> "0x" + r.digits == t
    ensures !StartsWith(t, "0x") ==> r.digits == t
  {
    if StartsWith(t, "0x") then
      assert t == t[..2] + t[2..];
      Hex(t[2..])
    else Hex(t)
  }

  /** A hexadecimal address keeps exactly its digits. */
  lemma {:induction false} HexValueRoundTrip(digits: string)
    ensures HexValue("0x" + digits) == Hex(digits)
    ensures Str(Posix, Hex(digits)) == Some(digits)
  {
    var t := "0x" + digits;
    assert StartsWith(t, "0x");
    assert t[2..] == digits;
  }

  // ----- FileDescriptor -----

  /** `FileDescriptor`. The posix engine strips brackets (the two halves of
      a `pipe` array) and accepts `AT_FDCWD`; the legacy engine accepts
      integers only. */
  function FdValue(engine: Engine, t: string): (r: Result<ArgumentValue>)
    ensures r.Ok? ==> r.value.FileDescriptor?
    ensures r.Err? ==> r.error == BadFileDescriptor
    ensures engine == Legacy ==> (r.Ok? <==> ParseInt(t).Some?)
    ensures engine == Legacy && r.Ok? ==> r.value.fd == FdNumber(ParseInt(t).value)
    ensures r.Ok? && r.value.fd == FdCwd ==> engine == Posix
  {
    var u := if engine == Posix then StripChars(t, {'[', ']'}) else t;
    match ParseInt(u)
    case Some(n) => Ok(FileDescriptor(FdNumber(n)))
    case None =>
      if engine == Posix && u == "AT_FDCWD" then Ok(FileDescriptor(FdCwd))
      else Err(BadFileDescriptor)
  }

  lemma {:induction false} IntToStringShape(n: int)
    ensures var d := IntToString(n);
            d != [] && IsDigit(d[|d| - 1]) && (IsDigit(d[0]) || d[0] == '-')
  {
    if n < 0 {
      var d := IntToString(n);
      assert d[1..] == NatToString(-n);
      assert d[|d| - 1] == NatToString(-n)[|d| - 2];
    }
  }

  lemma {:induction false} DigitsUnbracketed(d: string)
    requires d != [] && IsDigit(d[|d| - 1]) && (IsDigit(d[0]) || d[0] == '-')
    ensures StripChars(d, {'[', ']'}) == d
    ensures StripChars("[" + d, {'[', ']'}) == d
    ensures StripChars(d + "]", {'[', ']'}) == d
  {
    var br := {'[', ']'};
    assert d[0] !in br && d[|d| - 1] !in br;
    StripCharsKeep(d, br);
    LStripCharsCons('[', d, br);
    RStripCharsSnoc(d, ']', br);
    assert (d + "]")[0] == d[0];
    assert LStripChars(d + "]", br) == d + "]";
  }

  /** A descriptor token whose bracket-stripped text reads as `n`. */
  lemma {:induction false} FdValueReads(engine: Engine, t: string, n: int)
    requires ParseInt(if engine == Posix then StripChars(t, {'[', ']'}) else t) == Some(n)
    ensures FdValue(engine, t) == Ok(FileDescriptor(FdNumber(n)))
  {
  }

  /** A plainly printed descriptor is read back, and printing it gives the
      token again. */
  lemma {:induction false} FdValueRoundTrip(n: int)
    ensures FdValue(Posix, IntToString(n)) == Ok(FileDescriptor(FdNumber(n)))
    ensures Str(Posix, FileDescriptor(FdNumber(n))) == Some(IntToString(n))
  {
    var d := IntToString(n);
    FdPlainReads(d, n);
    StrOfFd(n);
  }

  lemma {:induction false} StrOfFd(n: int)
    ensures Str(Posix, FileDescriptor(FdNumber(n))) == Some(IntToString(n))
  {
  }

  lemma {:induction false} FdPlainReads(d: string, n: int)
    requires d == IntToString(n)
    ensures FdValue(Posix, d) == Ok(FileDescriptor(FdNumber(n)))
  {
    ParseIntToString(n);
    IntToStringShape(n);
    DigitsUnbracketed(d);
    FdValueReads(Posix, d, n);
  }

  /** The legacy engine reads a plainly printed descriptor too. */
  lemma {:induction false} FdValueLegacyRoundTrip(n: int)
    ensures FdValue(Legacy, IntToString(n)) == Ok(FileDescriptor(FdNumber(n)))
  {
    ParseIntToString(n);
    FdValueReads(Legacy, IntToString(n), n);
  }

  /** The posix engine reads either half of a bracketed pair (the two ends
      of a `pipe` array). */
  lemma {:induction false} FdValueBracketed(n: int)
    ensures FdValue(Posix, "[" + IntToString(n)) == Ok(FileDescriptor(FdNumber(n)))
    ensures FdValue(Posix, IntToString(n) + "]") == Ok(FileDescriptor(FdNumber(n)))
  {
    var d := IntToString(n);
    ParseIntToString(n);
    IntToStringShape(n);
    DigitsUnbracketed(d);
    FdValueReads(Posix, "[" + d, n);
    FdValueReads(Posix, d + "]", n);
  }

  /** `AT_FDCWD` is a posix-engine extension. */
  lemma {:induction false} FdValueCwd()
    ensures FdValue(Posix, "AT_FDCWD") == Ok(FileDescriptor(FdCwd))
    ensures FdValue(Legacy, "AT_FDCWD").Err?
  {
    var t := "AT_FDCWD";
    assert t[0] == 'A' && t[|t| - 1] == 'D';
    StripCharsKeep(t, {'[', ']'});
    ParseIntRejectsLetter(t);
  }

  /** The legacy engine does not strip brackets. */
  lemma {:induction false} FdValueLegacyBracket()
    ensures FdValue(Legacy, "[3]").Err?
  {
    ParseIntRejectsLetter("[3]");
  }

  /** `int()` rejects a token that starts with neither a digit, a sign nor
      whitespace. */
  lemma {:induction false} ParseIntRejectsLetter(t: string)
    requires t != [] && !IsDigit(t[0]) && t[0] != '-' && t[0] != '+' && !IsSpace(t[0])
    requires !IsSpace(t[|t| - 1])
    ensures ParseInt(t).None?
  {
    StripUnspaced(t);
  }

  // ----- Filepath -----

  /** `Filepath`. The posix engine removes the surrounding double quotes
      when the token both starts and ends with one, and fails on an empty
      token (`path[0]` raises); the legacy engine keeps the token. */
  function FilepathValue(engine: Engine, t: string): (r: Result<ArgumentValue>)
    ensures r.Ok? ==> r.value.Filepath?
    ensures r.Err? <==> engine.Posix? && |t| == 0
    ensures r.Err? ==> r.error == BadFilepath
    ensures engine == Legacy ==> r == Ok(Filepath(t))
    ensures r.Ok? && |t| >= 2 && t[0] == '"' && t[|t| - 1] == '"' ==> Str(engine, r.value) == Some(t)
  {
    if engine == Legacy then Ok(Filepath(t))
    else if |t| == 0 then Err(BadFilepath)
    else if t[0] == '"' && t[|t| - 1] == '"' then
      var inner := Slice(t, 1, -1);
      assert |t| >= 2 ==> inner == t[1..|t| - 1] && t == "\"" + inner + "\"";
      Ok(Filepath(inner))
    else Ok(Filepath(t))
  }

  /** A quoted path loses exactly its quotes, whatever it contains, and
      printing puts them back. */
  lemma {:induction false} FilepathValueRoundTrip(path: string)
    ensures FilepathValue(Posix, "\"" + path + "\"") == Ok(Filepath(path))
    ensures Str(Posix, Filepath(path)) == Some("\"" + path + "\"")
  {
    var t := "\"" + path + "\"";
    assert t[1..|t| - 1] == path;
  }

  // ----- Flags -----

  /** `Flags`. In the posix engine a lone all-digit token that is the last
      one left is kept as it is (a flag value strace could not name);
      otherwise the field is split on `|`. `last` says that `t` is the only
      token left. */
  function FlagsValue(engine: Engine, t: string, last: bool): (r: Result<ArgumentValue>)
    ensures r.Ok? ==> r.value.Flags?
    ensures engine == Posix && last && IsDigits(t) ==> r == Ok(Flags([t]))
    ensures t == "0" && (engine == Legacy || !last) ==> r == Ok(Flags([]))
  {
    if engine == Posix && last && IsDigits(t) then Ok(Flags([t]))
    else
      var flags :- StringToFlags(t, engine == Legacy);
      Ok(Flags(flags))
  }

  /** A number is never a symbolic field: it has no `|` to split on. */
  lemma {:induction false} DigitsNotSymbolic(s: string)
    requires IsDigits(s)
    ensures SplitOn(s, "|") == [s]
    ensures !Symbolic(SplitOn(s, "|"))
  {
    forall k | 0 <= k <= |s|
      ensures !OccursAt(s, "|", k)
    {
      if k < |s| {
        assert IsDigit(s[k]);
      }
    }
    SplitOnAbsent(s, "|");
    assert SplitOn(s, "|")[0] == s;
  }

  /** A symbolic flags field keeps its symbols in order, and printing the
      value gives the field back. */
  lemma {:induction false} FlagsValueRoundTrip(engine: Engine, field: string, last: bool)
    requires field != "0" && Symbolic(SplitOn(field, "|"))
    ensures FlagsValue(engine, field, last) == Ok(Flags(SplitOn(field, "|")))
    ensures engine == Posix ==> Str(engine, Flags(SplitOn(field, "|"))) == Some(field)
  {
    StringToFlagsSymbolic(field, engine == Legacy);
    var parts := SplitOn(field, "|");
    if |parts| == 1 {
      assert Join(parts, "|") == parts[0];
    }
    if IsDigits(field) {
      DigitsNotSymbolic(field);
    }
  }

  /** A lone numeric token stays a one-element list in the posix engine. */
  lemma {:induction false} FlagsValueLoneNumber(digits: string)
    requires IsDigits(digits)
    ensures FlagsValue(Posix, digits, true) == Ok(Flags([digits]))
    ensures Str(Posix, Flags([digits])) == Some(digits)
  {
  }

  /** A numeric field with more tokens after it is a mode, read as written:
      it is refused exactly when a digit is 8 or 9, every digit is zero, or a
      7 sits beyond the user digit once the zeros are stripped from both
      ends. Otherwise the symbols name the bits of the last three digits
      left; with at most three left, those bits moved up one octal place
      per trailing zero make up the mode. */
  lemma {:induction false} FlagsValueMode(t: string)
    requires IsDigits(t) && t != "0"
    ensures FlagsValue(Posix, t, false).Err?
            <==> !OctalDigits(t) || (forall i :: 0 <= i < |t| ==> t[i] == '0') || SevenBeyondUser(StripChars(t, {'0'}))
    ensures FlagsValue(Posix, t, false).Ok? ==>
              && OctalDigits(StripChars(t, {'0'}))
              && FlagsToMode(FlagsValue(Posix, t, false).value.flags) == OctalValue(StripChars(t, {'0'})) % 512
    ensures OctalDigits(t) && 1 <= |StripChars(t, {'0'})| <= 3 ==>
              && FlagsValue(Posix, t, false).Ok?
              && FlagsToMode(FlagsValue(Posix, t, false).value.flags) * Pow8(TrailingZeros(t)) == OctalValue(t)
  {
    FlagsValueIsMode(t);
    ModeToFlagsAsWrittenErrIff(t);
    if FlagsValue(Posix, t, false).Ok? {
      StripZerosEmpty(t);
      ModeToFlagsAsWrittenLowBits(t);
    }
    if OctalDigits(t) && 1 <= |StripChars(t, {'0'})| <= 3 {
      ModeToFlagsAsWrittenRoundTrip(t);
    }
  }

  /** Such a field is exactly the mode's expansion. */
  lemma {:induction false} FlagsValueIsMode(t: string)
    requires IsDigits(t) && t != "0"
    ensures FlagsValue(Posix, t, false).Ok? <==> ModeToFlagsAsWritten(t).Ok?
    ensures FlagsValue(Posix, t, false).Ok? ==> FlagsValue(Posix, t, false).value.flags == ModeToFlagsAsWritten(t).value
  {
    DigitsNotSymbolic(t);
    assert [t][1..] == [];
    if ModeToFlagsAsWritten(t).Ok? {
      var m := ModeToFlagsAsWritten(t).value;
      assert ComponentsToFlags([t], false) == Ok(m + []);
      assert m + [] == m;
    }
  }
}
