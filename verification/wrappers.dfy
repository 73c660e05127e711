/** Failure-carrying result types shared by every module of the parser model,
    and the closed set of errors the parser can raise. */
module Wrappers {

  datatype Option<+T> = None | Some(value: T)

  /** Every exception the trace parser raises, by cause. */
  datatype Error =
    // option detection from the first trace line
    | NoCallStructure      // the line lacks '(' or ')' or '='
    | BadFirstLine         // the first line does not have the `name(args) = n` shape
    | BadFrontPart         // fewer than one or more than four tokens before the call
    | PidOptionMissing     // only the call name precedes the '(' (no -f)
    | BadPid               // the pid column is not all digits
    | BadTimestamp         // a timestamp column that is neither -t/-tt nor -r/-ttt
    | BadInstPointer       // a column that should be a bracketed instruction pointer
    | LeftoverOptions      // unexplained columns before the call name
    | NotExecve            // the first call is not execve
    | VerboseMissing       // abbreviated environment: -v was not used
    // line tokenizer
    | MissingField         // a whitespace split found fewer fields than required
    | BadUnfinishedLine
    | BadResumedLine
    | BadCompletedLine
    | DanglingResume       // a resumed line without a pending unfinished call
    | BadReturn
    | BadErrorLabel
    | BadShutdownArg
    // argument casting
    | UnknownSyscall       // no definition matches the call name
    | NoDefinition         // the matching entry carries no parameter list (legacy engine)
    | UntypedParameter     // a parameter without a type (legacy engine)
    | NonPointerPollfd
    | BadInt
    | BadFileDescriptor
    | BadFilepath
    | BadPollFd
    | BadMode
    | BadSockaddr          // framing: no '{' or no closing '}' token
    | BadSockFamily
    | BadSockPath
    | BadSockPort
    | BadSockIp
    | BadSockData
    | BadSockPid
    | BadSockGroups
    | BadStat
    // record construction
    | BadSyscallType
    | NoReturn             // success asked of a call that has no return part

  datatype Result<+T> = Ok(value: T) | Err(error: Error) {
    predicate IsFailure() { Err? }

    function PropagateFailure<U>(): Result<U>
      requires Err?
    {
      Err(error)
    }

    function Extract(): T
      requires Ok?
    {
      value
    }
  }
}
