# posix-omni-parser in Dafny

A model of the core of posix-omni-parser, which reads strace output and turns each line into a typed record of one system call. The pipeline has these parts:

- **Option detection.** The options the trace was recorded with are detected from its first line: pid, timestamp format, instruction pointer, elapsed time and verbosity (`TraceOptions`).
- **Line parsing.** Each line is split into pid, optional columns, call name, argument tokens, return value, error label and elapsed time. A call interrupted by another process is printed as an *unfinished* line and later completed by a *resumed* line. Unfinished calls wait in a pending table keyed by (pid, name) until that happens (`LineParser`).
- **Trace parsing.** The line parser is folded over the lines of a trace (`TraceParser`).
- **Argument splitting.** Arguments are split on `", "`, and the tokens a string literal was broken into are joined back (`QuoteMerge`).
- **Casting.** Each argument token is cast into a typed value according to the syscall's definition: integers, hex numbers, file descriptors, paths, flags, socket addresses, `stat` structures, `pollfd` arrays, and placeholders for missing or unimplemented values. Two engines are modelled:
  - the posix engine of `posix_omni_parser/parsing_classes.py`;
  - the older engine of the top-level `parsing_classes.py`.

  The modules are `Arguments`, `Structures`, `Modes` and `Casting`; `Casting` takes the engine as a parameter.
- **The record.** The `Syscall` record of `posix_omni_parser/Syscall.py` checks the type code, casts the arguments and defines success (`SyscallRecord`).

Python's mutating "pop the next token" style becomes an immutable token sequence: every constructor returns its value together with the tokens it left. Exceptions become `Err` values of a `Result`. The three regular expressions of the line parser are written out as matcher functions (`Patterns`): a greedy `(.*)` group ends at the last position where the rest of the pattern matches. Python string methods (`strip`, `split`, `find`, `rfind`, `isdigit`, `int`, …) are modelled in `Text`.

The loop over a definition's parameters (`CastParams`) takes the cast of one parameter as a function argument. `CastArgs` passes `CastStep`, the real cast; the loop's lemmas hold for any cast with the same basic facts (`Lawful`).

Where the source has a defect (see "## Findings"), the operations follow the code as written: the greedy first-line pattern, `strip("0")` on modes, and the `SockPath` labels and `NULL` test. The corrected definitions (`DetectFirstBracket`, `ModeToFlags`, `SockPath`, `MakeSyscall`) sit beside them, with the intended property proved of each, and rows that state them say "corrected".

## Model

| member | source | states |
|---|---|---|
| QuoteMerge.EndsInUnescapedQuoteIff | strace_parser.py:709-715 | a string ends in an unescaped quote iff its last character is `"`, a non-backslash character comes before the run of backslashes in front of that quote, and the run has even length |
| QuoteMerge.ScanBackRun | posix_omni_parser/parsers/Parser.py:116-127 | the backwards scan over Python's negative indices answers, at the first non-backslash, exactly "the backslash run is even"; it answers false when no such character exists |
| QuoteMerge.MergeQuoteArgs | strace_parser.py:691-706 | lists of at most one token come back unchanged; the result is never longer than the input; joining it with `", "` gives the same text as joining the input; every quote-opening token except possibly the last is closed |
| QuoteMerge.MergeFromJoin | posix_omni_parser/parsers/Parser.py:101-113 | the merge loop never changes the `", "`-joined text |
| QuoteMerge.MergeFromSettled | posix_omni_parser/parsers/Parser.py:105-108 | after the loop, every quote-opening token but the last ends in an unescaped quote once `.` truncation marks are stripped |
| QuoteMerge.MergeQuoteArgsIdempotent | posix_omni_parser/parsers/Parser.py:98-113 | merging an already merged list changes nothing |
| QuoteMerge.MergeQuoteArgsUnquoted | posix_omni_parser/parsers/Parser.py:105-108 | merging starts only at tokens that begin with `"`, so a list with no such token is left alone |
| QuoteMerge.MergeUnmatchedQuote | posix_omni_parser/parsers/Parser.py:106-110 | a first token with an unmatched opening quote absorbs every following token |
| QuoteMerge.AbsorbUnclosed | posix_omni_parser/parsers/Parser.py:106-110 | the inner loop absorbs all following tokens while the accumulated token stays unclosed |
| LineParser.ParseArgs | strace_parser.py:559-569 | the result is empty iff the blob is empty after stripping whitespace and trailing commas; otherwise joining the result with `", "` gives the stripped blob, and the result is never longer than the naive split |
| LineParser.ParseArgsPrinted | strace_parser.py:559-569 | printing arguments that contain no `", "` and are not quote-opening and then parsing them gives them back |
| LineParser.SplitOnJoin | strace_parser.py:569 | splitting a `", "`-joined list of separator-free tokens gives the list back |
| LineParser.FixArgs | strace_parser.py:573-604 | the second argument of a `shutdown…` call becomes `SHUT_RD`, `SHUT_WR` or `SHUT_RDWR` by its first digit, and nothing else changes; this raises when the digit or the argument is missing; a `restart_syscall…` call loses its arguments; every other call's arguments are unchanged |
| LineParser.ShutdownPrinted | strace_parser.py:588-594 | `shutdown(fd, N /* note */)` with N in 0..2 gets the Nth flag as its second argument |
| LineParser.ReadReturn | strace_parser.py:507-543 | the return token must be all digits, `-1`, `?`, or start with `0x`, otherwise an error; exactly the digit tokens and `-1` become integers, with their decimal value; other tokens are kept verbatim; a label is present only after `-1` or `?`, and is always `E…` and upper case; after `-1` a label is required |
| LineParser.ReadLabel | strace_parser.py:520-525 | fewer than two words after `-1` is an error; otherwise the first word is a valid error label and the remainder starts with a non-space |
| LineParser.ReadReturnError | strace_parser.py:520-525 | `-1 ELABEL description` reads as (-1, ELABEL) and leaves the description |
| LineParser.ReadReturnUnreturned | strace_parser.py:532-538 | `? ELABEL description` reads as ("?", ELABEL) and leaves the description |
| LineParser.ReadReturnNumber | strace_parser.py:511-512 | a non-negative decimal return reads as that number with no label |
| LineParser.ElapsedSliceOf | strace_parser.py:549-551 | the elapsed time is the text between the last `<` and the last `>` |
| LineParser.FirstPending | strace_parser.py:457-462 | the index found is the first pending entry with the line's pid and name; every earlier entry differs |
| LineParser.Remove | strace_parser.py:471 | removing entry i keeps the entries before i and shifts the later ones down by one |
| LineParser.MatchUnfinished | strace_parser.py:70 | a match splits the line into a name without `(`, the bracket, and the argument text up to the last `<unfinished ` |
| LineParser.MatchUnfinishedOf | strace_parser.py:70 | an unfinished line as strace prints it matches with its name and argument text |
| LineParser.MatchResumed | strace_parser.py:71 | a match starts with `<... `, then a space-free name, then ` resumed> ` |
| LineParser.MatchResumedOf | strace_parser.py:71 | a resumed line as strace prints it matches with its name, arguments, return value and trailer |
| LineParser.MatchCompleted | strace_parser.py:72 | a match's name is the text before the first `(` |
| LineParser.MatchCompletedOf | strace_parser.py:72 | a completed line as strace prints it matches with its name, arguments, return value and trailer |
| LineParser.ReadHead | strace_parser.py:381-405 | the pid is all digits, and the timestamp and instruction-pointer columns are present exactly when the options say so |
| LineParser.ReadHeadPrinted | strace_parser.py:381-405 | the pid, timestamp and bracketed instruction pointer as strace prints them are read back, with the pointer's brackets stripped |
| LineParser.SignalLineSkipped | strace_parser.py:386-391 | a line whose text after the pid starts with `+++` or `---` produces nothing and leaves the pending table alone |
| LineParser.Finish | strace_parser.py:543-555 | a finished call keeps its pid, columns, name and type; its arguments are the fixed-up ones; its elapsed time is present iff the option is on and the return is not `("?", None)` |
| LineParser.ParseCall | strace_parser.py:426-486 | an `<unfinished ...` line appends exactly one pending entry (pid, name, args) and has no return and no elapsed time; a ` resumed>` line removes the first matching pending entry; any other line is completed and leaves the table alone |
| LineParser.ParseLine | strace_parser.py:346-555 | a skipped line leaves the table alone; a parsed line has a numeric pid; an unfinished line appends its entry, a resumed line shrinks the table by one, and a completed line leaves it unchanged |
| LineParser.UnfinishedPrinted | strace_parser.py:426-443 | an unfinished line gives type unfinished, no return, no elapsed time and the parsed arguments; it appends exactly one pending entry with the same pid, name and arguments |
| LineParser.ResumedPrinted | strace_parser.py:445-472 | a resumed line removes the first pending entry with its pid and name, and only that entry; its arguments are the saved arguments followed by the new ones |
| LineParser.DanglingResumeFails | strace_parser.py:466-468 | a resumed line with no pending entry for its pid and name is an error |
| LineParser.UnfinishedThenResumed | strace_parser.py:426-472 | an unfinished line followed by its resumed line restores the pending table; the call's arguments are those printed before the interruption followed by those printed after it |
| LineParser.CompletedPrinted | strace_parser.py:474-486 | a completed line is finished from its name, parsed arguments and return part, and leaves the pending table alone |
| LineParser.CompletedRoundTrip | strace_parser.py:474-555 | a completed call printed with a numeric return parses back to exactly its name, arguments and return value |
| LineParser.CompletedLineRoundTrip | strace_parser.py:346-555 | a whole completed line (pid, optional columns and call) parses back to the record it was printed from |
| TraceParser.ParseTrace | strace_parser.py:311-342 | a parse of n lines yields at most n calls, each with a numeric pid; the pending table's size equals the number of unfinished calls minus the number of resumed ones |
| TraceParser.FoldBalanced | strace_parser.py:325-337 | folding any step that keeps the table balanced line by line keeps the whole trace balanced |
| TraceParser.FoldAppend | strace_parser.py:325-337 | parsing two pieces of a trace in turn is parsing their concatenation: only the pending table is carried from line to line |
| TraceParser.BlankLineIgnored | strace_parser.py:326-330 | a blank line anywhere in a trace changes nothing |
| TraceOptions.DetectTraceOptions | strace_parser.py:76-307 | a successful detection always reports -v, -o and -f |
| TraceOptions.DetectRendered | strace_parser.py:161-305 | a first `execve` line rendered with any combination of pid, -t/-tt/-ttt/-r stamp, -i pointer and -T time, whose parameters hold no `(`, is detected as exactly those options |
| TraceOptions.DetectAbbreviated | strace_parser.py:294-295 | parameters with no `(` that contain both `[/*` and `*/]` mean -v was not used, which is an error |
| TraceOptions.DetectWithoutPid | strace_parser.py:176-186 | a front that is a single token (no pid column), before parameters with no `(`, is an error |
| TraceOptions.GreedyParamsBracketFree | strace_parser.py:161 | the greedy first group leaves no `(` in the parameters group, except possibly as its last character |
| TraceOptions.GreedyAgrees | strace_parser.py:161 | when the parameters read up to the first bracket hold no `(`, the greedy pattern splits the line the same way |
| TraceOptions.FirstBracketAgrees | strace_parser.py:161 | when the greedy front holds no `(`, splitting at the first bracket gives the same parts |
| TraceOptions.DetectFirstBracketRendered | strace_parser.py:161-305 | corrected, with the first group ending at the first bracket, a rendered first line is detected as exactly its options whatever its parameters hold |
| TraceOptions.ReadFront | strace_parser.py:172-246 | an accepted front has 2 to 4 tokens, a numeric pid first and `execve` last; every token between them is accounted for by an option |
| TraceOptions.FrontOptions | strace_parser.py:205-246 | a bracketed last column means -i, and the columns read are exactly the ones the options account for |
| TraceOptions.TimestampOf | strace_parser.py:214-238 | a column is an error exactly when it has no `:` and either no `.` (the assert at :224) or no integer before its first `.` (the `int()` at :227); a clock format (-t or -tt) is chosen exactly when it has a `:`; epoch and relative stamps contain a `.` |
| TraceOptions.TimestampOfStamp | strace_parser.py:214-238 | `hh:mm:ss` reads as -t, `hh:mm:ss.us` as -tt, a number above 1371488434 as -ttt, and other numbers as -r |
| TraceOptions.ElapsedFacts | strace_parser.py:303-305 | the elapsed-time option is recognised iff the text after the return contains both `<` and `>` |
| TraceOptions.DetectWith | strace_parser.py:92-94 | a line without `(`, `)` or `=` is refused |
| TraceOptions.FirstBracketReadsName | strace_parser.py:161-172 | with the name read up to the first bracket, `1 execve("(") = 0` is detected as a plain trace |
| TraceOptions.GreedyFrontMisreadsName | strace_parser.py:161 | as written, the greedy first group swallows the `(` inside the parameters, and `1 execve("(") = 0` is refused as not an execve |
| Modes.ModeToFlagsAsWrittenRoundTrip | posix_omni_parser/parsing_classes.py:610-665 | as written, for an octal mode with one to three digits left once zeros are stripped from both ends, the symbols' permission bits, moved up one octal place per trailing zero, add up to the mode's value; a mode not ending in zero reads back exactly |
| Modes.ModeToFlagsAsWrittenErrIff | posix_omni_parser/parsing_classes.py:614-664 | as written, for any digit string, a mode fails exactly when one of its digits is 8 or 9, all of its digits are zero, or a 7 sits more than three places from the end once zeros are stripped from both ends (the lookup `mode_flags[7 * entity_position]` has no entry) |
| Modes.ModeToFlagsAsWrittenLowBits | posix_omni_parser/parsing_classes.py:614-665 | as written, for any octal mode that does not fail, the symbols name the permission bits of the last three digits left after stripping (a higher digit other than 7 adds no symbol, so `4755` reads as `755`), and those digits moved up one octal place per trailing zero make up the mode |
| Modes.ModeToFlagsRoundTrip | posix_omni_parser/parsing_classes.py:610-665 | corrected (only leading zeros stripped), for an octal mode of at most three significant digits, the permission bits of the symbols add up to the mode's octal value |
| Modes.ModeToFlagsErrIff | posix_omni_parser/parsing_classes.py:642-664 | corrected, for any digit string, a mode fails exactly when one of its digits is 8 or 9 or a 7 sits more than three places from the end of its significant digits; a mode of zeros gives no symbols |
| Modes.ModeToFlagsLowBits | posix_omni_parser/parsing_classes.py:642-665 | corrected, for any octal mode that does not fail, the permission bits of the symbols are the mode's value modulo `0o1000`: digits beyond the user digit are dropped |
| Modes.DigitsToFlagsErrIff | posix_omni_parser/parsing_classes.py:642-664 | the digit loop fails exactly on a digit above 7 or on a 7 beyond the user digit |
| Modes.DigitFlagsBits | posix_omni_parser/parsing_classes.py:652-662 | each digit gives symbols whose bits add up to the digit at its position (user, group, other) |
| Modes.DigitFlags | posix_omni_parser/parsing_classes.py:649-662 | a digit greater than 7 is an error; a 7 gives the combined `S_IRWX?` symbol |
| Modes.ModeAllPermissions | posix_omni_parser/parsing_classes.py:634-635 | 777 gives the single symbol `S_IRWXA` |
| Modes.ModeTrailingZeroShift | posix_omni_parser/parsing_classes.py:614 | as written, 640 gives the symbols of 064, and 00 is an error |
| Modes.ModeKeepsPlaceValues | posix_omni_parser/parsing_classes.py:610-665 | corrected, 640 gives `S_IRUSR, S_IWUSR, S_IRGRP`, and 00 gives no symbols |
| Modes.StringToFlagsSymbolic | posix_omni_parser/parsing_classes.py:583-607 | a symbolic flag string is split on `|`, in order, and joins back to itself |
| Modes.LegacyStringToFlagsErrIff | parsing_classes.py:269-301 | in the legacy engine, a flag string other than `0` fails exactly when one of its components is numeric, because `strip(0)` raises |
| Arguments.IntValueRoundTrip | posix_omni_parser/parsing_classes.py:103-119 | an integer, bare or in one pair of brackets, reads back as itself and prints as its decimal text |
| Arguments.IntValue | posix_omni_parser/parsing_classes.py:103-119 | an integer value is read exactly when the token, with one pair of enclosing brackets removed, parses as an integer |
| Arguments.HexValue | posix_omni_parser/parsing_classes.py:122-130 | a leading `0x` is dropped and otherwise the token is kept |
| Arguments.HexValueRoundTrip | posix_omni_parser/parsing_classes.py:122-130 | `0x` followed by digits reads as those digits |
| Arguments.FdValue | posix_omni_parser/parsing_classes.py:133-146 | a file descriptor is a number or, in the posix engine only, `AT_FDCWD`; the legacy engine reads exactly the tokens that parse as integers |
| Arguments.FdValueRoundTrip | posix_omni_parser/parsing_classes.py:133-146 | a printed descriptor number reads back as itself |
| Arguments.FdValueBracketed | posix_omni_parser/parsing_classes.py:136-137 | the posix engine strips `[` and `]` around a descriptor |
| Arguments.FdValueCwd | posix_omni_parser/parsing_classes.py:139-145 | `AT_FDCWD` is accepted by the posix engine and refused by the legacy one |
| Arguments.FdValueLegacyBracket | parsing_classes.py:90-98 | the legacy engine does not strip brackets, so `[3]` is an error |
| Arguments.FdValueLegacyRoundTrip | parsing_classes.py:90-98 | the legacy engine reads a printed descriptor number back as itself |
| Arguments.FilepathValue | posix_omni_parser/parsing_classes.py:233-243 | the posix engine removes the quotes only when both ends are `"` and refuses an empty token; the legacy engine keeps the token verbatim; a quoted path prints back as the token |
| Arguments.FilepathValueRoundTrip | posix_omni_parser/parsing_classes.py:233-243 | a quoted path reads as the path and prints back with its quotes |
| Arguments.FlagsValue | posix_omni_parser/parsing_classes.py:246-259 | a lone last all-digit token is kept as is; `0` gives no flags |
| Arguments.FlagsValueRoundTrip | posix_omni_parser/parsing_classes.py:246-259 | a symbolic flag string splits on `|` and prints back as itself |
| Arguments.FlagsValueMode | posix_omni_parser/parsing_classes.py:598-602 | a numeric field other than `0` with tokens after it is a mode read as written: it is refused exactly when `_mode_to_flags` raises (a digit 8 or 9, all zeros, or a 7 beyond the user digit); otherwise its symbols name the bits of the last three digits left, and with at most three left those bits, moved up one octal place per trailing zero, add up to the mode's value |
| Arguments.FlagsValueLoneNumber | posix_omni_parser/parsing_classes.py:248-251 | a remaining list of exactly one all-digit token is kept as that token |
| Arguments.MissingEqualityIgnoresContents | posix_omni_parser/parsing_classes.py:69-75 | missing values are equal whatever they expected or were given, and unequal to any other value |
| Structures.Frame | posix_omni_parser/parsing_classes.py:458-476 | a structure spans from the `{` token through the first later token ending in `}`, and exists iff both are there |
| Structures.SockFamily | posix_omni_parser/parsing_classes.py:262-280 | the family is the text after `sa_family=` and starts with `AF_` or `PF_`, otherwise an error |
| Structures.SockFamilyRoundTrip | posix_omni_parser/parsing_classes.py:262-280 | a printed family reads back as itself |
| Structures.SockPortRoundTrip | posix_omni_parser/parsing_classes.py:282-303 | `sin_port=htons(N)` reads back as N |
| Structures.SockIpRoundTrip | posix_omni_parser/parsing_classes.py:305-329 | an address accepted by the address check reads back from `sin_addr=inet_addr("…")}` |
| Structures.SockPathAsWritten | posix_omni_parser/parsing_classes.py:348-361 | as written, in both engines: exactly the token `NULL` is unnamed, a `path=@"` token is labelled pathname and any other `path=` token abstract, `sun_path=` is accepted by the posix engine only, and every other token is an error |
| Structures.SockPath | posix_omni_parser/parsing_classes.py:331-373 | corrected: `NULL` and `NULL}` are unnamed, `path=@"…"` is abstract, `path="…"` is a pathname, `sun_path="…"` is posix only, and anything else is an error |
| Structures.SockPathRoundTrip | posix_omni_parser/parsing_classes.py:348-358 | as written, each form reads back its path with the source's label: `NULL` unnamed, `path="…"` abstract, `path=@"…"` pathname, `sun_path="…"` sun |
| Structures.SockPathCorrectedRoundTrip | posix_omni_parser/parsing_classes.py:348-358 | corrected, `NULL}` is unnamed, `path="…"` a pathname and `path=@"…"` abstract, each with its path |
| Structures.SockPathNullBrace | posix_omni_parser/parsing_classes.py:348 | as written, the `NULL}` token the framing hands over is refused and `path="…"` is labelled abstract; corrected, it is unnamed and a pathname |
| Structures.SockDataRoundTrip | posix_omni_parser/parsing_classes.py:375-389 | `sa_data="…"}` reads back its data |
| Structures.SockPidRoundTrip | posix_omni_parser/parsing_classes.py:391-407 | `pid=N` reads back as N |
| Structures.SockNlPidRoundTrip | posix_omni_parser/parsing_classes.py:391-407 | `nl_pid=N` reads back as N |
| Structures.SockGroupsRoundTrip | posix_omni_parser/parsing_classes.py:409-425 | `groups=…}` reads back its groups |
| Structures.SockaddrValueOf | posix_omni_parser/parsing_classes.py:427-524 | a `0x…` token gives no value and consumes nothing; a bare `0` gives `NULL` (posix engine); otherwise the structure is consumed and at least one token is used; the legacy engine yields only paths or port and address |
| Structures.PosixPayload | posix_omni_parser/parsing_classes.py:478-524 | `_FILE`/`_LOCAL` families give a path, `_INET` gives port and address from exactly two fields, and other families keep the raw fields |
| Structures.LegacyPayload | parsing_classes.py:244-265 | a `_FILE` family gives exactly one path field and any other gives exactly a port and an address; leftover fields are an error |
| Structures.SockaddrInetRoundTrip | posix_omni_parser/parsing_classes.py:427-524 | an `AF_INET` address as strace prints it reads back its family, port and address, consuming exactly its tokens |
| Structures.SockaddrPathRoundTrip | posix_omni_parser/parsing_classes.py:427-524 | a local-socket address with a path reads back its family and path, labelled as the source labels it: `path="…"` abstract, `path=@"…"` pathname |
| Structures.SockaddrUnnamed | posix_omni_parser/parsing_classes.py:348-361 | in both engines (the legacy test is at parsing_classes.py:192-202), `{sa_family=AF_FILE, NULL}` is refused: the path parser receives `NULL}`, which is not `NULL` |
| Structures.SockaddrNetlinkRoundTrip | posix_omni_parser/parsing_classes.py:427-524 | a netlink address reads back its pid and groups |
| Structures.SockaddrUnspecRoundTrip | posix_omni_parser/parsing_classes.py:427-524 | an unspecified-family (`_UNSPEC`) address reads back its data |
| Structures.MergeMakedev | posix_omni_parser/parsing_classes.py:553-559 | the first `st_dev=makedev(` field is rejoined with its successor; the `", "`-joined text is unchanged, and at most one field disappears |
| Structures.StatFields | posix_omni_parser/parsing_classes.py:550-568 | a stat structure has exactly 15 fields, otherwise an error; its joined text is the structure's text without braces |
| Structures.StatValue | posix_omni_parser/parsing_classes.py:527-568 | a `0x…` token gives no value and consumes nothing; otherwise 15 fields are read and the structure's tokens are consumed |
| Structures.StatPrintsBack | posix_omni_parser/parsing_classes.py:570-574 | a stat value prints back as the text of the tokens it was read from |
| Structures.PollFdsValue | posix_omni_parser/parsing_classes.py:170-231 | a pollfd array must start with `[{fd=`; it yields at least one entry and consumes at least one token |
| Structures.PollFdsRoundTrip | posix_omni_parser/parsing_classes.py:170-231 | a non-empty array of pollfd entries, with or without `revents`, as strace prints it reads back exactly, consuming exactly its tokens |
| Casting.PosixKind | posix_omni_parser/parsing_classes.py:668-748 | the posix dispatch is total except for a non-pointer pollfd: untyped gives Unimplemented; named `char*` gives Filepath; pollfd pointer gives PollFDPointer; `sockaddr` gives Sockaddr; a stat struct gives Stat |
| Casting.PosixNumberKind | posix_omni_parser/parsing_classes.py:695-730 | for number types the checks run in order: `fd` gives FileDescriptor; a flag-like name or socket `type` gives Flags; a pointer, `off_t` or `size_t` gives Hex; a non-numeric next token gives Flags; otherwise Int |
| Casting.LegacyKind | parsing_classes.py:346-386 | the legacy dispatch never yields Hex, Stat or pollfd; an untyped parameter is an error |
| Casting.LegacyKindFollowsPosix | parsing_classes.py:346-386 | for a typed parameter the legacy engine picks what the posix engine picks, except that Hex becomes Int, the posix-only structures become Unimplemented, and a number the posix engine reads as Flags only because its next token is not all digits (posix_omni_parser/parsing_classes.py:726-727) stays Int; legacy Flags always means posix Flags |
| Casting.CastArg | posix_omni_parser/parsing_classes.py:751-772 | with no tokens left, the parameter is missing with nothing given; a structure printed as an address is missing with that address given and consumes nothing; any other value consumes at least one token |
| Casting.MissingAddressStays | posix_omni_parser/parsing_classes.py:763-770 | a `sockaddr` or `stat` printed as an address becomes a missing value that keeps the address and leaves it in place |
| Casting.CastStep | posix_omni_parser/parsing_classes.py:751-772 | the cast of one parameter keeps the facts the loop relies on: with no tokens it is missing with nothing given and consumes nothing; otherwise it leaves a suffix of the tokens, and a missing value names its parameter and has something given |
| Casting.CastParams | posix_omni_parser/parsing_classes.py:792-808 | for any such cast: a finished call gets one value per parameter; an unfinished call stops when the tokens run out; missing values name their parameter; an unfinished call's missing values always carry a given token |
| Casting.CastParamsPrefix | posix_omni_parser/parsing_classes.py:792-808 | in a finished call, parameter k is missing with nothing given exactly when the parameters before it used up every token |
| Casting.ExhaustedAllMissing | posix_omni_parser/parsing_classes.py:794-808 | once a finished call's tokens run out, every remaining parameter is missing with nothing given |
| Casting.LeftoversPrint | posix_omni_parser/parsing_classes.py:816-819 | every leftover token becomes one unimplemented value that prints as that token, in order, in both engines |
| Casting.FindDefinition | posix_omni_parser/parsing_classes.py:784-788 | the definition used is the first one whose name matches (the posix engine also accepts the name with `_` stripped) |
| Casting.CastArgs | posix_omni_parser/parsing_classes.py:775-823 | an unknown syscall is an error |
| Casting.CastArgsFinished | posix_omni_parser/parsing_classes.py:775-823 | a finished call's arguments number the parameters of the first matching entry plus the tokens no parameter consumed; the first are the loop's values and each of the rest is an unimplemented value holding its token |
| Casting.CastArgsMissingAt | posix_omni_parser/parsing_classes.py:792-823 | in a finished call's arguments, value k names parameter k when it is missing, and is missing with nothing given exactly when the parameters before k used up every token |
| Casting.CastArgsNoTokens | posix_omni_parser/parsing_classes.py:792-823 | a finished call with no argument tokens gets one missing value with nothing given per parameter |
| Casting.UnfinishedNoTokens | posix_omni_parser/parsing_classes.py:798-808 | a call tagged `unfinished` with no argument tokens gets no values |
| Casting.UndefinedKeepsTokens | posix_omni_parser/parsing_classes.py:793-819 | in the posix engine, a definition without parameters leaves every token unimplemented |
| Casting.LegacyNeedsDefinition | parsing_classes.py:420-427 | in the legacy engine, a definition without parameters is an error |
| SyscallRecord.Build | posix_omni_parser/Syscall.py:113-183 | the type code must be 0, 1 or 2; arguments are absent iff the name contains `syscall_`; pid, name, return, timestamp, pointer and elapsed time are carried over unchanged |
| SyscallRecord.MakeSyscallAsWritten | posix_omni_parser/Syscall.py:163-168 | as written: a bad type code is an error, and arguments are absent iff the name contains `syscall_` |
| SyscallRecord.MakeSyscall | posix_omni_parser/Syscall.py:146-183 | corrected (the type's name reaches `cast_args`): a bad type code is an error, and arguments are absent iff the name contains `syscall_` |
| SyscallRecord.UnfinishedPaddedAsWritten | posix_omni_parser/Syscall.py:163-168 | as written, an unfinished call that printed no arguments gets one missing value per parameter |
| SyscallRecord.UnfinishedStops | posix_omni_parser/Syscall.py:163-168 | corrected, the same call gets no arguments |
| SyscallRecord.UnfinishedNeverPads | posix_omni_parser/parsing_classes.py:798-806 | corrected, an unfinished call's arguments never hold a missing value with nothing given |
| SyscallRecord.IsSuccessful | posix_omni_parser/Syscall.py:185-190 | a record without a return part raises |
| SyscallRecord.SuccessOfPrinted | posix_omni_parser/Syscall.py:185-190 | for a return read from a trace line, the call succeeded iff the printed token is neither `-1` nor `?`; any error label means failure |
| SyscallRecord.SameCallEquivalence | posix_omni_parser/Syscall.py:40-48 | unfinished-call equality is an equivalence that compares only pid and name; `!=` is its negation |

## Left out

- Reading the trace file is left out. Option detection takes the first line as a string. The parse takes the trace as a sequence of lines without their newlines, so `.` in the line patterns is any character.
- The float conversion of the elapsed time is left out; the model keeps the text between the last `<` and the last `>`.
- `socket.inet_aton` is a foreign call. It is a parameter `ipOk: string -> bool`, a predicate the model does not interpret.
- `parse_trace` wraps each line's parts in the `Syscall` record of the top-level `syscall.py`, which is not part of this model. `TraceParser.ParseTrace` returns the line parts themselves.
- The trace coordinators `trace.py` and `posix_omni_parser/Trace.py`, the checkapi plugin, `simplefs`, `TrussParser.py`, `ASTParser.py`, the top-level `Syscall.py`/`syscall.py` records and `setup.py` are not part of this model.
  - They are file, pickle, environment and command-line plumbing.
  - The definition catalog they load is an input: a sequence of definitions, each with a name and optional parameters (name, optional type, pointer, struct).
- Debug printing, `__repr__` strings and the legacy dispatcher's stderr note are left out, because they do not affect any value.
- The ordering operators of `MissingValue` are left out, because they always raise; only equality is modelled.
- `isdigit`, `isupper`, `int()` and `str.split()` are modelled on ASCII digits and letters and on CPython's ASCII whitespace set. Unicode digits and letters are out of scope.
- `cast_args` copying its input list needs no statement: token sequences are immutable.
- A `line_parts` dictionary without a `return` key makes posix_omni_parser/Syscall.py:170 raise `KeyError`. The model's `PosixParts` always carries that field, so this error is not represented; the other optional keys (timestamp, instruction pointer, elapsed time, :177-183) are `Option`s.
- TraceOptions.TimestampOf: a clock stamp's fields are not range-checked, exactly as the source does not check them; only the column shapes strace prints are proved to be read back.
- TraceOptions.DetectTraceOptions: its own contract states only that -v, -o and -f are reported. Exactly what it detects is stated by the lemmas on rendered first lines (`DetectRendered`, `DetectAbbreviated`, `DetectWithoutPid`), for parameters without `(`. With a `(` in the parameters the greedy first group misreads the name; `GreedyParamsBracketFree`, `GreedyAgrees` and `GreedyFrontMisreadsName` state what it does then.
- LineParser.ParseLine: for a resumed line the contract states only that the table shrinks by one. Which entry is removed and which arguments result is stated by `ParseCall`, `ResumedPrinted` and `UnfinishedThenResumed`.
- Casting.CastArgs: its own contract states only the unknown-syscall error. Its shape is stated by `CastArgsFinished`, `CastArgsMissingAt`, `CastArgsNoTokens` and `UnfinishedNoTokens`, for the same cast of each parameter (`CastStep`).
- SyscallRecord.IsSuccessful: its contract states only the raising case. The success condition in terms of the printed token is `SuccessOfPrinted`.
- LineParser.CompletedLineRoundTrip: the round trip covers numeric returns. Error labels and `?` returns are covered separately by `ReadReturnError` and `ReadReturnUnreturned`.

## Findings

| source | as written | input that shows it | evidently intended | confidence | as-written member | corrected member |
|---|---|---|---|---|---|---|
| posix_omni_parser/parsing_classes.py:614 | `str(mode).strip("0")` removes trailing zeros as well as leading ones | mode `640` gives the symbols of `064` (`S_IRGRP, S_IWGRP, S_IROTH`); mode `00` raises | strip only leading zeros, so each digit keeps its place (user, group, other) | high, not executed | Modes.ModeTrailingZeroShift | Modes.ModeKeepsPlaceValues |
| posix_omni_parser/parsing_classes.py:348 | the unnamed test compares with `NULL`, but the framing hands over `NULL}`; and `path="…"` is labelled abstract while `path=@"…"` is labelled pathname | `{sa_family=AF_FILE, NULL}` is refused | accept `NULL}` as unnamed; label `@` paths abstract and plain paths pathname | medium, not executed | Structures.SockPathNullBrace | Structures.SockPathCorrectedRoundTrip |
| posix_omni_parser/Syscall.py:163-168 | the integer type code (0, 1, 2) is passed to `cast_args`, which tests it against the string `"unfinished"` | an unfinished call with no printed arguments gets one `MissingValue` per parameter instead of none | pass the type's name, so unfinished calls stop casting where their tokens end | high, not executed | SyscallRecord.UnfinishedPaddedAsWritten | SyscallRecord.UnfinishedStops |
| strace_parser.py:161 | the greedy `(.+)\(` group ends at the last `(` that still leaves a match, not at the first | first line `1 execve("(") = 0` reads the name `execve("` and is refused as not an execve | the group ends at the first bracket, as the variable name `upto_first_bracket_string` says and as the line parser's `[^(]+` does | medium, not executed | TraceOptions.GreedyFrontMisreadsName | TraceOptions.FirstBracketReadsName |
