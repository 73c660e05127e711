/** The structure constructors of the casting engines: `Sockaddr` with its
    field parsers, `Stat` and `PollFDPointer`. A structure spans several
    tokens of the comma-split argument list; each constructor takes the
    remaining tokens and returns what it read together with the tokens it
    left. A value of None means the structure was not dereferenced (strace
    printed its address instead), which the caller turns into a missing
    value. */
module Structures {
  import opened Wrappers
  import opened Text
  import opened Arguments

  // ----- Brace framing -----

  /** The first token at or after `i` that ends with `}`. */
  function Closing(tokens: seq<string>, i: nat): (r: Option<nat>)
    requires i <= |tokens|
    ensures r.Some? ==> i <= r.value < |tokens| && EndsWith(tokens[r.value], "}")
    ensures forall k :: i <= k < |tokens| && (r.None? || k < r.value) ==> !EndsWith(tokens[k], "}")
    decreases |tokens| - i
  {
    if i == |tokens| then None
    else if EndsWith(tokens[i], "}") then Some(i)
    else Closing(tokens, i + 1)
  }

  /** The tokens of one brace-delimited structure: an opening token that
      starts with `{`, then every token up to and including the first later
      one that ends with `}`. None where the source's assertion fails or its
      `pop` runs out of tokens. */
  function Frame(tokens: seq<string>): (r: Option<(seq<string>, seq<string>)>)
    requires tokens != []
    ensures r.Some? <==>
              StartsWith(tokens[0], "{") && exists k :: 1 <= k < |tokens| && EndsWith(tokens[k], "}")
    ensures r.Some? ==>
              && r.value.0 + r.value.1 == tokens
              && |r.value.0| >= 2
              && EndsWith(r.value.0[|r.value.0| - 1], "}")
              && forall k :: 1 <= k < |r.value.0| - 1 ==> !EndsWith(r.value.0[k], "}")
  {
    if !StartsWith(tokens[0], "{") then None
    else
      match Closing(tokens, 1)
      case None => None
      case Some(k) =>
        assert tokens[..k + 1] + tokens[k + 1..] == tokens;
        Some((tokens[..k + 1], tokens[k + 1..]))
  }

  /** A structure written as `fields` followed by other tokens frames back to
      exactly those fields. */
  lemma {:induction false} FrameOf(fields: seq<string>, rest: seq<string>)
    requires |fields| >= 2 && StartsWith(fields[0], "{")
    requires EndsWith(fields[|fields| - 1], "}")
    requires forall k :: 1 <= k < |fields| - 1 ==> !EndsWith(fields[k], "}")
    ensures Frame(fields + rest) == Some((fields, rest))
  {
    var tokens := fields + rest;
    var last := |fields| - 1;
    assert tokens[last] == fields[last];
    assert forall k :: 1 <= k < last ==> tokens[k] == fields[k];
    var c := Closing(tokens, 1);
    assert c.Some? && c.value == last;
    assert tokens[..|fields|] == fields;
    assert tokens[|fields|..] == rest;
  }

  // ----- Sockaddr fields -----

  /** `SockFamily`: the text after the `sa_family=` tag, which must name
      an address or protocol family. */
  function SockFamily(v: string): (r: Result<string>)
    ensures r.Err? ==> r.error == BadSockFamily
    ensures !Contains(v, "sa_family=") ==> r.Err?
    ensures r.Ok? ==> EndsWith(v, "sa_family=" + r.value)
    ensures r.Ok? ==> StartsWith(r.value, "AF_") || StartsWith(r.value, "PF_")
  {
    FindContains(v, "sa_family=");
    var i := Find(v, "sa_family=");
    if i < 0 then Err(BadSockFamily)
    else
      var family := v[i + 10..];
      assert v[|v| - (10 + |family|)..] == v[i..i + 10] + family;
      if StartsWith(family, "AF_") || StartsWith(family, "PF_") then Ok(family)
      else Err(BadSockFamily)
  }

  /** The family is read back from the opening token of a structure. */
  lemma {:induction false} SockFamilyRoundTrip(family: string)
    requires StartsWith(family, "AF_") || StartsWith(family, "PF_")
    ensures SockFamily("{sa_family=" + family) == Ok(family)
  {
    var v := "{sa_family=" + family;
    assert v[1..11] == "sa_family=";
    assert !OccursAt(v, "sa_family=", 0) by { assert v[0] == '{'; }
    FindFirst(v, "sa_family=", 1);
    assert v[11..] == family;
  }

  function PortField(port: int): string {
    "sin_port=htons(" + IntToString(port) + ")"
  }

  /** `SockPort`: the number between `sin_port=htons(` and the last `)`. */
  function SockPort(v: string): (r: Result<int>)
    ensures r.Err? ==> r.error == BadSockPort
    ensures r.Ok? ==> Contains(v, "sin_port=htons(")
  {
    FindContains(v, "sin_port=htons(");
    var i := Find(v, "sin_port=htons(");
    if i < 0 then Err(BadSockPort)
    else
      match ParseInt(Slice(v, i + 15, RFind(v, ")")))
      case Some(n) => Ok(n)
      case None => Err(BadSockPort)
  }

  lemma {:induction false} SockPortRoundTrip(port: int)
    ensures SockPort(PortField(port)) == Ok(port)
  {
    var d := IntToString(port);
    var v := PortField(port);
    FindAtStart(v, "sin_port=htons(");
    RFindAtEnd(v, ")");
    assert Slice(v, 15, |v| - 1) == d;
    ParseIntToString(port);
  }

  function IpField(ip: string): string {
    "sin_addr=inet_addr(\"" + ip + "\")"
  }

  /** `SockIP`: the text between `sin_addr=inet_addr("` and the last `")`,
      accepted when `ipOk` (the source's `socket.inet_aton`) accepts it. */
  function SockIp(v: string, ipOk: string -> bool): (r: Result<string>)
    ensures r.Err? ==> r.error == BadSockIp
    ensures r.Ok? ==> Contains(v, "sin_addr=inet_addr(\"") && ipOk(r.value)
  {
    FindContains(v, "sin_addr=inet_addr(\"");
    var i := Find(v, "sin_addr=inet_addr(\"");
    if i < 0 then Err(BadSockIp)
    else
      var ip := Slice(v, i + 20, RFind(v, "\")"));
      if ipOk(ip) then Ok(ip) else Err(BadSockIp)
  }

  /** The address is read back from the closing field of a structure. */
  lemma {:induction false} SockIpRoundTrip(ip: string, ipOk: string -> bool)
    requires ipOk(ip)
    ensures SockIp(IpField(ip) + "}", ipOk) == Ok(ip)
  {
    var v := IpField(ip) + "}";
    var n := |v|;
    assert StartsWith(v, "sin_addr=inet_addr(\"");
    FindAtStart(v, "sin_addr=inet_addr(\"");
    assert v[n - 3..n - 1] == "\")";
    assert !OccursAt(v, "\")", n - 2) by { assert v[n - 2] == ')'; }
    RFindLast(v, "\")", n - 3);
    assert Slice(v, 20, n - 3) == ip;
  }

  /** `SockPath` as written in both engines: `NULL` must be the whole token,
      `path=@"` is labelled a pathname and any other `path=` abstract; only
      the posix engine knows `sun_path=`. */
  function SockPathAsWritten(engine: Engine, v: string): (r: Result<(PathKind, string)>)
    ensures r.Err? ==> r.error == BadSockPath
    ensures r.Ok? && r.value.0 == Unnamed <==> v == "NULL"
    ensures r.Ok? && r.value.0 == Pathname <==> StartsWith(v, "path=@\"")
    ensures r.Ok? && r.value.0 == Abstract <==> StartsWith(v, "path=") && !StartsWith(v, "path=@\"")
    ensures r.Ok? && r.value.0 == Sun ==> engine == Posix
    ensures r.Err? <==> v != "NULL" && !StartsWith(v, "path=") && !(engine == Posix && StartsWith(v, "sun_path="))
  {
    if v == "NULL" then Ok((Unnamed, v))
    else if StartsWith(v, "path=@\"") then
      Ok((Pathname, Slice(v, Find(v, "path=@\"") + 7, RFind(v, "\"}"))))
    else if StartsWith(v, "path=") then
      Ok((Abstract, Slice(v, Find(v, "path=\"") + 6, RFind(v, "\"}"))))
    else if engine == Posix && StartsWith(v, "sun_path=") then
      Ok((Sun, Slice(v, Find(v, "sun_path=\"") + 10, RFind(v, "\"}"))))
    else Err(BadSockPath)
  }

  /** `SockPath` corrected: the unnamed address arrives as the closing token
      `NULL}`, and an `@` in front of the quoted name marks an abstract
      address (man 7 unix), a plain quoted name a pathname. */
  function SockPath(engine: Engine, v: string): (r: Result<(PathKind, string)>)
    ensures r.Err? ==> r.error == BadSockPath
    ensures r.Ok? && r.value.0 == Unnamed <==> v == "NULL" || v == "NULL}"
    ensures r.Ok? && r.value.0 == Abstract <==> StartsWith(v, "path=@\"")
    ensures r.Ok? && r.value.0 == Sun ==> engine == Posix
  {
    if v == "NULL" || v == "NULL}" then Ok((Unnamed, "NULL"))
    else if StartsWith(v, "path=@\"") then
      Ok((Abstract, Slice(v, Find(v, "path=@\"") + 7, RFind(v, "\"}"))))
    else if StartsWith(v, "path=") then
      Ok((Pathname, Slice(v, Find(v, "path=\"") + 6, RFind(v, "\"}"))))
    else if engine == Posix && StartsWith(v, "sun_path=") then
      Ok((Sun, Slice(v, Find(v, "sun_path=\"") + 10, RFind(v, "\"}"))))
    else Err(BadSockPath)
  }

  /** The quoted name of a closing `path="..."}` field, whatever it contains. */
  lemma {:induction false} PathSliceRoundTrip(tag: string, path: string)
    requires tag == "path=\"" || tag == "path=@\"" || tag == "sun_path=\""
    ensures var v := tag + path + "\"}";
            Slice(v, Find(v, tag) + |tag|, RFind(v, "\"}")) == path
  {
    var v := tag + path + "\"}";
    assert StartsWith(v, tag);
    FindAtStart(v, tag);
    assert EndsWith(v, "\"}");
    RFindAtEnd(v, "\"}");
    assert v[|tag|..|v| - 2] == path;
  }

  /** Each quoted path form is read back with its name; as written, a plain
      `path="..."` is labelled abstract and `path=@"..."` a pathname. */
  lemma {:induction false} SockPathRoundTrip(engine: Engine, path: string)
    ensures SockPathAsWritten(engine, "NULL") == Ok((Unnamed, "NULL"))
    ensures SockPathAsWritten(engine, "path=\"" + path + "\"}") == Ok((Abstract, path))
    ensures SockPathAsWritten(engine, "path=@\"" + path + "\"}") == Ok((Pathname, path))
    ensures SockPathAsWritten(Posix, "sun_path=\"" + path + "\"}") == Ok((Sun, path))
  {
    AsWrittenPlain(engine, path);
    AsWrittenAt(engine, path);
    AsWrittenSun(path);
  }

  lemma {:induction false} AsWrittenPlain(engine: Engine, path: string)
    ensures SockPathAsWritten(engine, "path=\"" + path + "\"}") == Ok((Abstract, path))
  {
    var plain := "path=\"" + path + "\"}";
    assert plain[5] == '"';
    assert plain != "NULL" by { assert plain[0] == 'p'; }
    assert !StartsWith(plain, "path=@\"");
    assert StartsWith(plain, "path=");
    PathSliceRoundTrip("path=\"", path);
  }

  lemma {:induction false} AsWrittenAt(engine: Engine, path: string)
    ensures SockPathAsWritten(engine, "path=@\"" + path + "\"}") == Ok((Pathname, path))
  {
    var at := "path=@\"" + path + "\"}";
    assert at != "NULL" by { assert at[0] == 'p'; }
    assert StartsWith(at, "path=@\"");
    PathSliceRoundTrip("path=@\"", path);
  }

  lemma {:induction false} AsWrittenSun(path: string)
    ensures SockPathAsWritten(Posix, "sun_path=\"" + path + "\"}") == Ok((Sun, path))
  {
    var sun := "sun_path=\"" + path + "\"}";
    assert sun != "NULL" by { assert sun[0] == 's'; }
    assert sun[0] == 's' && !StartsWith(sun, "path=") && !StartsWith(sun, "path=@\"");
    assert StartsWith(sun, "sun_path=");
    PathSliceRoundTrip("sun_path=\"", path);
  }

  /** Corrected, both kinds of named unix-domain address are read back with
      their name and the kind man 7 unix gives them, and the closing `NULL}`
      is the unnamed address. */
  lemma {:induction false} SockPathCorrectedRoundTrip(engine: Engine, path: string)
    ensures SockPath(engine, "NULL}") == Ok((Unnamed, "NULL"))
    ensures SockPath(engine, "path=\"" + path + "\"}") == Ok((Pathname, path))
    ensures SockPath(engine, "path=@\"" + path + "\"}") == Ok((Abstract, path))
    ensures SockPath(Posix, "sun_path=\"" + path + "\"}") == Ok((Sun, path))
  {
    SockPathPlain(engine, path);
    SockPathAt(engine, path);
    SockPathSun(path);
  }

  lemma {:induction false} SockPathPlain(engine: Engine, path: string)
    ensures SockPath(engine, "path=\"" + path + "\"}") == Ok((Pathname, path))
  {
    var plain := "path=\"" + path + "\"}";
    assert plain[5] == '"';
    assert plain != "NULL" && plain != "NULL}" by { assert plain[0] == 'p'; }
    assert !StartsWith(plain, "path=@\"");
    assert StartsWith(plain, "path=");
    PathSliceRoundTrip("path=\"", path);
  }

  lemma {:induction false} SockPathAt(engine: Engine, path: string)
    ensures SockPath(engine, "path=@\"" + path + "\"}") == Ok((Abstract, path))
  {
    var at := "path=@\"" + path + "\"}";
    assert at != "NULL" && at != "NULL}" by { assert at[0] == 'p'; }
    assert StartsWith(at, "path=@\"");
    PathSliceRoundTrip("path=@\"", path);
  }

  lemma {:induction false} SockPathSun(path: string)
    ensures SockPath(Posix, "sun_path=\"" + path + "\"}") == Ok((Sun, path))
  {
    var sun := "sun_path=\"" + path + "\"}";
    assert sun != "NULL" && sun != "NULL}" by { assert sun[0] == 's'; }
    assert sun[0] == 's' && !StartsWith(sun, "path=") && !StartsWith(sun, "path=@\"");
    assert StartsWith(sun, "sun_path=");
    PathSliceRoundTrip("sun_path=\"", path);
  }

  /** The unnamed address of `getsockname(3, {sa_family=AF_FILE, NULL}, [2])`
      reaches the path parser as `NULL}`, which the as-written code rejects,
      and a plain `path="..."` is labelled abstract; the corrected parser
      reads both as man 7 unix describes them. */
  lemma {:induction false} SockPathNullBrace()
    ensures SockPathAsWritten(Posix, "NULL}") == Err(BadSockPath)
    ensures SockPathAsWritten(Legacy, "NULL}") == Err(BadSockPath)
    ensures SockPath(Posix, "NULL}") == Ok((Unnamed, "NULL"))
    ensures SockPathAsWritten(Posix, "path=\"/x\"}") == Ok((Abstract, "/x"))
    ensures SockPath(Posix, "path=\"/x\"}") == Ok((Pathname, "/x"))
  {
    NullBraceRejected("NULL}");
    PlainPathMislabelled("/x", "path=\"/x\"}");
  }

  lemma {:induction false} NullBraceRejected(v: string)
    requires v == "NULL}"
    ensures SockPathAsWritten(Posix, v) == Err(BadSockPath)
    ensures SockPathAsWritten(Legacy, v) == Err(BadSockPath)
    ensures SockPath(Posix, v) == Ok((Unnamed, "NULL"))
  {
    assert v != "NULL" && v[0] == 'N';
    assert !StartsWith(v, "path=") && !StartsWith(v, "path=@\"") && !StartsWith(v, "sun_path=");
  }

  lemma {:induction false} PlainPathMislabelled(path: string, v: string)
    requires v == "path=\"" + path + "\"}"
    ensures SockPathAsWritten(Posix, v) == Ok((Abstract, path))
    ensures SockPath(Posix, v) == Ok((Pathname, path))
  {
    SockPathPlain(Posix, path);
    assert v[5] == '"' && v[0] == 'p';
    assert v != "NULL" && !StartsWith(v, "path=@\"") && StartsWith(v, "path=");
    PathSliceRoundTrip("path=\"", path);
  }

  /** `SockData`: the bytes between `sa_data="` and the closing `"}`. */
  function SockData(v: string): (r: Result<string>)
    ensures r.Err? ==> r.error == BadSockData
    ensures r.Ok? <==> StartsWith(v, "sa_data=") && EndsWith(v, "}")
  {
    if StartsWith(v, "sa_data=") && EndsWith(v, "}") then
      Ok(Slice(v, Find(v, "sa_data=\"") + 9, -2))
    else Err(BadSockData)
  }

  lemma {:induction false} SockDataRoundTrip(data: string)
    ensures SockData("sa_data=\"" + data + "\"}") == Ok(data)
  {
    var v := "sa_data=\"" + data + "\"}";
    assert StartsWith(v, "sa_data=\"") && StartsWith(v, "sa_data=") && EndsWith(v, "}");
    FindAtStart(v, "sa_data=\"");
    assert v[9..|v| - 2] == data;
  }

  /** `SockPid`: the number after `pid=` in a `pid=` or `nl_pid` field. */
  function SockPid(v: string): (r: Result<int>)
    ensures r.Err? ==> r.error == BadSockPid
    ensures r.Ok? ==> StartsWith(v, "pid=") || StartsWith(v, "nl_pid")
  {
    if StartsWith(v, "pid=") || StartsWith(v, "nl_pid") then
      match ParseInt(SliceFrom(v, Find(v, "pid=") + 4))
      case Some(n) => Ok(n)
      case None => Err(BadSockPid)
    else Err(BadSockPid)
  }

  /** A pid field whose number reads as `n`. */
  lemma {:induction false} SockPidReads(v: string, n: int)
    requires StartsWith(v, "pid=") || StartsWith(v, "nl_pid")
    requires ParseInt(SliceFrom(v, Find(v, "pid=") + 4)) == Some(n)
    ensures SockPid(v) == Ok(n)
  {
  }

  /** A `pid=` field is read as the number its digits spell. */
  lemma {:induction false} SockPidDigits(d: string, n: int)
    requires ParseInt(d) == Some(n)
    ensures SockPid("pid=" + d) == Ok(n)
  {
    var tag := "pid=";
    AfterPrefix(tag, d);
    SockPidReads(tag + d, n);
  }

  lemma {:induction false} SockPidRoundTrip(pid: int)
    ensures SockPid("pid=" + IntToString(pid)) == Ok(pid)
  {
    ParseIntToString(pid);
    SockPidDigits(IntToString(pid), pid);
  }

  lemma {:induction false} NlPidLabel(d: string)
    ensures StartsWith("nl_pid=" + d, "nl_pid")
    ensures Find("nl_pid=" + d, "pid=") == 3
  {
    var w := "nl_pid=" + d;
    assert w[3..7] == "pid=";
    assert !OccursAt(w, "pid=", 0) by { assert w[0] == 'n'; }
    assert !OccursAt(w, "pid=", 1) by { assert w[1] == 'l'; }
    assert !OccursAt(w, "pid=", 2) by { assert w[2] == '_'; }
    FindFirst(w, "pid=", 3);
  }

  /** An `nl_pid=` field is read as the number its digits spell. */
  lemma {:induction false} SockNlPidDigits(d: string, n: int)
    requires ParseInt(d) == Some(n)
    ensures SockPid("nl_pid=" + d) == Ok(n)
  {
    var tag := "nl_pid=";
    NlPidLabel(d);
    AfterPrefix(tag, d);
    SockPidReads(tag + d, n);
  }

  /** The netlink spelling `nl_pid=` is read the same way. */
  lemma {:induction false} SockNlPidRoundTrip(pid: int)
    ensures SockPid("nl_pid=" + IntToString(pid)) == Ok(pid)
  {
    ParseIntToString(pid);
    SockNlPidDigits(IntToString(pid), pid);
  }

  /** `SockGroups`: the text after `groups=` with the closing brace removed. */
  function SockGroups(v: string): (r: Result<string>)
    ensures r.Err? ==> r.error == BadSockGroups
    ensures r.Ok? <==> (StartsWith(v, "groups=") || StartsWith(v, "nl_groups")) && EndsWith(v, "}")
  {
    if (StartsWith(v, "groups=") || StartsWith(v, "nl_groups")) && EndsWith(v, "}") then
      var w := v[..|v| - 1];
      Ok(SliceFrom(w, Find(w, "groups=") + 7))
    else Err(BadSockGroups)
  }

  lemma {:induction false} SockGroupsRoundTrip(groups: string)
    ensures SockGroups("groups=" + groups + "}") == Ok(groups)
  {
    var v := "groups=" + groups + "}";
    assert StartsWith(v, "groups=") && EndsWith(v, "}");
    var w := v[..|v| - 1];
    assert w == "groups=" + groups;
    assert StartsWith(w, "groups=");
    FindAtStart(w, "groups=");
    assert SliceFrom(w, 7) == groups;
  }

  // ----- Sockaddr -----

  /** What the posix engine reads after the family, chosen by the suffix of
      the raw opening token; a family it does not know keeps its fields as
      text. A field the family needs but the structure lacks, or a field
      left over, is an error. */
  function PosixPayload(familyToken: string, body: seq<string>, ipOk: string -> bool): (r: Result<SockPayload>)
    ensures r.Ok? && r.value.PathPayload? ==> EndsWith(familyToken, "_FILE") || EndsWith(familyToken, "_LOCAL")
    ensures r.Ok? && r.value.InetPayload? ==> EndsWith(familyToken, "_INET") && |body| == 2
    ensures r.Ok? && r.value.RawPayload? ==> r.value.fields == body
  {
    if EndsWith(familyToken, "_FILE") || EndsWith(familyToken, "_LOCAL") then
      if body == [] then Err(BadSockaddr)
      else
        var path :- SockPathAsWritten(Posix, body[0]);
        if |body| > 1 then Err(BadSockaddr) else Ok(PathPayload(path.0, path.1))
    else if EndsWith(familyToken, "_UNSPEC") then
      if body == [] then Err(BadSockaddr)
      else
        var data :- SockData(body[0]);
        if |body| > 1 then Err(BadSockaddr) else Ok(DataPayload(data))
    else if EndsWith(familyToken, "_INET") then
      if body == [] then Err(BadSockaddr)
      else
        var port :- SockPort(body[0]);
        if |body| < 2 then Err(BadSockaddr)
        else
          var ip :- SockIp(body[1], ipOk);
          if |body| > 2 then Err(BadSockaddr) else Ok(InetPayload(port, ip))
    else if EndsWith(familyToken, "_NETLINK") then
      if body == [] then Err(BadSockaddr)
      else
        var pid :- SockPid(body[0]);
        if |body| < 2 then Err(BadSockaddr)
        else
          var groups :- SockGroups(body[1]);
          if |body| > 2 then Err(BadSockaddr) else Ok(NetlinkPayload(pid, groups))
    else Ok(RawPayload(body))
  }

  /** The legacy engine knows only file addresses (any family token holding
      `_FILE`) and, for every other family, a port and an address. */
  function LegacyPayload(familyToken: string, body: seq<string>, ipOk: string -> bool): (r: Result<SockPayload>)
    ensures r.Ok? ==> r.value.PathPayload? || r.value.InetPayload?
    ensures r.Ok? && r.value.PathPayload? <==> r.Ok? && Contains(familyToken, "_FILE")
    ensures r.Ok? && r.value.PathPayload? ==> r.value.kind != Sun && |body| == 1
    ensures r.Ok? && r.value.InetPayload? ==> |body| == 2
  {
    if Contains(familyToken, "_FILE") then
      if body == [] then Err(BadSockaddr)
      else
        var path :- SockPathAsWritten(Legacy, body[0]);
        if |body| > 1 then Err(BadSockaddr) else Ok(PathPayload(path.0, path.1))
    else
      if body == [] then Err(BadSockaddr)
      else
        var port :- SockPort(body[0]);
        if |body| < 2 then Err(BadSockaddr)
        else
          var ip :- SockIp(body[1], ipOk);
          if |body| > 2 then Err(BadSockaddr) else Ok(InetPayload(port, ip))
  }

  /** `Sockaddr`. An address token (`0x...`) is left in place and yields no
      value; the posix engine reads a lone `0` as a null address; otherwise
      the framed structure is read as a family and a payload. */
  function SockaddrValueOf(engine: Engine, tokens: seq<string>, ipOk: string -> bool): (r: Result<(Option<SockaddrValue>, seq<string>)>)
    requires tokens != []
    ensures StartsWith(tokens[0], "0x") ==> r == Ok((None, tokens))
    ensures r.Ok? && r.value.0.None? ==> StartsWith(tokens[0], "0x")
    ensures r.Ok? && r.value.0.Some? ==> |r.value.1| < |tokens| && IsSuffix(r.value.1, tokens)
    ensures r.Ok? && r.value.0 == Some(SockNull) <==> engine == Posix && tokens[0] == "0"
    ensures engine == Legacy && r.Ok? && r.value.0.Some? ==>
              r.value.0.value.payload.PathPayload? || r.value.0.value.payload.InetPayload?
  {
    if StartsWith(tokens[0], "0x") then Ok((None, tokens))
    else if engine == Posix && tokens[0] == "0" then Ok((Some(SockNull), tokens[1..]))
    else
      match Frame(tokens)
      case None => Err(BadSockaddr)
      case Some((fields, rest)) =>
        assert tokens[|tokens| - |rest|..] == rest;
        var value :- Framed(engine, fields, ipOk);
        Ok((Some(value), rest))
  }

  /** The family and payload of the tokens of one framed structure. */
  function Framed(engine: Engine, fields: seq<string>, ipOk: string -> bool): (r: Result<SockaddrValue>)
    requires fields != []
    ensures r.Ok? ==> r.value.SockFields?
    ensures engine == Legacy && r.Ok? ==> r.value.payload.PathPayload? || r.value.payload.InetPayload?
  {
    var family :- SockFamily(fields[0]);
    var payload :-
      if engine == Posix then PosixPayload(fields[0], fields[1..], ipOk)
      else LegacyPayload(fields[0], fields[1..], ipOk);
    Ok(SockFields(family, payload))
  }

  /** A framed structure with a readable family and payload. */
  lemma {:induction false} SockaddrReads(engine: Engine, fields: seq<string>, rest: seq<string>, ipOk: string -> bool,
                      family: string, payload: SockPayload)
    requires |fields| >= 2 && StartsWith(fields[0], "{")
    requires EndsWith(fields[|fields| - 1], "}")
    requires forall k :: 1 <= k < |fields| - 1 ==> !EndsWith(fields[k], "}")
    requires SockFamily(fields[0]) == Ok(family)
    requires engine == Posix ==> PosixPayload(fields[0], fields[1..], ipOk) == Ok(payload)
    requires engine == Legacy ==> LegacyPayload(fields[0], fields[1..], ipOk) == Ok(payload)
    ensures SockaddrValueOf(engine, fields + rest, ipOk) == Ok((Some(SockFields(family, payload)), rest))
  {
    var t := fields + rest;
    assert t[0] == fields[0];
    OpeningBrace(t[0]);
    FrameOf(fields, rest);
    FramedOf(engine, fields, ipOk, family, payload);
    ValueOfFramed(engine, t, fields, rest, ipOk);
  }

  /** A token opening a structure is neither an address nor a lone `0`. */
  lemma {:induction false} OpeningBrace(v: string)
    requires StartsWith(v, "{")
    ensures !StartsWith(v, "0x") && v != "0"
  {
    assert v[0] == '{';
  }

  lemma {:induction false} FramedOf(engine: Engine, fields: seq<string>, ipOk: string -> bool, family: string, payload: SockPayload)
    requires fields != []
    requires SockFamily(fields[0]) == Ok(family)
    requires engine == Posix ==> PosixPayload(fields[0], fields[1..], ipOk) == Ok(payload)
    requires engine == Legacy ==> LegacyPayload(fields[0], fields[1..], ipOk) == Ok(payload)
    ensures Framed(engine, fields, ipOk) == Ok(SockFields(family, payload))
  {
  }

  /** Tokens that open a frame are read as the framed structure. */
  lemma {:induction false} ValueOfFramed(engine: Engine, tokens: seq<string>, fields: seq<string>, rest: seq<string>, ipOk: string -> bool)
    requires tokens != [] && !StartsWith(tokens[0], "0x") && tokens[0] != "0"
    requires Frame(tokens) == Some((fields, rest))
    ensures fields != []
    ensures SockaddrValueOf(engine, tokens, ipOk)
      == match Framed(engine, fields, ipOk)
         case Err(e) => Err(e)
         case Ok(v) => Ok((Some(v), rest))
  {
  }

  /** The opening token of a structure of a family that ends with `suffix`. */
  lemma {:induction false} FamilyTokenEnds(family: string, suffix: string)
    requires EndsWith(family, suffix)
    ensures EndsWith("{sa_family=" + family, suffix)
  {
    var v := "{sa_family=" + family;
    assert v[|v| - |suffix|..] == family[|family| - |suffix|..];
  }

  /** The two fields of an internet address after a family ending in `_INET`. */
  lemma {:induction false} InetPayloadReads(head: string, port: int, ip: string, ipOk: string -> bool)
    requires EndsWith(head, "_INET") && ipOk(ip)
    ensures PosixPayload(head, [PortField(port), IpField(ip) + "}"], ipOk) == Ok(InetPayload(port, ip))
  {
    assert head[|head| - 1] == 'T';
    assert !EndsWith(head, "_FILE") && !EndsWith(head, "_LOCAL") && !EndsWith(head, "_UNSPEC");
    SockPortRoundTrip(port);
    SockIpRoundTrip(ip, ipOk);
  }

  /** An internet address structure is read back as its port and address. */
  lemma {:induction false} SockaddrInetRoundTrip(family: string, port: int, ip: string, ipOk: string -> bool, rest: seq<string>)
    requires StartsWith(family, "AF_") && EndsWith(family, "_INET") && ipOk(ip)
    ensures SockaddrValueOf(Posix, ["{sa_family=" + family, PortField(port), IpField(ip) + "}"] + rest, ipOk)
            == Ok((Some(SockFields(family, InetPayload(port, ip))), rest))
  {
    var head := "{sa_family=" + family;
    var fields := [head, PortField(port), IpField(ip) + "}"];
    assert StartsWith(head, "{");
    assert EndsWith(fields[2], "}");
    var p := PortField(port);
    assert p[|p| - 1] == ')';
    assert !EndsWith(fields[1], "}");
    SockFamilyRoundTrip(family);
    FamilyTokenEnds(family, "_INET");
    InetPayloadReads(head, port, ip, ipOk);
    assert fields[1..] == [PortField(port), IpField(ip) + "}"];
    SockaddrReads(Posix, fields, rest, ipOk, family, InetPayload(port, ip));
  }

  /** A named unix-domain address is read back with its family and name;
      as written, a plain `path="..."` is labelled abstract and
      `path=@"..."` a pathname. */
  lemma {:induction false} SockaddrPathRoundTrip(family: string, path: string, rest: seq<string>, ipOk: string -> bool)
    requires StartsWith(family, "AF_") && (EndsWith(family, "_FILE") || EndsWith(family, "_LOCAL"))
    ensures SockaddrValueOf(Posix, ["{sa_family=" + family, "path=\"" + path + "\"}"] + rest, ipOk)
            == Ok((Some(SockFields(family, PathPayload(Abstract, path))), rest))
    ensures SockaddrValueOf(Posix, ["{sa_family=" + family, "path=@\"" + path + "\"}"] + rest, ipOk)
            == Ok((Some(SockFields(family, PathPayload(Pathname, path))), rest))
  {
    SockPathRoundTrip(Posix, path);
    SockaddrPathField(family, "path=\"" + path + "\"}", Abstract, path, rest, ipOk);
    SockaddrPathField(family, "path=@\"" + path + "\"}", Pathname, path, rest, ipOk);
  }

  /** A local-socket structure whose one field the path parser reads. */
  lemma {:induction false} SockaddrPathField(family: string, field: string, kind: PathKind, path: string,
                                             rest: seq<string>, ipOk: string -> bool)
    requires StartsWith(family, "AF_") && (EndsWith(family, "_FILE") || EndsWith(family, "_LOCAL"))
    requires field == "path=\"" + path + "\"}" || field == "path=@\"" + path + "\"}"
    requires SockPathAsWritten(Posix, field) == Ok((kind, path))
    ensures SockaddrValueOf(Posix, ["{sa_family=" + family, field] + rest, ipOk)
            == Ok((Some(SockFields(family, PathPayload(kind, path))), rest))
  {
    var head := "{sa_family=" + family;
    var fields := [head, field];
    assert StartsWith(head, "{");
    assert EndsWith(fields[1], "}");
    SockFamilyRoundTrip(family);
    if EndsWith(family, "_FILE") { FamilyTokenEnds(family, "_FILE"); }
    else { FamilyTokenEnds(family, "_LOCAL"); }
    assert fields[1..] == [field];
    SockaddrReads(Posix, fields, rest, ipOk, family, PathPayload(kind, path));
  }

  /** Neither engine's path parser accepts the closing `NULL}` token. */
  lemma {:induction false} NullBracePayloads(head: string, ipOk: string -> bool)
    requires EndsWith(head, "_FILE")
    ensures PosixPayload(head, ["NULL}"], ipOk) == Err(BadSockPath)
    ensures LegacyPayload(head, ["NULL}"], ipOk) == Err(BadSockPath)
  {
    assert OccursAt(head, "_FILE", |head| - 5);
    NullBraceRejected("NULL}");
  }

  /** The unnamed address `{sa_family=AF_FILE, NULL}` that getsockname
      reports is refused by both engines: the framing hands the path parser
      `NULL}`, which is not the `NULL` it compares with. */
  lemma {:induction false} SockaddrUnnamed(engine: Engine, family: string, rest: seq<string>, ipOk: string -> bool)
    requires StartsWith(family, "AF_") && EndsWith(family, "_FILE")
    ensures SockaddrValueOf(engine, ["{sa_family=" + family, "NULL}"] + rest, ipOk) == Err(BadSockPath)
  {
    var head := "{sa_family=" + family;
    var fields := [head, "NULL}"];
    var t := fields + rest;
    assert StartsWith(head, "{") && EndsWith(fields[1], "}");
    SockFamilyRoundTrip(family);
    FamilyTokenEnds(family, "_FILE");
    NullBracePayloads(head, ipOk);
    assert fields[1..] == ["NULL}"];
    assert t[0] == head;
    OpeningBrace(head);
    FrameOf(fields, rest);
    assert Framed(engine, fields, ipOk) == Err(BadSockPath);
    ValueOfFramed(engine, t, fields, rest, ipOk);
  }

  /** A suffix ending in another character than `s` does is not a suffix of `s`. */
  lemma {:induction false} LastDiffers(s: string, suffix: string)
    requires s != [] && suffix != [] && s[|s| - 1] != suffix[|suffix| - 1]
    ensures !EndsWith(s, suffix)
  {
  }

  /** The two fields of a netlink address after a family ending in `_NETLINK`. */
  lemma {:induction false} NetlinkPayloadReads(head: string, pid: int, groups: string, ipOk: string -> bool)
    requires EndsWith(head, "_NETLINK")
    ensures PosixPayload(head, ["pid=" + IntToString(pid), "groups=" + groups + "}"], ipOk) == Ok(NetlinkPayload(pid, groups))
  {
    assert head[|head| - 1] == 'K';
    LastDiffers(head, "_FILE");
    LastDiffers(head, "_LOCAL");
    LastDiffers(head, "_UNSPEC");
    LastDiffers(head, "_INET");
    SockPidRoundTrip(pid);
    SockGroupsRoundTrip(groups);
  }

  /** A netlink address is read back as its port id and group mask. */
  lemma {:induction false} SockaddrNetlinkRoundTrip(family: string, pid: int, groups: string, rest: seq<string>, ipOk: string -> bool)
    requires StartsWith(family, "AF_") && EndsWith(family, "_NETLINK")
    ensures SockaddrValueOf(Posix, ["{sa_family=" + family, "pid=" + IntToString(pid), "groups=" + groups + "}"] + rest, ipOk)
            == Ok((Some(SockFields(family, NetlinkPayload(pid, groups))), rest))
  {
    var head := "{sa_family=" + family;
    var d := IntToString(pid);
    var fields := [head, "pid=" + d, "groups=" + groups + "}"];
    assert StartsWith(head, "{");
    assert EndsWith(fields[2], "}");
    IntToStringShape(pid);
    assert fields[1][|fields[1]| - 1] == d[|d| - 1];
    LastDiffers(fields[1], "}");
    SockFamilyRoundTrip(family);
    FamilyTokenEnds(family, "_NETLINK");
    NetlinkPayloadReads(head, pid, groups, ipOk);
    assert fields[1..] == ["pid=" + d, "groups=" + groups + "}"];
    SockaddrReads(Posix, fields, rest, ipOk, family, NetlinkPayload(pid, groups));
  }

  /** The data field of an unspecified-family address. */
  lemma {:induction false} UnspecPayloadReads(head: string, data: string, ipOk: string -> bool)
    requires EndsWith(head, "_UNSPEC")
    ensures PosixPayload(head, ["sa_data=\"" + data + "\"}"], ipOk) == Ok(DataPayload(data))
  {
    assert head[|head| - 1] == 'C';
    LastDiffers(head, "_FILE");
    LastDiffers(head, "_LOCAL");
    SockDataRoundTrip(data);
  }

  /** An unspecified-family address is read back as its data bytes. */
  lemma {:induction false} SockaddrUnspecRoundTrip(family: string, data: string, rest: seq<string>, ipOk: string -> bool)
    requires StartsWith(family, "AF_") && EndsWith(family, "_UNSPEC")
    ensures SockaddrValueOf(Posix, ["{sa_family=" + family, "sa_data=\"" + data + "\"}"] + rest, ipOk)
            == Ok((Some(SockFields(family, DataPayload(data))), rest))
  {
    var head := "{sa_family=" + family;
    var field := "sa_data=\"" + data + "\"}";
    var fields := [head, field];
    assert StartsWith(head, "{");
    assert EndsWith(field, "}");
    SockFamilyRoundTrip(family);
    FamilyTokenEnds(family, "_UNSPEC");
    UnspecPayloadReads(head, data, ipOk);
    assert fields[1..] == [field];
    SockaddrReads(Posix, fields, rest, ipOk, family, DataPayload(data));
  }

  // ----- Stat -----

  const StatFieldCount := 15

  /** The first index at or after `i` of a `st_dev=makedev(` field. */
  function FirstMakedev(xs: seq<string>, i: nat): (r: Option<nat>)
    requires i <= |xs|
    ensures r.Some? ==> i <= r.value < |xs| && StartsWith(xs[r.value], "st_dev=makedev(")
    ensures forall k :: i <= k < |xs| && (r.None? || k < r.value) ==> !StartsWith(xs[k], "st_dev=makedev(")
    decreases |xs| - i
  {
    if i == |xs| then None
    else if StartsWith(xs[i], "st_dev=makedev(") then Some(i)
    else FirstMakedev(xs, i + 1)
  }

  /** `makedev(major, minor)` was split at its comma; the first such field
      is glued back to the one after it. A makedev field with nothing after
      it makes the source index past the end. */
  function MergeMakedev(xs: seq<string>): (r: Result<seq<string>>)
    ensures r.Err? ==> r.error == BadStat
    ensures r.Ok? ==> Join(r.value, ", ") == Join(xs, ", ")
    ensures r.Ok? ==> |r.value| == |xs| || |r.value| == |xs| - 1
    ensures (forall k :: 0 <= k < |xs| ==> !StartsWith(xs[k], "st_dev=makedev(")) ==> r == Ok(xs)
  {
    match FirstMakedev(xs, 0)
    case None => Ok(xs)
    case Some(i) =>
      if i + 1 == |xs| then Err(BadStat)
      else
        JoinMergePair(xs, i, ", ");
        Ok(xs[..i] + [xs[i] + ", " + xs[i + 1]] + xs[i + 2..])
  }

  /** Gluing two neighbouring parts with the separator does not change the join. */
  lemma {:induction false} JoinMergePair(xs: seq<string>, i: nat, sep: string)
    requires i + 1 < |xs|
    ensures Join(xs[..i] + [xs[i] + sep + xs[i + 1]] + xs[i + 2..], sep) == Join(xs, sep)
    decreases i
  {
    if i == 0 {
      assert xs[..0] + [xs[0] + sep + xs[1]] + xs[2..] == [xs[0] + sep + xs[1]] + xs[2..];
      JoinMergeHead(xs[0], xs[1], xs[2..], sep);
      assert [xs[0]] + ([xs[1]] + xs[2..]) == xs;
    } else {
      var t := xs[1..];
      JoinMergePair(t, i - 1, sep);
      var m := t[..i - 1] + [t[i - 1] + sep + t[i]] + t[i + 1..];
      assert xs[..i] + [xs[i] + sep + xs[i + 1]] + xs[i + 2..] == [xs[0]] + m;
      JoinCons(xs[0], m, sep);
      JoinCons(xs[0], t, sep);
      ConsTail(xs);
    }
  }

  /** The structure's fields with its opening and closing braces removed. */
  function Unbrace(fields: seq<string>): (r: seq<string>)
    requires |fields| >= 2
    ensures |r| == |fields|
    ensures r[1..|r| - 1] == fields[1..|fields| - 1]
  {
    [LStripChars(fields[0], {'{'})] + fields[1..|fields| - 1] + [RStripChars(fields[|fields| - 1], {'}'})]
  }

  /** The fields of a framed stat structure: unbraced, the device number
      glued back, and exactly fifteen of them. */
  function StatFields(framed: seq<string>): (r: Result<seq<string>>)
    requires |framed| >= 2
    ensures r.Err? ==> r.error == BadStat
    ensures r.Ok? ==> |r.value| == StatFieldCount
    ensures r.Ok? ==> Join(r.value, ", ") == Join(Unbrace(framed), ", ")
  {
    var merged :- MergeMakedev(Unbrace(framed));
    if |merged| == StatFieldCount then Ok(merged) else Err(BadStat)
  }

  /** `Stat`: an address token yields no value and is left in place;
      otherwise the framed structure is read by `StatFields`. */
  function StatValue(tokens: seq<string>): (r: Result<(Option<seq<string>>, seq<string>)>)
    requires tokens != []
    ensures r.Err? ==> r.error == BadStat
    ensures StartsWith(tokens[0], "0x") ==> r == Ok((None, tokens))
    ensures r.Ok? && r.value.0.None? ==> StartsWith(tokens[0], "0x")
    ensures r.Ok? && r.value.0.Some? ==>
              && |r.value.0.value| == StatFieldCount
              && |r.value.1| < |tokens| && IsSuffix(r.value.1, tokens)
  {
    if StartsWith(tokens[0], "0x") then Ok((None, tokens))
    else
      match Frame(tokens)
      case None => Err(BadStat)
      case Some(framing) =>
        assert tokens[|tokens| - |framing.1|..] == framing.1;
        match StatFields(framing.0)
        case Err(e) => Err(e)
        case Ok(fields) => Ok((Some(fields), framing.1))
  }

  /** A framed structure whose fields read as `fields`. */
  lemma {:induction false} StatValueReads(framed: seq<string>, rest: seq<string>, fields: seq<string>)
    requires |framed| >= 2 && StartsWith(framed[0], "{")
    requires EndsWith(framed[|framed| - 1], "}")
    requires forall k :: 1 <= k < |framed| - 1 ==> !EndsWith(framed[k], "}")
    requires StatFields(framed) == Ok(fields)
    ensures StatValue(framed + rest) == Ok((Some(fields), rest))
  {
    FrameOf(framed, rest);
    var t := framed + rest;
    assert t[0] == framed[0] && t[0][0] == '{';
  }

  /** Only one brace was stripped from the front. */
  lemma {:induction false} LStripOneBrace(t: string)
    requires StartsWith(t, "{") && (|t| == 1 || t[1] != '{')
    ensures LStripChars(t, {'{'}) == t[1..]
  {
    assert t == ['{'] + t[1..];
    LStripCharsCons('{', t[1..], {'{'});
  }

  /** Only one brace was stripped from the back. */
  lemma {:induction false} RStripOneBrace(t: string)
    requires EndsWith(t, "}") && (|t| == 1 || t[|t| - 2] != '}')
    ensures RStripChars(t, {'}'}) == t[..|t| - 1]
  {
    assert t == t[..|t| - 1] + ['}'];
    RStripCharsSnoc(t[..|t| - 1], '}', {'}'});
  }

  /** Braces around a joined list are braces on its first and last part. */
  lemma {:induction false} JoinBraced(a: string, mid: seq<string>, z: string, sep: string)
    ensures "{" + Join([a] + mid + [z], sep) + "}" == Join(["{" + a] + mid + [z + "}"], sep)
  {
    var xs := [a] + mid + [z];
    var n := |xs|;
    JoinAppendLast(xs, "}", sep);
    var v := [a] + mid + [z + "}"];
    assert xs[..n - 1] + [xs[n - 1] + "}"] == v by {
      assert xs[..n - 1] == [a] + mid;
    }
    JoinPrependHead("{", v, sep);
    assert [("{" + v[0])] + v[1..] == ["{" + a] + mid + [z + "}"] by {
      assert v[1..] == mid + [z + "}"];
    }
  }

  /** With single braces, unbracing removes exactly one character at each end. */
  lemma {:induction false} UnbraceShape(fields: seq<string>)
    requires |fields| >= 2 && StartsWith(fields[0], "{") && EndsWith(fields[|fields| - 1], "}")
    requires |fields[0]| == 1 || fields[0][1] != '{'
    requires var z := fields[|fields| - 1]; |z| == 1 || z[|z| - 2] != '}'
    ensures var z := fields[|fields| - 1];
            Unbrace(fields) == [fields[0][1..]] + fields[1..|fields| - 1] + [z[..|z| - 1]]
  {
    LStripOneBrace(fields[0]);
    RStripOneBrace(fields[|fields| - 1]);
  }

  /** A list whose first part opens and whose last part closes a brace. */
  lemma {:induction false} BracedFields(fields: seq<string>)
    requires |fields| >= 2 && StartsWith(fields[0], "{") && EndsWith(fields[|fields| - 1], "}")
    ensures var z := fields[|fields| - 1];
            fields == ["{" + fields[0][1..]] + fields[1..|fields| - 1] + [z[..|z| - 1] + "}"]
  {
    var n := |fields|;
    var a := fields[0];
    var z := fields[n - 1];
    assert "{" + a[1..] == a;
    assert z[..|z| - 1] + "}" == z;
    assert fields == [a] + fields[1..n - 1] + [z];
  }

  /** Printing the unbraced fields inside one pair of braces gives back the
      structure's text. */
  lemma {:induction false} UnbraceJoin(fields: seq<string>)
    requires |fields| >= 2 && StartsWith(fields[0], "{") && EndsWith(fields[|fields| - 1], "}")
    requires |fields[0]| == 1 || fields[0][1] != '{'
    requires var z := fields[|fields| - 1]; |z| == 1 || z[|z| - 2] != '}'
    ensures "{" + Join(Unbrace(fields), ", ") + "}" == Join(fields, ", ")
  {
    var z := fields[|fields| - 1];
    UnbraceShape(fields);
    BracedFields(fields);
    JoinBraced(fields[0][1..], fields[1..|fields| - 1], z[..|z| - 1], ", ");
  }

  /** A stat structure printed with `__str__` gives back the text it was read
      from, when that text had one brace at each end. */
  lemma {:induction false} StatPrintsBack(framed: seq<string>, fields: seq<string>)
    requires |framed| >= 2 && StartsWith(framed[0], "{")
    requires EndsWith(framed[|framed| - 1], "}")
    requires |framed[0]| == 1 || framed[0][1] != '{'
    requires var z := framed[|framed| - 1]; |z| == 1 || z[|z| - 2] != '}'
    requires StatFields(framed) == Ok(fields)
    ensures Str(Posix, Stat(fields)) == Some(Join(framed, ", "))
  {
    var sep := ", ";
    assert Join(fields, sep) == Join(Unbrace(framed), sep);
    UnbraceJoin(framed);
    assert Str(Posix, Stat(fields)) == Some("{" + Join(fields, sep) + "}");
  }

  // ----- PollFDPointer -----

  /** `fd.strip("[")[4:]` read as an integer. */
  function FdField(t: string): Option<int> {
    ParseInt(SliceFrom(StripChars(t, {'['}), 4))
  }

  /** `events.strip("}]")[7:]` */
  function EventsField(t: string): string {
    SliceFrom(StripChars(t, {'}', ']'}), 7)
  }

  /** `revents.strip("}")[8:]` */
  function ReventsField(t: string): string {
    SliceFrom(StripChars(t, {'}'}), 8)
  }

  /** One entry of a pollfd array: its fd token and events token, then a
      `revents=` token when one follows. Also says whether the events token
      closed the array. Running out of tokens and an unreadable fd are both
      the same failure. */
  function PollEntry(tokens: seq<string>): (r: Result<(PollFd, bool, seq<string>)>)
    ensures r.Err? ==> r.error == BadPollFd
    ensures r.Err? <==> |tokens| < 2 || FdField(tokens[0]).None?
    ensures r.Ok? ==> r.value.1 == EndsWith(tokens[1], "]")
    ensures r.Ok? ==> |r.value.2| <= |tokens| - 2 && IsSuffix(r.value.2, tokens)
  {
    if |tokens| < 2 then Err(BadPollFd)
    else
      match FdField(tokens[0])
      case None => Err(BadPollFd)
      case Some(fd) =>
        var events := EventsField(tokens[1]);
        var done := EndsWith(tokens[1], "]");
        if |tokens| >= 3 && StartsWith(tokens[2], "revents=") then
          assert IsSuffix(tokens[3..], tokens);
          Ok((PollFd(fd, events, Some(ReventsField(tokens[2]))), done, tokens[3..]))
        else
          assert IsSuffix(tokens[2..], tokens);
          Ok((PollFd(fd, events, None), done, tokens[2..]))
  }

  /** The loop of `PollFDPointer`: entries until one closes the array. */
  function PollLoop(tokens: seq<string>): (r: Result<(seq<PollFd>, seq<string>)>)
    ensures r.Err? ==> r.error == BadPollFd
    ensures r.Ok? ==> r.value.0 != [] && |r.value.1| < |tokens| && IsSuffix(r.value.1, tokens)
    decreases |tokens|
  {
    var entry :- PollEntry(tokens);
    var (item, done, rest) := entry;
    if done then Ok(([item], rest))
    else
      var more :- PollLoop(rest);
      SuffixTrans(more.1, rest, tokens);
      Ok(([item] + more.0, more.1))
  }

  /** `PollFDPointer`: the array must open with `[{fd=`. */
  function PollFdsValue(tokens: seq<string>): (r: Result<(seq<PollFd>, seq<string>)>)
    requires tokens != []
    ensures r.Err? ==> r.error == BadPollFd
    ensures !StartsWith(tokens[0], "[{fd=") ==> r.Err?
    ensures r.Ok? ==> r.value.0 != [] && |r.value.1| < |tokens| && IsSuffix(r.value.1, tokens)
  {
    if StartsWith(tokens[0], "[{fd=") then PollLoop(tokens) else Err(BadPollFd)
  }

  function FdToken(fd: int, first: bool): string {
    (if first then "[{fd=" else "{fd=") + IntToString(fd)
  }

  function EventsToken(events: string, last: bool): string {
    "events=" + events + (if last then "}]" else "}")
  }

  function ReventsToken(revents: string): string {
    "revents=" + revents + "}"
  }

  function ReventsTokens(revents: Option<string>): seq<string> {
    if revents.Some? then [ReventsToken(revents.value)] else []
  }

  /** The tokens strace prints for one entry. */
  function PollEntryTokens(p: PollFd, first: bool, last: bool): seq<string> {
    [FdToken(p.fd, first), EventsToken(p.events, last)] + ReventsTokens(p.revents)
  }

  /** The tokens of a whole array. */
  function PollTokens(fds: seq<PollFd>, first: bool): seq<string>
    decreases |fds|
  {
    if fds == [] then []
    else PollEntryTokens(fds[0], first, |fds| == 1) + PollTokens(fds[1..], false)
  }

  /** An entry whose event names survive the source's brace stripping. */
  predicate Printable(p: PollFd) {
    && (p.events == [] || p.events[|p.events| - 1] !in {'}', ']'})
    && (p.revents.Some? ==> p.revents.value == [] || p.revents.value[|p.revents.value| - 1] != '}')
  }

  lemma {:induction false} FdTokenReads(n: int, first: bool)
    ensures FdField(FdToken(n, first)) == Some(n)
  {
    var d := IntToString(n);
    IntToStringShape(n);
    var core := "{fd=" + d;
    assert core[0] == '{' && core[|core| - 1] == d[|d| - 1];
    StripCharsKeep(core, {'['});
    if first {
      assert "[{fd=" + d == ['['] + core;
      LStripCharsCons('[', core, {'['});
    }
    assert SliceFrom(core, 4) == d;
    ParseIntToString(n);
  }

  lemma {:induction false} EventsTokenReads(events: string, last: bool)
    requires events == [] || events[|events| - 1] !in {'}', ']'}
    ensures EventsField(EventsToken(events, last)) == events
    ensures EndsWith(EventsToken(events, last), "]") <==> last
  {
    EventsTokenField(events, last);
    EventsTokenEnd(events, last);
  }

  lemma {:induction false} EventsTokenField(events: string, last: bool)
    requires events == [] || events[|events| - 1] !in {'}', ']'}
    ensures EventsField(EventsToken(events, last)) == events
  {
    var tag := "events=";
    var core := tag + events;
    AfterPrefix(tag, events);
    assert core[0] == tag[0];
    if last {
      EventsClosing(core, events, EventsToken(events, last), ['}', ']']);
    } else {
      EventsClosing(core, events, EventsToken(events, last), ['}']);
    }
  }

  /** The events token closes the array exactly when it is the last one. */
  lemma {:induction false} EventsTokenEnd(events: string, last: bool)
    ensures EndsWith(EventsToken(events, last), "]") <==> last
  {
    var t := EventsToken(events, last);
    if last {
      assert t[|t| - 1] == ']';
    } else {
      assert t[|t| - 1] == '}';
      LastDiffers(t, "]");
    }
  }

  /** An events token is its field and one or two closing characters. */
  lemma {:induction false} EventsClosing(core: string, events: string, t: string, close: string)
    requires core == "events=" + events && SliceFrom(core, 7) == events && core[0] == 'e'
    requires events == [] || events[|events| - 1] !in {'}', ']'}
    requires close == ['}', ']'] || close == ['}']
    requires t == core + close
    ensures SliceFrom(StripChars(t, {'}', ']'}), 7) == events
  {
    var br := {'}', ']'};
    assert core[|core| - 1] !in br;
    if |close| == 2 {
      StripClosing2(core, '}', ']', br);
    } else {
      StripClosing(core, '}', br);
    }
  }

  lemma {:induction false} ReventsTokenReads(revents: string)
    requires revents == [] || revents[|revents| - 1] != '}'
    ensures StartsWith(ReventsToken(revents), "revents=")
    ensures ReventsField(ReventsToken(revents)) == revents
  {
    var tag := "revents=";
    var core := tag + revents;
    AfterPrefix(tag, revents);
    assert core[0] == tag[0] && core[|core| - 1] != '}';
    StripClosing(core, '}', {'}'});
    assert ReventsToken(revents) == core + ['}'];
    StartsWithExtend(core, tag, ['}']);
  }

  /** The entry without `revents` read from tokens whose pieces read as given. */
  lemma {:induction false} PollEntryOfPlain(t: seq<string>, p: PollFd, last: bool)
    requires |t| >= 2 && p.revents.None?
    requires FdField(t[0]) == Some(p.fd)
    requires EventsField(t[1]) == p.events && EndsWith(t[1], "]") == last
    requires |t| == 2 || !StartsWith(t[2], "revents=")
    ensures PollEntry(t) == Ok((p, last, t[2..]))
  {
    assert !(|t| >= 3 && StartsWith(t[2], "revents="));
    assert p == PollFd(p.fd, p.events, None);
  }

  /** The entry with `revents` read from tokens whose pieces read as given. */
  lemma {:induction false} PollEntryOfRevents(t: seq<string>, p: PollFd, last: bool)
    requires |t| >= 3 && p.revents.Some?
    requires FdField(t[0]) == Some(p.fd)
    requires EventsField(t[1]) == p.events && EndsWith(t[1], "]") == last
    requires StartsWith(t[2], "revents=") && ReventsField(t[2]) == p.revents.value
    ensures PollEntry(t) == Ok((p, last, t[3..]))
  {
    assert p == PollFd(p.fd, p.events, Some(ReventsField(t[2])));
  }

  lemma {:induction false} PollEntryReadsPlain(p: PollFd, first: bool, last: bool, tail: seq<string>)
    requires Printable(p) && p.revents.None?
    requires tail == [] || !StartsWith(tail[0], "revents=")
    ensures PollEntry([FdToken(p.fd, first), EventsToken(p.events, last)] + tail) == Ok((p, last, tail))
  {
    var fdTok := FdToken(p.fd, first);
    var ev := EventsToken(p.events, last);
    FdTokenReads(p.fd, first);
    EventsTokenReads(p.events, last);
    var t := [fdTok, ev] + tail;
    assert t[0] == fdTok && t[1] == ev && t[2..] == tail;
    assert |t| > 2 ==> t[2] == tail[0];
    PollEntryOfPlain(t, p, last);
  }

  /** Three tokens reading as an entry with `revents`. */
  lemma {:induction false} PollEntryOfThree(a: string, b: string, c: string, tail: seq<string>, p: PollFd, last: bool)
    requires p.revents.Some?
    requires FdField(a) == Some(p.fd) && EventsField(b) == p.events && EndsWith(b, "]") == last
    requires StartsWith(c, "revents=") && ReventsField(c) == p.revents.value
    ensures PollEntry([a, b, c] + tail) == Ok((p, last, tail))
  {
    var t := [a, b, c] + tail;
    assert t[0] == a && t[1] == b && t[2] == c && t[3..] == tail;
    PollEntryOfRevents(t, p, last);
  }

  lemma {:induction false} PollEntryReadsRevents(p: PollFd, first: bool, last: bool, tail: seq<string>)
    requires Printable(p) && p.revents.Some?
    ensures PollEntry([FdToken(p.fd, first), EventsToken(p.events, last), ReventsToken(p.revents.value)] + tail)
            == Ok((p, last, tail))
  {
    FdTokenReads(p.fd, first);
    EventsTokenReads(p.events, last);
    ReventsTokenReads(p.revents.value);
    PollEntryOfThree(FdToken(p.fd, first), EventsToken(p.events, last), ReventsToken(p.revents.value), tail, p, last);
  }

  /** One printed entry is read back, and the tokens after it are left. */
  lemma {:induction false} PollEntryReads(p: PollFd, first: bool, last: bool, tail: seq<string>)
    requires Printable(p)
    requires tail == [] || !StartsWith(tail[0], "revents=")
    ensures PollEntry(PollEntryTokens(p, first, last) + tail) == Ok((p, last, tail))
  {
    var fdTok := FdToken(p.fd, first);
    var ev := EventsToken(p.events, last);
    if p.revents.Some? {
      var rv := ReventsToken(p.revents.value);
      assert PollEntryTokens(p, first, last) + tail == [fdTok, ev, rv] + tail;
      PollEntryReadsRevents(p, first, last, tail);
    } else {
      assert PollEntryTokens(p, first, last) + tail == [fdTok, ev] + tail;
      PollEntryReadsPlain(p, first, last, tail);
    }
  }

  lemma {:induction false} PollLoopLast(t: seq<string>, item: PollFd, rest: seq<string>)
    requires PollEntry(t) == Ok((item, true, rest))
    ensures PollLoop(t) == Ok(([item], rest))
  {
  }

  lemma {:induction false} PollLoopStep(t: seq<string>, item: PollFd, tail: seq<string>, more: seq<PollFd>, rest: seq<string>)
    requires PollEntry(t) == Ok((item, false, tail))
    requires PollLoop(tail) == Ok((more, rest))
    ensures PollLoop(t) == Ok(([item] + more, rest))
  {
  }

  lemma {:induction false} PollTokensCons(fds: seq<PollFd>, first: bool, rest: seq<string>)
    requires fds != []
    ensures PollTokens(fds, first) + rest
            == PollEntryTokens(fds[0], first, |fds| == 1) + (PollTokens(fds[1..], false) + rest)
  {
  }

  lemma {:induction false} FdTokenNotRevents(n: int, first: bool)
    ensures !StartsWith(FdToken(n, first), "revents=")
  {
    var t := FdToken(n, first);
    assert t[0] in {'[', '{'};
  }

  /** A printed array of entries is read back entry by entry. */
  lemma {:induction false} PollLoopRoundTrip(fds: seq<PollFd>, first: bool, rest: seq<string>)
    requires fds != [] && forall i :: 0 <= i < |fds| ==> Printable(fds[i])
    requires rest == [] || !StartsWith(rest[0], "revents=")
    ensures PollLoop(PollTokens(fds, first) + rest) == Ok((fds, rest))
    decreases |fds|
  {
    if |fds| == 1 {
      PollLoopSingle(fds, first, rest);
    } else {
      PollLoopRoundTrip(fds[1..], false, rest);
      PollLoopNext(fds, first, rest);
    }
  }

  lemma {:induction false} PollLoopSingle(fds: seq<PollFd>, first: bool, rest: seq<string>)
    requires |fds| == 1 && Printable(fds[0])
    requires rest == [] || !StartsWith(rest[0], "revents=")
    ensures PollLoop(PollTokens(fds, first) + rest) == Ok((fds, rest))
  {
    var p := fds[0];
    var e := PollEntryTokens(p, first, true);
    assert fds[1..] == [];
    assert PollTokens(fds, first) == e + PollTokens(fds[1..], false);
    assert PollTokens(fds, first) == e;
    PollLoopOne(p, first, rest);
    assert fds == [p];
  }

  lemma {:induction false} PollLoopNext(fds: seq<PollFd>, first: bool, rest: seq<string>)
    requires |fds| >= 2 && Printable(fds[0])
    requires PollLoop(PollTokens(fds[1..], false) + rest) == Ok((fds[1..], rest))
    ensures PollLoop(PollTokens(fds, first) + rest) == Ok((fds, rest))
  {
    PollTokensCons(fds, first, rest);
    PollLoopMore(fds[0], first, fds[1..], rest);
    ConsTail(fds);
  }

  lemma {:induction false} PollLoopOne(p: PollFd, first: bool, rest: seq<string>)
    requires Printable(p)
    requires rest == [] || !StartsWith(rest[0], "revents=")
    ensures PollLoop(PollEntryTokens(p, first, true) + rest) == Ok(([p], rest))
  {
    PollEntryReads(p, first, true, rest);
    PollLoopLast(PollEntryTokens(p, first, true) + rest, p, rest);
  }

  lemma {:induction false} PollLoopMore(p: PollFd, first: bool, next: seq<PollFd>, rest: seq<string>)
    requires Printable(p) && next != []
    requires PollLoop(PollTokens(next, false) + rest) == Ok((next, rest))
    ensures PollLoop(PollEntryTokens(p, first, false) + (PollTokens(next, false) + rest)) == Ok(([p] + next, rest))
  {
    var tail := PollTokens(next, false) + rest;
    PollTokensCons(next, false, rest);
    assert tail[0] == FdToken(next[0].fd, false);
    FdTokenNotRevents(next[0].fd, false);
    PollEntryReads(p, first, false, tail);
    PollLoopStep(PollEntryTokens(p, first, false) + tail, p, tail, next, rest);
  }

  /** `poll([{fd=4, events=POLLIN}, {fd=0, events=POLLIN}], ...)`: a printed
      array is read back as its entries, and the tokens after it are left. */
  lemma {:induction false} PollFdsRoundTrip(fds: seq<PollFd>, rest: seq<string>)
    requires fds != [] && forall i :: 0 <= i < |fds| ==> Printable(fds[i])
    requires rest == [] || !StartsWith(rest[0], "revents=")
    ensures PollFdsValue(PollTokens(fds, true) + rest) == Ok((fds, rest))
  {
    var t := PollTokens(fds, true) + rest;
    assert t[0] == FdToken(fds[0].fd, true);
    assert StartsWith(t[0], "[{fd=");
    PollLoopRoundTrip(fds, true, rest);
  }
}
