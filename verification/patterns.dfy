/** The regular expressions of strace_parser.py, written out as matchers.

    Every pattern there ends in a return part `\)[ ]+=[ ]+V+(.*)` where `V`
    is a character class. A greedy group in front of that return part ends
    at the last `)` from which the return part matches, so the matchers
    below find that position from the right. Lines carry no newline (they
    come from iterating over the file), so `.` matches any character. */
module Patterns {
  import opened Wrappers
  import opened Text

  /** Length of the run of characters in `cls` starting at `i`. */
  function Run(s: string, i: nat, cls: char -> bool): (n: nat)
    requires i <= |s|
    ensures i + n <= |s|
    ensures forall k :: i <= k < i + n ==> cls(s[k])
    ensures i + n < |s| ==> !cls(s[i + n])
    decreases |s| - i
  {
    if i < |s| && cls(s[i]) then 1 + Run(s, i + 1, cls) else 0
  }

  predicate IsBlank(c: char) {
    c == ' '
  }

  predicate NotBlank(c: char) {
    c != ' '
  }

  /** `[-0-9]`, the return class of the option-detection pattern. */
  predicate IsNumeral(c: char) {
    c == '-' || IsDigit(c)
  }

  /** `[a-fx\d\-?]`, the return class of the line patterns. */
  predicate IsReturnChar(c: char) {
    ('a' <= c <= 'f') || c == 'x' || IsDigit(c) || c == '-' || c == '?'
  }

  /** Where the return value starts when `\)[ ]+=[ ]+V` matches at `q`. */
  function TailAt(s: string, q: nat, cls: char -> bool): (r: Option<nat>)
    ensures r.Some? ==> q + 4 <= r.value < |s| && s[q] == ')' && cls(s[r.value])
    ensures r.Some? ==> s[r.value - 1] == ' ' && s[q + 1] == ' '
  {
    if q < |s| && s[q] == ')' then
      var a := q + 1;
      var n := Run(s, a, IsBlank);
      if n > 0 && a + n < |s| && s[a + n] == '=' then
        var b := a + n + 1;
        var m := Run(s, b, IsBlank);
        if m > 0 && b + m < |s| && cls(s[b + m]) then Some(b + m) else None
      else None
    else None
  }

  /** The last position below `hi` where the return part matches. */
  function LastTail(s: string, cls: char -> bool, hi: nat): (r: Option<nat>)
    ensures r.Some? ==> r.value < hi && TailAt(s, r.value, cls).Some?
    ensures forall q :: (if r.Some? then r.value < q else 0 <= q) && q < hi ==> TailAt(s, q, cls).None?
    decreases hi
  {
    if hi == 0 then None
    else if TailAt(s, hi - 1, cls).Some? then Some(hi - 1)
    else LastTail(s, cls, hi - 1)
  }

  /** The pieces a matched return part splits the line into. */
  datatype Returned = Returned(body: string, value: string, rest: string)

  /** The greedy group that starts at `from`, followed by the return part:
      the group, the value `V+`, and what follows. */
  function MatchReturn(s: string, from: nat, cls: char -> bool): (r: Option<Returned>)
    requires from <= |s|
    ensures r.Some? ==> r.value.value != [] && cls(r.value.value[0])
    ensures r.Some? ==> r.value.rest == [] || !cls(r.value.rest[0])
  {
    match LastTail(s, cls, |s|)
    case None => None
    case Some(q) =>
      if q < from then None
      else
        var v := TailAt(s, q, cls).value;
        var n := Run(s, v, cls);
        Some(Returned(s[from..q], s[v..v + n], s[v + n..]))
  }

  /** The text a return part with single spaces prints. */
  function ReturnText(value: string): string {
    ") = " + value
  }

  /** A return part printed after `body` is found again, provided no `=` follows
      it, so that nothing after it could itself be read as a return part. */
  lemma {:induction false} MatchReturnOf(prefix: string, body: string, value: string, rest: string, cls: char -> bool)
    requires value != [] && forall k :: 0 <= k < |value| ==> cls(value[k])
    requires rest == [] || !cls(rest[0])
    requires '=' !in rest && !cls(' ') && !cls('=')
    ensures MatchReturn(prefix + body + ReturnText(value) + rest, |prefix|, cls) == Some(Returned(body, value, rest))
  {
    var s := prefix + body + ReturnText(value) + rest;
    var q := |prefix| + |body|;
    MiddlePieces(prefix, body, ReturnText(value), rest);
    ReturnTextAt(s, q, value, rest);
    ReturnFacts(s, q, value, rest, cls);
    MatchReturnFrom(s, |prefix|, q, q + 4, |value|, cls);
  }

  /** The printed return part seen from where it starts. */
  lemma {:induction false} ReturnTextAt(s: string, q: nat, value: string, rest: string)
    requires q <= |s| && s[q..] == ReturnText(value) + rest
    ensures q + 4 <= |s|
    ensures s[q] == ')' && s[q + 1] == ' ' && s[q + 2] == '=' && s[q + 3] == ' '
    ensures s[q + 4..] == value + rest
  {
    var t := ReturnText(value) + rest;
    assert t == ") = " + (value + rest);
    assert s[q] == t[0] && s[q + 1] == t[1] && s[q + 2] == t[2] && s[q + 3] == t[3];
    assert s[q + 4..] == t[4..];
  }

  lemma {:induction false} ReturnFacts(s: string, q: nat, value: string, rest: string, cls: char -> bool)
    requires q + 4 <= |s|
    requires s[q] == ')' && s[q + 1] == ' ' && s[q + 2] == '=' && s[q + 3] == ' '
    requires s[q + 4..] == value + rest
    requires value != [] && forall k :: 0 <= k < |value| ==> cls(value[k])
    requires rest == [] || !cls(rest[0])
    requires '=' !in rest && !cls(' ') && !cls('=')
    ensures LastTail(s, cls, |s|) == Some(q) && TailAt(s, q, cls) == Some(q + 4)
    ensures Run(s, q + 4, cls) == |value|
    ensures s[q + 4..q + 4 + |value|] == value && s[q + 4 + |value|..] == rest
  {
    var v := q + 4;
    assert s[v] == (value + rest)[0];
    TailAtSingle(s, q, cls);
    ValueRun(s, v, value, rest, cls);
    forall k | q < k < |s|
      ensures TailAt(s, k, cls).None?
    {
      if k < v {
        assert s[k] != ')';
      }
    }
    LastTailIs(s, cls, q);
  }

  /** What `MatchReturn` returns once the last return part is known. */
  lemma {:induction false} MatchReturnFrom(s: string, from: nat, q: nat, v: nat, n: nat, cls: char -> bool)
    requires from <= q < |s| && LastTail(s, cls, |s|) == Some(q)
    requires TailAt(s, q, cls) == Some(v) && Run(s, v, cls) == n
    ensures v + n <= |s|
    ensures MatchReturn(s, from, cls) == Some(Returned(s[from..q], s[v..v + n], s[v + n..]))
  {
    var r := MatchReturn(s, from, cls);
    assert r == Some(Returned(s[from..q], s[v..v + n], s[v + n..]));
  }

  /** A return part printed with single spaces. */
  lemma {:induction false} TailAtSingle(s: string, q: nat, cls: char -> bool)
    requires q + 4 < |s|
    requires s[q] == ')' && s[q + 1] == ' ' && s[q + 2] == '=' && s[q + 3] == ' ' && cls(s[q + 4])
    requires !cls(' ')
    ensures TailAt(s, q, cls) == Some(q + 4)
  {
    RunOf(s, q + 1, IsBlank, 1);
    RunOf(s, q + 3, IsBlank, 1);
  }

  /** The value run ends where `rest` starts, and no `=` follows. */
  lemma {:induction false} ValueRun(s: string, v: nat, value: string, rest: string, cls: char -> bool)
    requires v <= |s| && s[v..] == value + rest
    requires forall k :: 0 <= k < |value| ==> cls(value[k])
    requires rest == [] || !cls(rest[0])
    requires '=' !in rest && !cls('=')
    ensures Run(s, v, cls) == |value|
    ensures s[v..v + |value|] == value && s[v + |value|..] == rest
    ensures forall k :: v <= k < |s| ==> TailAt(s, k, cls).None?
  {
    forall k | v <= k < |s|
      ensures s[k] != '='
    {
      assert s[k] == (value + rest)[k - v];
    }
    forall k | v <= k < v + |value|
      ensures cls(s[k])
    {
      assert s[k] == (value + rest)[k - v];
    }
    if v + |value| < |s| {
      assert s[v + |value|] == rest[0];
    }
    RunOf(s, v, cls, |value|);
    NoTailIn(s, v, cls);
    assert s[v..v + |value|] == (value + rest)[..|value|];
  }

  /** `Run` stops exactly where the class stops. */
  lemma {:induction false} RunOf(s: string, i: nat, cls: char -> bool, n: nat)
    requires i + n <= |s|
    requires forall k :: i <= k < i + n ==> cls(s[k])
    requires i + n == |s| || !cls(s[i + n])
    ensures Run(s, i, cls) == n
  {
    var m := Run(s, i, cls);
    if m < n {
      assert false;
    } else if m > n {
      assert false;
    }
  }

  /** No return part starts in a tail without an `=`. */
  lemma {:induction false} NoTailIn(s: string, v: nat, cls: char -> bool)
    requires forall k :: v <= k < |s| ==> s[k] != '='
    ensures forall q :: v <= q < |s| ==> TailAt(s, q, cls).None?
  {
  }

  lemma {:induction false} LastTailIs(s: string, cls: char -> bool, q: nat)
    requires q < |s| && TailAt(s, q, cls).Some?
    requires forall k :: q < k < |s| ==> TailAt(s, k, cls).None?
    ensures LastTail(s, cls, |s|) == Some(q)
  {
    var r := LastTail(s, cls, |s|);
    if r.None? {
      assert false;
    } else if r.value != q {
      assert false;
    }
  }

  /** The first bracket of a line is the one after a bracket-free front. */
  lemma {:induction false} FindFirstBracket(line: string, front: string)
    requires |front| < |line| && line[..|front|] == front && line[|front|] == '('
    requires forall k :: 0 <= k < |front| ==> front[k] != '('
    ensures Find(line, "(") == |front|
  {
    forall j | 0 <= j < |front|
      ensures !OccursAt(line, "(", j)
    {
      assert line[j] == front[j];
    }
    assert OccursAt(line, "(", |front|);
    FindFirst(line, "(", |front|);
  }
}
