/** The quote-aware argument splitter. A naive split of an argument list on
    ", " breaks string literals that themselves contain ", "; the merge
    re-joins a token that opens a double quote with the tokens that follow it
    until the accumulated text ends in an unescaped closing quote.

    strace_parser.py and posix_omni_parser/parsers/Parser.py carry two
    textually identical copies of this code; it is modelled once. */
module QuoteMerge {
  import opened Text

  const Sep: string := ", "

  /** Length of the run of backslashes that ends just before index `end`. */
  function BackslashRun(s: string, end: nat): (k: nat)
    requires end <= |s|
    ensures k <= end
    ensures forall i :: end - k <= i < end ==> s[i] == '\\'
    ensures k < end ==> s[end - k - 1] != '\\'
  {
    if end == 0 || s[end - 1] != '\\' then 0 else 1 + BackslashRun(s, end - 1)
  }

  /** `_ends_in_unescaped_quote`: the loop walks Python's negative indices
      -2, -3, ... and at the first non-backslash answers `index % 2 == 0`. */
  function EndsInUnescapedQuote(s: string): bool {
    if s == [] || s[|s| - 1] != '"' then false
    else ScanBack(s, |s| - 2)
  }

  /** One iteration of the backwards scan at absolute position `i`
      (Python index `i - |s|`). */
  function ScanBack(s: string, i: int): bool
    requires -1 <= i < |s|
    decreases i + 1
  {
    if i < 0 then false
    else if s[i] != '\\' then (i - |s|) % 2 == 0
    else ScanBack(s, i - 1)
  }

  lemma {:induction false} ScanBackRun(s: string, i: int)
    requires -1 <= i < |s|
    ensures var k := BackslashRun(s, i + 1);
            ScanBack(s, i) <==> k < i + 1 && (i - k - |s|) % 2 == 0
    decreases i + 1
  {
    if i >= 0 && s[i] == '\\' {
      ScanBackRun(s, i - 1);
    }
  }

  /** The closing quote is unescaped exactly when the backslashes in front of
      it are even in number and something other than a backslash precedes
      them; an empty string or a lone quote is not a closed literal. */
  lemma {:induction false} EndsInUnescapedQuoteIff(s: string)
    ensures EndsInUnescapedQuote(s) <==>
              && |s| >= 2 && s[|s| - 1] == '"'
              && BackslashRun(s, |s| - 1) < |s| - 1
              && BackslashRun(s, |s| - 1) % 2 == 0
  {
    if |s| >= 1 && s[|s| - 1] == '"' {
      ScanBackRun(s, |s| - 2);
    }
  }

  /** A token whose text (ignoring a trailing "..." truncation marker) closes its quote. */
  predicate Closed(t: string) {
    EndsInUnescapedQuote(StripChars(t, {'.'}))
  }

  predicate OpensQuote(t: string) {
    StartsWith(t, "\"")
  }

  /** The inner `while` loop: appends following tokens to `cur` until it closes
      or the list is exhausted. Returns the grown token and what is left. */
  function Absorb(cur: string, rest: seq<string>): (r: (string, seq<string>))
    ensures |r.1| <= |rest| && r.1 == rest[|rest| - |r.1|..]
    ensures r.1 != [] ==> Closed(r.0)
    ensures StartsWith(r.0, cur)
    decreases |rest|
  {
    if rest == [] then (cur, [])
    else if Closed(cur) then (cur, rest)
    else
      var r := Absorb(cur + Sep + rest[0], rest[1..]);
      assert StartsWith(cur + Sep + rest[0], cur);
      assert r.0[..|cur|] == (cur + Sep + rest[0])[..|cur|];
      r
  }

  /** The outer `while` loop over the token list. */
  function MergeFrom(args: seq<string>): (r: seq<string>)
    ensures |r| <= |args|
    ensures r == [] <==> args == []
    decreases |args|
  {
    if args == [] then []
    else if OpensQuote(args[0]) then
      var (tok, rest) := Absorb(args[0], args[1..]);
      [tok] + MergeFrom(rest)
    else [args[0]] + MergeFrom(args[1..])
  }

  /** Every token that opens a quote, except possibly the last, is closed. */
  predicate Settled(r: seq<string>) {
    forall i :: 0 <= i < |r| - 1 && OpensQuote(r[i]) ==> Closed(r[i])
  }

  /** `_merge_quote_args` */
  function MergeQuoteArgs(args: seq<string>): (r: seq<string>)
    ensures |args| <= 1 ==> r == args
    ensures |r| <= |args|
    ensures Join(r, Sep) == Join(args, Sep)
    ensures Settled(r)
  {
    if |args| <= 1 then args
    else
      MergeFromJoin(args);
      MergeFromSettled(args);
      MergeFrom(args)
  }

  lemma {:induction false} AbsorbJoin(cur: string, rest: seq<string>)
    ensures Join([Absorb(cur, rest).0] + Absorb(cur, rest).1, Sep) == Join([cur] + rest, Sep)
    decreases |rest|
  {
    if rest != [] && !Closed(cur) {
      var next := cur + Sep + rest[0];
      var tail := rest[1..];
      var r := Absorb(next, tail);
      assert Absorb(cur, rest) == r;
      AbsorbJoin(next, tail);
      calc {
        Join([r.0] + r.1, Sep);
        Join([next] + tail, Sep);
        { JoinMergeHead(cur, rest[0], tail, Sep); }
        Join([cur] + ([rest[0]] + tail), Sep);
        { ConsTail(rest); }
        Join([cur] + rest, Sep);
      }
    }
  }

  lemma {:induction false} MergeFromJoin(args: seq<string>)
    ensures Join(MergeFrom(args), Sep) == Join(args, Sep)
    decreases |args|
  {
    if args != [] {
      assert args == [args[0]] + args[1..];
      if OpensQuote(args[0]) {
        var (tok, rest) := Absorb(args[0], args[1..]);
        MergeFromJoin(rest);
        JoinCons(tok, MergeFrom(rest), Sep);
        JoinCons(tok, rest, Sep);
        AbsorbJoin(args[0], args[1..]);
      } else {
        MergeFromJoin(args[1..]);
        JoinCons(args[0], MergeFrom(args[1..]), Sep);
        JoinCons(args[0], args[1..], Sep);
      }
    }
  }

  lemma {:induction false} MergeFromSettled(args: seq<string>)
    ensures Settled(MergeFrom(args))
    decreases |args|
  {
    if args != [] {
      if OpensQuote(args[0]) {
        var (tok, rest) := Absorb(args[0], args[1..]);
        MergeFromSettled(rest);
        var r := [tok] + MergeFrom(rest);
        assert StartsWith(tok, args[0]);
        forall i | 0 <= i < |r| - 1 && OpensQuote(r[i])
          ensures Closed(r[i])
        {
          if i > 0 {
            assert r[i] == MergeFrom(rest)[i - 1];
          }
        }
      } else {
        MergeFromSettled(args[1..]);
        var r := [args[0]] + MergeFrom(args[1..]);
        forall i | 0 <= i < |r| - 1 && OpensQuote(r[i])
          ensures Closed(r[i])
        {
          assert i > 0;
          assert r[i] == MergeFrom(args[1..])[i - 1];
        }
      }
    }
  }

  /** Merging an already settled list changes nothing. */
  lemma {:induction false} MergeFromFixpoint(r: seq<string>)
    requires Settled(r)
    ensures MergeFrom(r) == r
    decreases |r|
  {
    if r != [] {
      assert Settled(r[1..]) by {
        forall i | 0 <= i < |r[1..]| - 1 && OpensQuote(r[1..][i])
          ensures Closed(r[1..][i])
        {
          assert r[1..][i] == r[i + 1];
        }
      }
      MergeFromFixpoint(r[1..]);
      assert r == [r[0]] + r[1..];
    }
  }

  /** Re-running the splitter on its own output is the identity. */
  lemma {:induction false} MergeQuoteArgsIdempotent(args: seq<string>)
    ensures MergeQuoteArgs(MergeQuoteArgs(args)) == MergeQuoteArgs(args)
  {
    var r := MergeQuoteArgs(args);
    if |r| > 1 {
      MergeFromFixpoint(r);
    }
  }

  /** Tokens that never open a quote pass through unchanged. */
  lemma {:induction false} MergeFromUnquoted(args: seq<string>)
    requires forall i :: 0 <= i < |args| ==> !OpensQuote(args[i])
    ensures MergeFrom(args) == args
    decreases |args|
  {
    if args != [] {
      MergeFromUnquoted(args[1..]);
      assert args == [args[0]] + args[1..];
    }
  }

  lemma {:induction false} MergeQuoteArgsUnquoted(args: seq<string>)
    requires forall i :: 0 <= i < |args| ==> !OpensQuote(args[i])
    ensures MergeQuoteArgs(args) == args
  {
    if |args| > 1 {
      MergeFromUnquoted(args);
    }
  }

  /** If no prefix of the run ever closes the quote, the opening token
      swallows every remaining token. */
  lemma {:induction false} AbsorbUnclosed(cur: string, rest: seq<string>)
    requires forall j :: 0 <= j < |rest| ==> !Closed(Join([cur] + rest[..j], Sep))
    ensures Absorb(cur, rest) == (Join([cur] + rest, Sep), [])
    decreases |rest|
  {
    if rest == [] {
      assert [cur] + rest == [cur];
    } else {
      assert [cur] + rest[..0] == [cur];
      var next := cur + Sep + rest[0];
      forall j | 0 <= j < |rest[1..]|
        ensures !Closed(Join([next] + rest[1..][..j], Sep))
      {
        JoinMergeHead(cur, rest[0], rest[1..][..j], Sep);
        ConsPrefix(rest, j);
      }
      AbsorbUnclosed(next, rest[1..]);
      JoinMergeHead(cur, rest[0], rest[1..], Sep);
      ConsTail(rest);
    }
  }

  /** A token with an unmatched opening quote becomes the last element and
      carries the text of everything after it. */
  lemma {:induction false} MergeUnmatchedQuote(args: seq<string>)
    requires |args| >= 2 && OpensQuote(args[0])
    requires forall j :: 1 <= j < |args| ==> !Closed(Join(args[..j], Sep))
    ensures MergeQuoteArgs(args) == [Join(args, Sep)]
  {
    forall j | 0 <= j < |args[1..]|
      ensures !Closed(Join([args[0]] + args[1..][..j], Sep))
    {
      ConsPrefix(args, j);
    }
    AbsorbUnclosed(args[0], args[1..]);
    ConsTail(args);
  }
}
