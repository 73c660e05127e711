/** The handful of Python string primitives the parser is built from
    (`strip`, `split`, `find`, `rfind`, slicing, `isdigit`, `int`), each with
    the edge cases of CPython's definition that the parser relies on. */
module Text {
  import opened Wrappers

  /** CPython's `str.isspace`, the separator set of `split()` and `strip()`. */
  predicate IsSpace(c: char) {
    || c == ' '
    || ('\t' <= c <= '\r')
    || ('\U{1C}' <= c <= '\U{1F}')
    || c == '\U{85}' || c == '\U{A0}' || c == '\U{1680}'
    || ('\U{2000}' <= c <= '\U{200A}')
    || c == '\U{2028}' || c == '\U{2029}' || c == '\U{202F}' || c == '\U{205F}'
    || c == '\U{3000}'
  }

  predicate IsDigit(c: char) {
    '0' <= c <= '9'
  }

  /** `str.isdigit`: non-empty and made of decimal digits only. */
  predicate IsDigits(s: string) {
    |s| > 0 && forall i :: 0 <= i < |s| ==> IsDigit(s[i])
  }

  predicate StartsWith(s: string, prefix: string) {
    |prefix| <= |s| && s[..|prefix|] == prefix
  }

  predicate EndsWith(s: string, suffix: string) {
    |suffix| <= |s| && s[|s| - |suffix|..] == suffix
  }

  /** `sub` occurs in `s` starting at index `k`. */
  predicate OccursAt(s: string, sub: string, k: int) {
    0 <= k && k + |sub| <= |s| && s[k..k + |sub|] == sub
  }

  /** Python's `sub in s`. */
  predicate Contains(s: string, sub: string) {
    exists k | 0 <= k <= |s| :: OccursAt(s, sub, k)
  }

  /** Removes the longest prefix whose characters all satisfy `drop`. */
  function LStripWhere(s: string, drop: char -> bool): (r: string)
    ensures |r| <= |s| && r == s[|s| - |r|..]
    ensures forall i :: 0 <= i < |s| - |r| ==> drop(s[i])
    ensures r != [] ==> !drop(r[0])
  {
    if s != [] && drop(s[0]) then LStripWhere(s[1..], drop) else s
  }

  /** Removes the longest suffix whose characters all satisfy `drop`. */
  function RStripWhere(s: string, drop: char -> bool): (r: string)
    ensures |r| <= |s| && r == s[..|r|]
    ensures forall i :: |r| <= i < |s| ==> drop(s[i])
    ensures r != [] ==> !drop(r[|r| - 1])
  {
    if s != [] && drop(s[|s| - 1]) then RStripWhere(s[..|s| - 1], drop) else s
  }

  /** `s.strip()` */
  function Strip(s: string): string {
    RStripWhere(LStripWhere(s, IsSpace), IsSpace)
  }

  /** `s.lstrip(chars)` */
  function LStripChars(s: string, chars: set<char>): (r: string)
    ensures |r| <= |s| && r == s[|s| - |r|..]
    ensures forall i :: 0 <= i < |s| - |r| ==> s[i] in chars
    ensures r != [] ==> r[0] !in chars
  {
    if s != [] && s[0] in chars then LStripChars(s[1..], chars) else s
  }

  /** `s.rstrip(chars)` */
  function RStripChars(s: string, chars: set<char>): (r: string)
    ensures |r| <= |s| && r == s[..|r|]
    ensures forall i :: |r| <= i < |s| ==> s[i] in chars
    ensures r != [] ==> r[|r| - 1] !in chars
  {
    if s != [] && s[|s| - 1] in chars then RStripChars(s[..|s| - 1], chars) else s
  }

  /** `s.strip(chars)` */
  function StripChars(s: string, chars: set<char>): string {
    RStripChars(LStripChars(s, chars), chars)
  }

  /** Stripping leaves a string alone when neither end is a stripped character. */
  lemma {:induction false} StripCharsKeep(s: string, chars: set<char>)
    requires s != [] && s[0] !in chars && s[|s| - 1] !in chars
    ensures LStripChars(s, chars) == s && RStripChars(s, chars) == s
    ensures StripChars(s, chars) == s
  {
  }

  /** One stripped character in front goes away. */
  lemma {:induction false} LStripCharsCons(c: char, s: string, chars: set<char>)
    requires c in chars
    ensures LStripChars([c] + s, chars) == LStripChars(s, chars)
  {
    assert ([c] + s)[1..] == s;
  }

  /** One stripped character at the end goes away. */
  lemma {:induction false} RStripCharsSnoc(s: string, c: char, chars: set<char>)
    requires c in chars
    ensures RStripChars(s + [c], chars) == RStripChars(s, chars)
  {
    assert (s + [c])[..|s|] == s;
  }

  /** Stripping removes one closing character after a kept text. */
  lemma {:induction false} StripClosing(core: string, c: char, chars: set<char>)
    requires core != [] && core[0] !in chars && core[|core| - 1] !in chars && c in chars
    ensures StripChars(core + [c], chars) == core
  {
    assert (core + [c])[0] == core[0];
    StripCharsKeep(core, chars);
    RStripCharsSnoc(core, c, chars);
  }

  /** Stripping removes two closing characters after a kept text. */
  lemma {:induction false} StripClosing2(core: string, c: char, d: char, chars: set<char>)
    requires core != [] && core[0] !in chars && core[|core| - 1] !in chars && c in chars && d in chars
    ensures StripChars(core + [c, d], chars) == core
  {
    var t := core + [c, d];
    assert t[0] == core[0];
    assert t == (core + [c]) + [d];
    assert LStripChars(t, chars) == t;
    StripCharsKeep(core, chars);
    RStripCharsSnoc(core + [c], d, chars);
    RStripCharsSnoc(core, c, chars);
  }

  /** A prefix of a text is a prefix of anything that extends it. */
  lemma {:induction false} StartsWithExtend(s: string, prefix: string, more: string)
    requires StartsWith(s, prefix)
    ensures StartsWith(s + more, prefix)
  {
    assert (s + more)[..|prefix|] == s[..|prefix|];
  }

  /** `s.find(sub)`: the first index where `sub` occurs, or -1. */
  function Find(s: string, sub: string): (r: int)
    ensures -1 <= r <= |s|
    ensures r >= 0 ==> OccursAt(s, sub, r)
    ensures forall k :: 0 <= k <= |s| && (r < 0 || k < r) ==> !OccursAt(s, sub, k)
  {
    FindFrom(s, sub, 0)
  }

  function FindFrom(s: string, sub: string, i: nat): (r: int)
    requires i <= |s| + 1
    ensures r == -1 || i <= r <= |s|
    ensures r >= 0 ==> OccursAt(s, sub, r)
    ensures forall k :: i <= k <= |s| && (r < 0 || k < r) ==> !OccursAt(s, sub, k)
    decreases |s| + 1 - i
  {
    if i > |s| then -1
    else if OccursAt(s, sub, i) then i
    else FindFrom(s, sub, i + 1)
  }

  /** `s.rfind(sub)`: the last index where `sub` occurs, or -1. */
  function RFind(s: string, sub: string): (r: int)
    ensures -1 <= r <= |s|
    ensures r >= 0 ==> OccursAt(s, sub, r)
    ensures forall k :: 0 <= k <= |s| && r < k ==> !OccursAt(s, sub, k)
  {
    RFindUpTo(s, sub, |s|)
  }

  function RFindUpTo(s: string, sub: string, i: int): (r: int)
    requires -1 <= i <= |s|
    ensures -1 <= r <= i
    ensures r >= 0 ==> OccursAt(s, sub, r)
    ensures forall k :: 0 <= k <= i && r < k ==> !OccursAt(s, sub, k)
    decreases i + 1
  {
    if i < 0 then -1
    else if OccursAt(s, sub, i) then i
    else RFindUpTo(s, sub, i - 1)
  }

  lemma {:induction false} FindContains(s: string, sub: string)
    ensures Contains(s, sub) <==> Find(s, sub) >= 0
  {
    if Find(s, sub) >= 0 {
      assert OccursAt(s, sub, Find(s, sub));
    }
  }

  /** Python's index normalisation for slices: negative indices count from the end. */
  function SliceIndex(i: int, n: nat): (r: nat)
    ensures r <= n
  {
    if i < 0 then (if i + n < 0 then 0 else i + n)
    else if i > n then n
    else i
  }

  /** `s[i:j]` with Python's clamping and negative indices. */
  function Slice(s: string, i: int, j: int): string {
    var a := SliceIndex(i, |s|);
    var b := SliceIndex(j, |s|);
    if a < b then s[a..b] else []
  }

  /** Length of the run of non-whitespace characters at the front of `s`. */
  function WordLength(s: string): (n: nat)
    ensures n <= |s|
    ensures forall i :: 0 <= i < n ==> !IsSpace(s[i])
    ensures n < |s| ==> IsSpace(s[n])
  {
    if s == [] || IsSpace(s[0]) then 0 else 1 + WordLength(s[1..])
  }

  /** `s.split()`: the whitespace-separated words of `s`. */
  function Words(s: string): (r: seq<string>)
    ensures forall i :: 0 <= i < |r| ==> IsWord(r[i])
    decreases |s|
  {
    var t := LStripWhere(s, IsSpace);
    if t == [] then []
    else
      var n := WordLength(t);
      assert n > 0;
      var w := t[..n];
      assert IsWord(w);
      var more := Words(t[n..]);
      WordsPrepend(w, more);
      [w] + more
  }

  lemma {:induction false} WordsPrepend(w: string, more: seq<string>)
    requires IsWord(w) && forall i :: 0 <= i < |more| ==> IsWord(more[i])
    ensures forall i :: 0 <= i < |[w] + more| ==> IsWord(([w] + more)[i])
  {
    forall i | 0 <= i < |[w] + more|
      ensures IsWord(([w] + more)[i])
    {
      if i > 0 { assert ([w] + more)[i] == more[i - 1]; }
    }
  }

  /** `first, rest = s.split(None, 1)`: None when `s` has fewer than two
      words, which makes the unpacking raise. The rest keeps its trailing
      whitespace. */
  function SplitOnce(s: string): (r: Option<(string, string)>)
    ensures r.Some? ==> r.value.0 != [] && r.value.1 != []
    ensures r.Some? ==> forall i :: 0 <= i < |r.value.0| ==> !IsSpace(r.value.0[i])
    ensures r.Some? ==> !IsSpace(r.value.1[0])
    ensures r.None? <==> |Words(s)| < 2
  {
    var t := LStripWhere(s, IsSpace);
    if t == [] then None
    else
      var n := WordLength(t);
      var rest := LStripWhere(t[n..], IsSpace);
      if rest == [] then None else Some((t[..n], rest))
  }

  /** `split(None, 1)` of a word, one space and a text that starts with a
      non-space character gives the word and that text back. */
  lemma {:induction false} SplitOnceOf(w: string, rest: string)
    requires IsWord(w) && rest != [] && !IsSpace(rest[0])
    ensures SplitOnce(w + " " + rest) == Some((w, rest))
  {
    var tail := [' '] + rest;
    var s := w + tail;
    assert w + " " + rest == s;
    WordLengthOf(w, tail);
    assert s[|w|..] == tail && s[..|w|] == w;
    LStripSpaced(rest);
    SplitOnceWord(s, |w|);
  }

  /** `split(None, 1)` of a text that starts with a word of length `n`. */
  lemma {:induction false} SplitOnceWord(s: string, n: nat)
    requires s != [] && !IsSpace(s[0]) && WordLength(s) == n
    ensures var rest := LStripWhere(s[n..], IsSpace);
      SplitOnce(s) == if rest == [] then None else Some((s[..n], rest))
  {
    assert LStripWhere(s, IsSpace) == s;
  }

  lemma {:induction false} LStripSpaced(rest: string)
    requires rest != [] && !IsSpace(rest[0])
    ensures LStripWhere([' '] + rest, IsSpace) == rest
  {
    assert ([' '] + rest)[1..] == rest;
  }

  /** `s.split(sep)` for a non-empty separator: leftmost, non-overlapping. */
  function SplitOn(s: string, sep: string): (r: seq<string>)
    requires sep != []
    ensures |r| >= 1
    decreases |s|
  {
    var i := Find(s, sep);
    if i < 0 then [s] else [s[..i]] + SplitOn(s[i + |sep|..], sep)
  }

  /** `sep.join(parts)` */
  function Join(parts: seq<string>, sep: string): string {
    if parts == [] then []
    else if |parts| == 1 then parts[0]
    else parts[0] + sep + Join(parts[1..], sep)
  }

  /** Splitting and re-joining on the same separator gives the text back. */
  lemma {:induction false} JoinSplitOn(s: string, sep: string)
    requires sep != []
    ensures Join(SplitOn(s, sep), sep) == s
    decreases |s|
  {
    var i := Find(s, sep);
    if i >= 0 {
      var tail := s[i + |sep|..];
      var parts := SplitOn(tail, sep);
      JoinSplitOn(tail, sep);
      assert SplitOn(s, sep) == [s[..i]] + parts;
      JoinCons(s[..i], parts, sep);
      SplitAround(s, sep, i);
    }
  }

  /** A string is the text before an occurrence, the occurrence, and the text after it. */
  lemma {:induction false} SplitAround(s: string, sub: string, i: nat)
    requires OccursAt(s, sub, i)
    ensures s == s[..i] + sub + s[i + |sub|..]
  {
    assert s == s[..i] + s[i..i + |sub|] + s[i + |sub|..];
  }

  /** A string with no occurrence of the separator splits into itself. */
  lemma {:induction false} SplitOnAbsent(s: string, sep: string)
    requires sep != [] && !Contains(s, sep)
    ensures SplitOn(s, sep) == [s]
  {
    FindContains(s, sep);
  }

  function DigitValue(c: char): nat
    requires IsDigit(c)
  {
    (c as int) - ('0' as int)
  }

  /** Decimal value of a string of digits and underscores; underscores are skipped. */
  function DecimalValue(s: string): nat
    requires forall i :: 0 <= i < |s| ==> IsDigit(s[i]) || s[i] == '_'
  {
    if s == [] then 0
    else if s[|s| - 1] == '_' then DecimalValue(s[..|s| - 1])
    else DecimalValue(s[..|s| - 1]) * 10 + DigitValue(s[|s| - 1])
  }

  /** Body of a Python integer literal: digits, single underscores only between digits. */
  predicate IsIntBody(s: string) {
    && |s| > 0
    && IsDigit(s[0]) && IsDigit(s[|s| - 1])
    && (forall i :: 0 <= i < |s| ==> IsDigit(s[i]) || s[i] == '_')
    && (forall i :: 0 <= i < |s| - 1 ==> !(s[i] == '_' && s[i + 1] == '_'))
  }

  /** Python's `int(s)` in base 10: None where it raises ValueError. */
  function ParseInt(s: string): (r: Option<int>)
    ensures IsDigits(s) ==> r == Some(DecimalValue(s))
  {
    var t := Strip(s);
    if t != [] && (t[0] == '-' || t[0] == '+') then
      var body := t[1..];
      if IsIntBody(body) then
        Some(if t[0] == '-' then -(DecimalValue(body) as int) else DecimalValue(body))
      else None
    else if IsIntBody(t) then Some(DecimalValue(t))
    else None
  }

  /** The decimal digit character of `d`. */
  function DigitChar(d: nat): (c: char)
    requires d < 10
    ensures IsDigit(c) && DigitValue(c) == d
  {
    ('0' as int + d) as char
  }

  /** `str(n)` for a natural number. */
  function NatToString(n: nat): (r: string)
    ensures IsDigits(r)
    decreases n
  {
    if n < 10 then [DigitChar(n)] else NatToString(n / 10) + [DigitChar(n % 10)]
  }

  /** `str(n)` for an integer. */
  function IntToString(n: int): string {
    if n < 0 then "-" + NatToString(-n) else NatToString(n)
  }

  lemma {:induction false} NatToStringValue(n: nat)
    ensures DecimalValue(NatToString(n)) == n
    decreases n
  {
    var s := NatToString(n);
    if n >= 10 {
      NatToStringValue(n / 10);
      assert s[..|s| - 1] == NatToString(n / 10);
    }
  }

  lemma {:induction false} StripUnspaced(s: string)
    requires s != [] && !IsSpace(s[0]) && !IsSpace(s[|s| - 1])
    ensures Strip(s) == s
  {
  }

  /** `int(str(n)) == n` */
  lemma {:induction false} ParseIntToString(n: int)
    ensures ParseInt(IntToString(n)) == Some(n)
  {
    var digits := NatToString(if n < 0 then -n else n);
    NatToStringValue(if n < 0 then -n else n);
    var t := IntToString(n);
    StripUnspaced(t);
    if n < 0 {
      assert t[1..] == digits;
    }
  }

  /** A string that starts with `sub` finds it at index 0. */
  lemma {:induction false} FindAtStart(s: string, sub: string)
    requires StartsWith(s, sub)
    ensures Find(s, sub) == 0
  {
    assert OccursAt(s, sub, 0);
  }

  /** What follows a prefix, found at the front. */
  lemma {:induction false} AfterPrefix(prefix: string, rest: string)
    ensures StartsWith(prefix + rest, prefix)
    ensures Find(prefix + rest, prefix) == 0
    ensures SliceFrom(prefix + rest, |prefix|) == rest
  {
    assert (prefix + rest)[..|prefix|] == prefix;
    FindAtStart(prefix + rest, prefix);
    assert (prefix + rest)[|prefix|..] == rest;
  }

  /** The first three pieces of a string glued from six, by position. */
  lemma {:induction false} FrontPieces(a: string, b: string, c: string, d: string, e: string, f: string)
    ensures var s := a + b + c + d + e + f;
      && s[..|a|] == a
      && s[|a|..|a| + |b|] == b
      && s[|a| + |b|..|a| + |b| + |c|] == c
  {
    var s := a + b + c + d + e + f;
    assert s == (a + b + c) + (d + e + f);
  }

  /** The second piece of a four-piece string, and what follows it. */
  lemma {:induction false} MiddlePieces(a: string, b: string, c: string, d: string)
    ensures var s := a + b + c + d;
      && s[|a|..|a| + |b|] == b
      && s[|a| + |b|..] == c + d
  {
    var s := a + b + c + d;
    assert s == (a + b) + (c + d);
  }

  /** A string that ends with `sub` finds its last occurrence there. */
  lemma {:induction false} RFindAtEnd(s: string, sub: string)
    requires EndsWith(s, sub)
    ensures RFind(s, sub) == |s| - |sub|
  {
    assert OccursAt(s, sub, |s| - |sub|);
  }

  /** `find` answers `k` when `sub` occurs at `k` and nowhere before it. */
  lemma {:induction false} FindFirst(s: string, sub: string, k: nat)
    requires OccursAt(s, sub, k)
    requires forall j :: 0 <= j < k ==> !OccursAt(s, sub, j)
    ensures Find(s, sub) == k
  {
  }

  /** `rfind` answers `k` when `sub` occurs at `k` and nowhere after it. */
  lemma {:induction false} RFindLast(s: string, sub: string, k: nat)
    requires OccursAt(s, sub, k)
    requires forall j :: k < j <= |s| ==> !OccursAt(s, sub, j)
    ensures RFind(s, sub) == k
  {
  }

  /** `s[i:]` */
  function SliceFrom(s: string, i: int): string {
    Slice(s, i, |s|)
  }

  /** `a` is what is left of `b` after some of its front was consumed. */
  predicate IsSuffix<T(==)>(a: seq<T>, b: seq<T>) {
    |a| <= |b| && a == b[|b| - |a|..]
  }

  lemma {:induction false} SuffixTrans<T>(a: seq<T>, b: seq<T>, c: seq<T>)
    requires IsSuffix(a, b) && IsSuffix(b, c)
    ensures IsSuffix(a, c)
  {
    assert c[|c| - |b|..][|b| - |a|..] == c[|c| - |a|..];
  }

  lemma {:induction false} ConsTail<T>(xs: seq<T>)
    requires xs != []
    ensures [xs[0]] + xs[1..] == xs
  {
  }

  lemma {:induction false} ConsPrefix<T>(xs: seq<T>, j: nat)
    requires j < |xs|
    ensures [xs[0]] + xs[1..][..j] == xs[..j + 1]
  {
  }

  lemma {:induction false} JoinCons(a: string, rest: seq<string>, sep: string)
    ensures Join([a] + rest, sep) == if rest == [] then a else a + sep + Join(rest, sep)
  {
    if rest != [] {
      assert ([a] + rest)[1..] == rest;
    }
  }

  /** Gluing the first two parts with the separator does not change the join. */
  lemma {:induction false} JoinMergeHead(cur: string, x: string, ys: seq<string>, sep: string)
    ensures Join([cur + sep + x] + ys, sep) == Join([cur] + ([x] + ys), sep)
  {
    JoinCons(cur + sep + x, ys, sep);
    JoinCons(x, ys, sep);
    JoinCons(cur, [x] + ys, sep);
  }

  /** Text put in front of the first part comes out in front of the join. */
  lemma {:induction false} JoinPrependHead(p: string, xs: seq<string>, sep: string)
    requires xs != []
    ensures Join([p + xs[0]] + xs[1..], sep) == p + Join(xs, sep)
  {
    JoinCons(p + xs[0], xs[1..], sep);
    JoinCons(xs[0], xs[1..], sep);
    ConsTail(xs);
  }

  /** Text put after the last part comes out after the join. */
  lemma {:induction false} JoinAppendLast(xs: seq<string>, q: string, sep: string)
    requires xs != []
    ensures Join(xs[..|xs| - 1] + [xs[|xs| - 1] + q], sep) == Join(xs, sep) + q
    decreases |xs|
  {
    if |xs| == 1 {
      assert xs[..0] + [xs[0] + q] == [xs[0] + q];
    } else {
      var t := xs[1..];
      JoinAppendLast(t, q, sep);
      var u := t[..|t| - 1] + [t[|t| - 1] + q];
      assert xs[..|xs| - 1] == [xs[0]] + t[..|t| - 1];
      assert xs[..|xs| - 1] + [xs[|xs| - 1] + q] == [xs[0]] + u;
      JoinCons(xs[0], u, sep);
      JoinCons(xs[0], t, sep);
      ConsTail(xs);
    }
  }

  lemma {:induction false} JoinAppend(a: seq<string>, b: seq<string>, sep: string)
    requires a != [] && b != []
    ensures Join(a + b, sep) == Join(a, sep) + sep + Join(b, sep)
    decreases |a|
  {
    if |a| == 1 {
      assert (a + b)[1..] == b;
    } else {
      assert (a + b)[1..] == a[1..] + b;
      JoinAppend(a[1..], b, sep);
    }
  }

  /** A non-empty run of non-whitespace characters, as `split()` yields. */
  predicate IsWord(w: string) {
    w != [] && forall i :: 0 <= i < |w| ==> !IsSpace(w[i])
  }

  /** The first word of `w + rest` is `w` when `rest` starts with a separator. */
  lemma {:induction false} WordLengthOf(w: string, rest: string)
    requires forall i :: 0 <= i < |w| ==> !IsSpace(w[i])
    requires rest == [] || IsSpace(rest[0])
    ensures WordLength(w + rest) == |w|
    decreases |w|
  {
    if w != [] {
      assert (w + rest)[0] == w[0];
      assert (w + rest)[1..] == w[1..] + rest;
      WordLengthOf(w[1..], rest);
    }
  }

  /** Leading whitespace does not change the words. */
  lemma {:induction false} WordsSkipSpace(c: char, s: string)
    requires IsSpace(c)
    ensures Words([c] + s) == Words(s)
  {
    assert ([c] + s)[1..] == s;
  }

  /** `" ".join(ws).split() == ws` for words without whitespace. */
  lemma {:induction false} WordsJoin(ws: seq<string>)
    requires forall i :: 0 <= i < |ws| ==> IsWord(ws[i])
    ensures Words(Join(ws, " ")) == ws
    decreases |ws|
  {
    if ws != [] {
      var rest := if |ws| == 1 then [] else " " + Join(ws[1..], " ");
      var s := ws[0] + rest;
      assert s == Join(ws, " ");
      assert IsWord(ws[0]);
      WordLengthOf(ws[0], rest);
      assert LStripWhere(s, IsSpace) == s;
      assert s[..|ws[0]|] == ws[0] && s[|ws[0]|..] == rest;
      if |ws| > 1 {
        WordsJoin(ws[1..]);
        WordsSkipSpace(' ', Join(ws[1..], " "));
      }
      ConsTail(ws);
    }
  }
}
