/** Flags fields and numeric permission modes (`_string_to_flags` and
    `_mode_to_flags` in both casting engines).

    A flags field is a `|`-joined list of symbols; a component made of digits
    is a permission mode written in octal and is expanded into `S_I*` symbols,
    one octal digit per entity (user, group, other). */
module Modes {
  import opened Wrappers
  import opened Text

  const FullPermissions: string := "S_IRWXA"

  /** Entity positions: 2 is the user digit, 1 the group digit, 0 the other digit. */
  function AllSymbol(pos: nat): string
    requires pos <= 2
  {
    ["S_IRWXO", "S_IRWXG", "S_IRWXU"][pos]
  }

  function ReadSymbol(pos: nat): string
    requires pos <= 2
  {
    ["S_IROTH", "S_IRGRP", "S_IRUSR"][pos]
  }

  function WriteSymbol(pos: nat): string
    requires pos <= 2
  {
    ["S_IWOTH", "S_IWGRP", "S_IWUSR"][pos]
  }

  function ExecSymbol(pos: nat): string
    requires pos <= 2
  {
    ["S_IXOTH", "S_IXGRP", "S_IXUSR"][pos]
  }

  /** `digit & bit == bit` */
  predicate HasBit(digit: nat, bit: nat)
    requires digit < 8 && bit < 8
  {
    (digit as bv3) & (bit as bv3) == bit as bv3
  }

  /** The symbols one digit contributes at entity position `pos`. A digit
      above 7 is rejected; a 7 in a position beyond the user digit has no
      entry in the symbol table and fails the lookup; other digits beyond the
      user digit match no symbol of the table's range test. */
  function DigitFlags(digit: nat, pos: nat): (r: Result<seq<string>>)
    ensures digit > 7 ==> r.Err?
    ensures digit <= 7 && pos <= 2 ==> r.Ok?
    ensures digit == 7 && pos <= 2 ==> r == Ok([AllSymbol(pos)])
  {
    if digit > 7 then Err(BadMode)
    else if digit == 7 then
      if pos <= 2 then Ok([AllSymbol(pos)]) else Err(BadMode)
    else if pos > 2 then Ok([])
    else
      Ok((if HasBit(digit, 4) then [ReadSymbol(pos)] else [])
         + (if HasBit(digit, 2) then [WriteSymbol(pos)] else [])
         + (if HasBit(digit, 1) then [ExecSymbol(pos)] else []))
  }

  predicate AllDigits(s: string) {
    forall i :: 0 <= i < |s| ==> IsDigit(s[i])
  }

  /** The per-digit loop: the first character is the most significant entity. */
  function DigitsToFlags(s: string): Result<seq<string>>
    requires AllDigits(s)
  {
    if s == [] then Ok([])
    else
      var head :- DigitFlags(DigitValue(s[0]), |s| - 1);
      var tail :- DigitsToFlags(s[1..]);
      Ok(head + tail)
  }

  /** A 7 more than three places from the end of the digits: the loop looks
      up `mode_flags[7 * entity_position]`, which the symbol table lacks. */
  predicate SevenBeyondUser(t: string) {
    exists j :: 0 <= j < |t| - 3 && t[j] == '7'
  }

  /** `_mode_to_flags` corrected to keep the place value of every octal
      digit: the number is read without its leading zeros only
      (`lstrip("0")`), a zero mode has no symbols, 777 is the single
      full-permission symbol, otherwise each digit expands on its own. */
  function ModeToFlags(s: string): Result<seq<string>>
    requires IsDigits(s)
  {
    var t := LStripChars(s, {'0'});
    if t == [] then Ok([]) else ExpandDigits(t)
  }

  /** `_mode_to_flags` of posix_omni_parser/parsing_classes.py as written,
      applied to `int(flag)`: `str(mode).strip("0")` removes trailing zeros as
      well as leading ones, so the digits shift towards the "other" entity,
      and a zero mode makes `int("")` raise. */
  function ModeToFlagsAsWritten(s: string): Result<seq<string>>
    requires IsDigits(s)
  {
    var t := StripChars(s, {'0'});
    if t == [] then Err(BadMode) else ExpandDigits(t)
  }

  /** The digits left after stripping: 777 is the single full-permission
      symbol, anything else expands digit by digit. */
  function ExpandDigits(t: string): Result<seq<string>>
    requires AllDigits(t)
  {
    if t == "777" then Ok([FullPermissions]) else DigitsToFlags(t)
  }

  // ----- The inverse: permission bits named by a list of symbols -----

  function SymbolBits(sym: string): nat {
    match sym
    case "S_IRWXA" => 511
    case "S_IRWXU" => 448
    case "S_IRUSR" => 256
    case "S_IWUSR" => 128
    case "S_IXUSR" => 64
    case "S_IRWXG" => 56
    case "S_IRGRP" => 32
    case "S_IWGRP" => 16
    case "S_IXGRP" => 8
    case "S_IRWXO" => 7
    case "S_IROTH" => 4
    case "S_IWOTH" => 2
    case "S_IXOTH" => 1
    case _ => 0
  }

  /** The mode a list of permission symbols denotes. */
  function FlagsToMode(flags: seq<string>): nat {
    if flags == [] then 0 else SymbolBits(flags[0]) + FlagsToMode(flags[1..])
  }

  function Pow8(n: nat): nat {
    if n == 0 then 1 else 8 * Pow8(n - 1)
  }

  predicate OctalDigits(s: string) {
    forall i :: 0 <= i < |s| ==> '0' <= s[i] <= '7'
  }

  /** The number a string of octal digits denotes, read left to right. */
  function OctalValue(s: string): nat
    requires OctalDigits(s)
  {
    if s == [] then 0 else OctalValue(s[..|s| - 1]) * 8 + DigitValue(s[|s| - 1])
  }

  lemma {:induction false} FlagsToModeAppend(a: seq<string>, b: seq<string>)
    ensures FlagsToMode(a + b) == FlagsToMode(a) + FlagsToMode(b)
    decreases |a|
  {
    if a == [] {
      assert a + b == b;
    } else {
      assert (a + b)[1..] == a[1..] + b;
      FlagsToModeAppend(a[1..], b);
    }
  }

  lemma {:induction false} HasBitTable(digit: nat)
    requires digit < 8
    ensures HasBit(digit, 4) <==> digit >= 4
    ensures HasBit(digit, 2) <==> digit % 4 >= 2
    ensures HasBit(digit, 1) <==> digit % 2 == 1
  {
    if digit == 0 {} else if digit == 1 {} else if digit == 2 {} else if digit == 3 {}
    else if digit == 4 {} else if digit == 5 {} else if digit == 6 {} else {}
  }

  lemma {:induction false} SymbolTable(pos: nat)
    requires pos <= 2
    ensures SymbolBits(ReadSymbol(pos)) == 4 * Pow8(pos)
    ensures SymbolBits(WriteSymbol(pos)) == 2 * Pow8(pos)
    ensures SymbolBits(ExecSymbol(pos)) == Pow8(pos)
    ensures SymbolBits(AllSymbol(pos)) == 7 * Pow8(pos)
  {
    assert Pow8(0) == 1 && Pow8(1) == 8 && Pow8(2) == 64;
  }

  lemma {:induction false} FlagsToModeSingle(sym: string)
    ensures FlagsToMode([sym]) == SymbolBits(sym)
  {
    assert [sym][1..] == [];
  }

  /** One digit's symbols carry exactly that digit's permission bits. */
  lemma {:induction false} DigitFlagsBits(digit: nat, pos: nat)
    requires digit <= 7 && pos <= 2
    ensures DigitFlags(digit, pos).Ok?
    ensures FlagsToMode(DigitFlags(digit, pos).value) == digit * Pow8(pos)
  {
    SymbolTable(pos);
    var r := DigitFlags(digit, pos).value;
    if digit == 7 {
      FlagsToModeSingle(AllSymbol(pos));
    } else {
      HasBitTable(digit);
      var a: seq<string> := if HasBit(digit, 4) then [ReadSymbol(pos)] else [];
      var b: seq<string> := if HasBit(digit, 2) then [WriteSymbol(pos)] else [];
      var c: seq<string> := if HasBit(digit, 1) then [ExecSymbol(pos)] else [];
      assert r == a + b + c;
      FlagsToModeAppend(a + b, c);
      FlagsToModeAppend(a, b);
      FlagsToModeSingle(ReadSymbol(pos));
      FlagsToModeSingle(WriteSymbol(pos));
      FlagsToModeSingle(ExecSymbol(pos));
      var fa := if digit >= 4 then 4 else 0;
      var fb := if digit % 4 >= 2 then 2 else 0;
      var fc := if digit % 2 == 1 then 1 else 0;
      assert FlagsToMode(a) == fa * Pow8(pos);
      assert FlagsToMode(b) == fb * Pow8(pos);
      assert FlagsToMode(c) == fc * Pow8(pos);
      assert digit == fa + fb + fc;
      assert FlagsToMode(r) == (fa + fb + fc) * Pow8(pos);
    }
  }

  /** Expanding at most three octal digits names exactly the bits they denote. */
  lemma {:induction false} DigitsToFlagsBits(s: string)
    requires |s| <= 3 && OctalDigits(s)
    ensures AllDigits(s) && DigitsToFlags(s).Ok?
    ensures FlagsToMode(DigitsToFlags(s).value) == OctalValue(s)
    decreases |s|
  {
    if s != [] {
      OctalHead(s);
      DigitFlagsBits(DigitValue(s[0]), |s| - 1);
      DigitsToFlagsBits(s[1..]);
      FlagsToModeAppend(DigitFlags(DigitValue(s[0]), |s| - 1).value, DigitsToFlags(s[1..]).value);
    }
  }

  /** A digit above 7 anywhere makes the expansion fail. */
  lemma {:induction false} DigitsToFlagsRejects(s: string, i: nat)
    requires AllDigits(s) && i < |s| && s[i] > '7'
    ensures DigitsToFlags(s).Err?
    decreases |s|
  {
    if i > 0 {
      DigitsToFlagsRejects(s[1..], i - 1);
    }
  }

  /** Octal digits written one after the other: the first part moves up one
      place per digit of the second. */
  lemma {:induction false} OctalValueAppend(a: string, b: string)
    requires OctalDigits(a) && OctalDigits(b)
    ensures OctalDigits(a + b)
    ensures OctalValue(a + b) == OctalValue(a) * Pow8(|b|) + OctalValue(b)
    decreases |b|
  {
    if b == [] {
      assert a + b == a;
    } else {
      var init := b[..|b| - 1];
      var ab := a + b;
      assert ab[..|ab| - 1] == a + init;
      assert ab[|ab| - 1] == b[|b| - 1];
      OctalValueAppend(a, init);
      var x := OctalValue(a);
      var p := Pow8(|init|);
      assert Pow8(|b|) == 8 * p;
      ShiftOnePlace(x, p);
    }
  }

  lemma {:induction false} ShiftOnePlace(x: nat, p: nat)
    ensures x * (8 * p) == (x * p) * 8
  {
  }

  /** An octal number is its first digit's value in place plus the rest. */
  lemma {:induction false} OctalHead(s: string)
    requires OctalDigits(s) && s != []
    ensures OctalDigits(s[1..])
    ensures OctalValue(s) == DigitValue(s[0]) * Pow8(|s| - 1) + OctalValue(s[1..])
  {
    var head := s[..1];
    assert s == head + s[1..];
    assert head[..0] == [];
    OctalValueAppend(head, s[1..]);
  }

  /** A run of zeros is worth nothing. */
  lemma {:induction false} ZerosValue(z: string)
    requires forall i :: 0 <= i < |z| ==> z[i] == '0'
    ensures OctalDigits(z) && OctalValue(z) == 0
    decreases |z|
  {
    if z != [] {
      ZerosValue(z[..|z| - 1]);
    }
  }

  lemma {:induction false} OctalValue777()
    ensures OctalDigits("777") && OctalValue("777") == 511
  {
    assert "777"[..2] == "77" && "77"[..1] == "7" && "7"[..0] == "";
  }

  /** Zeros in front of an octal number do not change its value. */
  lemma {:induction false} ZeroPrefixValue(s: string, k: nat)
    requires OctalDigits(s) && k <= |s| && forall i :: 0 <= i < k ==> s[i] == '0'
    ensures OctalDigits(s[k..]) && OctalValue(s[k..]) == OctalValue(s)
  {
    var z := s[..k];
    assert s == z + s[k..];
    forall i | 0 <= i < |z|
      ensures z[i] == '0'
    {
      assert z[i] == s[i];
    }
    ZerosValue(z);
    OctalValueAppend(z, s[k..]);
  }

  /** Zeros after an octal number move it up one place each. */
  lemma {:induction false} ZeroSuffixValue(u: string, n: nat)
    requires OctalDigits(u) && n <= |u| && forall i :: n <= i < |u| ==> u[i] == '0'
    ensures OctalDigits(u[..n]) && OctalValue(u) == OctalValue(u[..n]) * Pow8(|u| - n)
  {
    var z := u[n..];
    assert u == u[..n] + z;
    forall i | 0 <= i < |z|
      ensures z[i] == '0'
    {
      assert z[i] == u[n + i];
    }
    ZerosValue(z);
    OctalValueAppend(u[..n], z);
  }

  /** Python's `lstrip("0")` keeps the value of an octal number. */
  lemma {:induction false} LeadingZerosValue(s: string)
    requires OctalDigits(s)
    ensures var u := LStripChars(s, {'0'});
      OctalDigits(u) && OctalValue(u) == OctalValue(s)
  {
    var u := LStripChars(s, {'0'});
    var k := |s| - |u|;
    forall i | 0 <= i < k
      ensures s[i] == '0'
    {
      assert s[i] in {'0'};
    }
    ZeroPrefixValue(s, k);
  }

  /** Python's `rstrip("0")` divides an octal number by eight per zero. */
  lemma {:induction false} TrailingZerosValue(u: string)
    requires OctalDigits(u)
    ensures var t := RStripChars(u, {'0'});
      OctalDigits(t) && OctalValue(u) == OctalValue(t) * Pow8(|u| - |t|)
  {
    var t := RStripChars(u, {'0'});
    forall i | |t| <= i < |u|
      ensures u[i] == '0'
    {
      assert u[i] in {'0'};
    }
    ZeroSuffixValue(u, |t|);
  }

  /** Round trip: for a mode of at most three octal digits (after its leading
      zeros), the symbols name exactly the permission bits of the mode. */
  lemma {:induction false} ModeToFlagsRoundTrip(s: string)
    requires IsDigits(s) && OctalDigits(s) && |LStripChars(s, {'0'})| <= 3
    ensures ModeToFlags(s).Ok?
    ensures FlagsToMode(ModeToFlags(s).value) == OctalValue(s)
  {
    var t := LStripChars(s, {'0'});
    LeadingZerosValue(s);
    if t != [] {
      ExpandedBits(t);
    }
  }

  /** Up to three octal digits expand into symbols naming their bits. */
  lemma {:induction false} ExpandedBits(t: string)
    requires 1 <= |t| <= 3 && OctalDigits(t)
    ensures AllDigits(t)
    ensures ExpandDigits(t).Ok? && FlagsToMode(ExpandDigits(t).value) == OctalValue(t)
  {
    DigitsToFlagsBits(t);
    if t == "777" {
      FlagsToModeSingle(FullPermissions);
      OctalValue777();
    }
  }

  /** A mode with a digit that is not octal is rejected, whatever its length. */
  lemma {:induction false} ModeRejectsNonOctal(s: string, i: nat)
    requires IsDigits(s) && i < |s| && s[i] > '7'
    ensures ModeToFlags(s).Err?
  {
    var t := LStripChars(s, {'0'});
    var k := LeadingDigitAt(s, i);
    var j := i - k;
    LeadingStripDigits(s);
    NotSevens(t, j);
    DigitsToFlagsRejects(t, j);
  }

  lemma {:induction false} NotSevens(t: string, j: nat)
    requires j < |t| && t[j] != '7'
    ensures t != "777"
  {
  }

  lemma {:induction false} TailDigits(t: string)
    requires AllDigits(t) && t != []
    ensures AllDigits(t[1..])
    ensures OctalDigits(t) <==> '0' <= t[0] <= '7' && OctalDigits(t[1..])
    ensures SevenBeyondUser(t) <==> (t[0] == '7' && |t| > 3) || SevenBeyondUser(t[1..])
  {
    var tail := t[1..];
    AllDigitsOf(t, tail, 1);
    if '0' <= t[0] <= '7' && OctalDigits(tail) {
      forall i | 0 <= i < |t|
        ensures '0' <= t[i] <= '7'
      {
        if i > 0 {
          assert t[i] == tail[i - 1];
        }
      }
    }
    if OctalDigits(t) {
      forall i | 0 <= i < |tail|
        ensures '0' <= tail[i] <= '7'
      {
        assert tail[i] == t[i + 1];
      }
    }
    if SevenBeyondUser(t) {
      var j :| 0 <= j < |t| - 3 && t[j] == '7';
      if j > 0 {
        assert tail[j - 1] == '7';
      }
    }
    if SevenBeyondUser(tail) {
      var j :| 0 <= j < |tail| - 3 && tail[j] == '7';
      assert t[j + 1] == '7';
    }
    if t[0] == '7' && |t| > 3 {
      assert 0 < |t| - 3;
    }
  }

  /** The digit loop fails exactly on a digit that is not octal or on a 7
      beyond the user digit. */
  lemma {:induction false} DigitsToFlagsErrIff(t: string)
    requires AllDigits(t)
    ensures DigitsToFlags(t).Err? <==> !OctalDigits(t) || SevenBeyondUser(t)
    decreases |t|
  {
    if t != [] {
      TailDigits(t);
      DigitsToFlagsErrIff(t[1..]);
    }
  }

  lemma {:induction false} OctalValueBound(s: string)
    requires OctalDigits(s)
    ensures OctalValue(s) < Pow8(|s|)
    decreases |s|
  {
    if s != [] {
      var init := s[..|s| - 1];
      OctalValueBound(init);
      assert OctalValue(s) == OctalValue(init) * 8 + DigitValue(s[|s| - 1]);
      assert OctalValue(init) + 1 <= Pow8(|init|);
      assert (OctalValue(init) + 1) * 8 <= Pow8(|init|) * 8;
    }
  }

  lemma {:induction false} ShiftOutOfLowDigits(a: nat, x: nat)
    ensures (512 * a + x) % 512 == x % 512
  {
  }

  /** Without a 7 beyond the user digit, the loop's symbols name the bits of
      the last three digits: any other digit beyond the user digit adds no
      symbol. */
  lemma {:induction false} DigitsToFlagsLowBits(t: string)
    requires AllDigits(t) && OctalDigits(t) && !SevenBeyondUser(t)
    ensures DigitsToFlags(t).Ok?
    ensures FlagsToMode(DigitsToFlags(t).value) == OctalValue(t) % 512
    decreases |t|
  {
    if |t| <= 3 {
      DigitsToFlagsBits(t);
      OctalValueBound(t);
      assert Pow8(1) == 8 && Pow8(2) == 64 && Pow8(3) == 512;
    } else {
      TailDigits(t);
      DigitsToFlagsLowBits(t[1..]);
      HighDigitNoSymbols(t);
      HighDigitValue(t);
    }
  }

  /** A digit other than 7 beyond the user digit adds no symbol. */
  lemma {:induction false} HighDigitNoSymbols(t: string)
    requires AllDigits(t) && |t| > 3 && t[0] <= '7' && t[0] != '7'
    ensures AllDigits(t[1..])
    ensures DigitsToFlags(t) == DigitsToFlags(t[1..])
  {
    AllDigitsOf(t, t[1..], 1);
    assert DigitFlags(DigitValue(t[0]), |t| - 1) == Ok([]);
    if DigitsToFlags(t[1..]).Ok? {
      DigitsToFlagsStep(t, [], DigitsToFlags(t[1..]).value);
      assert [] + DigitsToFlags(t[1..]).value == DigitsToFlags(t[1..]).value;
    }
  }

  /** A digit beyond the user digit does not change the last three. */
  lemma {:induction false} HighDigitValue(t: string)
    requires OctalDigits(t) && |t| > 3
    ensures OctalDigits(t[1..])
    ensures OctalValue(t) % 512 == OctalValue(t[1..]) % 512
  {
    OctalHead(t);
    var n := |t| - 4;
    assert Pow8(n + 3) == 512 * Pow8(n) by {
      assert Pow8(n + 3) == 8 * Pow8(n + 2) && Pow8(n + 2) == 8 * Pow8(n + 1) && Pow8(n + 1) == 8 * Pow8(n);
    }
    var d := DigitValue(t[0]);
    assert d * Pow8(n + 3) == 512 * (d * Pow8(n));
    ShiftOutOfLowDigits(d * Pow8(n), OctalValue(t[1..]));
  }

  /** After stripping, the digits expand exactly when they are octal and hold
      no 7 beyond the user digit, and then name the bits of the last three. */
  lemma {:induction false} ExpandDigitsFacts(t: string)
    requires AllDigits(t) && t != []
    ensures ExpandDigits(t).Err? <==> !OctalDigits(t) || SevenBeyondUser(t)
    ensures ExpandDigits(t).Ok? ==> OctalDigits(t) && FlagsToMode(ExpandDigits(t).value) == OctalValue(t) % 512
  {
    if t == "777" {
      OctalValue777();
      FlagsToModeSingle(FullPermissions);
      assert OctalDigits(t);
      assert !SevenBeyondUser(t);
    } else {
      DigitsToFlagsErrIff(t);
      if OctalDigits(t) && !SevenBeyondUser(t) {
        DigitsToFlagsLowBits(t);
      }
    }
  }

  /** `lstrip("0")` removes only zeros, so it keeps a mode octal or not. */
  lemma {:induction false} LeadingStripOctal(s: string)
    ensures OctalDigits(s) <==> OctalDigits(LStripChars(s, {'0'}))
  {
    var u := LStripChars(s, {'0'});
    var k := |s| - |u|;
    if OctalDigits(u) {
      forall i | 0 <= i < |s|
        ensures '0' <= s[i] <= '7'
      {
        if i < k {
          assert s[i] in {'0'};
        } else {
          assert s[i] == u[i - k];
        }
      }
    }
    if OctalDigits(s) {
      forall i | 0 <= i < |u|
        ensures '0' <= u[i] <= '7'
      {
        assert u[i] == s[k + i];
      }
    }
  }

  /** A mode is rejected exactly when one of its digits is not octal or a 7
      sits beyond the user digit; a zero mode gives no symbols. */
  lemma {:induction false} ModeToFlagsErrIff(s: string)
    requires IsDigits(s)
    ensures ModeToFlags(s).Err? <==> !OctalDigits(s) || SevenBeyondUser(LStripChars(s, {'0'}))
    ensures (forall i :: 0 <= i < |s| ==> s[i] == '0') ==> ModeToFlags(s) == Ok([])
  {
    var t := LStripChars(s, {'0'});
    LeadingStripDigits(s);
    LeadingStripOctal(s);
    if t != [] {
      ExpandDigitsFacts(t);
      assert t[0] == s[|s| - |t|];
    }
  }

  /** Any octal mode without a 7 beyond the user digit expands into symbols
      naming the permission bits of its last three digits. */
  lemma {:induction false} ModeToFlagsLowBits(s: string)
    requires IsDigits(s) && OctalDigits(s) && !SevenBeyondUser(LStripChars(s, {'0'}))
    ensures ModeToFlags(s).Ok?
    ensures FlagsToMode(ModeToFlags(s).value) == OctalValue(s) % 512
  {
    var t := LStripChars(s, {'0'});
    LeadingStripDigits(s);
    LeadingZerosValue(s);
    if t != [] {
      ExpandDigitsFacts(t);
    }
  }

  /** The zeros `strip("0")` removes from the end of a mode. */
  function TrailingZeros(s: string): nat {
    |LStripChars(s, {'0'})| - |StripChars(s, {'0'})|
  }

  /** As written, the symbols name the bits of the mode with its trailing
      zeros dropped: the mode is their value moved up one octal place per
      dropped zero, and a mode that does not end in zero reads back exactly. */
  lemma {:induction false} ModeToFlagsAsWrittenRoundTrip(s: string)
    requires IsDigits(s) && OctalDigits(s) && 1 <= |StripChars(s, {'0'})| <= 3
    ensures ModeToFlagsAsWritten(s).Ok?
    ensures FlagsToMode(ModeToFlagsAsWritten(s).value) * Pow8(TrailingZeros(s)) == OctalValue(s)
    ensures s[|s| - 1] != '0' ==> FlagsToMode(ModeToFlagsAsWritten(s).value) == OctalValue(s)
  {
    AsWrittenBits(s);
    StrippedValue(s);
    if s[|s| - 1] != '0' {
      NoTrailingZero(s);
      NoShift(FlagsToMode(ModeToFlagsAsWritten(s).value), TrailingZeros(s));
    }
  }

  lemma {:induction false} NoShift(x: nat, n: nat)
    requires n == 0
    ensures x * Pow8(n) == x
  {
  }

  lemma {:induction false} AsWrittenBits(s: string)
    requires IsDigits(s) && OctalDigits(s) && 1 <= |StripChars(s, {'0'})| <= 3
    ensures OctalDigits(StripChars(s, {'0'}))
    ensures ModeToFlagsAsWritten(s).Ok?
    ensures FlagsToMode(ModeToFlagsAsWritten(s).value) == OctalValue(StripChars(s, {'0'}))
  {
    var t := StripChars(s, {'0'});
    StripOctal(s);
    ExpandedBits(t);
  }

  lemma {:induction false} StripOctal(s: string)
    requires OctalDigits(s)
    ensures OctalDigits(StripChars(s, {'0'}))
  {
    StrippedValue(s);
  }

  /** The digits left after stripping zeros, and what they are worth. */
  lemma {:induction false} StrippedValue(s: string)
    requires OctalDigits(s)
    ensures var t := StripChars(s, {'0'});
      OctalDigits(t) && OctalValue(t) * Pow8(TrailingZeros(s)) == OctalValue(s)
  {
    LeadingZerosValue(s);
    TrailingZerosValue(LStripChars(s, {'0'}));
  }

  lemma {:induction false} NoTrailingZero(s: string)
    requires s != [] && s[|s| - 1] != '0'
    ensures TrailingZeros(s) == 0
  {
    var u := LStripChars(s, {'0'});
    assert u != [] && u[|u| - 1] == s[|s| - 1];
  }

  /** Stripping zeros leaves nothing exactly when every digit is zero. */
  lemma {:induction false} StripZerosEmpty(s: string)
    ensures StripChars(s, {'0'}) == [] <==> forall i :: 0 <= i < |s| ==> s[i] == '0'
  {
    var u := LStripChars(s, {'0'});
    if StripChars(s, {'0'}) == [] {
      if u != [] {
        assert false;
      }
      forall i | 0 <= i < |s|
        ensures s[i] == '0'
      {
        assert s[i] in {'0'};
      }
    }
    if forall i :: 0 <= i < |s| ==> s[i] == '0' {
      if u != [] {
        assert false;
      }
    }
  }

  /** A digit that survives `lstrip("0")` sits `k` places further left. */
  lemma {:induction false} LeadingDigitAt(s: string, i: nat) returns (k: nat)
    requires i < |s| && s[i] != '0'
    ensures var u := LStripChars(s, {'0'});
      k + |u| == |s| && k <= i && u[i - k] == s[i]
  {
    var u := LStripChars(s, {'0'});
    k := |s| - |u|;
    assert i >= k;
  }

  /** `lstrip` leaves a suffix, so the digits stay digits. */
  lemma {:induction false} LeadingStripDigits(s: string)
    requires AllDigits(s)
    ensures AllDigits(LStripChars(s, {'0'}))
  {
    var u := LStripChars(s, {'0'});
    AllDigitsOf(s, u, |s| - |u|);
  }

  /** `strip` leaves a slice, so the digits stay digits. */
  lemma {:induction false} StripDigits(s: string)
    requires AllDigits(s)
    ensures AllDigits(StripChars(s, {'0'}))
  {
    var u := LStripChars(s, {'0'});
    LeadingStripDigits(s);
    AllDigitsOf(u, RStripChars(u, {'0'}), 0);
  }

  /** A digit that survives `rstrip("0")` keeps its place. */
  lemma {:induction false} TrailingDigitAt(u: string, j: nat)
    requires j < |u| && u[j] != '0'
    ensures var t := RStripChars(u, {'0'});
      j < |t| && t[j] == u[j]
  {
  }

  /** A digit that survives `strip("0")` sits inside the stripped text, `k`
      places further left. */
  lemma {:induction false} StrippedDigitAt(s: string, i: nat) returns (k: nat)
    requires i < |s| && s[i] != '0'
    ensures var t := StripChars(s, {'0'});
      k <= i < k + |t| && t[i - k] == s[i]
  {
    var u := LStripChars(s, {'0'});
    k := LeadingDigitAt(s, i);
    TrailingDigitAt(u, i - k);
  }

  /** As written, a mode is rejected exactly when one of its digits is not
      octal, every digit is zero, or a 7 sits beyond the user digit once the
      zeros are stripped from both ends. */
  lemma {:induction false} ModeToFlagsAsWrittenErrIff(s: string)
    requires IsDigits(s)
    ensures ModeToFlagsAsWritten(s).Err?
            <==> !OctalDigits(s) || (forall i :: 0 <= i < |s| ==> s[i] == '0') || SevenBeyondUser(StripChars(s, {'0'}))
  {
    var t := StripChars(s, {'0'});
    StripZerosEmpty(s);
    StripDigits(s);
    if !OctalDigits(s) {
      var i :| 0 <= i < |s| && !('0' <= s[i] <= '7');
      AsWrittenRejectsNonOctal(s, i);
    } else if t != [] {
      StripOctal(s);
      ExpandDigitsFacts(t);
    }
  }

  /** As written, any octal mode with digits left after stripping zeros and
      no 7 beyond the user digit expands into symbols naming the bits of the
      last three digits left; those digits, moved up one octal place per
      trailing zero, make up the mode. */
  lemma {:induction false} ModeToFlagsAsWrittenLowBits(s: string)
    requires IsDigits(s) && OctalDigits(s) && StripChars(s, {'0'}) != []
    requires !SevenBeyondUser(StripChars(s, {'0'}))
    ensures OctalDigits(StripChars(s, {'0'}))
    ensures ModeToFlagsAsWritten(s).Ok?
    ensures FlagsToMode(ModeToFlagsAsWritten(s).value) == OctalValue(StripChars(s, {'0'})) % 512
    ensures OctalValue(StripChars(s, {'0'})) * Pow8(TrailingZeros(s)) == OctalValue(s)
  {
    var t := StripChars(s, {'0'});
    StripDigits(s);
    StrippedValue(s);
    ExpandDigitsFacts(t);
  }

  /** As written, a digit that is not octal survives the strip and is rejected. */
  lemma {:induction false} AsWrittenRejectsNonOctal(s: string, i: nat)
    requires IsDigits(s) && i < |s| && s[i] > '7'
    ensures ModeToFlagsAsWritten(s).Err?
  {
    var t := StripChars(s, {'0'});
    var k := StrippedDigitAt(s, i);
    var j := i - k;
    StripDigits(s);
    NotSevens(t, j);
    DigitsToFlagsRejects(t, j);
  }

  lemma {:induction false} AllDigitsOf(s: string, t: string, k: nat)
    requires AllDigits(s) && k + |t| <= |s| && t == s[k..k + |t|]
    ensures AllDigits(t)
  {
    forall j | 0 <= j < |t|
      ensures IsDigit(t[j])
    {
      assert t[j] == s[k + j];
    }
  }

  /** A mode that neither starts nor ends with a zero is left alone by both strips. */
  lemma {:induction false} NoZerosToStrip(s: string)
    requires s != [] && s[0] != '0' && s[|s| - 1] != '0'
    ensures LStripChars(s, {'0'}) == s && StripChars(s, {'0'}) == s
  {
    StripCharsKeep(s, {'0'});
  }

  /** 777 is the single full-permission symbol. */
  lemma {:induction false} ModeAllPermissions()
    ensures IsDigits("777")
    ensures ModeToFlags("777") == Ok([FullPermissions])
    ensures ModeToFlagsAsWritten("777") == Ok([FullPermissions])
  {
    NoZerosToStrip("777");
  }

  lemma {:induction false} DigitExamples()
    ensures DigitFlags(6, 2) == Ok(["S_IRUSR", "S_IWUSR"])
    ensures DigitFlags(4, 1) == Ok(["S_IRGRP"])
    ensures DigitFlags(4, 0) == Ok(["S_IROTH"])
    ensures DigitFlags(6, 1) == Ok(["S_IRGRP", "S_IWGRP"])
    ensures DigitFlags(0, 0) == Ok([])
  {
    HasBitTable(6);
    HasBitTable(4);
    HasBitTable(0);
    assert ReadSymbol(2) == "S_IRUSR" && WriteSymbol(2) == "S_IWUSR";
    assert ReadSymbol(1) == "S_IRGRP" && WriteSymbol(1) == "S_IWGRP";
    assert ReadSymbol(0) == "S_IROTH";
    assert DigitFlags(6, 2).Ok? && DigitFlags(6, 2).value == ["S_IRUSR", "S_IWUSR"];
    assert DigitFlags(6, 1).Ok? && DigitFlags(6, 1).value == ["S_IRGRP", "S_IWGRP"];
    assert DigitFlags(4, 1).Ok? && DigitFlags(4, 1).value == ["S_IRGRP"];
    assert DigitFlags(4, 0).Ok? && DigitFlags(4, 0).value == ["S_IROTH"];
    assert DigitFlags(0, 0).Ok? && DigitFlags(0, 0).value == [];
  }

  lemma {:induction false} DigitsToFlagsStep(s: string, head: seq<string>, tail: seq<string>)
    requires AllDigits(s) && s != []
    requires DigitFlags(DigitValue(s[0]), |s| - 1) == Ok(head)
    requires DigitsToFlags(s[1..]) == Ok(tail)
    ensures DigitsToFlags(s) == Ok(head + tail)
  {
  }

  /** The expansions of "4", "44", "64" and "640" digit by digit. */
  lemma {:induction false} DigitsExamples()
    ensures DigitsToFlags("644") == Ok(["S_IRUSR", "S_IWUSR", "S_IRGRP", "S_IROTH"])
    ensures DigitsToFlags("64") == Ok(["S_IRGRP", "S_IWGRP", "S_IROTH"])
    ensures DigitsToFlags("640") == Ok(["S_IRUSR", "S_IWUSR", "S_IRGRP"])
  {
    DigitExamples();
    SingleDigits();
    Digits644();
    Digits64();
    Digits640();
  }

  lemma {:induction false} SingleDigits()
    ensures DigitsToFlags("4") == Ok(["S_IROTH"])
    ensures DigitsToFlags("0") == Ok([])
  {
    DigitExamples();
    assert DigitValue('4') == 4 && DigitValue('0') == 0;
    assert "4"[1..] == "" && "0"[1..] == "";
    var none: seq<string> := [];
    assert ["S_IROTH"] + none == ["S_IROTH"];
    DigitsToFlagsStep("4", ["S_IROTH"], []);
    DigitsToFlagsStep("0", [], []);
  }

  lemma {:induction false} Digits644()
    ensures DigitsToFlags("644") == Ok(["S_IRUSR", "S_IWUSR", "S_IRGRP", "S_IROTH"])
  {
    DigitExamples();
    SingleDigits();
    assert DigitValue('6') == 6 && DigitValue('4') == 4;
    assert "644"[1..] == "44" && "44"[1..] == "4";
    assert ["S_IRGRP"] + ["S_IROTH"] == ["S_IRGRP", "S_IROTH"];
    DigitsToFlagsStep("44", ["S_IRGRP"], ["S_IROTH"]);
    assert ["S_IRUSR", "S_IWUSR"] + ["S_IRGRP", "S_IROTH"] == ["S_IRUSR", "S_IWUSR", "S_IRGRP", "S_IROTH"];
    DigitsToFlagsStep("644", ["S_IRUSR", "S_IWUSR"], ["S_IRGRP", "S_IROTH"]);
  }

  lemma {:induction false} Digits64()
    ensures DigitsToFlags("64") == Ok(["S_IRGRP", "S_IWGRP", "S_IROTH"])
  {
    DigitExamples();
    SingleDigits();
    assert DigitValue('6') == 6;
    assert "64"[1..] == "4";
    assert ["S_IRGRP", "S_IWGRP"] + ["S_IROTH"] == ["S_IRGRP", "S_IWGRP", "S_IROTH"];
    DigitsToFlagsStep("64", ["S_IRGRP", "S_IWGRP"], ["S_IROTH"]);
  }

  lemma {:induction false} Digits640()
    ensures DigitsToFlags("640") == Ok(["S_IRUSR", "S_IWUSR", "S_IRGRP"])
  {
    DigitExamples();
    SingleDigits();
    assert DigitValue('6') == 6 && DigitValue('4') == 4;
    assert "640"[1..] == "40" && "40"[1..] == "0";
    var none: seq<string> := [];
    assert ["S_IRGRP"] + none == ["S_IRGRP"];
    DigitsToFlagsStep("40", ["S_IRGRP"], []);
    assert ["S_IRUSR", "S_IWUSR"] + ["S_IRGRP"] == ["S_IRUSR", "S_IWUSR", "S_IRGRP"];
    DigitsToFlagsStep("640", ["S_IRUSR", "S_IWUSR"], ["S_IRGRP"]);
  }

  /** 644 is read/write for the user and read for group and other. */
  lemma {:induction false} ModeExample644()
    ensures IsDigits("644")
    ensures ModeToFlags("644") == Ok(["S_IRUSR", "S_IWUSR", "S_IRGRP", "S_IROTH"])
    ensures ModeToFlagsAsWritten("644") == Ok(["S_IRUSR", "S_IWUSR", "S_IRGRP", "S_IROTH"])
  {
    Digits644();
    NoZerosToStrip("644");
  }

  lemma {:induction false} FlagsExample52()
    ensures FlagsToMode(["S_IRGRP", "S_IWGRP", "S_IROTH"]) == 52
  {
    assert ["S_IRGRP", "S_IWGRP", "S_IROTH"] == ["S_IRGRP", "S_IWGRP"] + ["S_IROTH"];
    assert ["S_IRGRP", "S_IWGRP"] == ["S_IRGRP"] + ["S_IWGRP"];
    FlagsToModeAppend(["S_IRGRP", "S_IWGRP"], ["S_IROTH"]);
    FlagsToModeAppend(["S_IRGRP"], ["S_IWGRP"]);
    FlagsToModeSingle("S_IRGRP");
    FlagsToModeSingle("S_IWGRP");
    FlagsToModeSingle("S_IROTH");
  }

  lemma {:induction false} OctalValue640()
    ensures OctalDigits("640") && OctalValue("640") == 416
  {
    assert "640"[..2] == "64" && "64"[..1] == "6" && "6"[..0] == "";
  }

  lemma {:induction false} StripZerosExamples()
    ensures LStripChars("640", {'0'}) == "640"
    ensures StripChars("640", {'0'}) == "64"
    ensures LStripChars("00", {'0'}) == "" && StripChars("00", {'0'}) == ""
  {
    assert "640"[..2] == "64";
    assert "0"[1..] == "" && "00"[1..] == "0";
  }

  /** The trailing-zero strip in the as-written code turns 640 (read/write
      for the user, read for the group) into 64 (read/write for the group,
      read for other), and a zero mode into an error. */
  lemma {:induction false} ModeTrailingZeroShift()
    ensures IsDigits("640") && IsDigits("00")
    ensures ModeToFlagsAsWritten("640") == Ok(["S_IRGRP", "S_IWGRP", "S_IROTH"])
    ensures OctalDigits("640") && FlagsToMode(ModeToFlagsAsWritten("640").value) != OctalValue("640")
    ensures ModeToFlagsAsWritten("00").Err?
  {
    AsWritten640();
    AsWrittenZero();
    FlagsExample52();
    OctalValue640();
  }

  lemma {:induction false} AsWritten640()
    ensures IsDigits("640")
    ensures ModeToFlagsAsWritten("640") == Ok(["S_IRGRP", "S_IWGRP", "S_IROTH"])
  {
    Mode640Digits();
    Digits64();
    StripZerosExamples();
  }

  lemma {:induction false} Mode640Digits()
    ensures IsDigits("640") && AllDigits("64")
  {
    var s := "640";
    assert s[0] == '6' && s[1] == '4' && s[2] == '0';
    assert AllDigits(s[..2]);
  }

  lemma {:induction false} AsWrittenZero()
    ensures IsDigits("00") && ModeToFlagsAsWritten("00").Err?
  {
    StripZerosExamples();
  }

  /** With place values kept, 640 and 0 decode as intended. */
  lemma {:induction false} ModeKeepsPlaceValues()
    ensures IsDigits("640") && IsDigits("00")
    ensures ModeToFlags("640") == Ok(["S_IRUSR", "S_IWUSR", "S_IRGRP"])
    ensures ModeToFlags("00") == Ok([])
  {
    Digits640();
    StripZerosExamples();
  }

  // ----- Flags fields -----

  /** One `|` component: a number is a mode, anything else a symbol kept verbatim. */
  function ComponentFlags(part: string, legacy: bool): Result<seq<string>> {
    if IsDigits(part) then
      // the legacy engine's `str(mode).strip(0)` raises TypeError for any number
      if legacy then Err(BadMode) else ModeToFlagsAsWritten(part)
    else Ok([part])
  }

  function ComponentsToFlags(parts: seq<string>, legacy: bool): Result<seq<string>> {
    if parts == [] then Ok([])
    else
      var head :- ComponentFlags(parts[0], legacy);
      var tail :- ComponentsToFlags(parts[1..], legacy);
      Ok(head + tail)
  }

  /** `_string_to_flags`; `legacy` selects the engine of the top-level
      parsing_classes.py. */
  function StringToFlags(s: string, legacy: bool): Result<seq<string>> {
    if s == "0" then Ok([]) else ComponentsToFlags(SplitOn(s, "|"), legacy)
  }

  predicate Symbolic(parts: seq<string>) {
    forall i :: 0 <= i < |parts| ==> !IsDigits(parts[i])
  }

  lemma {:induction false} ComponentsSymbolic(parts: seq<string>, legacy: bool)
    requires Symbolic(parts)
    ensures ComponentsToFlags(parts, legacy) == Ok(parts)
    decreases |parts|
  {
    if parts != [] {
      ComponentsSymbolic(parts[1..], legacy);
      ConsTail(parts);
    }
  }

  /** Symbols are kept in order, and joining them with `|` gives the field back. */
  lemma {:induction false} StringToFlagsSymbolic(s: string, legacy: bool)
    requires s != "0" && Symbolic(SplitOn(s, "|"))
    ensures StringToFlags(s, legacy) == Ok(SplitOn(s, "|"))
    ensures Join(StringToFlags(s, legacy).value, "|") == s
  {
    ComponentsSymbolic(SplitOn(s, "|"), legacy);
    JoinSplitOn(s, "|");
  }

  lemma {:induction false} LegacyComponentsErrIff(parts: seq<string>)
    ensures ComponentsToFlags(parts, true).Err? <==> !Symbolic(parts)
    decreases |parts|
  {
    if parts != [] {
      LegacyComponentsErrIff(parts[1..]);
      if !Symbolic(parts[1..]) {
        var i :| 0 <= i < |parts[1..]| && IsDigits(parts[1..][i]);
        assert IsDigits(parts[i + 1]);
      }
      if !IsDigits(parts[0]) && Symbolic(parts[1..]) {
        forall i | 0 <= i < |parts| ensures !IsDigits(parts[i]) {
          if i > 0 { assert parts[i] == parts[1..][i - 1]; }
        }
      }
    }
  }

  /** In the legacy engine every numeric component is an error, and only those. */
  lemma {:induction false} LegacyStringToFlagsErrIff(s: string)
    requires s != "0"
    ensures StringToFlags(s, true).Err? <==> !Symbolic(SplitOn(s, "|"))
  {
    LegacyComponentsErrIff(SplitOn(s, "|"));
  }
}
