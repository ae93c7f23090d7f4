/** Numbers in text: printing in a base, and the standard library's stoull(). */
module Numbers {
  import opened Wrappers
  import opened Words

  const MAX64 := 0xffff_ffff_ffff_ffff

  /** 16 for anything that is no digit. */
  function DigitValue(c: char): (v: nat)
    ensures v <= 16
  {
    if '0' <= c <= '9' then c as int - '0' as int
    else if 'a' <= c <= 'f' then c as int - 'a' as int + 10
    else if 'A' <= c <= 'F' then c as int - 'A' as int + 10
    else 16
  }

  function DigitChar(d: nat): (c: char)
    requires d < 16
    ensures DigitValue(c) == d
  {
    if d < 10 then ('0' as int + d) as char else ('a' as int + (d - 10)) as char
  }

  predicate IsBase(base: nat) { base == 10 || base == 16 }

  predicate Digits(s: string, base: nat) {
    forall i :: 0 <= i < |s| ==> DigitValue(s[i]) < base
  }

  function Print(n: nat, base: nat): (s: string)
    requires IsBase(base)
    ensures s != [] && Digits(s, base)
  {
    if n < base then [DigitChar(n)] else Print(n / base, base) + [DigitChar(n % base)]
  }

  function Zeros(k: nat): (s: string)
    ensures |s| == k && forall i :: 0 <= i < k ==> s[i] == '0'
  {
    seq(k, _ => '0')
  }

  /** Filled with zeros to the given width. */
  function PrintPadded(n: nat, base: nat, width: nat): (s: string)
    requires IsBase(base)
    ensures s != [] && Digits(s, base)
  {
    var digits := Print(n, base);
    if |digits| < width then Zeros(width - |digits|) + digits else digits
  }

  function PrintSigned(n: int): (s: string)
    ensures s != []
  {
    if n < 0 then "-" + Print(-n, 10) else Print(n, 10)
  }

  function Value(s: string, base: nat): nat
    requires Digits(s, base)
  {
    if s == [] then 0 else Value(s[..|s| - 1], base) * base + DigitValue(s[|s| - 1])
  }

  lemma {:induction false} PrintValue(n: nat, base: nat)
    requires IsBase(base)
    ensures Value(Print(n, base), base) == n
  {
    if n < base {
    } else {
      PrintValue(n / base, base);
      var s := Print(n, base);
      assert s[..|s| - 1] == Print(n / base, base);
      Division(n, base);
    }
  }

  lemma Division(n: nat, base: nat)
    requires IsBase(base)
    ensures n / base * base + n % base == n
  {
  }

  lemma {:induction false} LeadingZeros(k: nat, s: string, base: nat)
    requires IsBase(base) && Digits(s, base)
    ensures Digits(Zeros(k) + s, base) && Value(Zeros(k) + s, base) == Value(s, base)
  {
    if s == [] {
      assert Zeros(k) + s == Zeros(k);
      if k > 0 {
        LeadingZeros(k - 1, s, base);
        assert Zeros(k - 1) + s == Zeros(k)[..k - 1];
      }
    } else {
      LeadingZeros(k, s[..|s| - 1], base);
      assert (Zeros(k) + s)[..|Zeros(k) + s| - 1] == Zeros(k) + s[..|s| - 1];
    }
  }

  lemma PrintPaddedValue(n: nat, base: nat, width: nat)
    requires IsBase(base)
    ensures Value(PrintPadded(n, base, width), base) == n
  {
    PrintValue(n, base);
    var digits := Print(n, base);
    hide Print, Value;
    if |digits| < width {
      LeadingZeros(width - |digits|, digits, base);
    }
  }

  ghost predicate LowerDigits(s: string) { forall i :: 0 <= i < |s| ==> '0' <= s[i] <= '9' || 'a' <= s[i] <= 'f' }

  /** Numbers are printed in lower case, without leading zeros. */
  lemma {:induction false} PrintedForm(n: nat, base: nat)
    requires IsBase(base)
    ensures LowerDigits(Print(n, base)) && (n > 0 ==> Print(n, base)[0] != '0') && (n == 0 ==> Print(n, base) == "0")
  {
    if n < base {
    } else {
      PrintedForm(n / base, base);
    }
  }

  /** The width is filled with zeros in front. */
  lemma PaddedForm(n: nat, base: nat, width: nat)
    requires IsBase(base)
    ensures var s, digits := PrintPadded(n, base, width), Print(n, base);
      && |s| == (if |digits| < width then width else |digits|) && s[|s| - |digits|..] == digits
      && (forall i :: 0 <= i < |s| - |digits| ==> s[i] == '0')
  {
    hide Print;
  }

  lemma SignedForm(n: int)
    ensures n >= 0 ==> PrintSigned(n) == Print(n, 10)
    ensures n < 0 ==> PrintSigned(n) == ['-'] + Print(-n, 10)
  {
    hide Print;
  }

  // ----- stoull() -----

  predicate IsSpace(c: char) { c == ' ' || '\t' <= c <= '\r' }

  /** How many characters from the start are digits. */
  function Scan(s: string, base: nat): (n: nat)
    ensures n <= |s| && Digits(s[..n], base)
  {
    if s != [] && DigitValue(s[0]) < base then
      var n := 1 + Scan(s[1..], base);
      assert s[..n] == [s[0]] + s[1..][..n - 1];
      n
    else 0
  }

  predicate HasPrefix(s: string, base: nat) {
    base == 16 && |s| >= 3 && s[0] == '0' && (s[1] == 'x' || s[1] == 'X') && DigitValue(s[2]) < 16
  }

  /** The digits at the start, after a prefix for base 16: their value, and how many characters it took. */
  function Magnitude(s: string, base: nat): Option<(nat, nat)>
    requires IsBase(base)
  {
    var prefix := if HasPrefix(s, base) then 2 else 0;
    var digits := Scan(s[prefix..], base);
    if digits == 0 then None else Some((Value(s[prefix..][..digits], base), prefix + digits))
  }

  function OneLater<T>(r: Option<(T, nat)>): Option<(T, nat)> {
    if r.None? then None else Some((r.value.0, r.value.1 + 1))
  }

  /** None where the library throws: no digits, or a magnitude beyond 64 bits. */
  function Limited(r: Option<(nat, nat)>, negative: bool): Option<(uint64, nat)> {
    if r.None? || r.value.0 > MAX64 then None
    else Some((if negative then Negated(r.value.0) else r.value.0, r.value.1))
  }

  /** A minus negates modulo 2^64. */
  function Negated(n: uint64): uint64 { if n == 0 then 0 else 0x1_0000_0000_0000_0000 - n }

  /** The number and how many characters it took: spaces, a sign, and the digits. */
  function Stoull(s: string, base: nat): Option<(uint64, nat)>
    requires IsBase(base)
  {
    if s == [] then None
    else if IsSpace(s[0]) then OneLater(Stoull(s[1..], base))
    else if s[0] == '-' then OneLater(Limited(Magnitude(s[1..], base), true))
    else if s[0] == '+' then OneLater(Limited(Magnitude(s[1..], base), false))
    else Limited(Magnitude(s, base), false)
  }

  /** The whole text must be used. */
  function ParseWhole(s: string, base: nat): Option<uint64>
    requires IsBase(base)
  {
    match Stoull(s, base)
    case None => None
    case Some((n, used)) => if used == |s| then Some(n) else None
  }

  lemma {:induction false} ScanDigits(t: string, rest: string, base: nat)
    requires Digits(t, base) && (rest == [] || DigitValue(rest[0]) >= base)
    ensures Scan(t + rest, base) == |t|
  {
    if t == [] {
      assert t + rest == rest;
    } else {
      assert (t + rest)[1..] == t[1..] + rest;
      ScanDigits(t[1..], rest, base);
    }
  }

  /** What may follow a number: nothing, or a character that is neither digit nor x. */
  predicate Ends(rest: string) {
    rest == [] || (DigitValue(rest[0]) == 16 && rest[0] != 'x' && rest[0] != 'X')
  }

  lemma DigitsScan(t: string, rest: string, base: nat)
    requires IsBase(base) && t != [] && Digits(t, base) && Ends(rest)
    ensures Magnitude(t + rest, base) == Some((Value(t, base), |t|))
  {
    NoPrefix(t, rest, base);
    EndsScan(rest, base);
    hide HasPrefix, Value, DigitValue, Digits, Scan, Ends;
    var body := t + rest;
    ScanDigits(t, rest, base);
    assert body[0..] == body && body[..|t|] == t;
  }

  lemma EndsScan(rest: string, base: nat)
    requires IsBase(base) && Ends(rest)
    ensures rest == [] || DigitValue(rest[0]) >= base
  {
  }

  lemma NoPrefix(t: string, rest: string, base: nat)
    requires IsBase(base) && t != [] && Digits(t, base) && Ends(rest)
    ensures !HasPrefix(t + rest, base)
  {
    var body := t + rest;
    assert body[0] == t[0] && DigitValue(t[0]) < base;
    if |t| >= 2 {
      assert body[1] == t[1] && DigitValue(t[1]) < base;
    } else if rest != [] {
      assert body[1] == rest[0];
    }
  }

  lemma StoullDigits(t: string, rest: string, base: nat)
    requires IsBase(base) && t != [] && Digits(t, base) && Value(t, base) <= MAX64 && Ends(rest)
    ensures Stoull(t + rest, base) == Some((Value(t, base), |t|))
    ensures Stoull("-" + t + rest, base) == Some((Negated(Value(t, base)), |t| + 1))
  {
    hide Magnitude, Value;
    DigitsScan(t, rest, base);
    assert DigitValue(t[0]) < base && (t + rest)[0] == t[0];
    var s := "-" + t + rest;
    assert s[0] == '-' && s[1..] == t + rest;
  }

  lemma StoullAfterTab(s: string, base: nat)
    requires IsBase(base)
    ensures Stoull("\t" + s, base) == OneLater(Stoull(s, base))
  {
    assert ("\t" + s)[1..] == s;
  }

  // ----- Printed numbers are read back -----

  lemma ReadBack(n: nat, base: nat)
    requires IsBase(base) && n <= MAX64
    ensures ParseWhole(Print(n, base), base) == Some(n)
  {
    var t := Print(n, base);
    PrintValue(n, base);
    assert t + [] == t;
    StoullDigits(t, [], base);
  }

  lemma ReadBackPadded(n: nat, base: nat, width: nat)
    requires IsBase(base) && n <= MAX64
    ensures ParseWhole(PrintPadded(n, base, width), base) == Some(n)
  {
    var t := PrintPadded(n, base, width);
    PrintPaddedValue(n, base, width);
    assert t + [] == t;
    StoullDigits(t, [], base);
  }

  /** A cast from unsigned to signed 64 bits. */
  function Signed64(n: uint64): int { if n < 0x8000_0000_0000_0000 then n else n - 0x1_0000_0000_0000_0000 }

  predicate IsInt64(n: int) { -0x8000_0000_0000_0000 <= n < 0x8000_0000_0000_0000 }

  lemma SignedWraps(n: int)
    requires IsInt64(n)
    ensures Signed64(Wrap64(n)) == n && (n < 0 ==> Wrap64(n) == Negated(-n)) && (n >= 0 ==> Wrap64(n) == n)
  {
  }

  /** Negative numbers are read as unsigned, and survive the cast. */
  lemma ReadBackSigned(n: int)
    requires IsInt64(n)
    ensures ParseWhole(PrintSigned(n), 10) == Some(Wrap64(n)) && Signed64(Wrap64(n)) == n
  {
    SignedWraps(n);
    if n < 0 {
      var t := Print(-n, 10);
      PrintValue(-n, 10);
      assert "-" + t + [] == "-" + t;
      StoullDigits(t, [], 10);
    } else {
      ReadBack(n, 10);
    }
  }
}
