/** `fsGroupForMetadata` of storage/filesystem.go, with the 64-bit digit loop of strconv under it. */
module FsGroup {
  import opened Wrappers

  const UINT64_LIMIT := 0x1_0000_0000_0000_0000
  const INT64_CUTOFF := 0x8000_0000_0000_0000
  const MAX_GID := 4294967295

  predicate IsDigit(c: char) {
    '0' <= c <= '9'
  }

  function Digit(c: char): nat
    requires IsDigit(c)
  {
    c as int - '0' as int
  }

  predicate IsDecimal(s: string) {
    s != "" && forall c | c in s :: IsDigit(c)
  }

  function Value(s: string): nat
    requires forall c | c in s :: IsDigit(c)
  {
    if s == "" then 0 else 10 * Value(s[..|s| - 1]) + Digit(s[|s| - 1])
  }

  predicate HasSign(s: string) {
    s != "" && (s[0] == '+' || s[0] == '-')
  }

  function Magnitude(s: string): string {
    if HasSign(s) then s[1..] else s
  }

  /** An optional sign and decimal digits. */
  predicate IsInteger(s: string) {
    IsDecimal(Magnitude(s))
  }

  function Signed(s: string): int
    requires IsInteger(s)
  {
    var v: int := Value(Magnitude(s));
    if s[0] == '-' then -v else v
  }

  lemma {:induction false} ValueGrows(s: string, i: nat)
    requires i <= |s| && forall c | c in s :: IsDigit(c)
    ensures Value(s[..i]) <= Value(s)
    decreases |s| - i
  {
    if i < |s| {
      assert s[..i + 1][..i] == s[..i];
      ValueGrows(s, i + 1);
    } else {
      assert s[..i] == s;
    }
  }

  /** The digit loop: every intermediate value fits 64 bits, and overflow is noticed before or by the wrap-around. */
  method ParseUint64(s: string) returns (r: Option<nat>)
    ensures r.Some? <==> IsDecimal(s) && Value(s) <= 18446744073709551615
    ensures r.Some? ==> r.value == Value(s)
  {
    if s == "" {
      return None;
    }
    var cutoff := (UINT64_LIMIT - 1) / 10 + 1;
    var n := 0;
    var i := 0;
    while i < |s|
      invariant i <= |s| && n < UINT64_LIMIT
      invariant forall c | c in s[..i] :: IsDigit(c)
      invariant n == Value(s[..i])
    {
      var c := s[i];
      assert s[..i + 1] == s[..i] + [c];
      assert c in s;
      if !IsDigit(c) {
        return None;
      }
      var d := Digit(c);
      assert s[..i + 1][..i] == s[..i];
      assert Value(s[..i + 1]) == 10 * n + d;
      if n >= cutoff {
        Overflows(s, i + 1);
        return None;
      }
      var tens := n * 10;
      var sum := (tens + d) % UINT64_LIMIT;
      if sum < tens {
        Overflows(s, i + 1);
        return None;
      }
      n := sum;
      i := i + 1;
    }
    assert s[..i] == s;
    return Some(n);
  }

  /** Once a prefix is too large, so is the whole; or the rest is not decimal. */
  lemma Overflows(s: string, i: nat)
    requires i <= |s| && (forall c | c in s[..i] :: IsDigit(c)) && Value(s[..i]) >= UINT64_LIMIT
    ensures !(IsDecimal(s) && Value(s) < UINT64_LIMIT)
  {
    if IsDecimal(s) {
      ValueGrows(s, i);
    }
  }

  /** `strconv.ParseInt(s, 10, 64)`. */
  method ParseInt64(s: string) returns (r: Option<int>)
    ensures r.Some? <==> IsInteger(s) && -9223372036854775808 <= Signed(s) <= 9223372036854775807
    ensures r.Some? ==> r.value == Signed(s)
  {
    if s == "" {
      return None;
    }
    var neg := s[0] == '-';
    var digits := if s[0] == '+' || s[0] == '-' then s[1..] else s;
    var un := ParseUint64(digits);
    if un.None? {
      return None;
    }
    if !neg && un.value >= INT64_CUTOFF {
      return None;
    }
    if neg && un.value > INT64_CUTOFF {
      return None;
    }
    return Some(if neg then -un.value else un.value);
  }

  /** Failure is an error to the caller; None means that ownership stays as it is. */
  method FsGroupForMetadata(fixedGroup: Option<int>, key: string, context: map<string, string>)
    returns (r: Result<Option<int>, ()>)
    ensures fixedGroup.Some? ==> r == Success(fixedGroup)
    ensures fixedGroup.None? && (key == "" || key !in context) ==> r == Success(None)
    ensures fixedGroup.None? && key != "" && key in context ==>
              r == if IsInteger(context[key]) && 1 <= Signed(context[key]) <= 4294967295
                   then Success(Some(Signed(context[key]))) else Failure(())
  {
    if fixedGroup.Some? {
      return Success(fixedGroup);
    }
    if key == "" {
      return Success(None);
    }
    if key !in context {
      return Success(None);
    }
    var fsGroup := ParseInt64(context[key]);
    if fsGroup.None? {
      return Failure(());
    }
    if fsGroup.value <= 0 || fsGroup.value > MAX_GID {
      return Failure(());
    }
    return Success(Some(fsGroup.value));
  }

  function DigitChar(d: nat): (c: char)
    requires d < 10
    ensures IsDigit(c) && Digit(c) == d
  {
    (d + '0' as int) as char
  }

  /** The usual way to print a number. */
  function Print(n: nat): (s: string)
    ensures s != ""
  {
    (if n < 10 then "" else Print(n / 10)) + [DigitChar(n % 10)]
  }

  lemma {:induction false} PrintIs(n: nat)
    ensures IsDecimal(Print(n)) && Value(Print(n)) == n
  {
    var init := if n < 10 then "" else Print(n / 10);
    var s := Print(n);
    if n >= 10 {
      PrintIs(n / 10);
    }
    assert s[..|s| - 1] == init && s[|s| - 1] == DigitChar(n % 10);
    assert forall c | c in s :: c in init || c == DigitChar(n % 10);
  }

  /** Printing and parsing are inverse, so every permitted group can be asked for. */
  lemma PrintParses(n: nat)
    ensures IsInteger(Print(n)) && Signed(Print(n)) == n
  {
    PrintIs(n);
    assert Print(n)[0] in Print(n);
  }

  lemma SignedText(digits: string)
    requires IsDecimal(digits)
    ensures IsInteger("+" + digits) && Signed("+" + digits) == Value(digits)
    ensures IsInteger("-" + digits) && Signed("-" + digits) + Value(digits) == 0
  {
    assert ("+" + digits)[1..] == digits && ("-" + digits)[1..] == digits;
  }

  lemma TwoSigns(digits: string)
    ensures !IsInteger("+-" + digits) && !IsInteger("") && !IsInteger("-")
  {
    var s := "-" + digits;
    assert ("+-" + digits)[1..] == s && s[0] == '-' && s[0] in s;
  }

  /** A sign in front: plus changes nothing, minus negates, and a second sign is not a number. */
  lemma SignedPrint(n: nat)
    ensures IsInteger("+" + Print(n)) && Signed("+" + Print(n)) == n
    ensures IsInteger("-" + Print(n)) && Signed("-" + Print(n)) + n == 0
    ensures !IsInteger("+-" + Print(n)) && !IsInteger("") && !IsInteger("-")
  {
    PrintIs(n);
    SignedText(Print(n));
    TwoSigns(Print(n));
  }

  /** The ten digits, and nothing else, are what they look like. */
  lemma DigitsAre(c: char)
    ensures IsDigit(c) <==> c in "0123456789"
    ensures IsDigit(c) ==> "0123456789"[Digit(c)] == c
  {
    if IsDigit(c) {
      assert "0123456789"[c as int - 48] == c;
    }
  }
}
