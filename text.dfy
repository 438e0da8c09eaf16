/** The string helpers of Go's standard library the core calls: decimal formatting
    (`fmt`'s `%d`, the zero-padded fields of `time.Format`), decimal parsing
    (`strconv.ParseUint`, `strconv.Atoi`), `strings.Split`, `strings.SplitN(_, _, 2)` and
    `strings.Repeat(" ", n)`. Strings are sequences of characters. */
module Text {
  import opened Wrappers

  const MaxUint32: int := 0xFFFF_FFFF
  const MaxUint64: int := 0xFFFF_FFFF_FFFF_FFFF
  /** 2^63: one past the largest `int64`, and minus the smallest. */
  const Int64Bound: int := 0x8000_0000_0000_0000

  predicate IsDigit(c: char)
  {
    '0' <= c <= '9'
  }

  predicate AllDigits(s: string)
  {
    forall i :: 0 <= i < |s| ==> IsDigit(s[i])
  }

  function DigitChar(d: int): (c: char)
    requires 0 <= d < 10
    ensures IsDigit(c)
  {
    (48 + d) as char
  }

  function DigitValue(c: char): int
    requires IsDigit(c)
  {
    c as int - 48
  }

  /** The number a string of decimal digits denotes. */
  function DecimalValue(s: string): nat
    requires AllDigits(s)
  {
    if s == [] then 0 else DecimalValue(s[..|s| - 1]) * 10 + DigitValue(s[|s| - 1])
  }

  /** Decimal digits of `n` without leading zeros, as `%d` prints an unsigned integer. */
  function FormatNat(n: nat): (s: string)
    ensures 1 <= |s| && AllDigits(s)
    ensures |s| > 1 ==> s[0] != '0'
  {
    if n < 10 then [DigitChar(n)] else FormatNat(n / 10) + [DigitChar(n % 10)]
  }

  lemma {:induction false} FormatNatValue(n: nat)
    ensures DecimalValue(FormatNat(n)) == n
  {
    if n >= 10 {
      var s := FormatNat(n);
      assert s[..|s| - 1] == FormatNat(n / 10);
      FormatNatValue(n / 10);
    }
  }

  /** `%d` of a signed integer. */
  function FormatInt(n: int): string
  {
    if n < 0 then "-" + FormatNat(-n) else FormatNat(n)
  }

  /** `strings.Repeat` of a one-character string: `n` copies of `c`. */
  function Repeat(c: char, n: nat): (s: string)
    ensures |s| == n && forall i :: 0 <= i < n ==> s[i] == c
  {
    seq(n, _ => c)
  }

  /** A number field of `time.Format` (Go's `appendInt(x, width)`): an optional minus sign,
      then the digits of |x| left-padded with zeros to at least `width` characters. */
  function FormatPadded(x: int, width: nat): (s: string)
  {
    var digits := FormatNat(if x < 0 then -x else x);
    var padded := (if |digits| < width then Repeat('0', width - |digits|) else "") + digits;
    if x < 0 then "-" + padded else padded
  }

  /** A field is at least `width` characters long: digits, after a minus sign when `x` is
      negative. */
  lemma FormatPaddedShape(x: int, width: nat)
    ensures x >= 0 ==> |FormatPadded(x, width)| >= width && AllDigits(FormatPadded(x, width))
    ensures x < 0 ==> |FormatPadded(x, width)| > width && FormatPadded(x, width)[0] == '-'
    ensures x < 0 ==> AllDigits(FormatPadded(x, width)[1..])
  {
    var digits := FormatNat(if x < 0 then -x else x);
    var padded := (if |digits| < width then Repeat('0', width - |digits|) else "") + digits;
    assert AllDigits(padded);
    if x < 0 {
      assert FormatPadded(x, width)[1..] == padded;
    }
  }

  /** A fixed-width field holds exactly the value it was formatted from. */
  lemma FormatPaddedValue(x: nat, width: nat)
    requires |FormatNat(x)| <= width
    ensures |FormatPadded(x, width)| == width
    ensures AllDigits(FormatPadded(x, width)) && DecimalValue(FormatPadded(x, width)) == x
  {
    var digits := FormatNat(x);
    FormatNatValue(x);
    LeadingZeros(width - |digits|, digits);
  }

  lemma {:induction false} LeadingZeros(k: nat, s: string)
    requires AllDigits(s)
    ensures AllDigits(Repeat('0', k) + s) && DecimalValue(Repeat('0', k) + s) == DecimalValue(s)
  {
    if s == [] {
      ZerosValue(k);
      assert Repeat('0', k) + s == Repeat('0', k);
    } else {
      var t := Repeat('0', k) + s;
      assert t[..|t| - 1] == Repeat('0', k) + s[..|s| - 1];
      LeadingZeros(k, s[..|s| - 1]);
    }
  }

  lemma {:induction false} ZerosValue(k: nat)
    ensures DecimalValue(Repeat('0', k)) == 0
  {
    if k > 0 {
      assert Repeat('0', k)[..k - 1] == Repeat('0', k - 1);
      ZerosValue(k - 1);
    }
  }

  /** A number below 10^k has at most k digits. */
  lemma {:induction false} FormatNatLength(x: nat, k: nat)
    requires 1 <= k && x < Pow10(k)
    ensures |FormatNat(x)| <= k
  {
    if x >= 10 {
      FormatNatLength(x / 10, k - 1);
    }
  }

  function Pow10(n: nat): (p: nat)
    ensures p >= 1
  {
    if n == 0 then 1 else 10 * Pow10(n - 1)
  }

  /** The length of the longest prefix of `s` made of decimal digits. */
  function DigitRun(s: string): (k: nat)
    ensures k <= |s| && AllDigits(s[..k])
    ensures k < |s| ==> !IsDigit(s[k])
  {
    if s == [] || !IsDigit(s[0]) then 0
    else
      var k := 1 + DigitRun(s[1..]);
      assert s[..k] == [s[0]] + s[1..][..k - 1];
      k
  }

  /** A prefix of a digit string never denotes more than the whole string. */
  lemma {:induction false} DecimalValuePrefix(s: string, j: nat)
    requires AllDigits(s) && j <= |s|
    ensures DecimalValue(s[..j]) <= DecimalValue(s)
    decreases |s|
  {
    if j < |s| {
      assert s[..|s| - 1][..j] == s[..j];
      DecimalValuePrefix(s[..|s| - 1], j);
    } else {
      assert s[..j] == s;
    }
  }

  /** The digit loop of `strconv.ParseUint` in base 10 from index `i`, where `n` is the value of
      the digits before `i`: a character that is not a digit is a syntax error (0), and a value
      past `max` is a range error (`max`) the moment it is reached. Go's extra check against
      the `uint64` overflow cutoff only fires when the value is past `max` as well. */
  function ParseDigitsFrom(s: string, i: nat, n: nat, max: nat): (v: nat)
    requires i <= |s| && n <= max
    ensures v <= max
    decreases |s| - i
  {
    if i == |s| then n
    else if !IsDigit(s[i]) then 0
    else if n * 10 + DigitValue(s[i]) > max then max
    else ParseDigitsFrom(s, i + 1, n * 10 + DigitValue(s[i]), max)
  }

  /** What the digit loop returns, in terms of the leading run of digits `p`: `max` when `p`
      denotes more than `max`; otherwise the value of `s` when `s` is all digits, and 0 when a
      later character is not a digit. */
  lemma {:induction false} ParseDigitsFromValue(s: string, i: nat, n: nat, max: nat)
    requires i <= DigitRun(s) && n == DecimalValue(s[..i]) && n <= max
    ensures var p := s[..DigitRun(s)];
      (DecimalValue(p) > max ==> ParseDigitsFrom(s, i, n, max) == max) &&
      (DecimalValue(p) <= max ==> ParseDigitsFrom(s, i, n, max) == if DigitRun(s) == |s| then DecimalValue(s) else 0)
    decreases |s| - i
  {
    var k := DigitRun(s);
    if i == |s| {
      assert s[..k] == s == s[..i];
    } else if !IsDigit(s[i]) {
      assert k == i;
    } else {
      assert i < k;
      var m := n * 10 + DigitValue(s[i]);
      assert s[..i + 1][..i] == s[..i];
      assert m == DecimalValue(s[..i + 1]);
      if m > max {
        assert s[..k][..i + 1] == s[..i + 1];
        DecimalValuePrefix(s[..k], i + 1);
      } else {
        ParseDigitsFromValue(s, i + 1, m, max);
      }
    }
  }

  /** `strconv.ParseUint(s, 10, bits)` with its error discarded, as the iterator does, where
      `max` is the largest value of `bits` bits. `ParseUintOrDefaultCases` gives the result
      for every input. */
  function ParseUintOrDefault(s: string, max: nat): (v: nat)
    ensures v <= max
  {
    if s == [] then 0 else ParseDigitsFrom(s, 0, 0, max)
  }

  /** The empty string and a string whose digits stop before its end read as 0, unless the
      leading digits already exceed `max`, which reads as `max`; a digit string in range reads
      as its value. */
  lemma ParseUintOrDefaultCases(s: string, max: nat)
    ensures var p := s[..DigitRun(s)];
      (DecimalValue(p) > max ==> ParseUintOrDefault(s, max) == max) &&
      (DecimalValue(p) <= max ==> ParseUintOrDefault(s, max) == if s != [] && DigitRun(s) == |s| then DecimalValue(s) else 0)
    ensures AllDigits(s) && s != [] && DecimalValue(s) <= max ==> ParseUintOrDefault(s, max) == DecimalValue(s)
  {
    if s != [] {
      assert s[..0] == [];
      ParseDigitsFromValue(s, 0, 0, max);
      assert AllDigits(s) ==> DigitRun(s) == |s| && s[..|s|] == s;
    }
  }

  /** Digits past `max` followed by a character that is not a digit read as `max`: the range
      error is reached before the syntax error. */
  lemma OverflowBeforeBadCharacter(digits: string, rest: string, max: nat)
    requires AllDigits(digits) && DecimalValue(digits) > max
    requires rest == [] || !IsDigit(rest[0])
    ensures ParseUintOrDefault(digits + rest, max) == max
  {
    var s := digits + rest;
    ParseUintOrDefaultCases(s, max);
    assert forall i :: 0 <= i < |digits| ==> s[i] == digits[i];
    assert rest != [] ==> s[|digits|] == rest[0];
    assert DigitRun(s) == |digits|;
    assert s[..|digits|] == digits;
  }

  /** `ParseUint("9999999999x", 10, 32)` is the largest `uint32`, not 0. */
  lemma OverflowExample()
    ensures ParseUintOrDefault("9999999999x", MaxUint32) == MaxUint32
  {
    Nines(10);
    assert "9999999999" == Repeat('9', 10);
    OverflowBeforeBadCharacter("9999999999", "x", MaxUint32);
    assert "9999999999" + "x" == "9999999999x";
  }

  lemma {:induction false} Nines(k: nat)
    ensures DecimalValue(Repeat('9', k)) == Pow10(k) - 1
  {
    if k > 0 {
      assert Repeat('9', k)[..k - 1] == Repeat('9', k - 1);
      Nines(k - 1);
    }
  }

  /** `strconv.Atoi` on a 64-bit platform: an optional sign and at least one decimal digit,
      within the range of `int64`; `None` stands for its error. */
  function Atoi(s: string): (r: Option<int>)
    ensures r.Some? ==> -Int64Bound <= r.value < Int64Bound
    ensures r.Some? ==> s != [] && (AllDigits(s) || (|s| > 1 && s[0] in "+-" && AllDigits(s[1..])))
  {
    var signed := |s| > 0 && (s[0] == '-' || s[0] == '+');
    var digits := if signed then s[1..] else s;
    if digits == [] || !AllDigits(digits) then None
    else
      var v: int := DecimalValue(digits);
      if |s| > 0 && s[0] == '-' then (if v <= Int64Bound then Some(-v) else None)
      else (if v < Int64Bound then Some(v) else None)
  }

  /** A digit string, bare or after `+`, reads as its value and one after `-` as its negation,
      whenever that is an `int64`; outside that range `Atoi` fails. Leading zeros are allowed. */
  lemma AtoiSignedDigits(d: string)
    requires d != [] && AllDigits(d)
    ensures Atoi(d) == if DecimalValue(d) < Int64Bound then Some(DecimalValue(d)) else None
    ensures Atoi("+" + d) == if DecimalValue(d) < Int64Bound then Some(DecimalValue(d)) else None
    ensures Atoi("-" + d) == if DecimalValue(d) <= Int64Bound then Some(-(DecimalValue(d) as int)) else None
  {
    var v := DecimalValue(d);
    assert IsDigit(d[0]);
    assert Atoi(d) == if v < Int64Bound then Some(v) else None;
    var plus, minus := "+" + d, "-" + d;
    assert plus[0] == '+' && plus[1..] == d;
    assert Atoi(plus) == if v < Int64Bound then Some(v) else None;
    assert minus[0] == '-' && minus[1..] == d;
  }

  /** `RETENTION_PERIOD_DAYS=+7` and `=007` both mean 7; a bare sign is an error. */
  lemma AtoiExamples()
    ensures Atoi("+7") == Some(7) && Atoi("007") == Some(7) && Atoi("-") == None
  {
    assert "7"[..0] == "" && DecimalValue("7") == 7;
    AtoiSignedDigits("7");
    assert "+" + "7" == "+7";
    AtoiSignedDigits("007");
    assert "007"[..2] == "00" && "00"[..1] == "0" && "0"[..0] == "";
    assert DecimalValue("00") == 0;
    assert "-"[1..] == "";
  }

  /** `Atoi` reads back every `int64` that `%d` prints. */
  lemma AtoiFormatInt(n: int)
    requires -Int64Bound <= n < Int64Bound
    ensures Atoi(FormatInt(n)) == Some(n)
  {
    var s := FormatInt(n);
    var m: nat := if n < 0 then -n else n;
    var digits := FormatNat(m);
    FormatNatValue(m);
    if n < 0 {
      assert s[0] == '-' && s[1..] == digits;
    } else {
      assert s == digits && IsDigit(s[0]);
    }
  }

  /** `strings.Split(s, [sep])`: the pieces between occurrences of `sep`. */
  function Split(s: string, sep: char): (parts: seq<string>)
    ensures |parts| >= 1
    ensures forall i :: 0 <= i < |parts| ==> sep !in parts[i]
  {
    if s == [] then [[]]
    else
      var rest := Split(s[1..], sep);
      if s[0] == sep then [[]] + rest else [[s[0]] + rest[0]] + rest[1..]
  }

  /** `strings.Join(parts, [sep])`. */
  function Join(parts: seq<string>, sep: char): string
    requires |parts| >= 1
  {
    if |parts| == 1 then parts[0] else parts[0] + [sep] + Join(parts[1..], sep)
  }

  /** Splitting loses nothing: joining the pieces back gives the original text. */
  lemma {:induction false} JoinSplit(s: string, sep: char)
    ensures Join(Split(s, sep), sep) == s
  {
    if s != [] {
      var rest := Split(s[1..], sep);
      JoinSplit(s[1..], sep);
      if s[0] != sep {
        if |rest| == 1 {
          assert Join(Split(s, sep), sep) == [s[0]] + rest[0];
        } else {
          assert rest == [rest[0]] + rest[1..];
          assert Join(Split(s, sep), sep) == [s[0]] + rest[0] + [sep] + Join(rest[1..], sep);
        }
      }
    }
  }

  /** Text that ends with the separator splits into pieces the last of which is empty. */
  lemma {:induction false} SplitTrailing(s: string, sep: char)
    requires s != [] && s[|s| - 1] == sep
    ensures var parts := Split(s, sep); parts[|parts| - 1] == []
  {
    if |s| > 1 {
      SplitTrailing(s[1..], sep);
    }
  }

  /** The position of the first `sep` in `s`. */
  function IndexOf(s: string, sep: char): (i: nat)
    requires sep in s
    ensures i < |s| && s[i] == sep && sep !in s[..i]
  {
    if s[0] == sep then 0 else 1 + IndexOf(s[1..], sep)
  }

  /** `strings.SplitN(s, [sep], 2)`: `[s]` when `sep` does not occur, otherwise the text
      before the first `sep` and everything after it. */
  function SplitN2(s: string, sep: char): (parts: seq<string>)
    ensures |parts| == 1 <==> sep !in s
    ensures |parts| == 1 || |parts| == 2
    ensures |parts| == 1 ==> parts[0] == s
    ensures |parts| == 2 ==> parts[0] + [sep] + parts[1] == s && sep !in parts[0]
  {
    if sep !in s then [s]
    else
      var i := IndexOf(s, sep);
      assert s == s[..i] + [sep] + s[i + 1..];
      [s[..i], s[i + 1..]]
  }

  function Max(a: int, b: int): int
  {
    if a < b then b else a
  }
}
