/**
 * Decimal text of integers as Go's `strconv.Itoa`, `fmt`'s `%0Nd` verb and
 * `strconv.ParseInt(s, 10, 64)` produce and read it.
 */
module Decimal {
  import opened Wrappers

  predicate IsDigit(c: char) { '0' <= c <= '9' }

  predicate AllDigits(s: string)
  {
    forall i :: 0 <= i < |s| ==> IsDigit(s[i])
  }

  function DigitChar(d: int): (c: char)
    requires 0 <= d <= 9
    ensures IsDigit(c) && c as int - '0' as int == d
  {
    ('0' as int + d) as char
  }

  function DigitValue(c: char): int
    requires IsDigit(c)
  {
    c as int - '0' as int
  }

  /** The digits of `n`, most significant first, with no leading zero. */
  function NatDigits(n: nat): (s: string)
    ensures 1 <= |s| && AllDigits(s)
    ensures s[0] == '0' <==> n == 0
    decreases n
  {
    if n < 10 then [DigitChar(n)] else NatDigits(n / 10) + [DigitChar(n % 10)]
  }

  /** `strconv.Itoa`: the digits of |n|, with a leading '-' when `n` is negative. */
  function Itoa(n: int): (s: string)
    ensures 1 <= |s|
    ensures s[0] == '-' <==> n < 0
  {
    if n < 0 then "-" + NatDigits(-n) else NatDigits(n)
  }

  function Zeros(k: int): (s: string)
    ensures |s| == if k > 0 then k else 0
    ensures forall i :: 0 <= i < |s| ==> s[i] == '0'
    decreases k
  {
    if k <= 0 then "" else "0" + Zeros(k - 1)
  }

  /** `fmt.Sprintf("%0*d", width, n)`: zero padding goes after the sign, and the sign counts toward the width. */
  function PadInt(n: int, width: int): (s: string)
    ensures |s| == Max(width, |Itoa(n)|)
  {
    if n < 0 then "-" + Zeros(width - 1 - |NatDigits(-n)|) + NatDigits(-n)
    else Zeros(width - |NatDigits(n)|) + NatDigits(n)
  }

  function Max(a: int, b: int): int { if a < b then b else a }

  /** Reads the digits of `s` left to right, continuing from the value `acc`. */
  function Accumulate(acc: int, s: string): int
    requires AllDigits(s)
    decreases |s|
  {
    if |s| == 0 then acc else Accumulate(acc * 10 + DigitValue(s[0]), s[1..])
  }

  /** The number a string of digits denotes (leading zeros allowed). */
  function DigitsValue(s: string): int
    requires AllDigits(s)
  {
    Accumulate(0, s)
  }

  lemma {:induction false} AccumulateSnoc(acc: int, s: string, c: char)
    requires AllDigits(s) && IsDigit(c)
    ensures AllDigits(s + [c])
    ensures Accumulate(acc, s + [c]) == Accumulate(acc, s) * 10 + DigitValue(c)
    decreases |s|
  {
    if |s| > 0 {
      assert (s + [c])[1..] == s[1..] + [c];
      AccumulateSnoc(acc * 10 + DigitValue(s[0]), s[1..], c);
    }
  }

  /** Itoa's digits read back as the number they were made from. */
  lemma {:induction false} NatDigitsValue(n: nat)
    ensures DigitsValue(NatDigits(n)) == n
    decreases n
  {
    if n < 10 {
      var c := DigitChar(n);
      assert NatDigits(n) == [c] && [c][1..] == [];
      assert Accumulate(0, [c]) == Accumulate(n, []);
    } else {
      NatDigitsValue(n / 10);
      AccumulateSnoc(0, NatDigits(n / 10), DigitChar(n % 10));
    }
  }

  lemma {:induction false} ZerosValue(k: int, s: string)
    requires AllDigits(s)
    ensures AllDigits(Zeros(k) + s) && DigitsValue(Zeros(k) + s) == DigitsValue(s)
    decreases k
  {
    if k > 0 {
      ZerosValue(k - 1, s);
      var x := Zeros(k) + s;
      assert x == "0" + (Zeros(k - 1) + s);
      assert x[0] == '0' && x[1..] == Zeros(k - 1) + s;
      assert AllDigits(x) by {
        forall i | 0 <= i < |x| ensures IsDigit(x[i]) {
          if i > 0 { assert x[i] == (Zeros(k - 1) + s)[i - 1]; }
        }
      }
      assert Accumulate(0, x) == Accumulate(0, x[1..]);
    } else {
      assert Zeros(k) + s == s;
    }
  }

  function Pow10(k: nat): (p: nat)
    ensures p >= 1
  {
    if k == 0 then 1 else 10 * Pow10(k - 1)
  }

  lemma {:induction false} NatDigitsLength(n: nat, k: nat)
    requires 1 <= k && n < Pow10(k)
    ensures |NatDigits(n)| <= k
    decreases n
  {
    if n >= 10 {
      NatDigitsLength(n / 10, k - 1);
    }
  }

  /**
   * `%0Nd` of a non-negative number below 10^N is exactly N digits that read
   * back as the number.
   */
  lemma PadIntDigits(n: nat, width: nat)
    requires 1 <= width && n < Pow10(width)
    ensures |PadInt(n, width)| == width
    ensures AllDigits(PadInt(n, width)) && DigitsValue(PadInt(n, width)) == n
  {
    NatDigitsLength(n, width);
    NatDigitsValue(n);
    ZerosValue(width - |NatDigits(n)|, NatDigits(n));
  }

  datatype NumError = SyntaxError | RangeError

  const MaxUint64: int := 0xFFFF_FFFF_FFFF_FFFF
  /** 1 << 63: the magnitude bound of a 64-bit signed integer. */
  const Int64Cutoff: int := 0x8000_0000_0000_0000

  /** The digit loop of `strconv.ParseUint` (base 10, 64 bits), continuing from `acc`. */
  function ScanDigits(s: string, acc: int): (r: Result<int, NumError>)
    ensures 0 <= acc && r.Ok? ==> acc <= r.value
    decreases |s|
  {
    if |s| == 0 then Ok(acc)
    else if !IsDigit(s[0]) then Err(SyntaxError)
    else
      var n := acc * 10 + DigitValue(s[0]);
      if n > MaxUint64 then Err(RangeError) else ScanDigits(s[1..], n)
  }

  function ParseUint(s: string): (r: Result<int, NumError>)
    ensures r.Ok? ==> 0 <= r.value
  {
    if |s| == 0 then Err(SyntaxError) else ScanDigits(s, 0)
  }

  /** The text after one optional leading sign. */
  function Unsigned(s: string): string
  {
    if |s| > 0 && (s[0] == '+' || s[0] == '-') then s[1..] else s
  }

  /**
   * `strconv.ParseInt(s, 10, 64)`: an optional sign, then the unsigned
   * parse, then the signed 64-bit range check.
   */
  function ParseInt(s: string): (r: Result<int, NumError>)
    ensures r.Ok? ==> -Int64Cutoff <= r.value < Int64Cutoff
  {
    if |s| == 0 then Err(SyntaxError)
    else
      var neg := s[0] == '-';
      match ParseUint(Unsigned(s))
      case Err(e) => Err(e)
      case Ok(un) =>
        if !neg && un >= Int64Cutoff then Err(RangeError)
        else if neg && un > Int64Cutoff then Err(RangeError)
        else Ok(if neg then -un else un)
  }

  /** An optionally signed, non-empty run of decimal digits. */
  predicate IsSignedDecimal(s: string)
  {
    |s| >= 1 && |Unsigned(s)| >= 1 && AllDigits(Unsigned(s))
  }

  function SignedValue(s: string): int
    requires IsSignedDecimal(s)
  {
    if s[0] == '-' then -DigitsValue(Unsigned(s)) else DigitsValue(Unsigned(s))
  }

  predicate InInt64(n: int) { -Int64Cutoff <= n < Int64Cutoff }

  lemma {:induction false} AccumulateGrows(acc: int, s: string)
    requires 0 <= acc && AllDigits(s)
    ensures acc <= Accumulate(acc, s)
    decreases |s|
  {
    if |s| > 0 {
      AccumulateGrows(acc * 10 + DigitValue(s[0]), s[1..]);
    }
  }

  /** The digit loop succeeds exactly on digit strings whose value fits 64 unsigned bits. */
  lemma {:induction false} ScanDigitsOutcome(s: string, acc: int)
    requires 0 <= acc <= MaxUint64
    ensures ScanDigits(s, acc).Ok? <==> AllDigits(s) && Accumulate(acc, s) <= MaxUint64
    ensures ScanDigits(s, acc).Ok? ==> ScanDigits(s, acc).value == Accumulate(acc, s)
    ensures AllDigits(s) && ScanDigits(s, acc).Err? ==> ScanDigits(s, acc).error == RangeError
    decreases |s|
  {
    if |s| > 0 {
      assert AllDigits(s) <==> IsDigit(s[0]) && AllDigits(s[1..]) by {
        if IsDigit(s[0]) && AllDigits(s[1..]) {
          forall i | 0 <= i < |s| ensures IsDigit(s[i]) {
            if i > 0 { assert s[i] == s[1..][i - 1]; }
          }
        }
      }
      if IsDigit(s[0]) {
        var n := acc * 10 + DigitValue(s[0]);
        if n > MaxUint64 {
          if AllDigits(s) {
            AccumulateGrows(n, s[1..]);
          }
        } else {
          ScanDigitsOutcome(s[1..], n);
        }
      }
    }
  }

  /**
   * ParseInt accepts exactly the optionally signed decimals in the int64
   * range and yields their value; a well-formed decimal out of range is a
   * range error.
   */
  lemma ParseIntCharacterization(s: string)
    ensures ParseInt(s).Ok? <==> IsSignedDecimal(s) && InInt64(SignedValue(s))
    ensures ParseInt(s).Ok? ==> ParseInt(s).value == SignedValue(s)
    ensures IsSignedDecimal(s) && !InInt64(SignedValue(s)) ==> ParseInt(s) == Err(RangeError)
  {
    if |s| > 0 {
      ScanDigitsOutcome(Unsigned(s), 0);
    }
  }

  lemma ParseIntEmpty()
    ensures ParseInt("") == Err(SyntaxError)
    ensures ParseInt("-") == Err(SyntaxError) && ParseInt("+") == Err(SyntaxError)
  {}

  /** Itoa and ParseInt are inverse on the int64 range. */
  lemma ItoaRoundTrip(n: int)
    requires InInt64(n)
    ensures ParseInt(Itoa(n)) == Ok(n)
  {
    var s := Itoa(n);
    if n < 0 {
      assert Unsigned(s) == NatDigits(-n);
      NatDigitsValue(-n);
    } else {
      assert Unsigned(s) == NatDigits(n);
      NatDigitsValue(n);
    }
    ParseIntCharacterization(s);
  }

  /** Itoa is injective: distinct numbers have distinct decimal text. */
  lemma ItoaInjective(a: int, b: int)
    requires Itoa(a) == Itoa(b)
    ensures a == b
  {
    if a < 0 {
      assert NatDigits(-a) == Itoa(a)[1..];
      NatDigitsValue(-a);
      NatDigitsValue(-b);
    } else {
      NatDigitsValue(a);
      NatDigitsValue(b);
    }
  }
}
