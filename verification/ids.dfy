/** Workout identifiers: `(Date.now() + '').slice(-10)`, the last ten decimal
    digits of the creation time in milliseconds. */
module WorkoutIds {

  /** The number of characters `slice(-10)` keeps. */
  const IdLength: nat := 10

  function Pow10(k: nat): (p: nat)
    ensures p >= 1
  {
    if k == 0 then 1 else 10 * Pow10(k - 1)
  }

  function DigitChar(d: nat): (c: char)
    requires d < 10
    ensures '0' <= c <= '9'
  {
    (48 + d) as char
  }

  /** `n + ''` for a non-negative integer: its decimal digits, no leading zero. */
  function DecimalString(n: nat): (s: string)
    ensures |s| >= 1
    ensures forall i :: 0 <= i < |s| ==> '0' <= s[i] <= '9'
    decreases n
  {
    if n < 10 then [DigitChar(n)] else DecimalString(n / 10) + [DigitChar(n % 10)]
  }

  /** `s.slice(-k)`: the last `k` characters, or all of `s` when it is shorter. */
  function SliceFromEnd(s: string, k: nat): (r: string)
    ensures |r| == if |s| < k then |s| else k
    ensures s == s[..|s| - |r|] + r
  {
    if |s| < k then s else s[|s| - k..]
  }

  /** The id a workout created at time `now` (milliseconds) receives. */
  function IdOf(now: nat): (id: string)
    ensures 1 <= |id| <= IdLength
    ensures forall i :: 0 <= i < |id| ==> '0' <= id[i] <= '9'
  {
    SliceFromEnd(DecimalString(now), IdLength)
  }

  /** The `k` low decimal digits of `n`, zero-padded to exactly `k` characters. */
  function LowDigits(n: nat, k: nat): (s: string)
    ensures |s| == k
  {
    if k == 0 then [] else LowDigits(n / 10, k - 1) + [DigitChar(n % 10)]
  }

  lemma ModUnique(a: nat, m: nat, q: nat, r: nat)
    requires 0 <= r < m
    requires a == m * q + r
    ensures a % m == r && a / m == q
  {
    var q' := a / m;
    if q' < q {
      MulMonotone(m, q' + 1, q);
    } else if q' > q {
      MulMonotone(m, q + 1, q');
    }
  }

  lemma MulMonotone(m: nat, x: nat, y: nat)
    requires x <= y
    ensures m * x <= m * y
  {
  }

  /** Splitting off the last digit: `a mod 10p` is ten times `(a / 10) mod p`
      plus the last digit of `a`. */
  lemma ModSplit(a: nat, p: nat)
    requires p >= 1
    ensures a % (10 * p) == 10 * ((a / 10) % p) + a % 10
  {
    var q, t := (a / 10) / p, (a / 10) % p;
    assert a / 10 == p * q + t;
    assert a == 10 * (a / 10) + a % 10;
    assert a == (10 * p) * q + (10 * t + a % 10);
    ModUnique(a, 10 * p, q, 10 * t + a % 10);
  }

  /** Two timestamps share their `k` low digits exactly when they agree modulo 10^k. */
  lemma {:induction false} LowDigitsEqual(a: nat, b: nat, k: nat)
    ensures LowDigits(a, k) == LowDigits(b, k) <==> a % Pow10(k) == b % Pow10(k)
  {
    if k > 0 {
      LowDigitsEqual(a / 10, b / 10, k - 1);
      ModSplit(a, Pow10(k - 1));
      ModSplit(b, Pow10(k - 1));
      var sa, sb := LowDigits(a, k), LowDigits(b, k);
      if sa == sb {
        assert sa[..k - 1] == sb[..k - 1] && sa[k - 1] == sb[k - 1];
        assert LowDigits(a / 10, k - 1) == sa[..k - 1];
        assert LowDigits(b / 10, k - 1) == sb[..k - 1];
      }
    }
  }

  /** Appending a character shifts the `k`-character tail by one. */
  lemma SliceAppend(s: string, c: char, k: nat)
    requires 1 <= k <= |s| + 1
    ensures SliceFromEnd(s + [c], k) == SliceFromEnd(s, k - 1) + [c]
  {
    var t := s + [c];
    assert t[|t| - k..] == s[|s| - (k - 1)..] + [c];
  }

  /** Unfolding `DecimalString` once for a number with two or more digits. */
  lemma DecimalStep(n: nat)
    requires n >= 10
    ensures n / 10 < n
    ensures DecimalString(n) == DecimalString(n / 10) + [DigitChar(n % 10)]
    ensures |DecimalString(n)| == |DecimalString(n / 10)| + 1
  {
  }

  /** One digit of the induction below: the last digit of `n` ends both sides. */
  lemma SliceStep(n: nat, k: nat)
    requires n >= 10 && 1 <= k <= |DecimalString(n)|
    requires SliceFromEnd(DecimalString(n / 10), k - 1) == LowDigits(n / 10, k - 1)
    ensures SliceFromEnd(DecimalString(n), k) == LowDigits(n, k)
  {
    DecimalStep(n);
    SliceAppend(DecimalString(n / 10), DigitChar(n % 10), k);
  }

  /** The last `k` characters of a decimal string are the `k` low digits. */
  lemma {:induction false} SliceIsLowDigits(n: nat, k: nat)
    requires k <= |DecimalString(n)|
    ensures SliceFromEnd(DecimalString(n), k) == LowDigits(n, k)
    decreases n
  {
    if k > 0 && n >= 10 {
      DecimalStep(n);
      SliceIsLowDigits(n / 10, k - 1);
      SliceStep(n, k);
    } else if k > 0 {
      assert DecimalString(n) == [DigitChar(n)];
      assert LowDigits(n, k) == LowDigits(n / 10, 0) + [DigitChar(n % 10)];
    }
  }

  /** A number of at least 10^k has more than `k` decimal digits. */
  lemma {:induction false} DecimalLength(n: nat, k: nat)
    requires n >= Pow10(k)
    ensures |DecimalString(n)| > k
    decreases n
  {
    if k > 0 {
      DecimalLength(n / 10, k - 1);
    }
  }

  /** From 10^9 ms on (September 2001), two creation times receive the same id
      exactly when they agree modulo 10^10 ms (about 115 days). */
  lemma IdCollision(a: nat, b: nat)
    requires a >= Pow10(IdLength - 1) && b >= Pow10(IdLength - 1)
    ensures IdOf(a) == IdOf(b) <==> a % Pow10(IdLength) == b % Pow10(IdLength)
  {
    DecimalLength(a, IdLength - 1);
    DecimalLength(b, IdLength - 1);
    SliceIsLowDigits(a, IdLength);
    SliceIsLowDigits(b, IdLength);
    LowDigitsEqual(a, b, IdLength);
  }

  lemma MulSign(m: nat, d: int)
    requires m >= 1
    ensures d <= 0 ==> m * d <= 0
    ensures d >= 1 ==> m * d >= m
  {
  }

  /** Numbers less than `m` apart leave different remainders modulo `m`. */
  lemma DistinctResidues(a: nat, b: nat, m: nat)
    requires 1 <= m && a < b < a + m
    ensures a % m != b % m
  {
    var qa, qb := a / m, b / m;
    if a % m == b % m {
      assert b - a == m * qb - m * qa;
      assert m * qb - m * qa == m * (qb - qa);
      MulSign(m, qb - qa);
    }
  }

  /** Consequently two workouts created less than 10^10 ms apart get distinct ids. */
  lemma IdsDistinctWithinWindow(a: nat, b: nat)
    requires Pow10(IdLength - 1) <= a < b < a + Pow10(IdLength)
    ensures IdOf(a) != IdOf(b)
  {
    IdCollision(a, b);
    DistinctResidues(a, b, Pow10(IdLength));
  }
}
