/** Positional notation in any base: the number a digit string denotes, and back. */
module Positional {

  type Digits = seq<nat>

  ghost predicate InBase(d: Digits, base: nat) {
    forall i :: 0 <= i < |d| ==> d[i] < base
  }

  /** The number that big-endian digits denote. */
  function ValueOf(d: Digits, base: nat): nat {
    if d == [] then 0 else ValueOf(d[..|d| - 1], base) * base + d[|d| - 1]
  }

  /** The shortest big-endian digit string of `n`; 0 has no digits. */
  function DigitsOf(n: nat, base: nat): (d: Digits)
    requires base >= 2
    ensures InBase(d, base)
    ensures d != [] ==> d[0] != 0
    ensures n == 0 <==> d == []
  {
    if n == 0 then []
    else
      QuotientShrinks(n, base);
      DigitsOf(n / base, base) + [n % base]
  }

  function StripZeros(d: Digits): (t: Digits)
    ensures t != [] ==> t[0] != 0
    ensures d == [] || d[0] != 0 ==> t == d
  {
    if d == [] || d[0] != 0 then d else StripZeros(d[1..])
  }

  lemma {:induction false} StripZerosInBase(d: Digits, base: nat)
    requires InBase(d, base)
    ensures InBase(StripZeros(d), base)
  {
    if d != [] {
      StripZerosInBase(d[1..], base);
    }
  }

  lemma QuotientShrinks(n: nat, base: nat)
    requires base >= 2 && n > 0
    ensures 0 <= n / base < n
    ensures n / base * base + n % base == n
  {
  }

  lemma MulMonotone(a: int, b: int, c: nat)
    requires a <= b
    ensures a * c <= b * c
  {
    assert (b - a) * c >= 0;
  }

  lemma MulGap(a: int, b: int, c: nat)
    requires a < b
    ensures a * c + c <= b * c
  {
    MulMonotone(a + 1, b, c);
  }

  /** Two ways of writing one number as quotient and remainder are the same. */
  lemma QuotientUnique(q: int, r: int, q': int, r': int, base: nat)
    requires 0 <= r < base && 0 <= r' < base
    requires q * base + r == q' * base + r'
    ensures q == q' && r == r'
  {
    if q < q' {
      MulGap(q, q', base);
    } else if q > q' {
      MulGap(q', q, base);
    }
  }

  lemma DivModUnique(q: nat, r: nat, base: nat)
    requires base >= 2 && r < base
    ensures (q * base + r) / base == q && (q * base + r) % base == r
  {
    var n := q * base + r;
    QuotientUnique(q, r, n / base, n % base, base);
  }

  lemma {:induction false} ValueOfDigits(n: nat, base: nat)
    requires base >= 2
    ensures ValueOf(DigitsOf(n, base), base) == n
  {
    if n > 0 {
      QuotientShrinks(n, base);
      ValueOfDigits(n / base, base);
      var d := DigitsOf(n, base);
      assert d[..|d| - 1] == DigitsOf(n / base, base);
    }
  }

  lemma {:induction false} StripLast(d: Digits, x: nat)
    ensures StripZeros(d + [x]) == if StripZeros(d) == [] then StripZeros([x]) else StripZeros(d) + [x]
  {
    if d == [] {
      assert d + [x] == [x];
    } else if d[0] == 0 {
      StripLast(d[1..], x);
      assert (d + [x])[1..] == d[1..] + [x];
    }
  }

  lemma DigitsOfStep(v: nat, x: nat, base: nat)
    requires base >= 2 && x < base
    ensures v * base + x >= 0
    ensures DigitsOf(v * base + x, base) == if v == 0 && x == 0 then [] else DigitsOf(v, base) + [x]
  {
    DivModUnique(v, x, base);
    MulMonotone(0, v, base);
    if v > 0 {
      MulMonotone(1, v, base);
    }
  }

  lemma DigitsOfSnoc(d: Digits, base: nat)
    requires base >= 2 && InBase(d, base) && d != []
    ensures var init, last := d[..|d| - 1], d[|d| - 1];
            var front := DigitsOf(ValueOf(init, base), base);
            DigitsOf(ValueOf(d, base), base) == if front == [] && last == 0 then [] else front + [last]
  {
    DigitsOfStep(ValueOf(d[..|d| - 1], base), d[|d| - 1], base);
  }

  /** Writing back the value of a digit string gives the string without its leading zeros. */
  lemma {:induction false} DigitsOfValue(d: Digits, base: nat)
    requires base >= 2 && InBase(d, base)
    ensures DigitsOf(ValueOf(d, base), base) == StripZeros(d)
  {
    if d != [] {
      var init, last := d[..|d| - 1], d[|d| - 1];
      DigitsOfValue(init, base);
      DigitsOfSnoc(d, base);
      assert d == init + [last];
      StripLast(init, last);
    }
  }

  // ---- little-endian strings of fixed length ---------------------------------------------

  function Power256(k: nat): (p: nat)
    ensures p >= 1
  {
    if k == 0 then 1 else 256 * Power256(k - 1)
  }

  /** The `k` bytes of a number, the least significant first. */
  function ToLittle(n: nat, k: nat): (d: Digits)
    ensures |d| == k && InBase(d, 256)
  {
    if k == 0 then [] else [n % 256] + ToLittle(n / 256, k - 1)
  }

  function FromLittle(d: Digits): nat {
    if d == [] then 0 else d[0] + 256 * FromLittle(d[1..])
  }

  lemma {:induction false} LittleRoundTrip(n: nat, k: nat)
    requires n < Power256(k)
    ensures FromLittle(ToLittle(n, k)) == n
  {
    if k > 0 {
      LittleRoundTrip(n / 256, k - 1);
      assert ToLittle(n, k)[1..] == ToLittle(n / 256, k - 1);
    }
  }

  lemma {:induction false} FromLittleBound(d: Digits)
    requires InBase(d, 256)
    ensures FromLittle(d) < Power256(|d|)
  {
    if d != [] {
      FromLittleBound(d[1..]);
    }
  }

  /** Byte `i` of the little-endian form. */
  lemma {:induction false} LittleAt(n: nat, k: nat, i: nat)
    requires i < k
    ensures ToLittle(n, k)[i] == n / Power256(i) % 256
  {
    if i > 0 {
      LittleAt(n / 256, k - 1, i - 1);
      DivideTwice(n, Power256(i - 1));
    }
  }

  lemma DivideTwice(n: nat, p: nat)
    requires p >= 1
    ensures n / 256 / p == n / (256 * p)
  {
    var q, r := n / 256, n % 256;
    var a, b := q / p, q % p;
    assert n == 256 * q + r && q == a * p + b;
    assert n == a * (256 * p) + (256 * b + r);
    assert 0 <= 256 * b + r < 256 * p;
    QuotientUnique(a, 256 * b + r, n / (256 * p), n % (256 * p), 256 * p);
  }
}
