/**
 The pink-noise generator: rows of random values that change at halving rates.
 The row to change is the number of trailing zeros of a counter.
 */
module PinkNoise {
  import opened Sequences

  const MAX_ROWS: nat := 30
  const RANDOM_HALF: int := 0x80_0000

  function Pow2(k: nat): nat {
    if k == 0 then 1 else 2 * Pow2(k - 1)
  }

  lemma {:induction false} Pow2Positive(k: nat)
    ensures 0 < Pow2(k)
  {
    if k > 0 {
      Pow2Positive(k - 1);
    }
  }

  /** How often 2 divides `n`. */
  function Zeros(n: nat): nat
    requires 0 < n
  {
    if n % 2 == 1 then 0 else 1 + Zeros(n / 2)
  }

  /** `n` is an odd multiple of that power of 2. */
  lemma {:induction false} ZerosMeaning(n: nat) returns (odd: nat)
    requires 0 < n
    ensures odd % 2 == 1 && n == odd * Pow2(Zeros(n))
  {
    if n % 2 == 1 {
      odd := n;
    } else {
      odd := ZerosMeaning(n / 2);
      assert n == 2 * (odd * Pow2(Zeros(n / 2))) == odd * (2 * Pow2(Zeros(n / 2)));
    }
  }

  /** A counter of `bits` bits names one of that many rows. */
  lemma {:induction false} ZerosInRange(n: nat, bits: nat)
    requires 0 < n < Pow2(bits)
    ensures Zeros(n) < bits
  {
    if n % 2 == 0 {
      ZerosInRange(n / 2, bits - 1);
    }
  }

  /** How many of the numbers 1, …, m - 1 have `k` trailing zeros. */
  function Hits(m: nat, k: nat): nat {
    if m <= 1 then 0 else Hits(m - 1, k) + if Zeros(m - 1) == k then 1 else 0
  }

  lemma {:induction false} HitsOfOdd(m: nat)
    ensures Hits(2 * m, 0) == m
  {
    if m > 0 {
      HitsOfOdd(m - 1);
      assert m > 1 ==> Hits(2 * m - 1, 0) == Hits(2 * m - 2, 0) + if Zeros(2 * m - 2) == 0 then 1 else 0;
      assert (2 * m - 1) % 2 == 1;
    }
  }

  lemma {:induction false} HitsOfEven(m: nat, k: nat)
    ensures Hits(2 * m, k + 1) == Hits(m, k)
  {
    if m > 1 {
      HitsOfEven(m - 1, k);
      HitsOfPair(m - 1, k);
      assert Hits(m, k) == Hits(m - 1, k) + if Zeros(m - 1) == k then 1 else 0;
    }
  }

  /** Of 2m and 2m + 1, the odd one has no trailing zeros. */
  lemma HitsOfPair(m: nat, k: nat)
    requires 0 < m
    ensures Hits(2 * m + 2, k + 1) == Hits(2 * m, k + 1) + if Zeros(m) == k then 1 else 0
  {
    assert Zeros(2 * m) == 1 + Zeros(m) by {
      assert 2 * m / 2 == m;
    }
    assert Zeros(2 * m + 1) == 0;
    assert Hits(2 * m + 1, k + 1) == Hits(2 * m, k + 1) + if Zeros(2 * m) == k + 1 then 1 else 0;
  }

  /** Within a period, each row changes half as often as the one before it. */
  lemma {:induction false} HitsInPeriod(rows: nat, k: nat)
    requires k < rows
    ensures Hits(Pow2(rows), k) == Pow2(rows - 1 - k)
  {
    if k == 0 {
      HitsOfOdd(Pow2(rows - 1));
    } else {
      HitsOfEven(Pow2(rows - 1), k - 1);
      HitsInPeriod(rows - 1, k - 1);
    }
  }

  function Sum(s: seq<int>): int {
    if s == [] then 0 else s[0] + Sum(s[1..])
  }

  lemma {:induction false} SumUpdate(s: seq<int>, i: nat, v: int)
    requires i < |s|
    ensures Sum(s[i := v]) == Sum(s) - s[i] + v
  {
    if i == 0 {
      assert s[i := v][1..] == s[1..];
    } else {
      assert s[i := v][1..] == s[1..][i - 1 := v];
      SumUpdate(s[1..], i - 1, v);
    }
  }

  lemma {:induction false} SumZero(n: nat)
    ensures Sum(seq(n, _ => 0)) == 0
  {
    if n > 0 {
      assert seq(n, _ => 0)[1..] == seq(n - 1, _ => 0);
      SumZero(n - 1);
    }
  }

  ghost predicate Bounded(v: int) {
    -RANDOM_HALF <= v < RANDOM_HALF
  }

  lemma {:induction false} SumBounded(s: seq<int>)
    requires forall i :: 0 <= i < |s| ==> Bounded(s[i])
    ensures -(|s| * RANDOM_HALF) <= Sum(s) <= |s| * (RANDOM_HALF - 1)
  {
    if s != [] {
      assert Bounded(s[0]);
      SumBounded(s[1..]);
    }
  }

  /** The counter after `j` more samples, counting from `i`. */
  function Counter(i: nat, j: nat, period: nat): int {
    if i + j < period then i + j else i + j - period
  }

  /** How often row `k` changed in these samples. */
  function Changes(i: nat, j: nat, period: nat, k: nat): int
    requires i < period && j <= period
  {
    if i + j < period then Hits(i + j + 1, k) - Hits(i + 1, k)
    else Hits(period, k) - Hits(i + 1, k) + Hits(i + j - period + 1, k)
  }

  lemma ChangesStep(i: nat, j: nat, period: nat, k: nat)
    requires i < period && j < period
    ensures var n := Counter(i, j + 1, period);
            Changes(i, j + 1, period, k) == Changes(i, j, period, k) + if n > 0 && Zeros(n) == k then 1 else 0
  {
  }

  lemma MaskedIncrement(x: nat, mask: nat)
    requires x <= mask
    ensures (x + 1) % (mask + 1) == if x == mask then 0 else x + 1
  {
  }

  /** A 32-bit number read as a signed one. */
  function Signed(x: nat): int {
    if x < 0x8000_0000 then x else x - 0x1_0000_0000
  }

  class Pink {
    const numRows: nat
    const indexMask: nat
    const rows: array<int>
    var runningSum: int
    var index: nat
    var randSeed: nat

    // How often each row has changed.
    ghost var changes: seq<nat>

    ghost predicate Shape() {
      numRows <= MAX_ROWS && rows.Length == MAX_ROWS && indexMask + 1 == Pow2(numRows)
    }

    ghost predicate Valid()
      reads this, rows
    {
      && Shape() && index <= indexMask && |changes| == MAX_ROWS
      && runningSum == Sum(rows[..numRows])
      && forall k :: 0 <= k < numRows ==> Bounded(rows[k])
    }

    constructor (n: nat, seed: nat)
      requires n <= MAX_ROWS
      ensures Valid() && numRows == n && index == 0 && fresh(rows)
    {
      Pow2Positive(n);
      SumZero(n);
      numRows, indexMask, runningSum, index, randSeed := n, Pow2(n) - 1, 0, 0, seed;
      rows := new int[MAX_ROWS](_ => 0);
      changes := seq(MAX_ROWS, _ => 0);
      new;
      assert rows[..n] == seq(n, _ => 0);
    }

    /** The upper 24 bits of a 32-bit congruential generator, as a signed number. */
    method NextRandom() returns (v: int)
      modifies this`randSeed
      ensures Bounded(v)
      ensures randSeed == (old(randSeed) * 196314165 + 907633515) % 0x1_0000_0000
      ensures v * 0x100 <= Signed(randSeed) < (v + 1) * 0x100
    {
      randSeed := (randSeed * 196314165 + 907633515) % 0x1_0000_0000;
      v := randSeed / 0x100;
      if v >= RANDOM_HALF {
        v := v - 2 * RANDOM_HALF;
      }
    }

    /** Replaces row `k`, which keeps the running sum the sum of all rows. */
    method Replace(k: nat)
      requires Valid() && k < numRows
      modifies this`runningSum, this`randSeed, this`changes, rows
      ensures Valid() && changes == old(changes[k := changes[k] + 1])
      ensures forall j :: 0 <= j < rows.Length && j != k ==> rows[j] == old(rows[j])
    {
      ghost var before := rows[..numRows];
      runningSum := runningSum - rows[k];
      var fresh' := NextRandom();
      runningSum := runningSum + fresh';
      rows[k] := fresh';
      SumUpdate(before, k, fresh');
      assert rows[..numRows] == before[k := fresh'];
      changes := changes[k := changes[k] + 1];
    }

    /** The number of trailing zeros, by shifting. */
    method CountZeros(x: nat) returns (numZeros: nat)
      requires 0 < x
      ensures numZeros == Zeros(x)
    {
      numZeros := 0;
      var n := x;
      while n % 2 == 0
        invariant 0 < n && numZeros + Zeros(n) == Zeros(x)
        decreases n
      {
        n := n / 2;
        numZeros := numZeros + 1;
      }
    }

    /**
     One sample, before it is scaled. It lies in the range that scales to
     [-1, 1), and both sums fit 32 bits.
     */
    method Generate() returns (sum: int)
      requires Valid()
      modifies this`index, this`runningSum, this`randSeed, this`changes, rows
      ensures Valid() && index == old(if index == indexMask then 0 else index + 1)
      ensures index == 0 ==> changes == old(changes)
      ensures index > 0 ==>
                Zeros(index) < numRows && changes == old(changes)[Zeros(index) := old(changes)[Zeros(index)] + 1]
      ensures forall j :: 0 <= j < rows.Length && (index == 0 || j != Zeros(index)) ==> rows[j] == old(rows[j])
      ensures exists white :: Bounded(white) && sum == runningSum + white
      ensures -((numRows + 1) * RANDOM_HALF) <= sum < (numRows + 1) * RANDOM_HALF
      ensures -0x8000_0000 <= runningSum < 0x8000_0000 && -0x8000_0000 <= sum < 0x8000_0000
    {
      MaskedIncrement(index, indexMask);
      index := (index + 1) % (indexMask + 1);
      if index != 0 {
        ZerosInRange(index, numRows);
        var numZeros := CountZeros(index);
        Replace(numZeros);
      }
      var white := NextRandom();
      sum := runningSum + white;
      SumBounded(rows[..numRows]);
    }

    /** In each period of samples, row k changes exactly 2^(numRows - 1 - k) times. */
    method Period()
      requires Valid()
      modifies this`index, this`runningSum, this`randSeed, this`changes, rows
      ensures Valid() && index == old(index)
      ensures forall k :: 0 <= k < numRows ==> changes[k] == old(changes)[k] + Pow2(numRows - 1 - k)
    {
      ghost var start, before := index, changes;
      var period := indexMask + 1;
      for j := 0 to period
        invariant Valid() && index == Counter(start, j, period)
        invariant forall k :: 0 <= k < numRows ==> changes[k] == before[k] + Changes(start, j, period, k)
      {
        forall k | 0 <= k < numRows
          ensures var n := Counter(start, j + 1, period);
                  Changes(start, j + 1, period, k) ==
                  Changes(start, j, period, k) + if n > 0 && Zeros(n) == k then 1 else 0
        {
          ChangesStep(start, j, period, k);
        }
        var _ := Generate();
      }
      forall k | 0 <= k < numRows
        ensures changes[k] == before[k] + Pow2(numRows - 1 - k)
      {
        HitsInPeriod(numRows, k);
      }
    }
  }
}
