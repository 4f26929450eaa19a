/**
 * `human_size`: a byte count rendered with a binary unit, B up to PB, with
 * no decimals. The source divides a float by 1024 until it drops below
 * 1024; here that float is kept as the exact fraction `n / 1024^k`, which is
 * what the float holds for every count below 2^53.
 */
module Sizes {
  import opened Strings

  /** 1024^k. */
  function Pow1024(k: nat): (p: nat)
    ensures p >= 1
  {
    if k == 0 then 1 else 1024 * Pow1024(k - 1)
  }

  /** The unit suffixes of `human_size`, the last one being the cap. */
  const Units: seq<string> := ["B", "KB", "MB", "GB", "TB", "PB"]

  /** The unit `human_size` settles on: the first k with n / 1024^k below
      1024, or the cap. */
  function UnitIndex(n: int): (k: nat)
    ensures k < |Units|
    ensures k > 0 ==> Pow1024(k) <= n
    ensures k < |Units| - 1 ==> n < Pow1024(k + 1)
  {
    if n < Pow1024(1) then 0
    else if n < Pow1024(2) then 1
    else if n < Pow1024(3) then 2
    else if n < Pow1024(4) then 3
    else if n < Pow1024(5) then 4
    else 5
  }

  /** The integer nearest to num / den, ties going to the even neighbour, as
      Python's formatting with zero decimals rounds. */
  function RoundHalfEven(num: int, den: nat): (r: int)
    requires den > 0
    ensures 2 * (num - r * den) <= den && 2 * (r * den - num) <= den
    ensures (2 * (num - r * den) == den || 2 * (r * den - num) == den) ==> r % 2 == 0
  {
    var q := num / den;
    var rem := num % den;
    assert num == q * den + rem;
    assert (q + 1) * den == q * den + den;
    if 2 * rem > den then q + 1
    else if 2 * rem < den then q
    else if q % 2 == 0 then q
    else q + 1
  }

  /** `f"{x:.0f}"` for the exact value x = num / den. */
  function Fixed0(num: int, den: nat): string
    requires den > 0
  {
    var r := RoundHalfEven(num, den);
    if num < 0 then
      assert r <= 0 by {
        assert num / den <= -1;
      }
      "-" + NatToString(-r)
    else
      assert r >= 0;
      NatToString(r)
  }

  /** What `human_size(n)` returns. */
  function FormatSize(n: int): string {
    var k := UnitIndex(n);
    Fixed0(n, Pow1024(k)) + Units[k]
  }

  /** What `human_size(n)` shows for a count: a decimal numeral followed by
      the unit chosen, where the numeral times the unit is within half a
      unit of the count. */
  lemma FormatSizeReads(n: nat)
    ensures var k := UnitIndex(n); var u := Units[k]; var r := FormatSize(n);
      && |r| > |u| && r[|r| - |u|..] == u
      && var d := r[..|r| - |u|];
        && (forall i :: 0 <= i < |d| ==> IsDigit(d[i]))
        && 2 * (n - DigitsValue(d) * Pow1024(k)) <= Pow1024(k)
        && 2 * (DigitsValue(d) * Pow1024(k) - n) <= Pow1024(k)
  {
    var k := UnitIndex(n);
    var q := RoundHalfEven(n, Pow1024(k));
    var d := NatToString(q);
    NatToStringValue(q);
    var r := d + Units[k];
    assert FormatSize(n) == r;
    assert r[..|d|] == d && r[|d|..] == Units[k];
  }

  /** Every unit is letters ending in 'B'. */
  lemma UnitsAreLetters()
    ensures forall k :: 0 <= k < |Units| ==>
      Units[k] != [] && Units[k][|Units[k]| - 1] == 'B' && forall i :: 0 <= i < |Units[k]| ==> 'A' <= Units[k][i] <= 'Z'
  {
  }

  /** The size text ends in 'B' and holds only digits and capital letters,
      so never a '%'. */
  lemma FormatSizeText(n: nat)
    ensures var f := FormatSize(n);
      && f != [] && f[|f| - 1] == 'B'
      && forall i :: 0 <= i < |f| ==> IsDigit(f[i]) || 'A' <= f[i] <= 'Z'
  {
    var f := FormatSize(n);
    FormatSizeReads(n);
    UnitsAreLetters();
    var u := Units[UnitIndex(n)];
    var d := f[..|f| - |u|];
    assert f == d + u;
    forall i | 0 <= i < |f| ensures IsDigit(f[i]) || 'A' <= f[i] <= 'Z' {
      if i >= |d| {
        assert f[i] == u[i - |d|];
      }
    }
  }

  /** `human_size` as the source writes it: a loop over the units that
      divides by 1024 each time the value is still 1024 or more. */
  method HumanSize(n: int) returns (s: string)
    ensures s == FormatSize(n)
  {
    var k := 0;
    var den := 1;
    while k < |Units| - 1
      invariant 0 <= k < |Units|
      invariant den == Pow1024(k)
      invariant k > 0 ==> Pow1024(k) <= n
    {
      if n < 1024 * den {
        return Fixed0(n, den) + Units[k];
      }
      den := den * 1024;
      k := k + 1;
    }
    return Fixed0(n, den) + Units[k];
  }

  /** Below 1024 the count is printed as it is, in bytes. */
  lemma SmallCountsInBytes(n: int)
    requires 0 <= n < 1024
    ensures FormatSize(n) == NatToString(n) + "B"
  {
    assert UnitIndex(n) == 0;
    assert RoundHalfEven(n, 1) == n;
  }

  /** An exact multiple m * 1024^k prints as m with the k-th unit; from PB on
      the unit stays PB however large m is. */
  lemma {:induction false} ExactMultiple(m: nat, k: nat)
    requires 1 <= k < |Units|
    requires 1 <= m && (k < |Units| - 1 ==> m < 1024)
    ensures FormatSize(m * Pow1024(k)) == NatToString(m) + Units[k]
  {
    var p := Pow1024(k);
    var n := m * p;
    assert Pow1024(k + 1) == 1024 * p;
    MulAtLeast(m, p);
    if m < 1024 {
      MulAtLeast(1024 - m, p);
      assert (1024 - m) * p == 1024 * p - n;
    }
    assert UnitIndex(n) == k by {
      var j := UnitIndex(n);
      if j > k {
        PowMonotone(k + 1, j);
      }
    }
    RoundExact(m, p);
  }

  lemma MulAtLeast(d: int, p: nat)
    requires d >= 1
    ensures d * p >= p
  {
  }

  /** An exact multiple of the unit needs no rounding. */
  lemma RoundExact(m: nat, p: nat)
    requires p >= 1
    ensures RoundHalfEven(m * p, p) == m
  {
    var r := RoundHalfEven(m * p, p);
    var d := m - r;
    assert d * p == m * p - r * p;
    if d >= 1 {
      MulAtLeast(d, p);
    } else if d <= -1 {
      assert (-d) * p == -(d * p);
      MulAtLeast(-d, p);
    }
  }

  lemma {:induction false} PowMonotone(i: nat, j: nat)
    requires i <= j
    ensures Pow1024(i) <= Pow1024(j)
  {
    if i < j {
      PowMonotone(i, j - 1);
    }
  }

  /** The unit is chosen before rounding: just under 1 MiB is "1024KB". */
  lemma UnitBeforeRounding()
    ensures FormatSize(1048575) == "1024KB"
  {
    assert UnitIndex(1048575) == 1;
    assert RoundHalfEven(1048575, 1024) == 1024;
    assert NatToString(1024) == "1024";
  }

  /** Round-half-to-even on the exact halves: 1.5 KiB and 2.5 KiB both
      print as "2KB". */
  lemma HalvesRoundToEven()
    ensures FormatSize(1536) == "2KB"
    ensures FormatSize(2560) == "2KB"
  {
    assert UnitIndex(1536) == 1 && UnitIndex(2560) == 1;
    assert RoundHalfEven(1536, 1024) == 2;
    assert RoundHalfEven(2560, 1024) == 2;
  }

  lemma SampleSizes()
    ensures FormatSize(0) == "0B"
    ensures FormatSize(1023) == "1023B"
    ensures FormatSize(1024) == "1KB"
    ensures FormatSize(1048576) == "1MB"
  {
    SmallCountsInBytes(0);
    SmallCountsInBytes(1023);
    assert NatToString(1023) == "1023";
    ExactMultiple(1, 1);
    ExactMultiple(1, 2);
  }
}
