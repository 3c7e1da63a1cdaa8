/**
 Sampling of the events of a code block: how often the executions of a block by one thread
 index are reported, over runs of any length.
 */
module Sampling {
  import opened Basics

  function Pow2(n: nat): (r: nat)
    ensures r > 0
  {
    if n == 0 then 1 else 2 * Pow2(n - 1)
  }

  /** The top `r` bits of the counter. */
  function Shift(counter: uint32, r: nat): nat
    requires 1 <= r <= 31
  {
    Quotient(counter, Pow2(32 - r))
  }

  function Quotient(a: nat, b: nat): nat
    requires b > 0
  {
    a / b
  }

  type int32 = x: int | -0x8000_0000 <= x < 0x8000_0000

  /** A value stored in a signed 32-bit field. */
  function Signed(x: int): int32 { (x + 0x8000_0000) % TWO32 - 0x8000_0000 }

  /** struct kedr_sampling_counters */
  datatype Counters = Counters(numToSkip: int32, counter: uint32)

  /** One execution of the block at sampling rate `r`: the new counters, and whether it is reported. */
  ghost function Next(c: Counters, r: nat): (Counters, bool)
    requires 1 <= r <= 31
  {
    var left := Signed(c.numToSkip as int - 1);
    if left > 0 then (c.(numToSkip := left), false)
    else
      var n := Shift(c.counter, r) + 1;
      (Counters(Signed(n), (c.counter + n) % TWO32), true)
  }

  class Sampler {
    var counters: Counters
    var total: nat
    var skipped: nat

    constructor ()
      ensures counters == Counters(0, 0) && total == 0 && skipped == 0
    {
      counters, total, skipped := Counters(0, 0), 0, 0;
    }

    /** should_report_events */
    method ShouldReport(r: nat) returns (report: bool)
      requires r <= 31
      modifies this
      ensures total == old(total) + 1 && skipped == old(skipped) + if report then 0 else 1
      ensures r == 0 ==> report && counters == old(counters)
      ensures r > 0 ==> (counters, report) == Next(old(counters), r)
    {
      total := total + 1;
      if r == 0 {
        return true;
      }
      counters := counters.(numToSkip := Signed(counters.numToSkip as int - 1));
      if counters.numToSkip > 0 {
        skipped := skipped + 1;
        return false;
      }
      var counter := counters.counter;
      var n := Shift(counter, r) + 1;
      counters := Counters(Signed(n), (counter + n) % TWO32);
      return true;
    }

    /** `n` executions: every one is either reported or counted as skipped. */
    method Executions(r: nat, n: nat) returns (reported: nat)
      requires 1 <= r <= 31 && counters == Counters(0, 0) && total == 0 && skipped == 0
      modifies this
      ensures total == n == reported + skipped
      ensures counters == After(r, n) && reported == Count(r, n)
    {
      reported := 0;
      var e := 0;
      while e < n
        invariant e <= n && total == e == reported + skipped
        invariant counters == After(r, e) && reported == Count(r, e)
      {
        var report := ShouldReport(r);
        if report {
          reported := reported + 1;
        }
        e := e + 1;
      }
    }
  }

  /** The counters after `e` executions. */
  ghost function After(r: nat, e: nat): Counters
    requires 1 <= r <= 31
  {
    if e == 0 then Counters(0, 0) else Next(After(r, e - 1), r).0
  }

  /** Execution number `e`, from 1, is reported. */
  ghost predicate Reported(r: nat, e: nat)
    requires 1 <= r <= 31
  {
    e > 0 && Next(After(r, e - 1), r).1
  }

  ghost function Count(r: nat, e: nat): nat
    requires 1 <= r <= 31
  {
    if e == 0 then 0 else Count(r, e - 1) + if Reported(r, e) then 1 else 0
  }

  /** From a reported execution to the next. */
  ghost function Gap(r: nat, e: nat): nat
    requires 1 <= r <= 31 && e > 0
  {
    Shift((e - 1) % TWO32, r) + 1
  }

  /** After a reported execution the counter has run ahead to the next one. */
  lemma {:induction false} AfterReport(r: nat, e: nat)
    requires 1 <= r <= 31 && Reported(r, e)
    ensures After(r, e) == Counters(Signed(Gap(r, e)), (e - 1 + Gap(r, e)) % TWO32)
    decreases e
  {
    hide Shift, Signed;
    if e > 1 {
      var p := PreviousReport(r, e);
      AfterReport(r, p);
      SkipsExactly(r, p, e);
      AddModulo(e - 1, Gap(r, e));
    }
  }

  lemma AddModulo(a: nat, b: nat)
    ensures (a % TWO32 + b) % TWO32 == (a + b) % TWO32
  {
  }

  /** The last report before execution `e`; the first execution is always reported. */
  lemma {:induction false} PreviousReport(r: nat, e: nat) returns (p: nat)
    requires 1 <= r <= 31 && e > 1
    ensures 1 <= p < e && Reported(r, p) && forall k :: p < k < e ==> !Reported(r, k)
    decreases e
  {
    if Reported(r, e - 1) {
      p := e - 1;
    } else {
      assert e > 2 by {
        FirstReported(r);
      }
      p := PreviousReport(r, e - 1);
    }
  }

  lemma FirstReported(r: nat)
    requires 1 <= r <= 31
    ensures Reported(r, 1)
  {
    assert After(r, 0) == Counters(0, 0);
  }

  /** While executions are skipped, only the number to skip changes. */
  lemma {:induction false} Skipping(r: nat, p: nat, j: nat)
    requires 1 <= r <= 31 && Reported(r, p)
    requires After(r, p) == Counters(Signed(Gap(r, p)), (p - 1 + Gap(r, p)) % TWO32)
    requires forall k :: p < k <= p + j ==> !Reported(r, k)
    ensures After(r, p + j) == Counters(Signed(Gap(r, p) - j), (p - 1 + Gap(r, p)) % TWO32) && Gap(r, p) > j
    decreases j
  {
    hide Gap, Shift, Signed;
    GapBound(r, p);
    if j > 0 {
      Skipping(r, p, j - 1);
      assert !Reported(r, p + j);
      SignedLess(Gap(r, p) - (j - 1));
    }
  }

  /** Counting down from at most 2^31 in 32 bits: positive until it reaches zero. */
  lemma SignedLess(x: nat)
    requires 1 <= x <= 0x8000_0000
    ensures Signed(Signed(x) as int - 1) == Signed(x - 1) == x - 1
  {
  }

  /** The next report after `p` comes exactly when the number to skip is used up. */
  lemma SkipsExactly(r: nat, p: nat, e: nat)
    requires 1 <= r <= 31 && Reported(r, p) && p < e && Reported(r, e)
    requires forall k :: p < k < e ==> !Reported(r, k)
    requires After(r, p) == Counters(Signed(Gap(r, p)), (p - 1 + Gap(r, p)) % TWO32)
    ensures e == p + Gap(r, p) && After(r, e - 1).counter == (e - 1) % TWO32
  {
    hide Gap, Shift, Signed;
    Skipping(r, p, e - 1 - p);
    GapBound(r, p);
    SignedLess(Gap(r, p) - (e - 1 - p));
  }

  /** If execution `e` is reported, the next one reported is e + ((e - 1) mod 2^32 >> (32 - r)) + 1. */
  lemma NextReported(r: nat, e: nat)
    requires 1 <= r <= 31 && Reported(r, e)
    ensures Reported(r, e + Gap(r, e))
    ensures forall k :: e < k < e + Gap(r, e) ==> !Reported(r, k)
  {
    hide Shift, Signed;
    AfterReport(r, e);
    GapBound(r, e);
    NoneBefore(r, e, Gap(r, e) - 1);
    Skipping(r, e, Gap(r, e) - 1);
    SignedLess(1);
  }

  lemma {:induction false} NoneBefore(r: nat, e: nat, j: nat)
    requires 1 <= r <= 31 && Reported(r, e) && j < Gap(r, e)
    requires After(r, e) == Counters(Signed(Gap(r, e)), (e - 1 + Gap(r, e)) % TWO32)
    ensures forall k :: e < k <= e + j ==> !Reported(r, k)
    decreases j
  {
    hide Gap, Shift, Signed;
    if j > 0 {
      NoneBefore(r, e, j - 1);
      Skipping(r, e, j - 1);
      GapBound(r, e);
      SignedLess(Gap(r, e) - (j - 1));
    }
  }

  lemma {:induction false} Pow2Product(a: nat, b: nat)
    ensures Pow2(a + b) == Pow2(a) * Pow2(b)
    decreases a
  {
    if a > 0 {
      Pow2Product(a - 1, b);
    }
  }

  lemma Pow2Of32()
    ensures Pow2(32) == 2 * Pow2(31) == TWO32
  {
    assert Pow2(8) == 256;
    Pow2Product(8, 8);
    Pow2Product(16, 16);
  }

  lemma Pow2AtMost31(r: nat)
    requires r <= 31
    ensures Pow2(r) <= 0x8000_0000
  {
    Pow2Of32();
    Pow2Grows(r, 31);
  }

  lemma {:induction false} Pow2Grows(a: nat, b: nat)
    requires a <= b
    ensures Pow2(a) <= Pow2(b)
    decreases b - a
  {
    if a < b {
      Pow2Grows(a + 1, b);
    }
  }

  /** At most 2^r - 1 executions in a row are skipped. */
  lemma GapBound(r: nat, e: nat)
    requires 1 <= r <= 31 && e > 0
    ensures 1 <= Gap(r, e) <= Pow2(r) <= 0x8000_0000
  {
    hide Pow2;
    Pow2AtMost31(r);
    Pow2Of32();
    Pow2Product(r, 32 - r);
    QuotientBound((e - 1) % TWO32, Pow2(r), Pow2(32 - r));
  }

  /** The gap after a reported execution is one more than the number of whole 2^(32 - r) in its position. */
  lemma GapIs(r: nat, e: nat)
    requires 1 <= r <= 31 && e > 0
    ensures (Gap(r, e) - 1) * Pow2(32 - r) <= (e - 1) % TWO32 < Gap(r, e) * Pow2(32 - r)
    ensures Pow2(r) * Pow2(32 - r) == TWO32
  {
    hide Pow2;
    Pow2Of32();
    Pow2Product(r, 32 - r);
    QuotientIs((e - 1) % TWO32, Pow2(32 - r));
  }

  lemma QuotientIs(x: nat, b: nat)
    requires b > 0
    ensures Quotient(x, b) * b <= x < (Quotient(x, b) + 1) * b
  {
    assert x == x / b * b + x % b;
  }

  lemma QuotientBound(x: nat, a: nat, b: nat)
    requires b > 0 && x < a * b
    ensures Quotient(x, b) < a
  {
    var q := x / b;
    assert q * b <= x;
    MultiplyLess(q, a, b);
  }

  lemma MultiplyLess(q: nat, a: nat, b: nat)
    requires q * b < a * b
    ensures q < a
  {
    MultiplyMonotone(a, q, b);
  }

  lemma MultiplyMonotone(a: nat, q: nat, b: nat)
    ensures a <= q ==> a * b <= q * b
  {
    var d := q - a;
    assert q * b == a * b + d * b;
    assert d >= 0 ==> d * b >= 0;
  }
}
