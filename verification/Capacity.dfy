/** Growth of the edit buffer and of the paste buffer
    (cli/linenoise.c:1652-1680 and 1934-1978). */
module Capacity {

  const SIZE_MAX: nat := 0xFFFF_FFFF_FFFF_FFFF
  const PASTE_MAX_BYTES: nat := 1024 * 1024

  /** buflen and buflen_max of the editor; max == 0 says the buffer is fixed. */
  datatype Cap = Cap(buflen: nat, max: nat)
  {
    /** The largest length the buffer can ever be asked to hold. */
    function Limit(): nat { if buflen < max then max else buflen }
  }

  /** The doubling loop of linenoiseEditGrow. */
  function Doubled(n: nat, needed: nat, max: nat): (r: nat)
    requires 0 < n
    ensures if n >= needed then r == n else n <= r || r == max
    decreases if n < needed then needed - n else 0
  {
    if n >= needed then n
    else if n > max / 2 then max
    else Doubled(n * 2, needed, max)
  }

  /** The new length linenoiseEditGrow asks for when it has to grow. */
  function Target(c: Cap, needed: nat): nat {
    Doubled(if c.buflen == 0 then 16 else c.buflen, needed, c.max)
  }

  /** linenoiseEditGrow succeeds; allocation is taken to succeed. */
  predicate CanGrow(c: Cap, needed: nat) {
    needed <= c.buflen || (c.max != 0 && needed <= c.max && Target(c, needed) != SIZE_MAX)
  }

  /** The capacity after linenoiseEditGrow, which a refusal leaves as it was. */
  function Grown(c: Cap, needed: nat): (r: Cap)
    ensures r.max == c.max
  {
    if c.buflen < needed && CanGrow(c, needed) then Cap(Target(c, needed), c.max) else c
  }

  function Pow2(k: nat): nat { if k == 0 then 1 else 2 * Pow2(k - 1) }

  /** n doubled k times is the first doubling that suffices, or r is max and one more
      doubling would have passed it. */
  predicate LeastDoubling(n: nat, needed: nat, max: nat, k: nat, r: nat) {
    if needed <= n * Pow2(k) then r == n * Pow2(k) && (0 < k ==> n * Pow2(k - 1) < needed)
    else r == max && max < 2 * (n * Pow2(k))
  }

  lemma {:induction false} DoubledIsLeast(n: nat, needed: nat, max: nat) returns (k: nat)
    requires 0 < n
    ensures LeastDoubling(n, needed, max, k, Doubled(n, needed, max))
    decreases if n < needed then needed - n else 0
  {
    k := 0;
    if n < needed && n <= max / 2 {
      k := DoubledIsLeast(n * 2, needed, max);
      LeastAfterOne(n, needed, max, k, Doubled(n, needed, max));
      k := k + 1;
    } else {
      assert n * Pow2(0) == n;
    }
  }

  lemma PowMore(n: nat, k: nat)
    ensures n * Pow2(k + 1) == n * 2 * Pow2(k)
  {
    var p := Pow2(k);
    assert n * (2 * p) == n * 2 * p;
  }

  lemma LeastAfterOne(n: nat, needed: nat, max: nat, k: nat, r: nat)
    requires n < needed && LeastDoubling(n * 2, needed, max, k, r)
    ensures LeastDoubling(n, needed, max, k + 1, r)
  {
    PowMore(n, k);
    if 0 < k {
      PowMore(n, k - 1);
    } else {
      assert n * Pow2(0) == n;
    }
    hide Pow2;
  }

  method GrowthLoop(start: nat, needed: nat, max: nat) returns (newlen: nat)
    requires 0 < start
    ensures newlen == Doubled(start, needed, max)
    ensures exists k: nat :: LeastDoubling(start, needed, max, k, newlen)
  {
    hide LeastDoubling;
    ghost var k := DoubledIsLeast(start, needed, max);
    newlen := start;
    while newlen < needed
      invariant 0 < newlen
      invariant Doubled(newlen, needed, max) == Doubled(start, needed, max)
      decreases needed - newlen
    {
      if newlen > max / 2 {
        newlen := max;
        break;
      }
      newlen := newlen * 2;
    }
  }

  lemma {:induction false} DoubledBounds(n: nat, needed: nat, max: nat)
    requires 0 < n < needed <= max
    ensures needed <= Doubled(n, needed, max) <= max
    ensures Doubled(n, needed, max) < 2 * needed
    ensures 2 * n <= Doubled(n, needed, max) || Doubled(n, needed, max) == max
    decreases needed - n
  {
    if n <= max / 2 && n * 2 < needed {
      DoubledBounds(n * 2, needed, max);
    }
  }

  /** A real growth stays within buflen_max, except that an empty buffer starts at 16
      bytes, and asks for less than twice what is needed, with the same exception. */
  lemma GrowthBounds(c: Cap, needed: nat)
    requires c.buflen < needed && CanGrow(c, needed)
    ensures needed <= Grown(c, needed).buflen
    ensures Grown(c, needed).buflen <= c.max <==> 0 < c.buflen || 16 <= c.max
    ensures Grown(c, needed).buflen < 2 * needed <==> 0 < c.buflen || 8 < needed
  {
    if 0 < c.buflen {
      DoubledBounds(c.buflen, needed, c.max);
    } else if 16 < needed {
      DoubledBounds(16, needed, c.max);
    }
  }

  /** With a non-empty buffer below SIZE_MAX, growth succeeds exactly up to the limit. */
  lemma GrowsToLimit(c: Cap, needed: nat)
    requires 0 < c.buflen && c.max < SIZE_MAX
    ensures CanGrow(c, needed) <==> needed <= c.Limit()
    ensures Grown(c, needed).Limit() == c.Limit()
    ensures 0 < Grown(c, needed).buflen && c.buflen <= Grown(c, needed).buflen
  {
    if c.buflen < needed <= c.max {
      DoubledBounds(c.buflen, needed, c.max);
    }
  }

  /** Growing in small steps, as a paste does, ends where one large step ends. */
  lemma {:induction false} DoubledTwice(n: nat, a: nat, b: nat, max: nat)
    requires 0 < n && a <= b <= max
    ensures Doubled(Doubled(n, a, max), b, max) == Doubled(n, b, max)
    decreases if n < a then a - n else 0
  {
    if n < a && n <= max / 2 {
      DoubledTwice(n * 2, a, b, max);
    }
  }

  lemma GrownTwice(c: Cap, a: nat, b: nat)
    requires 0 < c.buflen && c.max < SIZE_MAX && a <= b <= c.Limit()
    ensures Grown(Grown(c, a), b) == Grown(c, b)
  {
    GrowsToLimit(c, a);
    GrowsToLimit(c, b);
    if c.buflen < b {
      DoubledTwice(c.buflen, a, b, c.max);
      if c.buflen < a {
        GrowsToLimit(Grown(c, a), b);
        DoubledBounds(c.buflen, a, c.max);
      }
    }
  }

  // ----- the cost of a whole run

  function GrownAll(c: Cap, requests: seq<nat>): Cap
    decreases |requests|
  {
    if requests == [] then c else GrownAll(Grown(c, requests[0]), requests[1..])
  }

  /** Sum of the sizes passed to realloc while the requests are served in turn: each growth
      asks for the new length and one byte for the NUL. */
  function ReallocSum(c: Cap, requests: seq<nat>): nat
    decreases |requests|
  {
    if requests == [] then 0
    else
      var d := Grown(c, requests[0]);
      (if c.buflen < d.buflen then d.buflen + 1 else 0) + ReallocSum(d, requests[1..])
  }

  /** How often realloc is called. */
  function Growths(c: Cap, requests: seq<nat>): nat
    decreases |requests|
  {
    if requests == [] then 0
    else
      var d := Grown(c, requests[0]);
      (if c.buflen < d.buflen then 1 else 0) + Growths(d, requests[1..])
  }

  /** `spent` is what the `calls` earlier growths asked for; below the maximum they were
      doublings. */
  lemma {:induction false} ReallocSumFrom(c: Cap, requests: seq<nat>, spent: nat, calls: nat)
    requires 0 < c.buflen && c.max < SIZE_MAX
    requires spent <= 2 * c.buflen + calls || (spent <= 3 * c.buflen + calls && c.buflen >= c.max)
    ensures spent + ReallocSum(c, requests) <= 3 * GrownAll(c, requests).buflen + calls + Growths(c, requests)
    decreases |requests|
  {
    if requests != [] {
      var d := Grown(c, requests[0]);
      if c.buflen < requests[0] <= c.max {
        DoubledBounds(c.buflen, requests[0], c.max);
        ReallocSumFrom(d, requests[1..], spent + d.buflen + 1, calls + 1);
      } else {
        ReallocSumFrom(d, requests[1..], spent, calls);
      }
    }
  }

  /** Over any run the sizes passed to realloc sum to at most three times the final length,
      and one byte for each call. */
  lemma ReallocIsLinear(c: Cap, requests: seq<nat>)
    requires 0 < c.buflen && c.max < SIZE_MAX
    ensures ReallocSum(c, requests) <= 3 * GrownAll(c, requests).buflen + Growths(c, requests)
  {
    ReallocSumFrom(c, requests, 0, 0);
  }

  /** What realloc gets when a buffer of n bytes takes every step of the loop up to max. */
  function AllSteps(n: nat, max: nat): nat
    requires 0 < n
    decreases if n < max then max - n else 0
  {
    if n >= max then 0
    else if n > max / 2 then max + 1
    else n * 2 + 1 + AllSteps(n * 2, max)
  }

  /** A growth in one call costs no more than in single steps. */
  lemma {:induction false} AllStepsMost(n: nat, needed: nat, max: nat)
    requires 0 < n < needed <= max
    ensures var d := Doubled(n, needed, max);
            0 < d && d + 1 + AllSteps(d, max) <= AllSteps(n, max)
    decreases needed - n
  {
    if n <= max / 2 && n * 2 < needed {
      AllStepsMost(n * 2, needed, max);
    }
  }

  /** No run costs more than all single steps, and one that stays below the maximum costs
      less than three times its final length. */
  lemma {:induction false} ReallocSumBound(c: Cap, requests: seq<nat>)
    requires 0 < c.buflen && c.max < SIZE_MAX
    ensures var last := GrownAll(c, requests).buflen;
            last == c.buflen || last <= c.max
    ensures var last := GrownAll(c, requests).buflen;
            if c.buflen < c.max <= last then ReallocSum(c, requests) <= AllSteps(c.buflen, c.max)
            else ReallocSum(c, requests) + 3 * c.buflen <= 3 * last
    decreases |requests|
  {
    if requests != [] {
      var d := Grown(c, requests[0]);
      if c.buflen < requests[0] <= c.max {
        DoubledBounds(c.buflen, requests[0], c.max);
        AllStepsMost(c.buflen, requests[0], c.max);
      }
      ReallocSumBound(d, requests[1..]);
    }
  }

  /** Requests that make the buffer take every single step. */
  function StepRequests(n: nat, max: nat): seq<nat>
    requires 0 < n
    decreases if n < max then max - n else 0
  {
    if n >= max then []
    else [n + 1] + StepRequests(if n > max / 2 then max else n * 2, max)
  }

  lemma {:induction false} StepsAreTaken(n: nat, max: nat)
    requires 0 < n < max < SIZE_MAX
    ensures ReallocSum(Cap(n, max), StepRequests(n, max)) == AllSteps(n, max)
    ensures GrownAll(Cap(n, max), StepRequests(n, max)).buflen == max
    decreases max - n
  {
    var next := if n > max / 2 then max else n * 2;
    var rest := StepRequests(next, max);
    assert ([n + 1] + rest)[1..] == rest;
    assert Grown(Cap(n, max), n + 1) == Cap(next, max);
    if next < max {
      StepsAreTaken(next, max);
    }
  }

  /** The sizes passed to realloc stay within three times the final length, whatever is
      asked for, exactly when the single steps up to the maximum do. */
  lemma ThriceFinalIff(c: Cap)
    requires 0 < c.buflen && c.max < SIZE_MAX
    ensures (forall requests :: ReallocSum(c, requests) <= 3 * GrownAll(c, requests).buflen) <==>
            AllSteps(c.buflen, c.max) <= 3 * c.max
  {
    if AllSteps(c.buflen, c.max) <= 3 * c.max {
      forall requests ensures ReallocSum(c, requests) <= 3 * GrownAll(c, requests).buflen {
        ReallocSumBound(c, requests);
      }
    } else {
      StepsAreTaken(c.buflen, c.max);
      assert ReallocSum(c, StepRequests(c.buflen, c.max)) > 3 * GrownAll(c, StepRequests(c.buflen, c.max)).buflen;
    }
  }

  /** How often n can be doubled without passing max. */
  function Doublings(n: nat, max: nat): nat
    requires 0 < n
    decreases if n < max then max - n else 0
  {
    if n > max / 2 then 0 else 1 + Doublings(n * 2, max)
  }

  lemma {:induction false} AllStepsBound(n: nat, max: nat)
    requires 0 < n < max
    ensures AllSteps(n, max) + 2 * n + 1 <= 3 * max + Doublings(n, max)
    decreases max - n
  {
    if n <= max / 2 && n * 2 < max {
      AllStepsBound(n * 2, max);
    }
  }

  lemma {:induction false} DoublingsBound(n: nat, max: nat, k: nat)
    requires 0 < n && max < n * Pow2(k + 1)
    ensures Doublings(n, max) <= k
    decreases k
  {
    if n <= max / 2 && 0 < k {
      assert n * 2 * Pow2(k) == n * Pow2(k + 1);
      DoublingsBound(n * 2, max, k - 1);
    }
  }

  lemma {:induction false} PowOfSum(a: nat, b: nat)
    ensures Pow2(a + b) == Pow2(a) * Pow2(b)
    decreases a
  {
    if 0 < a {
      PowOfSum(a - 1, b);
    }
  }

  lemma Pow60()
    ensures Pow2(60) == 0x1000_0000_0000_0000
  {
    assert Pow2(1) == 2 && Pow2(2) == 4 && Pow2(3) == 8 && Pow2(4) == 16 && Pow2(5) == 32;
    PowOfSum(5, 5);
    PowOfSum(10, 10);
    PowOfSum(20, 10);
    PowOfSum(30, 30);
  }

  lemma SixtyDoublings(n: nat)
    requires 29 <= n
    ensures SIZE_MAX < n * Pow2(60)
  {
    hide Pow2;
    Pow60();
  }

  /** From 29 bytes up, and so from the 4095 of a prompt, they do. */
  lemma ReallocAtMostThrice(c: Cap, requests: seq<nat>)
    requires 29 <= c.buflen && c.max < SIZE_MAX
    ensures ReallocSum(c, requests) <= 3 * GrownAll(c, requests).buflen
  {
    if c.buflen < c.max {
      SixtyDoublings(c.buflen);
      DoublingsBound(c.buflen, c.max, 59);
      AllStepsBound(c.buflen, c.max);
    }
    ThriceFinalIff(c);
  }

  /** From a smaller buffer they need not: a buffer of one byte that grows to seventeen. */
  lemma ReallocCanPassThrice()
    ensures var c, requests := Cap(1, 17), [2, 3, 5, 9, 17];
            && ReallocSum(c, requests) == 52 && GrownAll(c, requests).buflen == 17
            && AllSteps(1, 17) == 52
  {
    var c := Cap(1, 17);
    assert Grown(c, 2) == Cap(2, 17) && Grown(Cap(2, 17), 3) == Cap(4, 17);
    assert Grown(Cap(4, 17), 5) == Cap(8, 17) && Grown(Cap(8, 17), 9) == Cap(16, 17);
    assert Grown(Cap(16, 17), 17) == Cap(17, 17);
    assert [2, 3, 5, 9, 17][1..] == [3, 5, 9, 17] && [3, 5, 9, 17][1..] == [5, 9, 17];
    assert [5, 9, 17][1..] == [9, 17] && [9, 17][1..] == [17] && [17][1..] == [];
    assert ReallocSum(Cap(8, 17), [9, 17]) == 35;
    assert AllSteps(8, 17) == 35;
  }

  // ----- the paste buffer

  /** The loop of pasteBufferReserve. */
  function Want(want: nat, needed: nat): (r: nat)
    requires 0 < want
    decreases if want < needed then needed - want else 0
  {
    if want >= needed then want
    else if want * 2 > PASTE_MAX_BYTES then PASTE_MAX_BYTES
    else Want(want * 2, needed)
  }

  /** pasteBufferReserve: the new capacity, or a refusal that keeps the old one. */
  method PasteBufferReserve(cap: nat, len: nat, need: nat) returns (ok: bool, newCap: nat)
    requires len <= cap <= PASTE_MAX_BYTES
    ensures ok <==> len + need <= 1048576
    ensures ok ==> len + need <= newCap <= PASTE_MAX_BYTES && cap <= newCap
    ensures ok && cap < len + need ==> newCap <= (if 2 * (len + need) < 64 then 64 else 2 * (len + need))
    ensures !ok || len + need <= cap ==> newCap == cap
    ensures ok && cap < len + need ==> newCap == Want(if cap == 0 then 64 else cap, len + need)
  {
    newCap := cap;
    if cap >= len + need {
      return true, cap;
    }
    var want := if cap == 0 then 64 else cap;
    ghost var first := want;
    while want < len + need
      invariant 0 < want <= PASTE_MAX_BYTES && cap <= want
      invariant want <= 64 || want <= 2 * (len + need) || want == first
      invariant Want(want, len + need) == Want(first, len + need)
      decreases len + need - want
    {
      var doubled := want * 2;
      if doubled <= want || doubled > PASTE_MAX_BYTES {
        want := PASTE_MAX_BYTES;
        break;
      }
      want := doubled;
    }
    if want < len + need {
      return false, cap;
    }
    return true, want;
  }
}
