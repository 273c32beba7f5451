/**
  Slot selection of the frame ring: the cycle with counter value `c` uses
  slot `c % n`, and the counter is a `uint32_t` that is post-incremented once
  per cycle (`(frameIndex++) % FRAME_COUNT`).
*/
module RoundRobin {
  import opened Base

  /** The three example programs that carry a frame ring. */
  datatype Variant =
    | MainCpp       // src/Main.cpp: Application, two slots, no image views
    | AppInitCpp    // src/AppInit.cpp: App, four slots, one view per swapchain image
    | AppCpp        // src/App.cpp: App with a render callback and a subclass destroy hook

  /** FRAME_COUNT of each program: 2 in src/Main.cpp, 4 in src/App.h. */
  function FrameCount(v: Variant): (n: nat)
    ensures n > 0
  {
    if v == MainCpp then 2 else 4
  }

  /** The slot picked by a cycle that starts with counter `c`. */
  function SlotOf(c: u32, n: nat): nat
    requires n > 0
  {
    c % n
  }

  /** The slots picked by `k` consecutive cycles starting with counter `c`. */
  function Schedule(c: u32, k: nat, n: nat): (s: seq<nat>)
    requires n > 0
    ensures |s| == k
    ensures forall j :: 0 <= j < k ==> s[j] < n
    decreases k
  {
    if k == 0 then [] else [SlotOf(c, n)] + Schedule(Inc32(c), k - 1, n)
  }

  /** The counter after `k` cycles starting at `c`. */
  function Advance(c: u32, k: nat): u32
    decreases k
  {
    if k == 0 then c else Advance(Inc32(c), k - 1)
  }

  lemma {:induction false} AdvanceIsModular(c: u32, k: nat)
    ensures Advance(c, k) == (c + k) % U32_MODULUS
    decreases k
  {
    if k > 0 {
      AdvanceIsModular(Inc32(c), k - 1);
      var m := U32_MODULUS;
      if c == 0xFFFF_FFFF {
        assert (0 + (k - 1)) % m == (c + k) % m by { ModShift(k - 1, 1, m); }
      } else {
        assert Inc32(c) + (k - 1) == c + k;
      }
    }
  }

  /** `(a + q*m) % m == a % m` for non-negative `a`. */
  lemma {:induction false} ModShift(a: nat, q: nat, m: nat)
    requires m > 0
    ensures (a + q * m) % m == a % m
  {
    if q > 0 {
      ModShift(a, q - 1, m);
      assert a + q * m == (a + (q - 1) * m) + m;
      ModStep(a + (q - 1) * m, m);
    }
  }

  lemma ModStep(a: nat, m: nat)
    requires m > 0
    ensures (a + m) % m == a % m
  {
    var r, q := a % m, a / m;
    assert a == q * m + r;
    assert a + m == (q + 1) * m + r;
    ModUnique(a + m, q + 1, r, m);
  }

  /** Division with remainder is unique. */
  lemma ModUnique(a: nat, q: nat, r: nat, m: nat)
    requires m > 0 && r < m && a == q * m + r
    ensures a % m == r && a / m == q
  {
    var q', r' := a / m, a % m;
    assert a == q' * m + r';
    if q' < q {
      MulAtLeast(q - q', m);
      assert false;
    } else if q' > q {
      MulAtLeast(q' - q, m);
      assert false;
    }
  }

  lemma {:induction false} MulAtLeast(d: int, m: nat)
    requires d >= 1
    ensures d * m >= m
    decreases d
  {
    if d > 1 {
      MulAtLeast(d - 1, m);
      assert d * m == (d - 1) * m + m;
    }
  }

  /**
    When `n` divides 2^32, one cycle moves the selected slot forward by one,
    also across the wrap-around of the counter from 2^32 - 1 to 0.
  */
  lemma NextSlot(c: u32, n: nat)
    requires n > 0 && U32_MODULUS % n == 0
    ensures SlotOf(Inc32(c), n) == (SlotOf(c, n) + 1) % n
  {
    var r, q := c % n, c / n;
    assert c == q * n + r;
    if c == 0xFFFF_FFFF {
      var k := U32_MODULUS / n;
      assert U32_MODULUS == k * n + 0;
      assert k >= 1;
      assert c == (k - 1) * n + (n - 1);
      ModUnique(c, k - 1, n - 1, n);
      assert (SlotOf(c, n) + 1) % n == 0;
    } else if r + 1 < n {
      ModUnique(c + 1, q, r + 1, n);
      ModUnique(r + 1, 0, r + 1, n);
    } else {
      ModUnique(c + 1, q + 1, 0, n);
      ModUnique(r + 1, 1, 0, n);
    }
  }

  /**
    Round-robin order: when `n` divides 2^32, the `j`-th of consecutive cycles
    uses slot `(c % n + j) % n`, whatever the starting counter `c`.
  */
  lemma {:induction false} ScheduleIsRoundRobin(c: u32, k: nat, n: nat, j: nat)
    requires n > 0 && U32_MODULUS % n == 0 && j < k
    ensures Schedule(c, k, n)[j] == (SlotOf(c, n) + j) % n
    decreases j
  {
    if j == 0 {
      ModUnique(SlotOf(c, n), 0, SlotOf(c, n), n);
    } else {
      ScheduleIsRoundRobin(Inc32(c), k - 1, n, j - 1);
      NextSlot(c, n);
      StepThenAdd(SlotOf(c, n), j - 1, n);
    }
  }

  /** `((s + 1) % n + d) % n == (s + 1 + d) % n` for a slot `s < n`. */
  lemma StepThenAdd(s: nat, d: nat, n: nat)
    requires s < n
    ensures ((s + 1) % n + d) % n == (s + 1 + d) % n
  {
    if s + 1 < n {
      ModUnique(s + 1, 0, s + 1, n);
    } else {
      ModUnique(s + 1, 1, 0, n);
      assert s + 1 + d == d + 1 * n;
      ModShift(d, 1, n);
    }
  }

  /** The frame count of every program divides 2^32. */
  lemma FrameCountsDivideModulus(v: Variant)
    ensures U32_MODULUS % FrameCount(v) == 0
  {
  }

  /**
    Starting from the initial counter 0, the first `n` cycles use every slot
    exactly once, in order.
  */
  lemma FirstRoundUsesEachSlotOnce(n: nat)
    requires n > 0 && U32_MODULUS % n == 0
    ensures Schedule(0, n, n) == seq(n, j => j)
  {
    forall j | 0 <= j < n
      ensures Schedule(0, n, n)[j] == j
    {
      ScheduleIsRoundRobin(0, n, n, j);
      ModUnique(j, 0, j, n);
    }
  }

  /**
    With a frame count that does not divide 2^32 the order breaks at the
    wrap-around: with three slots, counter 2^32 - 1 and its successor 0 both
    select slot 0.
  */
  lemma ThreeSlotsBreakAtWrap()
    ensures SlotOf(0xFFFF_FFFF, 3) == 0 && SlotOf(Inc32(0xFFFF_FFFF), 3) == 0
  {
  }
}
