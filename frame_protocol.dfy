/**
  What the frame ring guarantees: every log it produces obeys the Vulkan
  valid-usage rules of `FrameSync.Apply`, the slots are used round-robin,
  and the first round of cycles never waits for the device.
*/
module FrameProtocol {
  import opened Base
  import opened RoundRobin
  import opened FrameSync

  lemma SetSlotTwice(g: Gpu, i: nat, x: Slot, y: Slot)
    requires i < |g.slots|
    ensures SetSlot(SetSlot(g, i, x), i, y) == SetSlot(g, i, y)
  {
    assert g.slots[i := x][i := y] == g.slots[i := y];
  }

  lemma ApplyReset(g: Gpu, s: nat)
    requires s < |g.slots| && g.slots[s].fence == Signalled
    ensures Apply(g, ResetFence(s)) == Some(SetSlot(g, s, g.slots[s].(fence := Unsignalled)))
  {
  }

  lemma ApplyAcquire(g: Gpu, s: nat, img: nat)
    requires s < |g.slots| && img < g.imageCount && img !in g.acquired && !g.slots[s].imageAvailable
    ensures Apply(g, Acquire(img, ImageAvailable(s)))
            == Some(SetSlot(g, s, g.slots[s].(imageAvailable := true)).(acquired := g.acquired + {img}))
  {
  }

  lemma ApplyBegin(g: Gpu, s: nat)
    requires s < |g.slots| && g.slots[s].cmd != Recording && g.slots[s].cmd != Pending
    ensures Apply(g, Begin(s)) == Some(SetSlot(g, s, g.slots[s].(cmd := Recording)))
  {
  }

  lemma ApplyEnd(g: Gpu, s: nat)
    requires s < |g.slots| && g.slots[s].cmd == Recording
    ensures Apply(g, End(s)) == Some(SetSlot(g, s, g.slots[s].(cmd := Executable)))
  {
  }

  lemma ApplySubmit(g: Gpu, s: nat)
    requires s < |g.slots| && g.slots[s] == Slot(Unsignalled, true, false, Executable)
    ensures Apply(g, Submit(s, ImageAvailable(s), RenderFinished(s), s))
            == Some(SetSlot(g, s, Slot(Armed, false, true, Pending)))
  {
    var g1 := SetSlot(g, s, Slot(Unsignalled, true, false, Pending));
    var g2 := SetSlot(g, s, Slot(Armed, true, false, Pending));
    var g3 := SetSlot(g, s, Slot(Armed, false, false, Pending));
    SetSlotTwice(g, s, Slot(Unsignalled, true, false, Pending), Slot(Armed, true, false, Pending));
    SetSlotTwice(g, s, Slot(Armed, true, false, Pending), Slot(Armed, false, false, Pending));
    SetSlotTwice(g, s, Slot(Armed, false, false, Pending), Slot(Armed, false, true, Pending));
    assert SetSlot(g1, s, g1.slots[s].(fence := Armed)) == g2;
    assert SetSem(g2, ImageAvailable(s), false) == g3;
  }

  lemma ApplyPresent(g: Gpu, s: nat, img: nat)
    requires s < |g.slots| && img in g.acquired && g.slots[s].renderFinished
    ensures Apply(g, Present(img, RenderFinished(s)))
            == Some(SetSlot(g, s, g.slots[s].(renderFinished := false)).(acquired := g.acquired - {img}))
  {
  }

  lemma ApplyCompleted(g: Gpu, s: nat)
    requires s < |g.slots| && g.slots[s] == InFlight
    ensures Apply(g, Completed(s, s)) == Some(SetSlot(g, s, Slot(Signalled, false, false, Invalid)))
  {
    SetSlotTwice(g, s, Slot(Signalled, false, false, Pending), Slot(Signalled, false, false, Invalid));
  }

  /** One cycle on an idle, signalled slot replays to the slot in flight. */
  lemma CycleReplays(g: Gpu, s: nat, img: nat)
    requires s < |g.slots| && img < g.imageCount && img !in g.acquired
    requires g.slots[s].fence == Signalled && !g.slots[s].imageAvailable && !g.slots[s].renderFinished
    requires g.slots[s].cmd == Initial || g.slots[s].cmd == Invalid
    ensures Replay(g, CycleEvents(s, img)) == Some(SetSlot(g, s, InFlight))
  {
    var e := CycleEvents(s, img);
    var recording := Slot(Unsignalled, true, false, Recording);
    var g4 := SetSlot(g, s, recording).(acquired := g.acquired + {img});
    assert e == e[..4] + e[4..];
    ReplayAppend(g, e[..4], e[4..]);
    PrologueReplays(g, s, img);
    EpilogueReplays(g4, s, img);
    SetSlotTwice(g, s, recording, InFlight);
    assert g4.acquired - {img} == g.acquired;
  }

  /** Wait, reset, acquire and begin leave the slot recording, its image acquired. */
  lemma PrologueReplays(g: Gpu, s: nat, img: nat)
    requires s < |g.slots| && img < g.imageCount && img !in g.acquired
    requires g.slots[s].fence == Signalled && !g.slots[s].imageAvailable && !g.slots[s].renderFinished
    requires g.slots[s].cmd == Initial || g.slots[s].cmd == Invalid
    ensures Replay(g, CycleEvents(s, img)[..4])
            == Some(SetSlot(g, s, Slot(Unsignalled, true, false, Recording)).(acquired := g.acquired + {img}))
  {
    var c := g.slots[s].cmd;
    var a := g.acquired + {img};
    var x2, x3 := Slot(Unsignalled, false, false, c), Slot(Unsignalled, true, false, c);
    var x4 := Slot(Unsignalled, true, false, Recording);
    var g2 := SetSlot(g, s, x2);
    var g3 := SetSlot(g, s, x3).(acquired := a);
    var g4 := SetSlot(g, s, x4).(acquired := a);
    ApplyReset(g, s);
    ApplyAcquire(g2, s, img);
    SetSlotTwice(g, s, x2, x3);
    ApplyBegin(g3, s);
    SetSlotTwice(g, s, x3, x4);
    var e := CycleEvents(s, img)[..4];
    ReplayCons(g, e[0], e[1..], g);
    ReplayCons(g, e[1], e[2..], g2);
    ReplayCons(g2, e[2], e[3..], g3);
    ReplayCons(g3, e[3], e[4..], g4);
    assert e == [e[0]] + e[1..];
    assert e[1..] == [e[1]] + e[2..];
    assert e[2..] == [e[2]] + e[3..];
    assert e[3..] == [e[3]] + e[4..];
    assert e[4..] == [];
  }

  /** Record, end, submit and present leave the slot in flight, its image given back. */
  lemma EpilogueReplays(g: Gpu, s: nat, img: nat)
    requires s < |g.slots| && img in g.acquired
    requires g.slots[s] == Slot(Unsignalled, true, false, Recording)
    ensures Replay(g, CycleEvents(s, img)[4..])
            == Some(SetSlot(g, s, InFlight).(acquired := g.acquired - {img}))
  {
    var x6, x7 := Slot(Unsignalled, true, false, Executable), Slot(Armed, false, true, Pending);
    var g6 := SetSlot(g, s, x6);
    var g7 := SetSlot(g, s, x7);
    var g8 := SetSlot(g, s, InFlight).(acquired := g.acquired - {img});
    ApplyEnd(g, s);
    ApplySubmit(g6, s);
    SetSlotTwice(g, s, x6, x7);
    ApplyPresent(g7, s, img);
    SetSlotTwice(g, s, x7, InFlight);
    var e := CycleEvents(s, img)[4..];
    ReplayCons(g, e[0], e[1..], g);
    ReplayCons(g, e[1], e[2..], g6);
    ReplayCons(g6, e[2], e[3..], g7);
    ReplayCons(g7, e[3], e[4..], g8);
    assert e == [e[0]] + e[1..];
    assert e[1..] == [e[1]] + e[2..];
    assert e[2..] == [e[2]] + e[3..];
    assert e[3..] == [e[3]] + e[4..];
    assert e[4..] == [];
  }

  /**
    Every cycle obeys the Vulkan rules: replaying the events `Draw` appends,
    from the state before the cycle, succeeds and gives the state after it.
  */
  lemma DrawObeysVulkan(r: Ring, img: nat)
    requires Quiescent(r.gpu) && img < r.gpu.imageCount
    ensures Replay(r.gpu, Draw(r, img).log[|r.log|..]) == Some(Draw(r, img).gpu)
  {
    var g := r.gpu;
    var s := SlotOf(r.counter, |g.slots|);
    var r' := Draw(r, img);
    assert r'.log[|r.log|..] == WaitEvents(g, s) + CycleEvents(s, img);
    if g.slots[s].fence == Armed {
      var h := SetSlot(g, s, Slot(Signalled, false, false, Invalid));
      ApplyCompleted(g, s);
      CycleReplays(h, s, img);
      ReplayCons(g, Completed(s, s), CycleEvents(s, img), h);
      SetSlotTwice(g, s, Slot(Signalled, false, false, Invalid), InFlight);
    } else {
      CycleReplays(g, s, img);
      assert WaitEvents(g, s) + CycleEvents(s, img) == CycleEvents(s, img);
    }
  }

  lemma CompleteObeysVulkan(r: Ring, i: nat)
    requires Quiescent(r.gpu)
    ensures Replay(r.gpu, Complete(r, i).log[|r.log|..]) == Some(Complete(r, i).gpu)
  {
    var r' := Complete(r, i);
    if i < |r.gpu.slots| && r.gpu.slots[i].fence == Armed {
      assert r'.log[|r.log|..] == [Completed(i, i)];
      ApplyCompleted(r.gpu, i);
      ReplayCons(r.gpu, Completed(i, i), [], r'.gpu);
      assert [Completed(i, i)] + [] == [Completed(i, i)];
    } else {
      assert r'.log[|r.log|..] == [];
    }
  }

  lemma SuffixSplit(a: seq<Event>, b: seq<Event>, c: seq<Event>)
    requires Extends(a, b) && Extends(b, c)
    ensures Extends(a, c) && c[|a|..] == b[|a|..] + c[|b|..]
  {
    assert c[..|b|] == b;
    assert c[..|a|] == c[..|b|][..|a|];
  }

  /**
    Every run obeys the Vulkan rules: whatever interleaving of frames and
    device completions, the events a run appends replay without a forbidden
    operation to the run's final state.
  */
  lemma {:induction false} RunObeysVulkan(r: Ring, inputs: seq<Input>)
    requires Quiescent(r.gpu) && ImagesInRange(inputs, r.gpu.imageCount)
    ensures Replay(r.gpu, Run(r, inputs).log[|r.log|..]) == Some(Run(r, inputs).gpu)
    decreases |inputs|
  {
    if inputs == [] {
      assert r.log[|r.log|..] == [];
    } else {
      var r1 := Step(r, inputs[0]);
      match inputs[0] {
        case Frame(img) => DrawObeysVulkan(r, img);
        case DeviceDone(i) => CompleteObeysVulkan(r, i);
      }
      assert ImagesInRange(inputs[1..], r1.gpu.imageCount) by {
        forall j | 0 <= j < |inputs[1..]| && inputs[1..][j].Frame?
          ensures inputs[1..][j].image < r1.gpu.imageCount
        {
          assert inputs[1..][j] == inputs[j + 1];
        }
      }
      RunObeysVulkan(r1, inputs[1..]);
      var rf := Run(r, inputs);
      assert rf == Run(r1, inputs[1..]);
      SuffixSplit(r.log, r1.log, rf.log);
      ReplayAppend(r.gpu, r1.log[|r.log|..], rf.log[|r1.log|..]);
    }
  }

  /** The whole log of a ring started as the source starts it replays
      without a forbidden operation. */
  lemma RingLogIsValid(n: nat, imageCount: nat, inputs: seq<Input>)
    requires n > 0 && ImagesInRange(inputs, imageCount)
    ensures Replay(InitGpu(n, imageCount), Run(Init(n, imageCount), inputs).log)
            == Some(Run(Init(n, imageCount), inputs).gpu)
  {
    RunObeysVulkan(Init(n, imageCount), inputs);
    var log := Run(Init(n, imageCount), inputs).log;
    assert log[0..] == log;
  }

  /** In a log that replays, each operation was allowed in the state the
      operations before it reached. */
  lemma {:induction false} TraceStepAllowed(g: Gpu, log: seq<Event>, k: nat)
    requires Replay(g, log).Some? && k < |log|
    ensures Replay(g, log[..k]).Some?
    ensures Apply(Replay(g, log[..k]).value, log[k]).Some?
  {
    assert log == log[..k] + log[k..];
    ReplayAppend(g, log[..k], log[k..]);
    assert log[k..][0] == log[k];
  }

  /**
    A slot's command buffer is never begun while its previous submission is
    pending, and a fence wait in the log never waits on a fence that is not
    signalled: the wait on fence `f` always follows completion of the
    submission that armed `f`.
  */
  lemma RingNeverReusesPendingSlot(n: nat, imageCount: nat, inputs: seq<Input>, k: nat)
    requires n > 0 && ImagesInRange(inputs, imageCount)
    requires k < |Run(Init(n, imageCount), inputs).log|
    ensures var log := Run(Init(n, imageCount), inputs).log;
            var before := Replay(InitGpu(n, imageCount), log[..k]);
            && before.Some? && |before.value.slots| == n
            && (log[k].Begin? ==> log[k].buffer < n && before.value.slots[log[k].buffer].cmd != Pending)
            && (log[k].WaitFence? ==> log[k].fence < n && before.value.slots[log[k].fence].fence == Signalled)
  {
    var log := Run(Init(n, imageCount), inputs).log;
    RingLogIsValid(n, imageCount, inputs);
    TraceStepAllowed(InitGpu(n, imageCount), log, k);
    var h := Replay(InitGpu(n, imageCount), log[..k]).value;
    assert |h.slots| == n by { ReplayKeepsSlotCount(InitGpu(n, imageCount), log[..k]); }
  }

  lemma {:induction false} ReplayKeepsSlotCount(g: Gpu, log: seq<Event>)
    requires Replay(g, log).Some?
    ensures |Replay(g, log).value.slots| == |g.slots|
    decreases |log|
  {
    if log != [] {
      var h := Apply(g, log[0]).value;
      ReplayKeepsSlotCount(h, log[1..]);
    }
  }

  lemma {:induction false} BegunAppend(a: seq<Event>, b: seq<Event>)
    ensures Begun(a + b) == Begun(a) + Begun(b)
    decreases |a|
  {
    if a == [] {
      assert a + b == b;
    } else {
      assert (a + b)[0] == a[0] && (a + b)[1..] == a[1..] + b;
      BegunAppend(a[1..], b);
    }
  }

  lemma DrawBegins(r: Ring, img: nat)
    requires Quiescent(r.gpu) && img < r.gpu.imageCount
    ensures Begun(Draw(r, img).log[|r.log|..]) == [SlotOf(r.counter, |r.gpu.slots|)]
    ensures Draw(r, img).counter == Inc32(r.counter)
  {
    var s := SlotOf(r.counter, |r.gpu.slots|);
    var e := CycleEvents(s, img);
    assert Draw(r, img).log[|r.log|..] == WaitEvents(r.gpu, s) + e;
    BegunAppend(WaitEvents(r.gpu, s), e);
    assert Begun(WaitEvents(r.gpu, s)) == [];
    BegunCycle(s, img);
  }

  lemma BegunCycle(s: nat, img: nat)
    ensures Begun(CycleEvents(s, img)) == [s]
  {
    var e := CycleEvents(s, img);
    assert e[8..] == [];
    assert Begun(e[7..]) == [] by { assert e[7..][1..] == e[8..]; }
    assert Begun(e[6..]) == [] by { assert e[6..][1..] == e[7..]; }
    assert Begun(e[5..]) == [] by { assert e[5..][1..] == e[6..]; }
    assert Begun(e[4..]) == [] by { assert e[4..][1..] == e[5..]; }
    assert Begun(e[3..]) == [s] by { assert e[3..][1..] == e[4..]; }
    assert Begun(e[2..]) == [s] by { assert e[2..][1..] == e[3..]; }
    assert Begun(e[1..]) == [s] by { assert e[1..][1..] == e[2..]; }
    assert Begun(e) == [s] by { assert e[1..] == e[1..]; }
  }

  lemma ImagesInRangeTail(inputs: seq<Input>, imageCount: nat)
    requires inputs != [] && ImagesInRange(inputs, imageCount)
    ensures ImagesInRange(inputs[1..], imageCount)
  {
    forall j | 0 <= j < |inputs[1..]| && inputs[1..][j].Frame?
      ensures inputs[1..][j].image < imageCount
    {
      assert inputs[1..][j] == inputs[j + 1];
    }
  }

  lemma StepBegins(r: Ring, x: Input)
    requires Quiescent(r.gpu) && (x.Frame? ==> x.image < r.gpu.imageCount)
    ensures Begun(Step(r, x).log[|r.log|..]) == if x.Frame? then [SlotOf(r.counter, |r.gpu.slots|)] else []
    ensures Step(r, x).counter == if x.Frame? then Inc32(r.counter) else r.counter
  {
    match x {
      case Frame(img) =>
        DrawBegins(r, img);
      case DeviceDone(i) =>
        var d := Step(r, x).log[|r.log|..];
        assert d == [] || d == [Completed(i, i)];
    }
  }

  /**
    The slots a run begins are the schedule of its frames: cycle `j`
    (counting frames only) uses slot `counter_j % n`, and the counter moves
    by one per frame, wrapping as a `uint32_t`.
  */
  lemma {:induction false} RunFollowsSchedule(r: Ring, inputs: seq<Input>)
    requires Quiescent(r.gpu) && ImagesInRange(inputs, r.gpu.imageCount)
    ensures Begun(Run(r, inputs).log[|r.log|..]) == Schedule(r.counter, Frames(inputs), |r.gpu.slots|)
    ensures Run(r, inputs).counter == Advance(r.counter, Frames(inputs))
    decreases |inputs|
  {
    if inputs == [] {
      assert r.log[|r.log|..] == [];
    } else {
      var n, x := |r.gpu.slots|, inputs[0];
      var r1 := Step(r, x);
      ImagesInRangeTail(inputs, r.gpu.imageCount);
      RunFollowsSchedule(r1, inputs[1..]);
      var rf := Run(r, inputs);
      assert rf == Run(r1, inputs[1..]);
      SuffixSplit(r.log, r1.log, rf.log);
      BegunAppend(r1.log[|r.log|..], rf.log[|r1.log|..]);
      StepBegins(r, x);
      var k := Frames(inputs[1..]);
      assert Begun(rf.log[|r.log|..]) == Begun(r1.log[|r.log|..]) + Schedule(r1.counter, k, n);
      if x.Frame? {
        assert Frames(inputs) == k + 1;
        assert Schedule(r.counter, k + 1, n) == [SlotOf(r.counter, n)] + Schedule(Inc32(r.counter), k, n);
      } else {
        assert Frames(inputs) == k;
      }
    }
  }

  /**
    With a frame count dividing 2^32 (2 in src/Main.cpp, 4 in src/App.h), a
    ring started at counter 0 begins slot `j % n` in its `j`-th frame, and
    after `k` frames its counter is `k % 2^32`.
  */
  lemma RingIsRoundRobin(n: nat, imageCount: nat, inputs: seq<Input>, j: nat)
    requires n > 0 && U32_MODULUS % n == 0 && ImagesInRange(inputs, imageCount)
    requires j < Frames(inputs)
    ensures |Begun(Run(Init(n, imageCount), inputs).log)| == Frames(inputs)
    ensures Begun(Run(Init(n, imageCount), inputs).log)[j] == j % n
    ensures Run(Init(n, imageCount), inputs).counter == Frames(inputs) % U32_MODULUS
  {
    var r := Init(n, imageCount);
    RunFollowsSchedule(r, inputs);
    assert Run(r, inputs).log[0..] == Run(r, inputs).log;
    ScheduleIsRoundRobin(0, Frames(inputs), n, j);
    ModUnique(0, 0, 0, n);
    AdvanceIsModular(0, Frames(inputs));
  }

  /**
    Fences are created signalled, so the first `n` frames never wait for the
    device, whatever device completions come in between: no fence wait of
    those frames blocks.
  */
  lemma FirstRoundNeverBlocks(n: nat, imageCount: nat, inputs: seq<Input>)
    requires 0 < n < U32_MODULUS && Frames(inputs) <= n && ImagesInRange(inputs, imageCount)
    ensures Blocked(Init(n, imageCount), inputs) == []
  {
    FreshSlotsNeverBlock(Init(n, imageCount), inputs);
  }

  lemma {:induction false} FreshSlotsNeverBlock(r: Ring, inputs: seq<Input>)
    requires Quiescent(r.gpu) && ImagesInRange(inputs, r.gpu.imageCount)
    requires r.counter + Frames(inputs) <= |r.gpu.slots| < U32_MODULUS
    requires forall j :: r.counter <= j < |r.gpu.slots| ==> r.gpu.slots[j].fence == Signalled
    ensures Blocked(r, inputs) == []
    decreases |inputs|
  {
    if inputs != [] {
      var n := |r.gpu.slots|;
      var x := inputs[0];
      var r1 := Step(r, x);
      ImagesInRangeTail(inputs, r.gpu.imageCount);
      if x.Frame? {
        var s := SlotOf(r.counter, n);
        ModUnique(r.counter, 0, r.counter, n);
        assert s == r.counter;
        assert WaitEvents(r.gpu, s) == [];
        assert r1.counter == r.counter + 1;
      } else {
        assert r1.counter == r.counter;
      }
      FreshSlotsNeverBlock(r1, inputs[1..]);
    }
  }

  /**
    Within one cycle the semaphores chain within the selected slot: submit
    waits on the semaphore acquire signalled and signals the slot's
    renderFinished and fence; present waits on that renderFinished and
    presents the acquired image, which is also the image recorded against.
  */
  lemma DrawChainsSemaphores(r: Ring, img: nat)
    requires Quiescent(r.gpu) && img < r.gpu.imageCount
    ensures var d := Draw(r, img).log[|r.log|..];
            var s := SlotOf(r.counter, |r.gpu.slots|);
            var k := |d| - 8;
            && (k == 0 || k == 1)
            && d[k + 2] == Acquire(img, ImageAvailable(s))
            && d[k + 4] == Record(s, img)
            && d[k + 6].Submit? && d[k + 6].buffer == s && d[k + 6].fence == s
            && d[k + 6].wait == d[k + 2].signal
            && d[k + 7].Present? && d[k + 7].wait == d[k + 6].signal && d[k + 7].image == d[k + 2].image
            && d[k + 6].signal == RenderFinished(s)
  {
    var s := SlotOf(r.counter, |r.gpu.slots|);
    DrawLog(r, img);
    CycleAfter(WaitEvents(r.gpu, s), s, img);
  }

  /** The events one draw appends. */
  lemma DrawLog(r: Ring, img: nat)
    requires Quiescent(r.gpu) && img < r.gpu.imageCount
    ensures Draw(r, img).log[|r.log|..] == WaitEvents(r.gpu, SlotOf(r.counter, |r.gpu.slots|)) + CycleEvents(SlotOf(r.counter, |r.gpu.slots|), img)
  {
  }

  lemma CycleAfter(w: seq<Event>, s: nat, img: nat)
    requires |w| <= 1
    ensures var d := w + CycleEvents(s, img);
            var k := |d| - 8;
            && k == |w|
            && d[k + 2] == Acquire(img, ImageAvailable(s))
            && d[k + 4] == Record(s, img)
            && d[k + 6] == Submit(s, ImageAvailable(s), RenderFinished(s), s)
            && d[k + 7] == Present(img, RenderFinished(s))
  {
  }

  /** Wait, reset and acquire leave the slot's fence reset and its image acquired. */
  lemma AcquireReplays(g: Gpu, s: nat, img: nat)
    requires s < |g.slots| && img < g.imageCount && img !in g.acquired
    requires g.slots[s].fence == Signalled && !g.slots[s].imageAvailable && !g.slots[s].renderFinished
    ensures Replay(g, CycleEvents(s, img)[..3])
            == Some(SetSlot(g, s, Slot(Unsignalled, true, false, g.slots[s].cmd)).(acquired := g.acquired + {img}))
  {
    var c := g.slots[s].cmd;
    var x2, x3 := Slot(Unsignalled, false, false, c), Slot(Unsignalled, true, false, c);
    var g2 := SetSlot(g, s, x2);
    var g3 := SetSlot(g, s, x3).(acquired := g.acquired + {img});
    ApplyReset(g, s);
    ApplyAcquire(g2, s, img);
    SetSlotTwice(g, s, x2, x3);
    var e := CycleEvents(s, img)[..3];
    ReplayCons(g, e[0], e[1..], g);
    ReplayCons(g, e[1], e[2..], g2);
    ReplayCons(g2, e[2], e[3..], g3);
    assert e == [e[0]] + e[1..];
    assert e[1..] == [e[1]] + e[2..];
    assert e[2..] == [e[2]] + e[3..];
    assert e[3..] == [];
  }

  /** Record and a failing end leave the recording buffer invalid. */
  lemma FailedEndReplays(g: Gpu, s: nat, img: nat)
    requires s < |g.slots| && img in g.acquired && g.slots[s].cmd == Recording
    ensures Replay(g, [Record(s, img), EndFailed(s)]) == Some(SetSlot(g, s, g.slots[s].(cmd := Invalid)))
  {
    var h := SetSlot(g, s, g.slots[s].(cmd := Invalid));
    ReplayCons(g, Record(s, img), [EndFailed(s)], g);
    ReplayCons(g, EndFailed(s), [], h);
    assert [Record(s, img), EndFailed(s)] == [Record(s, img)] + [EndFailed(s)];
    assert [EndFailed(s)] == [EndFailed(s)] + [];
  }

  /** The part of a cycle before a throw replays to the slot the throw leaves. */
  lemma AbortReplays(g: Gpu, s: nat, img: nat, t: Throw)
    requires s < |g.slots| && img < g.imageCount && img !in g.acquired
    requires g.slots[s].fence == Signalled && !g.slots[s].imageAvailable && !g.slots[s].renderFinished
    requires g.slots[s].cmd == Initial || g.slots[s].cmd == Invalid
    ensures Replay(g, AbortEvents(s, img, t))
            == Some(SetSlot(g, s, Aborted(g.slots[s].cmd, t)).(acquired := g.acquired + {img}))
  {
    var c := CycleEvents(s, img);
    var recording := Slot(Unsignalled, true, false, Recording);
    match t {
      case AtBegin =>
        AcquireReplays(g, s, img);
      case AtRender =>
        PrologueReplays(g, s, img);
      case AtEnd =>
        var g4 := SetSlot(g, s, recording).(acquired := g.acquired + {img});
        assert AbortEvents(s, img, t) == c[..4] + [Record(s, img), EndFailed(s)];
        ReplayAppend(g, c[..4], [Record(s, img), EndFailed(s)]);
        PrologueReplays(g, s, img);
        FailedEndReplays(g4, s, img);
        SetSlotTwice(g, s, recording, Aborted(g.slots[s].cmd, t));
    }
  }

  /**
    A cycle that throws obeys the Vulkan rules as far as it got: the
    operations `Abort` appends replay from the state before the cycle to
    exactly the state it leaves.
  */
  lemma AbortObeysVulkan(r: Ring, img: nat, t: Throw)
    requires Quiescent(r.gpu) && img < r.gpu.imageCount
    ensures Replay(r.gpu, Abort(r, img, t).log[|r.log|..]) == Some(Abort(r, img, t).gpu)
  {
    var g := r.gpu;
    var s := SlotOf(r.counter, |g.slots|);
    var r' := Abort(r, img, t);
    assert r'.log[|r.log|..] == WaitEvents(g, s) + AbortEvents(s, img, t);
    assert g.acquired + {img} == {img};
    if g.slots[s].fence == Armed {
      var done := Slot(Signalled, false, false, Invalid);
      var h := SetSlot(g, s, done);
      ApplyCompleted(g, s);
      AbortReplays(h, s, img, t);
      ReplayCons(g, Completed(s, s), AbortEvents(s, img, t), h);
      SetSlotTwice(g, s, done, Aborted(Invalid, t));
    } else {
      AbortReplays(g, s, img, t);
      assert WaitEvents(g, s) + AbortEvents(s, img, t) == AbortEvents(s, img, t);
    }
  }

  /** The first `k` slots settled, the others as they were. */
  function SettledBelow(g: Gpu, k: nat): Gpu
  {
    g.(slots := seq(|g.slots|, i requires 0 <= i < |g.slots| => if i < k then Settle(g.slots[i]) else g.slots[i]))
  }

  lemma {:induction false} CompletionsReplay(g: Gpu, k: nat)
    requires Consistent(g) && k <= |g.slots|
    ensures Replay(g, Completions(g.slots, k)) == Some(SettledBelow(g, k))
    decreases k
  {
    if k == 0 {
      assert SettledBelow(g, 0).slots == g.slots;
    } else {
      var i := k - 1;
      var last := if g.slots[i].fence == Armed then [Completed(i, i)] else [];
      CompletionsReplay(g, i);
      ReplayAppend(g, Completions(g.slots, i), last);
      SettleOne(g, i);
    }
  }

  /** Settling slot `i` on top of the slots below it. */
  lemma SettleOne(g: Gpu, i: nat)
    requires Consistent(g) && i < |g.slots|
    ensures g.slots[i].fence == Armed ==> Replay(SettledBelow(g, i), [Completed(i, i)]) == Some(SettledBelow(g, i + 1))
    ensures g.slots[i].fence != Armed ==> Replay(SettledBelow(g, i), []) == Some(SettledBelow(g, i + 1))
  {
    var h := SettledBelow(g, i);
    assert h.slots[i] == g.slots[i];
    if g.slots[i].fence == Armed {
      var a := h.slots[i].(fence := Signalled);
      SetSlotTwice(h, i, a, a.(cmd := Invalid));
      assert h.slots[i := Settle(g.slots[i])] == SettledBelow(g, i + 1).slots;
      ReplayCons(h, Completed(i, i), [], SettledBelow(g, i + 1));
      assert [Completed(i, i)] + [] == [Completed(i, i)];
    } else {
      assert SettledBelow(g, i + 1).slots == h.slots;
    }
  }

  /**
    `waitIdle` obeys the Vulkan rules: completing the pending submissions
    in slot order replays to the state `SettleAll` describes.
  */
  lemma WaitIdleObeysVulkan(g: Gpu)
    requires Consistent(g)
    ensures Replay(g, Completions(g.slots, |g.slots|)) == Some(SettleAll(g))
  {
    CompletionsReplay(g, |g.slots|);
    assert SettledBelow(g, |g.slots|).slots == SettleAll(g).slots;
  }

  /** Every program of the repository uses its slots round-robin from its
      first frame on. */
  lemma ProgramsAreRoundRobin(v: Variant, imageCount: nat, inputs: seq<Input>, j: nat)
    requires ImagesInRange(inputs, imageCount) && j < Frames(inputs)
    ensures var log := Run(Init(FrameCount(v), imageCount), inputs).log;
            |Begun(log)| == Frames(inputs) && Begun(log)[j] == j % FrameCount(v)
  {
    FrameCountsDivideModulus(v);
    RingIsRoundRobin(FrameCount(v), imageCount, inputs, j);
  }
}
