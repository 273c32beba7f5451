/**
  The frame loop of the three C++ programs as a class whose fields are the
  objects the programs keep: the frame slot array, the post-incremented
  `uint32_t` frame counter, the image views (src/AppInit.cpp) and, as ghost
  state, the log of device operations and the log of release calls.
*/
module Application {
  import opened Base
  import opened RoundRobin
  import opened FrameSync
  import opened Teardown
  import opened DeviceInit

  /** One iteration of the main loop as the environment decides it: whether
      SDL reported a quit event while polling, where (if anywhere) the
      frame's cycle throws, and the image the swapchain hands out. */
  datatype Iteration = Iteration(quit: bool, fault: Option<Throw>, image: nat)

  datatype Exit = Returned | Rethrown

  predicate Stops(it: Iteration)
  {
    it.quit || it.fault.Some?
  }

  /** The loop ends at some iteration: either a quit event or a throw. */
  predicate Terminates(schedule: seq<Iteration>)
  {
    exists k :: 0 <= k < |schedule| && Stops(schedule[k])
  }

  predicate ImagesBelow(schedule: seq<Iteration>, imageCount: nat)
  {
    forall k :: 0 <= k < |schedule| ==> schedule[k].image < imageCount
  }

  /** What the environment can hand the loop of program `v`: images below
      the swapchain's count, and a throw from the `render` callback only
      where there is one (src/App.cpp). */
  predicate Admissible(schedule: seq<Iteration>, imageCount: nat, v: Variant)
  {
    && ImagesBelow(schedule, imageCount)
    && forall k :: 0 <= k < |schedule| ==> schedule[k].fault == Some(AtRender) ==> v == AppCpp
  }

  /** The iteration at which the loop ends. */
  function FirstStop(schedule: seq<Iteration>): (k: nat)
    requires Terminates(schedule)
    ensures k < |schedule| && Stops(schedule[k])
    ensures forall j :: 0 <= j < k ==> !Stops(schedule[j])
  {
    if Stops(schedule[0]) then 0
    else
      assert Terminates(schedule[1..]) by {
        var k :| 0 <= k < |schedule| && Stops(schedule[k]);
        assert schedule[1..][k - 1] == schedule[k];
      }
      1 + FirstStop(schedule[1..])
  }

  /** The frames the iterations ask for. */
  function Images(its: seq<Iteration>): (xs: seq<Input>)
    ensures |xs| == |its|
  {
    seq(|its|, j requires 0 <= j < |its| => Frame(its[j].image))
  }

  /** The frames completely drawn before the loop ends: the iteration that
      sees the quit event still draws, the one that throws does not. */
  function Drawn(schedule: seq<Iteration>): seq<Input>
    requires Terminates(schedule)
  {
    var k := FirstStop(schedule);
    Images(schedule[..if schedule[k].fault.Some? then k else k + 1])
  }

  /** The ring when the loop ends: the frames drawn and, when the last
      iteration threw, its cycle up to the throw. */
  function Ending(s0: Ring, schedule: seq<Iteration>): Ring
    requires Quiescent(s0.gpu) && Terminates(schedule) && ImagesBelow(schedule, s0.gpu.imageCount)
  {
    var r := FrameSync.Run(s0, Drawn(schedule));
    var it := schedule[FirstStop(schedule)];
    match it.fault
    case None => r
    case Some(t) => Abort(r, it.image, t)
  }

  /** The ring when the loop ends at iteration `k`, spelled out. */
  lemma EndingAt(s0: Ring, schedule: seq<Iteration>, k: nat)
    requires Quiescent(s0.gpu) && Terminates(schedule) && ImagesBelow(schedule, s0.gpu.imageCount)
    requires k == FirstStop(schedule)
    ensures schedule[k].fault.None? ==> Ending(s0, schedule) == FrameSync.Run(s0, Images(schedule[..k + 1]))
    ensures schedule[k].fault.Some? ==>
              Ending(s0, schedule) == Abort(FrameSync.Run(s0, Images(schedule[..k])), schedule[k].image, schedule[k].fault.value)
  {
  }

  lemma ImagesSnoc(schedule: seq<Iteration>, i: nat)
    requires i < |schedule|
    ensures Images(schedule[..i + 1]) == Images(schedule[..i]) + [Frame(schedule[i].image)]
  {
    assert Images(schedule[..i + 1])[i] == Frame(schedule[i].image);
  }

  lemma {:induction false} AdvanceSnoc(c: u32, k: nat)
    ensures Advance(c, k + 1) == Inc32(Advance(c, k))
    decreases k
  {
    if k > 0 {
      AdvanceSnoc(Inc32(c), k - 1);
    }
  }

  class App {
    const variant: Variant
    const imageCount: nat
    /** `frames` / `_frames`: the slot array, FRAME_COUNT entries. */
    const frames: array<Slot>
    /** `frameIndex` / `_frameIndex`. */
    var frameIndex: u32
    /** `_swapchainViews` of src/AppInit.cpp (one view per swapchain image,
        named by the image it views); empty in the other programs. */
    var views: seq<nat>
    var destroyed: bool
    /** The images acquired and not presented: empty except after a cycle
        that threw. */
    ghost var acquired: set<nat>
    ghost var log: seq<Event>
    ghost var released: seq<Release>

    ghost function State(): Ring
      reads this, frames
    {
      Ring(frameIndex, Gpu(frames[..], imageCount, acquired), log)
    }

    ghost predicate Valid()
      reads this, frames
    {
      && frames.Length == FrameCount(variant)
      && Consistent(State().gpu)
      && views == (if variant == AppInitCpp then seq(imageCount, k => k) else [])
    }

    /**
      The slot set-up loop of `initRender` / `initVulkan`: every slot gets
      two binary semaphores, a fence created signalled (so that the first
      wait does not block) and its own command buffer from the pool; in
      src/AppInit.cpp one image view per swapchain image is created too.
    */
    constructor (variant: Variant, imageCount: nat)
      ensures this.variant == variant && this.imageCount == imageCount
      ensures Valid() && Quiescent(State().gpu) && !destroyed && released == []
      ensures State() == Init(FrameCount(variant), imageCount)
      ensures fresh(frames)
    {
      var n := FrameCount(variant);
      var fs := new Slot[n];
      for i := 0 to n
        invariant forall j :: 0 <= j < i ==> fs[j] == FreshSlot
      {
        fs[i] := FreshSlot;
      }
      var vs: seq<nat> := [];
      if variant == AppInitCpp {
        for k := 0 to imageCount
          invariant vs == seq(k, j => j)
        {
          vs := vs + [k];
        }
      }
      this.variant := variant;
      this.imageCount := imageCount;
      frames := fs;
      frameIndex := 0;
      views := vs;
      destroyed := false;
      acquired := {};
      log := [];
      released := [];
      new;
      assert frames[..] == seq(n, _ => FreshSlot);
    }

    /**
      `draw` (src/Main.cpp, src/AppInit.cpp) / `nextFrame` (src/App.cpp):
      select slot `frameIndex % FRAME_COUNT`, post-increment the counter,
      wait on and reset the slot's fence, acquire `image`, record the slot's
      buffer (the inline clear, or the `render` callback of src/App.cpp),
      submit it and present. `fault` says whether `begin`, `render` or `end`
      throws, which ends the cycle there. The images the swapchain returns
      come from the environment; the results of the wait, acquire, submit
      and present are ignored, as in the source.
    */
    method Draw(image: nat, fault: Option<Throw>) returns (threw: bool)
      requires Valid() && Quiescent(State().gpu) && !destroyed && image < imageCount
      requires fault == Some(AtRender) ==> variant == AppCpp
      modifies this`frameIndex, this`acquired, this`log, frames
      ensures threw == fault.Some?
      ensures Valid() && !destroyed && views == old(views) && released == old(released)
      ensures !threw ==> Quiescent(State().gpu) && State() == FrameSync.Draw(old(State()), image)
      ensures threw ==> State() == Abort(old(State()), image, fault.value)
    {
      ghost var r := State();
      var index, slot, ops := AcquireImage(image);
      log := log + ops;
      threw := fault.Some?;
      if fault.None? {
        RecordAndPresent(index, image, slot);
        CycleSplits(index, image);
        assert log == r.log + WaitEvents(r.gpu, index) + CycleEvents(index, image);
        assert State() == Ring(Inc32(r.counter), r.gpu.(slots := r.gpu.slots[index := InFlight]), log);
        assert State() == FrameSync.Draw(r, image);
        QuiescentIsConsistent(State().gpu);
      } else {
        AbandonCycle(index, image, slot, fault.value);
        AbortSplits(index, image, fault.value);
        assert log == r.log + WaitEvents(r.gpu, index) + AbortEvents(index, image, fault.value);
        assert State() == Ring(Inc32(r.counter), Gpu(r.gpu.slots[index := Aborted(slot.cmd, fault.value)], imageCount, {image}), log);
        assert State() == Abort(r, image, fault.value);
      }
    }

    /** The part of a cycle that cannot throw: select the slot and
        post-increment the counter, wait on the fence (the device completes
        the slot's submission if it had not), reset it, acquire `image`. */
    method AcquireImage(image: nat) returns (index: nat, slot: Slot, ghost ops: seq<Event>)
      requires Valid() && Quiescent(State().gpu) && image < imageCount
      modifies this`frameIndex, this`acquired
      ensures index == SlotOf(old(frameIndex), frames.Length) && frameIndex == Inc32(old(frameIndex))
      ensures acquired == {image}
      ensures slot == Slot(Unsignalled, true, false, if old(frames[index]).fence == Armed then Invalid else old(frames[index]).cmd)
      ensures ops == WaitEvents(old(State()).gpu, index) + CycleEvents(index, image)[..3]
    {
      index := frameIndex % frames.Length;
      frameIndex := Inc32(frameIndex);
      slot := frames[index];
      ops := [];
      // waitForFences returns once the device has finished the slot's last submission
      if slot.fence == Armed {
        slot := Slot(Signalled, false, false, Invalid);
        ops := ops + [Completed(index, index)];
      }
      ops := ops + [WaitFence(index)];
      slot := slot.(fence := Unsignalled);
      ops := ops + [ResetFence(index)];
      slot := slot.(imageAvailable := true);
      ops := ops + [Acquire(image, ImageAvailable(index))];
      acquired := acquired + {image};
    }

    /** The rest of a cycle that does not throw: `begin`, the recording,
        `end`, the submission that signals the slot's fence and its
        renderFinished semaphore, and the present that waits on it. */
    method RecordAndPresent(index: nat, image: nat, slot: Slot)
      requires index < frames.Length && acquired == {image}
      requires slot.fence == Unsignalled && slot.imageAvailable && !slot.renderFinished
      modifies frames, this`log, this`acquired
      ensures frames[..] == old(frames[..])[index := InFlight] && acquired == {}
      ensures log == old(log) + CycleEvents(index, image)[3..]
    {
      var b := slot.(cmd := Recording);
      b := b.(cmd := Executable);
      b := b.(cmd := Pending, fence := Armed, imageAvailable := false, renderFinished := true);
      b := b.(renderFinished := false);
      frames[index] := b;
      log := log + [Begin(index), Record(index, image), End(index),
                    Submit(index, ImageAvailable(index), RenderFinished(index), index),
                    Present(image, RenderFinished(index))];
      acquired := acquired - {image};
    }

    /** The rest of a cycle that throws at `t`: the buffer is left as
        `begin` found it, Recording, or Invalid after a failed `end`;
        nothing is submitted and the image stays acquired. */
    method AbandonCycle(index: nat, image: nat, slot: Slot, t: Throw)
      requires index < frames.Length
      requires slot.fence == Unsignalled && slot.imageAvailable && !slot.renderFinished
      modifies frames, this`log
      ensures frames[..] == old(frames[..])[index := Aborted(slot.cmd, t)]
      ensures log == old(log) + AbortEvents(index, image, t)[3..]
    {
      var b := slot;
      ghost var rest: seq<Event> := [];
      if t != AtBegin {
        b := b.(cmd := Recording);
        rest := [Begin(index)];
        if t == AtEnd {
          b := b.(cmd := Invalid);
          rest := rest + [Record(index, image), EndFailed(index)];
        }
      }
      frames[index] := b;
      log := log + rest;
      TailEvents(index, image, t);
    }

    /** The operations of a throwing cycle after the acquire. */
    lemma TailEvents(s: nat, img: nat, t: Throw)
      ensures AbortEvents(s, img, t)[3..] ==
                match t
                case AtBegin => []
                case AtRender => [Begin(s)]
                case AtEnd => [Begin(s), Record(s, img), EndFailed(s)]
    {
    }

    lemma CycleSplits(s: nat, img: nat)
      ensures CycleEvents(s, img) == CycleEvents(s, img)[..3] + CycleEvents(s, img)[3..]
    {
    }

    lemma AbortSplits(s: nat, img: nat, t: Throw)
      ensures |AbortEvents(s, img, t)| >= 3
      ensures AbortEvents(s, img, t) == CycleEvents(s, img)[..3] + AbortEvents(s, img, t)[3..]
    {
      var a := AbortEvents(s, img, t);
      assert a[..3] == CycleEvents(s, img)[..3];
      assert a == a[..3] + a[3..];
    }

    /** The device finishes slot `i`'s submission (an environment step). */
    method DeviceDone(i: nat)
      requires Valid() && Quiescent(State().gpu) && !destroyed
      modifies this, frames
      ensures Valid() && Quiescent(State().gpu) && !destroyed
      ensures views == old(views) && released == old(released)
      ensures State() == Complete(old(State()), i)
    {
      if i < frames.Length && frames[i].fence == Armed {
        frames[i] := Slot(Signalled, false, false, Invalid);
        log := log + [Completed(i, i)];
        assert frames[..] == old(frames[..])[i := Slot(Signalled, false, false, Invalid)];
      }
    }

    /**
      The teardown (the destructor of src/Main.cpp, `cleanup` of
      src/AppInit.cpp, `baseDestroy` of src/App.cpp): `waitIdle` lets the
      device finish every submission, then the objects are released in
      `TeardownOrder`. After a cycle that threw, the slot it used is left
      with its fence reset and nothing submitted.
    */
    method Cleanup()
      requires Valid() && !destroyed
      modifies this, frames
      ensures destroyed && released == old(released) + TeardownOrder(variant, frames.Length, views)
      ensures views == old(views) && State() == Drain(old(State()))
      ensures forall i :: 0 <= i < frames.Length ==> frames[i].fence != Armed && frames[i].cmd != Pending
    {
      DeviceWaitIdle();
      ReleaseAll();
      destroyed := true;
    }

    /** `waitIdle`: the device completes every pending submission. */
    method DeviceWaitIdle()
      requires Valid()
      modifies this`log, frames
      ensures State() == Drain(old(State()))
    {
      log := log + Completions(frames[..], frames.Length);
      forall i | 0 <= i < frames.Length {
        frames[i] := Settle(frames[i]);
      }
      assert frames[..] == SettleAll(old(State()).gpu).slots;
    }
    /** The release calls after `waitIdle`, in source order. */
    method ReleaseAll()
      modifies this`released
      ensures released == old(released) + TeardownOrder(variant, frames.Length, views)
    {
      ReleaseHead();
      ghost var head := released;
      ReleaseSlots();
      ghost var slots := released;
      ReleaseRest();
      assert released == slots + Rest(variant, views);
      assert slots == head + SlotsReleases(frames.Length);
    }

    /** `waitIdle` and, in src/App.cpp, the subclass's `destroy`. */
    method ReleaseHead()
      modifies this`released
      ensures released == old(released) + Head(variant)
    {
      released := released + [WaitIdle];
      if variant == AppCpp {
        released := released + [DestroyHook];
      }
    }

    /** Command pool, image views (src/AppInit.cpp), swapchain, surface,
        device, window, SDL and instance. */
    method ReleaseRest()
      modifies this`released
      ensures released == old(released) + Rest(variant, views)
    {
      released := released + [DestroyCommandPool];
      if variant == AppInitCpp {
        ReleaseViews();
      }
      released := released + [DestroySwapchain, DestroySurface, DestroyDevice];
      released := released + [DestroyWindow, QuitSdl, DestroyInstance];
    }

    /** The per-slot loop: both semaphores, then the fence. */
    method ReleaseSlots()
      modifies this`released
      ensures released == old(released) + SlotsReleases(frames.Length)
    {
      for i := 0 to frames.Length
        invariant released == old(released) + SlotsReleases(i)
      {
        released := released + [DestroySemaphore(ImageAvailable(i))];
        released := released + [DestroySemaphore(RenderFinished(i))];
        released := released + [DestroyFence(i)];
      }
    }

    /** src/AppInit.cpp: one `destroyImageView` per entry of the view list. */
    method ReleaseViews()
      modifies this`released
      ensures released == old(released) + ViewReleases(views)
    {
      for k := 0 to |views|
        invariant released == old(released) + ViewReleases(views[..k])
      {
        assert ViewReleases(views[..k + 1]) == ViewReleases(views[..k]) + [DestroyImageView(views[k])];
        released := released + [DestroyImageView(views[k])];
      }
      assert views[..|views|] == views;
    }

    /**
      `run` once the ring exists: poll the window events, then draw a
      frame, until a quit event has been seen. In src/App.cpp the loop sits
      in a `try`: after a throw `baseDestroy` runs and the exception is
      rethrown, after a quit `baseDestroy` runs, so the teardown happens
      once on both paths. The other two programs tear down in their
      destructors (`Destroy`). The `baseInit` that precedes the `try` in
      src/App.cpp is `AppRun`.
    */
    method Run(schedule: seq<Iteration>) returns (exit: Exit)
      requires Valid() && Quiescent(State().gpu) && !destroyed
      requires Terminates(schedule) && Admissible(schedule, imageCount, variant)
      modifies this, frames
      ensures var k := FirstStop(schedule);
              var e := Ending(old(State()), schedule);
              && exit == (if schedule[k].fault.Some? then Rethrown else Returned)
              && frameIndex == Advance(old(frameIndex), k + 1)
              && views == old(views)
              && (variant == AppCpp ==>
                    && destroyed && released == old(released) + TeardownOrder(variant, frames.Length, views)
                    && State() == Drain(e))
              && (variant != AppCpp ==> Valid() && !destroyed && released == old(released) && State() == e)
    {
      exit := MainLoop(schedule);
      if variant == AppCpp {
        Cleanup();
      }
    }

    /** The `while (running)` loop itself: poll, then draw, until the
        iteration that sees a quit event or throws. */
    method MainLoop(schedule: seq<Iteration>) returns (exit: Exit)
      requires Valid() && Quiescent(State().gpu) && !destroyed
      requires Terminates(schedule) && Admissible(schedule, imageCount, variant)
      modifies this, frames
      ensures var k := FirstStop(schedule);
              && exit == (if schedule[k].fault.Some? then Rethrown else Returned)
              && frameIndex == Advance(old(frameIndex), k + 1)
              && State() == Ending(old(State()), schedule)
              && Valid() && !destroyed && views == old(views) && released == old(released)
    {
      ghost var s0 := State();
      ghost var k := FirstStop(schedule);
      ghost var p: seq<Input> := [];
      var running := true;
      var i := 0;
      exit := Returned;
      while running
        invariant 0 <= i <= k + 1 && (running <==> i <= k)
        invariant running ==> exit == Returned && p == Images(schedule[..i])
        invariant running ==> Quiescent(State().gpu) && ImagesInRange(p, imageCount) && State() == FrameSync.Run(s0, p)
        invariant !running ==> exit == (if schedule[k].fault.Some? then Rethrown else Returned)
        invariant !running ==> State() == Ending(s0, schedule)
        invariant Valid() && !destroyed && views == old(views) && released == old(released)
        invariant frameIndex == Advance(s0.counter, i)
        decreases k + 1 - i
      {
        var it := schedule[i];
        if it.quit {
          running := false;
        }
        AdvanceSnoc(s0.counter, i);
        ImagesSnoc(schedule, i);
        RunSnoc(s0, p, Frame(it.image));
        var threw := Draw(it.image, it.fault);
        if Stops(it) {
          EndingAt(s0, schedule, i);
        }
        if threw {
          exit := Rethrown;
          running := false;
        } else {
          p := p + [Frame(it.image)];
        }
        i := i + 1;
      }
    }

    /** The destructor: src/Main.cpp and src/AppInit.cpp tear down here;
        the destructor of src/App.cpp is empty. */
    method Destroy()
      requires variant != AppCpp ==> Valid() && !destroyed
      modifies this, frames
      ensures variant != AppCpp ==>
                && destroyed && released == old(released) + TeardownOrder(variant, frames.Length, views)
                && State() == Drain(old(State()))
      ensures variant == AppCpp ==> unchanged(this, frames)
      ensures views == old(views)
    {
      if variant != AppCpp {
        Cleanup();
      }
    }
  }

  /**
    `main` of src/Main.cpp. The Application is constructed inside a `try`:
    when set-up throws (device 0 cannot present, the surface lacks
    transfer-destination use, or a call outside this model such as SDL or
    surface creation fails) there is no object, so no destructor runs, and
    the program exits with status 1. Otherwise the destructor runs whether
    `run` returns or throws; a throw makes the program exit with status 1,
    a quit with status 0.
  */
  method MainProgram(support: seq<seq<bool>>, supportedUsageFlags: bv32, platformFails: bool,
                     imageCount: nat, schedule: seq<Iteration>) returns (status: int, app: App?)
    requires |support| > 0 && |support[0]| > 0
    requires Terminates(schedule) && Admissible(schedule, imageCount, MainCpp)
    ensures platformFails || MainSetup(support, supportedUsageFlags).Err? ==> status == 1 && app == null
    ensures !platformFails && MainSetup(support, supportedUsageFlags).Ok? ==>
              && app != null && app.variant == MainCpp && app.destroyed
              && status == (if schedule[FirstStop(schedule)].fault.Some? then 1 else 0)
              && app.released == TeardownOrder(MainCpp, FrameCount(MainCpp), [])
              && app.State() == Drain(Ending(Init(FrameCount(MainCpp), imageCount), schedule))
  {
    if platformFails || MainSetup(support, supportedUsageFlags).Err? {
      return 1, null;
    }
    app := new App(MainCpp, imageCount);
    var exit := app.Run(schedule);
    app.Destroy();
    status := if exit == Rethrown then 1 else 0;
  }

  /**
    `App::run` of src/App.cpp as a whole. `baseInit` comes before the
    `try`, so when set-up throws (a platform call, no device with a
    presenting queue family, no transfer-destination usage) the exception
    leaves `run` at once: no ring exists and `baseDestroy` is not called.
    Otherwise the loop runs and `baseDestroy` tears down exactly once.
  */
  method AppRun(support: seq<seq<bool>>, supportedUsageFlags: bv32, platformFails: bool,
                imageCount: nat, schedule: seq<Iteration>) returns (exit: Exit, app: App?)
    requires FamilyCountsFit(support)
    requires Terminates(schedule) && Admissible(schedule, imageCount, AppCpp)
    ensures platformFails || AppSetup(support, supportedUsageFlags).Err? ==> exit == Rethrown && app == null
    ensures !platformFails && AppSetup(support, supportedUsageFlags).Ok? ==>
              && app != null && app.variant == AppCpp && app.destroyed
              && exit == (if schedule[FirstStop(schedule)].fault.Some? then Rethrown else Returned)
              && app.released == TeardownOrder(AppCpp, FrameCount(AppCpp), [])
              && app.State() == Drain(Ending(Init(FrameCount(AppCpp), imageCount), schedule))
  {
    if platformFails {
      return Rethrown, null;
    }
    var device := FindDeviceAsWritten(support);
    if device.Err? || CheckTransferDst(supportedUsageFlags).Err? {
      return Rethrown, null;
    }
    app := new App(AppCpp, imageCount);
    exit := app.Run(schedule);
  }
}
