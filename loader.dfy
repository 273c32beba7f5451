/**
  The swapchain-rebuild state machine of src/loader.rs: the
  `rebuild_swapchain` flag, the `end_of_frame` future and the retry of
  `next_frame` when acquiring reports that the swapchain is out of date.

  A swapchain is named by its generation: `Vk::new` creates generation 0
  and every recreation the next one. The images of generation `g` are
  `Image(g, 0) .. Image(g, n - 1)`; recreation keeps the image count.
*/
module SwapchainRebuild {
  import opened Base

  datatype Image = Image(swapchain: nat, index: nat)

  /** What a `GpuFuture` stands for here: `sync::now`, or the flushed chain
      that presents image `idx` of swapchain `swapchain`. */
  datatype Future = Now | Presented(swapchain: nat, idx: nat)

  /** The fields of `Vk` the state machine works on. */
  datatype VkState = VkState(swapchain: nat, images: seq<Image>, rebuild: bool, endOfFrame: Option<Future>)

  /** A `Frame`: the acquired index, its image, and the swapchain its
      acquire future belongs to. */
  datatype Frame = Frame(idx: nat, image: Image, acquiredFrom: nat)

  /** Outcome of `acquire_next_image`. */
  datatype AcquireResult = Acquired(idx: nat) | OutOfDate | AcquireFailed

  /** Outcome of `then_signal_fence_and_flush`. */
  datatype FlushResult = Flushed | FlushOutOfDate | FlushFailed

  const OUT_OF_BOUNDS := "index out of bounds"
  const ACQUIRE_PANIC := "acquire_next_image failed"
  const EXECUTE_PANIC := "failed to execute command buffer"

  function SwapchainImages(swapchain: nat, n: nat): (images: seq<Image>)
    ensures |images| == n
    ensures forall i :: 0 <= i < n ==> images[i] == Image(swapchain, i)
  {
    seq(n, i requires 0 <= i < n => Image(swapchain, i))
  }

  /** The images of the state belong to its swapchain, index by index. */
  predicate Coherent(v: VkState)
  {
    v.images == SwapchainImages(v.swapchain, |v.images|)
  }

  /** `Vk::new`: no rebuild pending, `end_of_frame` is `sync::now`. */
  function New(imageCount: nat): (v: VkState)
    ensures Coherent(v) && |v.images| == imageCount
    ensures !v.rebuild && v.endOfFrame == Some(Now)
  {
    VkState(0, SwapchainImages(0, imageCount), false, Some(Now))
  }

  /** `mark_for_resize`. */
  function MarkForResize(v: VkState): (r: VkState)
    ensures r.rebuild
    ensures r.(rebuild := v.rebuild) == v
  {
    v.(rebuild := true)
  }

  /** `recreate_with_dimensions`: the next swapchain generation, with as
      many images as before. */
  function Recreate(v: VkState): (r: VkState)
    ensures Coherent(r) && |r.images| == |v.images|
    ensures r.swapchain == v.swapchain + 1 && !r.rebuild && r.endOfFrame == v.endOfFrame
  {
    VkState(v.swapchain + 1, SwapchainImages(v.swapchain + 1, |v.images|), false, v.endOfFrame)
  }

  /** Some acquire does not report OutOfDate, so the retries end. */
  predicate Ends(acquires: seq<AcquireResult>)
    decreases |acquires|
  {
    |acquires| > 0 && (!acquires[0].OutOfDate? || Ends(acquires[1..]))
  }

  /** The number of OutOfDate results before the first other result. */
  function Retries(acquires: seq<AcquireResult>): (k: nat)
    requires Ends(acquires)
    ensures k < |acquires| && !acquires[k].OutOfDate?
    ensures forall j :: 0 <= j < k ==> acquires[j].OutOfDate?
  {
    if !acquires[0].OutOfDate? then 0
    else 1 + Retries(acquires[1..])
  }

  /**
    `next_frame` with the acquire outcomes `acquires` handed out in turn.
    The result pairs the new state with the frame, or with the panic an
    acquire error or an index outside the image list causes.
  */
  function NextFrame(v: VkState, acquires: seq<AcquireResult>): (r: (VkState, Result<Frame>))
    requires Ends(acquires)
    requires v.endOfFrame.Some? && Coherent(v)
    ensures Coherent(r.0) && |r.0.images| == |v.images| && r.0.endOfFrame == v.endOfFrame
    ensures r.0.swapchain == v.swapchain + (if v.rebuild then 1 else 0) + Retries(acquires)
    ensures !r.0.rebuild
    ensures r.1.Ok? <==> acquires[Retries(acquires)].Acquired? && acquires[Retries(acquires)].idx < |v.images|
    ensures r.1.Ok? ==> && r.1.value.idx == acquires[Retries(acquires)].idx
                        && r.1.value.image == r.0.images[r.1.value.idx]
                        && r.1.value.acquiredFrom == r.0.swapchain
    decreases |acquires|
  {
    var v1 := if v.rebuild then Recreate(v) else v;
    match acquires[0]
    case Acquired(idx) =>
      if idx < |v1.images| then (v1, Ok(Frame(idx, v1.images[idx], v1.swapchain)))
      else (v1, Err(OUT_OF_BOUNDS))
    case OutOfDate => NextFrame(v1.(rebuild := true), acquires[1..])
    case AcquireFailed => (v1, Err(ACQUIRE_PANIC))
  }

  /**
    `submit`: the flushed chain replaces `end_of_frame`. A panic of
    `then_execute` leaves `end_of_frame` taken; a flush error replaces it
    with `sync::now`, and an OutOfDate flush also asks for a rebuild.
  */
  function Submit(v: VkState, frame: Frame, executes: bool, flush: FlushResult): (r: (VkState, Result<()>))
    requires v.endOfFrame.Some?
    ensures r.0.swapchain == v.swapchain && r.0.images == v.images
    ensures r.1.Ok? <==> executes
    ensures r.1.Ok? <==> r.0.endOfFrame.Some?
    ensures r.0.rebuild <==> v.rebuild || (executes && flush == FlushOutOfDate)
    ensures executes && flush.Flushed? ==> r.0.endOfFrame == Some(Presented(v.swapchain, frame.idx))
    ensures executes && !flush.Flushed? ==> r.0.endOfFrame == Some(Now)
  {
    if !executes then (v.(endOfFrame := None), Err(EXECUTE_PANIC))
    else match flush
      case Flushed => (v.(endOfFrame := Some(Presented(v.swapchain, frame.idx))), Ok(()))
      case FlushOutOfDate => (v.(rebuild := true, endOfFrame := Some(Now)), Ok(()))
      case FlushFailed => (v.(endOfFrame := Some(Now)), Ok(()))
  }

  /**
    A pending rebuild, whether it came from `mark_for_resize`, an
    OutOfDate flush or an OutOfDate acquire, is carried out before the
    next image is acquired: the frame comes from a fresh swapchain.
  */
  lemma RebuildPrecedesAcquire(v: VkState, acquires: seq<AcquireResult>)
    requires Ends(acquires) && v.endOfFrame.Some? && Coherent(v)
    requires v.rebuild || acquires[0].OutOfDate?
    ensures var r := NextFrame(v, acquires);
            r.1.Ok? ==> r.1.value.acquiredFrom > v.swapchain
  {
  }

  /** The flag set after an OutOfDate flush makes the next `next_frame`
      recreate the swapchain once before its first acquire, on top of one
      recreation per OutOfDate acquire. */
  lemma FlushOutOfDateRecreates(v: VkState, frame: Frame, acquires: seq<AcquireResult>)
    requires v.endOfFrame.Some? && Coherent(v) && Ends(acquires)
    ensures var s := Submit(v, frame, true, FlushOutOfDate).0;
            var r := NextFrame(s, acquires);
            && r.0.swapchain == v.swapchain + 1 + Retries(acquires) && !r.0.rebuild
            && (r.1.Ok? ==> && r.1.value.acquiredFrom == v.swapchain + 1 + Retries(acquires)
                            && r.1.value.image == Image(r.1.value.acquiredFrom, r.1.value.idx))
  {
    var s := Submit(v, frame, true, FlushOutOfDate).0;
    assert s.rebuild && Coherent(s);
  }

  /**
    A frame is presented on the swapchain it was acquired from, however
    many `mark_for_resize` calls happen in between: only `next_frame`
    recreates the swapchain.
  */
  lemma PresentedOnOwnSwapchain(v: VkState, acquires: seq<AcquireResult>, resizes: nat, flush: FlushResult)
    requires Ends(acquires) && v.endOfFrame.Some? && Coherent(v)
    requires NextFrame(v, acquires).1.Ok?
    ensures var (s, f) := NextFrame(v, acquires);
            var s' := MarkTimes(s, resizes);
            && s'.endOfFrame.Some?
            && (flush.Flushed? ==>
                  Submit(s', f.value, true, flush).0.endOfFrame == Some(Presented(f.value.acquiredFrom, f.value.idx)))
  {
    var (s, f) := NextFrame(v, acquires);
    MarkTimesKeeps(s, resizes);
  }

  function MarkTimes(v: VkState, k: nat): VkState
  {
    if k == 0 then v else MarkForResize(MarkTimes(v, k - 1))
  }

  lemma {:induction false} MarkTimesKeeps(v: VkState, k: nat)
    ensures MarkTimes(v, k).swapchain == v.swapchain && MarkTimes(v, k).images == v.images
    ensures MarkTimes(v, k).endOfFrame == v.endOfFrame
    ensures k > 0 ==> MarkTimes(v, k).rebuild
  {
    if k > 0 {
      MarkTimesKeeps(v, k - 1);
    }
  }

  /**
    With the index bound that `acquire_next_image` guarantees, `next_frame`
    returns a frame unless an acquire reports an error other than
    OutOfDate.
  */
  lemma NextFrameSucceeds(v: VkState, acquires: seq<AcquireResult>)
    requires Ends(acquires) && v.endOfFrame.Some? && Coherent(v)
    requires forall j :: 0 <= j < |acquires| && acquires[j].Acquired? ==> acquires[j].idx < |v.images|
    requires !acquires[Retries(acquires)].AcquireFailed?
    ensures NextFrame(v, acquires).1.Ok?
  {
  }
}

/** The `Vk` struct of src/loader.rs, with its methods updating the fields
    in place as `SwapchainRebuild` prescribes. */
module Loader {
  import opened Base
  import opened SwapchainRebuild

  class Vk {
    const imageCount: nat
    var swapchain: nat
    var swapchainImages: seq<Image>
    var rebuildSwapchain: bool
    var endOfFrame: Option<Future>

    ghost function State(): VkState
      reads this
    {
      VkState(swapchain, swapchainImages, rebuildSwapchain, endOfFrame)
    }

    ghost predicate Valid()
      reads this
    {
      Coherent(State()) && |swapchainImages| == imageCount
    }

    /** `new`, with the swapchain creation reduced to its image list. */
    constructor (imageCount: nat)
      ensures Valid() && State() == New(imageCount) && this.imageCount == imageCount
    {
      this.imageCount := imageCount;
      swapchain := 0;
      swapchainImages := SwapchainImages(0, imageCount);
      rebuildSwapchain := false;
      endOfFrame := Some(Now);
    }

    method MarkForResize()
      requires Valid()
      modifies this
      ensures Valid() && State() == SwapchainRebuild.MarkForResize(old(State()))
    {
      rebuildSwapchain := true;
    }

    /** `next_frame`: recurses on OutOfDate. */
    method NextFrame(acquires: seq<AcquireResult>) returns (frame: Result<Frame>)
      requires Valid() && endOfFrame.Some? && Ends(acquires)
      modifies this
      ensures Valid()
      ensures (State(), frame) == SwapchainRebuild.NextFrame(old(State()), acquires)
      decreases |acquires|
    {
      // take the future, let it clean up finished work, and put it back
      var future := endOfFrame.value;
      endOfFrame := Some(future);
      if rebuildSwapchain {
        rebuildSwapchain := false;
        swapchain := swapchain + 1;
        swapchainImages := SwapchainImages(swapchain, |swapchainImages|);
      }
      match acquires[0]
      case Acquired(idx) =>
        if idx < |swapchainImages| {
          frame := Ok(Frame(idx, swapchainImages[idx], swapchain));
        } else {
          frame := Err(OUT_OF_BOUNDS);
        }
      case OutOfDate =>
        rebuildSwapchain := true;
        frame := NextFrame(acquires[1..]);
      case AcquireFailed =>
        frame := Err(ACQUIRE_PANIC);
    }

    method Submit(frame: Frame, executes: bool, flush: FlushResult) returns (r: Result<()>)
      requires Valid() && endOfFrame.Some?
      modifies this
      ensures Valid()
      ensures (State(), r) == SwapchainRebuild.Submit(old(State()), frame, executes, flush)
    {
      var previous := endOfFrame.value;
      endOfFrame := None;
      if !executes {
        return Err(EXECUTE_PANIC);
      }
      match flush {
        case Flushed =>
          endOfFrame := Some(Presented(swapchain, frame.idx));
        case FlushOutOfDate =>
          rebuildSwapchain := true;
          endOfFrame := Some(Now);
        case FlushFailed =>
          endOfFrame := Some(Now);
      }
      r := Ok(());
    }
  }
}
