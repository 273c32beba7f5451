/**
  The N-slot frame ring shared by `Application::draw` (src/Main.cpp),
  `App::draw` (src/AppInit.cpp) and `App::nextFrame` (src/App.cpp).

  Vulkan objects are abstract state, after the Vulkan specification:
  fences (section 7.3), binary semaphores (section 7.4) and the command
  buffer lifecycle (section 6.1). Slot `i` owns command buffer `i`, fence `i`
  and the semaphores `ImageAvailable(i)` and `RenderFinished(i)`.

  Two definitions are related here: `Draw` updates the state directly, the
  way the source's draw function does, and appends what it did to an event
  log; `Replay` runs an event log through the Vulkan valid-usage rules and
  fails on the first operation the rules forbid. The lemmas show that every
  log the ring produces replays without failure to exactly the ring's state.
*/
module FrameSync {
  import opened Base
  import opened RoundRobin

  /** Fence status. `Armed` is an unsignalled fence that a queue submission
      which has not completed yet will signal. */
  datatype FenceState = Signalled | Unsignalled | Armed

  /** Command buffer lifecycle. Buffers are begun with ONE_TIME_SUBMIT, so
      completion of their submission makes them `Invalid`. */
  datatype CmdState = Initial | Recording | Executable | Pending | Invalid

  /** A frame slot: its fence, the pending-signal flags of its two binary
      semaphores, and the state of its command buffer. */
  datatype Slot = Slot(fence: FenceState, imageAvailable: bool, renderFinished: bool, cmd: CmdState)

  datatype Sem = ImageAvailable(slot: nat) | RenderFinished(slot: nat)

  /** The host and device operations of the frame protocol. */
  datatype Event =
    | WaitFence(fence: nat)
    | ResetFence(fence: nat)
    | Acquire(image: nat, signal: Sem)
    | Begin(buffer: nat)
    | Record(buffer: nat, image: nat)
    | End(buffer: nat)
    | EndFailed(buffer: nat)
    | Submit(buffer: nat, wait: Sem, signal: Sem, fence: nat)
    | Present(image: nat, wait: Sem)
    | Completed(fence: nat, buffer: nat)

  /** Device state: the slots, the swapchain's image count, and the images
      acquired by the application and not yet handed back by a present. */
  datatype Gpu = Gpu(slots: seq<Slot>, imageCount: nat, acquired: set<nat>)

  function SetSlot(g: Gpu, i: nat, s: Slot): Gpu
    requires i < |g.slots|
  {
    g.(slots := g.slots[i := s])
  }

  predicate SemPending(g: Gpu, sem: Sem)
    requires sem.slot < |g.slots|
  {
    match sem
    case ImageAvailable(i) => g.slots[i].imageAvailable
    case RenderFinished(i) => g.slots[i].renderFinished
  }

  function SetSem(g: Gpu, sem: Sem, v: bool): Gpu
    requires sem.slot < |g.slots|
  {
    match sem
    case ImageAvailable(i) => SetSlot(g, i, g.slots[i].(imageAvailable := v))
    case RenderFinished(i) => SetSlot(g, i, g.slots[i].(renderFinished := v))
  }

  /**
    One operation under the Vulkan valid-usage rules; `None` when the rules
    forbid it in state `g`:
    - a host wait returns only on a signalled fence (waiting on a fence no
      submission will signal never returns);
    - a fence may be reset only when no pending submission will signal it;
    - acquire needs an image the application does not hold and a semaphore
      with no pending signal, and gives that semaphore a pending signal;
    - begin needs a buffer that is neither recording nor pending (the pool
      is created with the reset flag, so begin resets an executable or
      invalid buffer implicitly);
    - commands are recorded only into a recording buffer and only against an
      acquired image;
    - an `end` that reports an error leaves the buffer invalid;
    - submit needs an executable buffer, an unsignalled fence, a wait
      semaphore with a pending signal and a signal semaphore without one;
    - present needs an acquired image and a wait semaphore with a pending
      signal, and hands the image back;
    - the device completes only a pending submission, signalling its fence.
  */
  function Apply(g: Gpu, e: Event): Option<Gpu>
  {
    var n := |g.slots|;
    match e
    case WaitFence(f) =>
      if f < n && g.slots[f].fence == Signalled then Some(g) else None
    case ResetFence(f) =>
      if f < n && g.slots[f].fence != Armed
      then Some(SetSlot(g, f, g.slots[f].(fence := Unsignalled)))
      else None
    case Acquire(img, sem) =>
      if img < g.imageCount && img !in g.acquired && sem.slot < n && !SemPending(g, sem)
      then Some(SetSem(g, sem, true).(acquired := g.acquired + {img}))
      else None
    case Begin(b) =>
      if b < n && g.slots[b].cmd != Recording && g.slots[b].cmd != Pending
      then Some(SetSlot(g, b, g.slots[b].(cmd := Recording)))
      else None
    case Record(b, img) =>
      if b < n && g.slots[b].cmd == Recording && img in g.acquired then Some(g) else None
    case End(b) =>
      if b < n && g.slots[b].cmd == Recording
      then Some(SetSlot(g, b, g.slots[b].(cmd := Executable)))
      else None
    case EndFailed(b) =>
      if b < n && g.slots[b].cmd == Recording
      then Some(SetSlot(g, b, g.slots[b].(cmd := Invalid)))
      else None
    case Submit(b, wait, signal, f) =>
      if b < n && f < n && wait.slot < n && signal.slot < n
         && g.slots[b].cmd == Executable && g.slots[f].fence == Unsignalled
         && SemPending(g, wait) && !SemPending(g, signal)
      then
        var g1 := SetSlot(g, b, g.slots[b].(cmd := Pending));
        var g2 := SetSlot(g1, f, g1.slots[f].(fence := Armed));
        Some(SetSem(SetSem(g2, wait, false), signal, true))
      else None
    case Present(img, wait) =>
      if img in g.acquired && wait.slot < n && SemPending(g, wait)
      then Some(SetSem(g, wait, false).(acquired := g.acquired - {img}))
      else None
    case Completed(f, b) =>
      if f < n && b < n && g.slots[f].fence == Armed && g.slots[b].cmd == Pending
      then
        var g1 := SetSlot(g, f, g.slots[f].(fence := Signalled));
        Some(SetSlot(g1, b, g1.slots[b].(cmd := Invalid)))
      else None
  }

  /** Runs a log through `Apply`, failing at the first forbidden operation. */
  function Replay(g: Gpu, log: seq<Event>): Option<Gpu>
    decreases |log|
  {
    if log == [] then Some(g)
    else match Apply(g, log[0])
      case None => None
      case Some(h) => Replay(h, log[1..])
  }

  lemma {:induction false} ReplayAppend(g: Gpu, a: seq<Event>, b: seq<Event>)
    ensures Replay(g, a + b) == match Replay(g, a) { case None => None case Some(h) => Replay(h, b) }
    decreases |a|
  {
    if a != [] {
      assert (a + b)[0] == a[0] && (a + b)[1..] == a[1..] + b;
      match Apply(g, a[0]) {
        case None =>
        case Some(h) => ReplayAppend(h, a[1..], b);
      }
    } else {
      assert a + b == b;
    }
  }

  lemma ReplayCons(g: Gpu, e: Event, rest: seq<Event>, h: Gpu)
    requires Apply(g, e) == Some(h)
    ensures Replay(g, [e] + rest) == Replay(h, rest)
  {
    assert ([e] + rest)[0] == e && ([e] + rest)[1..] == rest;
  }

  /** A slot between two cycles: both semaphores without a pending signal,
      the fence armed exactly while the buffer's submission is pending. */
  predicate Idle(s: Slot)
  {
    && !s.imageAvailable && !s.renderFinished
    && s.fence != Unsignalled
    && (s.fence == Armed <==> s.cmd == Pending)
    && (s.cmd == Initial || s.cmd == Invalid || s.cmd == Pending)
  }

  /** Every fence is armed exactly while its slot's buffer is pending: true
      between two cycles and also after a cycle that threw. */
  predicate Consistent(g: Gpu)
  {
    |g.slots| > 0 && forall i :: 0 <= i < |g.slots| ==> (g.slots[i].fence == Armed <==> g.slots[i].cmd == Pending)
  }

  /** Device state between two cycles. */
  predicate Quiescent(g: Gpu)
  {
    |g.slots| > 0 && g.acquired == {} && forall i :: 0 <= i < |g.slots| ==> Idle(g.slots[i])
  }

  lemma QuiescentIsConsistent(g: Gpu)
    requires Quiescent(g)
    ensures Consistent(g)
  {
  }

  /** `b` is `a` followed by more events. */
  predicate Extends(a: seq<Event>, b: seq<Event>)
  {
    |a| <= |b| && b[..|a|] == a
  }

  /** The frame controller: the `uint32_t` frame counter, the device state
      and the log of operations performed so far. */
  datatype Ring = Ring(counter: u32, gpu: Gpu, log: seq<Event>)

  /** A slot as created by `initRender` / `initVulkan`: fence created
      signalled, semaphores unsignalled, buffer freshly allocated. */
  const FreshSlot: Slot := Slot(Signalled, false, false, Initial)

  /** A slot whose cycle has been submitted and not completed. */
  const InFlight: Slot := Slot(Armed, false, false, Pending)

  function InitGpu(n: nat, imageCount: nat): (g: Gpu)
    requires n > 0
    ensures Quiescent(g) && |g.slots| == n && g.imageCount == imageCount
  {
    Gpu(seq(n, _ => FreshSlot), imageCount, {})
  }

  function Init(n: nat, imageCount: nat): Ring
    requires n > 0
  {
    Ring(0, InitGpu(n, imageCount), [])
  }

  /** The host-visible operations of one cycle on slot `s` with image `img`,
      in source order: wait and reset the slot's fence, acquire signalling
      the slot's imageAvailable, begin, record, end, submit waiting on
      imageAvailable and signalling renderFinished and the slot's fence,
      present waiting on renderFinished. */
  function CycleEvents(s: nat, img: nat): seq<Event>
  {
    [ WaitFence(s), ResetFence(s),
      Acquire(img, ImageAvailable(s)),
      Begin(s), Record(s, img), End(s),
      Submit(s, ImageAvailable(s), RenderFinished(s), s),
      Present(img, RenderFinished(s)) ]
  }

  /** The device step a blocking fence wait stands for: the wait on slot
      `s` returns only after the device completed the slot's submission. */
  function WaitEvents(g: Gpu, s: nat): seq<Event>
    requires s < |g.slots|
  {
    if g.slots[s].fence == Armed then [Completed(s, s)] else []
  }

  /**
    One cycle, as the source's draw function performs it: select slot
    `counter % n` and post-increment the counter, wait on the slot's fence
    (the device completes the slot's earlier submission if it had not),
    reset it, acquire image `img`, begin, record, end, submit, present.
    `img` is the index the presentation engine returns, below the image
    count.
  */
  function Draw(r: Ring, img: nat): (r': Ring)
    requires Quiescent(r.gpu) && img < r.gpu.imageCount
    ensures Quiescent(r'.gpu)
    ensures |r'.gpu.slots| == |r.gpu.slots| && r'.gpu.imageCount == r.gpu.imageCount
    ensures Extends(r.log, r'.log)
  {
    var s := SlotOf(r.counter, |r.gpu.slots|);
    Ring(Inc32(r.counter),
         r.gpu.(slots := r.gpu.slots[s := InFlight]),
         r.log + WaitEvents(r.gpu, s) + CycleEvents(s, img))
  }

  /** The environment step: the device finishes slot `i`'s submission, if
      one is pending; otherwise nothing happens. */
  function Complete(r: Ring, i: nat): (r': Ring)
    requires Quiescent(r.gpu)
    ensures Quiescent(r'.gpu)
    ensures |r'.gpu.slots| == |r.gpu.slots| && r'.gpu.imageCount == r.gpu.imageCount
    ensures Extends(r.log, r'.log)
  {
    if i < |r.gpu.slots| && r.gpu.slots[i].fence == Armed
    then Ring(r.counter,
              r.gpu.(slots := r.gpu.slots[i := Slot(Signalled, false, false, Invalid)]),
              r.log + [Completed(i, i)])
    else r
  }

  /** What happens between two states of the loop: a frame is drawn with the
      image the engine hands out, or the device finishes a slot. */
  datatype Input = Frame(image: nat) | DeviceDone(slot: nat)

  predicate ImagesInRange(inputs: seq<Input>, imageCount: nat)
  {
    forall j :: 0 <= j < |inputs| ==> inputs[j].Frame? ==> inputs[j].image < imageCount
  }

  function Step(r: Ring, x: Input): (r': Ring)
    requires Quiescent(r.gpu) && (x.Frame? ==> x.image < r.gpu.imageCount)
    ensures Quiescent(r'.gpu)
    ensures |r'.gpu.slots| == |r.gpu.slots| && r'.gpu.imageCount == r.gpu.imageCount
    ensures Extends(r.log, r'.log)
  {
    match x
    case Frame(img) => Draw(r, img)
    case DeviceDone(i) => Complete(r, i)
  }

  function Run(r: Ring, inputs: seq<Input>): (r': Ring)
    requires Quiescent(r.gpu) && ImagesInRange(inputs, r.gpu.imageCount)
    ensures Quiescent(r'.gpu)
    ensures |r'.gpu.slots| == |r.gpu.slots| && r'.gpu.imageCount == r.gpu.imageCount
    ensures Extends(r.log, r'.log)
    decreases |inputs|
  {
    if inputs == [] then r else Run(Step(r, inputs[0]), inputs[1..])
  }

  /** Running one more input is one more step. */
  lemma {:induction false} RunSnoc(r: Ring, inputs: seq<Input>, x: Input)
    requires Quiescent(r.gpu) && ImagesInRange(inputs, r.gpu.imageCount)
    requires x.Frame? ==> x.image < r.gpu.imageCount
    ensures ImagesInRange(inputs + [x], r.gpu.imageCount)
    ensures Run(r, inputs + [x]) == Step(Run(r, inputs), x)
    decreases |inputs|
  {
    var all := inputs + [x];
    assert forall j :: 0 <= j < |inputs| ==> inputs[j] == all[j];
    if inputs == [] {
      assert all == [x] && all[1..] == [];
    } else {
      assert all[0] == inputs[0] && all[1..] == inputs[1..] + [x];
      RunSnoc(Step(r, inputs[0]), inputs[1..], x);
    }
  }

  /** Number of frames drawn by a sequence of inputs. */
  function Frames(inputs: seq<Input>): nat
  {
    if inputs == [] then 0 else (if inputs[0].Frame? then 1 else 0) + Frames(inputs[1..])
  }

  /** The command buffers begun in a log, in order. */
  function Begun(log: seq<Event>): seq<nat>
  {
    if log == [] then [] else (if log[0].Begin? then [log[0].buffer] else []) + Begun(log[1..])
  }

  /** The slots whose fence wait, among the draws of a run, had to wait for
      the device to finish the slot's previous submission. */
  function Blocked(r: Ring, inputs: seq<Input>): seq<nat>
    requires Quiescent(r.gpu) && ImagesInRange(inputs, r.gpu.imageCount)
    decreases |inputs|
  {
    if inputs == [] then []
    else
      var s := SlotOf(r.counter, |r.gpu.slots|);
      (if inputs[0].Frame? && WaitEvents(r.gpu, s) != [] then [s] else [])
      + Blocked(Step(r, inputs[0]), inputs[1..])
  }

  /** Where a cycle can throw: the enhanced-mode `begin` and `end` of the
      command buffer and, in src/App.cpp, the `render` callback between
      them. The fence wait and reset, acquire, submit and present go through
      the overloads that return a result code and do not throw. */
  datatype Throw = AtBegin | AtRender | AtEnd

  /** The operations of a cycle that throws at `t`, up to the throw; a
      failing `end` still leaves its mark on the buffer. */
  function AbortEvents(s: nat, img: nat, t: Throw): seq<Event>
  {
    var c := CycleEvents(s, img);
    match t
    case AtBegin => c[..3]
    case AtRender => c[..4]
    case AtEnd => c[..5] + [EndFailed(s)]
  }

  /** The slot a cycle leaves when it throws at `t`, its buffer having been
      in state `before` after the fence wait. */
  function Aborted(before: CmdState, t: Throw): Slot
  {
    Slot(Unsignalled, true, false, match t case AtBegin => before case AtRender => Recording case AtEnd => Invalid)
  }

  /**
    A cycle that throws at `t`: the counter has been incremented, the slot's
    fence waited on and reset, and image `img` acquired with the slot's
    imageAvailable semaphore; nothing is submitted or presented.
  */
  function Abort(r: Ring, img: nat, t: Throw): (r': Ring)
    requires Quiescent(r.gpu) && img < r.gpu.imageCount
    ensures Consistent(r'.gpu) && r'.counter == Inc32(r.counter)
    ensures |r'.gpu.slots| == |r.gpu.slots| && r'.gpu.imageCount == r.gpu.imageCount
    ensures r'.gpu.acquired == {img} && Extends(r.log, r'.log)
    ensures var s := SlotOf(r.counter, |r.gpu.slots|);
            && r'.gpu.slots[s].fence == Unsignalled && r'.gpu.slots[s].imageAvailable
            && r'.gpu.slots[s].cmd != Pending
            && forall i :: 0 <= i < |r.gpu.slots| && i != s ==> r'.gpu.slots[i] == r.gpu.slots[i]
  {
    var s := SlotOf(r.counter, |r.gpu.slots|);
    var c := if r.gpu.slots[s].fence == Armed then Invalid else r.gpu.slots[s].cmd;
    Ring(Inc32(r.counter),
         Gpu(r.gpu.slots[s := Aborted(c, t)], r.gpu.imageCount, {img}),
         r.log + WaitEvents(r.gpu, s) + AbortEvents(s, img, t))
  }

  /** A slot after `waitIdle`: its pending submission, if any, completes. */
  function Settle(s: Slot): Slot
  {
    if s.fence == Armed then s.(fence := Signalled, cmd := Invalid) else s
  }

  /** `waitIdle`: the device completes every pending submission. */
  function SettleAll(g: Gpu): (h: Gpu)
    requires Consistent(g)
    ensures |h.slots| == |g.slots| && h.imageCount == g.imageCount && h.acquired == g.acquired
    ensures forall i :: 0 <= i < |h.slots| ==> h.slots[i].fence != Armed && h.slots[i].cmd != Pending
    ensures forall i :: 0 <= i < |h.slots| && g.slots[i].fence != Armed ==> h.slots[i] == g.slots[i]
  {
    g.(slots := seq(|g.slots|, i requires 0 <= i < |g.slots| => Settle(g.slots[i])))
  }

  /** The completions `waitIdle` waits for among the first `k` slots, in
      slot order. */
  function Completions(slots: seq<Slot>, k: nat): seq<Event>
    requires k <= |slots|
  {
    if k == 0 then []
    else Completions(slots, k - 1) + (if slots[k - 1].fence == Armed then [Completed(k - 1, k - 1)] else [])
  }

  /** The ring after `waitIdle`: the device has completed every pending
      submission, in slot order, and the log records those completions. */
  function Drain(r: Ring): (r': Ring)
    requires Consistent(r.gpu)
    ensures r'.counter == r.counter && Extends(r.log, r'.log)
  {
    Ring(r.counter, SettleAll(r.gpu), r.log + Completions(r.gpu.slots, |r.gpu.slots|))
  }
}
