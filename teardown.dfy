/**
  Ordered teardown: the destructor of src/Main.cpp, `App::cleanup` of
  src/AppInit.cpp and `App::baseDestroy` of src/App.cpp, as the sequence of
  release calls they make.
*/
module Teardown {
  import opened RoundRobin
  import opened FrameSync

  datatype Release =
    | WaitIdle
    | DestroyHook                // the subclass's destroy()
    | DestroySemaphore(sem: Sem)
    | DestroyFence(fence: nat)
    | DestroyCommandPool         // also frees every slot's command buffer
    | DestroyImageView(view: nat)
    | DestroySwapchain
    | DestroySurface
    | DestroyDevice
    | DestroyWindow
    | QuitSdl
    | DestroyInstance

  predicate IsSlotRelease(r: Release)
  {
    r.DestroySemaphore? || r.DestroyFence?
  }

  /** The slot a semaphore or fence release belongs to. */
  function Owner(r: Release): nat
    requires IsSlotRelease(r)
  {
    if r.DestroyFence? then r.fence else r.sem.slot
  }

  /** Releases of slot `i`, in the order of the per-slot loop. */
  function SlotReleases(i: nat): seq<Release>
  {
    [DestroySemaphore(ImageAvailable(i)), DestroySemaphore(RenderFinished(i)), DestroyFence(i)]
  }

  /** Releases of slots `0 .. n-1`. */
  function SlotsReleases(n: nat): seq<Release>
  {
    if n == 0 then [] else SlotsReleases(n - 1) + SlotReleases(n - 1)
  }

  /** One `destroyImageView` per view, in list order. */
  function ViewReleases(views: seq<nat>): seq<Release>
  {
    seq(|views|, k requires 0 <= k < |views| => DestroyImageView(views[k]))
  }

  /** What follows the command pool: swapchain, surface, device, the SDL
      window and library, and the instance last. */
  const DeviceTail: seq<Release> :=
    [DestroySwapchain, DestroySurface, DestroyDevice, DestroyWindow, QuitSdl, DestroyInstance]

  /** The calls before the slot loop: the idle wait and, in src/App.cpp, the hook. */
  function Head(v: Variant): seq<Release>
  {
    [WaitIdle] + (if v == AppCpp then [DestroyHook] else [])
  }

  /** The calls after the slot loop. */
  function Rest(v: Variant, views: seq<nat>): seq<Release>
  {
    [DestroyCommandPool] + (if v == AppInitCpp then ViewReleases(views) else []) + DeviceTail
  }

  /** The release calls of a program's teardown with `n` slots and image
      views `views`. */
  function TeardownOrder(v: Variant, n: nat, views: seq<nat>): seq<Release>
  {
    Head(v) + SlotsReleases(n) + Rest(v, views)
  }

  lemma {:induction false} SlotsReleasesOnly(n: nat)
    ensures forall x :: x in SlotsReleases(n) ==> IsSlotRelease(x) && Owner(x) < n
  {
    if n > 0 {
      SlotsReleasesOnly(n - 1);
    }
  }

  lemma {:induction false} SlotsReleasesLength(n: nat)
    ensures |SlotsReleases(n)| == 3 * n
  {
    if n > 0 {
      SlotsReleasesLength(n - 1);
    }
  }

  lemma {:induction false} SlotsReleasesCount(n: nat, r: Release)
    requires IsSlotRelease(r)
    ensures multiset(SlotsReleases(n))[r] == if Owner(r) < n then 1 else 0
  {
    if n > 0 {
      SlotsReleasesCount(n - 1, r);
      SlotReleasesCount(n - 1, r);
      CountConcat(SlotsReleases(n - 1), SlotReleases(n - 1), r);
    }
  }

  lemma CountConcat<T>(a: seq<T>, b: seq<T>, x: T)
    ensures multiset(a + b)[x] == multiset(a)[x] + multiset(b)[x]
  {
    assert multiset(a + b) == multiset(a) + multiset(b);
  }

  lemma SlotReleasesCount(i: nat, r: Release)
    requires IsSlotRelease(r)
    ensures multiset(SlotReleases(i))[r] == if Owner(r) == i then 1 else 0
  {
    var a, b, c := DestroySemaphore(ImageAvailable(i)), DestroySemaphore(RenderFinished(i)), DestroyFence(i);
    assert multiset(SlotReleases(i)) == multiset{a, b, c};
    if Owner(r) == i {
      if r.DestroyFence? {
        assert r == c;
      } else if r.sem.ImageAvailable? {
        assert r == a;
      } else {
        assert r == b;
      }
    } else {
      assert r != a && r != b && r != c;
    }
  }

  lemma RestHasNoSlotRelease(v: Variant, views: seq<nat>)
    ensures forall x :: x in Rest(v, views) ==> !IsSlotRelease(x)
    ensures |Rest(v, views)| == 1 + (if v == AppInitCpp then |views| else 0) + 6
    ensures WaitIdle !in Rest(v, views) && DestroyHook !in Rest(v, views)
  {
    var vs := if v == AppInitCpp then ViewReleases(views) else [];
    assert forall x :: x in vs ==> x.DestroyImageView?;
  }

  /**
    Every slot's two semaphores and its fence are destroyed exactly once,
    and no semaphore or fence of a slot that does not exist is destroyed.
  */
  lemma SlotObjectsReleasedOnce(v: Variant, n: nat, views: seq<nat>, r: Release)
    requires IsSlotRelease(r)
    ensures multiset(TeardownOrder(v, n, views))[r] == if Owner(r) < n then 1 else 0
  {
    var h, m, t := Head(v), SlotsReleases(n), Rest(v, views);
    SlotsReleasesCount(n, r);
    HeadCount(v, r);
    RestCount(v, views, r);
    CountConcat(h, m, r);
    CountConcat(h + m, t, r);
  }

  lemma HeadCount(v: Variant, r: Release)
    requires IsSlotRelease(r)
    ensures multiset(Head(v))[r] == 0
  {
    assert r !in Head(v);
    NotInCount(Head(v), r);
  }

  lemma NotInCount<T>(s: seq<T>, x: T)
    requires x !in s
    ensures multiset(s)[x] == 0
  {
  }

  lemma RestCount(v: Variant, views: seq<nat>, r: Release)
    requires IsSlotRelease(r)
    ensures multiset(Rest(v, views))[r] == 0
  {
    var vs := if v == AppInitCpp then ViewReleases(views) else [];
    ViewReleasesCount(views, r);
    assert multiset(vs)[r] == 0;
    assert r !in DeviceTail && r !in [DestroyCommandPool];
    NotInCount(DeviceTail, r);
    NotInCount([DestroyCommandPool], r);
    CountConcat([DestroyCommandPool], vs, r);
    CountConcat([DestroyCommandPool] + vs, DeviceTail, r);
  }

  lemma ViewReleasesCount(views: seq<nat>, r: Release)
    requires IsSlotRelease(r)
    ensures multiset(ViewReleases(views))[r] == 0
  {
    var vr := ViewReleases(views);
    assert forall k :: 0 <= k < |vr| ==> vr[k].DestroyImageView?;
    assert r !in vr;
    NotInCount(vr, r);
  }

  /**
    The order of the teardown: `waitIdle` is the first call and is never
    made again; the subclass hook (src/App.cpp) comes right after it and
    before any slot object; the last six calls destroy swapchain, surface,
    device, window, SDL and instance in that order, so every semaphore,
    fence and the command pool are released before the device.
  */
  lemma TeardownOrdered(v: Variant, n: nat, views: seq<nat>)
    ensures var t := TeardownOrder(v, n, views);
            && |t| > 6
            && t[0] == WaitIdle && WaitIdle !in t[1..]
            && (v == AppCpp <==> t[1] == DestroyHook)
            && t[|t| - 6..] == DeviceTail
            && (forall j :: 0 <= j < |t| - 6 && IsSlotRelease(t[j]) ==> Owner(t[j]) < n)
            && DestroyCommandPool in t[..|t| - 6]
  {
    TeardownStartsIdle(v, n, views);
    TeardownEndsWithDevice(v, n, views);
  }

  lemma TeardownStartsIdle(v: Variant, n: nat, views: seq<nat>)
    ensures var t := TeardownOrder(v, n, views);
            && |t| > 6
            && t[0] == WaitIdle && WaitIdle !in t[1..]
            && (v == AppCpp <==> t[1] == DestroyHook)
  {
    RestHasNoSlotRelease(v, views);
    SlotsReleasesOnly(n);
    var t := TeardownOrder(v, n, views);
    assert t[1..] == Head(v)[1..] + SlotsReleases(n) + Rest(v, views);
    assert WaitIdle !in SlotsReleases(n);
    if v != AppCpp {
      if n > 0 {
        assert t[1] == SlotsReleases(n)[0];
        assert IsSlotRelease(t[1]);
      } else {
        assert t[1] == DestroyCommandPool;
      }
    }
  }

  lemma TeardownEndsWithDevice(v: Variant, n: nat, views: seq<nat>)
    ensures var t := TeardownOrder(v, n, views);
            && |t| > 6
            && t[|t| - 6..] == DeviceTail
            && (forall j :: 0 <= j < |t| - 6 && IsSlotRelease(t[j]) ==> Owner(t[j]) < n)
            && DestroyCommandPool in t[..|t| - 6]
  {
    SlotsReleasesOnly(n);
    var t := TeardownOrder(v, n, views);
    var vs := if v == AppInitCpp then ViewReleases(views) else [];
    var body := Head(v) + SlotsReleases(n) + [DestroyCommandPool] + vs;
    assert t == body + DeviceTail;
    assert t[..|t| - 6] == body;
    assert forall x :: x in vs ==> x.DestroyImageView?;
    forall j | 0 <= j < |t| - 6 && IsSlotRelease(t[j])
      ensures Owner(t[j]) < n
    {
      assert t[j] in body;
    }
  }

  /**
    src/AppInit.cpp: the image views are destroyed in list order, right
    after the command pool and immediately before the swapchain.
  */
  lemma ViewsReleasedBeforeSwapchain(n: nat, views: seq<nat>)
    ensures var t := TeardownOrder(AppInitCpp, n, views);
            var start := 1 + 3 * n + 1;
            && |t| == start + |views| + 6
            && t[start - 1] == DestroyCommandPool
            && t[start + |views|] == DestroySwapchain
            && forall k :: 0 <= k < |views| ==> t[start + k] == DestroyImageView(views[k])
  {
    SlotsReleasesLength(n);
    var t := TeardownOrder(AppInitCpp, n, views);
    var start := 1 + 3 * n + 1;
    var pre := [WaitIdle] + SlotsReleases(n) + [DestroyCommandPool];
    var vr := ViewReleases(views);
    assert Rest(AppInitCpp, views) == [DestroyCommandPool] + vr + DeviceTail;
    assert t == pre + (vr + DeviceTail);
    assert |pre| == start;
    assert t[start - 1] == pre[start - 1];
    forall k | 0 <= k < |views|
      ensures t[start + k] == DestroyImageView(views[k])
    {
      assert t[start + k] == vr[k];
    }
    assert t[start + |views|] == DeviceTail[0];
  }
}
