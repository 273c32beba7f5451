/**
  Device and swapchain set-up rules of `initDevice` / `initSwapchain`
  (src/Main.cpp) and `init` / `baseInit` (src/AppInit.cpp, src/App.cpp):
  the choice of physical device and queue family, the swapchain image
  count, and the transfer-destination usage check.

  `support[d][f]` is the answer of `getSurfaceSupportKHR(f, surface)` on the
  `d`-th enumerated physical device; the length of `support[d]` is that
  device's number of queue families.
*/
module DeviceInit {
  import opened Base

  /** A chosen physical device and queue family. */
  datatype Choice = Choice(device: nat, family: u32)

  const NO_DEVICE := "cannot find physical device matching criteria"
  const NO_SURFACE_SUPPORT := "Surface is not supported"
  const NO_TRANSFER_DST := "surface does not support usage as a transfer destination"

  /** Queue family counts are `uint32_t`. */
  predicate FamilyCountsFit(support: seq<seq<bool>>)
  {
    forall d :: 0 <= d < |support| ==> |support[d]| < U32_MODULUS
  }

  /** The first queue family that can present to the surface. */
  function FirstSupported(families: seq<bool>): (r: Option<nat>)
    ensures r.Some? <==> exists f :: 0 <= f < |families| && families[f]
    ensures r.Some? ==> r.value < |families| && families[r.value]
    ensures r.Some? ==> forall f :: 0 <= f < r.value ==> !families[f]
  {
    if families == [] then None
    else if families[0] then Some(0)
    else match FirstSupported(families[1..])
         case None => None
         case Some(f) => Some(f + 1)
  }

  predicate Qualifies(families: seq<bool>)
  {
    FirstSupported(families).Some?
  }

  /** The device the search of src/AppInit.cpp and src/App.cpp settles on
      as written: the LAST device with a presenting queue family. */
  function LastChoice(support: seq<seq<bool>>): (r: Option<Choice>)
    requires FamilyCountsFit(support)
    ensures r.Some? <==> exists d :: 0 <= d < |support| && Qualifies(support[d])
    ensures r.Some? ==> && r.value.device < |support|
                        && FirstSupported(support[r.value.device]) == Some(r.value.family as nat)
                        && forall d :: r.value.device < d < |support| ==> !Qualifies(support[d])
  {
    if support == [] then None
    else
      var last := support[|support| - 1];
      match FirstSupported(last)
      case Some(f) => Some(Choice(|support| - 1, f))
      case None =>
        var r := LastChoice(support[..|support| - 1]);
        assert forall d :: 0 <= d < |support| - 1 ==> support[..|support| - 1][d] == support[d];
        r
  }

  /** The evidently intended choice: the FIRST device with a presenting
      queue family, and its first such family. */
  function FirstChoice(support: seq<seq<bool>>): (r: Option<Choice>)
    requires FamilyCountsFit(support)
    ensures r.Some? <==> exists d :: 0 <= d < |support| && Qualifies(support[d])
    ensures r.Some? ==> && r.value.device < |support|
                        && FirstSupported(support[r.value.device]) == Some(r.value.family as nat)
                        && forall d :: 0 <= d < r.value.device ==> !Qualifies(support[d])
  {
    if support == [] then None
    else match FirstSupported(support[0])
      case Some(f) => Some(Choice(0, f))
      case None =>
        assert forall d :: 1 <= d < |support| ==> support[1..][d - 1] == support[d];
        match FirstChoice(support[1..])
        case None => None
        case Some(c) => Some(Choice(c.device + 1, c.family))
  }

  function AsResult(c: Option<Choice>): Result<Choice>
  {
    match c
    case Some(x) => Ok(x)
    case None => Err(NO_DEVICE)
  }

  /** The inner loop: walk the families of one device and stop at the
      first one that supports the surface. */
  method SearchFamilies(families: seq<bool>) returns (found: Option<nat>)
    ensures found == FirstSupported(families)
  {
    var i := 0;
    found := None;
    while i < |families|
      invariant 0 <= i <= |families|
      invariant forall f :: 0 <= f < i ==> !families[f]
    {
      if families[i] {
        found := Some(i);
        assert FirstSupported(families) == Some(i) by { FirstSupportedIs(families, i); }
        return;
      }
      i := i + 1;
    }
    assert FirstSupported(families) == None;
  }

  lemma {:induction false} FirstSupportedIs(families: seq<bool>, i: nat)
    requires i < |families| && families[i] && forall f :: 0 <= f < i ==> !families[f]
    ensures FirstSupported(families) == Some(i)
    decreases i
  {
    if i > 0 {
      assert families[1..][i - 1] == families[i];
      FirstSupportedIs(families[1..], i - 1);
    }
  }

  /**
    The device search of src/AppInit.cpp and src/App.cpp as written. The
    index starts as -1 stored in a `uint32_t`, i.e. 2^32 - 1, and the early
    exit tests `_queueFamilyIndex > -1`, which converts -1 to 2^32 - 1 as
    well, so it never fires: every device is visited and each qualifying
    one overwrites the choice.
  */
  method FindDeviceAsWritten(support: seq<seq<bool>>) returns (r: Result<Choice>)
    requires FamilyCountsFit(support)
    ensures r == AsResult(LastChoice(support))
  {
    var queueFamilyIndex: u32 := ToU32(-1);
    var pdevice: Option<nat> := None;
    var d := 0;
    while d < |support|
      invariant 0 <= d <= |support|
      invariant FamilyCountsFit(support[..d])
      invariant pdevice.Some? == LastChoice(support[..d]).Some?
      invariant pdevice.Some? ==> LastChoice(support[..d]) == Some(Choice(pdevice.value, queueFamilyIndex))
    {
      var found := SearchFamilies(support[d]);
      assert support[..d + 1][..d] == support[..d];
      if found.Some? {
        pdevice := Some(d);
        queueFamilyIndex := found.value;
      }
      if queueFamilyIndex > ToU32(-1) {
        break;
      }
      d := d + 1;
    }
    assert support[..|support|] == support;
    if pdevice.None? {
      return Err(NO_DEVICE);
    }
    r := Ok(Choice(pdevice.value, queueFamilyIndex));
  }

  /** The search with the early exit that was meant: stop at the first
      device for which a presenting queue family was found. */
  method FindDevice(support: seq<seq<bool>>) returns (r: Result<Choice>)
    requires FamilyCountsFit(support)
    ensures r == AsResult(FirstChoice(support))
  {
    var d := 0;
    while d < |support|
      invariant 0 <= d <= |support|
      invariant forall e :: 0 <= e < d ==> !Qualifies(support[e])
    {
      var found := SearchFamilies(support[d]);
      if found.Some? {
        r := Ok(Choice(d, found.value));
        FirstChoiceIs(support, d);
        return;
      }
      d := d + 1;
    }
    FirstChoiceNone(support);
    r := Err(NO_DEVICE);
  }

  lemma FirstChoiceIs(support: seq<seq<bool>>, d: nat)
    requires FamilyCountsFit(support)
    requires d < |support| && Qualifies(support[d])
    requires forall e :: 0 <= e < d ==> !Qualifies(support[e])
    ensures FirstChoice(support) == Some(Choice(d, FirstSupported(support[d]).value))
  {
    var c := FirstChoice(support).value;
    if c.device != d {
      assert false;
    }
  }

  lemma FirstChoiceNone(support: seq<seq<bool>>)
    requires FamilyCountsFit(support)
    requires forall e :: 0 <= e < |support| ==> !Qualifies(support[e])
    ensures FirstChoice(support) == None
  {
  }

  /** Two devices that both present: the search as written picks the
      second, the intended search the first. */
  lemma AsWrittenPrefersLastDevice()
    ensures LastChoice([[true], [true]]) == Some(Choice(1, 0))
    ensures FirstChoice([[true], [true]]) == Some(Choice(0, 0))
  {
    var s := [[true], [true]];
    assert FirstSupported(s[1]) == Some(0);
    assert s[1..] == [[true]];
  }

  /** The two searches agree when exactly one device qualifies (when none
      does, both find nothing); `SearchesDifferOnTwoCandidates` is the
      converse. */
  lemma SearchesAgreeOnSingleCandidate(support: seq<seq<bool>>, d: nat)
    requires FamilyCountsFit(support)
    requires d < |support| && Qualifies(support[d])
    requires forall e :: 0 <= e < |support| && e != d ==> !Qualifies(support[e])
    ensures LastChoice(support) == FirstChoice(support) == Some(Choice(d, FirstSupported(support[d]).value))
  {
    FirstChoiceIs(support, d);
    var c := LastChoice(support).value;
    if c.device != d {
      assert false;
    }
  }

  /** When two devices qualify, the search as written and the intended
      one pick different devices. */
  lemma SearchesDifferOnTwoCandidates(support: seq<seq<bool>>, d1: nat, d2: nat)
    requires FamilyCountsFit(support)
    requires d1 < d2 < |support| && Qualifies(support[d1]) && Qualifies(support[d2])
    ensures LastChoice(support).Some? && FirstChoice(support).Some?
    ensures LastChoice(support).value.device != FirstChoice(support).value.device
  {
  }

  /**
    src/Main.cpp takes the first enumerated device without looking at the
    others (the list must not be empty) and queue family 0, and throws
    unless that family can present.
  */
  function PickFirstDevice(support: seq<seq<bool>>): (r: Result<Choice>)
    requires |support| > 0 && |support[0]| > 0
    ensures r.Ok? <==> support[0][0]
    ensures r.Ok? ==> r.value == Choice(0, 0)
    ensures r.Err? ==> r.error == NO_SURFACE_SUPPORT
  {
    if !support[0][0] then Err(NO_SURFACE_SUPPORT) else Ok(Choice(0, 0))
  }

  /**
    The swapchain image count: one more than the surface's minimum (a
    `uint32_t` sum), lowered to the maximum when there is one (a maximum
    of 0 means no limit) and the sum exceeds it.
  */
  function SwapchainImageCount(minImageCount: u32, maxImageCount: u32): (r: u32)
    ensures maxImageCount != 0 ==> r <= maxImageCount
    ensures minImageCount < 0xFFFF_FFFF && (maxImageCount == 0 || minImageCount < maxImageCount)
            ==> r == minImageCount + 1
    ensures minImageCount < 0xFFFF_FFFF && maxImageCount != 0 && minImageCount >= maxImageCount
            ==> r == maxImageCount
    ensures minImageCount == 0xFFFF_FFFF ==> r == 0
  {
    var count := Inc32(minImageCount);
    if maxImageCount != 0 && count > maxImageCount then maxImageCount else count
  }

  /**
    For the capabilities a Vulkan implementation reports (a minimum count
    of at least one, a maximum of 0 or not below the minimum) and a minimum
    below the largest `uint32_t`, the requested count satisfies the rule
    of `vkCreateSwapchainKHR`: at least the minimum and at most the maximum
    (when there is one), and strictly above the minimum unless capped.
  */
  lemma ImageCountIsValidRequest(minImageCount: u32, maxImageCount: u32)
    requires 1 <= minImageCount < 0xFFFF_FFFF
    requires maxImageCount == 0 || minImageCount <= maxImageCount
    ensures var r := SwapchainImageCount(minImageCount, maxImageCount);
            && minImageCount <= r
            && (maxImageCount != 0 ==> r <= maxImageCount)
            && (r == minImageCount + 1 || r == maxImageCount)
  {
  }

  /** VK_IMAGE_USAGE_TRANSFER_DST_BIT. */
  const TRANSFER_DST_BIT: bv32 := 0x2

  /** The swapchain images are cleared by transfer, so the surface must
      support the transfer-destination usage. */
  function CheckTransferDst(supportedUsageFlags: bv32): (r: Result<()>)
    ensures r.Ok? <==> supportedUsageFlags & TRANSFER_DST_BIT != 0
    ensures r.Err? ==> r.error == NO_TRANSFER_DST
  {
    if supportedUsageFlags & TRANSFER_DST_BIT == 0 then Err(NO_TRANSFER_DST) else Ok(())
  }

  /**
    The two checks of set-up in src/Main.cpp, in the order `init` makes
    them: `initDevice` throws unless device 0 presents with family 0, then
    `initSwapchain` throws unless the surface allows transfer-destination
    use.
  */
  function MainSetup(support: seq<seq<bool>>, supportedUsageFlags: bv32): (r: Result<Choice>)
    requires |support| > 0 && |support[0]| > 0
    ensures r.Ok? <==> support[0][0] && supportedUsageFlags & TRANSFER_DST_BIT != 0
    ensures r.Ok? ==> r.value == Choice(0, 0)
    ensures r.Err? ==> r.error == if support[0][0] then NO_TRANSFER_DST else NO_SURFACE_SUPPORT
  {
    match PickFirstDevice(support)
    case Err(e) => Err(e)
    case Ok(c) =>
      match CheckTransferDst(supportedUsageFlags)
      case Err(e) => Err(e)
      case Ok(_) => Ok(c)
  }

  /**
    The two checks of `baseInit` in src/App.cpp, in order: the device
    search as written throws when no device has a presenting queue family,
    then the swapchain set-up throws unless the surface allows
    transfer-destination use.
  */
  function AppSetup(support: seq<seq<bool>>, supportedUsageFlags: bv32): (r: Result<Choice>)
    requires FamilyCountsFit(support)
    ensures r.Ok? <==> (exists d :: 0 <= d < |support| && Qualifies(support[d]))
                       && supportedUsageFlags & TRANSFER_DST_BIT != 0
    ensures r.Ok? ==> r == AsResult(LastChoice(support))
    ensures r.Err? ==> r.error == if LastChoice(support).None? then NO_DEVICE else NO_TRANSFER_DST
  {
    match AsResult(LastChoice(support))
    case Err(e) => Err(e)
    case Ok(c) =>
      match CheckTransferDst(supportedUsageFlags)
      case Err(e) => Err(e)
      case Ok(_) => Ok(c)
  }
}
