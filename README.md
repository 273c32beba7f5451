# Frame ring, swapchain rebuild and key masks of a Vulkan sample repository

This project models, in Dafny, the three pieces of logic in a collection
of Vulkan/SDL and vulkano samples, and proves properties of each.

1. **The N-slot frame ring.** It appears three times in the C++ samples:
   `Application::draw` in src/Main.cpp (two slots), `App::draw` in
   src/AppInit.cpp and `App::nextFrame` in src/App.cpp (four slots).
   A post-incremented `uint32_t` counter picks the slot `counter % FRAME_COUNT`.
   The slot's fence is waited on and reset. An image is acquired, signalling
   the slot's `imageAvailable` semaphore. The slot's command buffer is
   recorded, then submitted. The submission waits on `imageAvailable` and
   signals `renderFinished` and the slot's fence. The image is presented,
   waiting on `renderFinished`.
   - Vulkan objects are abstract state, after the Vulkan specification:
     fences (section 7.3), binary semaphores (section 7.4) and the command
     buffer lifecycle (section 6.1).
   - `FrameSync.Draw` is the ring's own step, and it records a log of
     operations. `FrameSync.Replay` is an independent statement of the
     Vulkan valid-usage rules that run that log.
   - `Application.App` is the class holding the slot array, the counter and
     the image views. Its methods are proved to follow `FrameSync`.
   - The same files also supply the set-up rules (`DeviceInit`): the
     physical-device and queue-family search, the swapchain image-count
     clamp and the transfer-destination usage check.
   - The ordered teardown of the destructor of src/Main.cpp,
     `App::cleanup` of src/AppInit.cpp and `App::baseDestroy` of
     src/App.cpp is modelled as a log of release calls (`Teardown`).
2. **The swapchain-rebuild state machine** of src/loader.rs. It tracks the
   `rebuild_swapchain` flag, the `end_of_frame` future and the recursion
   of `next_frame` on an out-of-date acquire.
   - Acquire outcomes are a finite sequence handed out in turn. Flush
     outcomes are a parameter.
   - `SwapchainRebuild` states it on values and `Loader.Vk` is the struct
     with its methods updating the fields in place.
3. **Keyboard action bitsets.**
   - `KeyCamera` models `Camera::key` and `Camera::fromKey` of src/Camera.h
     on `bv16`.
   - `RayCamera` models `Camera::handle_input`, `new` and the
     `actions != 0` guard of `update` in raytracer/src/camera.rs on `bv8`.

Files:
- base.dfy: Option/Result and `uint32_t`.
- round_robin.dfy: slot selection.
- frame_sync.dfy: Vulkan state, the replay rules and the ring.
- frame_protocol.dfy: the ring's theorems.
- teardown.dfy
- application.dfy
- device_init.dfy
- loader.dfy
- camera.dfy
- ray_camera.dfy

The C++ loop post-increments the frame counter in the very first
statement of `draw`/`nextFrame` (src/Main.cpp:197, src/App.cpp:253), and
it has no path that recovers from a failed cycle. The fence wait, the
fence reset, the acquire, the submit and the present are the pointer
overloads of vulkan.hpp: they return a result code, which the code
ignores, and do not throw. The calls of a cycle that can throw are the
command buffer's `begin` and `end` (the enhanced overloads, which turn an
error code into an exception) and, in src/App.cpp, the `render` callback
between them. A cycle that throws has therefore already advanced the
counter, waited on and reset the slot's fence and acquired an image whose
`imageAvailable` signal nothing consumes (`FrameSync.Abort`). Out-of-date
recovery exists only in src/loader.rs.

## Model

| member | source | states |
|---|---|---|
| Base.ToU32 | src/AppInit.cpp:142 | storing an integer in a `uint32_t` keeps it when it fits and otherwise reduces it modulo 2^32 (so `-1` becomes 2^32 - 1) |
| RoundRobin.Schedule | src/Main.cpp:197 | `k` cycles from counter `c` pick `k` slots, each below `n` |
| RoundRobin.AdvanceIsModular | src/Main.cpp:43 | after `k` post-increments a `uint32_t` counter starting at `c` holds `(c + k) mod 2^32` |
| RoundRobin.NextSlot | src/Main.cpp:197 | when `n` divides 2^32, the slot after counter `c` is the next slot cyclically, even across the wrap from 2^32 - 1 to 0 |
| RoundRobin.ScheduleIsRoundRobin | src/App.cpp:253 | when `n` divides 2^32, the `j`-th of any run of cycles uses slot `(first slot + j) mod n` |
| RoundRobin.FrameCount | src/App.h:38 | each program's FRAME_COUNT is positive: 2 in src/Main.cpp, 4 in src/App.h for src/AppInit.cpp and src/App.cpp |
| RoundRobin.FrameCountsDivideModulus | src/Main.cpp:33 | the frame count of every program divides 2^32, so its ring stays round robin across the counter's wrap |
| RoundRobin.FirstRoundUsesEachSlotOnce | src/AppInit.cpp:264 | the first `n` cycles from counter 0 use slots 0, 1, …, n-1, each exactly once |
| RoundRobin.ThreeSlotsBreakAtWrap | src/Main.cpp:33 | with three slots the counter's wrap makes two consecutive cycles use slot 0, so round robin needs a frame count dividing 2^32 |
| FrameSync.InitGpu | src/Main.cpp:186-192 | the created slots (fence signalled, semaphores unsignalled, fresh buffer) form a quiescent device state with `n` slots |
| FrameSync.Draw | src/Main.cpp:195-305 | a draw cycle keeps the device quiescent between cycles, keeps the slot and image counts, and only appends to the log |
| FrameSync.Complete | src/Main.cpp:200 | the device finishing a slot's submission (what the fence wait waits for) keeps the state quiescent and only appends to the log |
| FrameSync.Run | src/Main.cpp:384-402 | any sequence of frames and device completions keeps the state quiescent and only extends the log |
| FrameSync.RunSnoc | src/App.cpp:24-38 | one more loop iteration is one more step of the run |
| FrameProtocol.CycleReplays | src/Main.cpp:200-304 | on an idle slot with a signalled fence, the eight operations of one cycle are each allowed by the Vulkan rules and leave the slot in flight |
| FrameProtocol.DrawObeysVulkan | src/App.cpp:251-295 | the operations one `nextFrame`/`draw` performs replay under the Vulkan rules to exactly the state `Draw` computes. This includes the fence completion a blocking wait stands for and recording, by the render callback, only between begin and end on an acquired image |
| FrameProtocol.CompleteObeysVulkan | src/Main.cpp:200 | a device completion is allowed exactly when it is recorded and replays to the new state |
| FrameProtocol.RunObeysVulkan | src/Main.cpp:384-402 | every run, whatever the interleaving of frames and completions, appends a log that replays without a forbidden operation to the run's final state |
| FrameProtocol.RingLogIsValid | src/Main.cpp:186-192 | from the slots as created, the whole log of any run replays under the Vulkan rules |
| FrameProtocol.RingNeverReusesPendingSlot | src/Main.cpp:200-207 | in any run's log, a command buffer is never begun while its previous submission is pending, and a fence wait always finds its fence signalled |
| FrameProtocol.DrawBegins | src/Main.cpp:197-207 | a draw begins exactly one command buffer, that of slot `counter % n`, and increments the counter once |
| FrameProtocol.RunFollowsSchedule | src/Main.cpp:197 | the buffers a run begins are exactly the round-robin schedule of its frames, and the counter advances once per frame |
| FrameProtocol.RingIsRoundRobin | src/AppInit.cpp:264 | from counter 0 with a frame count dividing 2^32, the `j`-th frame uses slot `j % n`, and after `k` frames the counter is `k mod 2^32` |
| FrameProtocol.FirstRoundNeverBlocks | src/Main.cpp:191 | since fences are created signalled, no fence wait of the first `n` frames blocks, whatever device completions come in between |
| FrameProtocol.ProgramsAreRoundRobin | src/App.h:38 | in each of the three programs, from the slots as created, the `j`-th frame begins the buffer of slot `j % FRAME_COUNT` |
| FrameProtocol.AbortObeysVulkan | src/App.cpp:253-269 | the operations of a cycle that throws at `begin`, in `render` or at `end` replay under the Vulkan rules to the state `Abort` leaves |
| FrameProtocol.WaitIdleObeysVulkan | src/Main.cpp:364 | the completions `waitIdle` logs replay, in slot order, to the state in which no submission is pending |
| FrameSync.Abort | src/App.cpp:253-269 | after a throw the counter is incremented, the slot's fence is reset and its buffer not pending, the image is acquired with `imageAvailable` signalled, the other slots are unchanged, every fence is armed exactly while its buffer is pending, and the log only grows |
| FrameSync.SettleAll | src/AppInit.cpp:46 | after `waitIdle` no fence is armed and no buffer pending; every slot without a pending submission is unchanged |
| FrameSync.Drain | src/AppInit.cpp:46 | `waitIdle` keeps the counter and only appends to the log |
| FrameProtocol.DrawChainsSemaphores | src/Main.cpp:283-304 | within a cycle, submit waits on the semaphore acquire signalled and signals the slot's renderFinished and fence; present waits on that renderFinished and presents the acquired image, which is the image recorded against |
| Teardown.SlotObjectsReleasedOnce | src/Main.cpp:366-371 | each slot's two semaphores and its fence are destroyed exactly once, and nothing of a slot that does not exist is destroyed |
| Teardown.TeardownOrdered | src/Main.cpp:362-382 | `waitIdle` comes first and never again; the subclass hook follows it only in src/App.cpp; the last six calls destroy swapchain, surface, device, window, SDL and instance; every slot object and the command pool come before them |
| Teardown.TeardownStartsIdle | src/App.cpp:49-53 | `baseDestroy` waits for the device before anything else and calls the subclass `destroy` right after |
| Teardown.TeardownEndsWithDevice | src/AppInit.cpp:62-68 | swapchain, surface, device, window, SDL and instance are the last releases, after every slot object and the pool |
| Teardown.ViewsReleasedBeforeSwapchain | src/AppInit.cpp:57-60 | src/AppInit.cpp destroys the image views in list order right after the command pool and immediately before the swapchain |
| Application.FirstStop | src/Main.cpp:387-401 | the loop ends at the first iteration that sees a quit event or throws |
| Application.App.constructor | src/Main.cpp:178-193 | the slot loop creates FRAME_COUNT fresh slots (fence signalled) and, in src/AppInit.cpp, one view per swapchain image; the counter starts at 0 |
| Application.App.Draw | src/Main.cpp:195-305 | a cycle that does not throw updates the slot array, the counter and the log exactly as `FrameSync.Draw`; one that throws at `begin`, `render` or `end` leaves exactly `FrameSync.Abort`; either way every fence stays armed exactly while its buffer is pending |
| Application.App.AcquireImage | src/Main.cpp:197-204 | select slot `counter % FRAME_COUNT`, post-increment the counter, wait on the fence (completing the slot's submission if pending), reset it and acquire the image |
| Application.App.RecordAndPresent | src/Main.cpp:206-304 | begin, record, end, submit and present leave the slot in flight, the image presented and the cycle's operations logged |
| Application.App.AbandonCycle | src/App.cpp:264-269 | a throw at `begin` leaves the buffer as it was, one from `render` leaves it recording, a failed `end` invalid; nothing is submitted or presented |
| Application.App.DeviceDone | src/Main.cpp:200 | a device completion updates slot array and log exactly as `FrameSync.Complete` |
| Application.App.MainLoop | src/Main.cpp:384-402 | the loop stops at the first quit or throw and reports which. The counter has advanced once per iteration, the throwing one included. The state is the run of the frames drawn (the quitting iteration still draws), followed by `Abort` of the throwing cycle if there was one |
| Application.App.Run | src/App.cpp:21-46 | once the ring exists, the `try` of `run` in src/App.cpp tears down exactly once on both the normal and the exception path, after `waitIdle` (`FrameSync.Drain`), and reports the rethrow; the other programs leave the ring intact for their destructors |
| Application.AppRun | src/App.cpp:17-47 | `run` of src/App.cpp: a `baseInit` throw (platform call, no presenting device, no transfer-destination usage) leaves `run` rethrown with no ring and no teardown; otherwise the loop runs, the exit is by the last iteration, `baseDestroy` releases exactly `TeardownOrder` once and the ring ends drained |
| Application.App.Cleanup | src/AppInit.cpp:44-69 | the device is idle (no fence armed, no buffer pending, also after a cycle that threw) and the release log grows by exactly `TeardownOrder` |
| Application.App.DeviceWaitIdle | src/AppInit.cpp:46 | `waitIdle` completes every pending submission, logs each completion, and leaves every other slot as it was (`FrameSync.Drain`) |
| Application.App.ReleaseAll | src/App.cpp:49-71 | the release calls after `waitIdle` are exactly `TeardownOrder` |
| Application.App.ReleaseHead | src/App.cpp:51-53 | `waitIdle`, then the subclass hook in src/App.cpp only |
| Application.App.ReleaseSlots | src/Main.cpp:366-371 | the per-slot loop releases both semaphores and the fence of slots 0 .. FRAME_COUNT-1 in order |
| Application.App.ReleaseRest | src/AppInit.cpp:55-68 | command pool, the views (src/AppInit.cpp only), swapchain, surface, device, window, SDL, instance |
| Application.App.ReleaseViews | src/AppInit.cpp:57-60 | one `destroyImageView` per entry of the view list, in order |
| Application.App.Destroy | src/AppInit.cpp:19-22 | the destructor tears down (after `waitIdle`, `FrameSync.Drain`) in src/Main.cpp and src/AppInit.cpp and does nothing in src/App.cpp |
| Application.MainProgram | src/Main.cpp:407-425 | a set-up failure (no presenting family, no transfer-destination usage, a failing platform call) makes `main` return 1 with no object to tear down; otherwise `main` exits with 1 after a throw in the loop and 0 after a quit, tears down exactly once, and ends in the drained state of the loop's run |
| DeviceInit.MainSetup | src/Main.cpp:118-158 | the set-up checks of src/Main.cpp succeed, with device 0 and family 0, exactly when that family presents and the surface allows transfer-destination use; otherwise the error of the first failing check |
| DeviceInit.AppSetup | src/App.cpp:146-211 | the set-up checks of src/App.cpp succeed, with the device the search as written picks, exactly when some device presents and the surface allows transfer-destination use; otherwise "cannot find physical device matching criteria" or the transfer-destination error, in that order |
| DeviceInit.FirstSupported | src/AppInit.cpp:150-161 | the found family supports the surface and is the first that does; none is found exactly when no family does |
| DeviceInit.SearchFamilies | src/AppInit.cpp:150-161 | the inner loop stops at the first family with surface support |
| DeviceInit.LastChoice | src/AppInit.cpp:142-172 | the search as written picks a qualifying device exactly when one exists: the last one, with its first presenting family |
| DeviceInit.FirstChoice | src/AppInit.cpp:142-172 | the corrected version of the searches at src/AppInit.cpp:142-172 and src/App.cpp:146-176 picks a qualifying device exactly when one exists: the first one, with its first presenting family |
| DeviceInit.FindDeviceAsWritten | src/AppInit.cpp:142-172 | the nested loop as written in src/AppInit.cpp:142-172 and, identically, src/App.cpp:146-176 (uint32 index starting at -1, early exit `> -1`) yields `LastChoice`, or the "cannot find physical device" error |
| DeviceInit.FindDevice | src/AppInit.cpp:142-172 | the corrected loop of src/AppInit.cpp:142-172 and src/App.cpp:146-176, with the intended early exit, yields `FirstChoice`, or the same error |
| DeviceInit.AsWrittenPrefersLastDevice | src/AppInit.cpp:163 | with two presenting devices, the search as written picks device 1 and the intended one device 0 |
| DeviceInit.SearchesAgreeOnSingleCandidate | src/AppInit.cpp:142-172 | when exactly one device qualifies, the search as written and its corrected version both pick it |
| DeviceInit.SearchesDifferOnTwoCandidates | src/AppInit.cpp:163 | when two devices qualify, the search as written and its corrected version pick different devices |
| DeviceInit.PickFirstDevice | src/Main.cpp:118-123 | src/Main.cpp succeeds with device 0 and family 0 exactly when that family presents, else throws "Surface is not supported" |
| DeviceInit.SwapchainImageCount | src/Main.cpp:149-153 | the count is min + 1, lowered to max only when max is nonzero and exceeded, and never above a nonzero max. For min = 2^32 - 1 the `uint32_t` sum wraps to 0 |
| DeviceInit.ImageCountIsValidRequest | src/App.cpp:203-207 | for capabilities a driver can report, the request is at least the minimum, at most a nonzero maximum, and min + 1 unless capped |
| DeviceInit.CheckTransferDst | src/Main.cpp:155-158 | set-up fails with the transfer-destination error exactly when the usage flags lack TRANSFER_DST |
| KeyCamera.FromKey | src/Camera.h:116-132 | a key maps to an action other than NONE exactly when it is one of the ten listed keys |
| KeyCamera.FromKeyIsAction | src/Camera.h:18-32 | every mapped key's action is a single bit within the low ten bits of the `uint16_t` |
| KeyCamera.FromKeyInjective | src/Camera.h:120-129 | distinct listed keys map to distinct actions |
| KeyCamera.FromKeyCoversActions | src/Camera.h:116-132 | every one of the ten action bits is the action of some listed key |
| KeyCamera.PressSetsOnlyItsBit | src/Camera.h:59-62 | key down sets the key's action bit and leaves every other bit as it was |
| KeyCamera.ReleaseClearsOnlyItsBit | src/Camera.h:63-68 | key up clears the key's action bit and leaves every other bit as it was |
| KeyCamera.UnmappedKeyIgnored | src/Camera.h:131 | a key outside the list changes nothing, down or up, because `fromKey` returns NONE |
| KeyCamera.PressIdempotent | src/Camera.h:61 | pressing a key twice is the same as pressing it once |
| KeyCamera.PressThenRelease | src/Camera.h:57-69 | press followed by release of one key clears its bit and restores every other bit |
| KeyCamera.KeysIndependent | src/Camera.h:57-68 | an event of one listed key never changes the bit of another |
| KeyCamera.Camera.constructor | src/Camera.h:43-47 | the camera starts with no action held |
| KeyCamera.Camera.Key | src/Camera.h:57-69 | `key` updates `_acts` exactly as `KeyTransition` and keeps it within the ten action bits |
| KeyCamera.Camera.ApplyAction | src/Camera.h:59-68 | the `|=` of key down, the guarded `&= ~a` of key up, nothing for other event types |
| RayCamera.DirectionsAreDistinctBits | raytracer/src/camera.rs:46-51 | the six direction constants are nonzero single bits, pairwise disjoint, within `0x3F` |
| RayCamera.KeyAction | raytracer/src/camera.rs:60-65 | W/S/A/D/Q/Z each drive one direction bit; LShift and every other key drive none |
| RayCamera.MovementKeyTogglesItsBit | raytracer/src/camera.rs:60-65 | for a movement key, pressed sets its bit and released clears it; no other bit and not `boost` changes |
| RayCamera.ShiftSetsBoost | raytracer/src/camera.rs:66 | LShift sets `boost` to the key state and leaves the actions alone |
| RayCamera.OtherInputIgnored | raytracer/src/camera.rs:55-67 | an input without a virtual key code, or with an unhandled key, changes nothing |
| RayCamera.MoveDir | raytracer/src/camera.rs:76-82 | each component is +1, -1 or 0 by the held keys, and of two opposite keys the one whose `if` comes later wins |
| RayCamera.GuardedDirectionIsNonzero | raytracer/src/camera.rs:74 | under the mask invariant `actions != 0` holds exactly when the direction is nonzero, so the guard keeps `normalize` off the zero vector |
| RayCamera.Camera.constructor | raytracer/src/camera.rs:26-34 | `new` starts at (0, 1, 0) with speed 5, no boost and no action |
| RayCamera.Camera.HandleInput | raytracer/src/camera.rs:53-70 | `handle_input` updates `actions` and `boost` exactly as `ActionsAfter`/`BoostAfter` and keeps the mask within the six bits |
| RayCamera.Camera.ApplyKey | raytracer/src/camera.rs:60-67 | one arm of the match: `|=` when pressed, `&= !` when released, nothing for the catch-all |
| RayCamera.Camera.MoveBy | raytracer/src/camera.rs:41-44 | the position moves by the offset |
| RayCamera.Camera.Update | raytracer/src/camera.rs:72-87 | with no action the camera stays put; otherwise it moves, and the direction it normalises is nonzero |
| SwapchainRebuild.New | src/loader.rs:87-91 | `new` starts with no rebuild pending, `end_of_frame` present (`sync::now`) and the images of its swapchain |
| SwapchainRebuild.MarkForResize | src/loader.rs:94-97 | `mark_for_resize` sets the rebuild flag and changes nothing else |
| SwapchainRebuild.Recreate | src/loader.rs:107-116 | recreation gives the next swapchain with as many images, all its own, and clears the flag |
| SwapchainRebuild.NextFrame | src/loader.rs:99-133 | The flag is clear afterwards, and the swapchain was recreated once for a pending flag and once per OutOfDate retry. `end_of_frame` is present again. A frame comes back exactly when the first non-OutOfDate acquire returned an index inside the image list, and its image is `swapchain_images[idx]` of the current swapchain |
| SwapchainRebuild.Submit | src/loader.rs:135-156 | a flush error replaces `end_of_frame` with `sync::now`, an OutOfDate flush also sets the flag, a success stores the present of this frame; `end_of_frame` is absent only after the execute panic |
| SwapchainRebuild.RebuildPrecedesAcquire | src/loader.rs:119-126 | a pending rebuild or an OutOfDate acquire makes the returned frame come from a newer swapchain |
| SwapchainRebuild.FlushOutOfDateRecreates | src/loader.rs:147-150 | after an OutOfDate flush the next `next_frame`, whatever its acquire outcomes, recreates the swapchain once for the flag plus once per OutOfDate acquire, and any frame it returns comes from that swapchain |
| SwapchainRebuild.PresentedOnOwnSwapchain | src/loader.rs:140 | a frame is presented on the swapchain it was acquired from, however many resize requests come in between |
| SwapchainRebuild.NextFrameSucceeds | src/loader.rs:128-132 | with in-range indices, `next_frame` returns a frame unless an acquire fails with an error other than OutOfDate |
| Loader.Vk.constructor | src/loader.rs:45-92 | the fields start as `SwapchainRebuild.New` |
| Loader.Vk.MarkForResize | src/loader.rs:94-97 | the fields change as `SwapchainRebuild.MarkForResize` |
| Loader.Vk.NextFrame | src/loader.rs:99-133 | the recursive method changes the fields and returns the frame exactly as `SwapchainRebuild.NextFrame` |
| Loader.Vk.Submit | src/loader.rs:135-156 | the fields and the outcome are exactly those of `SwapchainRebuild.Submit` |

## Left out

- SDL window creation, event polling, winit event loops, and the creation of instance, surface, device, pipeline, render pass and descriptor sets are foreign calls. Events come in as the `Iteration`/`KeyboardEvent`/`KeyboardInput` parameters. The surface support answers and capabilities are parameters too.
- The inline clear and the barriers recorded in `draw` (src/Main.cpp:211-275) and the render callbacks of the subclasses: recording is one `Record(buffer, image)` operation.
- All floating-point work is left out: the sine clear colour, the C++ camera's motion, angles and matrices, and the raytracer's boosted speed and `delta`.
- RayCamera.Camera.Update: the offset is a parameter standing for `normalize(move_dir) * speed * delta`. The model does not compute it, because it is floating-point arithmetic.
- GPU-side concurrency and memory barriers are left out. Completion of a slot's submission is the environment step `DeviceDone`/`Complete`.
- Fence timeouts and device loss are left out. The wait, reset, acquire, submit and present calls of a cycle return result codes that the code ignores, so they are modelled as succeeding. A throw is modelled where the code can throw: at `begin`, in `render` (src/App.cpp) and at `end` (`Iteration.fault`).
- Why a cycle throws is not modelled; a `begin` that throws is taken to leave the command buffer in the state it was in, and an `end` that throws to leave it Invalid, as the Vulkan specification's description of `vkEndCommandBuffer` says for a recording error.
- The set-up calls that go to SDL or the driver (window, instance, surface, device, swapchain and pool creation) are one parameter of `Application.MainProgram` and `Application.AppRun`, `platformFails`: if any of them throws, `main` returns 1, or `run` rethrows, before a ring exists.
- Application.App.Run: the slicing of the rethrown exception (`throw e` copies a `std::exception`) is not modelled. Only the fact of the rethrow is.
- Application.MainProgram: only the `main` of src/Main.cpp is modelled. The `main` functions that drive src/AppInit.cpp and src/App.cpp are not part of this model.
- SwapchainRebuild.NextFrame: `recreate_with_dimensions` is assumed to succeed with the same image count. Its failure would panic ("failed to resize swapchain"). The window dimensions are not modelled.
- SwapchainRebuild.NextFrame: the retry recursion is bounded by the finite sequence of acquire outcomes. An unending run of OutOfDate results is excluded by `Ends`.
- The state after a Rust panic is not modelled beyond the `Err` value and the fields at that point.
- `future.cleanup_finished()` and `join` are left out: they do not change the modelled fields.
- The SDL keycode values follow SDL2 (`SDLK_w` = 119 … `SDLK_UP` = 0x40000052). Only their distinctness matters to the proofs.
- DeviceInit.PickFirstDevice: src/Main.cpp indexes `phdevices[0]` without a check. The function therefore requires a nonempty device list, because the source's behaviour on an empty one is undefined. It also requires device 0 to have at least one queue family, because `getSurfaceSupportKHR` is asked about family 0 (src/Main.cpp:120), which must exist. `DeviceInit.MainSetup` and `Application.MainProgram` carry the same requirement.
- DeviceInit.FindDeviceAsWritten: the number of queue families is a `uint32_t`, so `FamilyCountsFit` bounds it by 2^32. The C++ `int i` counter is not modelled separately.

## Findings

| source | as written | input that shows it | evidently intended | confidence | as-written member | corrected member |
|---|---|---|---|---|---|---|
| src/AppInit.cpp:163 | `_queueFamilyIndex` is a `uint32_t` (src/App.h:36) set to -1, i.e. 2^32 - 1. The early exit `_queueFamilyIndex > -1` compares against 2^32 - 1 too, so it never fires. Every device is visited and the last one with a presenting family wins. The same code is at src/App.cpp:167 | two devices whose queue family 0 presents: `[[true], [true]]` gives device 1 as written, device 0 as intended (`DeviceInit.AsWrittenPrefersLastDevice`) | stop at the first device for which a presenting family was found | not executed | DeviceInit.FindDeviceAsWritten | DeviceInit.FindDevice |
