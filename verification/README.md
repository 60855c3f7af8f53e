# wl-x11: a verified model

wl-x11 shows each Wayland toplevel in an X11 window of its own. The X11 window manager, the
compositor and the client all have opinions about sizes and positions; most of the code modelled
here exists to make those opinions agree without loops. This project models that code, together
with the parts of the bundled wlroots that it leans on hardest, and proves what the code and its
comments promise. `dafny verify dfyconfig.toml` checks everything.

Code that changes records and arrays in place is modelled by classes whose methods follow the
source statement by statement. Each method is tied to a function on values, and the theorems are
about those functions, over single events and over whole runs.

## Components

**Size negotiation.** `Negotiation.dfy` says what each event (client commit, map, host resize,
`_NET_WM_STATE`, reparent, output commit) does to a window record; `Window.dfy` is that record as
an object, with the output's commit handler called from inside the fit. `FitGuard.dfy` shows that
no run goes A, B, A within the guard interval, and that nothing else is held back.
`Authority.dfy` says exactly when a commit takes the size from the host or moves the host.
`Reentrancy.dfy` follows a fit through the re-entrant handler, `Configures.dfy` follows size
requests to the client, `Settling.dfy` shows that the exchange comes to rest, `ConfigureRate.dfy`
bounds what a stubborn client is asked. `HostEvents.dfy` says in plain numbers what maps, resizes,
maximizing and reparenting ask of the client, and that a client which complies is left alone.
`Histories.dfy` holds concrete histories, most of them ones at which a promise fails. `Scale.dfy`
is the arithmetic underneath.

**Popups and overflow.** `Popups.dfy` caches root boxes over a tree kept in an insert-at-head
list; one oldest-first pass makes every cache agree with the tree, and `PopupRuns.dfy` follows the
caches over whole runs. `PopupWindows.dfy` says where the popups' windows are and how large.
`Subpresent.dfy` and `SubpresentList.dfy` promote exactly the overflowing subsurfaces, and `SubpresentWindows.dfy` says where their windows are.

**Colour transforms.** `Color.dfy` and `ColorHeap.dfy` compose lists of transforms,
`ColorOwnership.dfy` is the reference counting, `ColorEval.dfy` evaluates in place, and
`Primaries.dfy` converts between primaries.

**Buffers and synchronisation.** `Merger.dfy` and `MergerObject.dfy` are an asynchronous join of
sync files, and `MergerLedger.dfy` is that join counted by events alone. `FormatSet.dfy` and
`FormatArrays.dfy` are set algebra on growable arrays, `Swapchain.dfy` is a slot pool.

**Drag and clipboard.** `Drag.dfy` and `DragState.dfy` are the self-correcting interactive move
and resize; `Clipboard.dfy` and `ClipboardReader.dfy` collect a pipe into a doubling buffer.

## What does not hold, and what holds instead

Each entry names the exact condition and a concrete input.

- Composition, as written, does not advance the caller's cursor after the recursive call at
  `subprojects/wlroots/render/color.c:283`. `Color.CollectsExactly` and `ColorHeap.Heap.Compose`
  are about the code as written: it collects the flattened list if and only if nothing but NULL
  follows a pipeline (at any depth), and otherwise ends in a failed assertion when memory
  suffices; a supplied pipeline with a gamma table is such a list
  (`Color.GammaAfterPipelineWitness`). `Color.AdvancingCollectsAlways` is about the variant that
  advances the cursor: it is right for every input.
- Scaling back and forth stays within the commit handler's 1px tolerance up to scale 3 and not
  beyond (`Scale.HysteresisCoversRounding`, `Scale.ScaleFourWitness`).
- The 400 ms guard is not the only wait. Mapping sends the configure 0x0, which leaves the size to
  the client, but the record keeps the size of the previous mapping and takes it for told. After a
  remap fill_host may therefore stay silent for another 500 ms (`Settling.GuardIsEnoughExactly`,
  `Authority.LaggardsAreTold`, `Histories.RemapWitness`).
- docs/SIZE.md has fill_host configure the client on every lagging commit. The code repeats a
  configure the record holds for told at most every 500 ms (`Authority.LaggardsAnsweredExactly`,
  `Histories.LaggardUnansweredWitness`).
- The log line at `src/x11.c:564-565` says that host authority is set after an external resize.
  The handler also mirrors `_NET_WM_STATE`, which can clear it again
  (`Authority.HostResizeTakesAuthority`, `Histories.UnmaximizeWitness`).
- docs/SCALE.md places popups at the parent root plus the scaled offset. The code scales offsets
  with the size function, which raises every result below 1 to 1
  (`Popups.TargetVersusDocs`, `Popups.ClampWitness`).
- A popup that moves leaves the popups on it behind: a commit keeps its window in position if and
  only if it does not move the popup or no shown popup hangs on it
  (`PopupRuns.CommitKeepsExactly`, `PopupRuns.LeftBehindWitness`). The next pass over the window
  corrects it (`PopupRuns.PositionedAfterPass`).
- Every commit of a promoted surface first switches its copy in the parent's scene on. It goes off
  again if and only if the surface is mapped and not empty and its window's position can be asked;
  otherwise the copy is on beside the present-window
  (`Subpresent.CommitExactly`, `Subpresent.UnmapExposesWitness`; the statement is about the copy's
  own flag; while its surface is unmapped the scene hides the whole tree around it).
  `Subpresent.StepKeepsExactly` lists the exposing events, `Subpresent.SyncRestoresExactly` says
  when a sync puts the copies of its window right again.
- A commit gives a popup's window the size of its buffer, a pass over the popups the size of its
  surface. The pass keeps the size if and only if the two are equal once scaled
  (`PopupWindows.PassKeepsSizeExactly`, `PopupWindows.PassResizesWitness`).
- Past the minimum size of a resize the edge opposite to the dragged one is pushed along
  (`Drag.OppositeEdgeAnchored`, `Drag.PushedEdgeWitness`).
- The drag correction never settles under a window manager that always answers one request late:
  every three rounds turn the error into its opposite (`Drag.ErrorsRepeat`), and two successive
  requests land on target if and only if the drag was right from the start
  (`Drag.LateNeverSettles`, `Drag.MoveStartsLocked`).
- Memory that runs out in a composition between the second pass and the end loses references if
  and only if the list is one that the code would have aborted on (`ColorHeap.Heap.Compose`).
- A hangup publishes the clipboard without draining the pipe, so what was written since the last
  poll is lost (`Clipboard.HangupServesExactly`, `Clipboard.HangupCanTruncate`,
  `Clipboard.HangupCanLoseAll`).
- The 16 ms drag throttle only guarantees more than 15 ms (`Drag.SendsAreSpaced`,
  `Drag.ThrottleExactly`, `Drag.ThrottleIsNotSixteen`).
- A format set keeps listing a format whose last modifier was removed; a copy keeps such formats,
  a union drops them (`FormatSet.UnionWithNothing`, `FormatSet.EmptiedFormatWitness`).

## What is taken as given

Where this text counts the configures of a window it counts size requests. Requests made in one
turn of the event loop reach the client as one configure with the last size
(`Configures.NewestIsReceived`), and the answer to a state request repeats that size. A second
map needs a configure that the client can acknowledge; the source sends the initial one only
once, so some state request must have been answered in between, and which is an input
(`Authority.PossibleRun`).

The clock is positive and monotone. Committing an output mode either sets the size and calls the
commit handler before returning, or fails and does nothing; which of the two is an input. A
surface iteration visits each surface once. Pointer, geometry and property queries are inputs
that may fail. An acknowledged configure becomes current at the next commit. A read from the
clipboard pipe blocks only when nothing is unread. A buffer allocator never hands out a name twice.
An X server that cannot report the configure target of a drag acts like one that cannot report the
pointer.

## Model

| member | source | states |
|---|---|---|
| Scale.RoundTripExactly | src/output.c:16-30 | unscale undoes scale on every size >= 1 if and only if the scale does not shrink (>= 1, or <= 0, which means no scaling) |
| Scale.RoundTripsWhenEnlarging | src/output.c:16-30 | for every scale >= 1 and every size >= 1, scaling to host pixels and back gives the same logical size |
| Scale.HysteresisCoversRounding | src/output.c:16-30 | every host size >= 32 comes back from logical pixels within the 1px tolerance of the commit handler if and only if the scale is at most 3 |
| Scale.ScaleFourWitness | src/output.c:16-30 | at scale 4 a host size of 34 comes back as 36 |
| Scale.ScaleMonotone | src/output.c:16-22 | scaling preserves order, the clamp to 1 included |
| Scale.Round | src/output.c:20 | lround: the nearest integer, halves away from zero |
| WindowRecord.Window.PreferredSize | src/output.c:268-294 | the preferred size: geometry, buffer or geometry again, with 1024 and 720 for dimensions below 32 |
| WindowRecord.Window.SetToplevelSize | src/output.c:296-308 | asks the client for a size; only a size with both dimensions positive is remembered |
| WindowRecord.Window.SizeForOutput | src/output.c:313-342 | the logical size that fills the host, less the shadow margin of an untiled client under client decorations, never below 1; 0x0 without an output |
| WindowRecord.Window.FillHostWindow | src/output.c:347-401 | the whole effect of fill_host: silent when told and filled, at most every 500 ms when told but not filled, otherwise a configure |
| WindowRecord.Window.HandleOutputCommit | src/output.c:163-208 | remembers a new output size and fills the host, once per size |
| WindowRecord.Window.ResizeOutput | src/output.c:675-699 | commits a mode of at least 32x32 that differs; the commit handler runs inside the call |
| WindowRecord.Window.CommitSurface | src/xdg.c:69-148 | one client commit as a change of the whole window record |
| WindowRecord.Window.NegotiateSize | src/xdg.c:160-324 | the decision of a commit (leave, blocked, fit, hold) and its effect on the whole record; which commits fit is FitGuard.FitsExactly |
| WindowRecord.Window.WouldOscillate | src/xdg.c:231-246 | the guard as the code computes it; what it amounts to over a run is FitGuard.OscillatesExactly |
| WindowRecord.Window.FitOutput | src/xdg.c:298-307 | records the fit, moves the host, and confirms the size the client committed |
| WindowRecord.Window.HandleNetWmState | src/x11.c:285-385 | mirrors the maximised and fullscreen flags of the host, moving authority and margins with them |
| WindowRecord.Window.HandleRequestState | src/x11.c:512-571 | an external host resize takes authority before the mode is committed |
| WindowRecord.Window.HandleReparent | src/x11.c:800-818 | a drawable of another size is adopted and the client told |
| WindowRecord.Window.CreateOutput | src/output.c:780-954 | mapping opens the host window at the scaled preferred size and leaves the client free to choose; nothing opens when no X11 output can be made |
| FitGuard.NoFastOscillation | src/xdg.c:231-303 | in every run, three successive recorded fits A, B, A with A different from B leave at least 400 ms between the last two, whatever host events and blocked commits fall between |
| FitGuard.FitsExactly | src/xdg.c:160-311 | in every run a commit of a mapped window records a fit if and only if the wanted size is at least 2px off, the state acknowledged last is neither maximized nor fullscreen, the host does not keep the size, and the last two recorded fits are not that size and then another one less than 400 ms ago; the host moves to it exactly when it then takes a mode of at least 32x32 |
| FitGuard.OscillatesExactly | src/xdg.c:231-246 | the fields that the guard compares say exactly whether the recorded history is about to return within 400 ms |
| FitGuard.ThirdSizeIsTaken | src/xdg.c:240-246 | a client that goes on to a third size is never held back, however fast |
| FitGuard.StepKeepsGuard | src/xdg.c:231-303 | every single event keeps that property and keeps the remembered fits in step with the history |
| FitGuard.CommitRecordsOnlyFits | src/xdg.c:283-303 | a commit records a fit exactly when it decides to fit |
| Authority.ReachableInv | src/xdg.c:69-324 | in every run a mapped window has a positive size the commit handler has seen, margins are not negative and the remembered configure is a real size or was never set |
| Authority.ReleasedExactly | src/xdg.c:182-210 | after a commit the host has no authority if and only if it had none, or the client is untiled, asserts a size more than 1px from the last configure, and that is at least 2px smaller than the host in some dimension |
| Authority.MovedExactly | src/xdg.c:224-307 | a commit moves the host window if and only if it decides to fit, the mode is accepted and the size is at least 32x32; then to the scaled preferred size |
| Authority.LaggardsAnsweredExactly | src/xdg.c:312-323 | while the host owns the size, a commit that lags is answered with a configure if and only if the host size is news to the record, or the client does not fill it and the last reminder is 500 ms old |
| Authority.LaggardsAreTold | src/xdg.c:312-323 | while the host owns the size, after a commit that lags the newest configure asks for a size within 1px of filling the host if and only if no remap has left the client the choice, or the commit was answered |
| Authority.HostKeepsAuthority | src/xdg.c:182-225 | no sequence of client commits changes a host-owned size before one of them releases it |
| Authority.TiledHostNeverMoves | src/xdg.c:168-171 | while maximised or fullscreen no sequence of commits changes the host size |
| Authority.HostResizeTakesAuthority | src/x11.c:549-563 | after an external resize the host owns the size, unless the same event reports the end of maximise or fullscreen |
| Authority.FitEffect | src/xdg.c:298-307 | what a fit leaves behind, re-entrant handler included: host size, remembered configure, authority untouched |
| HostEvents.MapOpens | src/output.c:780-954 | mapping opens the host window at the scaled size of what it shows (geometry under server decorations, buffer under client decorations, 1024 or 720 for less than 32), requests 0x0 and drops the authority of the host |
| HostEvents.WantsWhatItShows | src/output.c:268-294 | the same size is what every later fit asks for |
| HostEvents.MirrorExactly | src/x11.c:345-385 | what the host flags do to margin, authority and requests: a newly set flag drops the shadow margin, the last flag that changes decides authority, and the client is told to fill exactly while a flag is set |
| HostEvents.MaximizeFillsToTheEdge | src/x11.c:345-385 | a newly maximized or fullscreen client is told to fill the unscaled host size with no shadow subtracted |
| HostEvents.ResizeIsPassedOn | src/x11.c:512-571 | after an applied external resize the client has been told to fill the new size |
| HostEvents.ReparentAdopts | src/x11.c:800-818 | a drawable of another size is adopted if large enough and taken; the newest request is its size in logical pixels |
| HostEvents.OncePerSize | src/output.c:163-208 | the commit handler acts once per output size |
| HostEvents.ResizeLeavesNothingToDo | src/output.c:675-699 | after a resize by the compositor, taken or refused, the commit handler has nothing left to do |
| HostEvents.ComplianceRests | src/output.c:313-342 | a client that commits exactly what it was asked for, plus its shadow, is moved and asked for nothing, if and only if the host size survives the round trip through logical pixels within 1px |
| HostEvents.MarginIsTheShadow | src/xdg.c:130-148 | through any run of client events the margin is the shadow of the latest commit that had both a geometry and a buffer |
| Reentrancy.ReentrantFit | src/xdg.c:290-311 | a fit through the re-entrant handler leaves the output at the scaled client size and the remembered size at the client's own; it makes at most two size requests, the last for the client's own size, and at most one if and only if the commit is coherent or fill_host had nothing to add |
| Configures.FitSendsAtMostOne | subprojects/wlroots/types/xdg_shell/wlr_xdg_surface.c:164-180 | every fit, its re-entrant handler included, causes at most one configure, for the size the client committed |
| Configures.NewestIsReceived | subprojects/wlroots/types/xdg_shell/wlr_xdg_surface.c:126-180 | however requests fall into turns of the event loop, a mapped client was last configured with exactly the newest requested size, and gets at most one configure a turn |
| Configures.UnmapDropsWhatIsDue | subprojects/wlroots/types/xdg_shell/wlr_xdg_surface.c:26-44 | what is due when the client unmaps is not sent |
| Reentrancy.TargetIsAsserted | src/output.c:313-342 | fill_host and the commit handler compute the same client size if and only if the geometry lies inside the buffer, or no stale margin is left (always so without client decorations) |
| Reentrancy.PlainFitIsLargeEnough | src/output.c:675-678 | at scale >= 1 a preferred size taken from the client is never too small to be applied |
| Histories.TwoRequestsWitness | src/xdg.c:298-307 | from a reachable window, a geometry larger than its buffer under client decorations: two different sizes are requested and one configure, with the geometry, is due |
| Histories.LaggardUnansweredWitness | src/output.c:380-391 | from a reachable window, a lagging commit 200 ms after a reminder gets no configure |
| Histories.UnmaximizeWitness | src/x11.c:561-563 | from a reachable window, a host resize whose notification ends maximise leaves the host without authority |
| Histories.RemapWitness | src/output.c:947-949 | a remap (after another acknowledged configure) and a resize after which the record says told, the newest request leaves the client the choice, the 400 ms guard is not running, a commit at 1300 ms waits and one at 1600 ms is answered |
| Settling.NegotiationSettles | src/xdg.c:160-324 | silent host, client that commits what its newest configure asks for: at most one commit acts; the window is at rest if and only if it was, or some commit was not held up by a timer; one made 400 ms after the last fit is not, if after a remap it also comes 500 ms after the last reminder |
| Settling.GuardIsEnoughExactly | src/output.c:380-391 | the 400 ms guard interval alone is enough if and only if the client need not be reminded, or the wait for that cannot end later than the guard |
| Settling.OnlyRemapsNeedReminding | src/output.c:947-949 | only a client that a remap has left the choice needs to be reminded |
| Settling.RestIsExact | src/xdg.c:150-159 | rest is exactly the state in which no sequence of commits ever acts again |
| Settling.SettlesAfterAnyHistory | src/xdg.c:150-324 | after any history of client and host events, with a silent host and an obedient client, at most one commit acts until the timers have expired and none afterwards |
| Settling.QuietForever | src/xdg.c:160-324 | at rest no commit at any later time resizes the host or sends a configure |
| Settling.OneCommitSettles | src/xdg.c:160-324 | unless the guard or the wait for a reminder holds it up, one commit is enough |
| Settling.NoTightLoop | src/xdg.c:150-159 | even if the host refuses modes at will, at most two commits act |
| Settling.RefusalWaits | src/xdg.c:283-289 | a commit blocked by the guard changes neither host, configures nor guard, and the guard is then still running |
| ConfigureRate.ConfigureRateBound | src/output.c:357-401 | with a constant target a stubborn client is asked at most 2 + T/500 times in T ms, every time after the second at least 500 ms after the one before |
| ConfigureRate.ServeKeepsRate | src/output.c:369-390 | one call of fill_host keeps that spacing |
| Color.CollectsExactly | subprojects/wlroots/render/color.c:271-316 | as written, the collected buffer is the flattened list if and only if nothing non-NULL follows a pipeline; otherwise it holds a NULL |
| Color.CoversExactly | subprojects/wlroots/render/color.c:271-295 | the cells the pass touches are all the cells it counted if and only if nothing non-NULL follows a pipeline |
| Color.GammaAfterPipeline | subprojects/wlroots/types/scene/wlr_scene.c:2258-2266 | a scene output with a supplied pipeline and a gamma table is never collected right |
| Color.GammaAfterPipelineWitness | subprojects/wlroots/types/scene/wlr_scene.c:2258-2266 | such transforms exist, and the buffer then holds a NULL |
| Color.AdvancingCollectsAlways | subprojects/wlroots/render/color.c:271-295 | with the cursor advanced past a nested pipeline the buffer is the flattened list for every input |
| Color.EvalFlatten | subprojects/wlroots/render/color.c:242-269 | a list with NULLs and nested pipelines evaluates like its flattened list |
| Color.CompositionPreservesMeaning | subprojects/wlroots/render/color.c:297-334 | the composed transform evaluates like the input list, is in normal form, and is NULL only when every entry is |
| Color.FlattenEmptyExactly | subprojects/wlroots/render/color.c:305-309 | the flattened list is empty exactly when every entry is NULL |
| ColorHeap.Heap.Compose | subprojects/wlroots/render/color.c:297-334 | as written: aborts exactly when something follows a pipeline; otherwise the result is the composition with one new handle and no reference lost; when memory runs out, references are lost exactly if the second pass was made and something follows a pipeline |
| ColorHeap.Heap.Collect | subprojects/wlroots/render/color.c:271-295 | both passes: the count, the buffer contents, and one reference taken per cell written |
| ColorHeap.Heap.InitPipeline | subprojects/wlroots/render/color.c:75-100 | a new pipeline holds one reference on every part; running out of memory changes nothing |
| ColorHeap.Heap.InitLeaf | subprojects/wlroots/render/color.c:24-73 | a new transform has one reference, the caller's |
| ColorHeap.Heap.Ref | subprojects/wlroots/render/color.c:127-130 | one more handle, nothing else |
| ColorHeap.Heap.Unref | subprojects/wlroots/render/color.c:132-141 | gives up one handle and frees exactly what the remaining handles can no longer reach |
| ColorHeap.Heap.Destroy | subprojects/wlroots/render/color.c:102-125 | recursive destruction restores the counting discipline and terminates |
| ColorOwnership.AliveIsReachable | subprojects/wlroots/render/color.c:75-141 | under the counting discipline every live transform is held by a handle, directly or through pipelines |
| ColorOwnership.FreedExactly | subprojects/wlroots/render/color.c:102-141 | if memory only shrank and is again correctly counted, what is gone is exactly what the handles cannot reach |
| ColorOwnership.OldOnesSurvive | subprojects/wlroots/render/color.c:328-332 | giving back temporary references frees nothing that was alive before |
| ColorOwnership.CollectedAgain | subprojects/wlroots/render/color.c:316-326 | what compose passes on: the two passes agree on length, and a NULL is left exactly when something follows a pipeline |
| ColorOwnership.ComposedMeaning | subprojects/wlroots/render/color.c:297-334 | in the memory compose leaves behind, its result evaluates like the input list |
| ColorEval.EvalTransform | subprojects/wlroots/render/color.c:242-269 | in place or not, the output buffer holds what the transform makes of the input colour |
| ColorEval.EvalInverseEotf | subprojects/wlroots/render/color.c:208-214 | correct when output and input are the same buffer |
| ColorEval.EvalLut | subprojects/wlroots/render/color.c:233-238 | correct when output and input are the same buffer |
| ColorEval.EvalMatrix | subprojects/wlroots/render/color.c:349-356 | the product is complete before the first channel is written |
| ColorEval.MatrixMultiplies | subprojects/wlroots/render/color.c:257-259 | a matrix transform multiplies by the matrix, row by row |
| ColorEval.ConvertedAndBack | subprojects/wlroots/render/color.c:242-269 | a pipeline that converts to other primaries and back leaves every colour as it was |
| ColorEval.TablesAndTheirInverses | subprojects/wlroots/render/color.c:233-238 | tables followed by their inverses, channel by channel, leave every colour as it was |
| ColorEval.CurveAndItsInverse | subprojects/wlroots/render/color.c:208-214 | so does a curve followed by its inverse |
| ColorEval.GreyStaysGrey | subprojects/wlroots/render/color.c:208-238 | curves and equal tables treat the channels alike |
| ColorEval.ProfilesCompose | subprojects/wlroots/render/color.c:242-269 | profiles in a pipeline apply to the whole colour one after the other |
| Primaries.InverseIsExact | subprojects/wlroots/util/matrix.c:144-165 | the computed inverse is a two-sided inverse of every matrix with non-zero determinant |
| Primaries.WhiteIsWhite | subprojects/wlroots/render/color.c:369-394 | (1, 1, 1) maps to the XYZ of the white point for all primaries with an invertible matrix |
| Primaries.PrimariesAreThemselves | subprojects/wlroots/render/color.c:369-394 | full red, green and blue have the chromaticities of their primaries, contribute to white exactly for regular primaries, and their luminances add up to 1 |
| Primaries.RegularExactly | subprojects/wlroots/render/color.c:383-406 | the destination matrix can be inverted if and only if no primary has zero weight in white |
| Primaries.ConversionsCompose | subprojects/wlroots/render/color.c:396-406 | converting A to B and then B to C is converting A to C |
| Primaries.ConversionRoundTrip | subprojects/wlroots/render/color.c:396-406 | converting A to B and then B to A is the identity matrix |
| Primaries.ConversionKeepsWhite | subprojects/wlroots/render/color.c:396-406 | primaries with the same white convert white to white |
| Primaries.NamedAreRegular | subprojects/wlroots/render/color.c:8-22 | the sRGB and BT.2020 primaries of section 8.1 of ITU-T H.273 can be converted both ways |
| Merger.JoinsExactlyOnce | subprojects/wlroots/render/drm_syncobj_merger.c:40-197 | in every interleaving: untouched while any reference is out; then materialised once, from exactly the files whose add succeeded; every descriptor closed exactly once; nothing can follow |
| MergerLedger.WaitsForEveryone | subprojects/wlroots/render/drm_syncobj_merger.c:40-197 | in every run the destination is untouched exactly as long as an accepted point is unanswered, a polled plane is not done or a caller holds a reference; then it holds the union of everything that joined, counted by events alone |
| MergerLedger.NotReadyIsWaitedFor | subprojects/wlroots/render/drm_syncobj_merger.c:110-129 | the waiters outstanding are the points not ready that were accepted less the answers so far; nothing is materialised until they are equal |
| MergerLedger.CallsReturn | subprojects/wlroots/render/drm_syncobj_merger.c:81-197 | an add returns true exactly when what it was given has joined or is being waited for |
| MergerLedger.DmabufAgrees | subprojects/wlroots/render/drm_syncobj_merger.c:159-197 | the leading planes that can be exported and merged join; if the next cannot be exported every plane is polled, up to the first that cannot be |
| MergerLedger.StepAgrees | subprojects/wlroots/render/drm_syncobj_merger.c:40-197 | every event changes references, waiters and the accumulated file as the ledger says |
| Merger.StepKeeps | subprojects/wlroots/render/drm_syncobj_merger.c:40-197 | every event keeps references, descriptors and the accumulated file in step |
| Merger.AddExportableKeeps | subprojects/wlroots/render/drm_syncobj_merger.c:81-85 | an add succeeds exactly when the export does and the merge, if one is needed, does; only then does the file join |
| MergerObject.SyncobjMerger.AddFile | subprojects/wlroots/render/drm_syncobj_merger.c:131-144 | merges into the accumulated file, closing what is no longer needed |
| MergerObject.SyncobjMerger.AddPoint | subprojects/wlroots/render/drm_syncobj_merger.c:103-129 | exports at once, or waits holding a reference; that it is waited for is MergerLedger.NotReadyIsWaitedFor |
| MergerObject.SyncobjMerger.AddDmabufPlanes | subprojects/wlroots/render/drm_syncobj_merger.c:159-197 | exports every plane, or polls every plane holding one reference each |
| MergerObject.SyncobjMerger.HandleReady | subprojects/wlroots/render/drm_syncobj_merger.c:94-101 | the deferred export adds its file and gives up its reference |
| MergerObject.SyncobjMerger.HandleDone | subprojects/wlroots/render/drm_syncobj_merger.c:151-157 | the poll gives up its reference |
| MergerObject.SyncobjMerger.Unref | subprojects/wlroots/render/drm_syncobj_merger.c:60-79 | the last reference materialises the point |
| FormatSet.AddExact | subprojects/wlroots/render/drm_format_set.c:55-87 | adding keeps formats and modifiers distinct and adds exactly that pair |
| FormatSet.RemoveExact | subprojects/wlroots/render/drm_format_set.c:89-104 | removing takes out exactly that pair; the format stays listed |
| FormatSet.IntersectExact | subprojects/wlroots/render/drm_format_set.c:221-263 | an intersection has distinct formats and modifiers, no format without modifiers, and exactly the pairs of both sets |
| FormatSet.IntersectFits | subprojects/wlroots/render/drm_format_set.c:224-241 | it fits an array of the smaller length, by pigeonhole |
| FormatSet.EmptyIntersection | subprojects/wlroots/render/drm_format_set.c:255-258 | it is refused as empty exactly when the sets share no pair |
| FormatSet.CommonExact | subprojects/wlroots/render/drm_format_set.c:206-214 | the common modifiers, each once |
| FormatSet.CommonFits | subprojects/wlroots/render/drm_format_set.c:193-211 | they fit an array of the smaller length |
| FormatSet.Pigeonhole | subprojects/wlroots/render/drm_format_set.c:193-211 | a list without repetitions whose members all occur in another is no longer than it |
| FormatSet.UnionExact | subprojects/wlroots/render/drm_format_set.c:280-301 | a union has distinct formats and modifiers, exactly the pairs of either set, and fits the summed length |
| FormatSet.UnionWithNothing | subprojects/wlroots/render/drm_format_set.c:265-301 | a union with the empty set gives the set back if and only if every listed format has a modifier |
| FormatSet.EmptiedFormatWitness | subprojects/wlroots/render/drm_format_set.c:96-103 | removing the only modifier of a format leaves it listed, and a union with nothing drops it |
| FormatSet.Absorption | subprojects/wlroots/render/drm_format_set.c:221-301 | union and intersection absorb each other |
| FormatArrays.FormatAdd | subprojects/wlroots/render/drm_format_set.c:121-141 | adds in place or in a doubled copy; the capacity grows only when the array is full |
| FormatArrays.FormatRemove | subprojects/wlroots/render/drm_format_set.c:96-103 | shifts the rest down and says whether the modifier was there |
| FormatArrays.FormatCopy | subprojects/wlroots/render/drm_format_set.c:143-159 | a fresh copy without spare room |
| FormatArrays.FormatIntersect | subprojects/wlroots/render/drm_format_set.c:189-219 | the common modifiers in order, written in bounds to an array of the smaller length |
| FormatArrays.RoomForMatch | subprojects/wlroots/render/drm_format_set.c:231-241 | the record written for every matching format, shared modifiers or not, is in bounds of an array of the smaller length, and its format is new |
| FormatArrays.DrmFormatSet.HasPair | subprojects/wlroots/render/drm_format_set.c:46-53 | true exactly for the pairs in the set |
| FormatArrays.DrmFormatSet.AddPair | subprojects/wlroots/render/drm_format_set.c:55-87 | the set with the pair added; the array grows only for a new format in a full array |
| FormatArrays.DrmFormatSet.RemovePair | subprojects/wlroots/render/drm_format_set.c:89-104 | the set with the pair removed, and whether it was there |
| FormatArrays.DrmFormatSet.UnionOf | subprojects/wlroots/render/drm_format_set.c:280-301 | the union, also when the destination is an operand; the array allocated up front is never replaced |
| FormatArrays.DrmFormatSet.IntersectOf | subprojects/wlroots/render/drm_format_set.c:221-263 | the intersection, also when the destination is an operand, every record written before it is known whether modifiers are shared; empty means false and an untouched destination |
| FormatArrays.DrmFormatSet.CopyOf | subprojects/wlroots/render/drm_format_set.c:161-187 | an equal set in fresh arrays without spare room |
| Swapchain.SafeAcquire | subprojects/wlroots/render/swapchain.c:62-111 | in every run: never a buffer that is still out; at most 4 ever allocated, and only while all existing ones are out; acquire fails exactly when all slots are out, or all existing buffers are and none can be had |
| Swapchain.RunKeeps | subprojects/wlroots/render/swapchain.c:62-111 | slot buffers stay distinct and the acquired marks match what is out |
| Swapchain.MarksAreHandedOut | subprojects/wlroots/render/swapchain.c:62-111 | in every run the slots marked acquired hold exactly the buffers handed out and not given back |
| Swapchain.ReleasedIsReused | subprojects/wlroots/render/swapchain.c:62-96 | after a release the next acquire succeeds with an existing buffer and allocates nothing |
| Swapchain.NoAllocatorNoBuffers | subprojects/wlroots/render/swapchain.c:98-104 | once the allocator is gone no buffer is allocated in any run |
| Swapchain.Chain.AcquireBuffer | subprojects/wlroots/render/swapchain.c:82-111 | reuses the first free buffer, else fills the last free slot |
| Swapchain.Chain.HandleRelease | subprojects/wlroots/render/swapchain.c:62-67 | frees the slot of that buffer only |
| Swapchain.Chain.HasBuffer | subprojects/wlroots/render/swapchain.c:113-122 | true exactly for the buffers in slots |
| Drag.DragConverges | src/x11.c:835-866 | whatever was learned before, from the first notify answering the latest request every later update lands the frame exactly at pointer plus start offset |
| Drag.StaleNotifyError | src/x11.c:851-864 | a stale notify puts the next update off by exactly the distance between the two requests |
| Drag.InOrderTeaches | src/x11.c:851-864 | one in-order notify is enough, whatever was learned before |
| Drag.LateNeverSettles | src/x11.c:835-866 | under a manager that always answers one request late, two successive requests land on target after any number of rounds if and only if the drag was on target with the right correction before the first |
| Drag.ErrorsRepeat | src/x11.c:851-864 | under such a manager three rounds turn every error into its opposite |
| Drag.LockedExactly | src/x11.c:851-864 | a round of such a manager keeps the drag right exactly if it was right |
| Drag.MoveStartsLocked | src/move_resize.c:25-34 | a move starts right exactly if the manager adds no inset and the pointer has not moved |
| Drag.FirstUpdateIsNoOp | src/move_resize.c:25-34 | whatever went before, the first update of a move is sent, and at an unmoved pointer asks for the position the frame already has |
| Drag.FirstResizeIsNoOp | src/move_resize.c:42-77 | the first update of a resize is sent too, and at an unmoved pointer asks for the frame as it is |
| Drag.ResizeDuringMove | src/input.c:218-246 | a resize begun during a move leaves the move in charge |
| Drag.BlindUpdate | src/input.c:209-220 | an update at which the pointer cannot be asked sends nothing but uses up its turn |
| Drag.OnlyTheFrameTeaches | src/x11.c:835-866 | the correction is learned from notifies about the frame itself and from no others |
| Drag.OppositeEdgeAnchored | src/input.c:249-273 | the edge opposite to the dragged one stays put if and only if the minimum size does not bite |
| Drag.DraggedEdgeFollows | src/input.c:249-273 | dragged edges follow the pointer and the others stay: left and top always, right and bottom if and only if the minimum size does not bite; where it bites the size is 50 |
| Drag.DraggedEdgeLands | src/input.c:249-290 | once a notify has answered the latest request, every later update puts the edges of the real frame there |
| Drag.PushedEdgeWitness | src/input.c:249-273 | the left edge of a 100 wide window dragged 80 to the right moves the right edge from 100 to 130 |
| Drag.ThrottleExactly | src/input.c:191-201 | an update let through comes less than 16 ms after the last if and only if the nanosecond fields run backwards by a broken number of milliseconds and the elapsed time rounds up to just 16 |
| Drag.SendsAreSpaced | src/input.c:209-290 | in every run any two sends are more than 15 ms apart, and less than 16 ms exactly on such times |
| Drag.ThrottleIsNotSixteen | src/input.c:191-201 | a move in which two requests go out 15.000001 ms apart |
| DragState.Server.BeginInteractiveMove | src/move_resize.c:15-40 | sets the offset and resets the correction loop |
| DragState.Server.BeginInteractiveResize | src/move_resize.c:42-77 | remembers the starting frame and resets the correction loop |
| DragState.Server.UpdateInteractiveDrag | src/input.c:209-290 | the request sent for a pointer position, edges, minimum size and correction included; where it puts the edges is Drag.DraggedEdgeLands |
| DragState.Server.HandleConfigureNotify | src/x11.c:830-867 | learns the correction from notifies about the frame only |
| Clipboard.BufferIsTheStream | src/clipboard.c:98-154 | at any moment of any run the buffer is what was read of the stream since the export began, at most 1 MiB, and its capacity is 4096 or less than twice what is needed |
| Clipboard.PublishedIsPrefix | src/clipboard.c:98-129 | published text is a non-empty prefix of the stream and all of it at end of file; a hangup publishes exactly what was read, or nothing if nothing was |
| Clipboard.PollExactly | src/clipboard.c:98-154 | in every run: a poll past the limit or with a read error ends the export and publishes nothing, end of file ends it and serves the whole stream, any other leaves it going with everything written in the buffer; the other selection is untouched |
| Clipboard.EndOfFileServesExactly | src/clipboard.c:122-128 | end of file serves the whole text if and only if there is one and it is at most 1 MiB; otherwise the text of before stays |
| Clipboard.ExportLivesExactly | src/clipboard.c:98-188 | an export goes on from a start that found type, pipe and source to the first event that ends it or the next start, for the selection of its start; only polls change what is served |
| Clipboard.HangupServesExactly | src/clipboard.c:100-108 | after a hangup the served text is the whole stream if and only if something was read and nothing left unread, or nothing was read and the earlier text happens to equal it |
| Clipboard.PollDrains | src/clipboard.c:113-121 | a poll that leaves the export going has drained the pipe, so only later writes can be lost |
| Clipboard.TooMuchPublishesNothing | src/clipboard.c:130-135 | once the limit would be passed the export ends and nothing is published |
| Clipboard.HangupCanTruncate | src/clipboard.c:100-108 | a byte written after the last poll is missing from the text a hangup publishes |
| Clipboard.HangupCanLoseAll | src/clipboard.c:100-108 | a client that writes and goes before the first poll loses its whole text |
| ClipboardReader.Reader.HandleReadable | src/clipboard.c:98-154 | one poll event as a change of the reader, buffer terminated throughout; what each kind of poll publishes is Clipboard.PollExactly |
| ClipboardReader.Reader.AppendChunk | src/clipboard.c:136-151 | the chunk behind what was there, in bounds and terminated |
| ClipboardReader.Reader.Grow | src/clipboard.c:136-148 | a doubled block with the old contents |
| ClipboardReader.Reader.Export | src/clipboard.c:156-188 | drops the previous export and starts a new one |
| Popups.CachesAgreeWithTree | src/xdg.c:1167-1194 | one pass, whatever the caches held, leaves every mapped popup with mapped ancestors at the content origin plus the scaled offsets along its whole chain |
| Popups.InsertKeepsOrder | src/xdg.c:1418-1428 | inserting at the head keeps every popup ahead of its parent |
| Popups.RemoveKeepsOrder | src/xdg.c:1395-1414 | so does removing a popup without children |
| Popups.TargetVersusDocs | src/xdg.c:1032-1033 | the position is the documented one if and only if no offset of the chain is clamped; otherwise it is further right or down |
| Popups.ClampWitness | src/output.c:20-21 | a menu at offset (0, 20) at scale 1 lands one pixel right of the documented place |
| PopupRuns.PositionedAfterPass | src/xdg.c:1167-1194 | after any history a pass puts every popup of its window in position, and they stay there while the window does not move and no commit moves a popup that mapped popups hang on |
| PopupRuns.CommitKeepsExactly | src/xdg.c:1371-1393 | a commit of a shown popup keeps its window in position if and only if it does not move the popup, or no shown popup hangs on it |
| PopupRuns.LeftBehindWitness | src/xdg.c:1371-1393 | a menu and its submenu in position; the menu commits another offset and the submenu stays where it was |
| PopupRuns.LeafCommitKeeps | src/xdg.c:1080-1164 | mapping or committing a popup that no mapped popup hangs on puts it in position and disturbs no other |
| PopupRuns.PassPositions | src/xdg.c:1167-1194 | a pass positions its window and leaves the popups of other windows in position |
| PopupWindows.WindowOnScreen | src/xdg.c:1080-1153 | a positioned popup has a window at its place, as large as its buffer in host pixels, width for width and height for height (unscaling gives the buffer back for scales >= 1), or as its surface without a buffer; the cache says the same |
| PopupWindows.WindowsAgreeWithCaches | src/xdg.c:1080-1247 | in every run a window belongs to a mapped popup, is not empty and is where the valid cache says; a pass moves the window of every shown popup to its target |
| PopupWindows.PassMovesWindows | src/xdg.c:1167-1194 | after a pass the window of a shown popup is at its target with the size of its surface; no window appears or goes |
| PopupWindows.PassTight | src/xdg.c:1167-1194 | a pass creates and destroys no window and at most refreshes the cache of a popup that is not mapped |
| PopupWindows.PassKeepsSizeExactly | src/xdg.c:1167-1194 | a pass keeps the size a commit gave the window if and only if buffer and surface are equal once scaled |
| PopupWindows.PassResizesWitness | src/xdg.c:1138-1142 | a menu with a 200x400 buffer on a 100x200 surface gets a 200x400 window, and a 100x200 one after a pass |
| PopupWindows.PlacedExactly | src/xdg.c:1000-1060 | a popup can be placed if and only if it has a size and its toplevel, or its parent once refreshed, can say where it is |
| PopupWindows.UnscaledTarget | src/xdg.c:1000-1072 | without scaling a popup belongs at the sum of the positions along its chain from the corner of the surface |
| PopupWindows.RefreshedIsPlaced | src/xdg.c:640-689 | refreshing a cache without a window places the popup as if it hung on the toplevel, which is right for one that does |
| PopupWindows.RefreshedIsValidExactly | src/xdg.c:640-689 | when such a refresh makes the cache valid |
| PopupWindows.RefreshedFromWindow | src/xdg.c:646-651 | a refresh with a window takes its geometry, valid unless empty |
| PopupWindows.UnmapForgets | src/xdg.c:1232-1241 | an unmapped popup has no window, and a popup on it that asks for its place refreshes its cache first |
| PopupWindows.FailedWindow | src/xdg.c:1104-1127 | when no window can be made the cache is refreshed and right for a child of the toplevel |
| Popups.PopupList.CommitPopup | src/xdg.c:1371-1393 | one commit as a change of the list |
| Popups.PopupList.PositionAndMapPopup | src/xdg.c:1080-1153 | the caches and the present-window after positioning, creation failure included; where the window is and how large is PopupWindows.WindowOnScreen |
| Popups.PopupList.UnmapPopup | src/xdg.c:1232-1241 | the cache is invalid and the present-window gone, nothing else changes |
| Popups.PopupList.RepositionForWindow | src/xdg.c:1167-1194 | the loop over the list achieves that placement |
| Popups.PopupList.ComputePlacement | src/xdg.c:1000-1077 | the placement of one popup, refreshing a stale parent cache on the way |
| Subpresent.PromotesExactly | src/subpresent.c:366-445 | after a sync the promoted surfaces of a shown window are exactly its mapped, non-empty, overflowing subsurfaces, each with one entry; other windows are untouched |
| Subpresent.SecondSyncChangesNothing | src/subpresent.c:407-445 | a second sync changes nothing |
| Subpresent.RunsKeepSound | src/subpresent.c:98-445 | in every run each surface has at most one entry, and a scene copy that is off always has a present-window in its place |
| Subpresent.StepKeepsExactly | src/subpresent.c:98-445 | an event keeps every copy off exactly when a present-window stands in for it, if and only if it is not one of the exposing events: a commit of a promoted surface that is unmapped, empty or cannot be placed, a sync of a window whose position cannot be asked that finds such a copy on, or a promoted surface coming back to its window |
| Subpresent.RunsKeepInv | src/subpresent.c:98-445 | in every run without exposing events a copy is off if and only if its surface is tracked there with a present-window |
| Subpresent.CommitExactly | subprojects/wlroots/types/scene/subsurface_tree.c:157-164 | a commit, the switching on by the scene included, leaves the copy right if and only if the surface is not promoted there or is mapped, not empty and its window's position can be asked; nothing else changes |
| Subpresent.SyncRestoresExactly | src/subpresent.c:407-445 | a sync puts every copy of its window right, whatever was wrong, unless and only unless the position of a shown window cannot be asked and some promoted surface had its copy on |
| Subpresent.SyncSparesOthers | src/subpresent.c:407-445 | a sync leaves the copies of other windows as right as they were |
| Subpresent.SyncRestoresAfterAnyRun | src/subpresent.c:407-445 | after any run the next sync of a window whose position can be asked puts its copies right |
| Subpresent.SyncKeepsExactly | src/subpresent.c:407-445 | from a state where all copies are right a sync keeps them so if and only if it exposes none |
| Subpresent.UnmapExposesWitness | src/subpresent.c:245-253 | a reachable state with a promoted menu whose copy is off, and the commit that unmaps it: the copy is on beside the present-window |
| Subpresent.SweepKeeps | src/subpresent.c:426-443 | the demotion loop removes exactly the entries of the window that no longer overflow and re-enables exactly their copies in its scene |
| SubpresentWindows.OverflowsExactly | src/subpresent.c:366-386 | a surface is promoted if and only if it is a mapped subsurface with a pixel the root surface has no room for |
| SubpresentWindows.PromotedOnScreen | src/subpresent.c:127-200 | after a sync every overflowing surface has a window on the screen, at its scaled distance from what the content window shows, as large as the scaled surface or the unscaled buffer, unless none could be made |
| SubpresentWindows.CommittedOnScreen | src/subpresent.c:245-290 | a commit of a promoted surface puts its window there |
| SubpresentWindows.LostShowsCopy | src/subpresent.c:98-109 | when a present-window goes its entry stays without one and the copy is on; nothing else changes |
| SubpresentWindows.WindowGoneExactly | src/subpresent.c:447-457 | when a toplevel goes exactly its entries go and their copies are on |
| SubpresentList.PromotionList.SyncFor | src/subpresent.c:407-445 | the two loops achieve that sync |
| SubpresentList.PromotionList.SyncIterator | src/subpresent.c:366-405 | one surface of the pass |
| SubpresentList.PromotionList.Demote | src/subpresent.c:426-444 | the walk that may remove the entry it stands on |
| SubpresentList.PromotionList.GetOrCreate | src/subpresent.c:327-355 | the entry of the surface, moved to this window and offset, or a new one at the head |
| SubpresentList.PromotionList.PositionAndPresent | src/subpresent.c:245-282 | places the entry and disables the scene copy, or changes nothing |
| SubpresentList.SyncContext.Push | src/subpresent.c:388-398 | appends to the array that doubles from 8 |
| SubpresentList.PromotionList.HandlePresentDestroy | src/subpresent.c:98-109 | the scene copy comes back when the present-window goes |
| SubpresentList.PromotionList.HandleCommit | src/subpresent.c:284-290 | a commit: the scene switches the copy on, then the entry is positioned |
| SubpresentList.PromotionList.HandleSurfaceDestroy | src/subpresent.c:292-298 | the entry of a destroyed surface and its copy go |
| SubpresentList.PromotionList.SetSceneEnabled | src/subpresent.c:56-83 | switches the copy in the tree of the entry's window, if there is one |
| SubpresentList.PromotionList.EnterTree | subprojects/wlroots/types/scene/subsurface_tree.c:203-255 | a surface that joins a tree gets a fresh, enabled copy |
| SubpresentList.PromotionList.LeaveTree | subprojects/wlroots/types/scene/subsurface_tree.c:166-171 | when its subsurface goes, so does the copy, with its state |

## Left out

- Painting: held frames, stretching, scene placement and content scale of buffers.
- Window-manager size hints and everything else that only sets X11 properties.
- XCB requests and replies, atoms, logging, MIME type selection; whether the X connection is up when a clipboard text is published.
- Allocation failure, except in composition and the merger, where the failure paths carry the ownership property.
- Transfer curves, profile transforms and table interpolation: parameters of the evaluation.
- Floating-point rounding: scales, colours and matrices are real numbers.
- 16-bit wrap-around of drag coordinates; popups and subsurface windows do wrap.
- Widths and heights that the source keeps in two fields are one Size field of the window record.
- Pruning of fences in a merged sync file: a merge is the union of the fences.
- The xdg-shell handshake beyond acknowledged state: serials, minimum and maximum sizes.
- Rendering and presenting popups and subsurfaces, pointer hit tests, pointer grabs, popup unconstraining.
- Failing to create the scene tree of a popup.
- The enabled flag of a whole subsurface tree, which follows the mapping of its surface: the model has the flag of the copy in it.
- Present-windows of popups destroyed by the X server, and popup positions while a toplevel is torn down.
- Repositioning promoted subsurfaces after a move of the parent: the same step as a commit of each.
- Destroying a swapchain and the buffer locks it holds; buffer ages.
- Drag and drop, keyboard, seat, cursors, decorations and titles.
- Colour management and representation protocols, pixel format tables.
- ColorHeap.Heap.Destroy: the record leaves memory before its parts are given up, while the source frees it after them; nothing refers to it any more, so no call can see the difference.
- ColorHeap.Heap.Compose: says nothing about memory after a failed assertion, which ends the process.
- Reentrancy.ReentrantFit: for scales below 1 or preferred sizes replaced by the defaults only the general effect of a fit is stated, in Authority.FitEffect.
- Popups.PopupList.Destroy: a popup is destroyed only when no popup hangs on it any more, as the xdg-shell protocol demands of clients.
- Settling.NegotiationSettles: the client's shadow margin is constant; clients that change it are covered by FitGuard.NoFastOscillation and ConfigureRate.ConfigureRateBound only.
