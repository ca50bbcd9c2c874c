# Portfolio physics and messages core, in Dafny

This project models the sequential logic of a personal portfolio web
application:

- the per-user fixed-window **rate limiter** of the message listing and the
  order in which the listing's `GET` handler checks authentication, the
  limiter and the database (`RateLimit`, `MessagesRoute`);
- the **falling-letter title**: letter rest positions, the hover / wheel /
  timer / resize events, the effect that adds and removes letter bodies, the
  pointer hit-test and what is drawn (`LetterLayout`, `LetterScene`);
- the **cursor follower**: one animation frame of the blob that trails the
  pointer or is pulled to a hovered navigation target, and the shared hover
  slot that drives it (`BlobFollower`, `BlobHover`);
- the **responsive layout arithmetic** of the projects canvas and of the
  ball-pit scenes (`ProjectsLayout`, `NavLayout`).

`Common` holds the shared `Option`, `Result`, `Point`, `Viewport` and `Box`
types. Browser numbers are modelled as `real` and millisecond timestamps as
`int`. The physics engine is not modelled: a letter body is a position in one
of two maps (static or dynamic) keyed by letter index. Every React state
change is followed by the body-sync effect, so a scene step is
`Sync(Apply(s, e))`. The 700 ms `setTimeout` becomes an explicit deadline
`resetAt` that a `TimerCheck(now)` event fires.

Behaviour of the code worth knowing:

- A resize recomputes the rest positions but does not move the static bodies
  of resting letters. Only returning letters get a body at the new position,
  when the next sync recreates them. The model does the same and claims no
  relayout guarantee.
- A returning letter gets its static body back at the sync right after the
  wheel gesture, not after 700 ms. The timer only empties the two lists.
- The wheel effect depends on `fallenLetters`. A hover that makes a letter
  fall re-runs it, and its cleanup cancels a pending reset timer. The
  returning letters then stay returning until the next gesture
  (`LetterScene.HoverCancelsReset`).
- The message listing has no 400 path. A missing or empty session email gives
  401, and any thrown error gives a fixed 500.

## Model

| member | source | states |
|---|---|---|
| RateLimit.CheckRateLimit | src/app/api/messages/route.ts:11-29 | admitted iff the entry is absent, its window has ended (strictly after resetTime), or count < 30; a new window is {1, now + 60000}; inside a window, the end instant included, the window is kept and an admitted call adds exactly 1; a refused call leaves the store unchanged; no other identifier is touched |
| RateLimit.CheckPreservesBounds | src/app/api/messages/route.ts:9-29 | every stored count stays within 1..30 across calls |
| RateLimit.WindowAdmitsUpToCap | src/app/api/messages/route.ts:15-28 | inside one window exactly min(calls, 30 - count) calls are admitted, and the count rises by that many |
| RateLimit.FreshWindowCap | src/app/api/messages/route.ts:8-28 | a window opened at t0 admits at most 30 calls up to t0 + 60000, exactly min(calls, 30) |
| RateLimit.ReplayFramesOthers | src/app/api/messages/route.ts:13-27 | any run of calls for one identifier leaves every other identifier's entry as it was |
| MessagesRoute.Get | src/app/api/messages/route.ts:31-70 | a thrown session lookup is 500 and a missing or empty email is 401, both before the limiter, which stays untouched; a signed-in request gets 429 exactly when the limiter refuses; 200 only for an admitted request whose query succeeded, with its rows and `private, no-store`; a failed query is the generic 500 |
| MessagesRoute.FailureHidesDetail | src/app/api/messages/route.ts:62-69 | two requests that differ only in the thrown error detail get identical responses |
| MessagesRoute.UnauthenticatedLeavesLimiter | src/app/api/messages/route.ts:35-40 | an unauthenticated request changes nothing that a later request could observe |
| BlobHover.Initial | src/app/components/BlobHoverContext.tsx:29-33 | nothing hovered, empty label, no target |
| BlobHover.SetHovered | src/app/components/BlobHoverContext.tsx:35-43 | hovered becomes h whatever else is passed; the label is empty exactly when it was missing or empty, otherwise it is the text passed; the target is the position passed, or none |
| BlobHover.LastCallWins | src/app/components/BlobHoverContext.tsx:35-43 | the result of a call does not depend on the state it replaces, so nothing of an earlier hover survives |
| BlobHover.UnhoverResets | src/app/components/BlobHoverContext.tsx:29-43 | `setHovered(false)` returns the slot to its initial state |
| BlobHover.UseBlobHover | src/app/components/BlobHoverContext.tsx:19-24 | reading outside a provider is an error with the fixed message, and inside one it returns the slot |
| BlobFollower.Initial | src/app/components/BlobFollower.tsx:9-18 | the pointer sample and the blob start together at the viewport centre, unscaled |
| BlobFollower.InitialIsAtRest | src/app/components/BlobFollower.tsx:9-18 | an idle frame before the pointer moves keeps the mounted blob at the viewport centre, unscaled and round |
| BlobFollower.SlotDecidesMode | src/app/components/BlobFollower.tsx:36-40 | the follower is magnetised exactly when the last hover call set hover and passed a position; hover without a position follows the pointer |
| BlobFollower.Approach | src/app/components/BlobFollower.tsx:48-55 | one filter step lands between the old coordinate and the goal, and the remaining gap is (1 - gain) times the old one |
| BlobFollower.Animate | src/app/components/BlobFollower.tsx:34-68 | no overshoot, and the gap shrinks to 0.82 (magnetised) or 0.85 (idle) of itself; magnetised stretch is in [1, 1.7] and the idle scale is kept; idle scale is in [1, 1.5], horizontal stretch in [1, 1.35], vertical stretch = 2 - scale in [0.5, 1] |
| BlobFollower.AtRestIsRound | src/app/components/BlobFollower.tsx:50-59 | an idle blob already on the pointer stays put and is drawn unscaled and round |
| BlobFollower.StretchSaturates | src/app/components/BlobFollower.tsx:46-47 | at 56 pixels or more from the target along x the magnetic stretch is exactly the 1.7 cap |
| BlobFollower.RunFollowsFilter | src/app/components/BlobFollower.tsx:34-69 | a run of frames with fixed inputs moves each coordinate exactly as n steps of the filter, whatever the speed samples |
| BlobFollower.ApproachGap | src/app/components/BlobFollower.tsx:48-55 | after n steps the gap is (1 - gain)^n of the first, and the coordinate never passes the goal |
| BlobFollower.Converges | src/app/components/BlobFollower.tsx:48-55 | an explicit frame count that suffices: once n * gain * eps reaches the first gap, n frames bring the coordinate within eps of the goal (a simple sufficient bound, far from tight; the exact rate is the one in ApproachGap) |
| LetterLayout.LetterPositions | src/app/components/Physics.tsx:19-29 | no positions without a window; otherwise one per letter, all at height/3, neighbours exactly 64 apart, and the block of width count * 64 centred on width/2 |
| LetterLayout.LettersSitLeftOfCentre | src/app/components/Physics.tsx:22-26 | the block includes the trailing spacing, so the midpoint of the first and last letter centres is width/2 - 16 |
| LetterLayout.Pushed | src/app/components/Physics.tsx:231-240 | a body is pushed iff it is a dynamic letter body with the pointer strictly within 16 horizontally and 24 vertically of its centre |
| LetterLayout.EdgeDoesNotPush | src/app/components/Physics.tsx:235-239 | a pointer exactly on any of the four edges of a letter's box does not push it (open intervals) |
| LetterScene.Init | src/app/components/Physics.tsx:212-229 | after mount the rest positions are the layout of the current window, every letter, and only a letter, has a static body at its rest position, there is no dynamic body, nothing is fallen or returning and no reset is armed |
| LetterScene.OnHover | src/app/components/Physics.tsx:396-405 | hovering i appends {i, position i} and disarms a pending reset exactly when i has a position and is neither fallen nor returning; otherwise nothing changes |
| LetterScene.OnWheel | src/app/components/Physics.tsx:359-377 | no-op with nothing fallen; otherwise the fallen letters lose their dynamic bodies, returning becomes exactly their indexes, and the deadline is now + 700 |
| LetterScene.OnTimer | src/app/components/Physics.tsx:373-376 | once the deadline has passed both lists are emptied; before it nothing changes |
| LetterScene.OnResize | src/app/components/Physics.tsx:137-145 | a resize replaces the rest positions with the layout of the new window, same count, and changes nothing else |
| LetterScene.SyncFallen | src/app/components/Physics.tsx:289-320 | fallen letters lose their static bodies; those not returning gain a dynamic body unless they have one, at the position they fell from; existing bodies keep their positions |
| LetterScene.SyncReturning | src/app/components/Physics.tsx:322-352 | returning letters lose their dynamic bodies and get a static body at their current rest position; other bodies are kept |
| LetterScene.Sync | src/app/components/Physics.tsx:286-353 | after a sync a fallen, non-returning letter has a dynamic and no static body; a returning one has no dynamic body and a static one at the current position, not where it fell; other letters keep their bodies |
| LetterScene.InitGood | src/app/components/Physics.tsx:213-225 | the all-static mounted scene satisfies the scene invariant |
| LetterScene.StepKeepsGood | src/app/components/Physics.tsx:286-405 | every event followed by the sync preserves the invariant: distinct in-range fallen letters, returning a prefix of them (all of them while the timer is armed), and bodies consistent with the lists |
| LetterScene.ReachableGood | src/app/components/Physics.tsx:286-405 | the invariant holds after any sequence of events |
| LetterScene.OneBodyPerLetter | src/app/components/Physics.tsx:290-352 | in every reachable scene each letter has exactly one body, static or dynamic |
| LetterScene.RegistryDisjoint | src/app/components/Physics.tsx:290-352 | no letter index is in both the static and the dynamic map |
| LetterScene.SyncSettled | src/app/components/Physics.tsx:286-353 | re-running the sync on a consistent scene changes nothing |
| LetterScene.IdleWheelIsNoOp | src/app/components/Physics.tsx:359-360 | a gesture with nothing fallen leaves the scene unchanged |
| LetterScene.WheelReturnsFallen | src/app/components/Physics.tsx:359-376 | after a gesture all fallen letters are returning, none has a dynamic body, each is anchored at its current rest position, and the timer is due in 700 ms |
| LetterScene.WheelRestartsTimer | src/app/components/Physics.tsx:372-376 | a second gesture only moves the deadline to its own time + 700 |
| LetterScene.TimerWaits | src/app/components/Physics.tsx:373-376 | before the deadline a timer check changes nothing |
| LetterScene.TimerResets | src/app/components/Physics.tsx:373-376 | when the timer fires both lists are empty, no dynamic body is left, every letter has a static body, and returned letters sit at their current rest positions |
| LetterScene.HoverCancelsReset | src/app/components/Physics.tsx:386-393 | a letter falling while a reset is pending disarms the timer and leaves the returning list as it was |
| LetterScene.HoverNoDuplicates | src/app/components/Physics.tsx:396-405 | a hover adds at most one entry and never a duplicate index |
| LetterScene.HoverReleases | src/app/components/Physics.tsx:299-319 | after a hover and sync the letter has a dynamic body at its rest position and no static body |
| LetterScene.OnlyFreeLettersPushed | src/app/components/Physics.tsx:234-240 | only fallen, non-returning letters are pushed; a letter on a static body never is |
| LetterScene.Overlay | src/app/components/Physics.tsx:47-66 | one style per letter; a letter is hidden and ignores the pointer iff it is fallen and not returning, and it is highlighted iff it is returning |
| LetterScene.FallingLayer | src/app/components/Physics.tsx:94-96 | the falling layer holds exactly the fallen letters that are not returning |
| LetterScene.FallingLayerNoDup | src/app/components/Physics.tsx:94-96 | with distinct fallen letters, the falling layer has no duplicates |
| LetterScene.DrawnOnce | src/app/components/Physics.tsx:49-96 | each letter is drawn exactly once, in the overlay or once in the falling layer |
| LetterScene.HiddenLetterIgnoresHover | src/app/components/Physics.tsx:65-66 | hovering a hidden letter does nothing |
| ProjectsLayout.ResponsiveSizes | src/app/components/projectsPhysics.tsx:21-41 | below width 600 each size is the larger of a share of the canvas and the mobile floor (120, 60, 120, 32, 40); from 600 up, of the desktop floor (1200, 800, 500, 60, 100) |
| ProjectsLayout.SizesMonotone | src/app/components/projectsPhysics.tsx:24-40 | within one mode a larger canvas never gets a smaller size |
| ProjectsLayout.RectWidthMonotone | src/app/components/projectsPhysics.tsx:25-27 | the rectangle width is non-decreasing in width even across the breakpoint |
| ProjectsLayout.StandWidthDropsAtBreakpoint | src/app/components/projectsPhysics.tsx:31-33 | the stand width is not monotone: it drops from 509.15 at width 599 to 500 at width 600 |
| ProjectsLayout.CanvasSize | src/app/components/projectsPhysics.tsx:45-69 | 1200 x 800 without a window; otherwise the window width, with the height capped at 300 on mobile and the window height on desktop |
| ProjectsLayout.Place | src/app/components/projectsPhysics.tsx:111-132 | the rectangle starts centred at width/2 and height rectY; the stand is centred, and its bottom edge lies on the canvas bottom |
| ProjectsLayout.DesktopRectOverflows | src/app/components/projectsPhysics.tsx:25-27 | on a desktop window narrower than 1200 the rectangle is wider than the canvas |
| ProjectsLayout.MobileCanvasBounds | src/app/components/projectsPhysics.tsx:62-69 | on mobile the canvas is at most 300 high and the stand at least 32 high |
| NavLayout.GetBallConfig | src/app/components/PhysicsNav.tsx:8-13 | radius 35 and 5 balls exactly when a window narrower than 600 exists, otherwise radius 70 and 10 balls |
| NavLayout.SpawnGap | src/app/components/PhysicsNav.tsx:58-59 | the spawn gap is 30 on mobile and 60 otherwise, positive in both |
| NavLayout.BreakpointAgrees | src/app/components/PhysicsNav.tsx:8-13 | ball size and spawn gap switch at the same width: radius 35 exactly when the gap is 30, exactly when the window is narrower than 600 |
| NavLayout.SceneBounds | src/app/components/PhysicsNav.tsx:42-70 | the walls are full height and flush with the left and right sides; the ground spans the full width and the bottom 60 pixels |
| NavLayout.SpawnInsideWalls | src/app/components/PhysicsNav.tsx:42-67 | when a ball is wider than a wall and the window has room, every spawned centre lies strictly between the inner faces of the two walls |
| NavLayout.SpawnX | src/app/components/PhysicsNav.tsx:62 | for a sample in [0, 1), x lies in [R, width - R) when the window is wider than 2R |
| NavLayout.SpawnBalls | src/app/components/PhysicsNav.tsx:58-67 | one ball per sample with the configured radius; x within the walls' room; y = height/4 - i * gap, each ball exactly one gap above the previous one |
| NavLayout.SpawnHeightsDecrease | src/app/components/PhysicsNav.tsx:63 | with a positive gap the spawn y is strictly decreasing in the ball index |
| NavLayout.NavBalls | src/app/components/PhysicsNav.tsx:24-67 | 5 balls of radius 35 on mobile, 10 of radius 70 otherwise |
| NavLayout.TitleSceneBalls | src/app/components/Physics.tsx:201-209 | the title scene spawns 8 balls of radius 40, x within [40, width - 40) when the window has room, y = height/4 - i * 60 |

## Left out

- The matter-js engine: integration, gravity, collisions, `Render`, `Runner` and `MouseConstraint` dragging. A body is only an index and a position. The positions in the dynamic map stand for wherever the engine has moved the bodies.
- The force direction and the random spin applied in the pointer handler. They use `atan2`, `cos`, `sin` and `Math.random`, so only the hit-test is modelled.
- `requestAnimationFrame` loops, listener registration and teardown, and the per-frame copy of body positions into the DOM. These are lifecycle and rendering, not state logic. The follower's frame loop is never cancelled. That is a lifecycle defect that is not modelled.
- Interleaving of events. The model handles events one at a time, each against the state the previous one produced, with the sync in between. In the browser the hover handler tests the rendered `fallenLetters` but appends to the updater's latest list (`src/app/components/Physics.tsx:396-405`). Two `mouseenter` events for one letter handled before a re-render could therefore append it twice. That stale-closure race is not modelled, and `LetterScene.HoverNoDuplicates` and `LetterScene.StepKeepsGood` hold only for serialised events.
- `setTimeout`: modelled as the `resetAt` deadline and `TimerCheck` events.
- The sync effect's guard for a missing engine, and the rebuild of the physics world when the number of positions changes. The model starts right after mount, and the letter count never changes.
- Moving resting letters' static bodies on resize. The code does not do it, so no relayout property is claimed.
- BlobFollower.Animate: takes `speed` as any non-negative real instead of computing `Math.sqrt(dx*dx + dy*dy)`. The idle bounds therefore hold for every speed.
- Floating-point rounding. Browser numbers are modelled as exact reals, and millisecond timestamps as unbounded integers.
- The session lookup (`getServerSession`), the Prisma query and its newest-first ordering, and the error logging. The lookup and query outcomes are parameters of `MessagesRoute.Get`. `Date.now()` is the `now` parameter.
- The contact form route, the database client, the dashboard, the demo physics component, and the presentational pages and components (animation, styling, labels, colours). None of them has state logic in scope.
- The projects canvas's Pixi rendering, texture loading, scroll workaround and mouse constraint (`projectsPhysics.tsx` from line 170 on). These are rendering and input plumbing.
