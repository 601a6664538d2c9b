# Portfolio snake: a Dafny model of the game core

This project models the core of a portfolio website that is dressed up as a retro snake game. The player steers a snake across a canvas. Eating NORMAL food makes the snake grow and adds to the score. Every fifth NORMAL food is replaced by a SPECIAL orb. Eating an orb opens a popup with the next portfolio section.

Five modules follow the source files:

- `Types` (`types.ts`) holds the value types: `Point`, `GameState`, `FoodType` and `Food`.
- `Constants` (`constants.tsx`) holds the game-mechanics constants and the number of portfolio sections.
- `GameUtils` (`utils/gameUtils.ts`) covers:
  - squared distances;
  - random placement inside an inset rectangle;
  - the follow-the-leader movement of the body, as a specification function `Resolve` and as the loop `ResolveSnakeMovement` proved equal to it;
  - the self-collision scan with its grace window.
- `Canvas` (`components/SnakeCanvas.tsx`) is one play session. The class `SnakeCanvas` holds the component's mutable references as fields and has one method per operation: direction buffer, `initGame`, `spawnFood`, `createParticles`, the particle pass, the resize rule, and a frame `Tick`. The pure function `Update` specifies a frame. `Tick` is proved to compute it, and lemmas state what a frame does.
- `Shell` (`App.tsx`) is the screen state machine: MENU, PLAYING, POPUP and GAME_OVER. It also holds the score, the eaten-food count, the section index and the game id. Its invariant ties the score and the eaten-food count to the canvas counter.

Coordinates and particle life are mathematical reals. The platform square root is a parameter `root` constrained by `IsSqrt`. The pull of a stretched segment, written with `atan2`, `cos` and `sin` in the source, is the same point as `prev + (12 / |curr - prev|) * (curr - prev)`. All distance tests compare squared distances. `DistanceComparison` proves that this gives the same answers as comparing square roots. Random draws and the clock arrive in a `Roll`: two placement factors in [0, 1), a food id, and the velocity of each particle of a burst.

The game has no ending of its own. Closing the last section's popup wraps the section index to 0 and play resumes (`App.tsx:38`). The program only hints at an ending: the "END" label drawn over the last section's orb (`components/SnakeCanvas.tsx:247-253`) and the popup's 'ALL DATA RECOVERED' line (`components/PortfolioPopup.tsx:32`). GAME_OVER is reached only by a self collision (`components/SnakeCanvas.tsx:166-167`).

Counter timing: the canvas raises its food counter inside a React state updater (`components/SnakeCanvas.tsx:189-193`). That updater runs after the frame, so the test at line 198 sees the count from before the pickup. The model therefore makes the replacement SPECIAL exactly when `(counterBefore + 1) % 5 == 0` (`ReplacementKind`).

## Model

| member | source | states |
|---|---|---|
| GameUtils.Distance | utils/gameUtils.ts:4-8 | the distance is non-negative and its square is the squared distance |
| GameUtils.DistanceComparison | utils/gameUtils.ts:4-8 | a distance is below (above) a non-negative bound iff the squared distance is below (above) the squared bound, so every sqrt test can be made on squares |
| GameUtils.RandomPosition | utils/gameUtils.ts:16-21 | for draws in [0,1) the point lies in [padding, size - padding] on each axis, strictly below the far bound when the rectangle is not empty |
| GameUtils.RandomPositionReaches | utils/gameUtils.ts:16-21 | every point of the inset rectangle is produced by some pair of draws in [0,1) |
| GameUtils.Pull | utils/gameUtils.ts:47-53 | the pulled segment is at exactly SEGMENT_DISTANCE from its predecessor, on the ray from the predecessor through the old position |
| GameUtils.Link | utils/gameUtils.ts:41-53 | a segment within SEGMENT_DISTANCE of its moved predecessor stays where it was; a farther one is pulled; either way it ends within SEGMENT_DISTANCE |
| GameUtils.Resolve | utils/gameUtils.ts:29-56 | same length as the input; head = old head + direction * speed; each later segment is linked to its already-updated predecessor, in order |
| GameUtils.ResolvedPrefixLinks | utils/gameUtils.ts:40-54 | the walk over the first n segments moves the head and links every later segment to the one before it |
| GameUtils.FollowChainUnique | utils/gameUtils.ts:29-56 | the sequential walk is deterministic: any chain that satisfies the head rule and the link rule equals Resolve |
| GameUtils.ResolveLinks | utils/gameUtils.ts:40-54 | after a move every consecutive pair is at most SEGMENT_DISTANCE apart; a segment within reach is unchanged; a pulled one is at exactly SEGMENT_DISTANCE on the ray |
| GameUtils.ResolveSnakeMovement | utils/gameUtils.ts:29-56 | the copy-and-overwrite loop returns exactly Resolve of the input |
| GameUtils.CheckSelfCollision | utils/gameUtils.ts:59-71 | true iff the snake is longer than the grace period and some segment at index >= gracePeriod is closer than SEGMENT_DISTANCE/2 to the head; always false when length <= gracePeriod |
| GameUtils.NeckIgnored | utils/gameUtils.ts:62-70 | segments 1 .. gracePeriod-1 never affect the collision result |
| Canvas.Steer | components/SnakeCanvas.tsx:57-62 | a request changes the buffered direction only along an axis on which the committed direction is 0; the result is the old buffer or an axis-aligned vector perpendicular to the committed direction; an accepted vertical request gives (0,y), an accepted horizontal one gives (x,0) unless a vertical one is also accepted, which wins |
| Canvas.SteerKeepsDirectionsOk | components/SnakeCanvas.tsx:57-62 | a request keeps the buffer equal or perpendicular to the committed direction |
| Canvas.NeverReverse | components/SnakeCanvas.tsx:57-62 | the buffered direction is never the reverse of the committed one and has no component against it |
| Canvas.SnakeCanvas.SetDirection | components/SnakeCanvas.tsx:56-63 | writes only the buffered direction, by the rule of Steer, and keeps the session invariant |
| Canvas.SnakeCanvas.HandleKey | components/SnakeCanvas.tsx:112-131 | ignored unless PLAYING; otherwise the same as setDirection with the key's unit vector; writes only the buffer |
| Canvas.InitialSnake | components/SnakeCanvas.tsx:70-77 | INITIAL_LENGTH points on the centre line, head at the centre, each SEGMENT_DISTANCE to the left of the previous one |
| Canvas.InitialSession | components/SnakeCanvas.tsx:66-86 | a fresh session: INITIAL_LENGTH segments with the head at the canvas centre, direction and buffer (1,0), a single NORMAL food carrying the roll's id, counter 0, no particles |
| Canvas.InitialSessionOk | components/SnakeCanvas.tsx:66-86 | the initial session meets the invariant and its only food is NORMAL |
| Canvas.SnakeCanvas.InitGame | components/SnakeCanvas.tsx:66-86 | the session becomes the initial one: centred snake, direction and buffer (1,0), one NORMAL food, counter 0, no particles |
| Canvas.Spawned | components/SnakeCanvas.tsx:88-96 | the food has the requested kind and lies at least 50 inside every edge when the canvas is wide and tall enough |
| Canvas.SnakeCanvas.SpawnFood | components/SnakeCanvas.tsx:88-96 | appends exactly one food, the spawned one |
| Canvas.Burst | components/SnakeCanvas.tsx:98-108 | exactly 8 particles, all at the given position with life 1.0 |
| Canvas.SnakeCanvas.CreateParticles | components/SnakeCanvas.tsx:98-108 | the loop appends the burst to the particle list |
| Canvas.Survivors | components/SnakeCanvas.tsx:219-232 | the pass never adds particles and leaves only particles with positive life |
| Canvas.SurvivorsAppend | components/SnakeCanvas.tsx:219-232 | the pass treats each particle on its own, so it distributes over concatenation and keeps order |
| Canvas.SurvivorsExactly | components/SnakeCanvas.tsx:219-232 | a particle survives iff it is an advanced input particle (moved by its velocity, life - 0.05) with positive life |
| Canvas.SurvivorsKeepLively | components/SnakeCanvas.tsx:219-232 | particles with more than 0.05 life all survive, advanced, in order |
| Canvas.SnakeCanvas.UpdateParticles | components/SnakeCanvas.tsx:219-232 | the backward loop with in-place splice leaves exactly Survivors of the old list |
| Canvas.BurstAgesWhole | components/SnakeCanvas.tsx:219-232 | a fresh burst appended to the list survives its first pass whole, each particle advanced once |
| Canvas.EatenIndex | components/SnakeCanvas.tsx:172-176 | -1 iff no food is within its capture radius (26 for SPECIAL, 18 for NORMAL); otherwise the first such food in list order |
| Canvas.SpecialEveryFifth | components/SnakeCanvas.tsx:198-202 | among the first n NORMAL pickups exactly n/5 are replaced by a SPECIAL orb: the 5th, 10th, ... |
| Canvas.ReplacementKind | components/SnakeCanvas.tsx:198-202 | the replacement of a NORMAL food is SPECIAL exactly when the count after this pickup is a multiple of FOOD_TO_TRIGGER_SPECIAL; the first four pickups bring NORMAL food, the fifth a SPECIAL orb |
| Canvas.Wrap | components/SnakeCanvas.tsx:159-163 | the head ends in [0,width] x [0,height]; a coordinate below 0 goes to the far edge, one beyond the edge goes to 0, one inside stays |
| Canvas.Moved | components/SnakeCanvas.tsx:151-163 | the moved snake keeps its length, and its head is the advanced head wrapped into [0,width] x [0,height] |
| Canvas.Feed | components/SnakeCanvas.tsx:171-204 | the food step never ends the game and leaves the directions alone; it is quiet exactly when no food is in reach, and then changes nothing; only a NORMAL pickup grows the snake, by one |
| Canvas.Play | components/SnakeCanvas.tsx:144-169 | a PLAYING frame's gameplay commits the buffered direction; it signals game over exactly when the moved snake collides with itself, and then leaves foods and particles alone |
| Canvas.Update | components/SnakeCanvas.tsx:144-232 | outside PLAYING a frame signals nothing; unless it ends the game, every particle left after it is alive |
| Canvas.UpdateFrozenUnlessPlaying | components/SnakeCanvas.tsx:144-232 | outside PLAYING a frame leaves snake, directions, foods and counter alone, signals nothing, and only ages the particles |
| Canvas.UpdateKeepsInvariant | components/SnakeCanvas.tsx:144-232 | every frame keeps: snake at least INITIAL_LENGTH long, exactly one food, consistent direction buffer, only live particles |
| Canvas.UpdateCommitsDirection | components/SnakeCanvas.tsx:145-146 | a PLAYING frame commits the buffered direction, which is never the reverse of the previous committed one |
| Canvas.UpdateWrapsHead | components/SnakeCanvas.tsx:158-163 | after a PLAYING frame the head is inside the canvas |
| Canvas.UpdateKeepsChain | components/SnakeCanvas.tsx:151-163 | after a PLAYING frame no two consecutive body segments are more than SEGMENT_DISTANCE apart, and the head too unless the wrap moved it |
| Canvas.FeedShape | components/SnakeCanvas.tsx:171-204 | the food step never ends the game and keeps the number of foods; it is quiet exactly when no food is in reach, and then changes nothing; otherwise the first food in reach is replaced by one spawned food (NORMAL after a special, the counted kind after a normal), its burst is appended, and only a normal food grows the snake by its tail and advances the counter |
| Canvas.PlayedSnake | components/SnakeCanvas.tsx:152-196 | a PLAYING frame ends with the moved and wrapped snake, possibly grown by one copy of its tail |
| Canvas.UpdateCollision | components/SnakeCanvas.tsx:165-169 | the frame signals game over iff PLAYING and the moved snake collides; then only the snake and the committed direction change: no food examined, particles not aged |
| Canvas.UpdateEatsFirstInReach | components/SnakeCanvas.tsx:171-202 | at most one food is eaten, the first in reach; it is removed and one replacement is appended, so the food count is unchanged; nothing in reach means nothing eaten |
| Canvas.UpdateNormalPickup | components/SnakeCanvas.tsx:187-202 | NORMAL pickup: the snake grows by a copy of its moved tail, the counter rises by one, the replacement is SPECIAL iff the new count is a multiple of 5, and 8 particles appear at the food |
| Canvas.UpdateSpecialPickup | components/SnakeCanvas.tsx:184-186 | SPECIAL pickup: no growth, counter unchanged, NORMAL replacement, 8 particles at the orb |
| Canvas.UpdateCounts | components/SnakeCanvas.tsx:184-193 | only a NORMAL pickup raises the counter, by one; any signal comes from a PLAYING frame |
| Canvas.SnakeCanvas.Tick | components/SnakeCanvas.tsx:144-232 | the frame's in-place steps leave exactly the session and signal given by Update, and keep the invariant |
| Canvas.SnakeCanvas.PlayFrame | components/SnakeCanvas.tsx:144-204 | committing, moving, wrapping, the collision test and the food step together leave exactly the session and signal given by Play |
| Canvas.SnakeCanvas.EatFood | components/SnakeCanvas.tsx:171-204 | the findIndex, splice, burst, growth, counter and respawn steps leave exactly the session and signal given by Feed |
| Canvas.SnakeCanvas.Resize | components/SnakeCanvas.tsx:297-306 | takes the new size; re-initialises only on the menu or with an empty snake, otherwise the session is unchanged |
| Canvas.SnakeCanvas.constructor | components/SnakeCanvas.tsx:45-53 | a mounted canvas starts from empty references and, through the resize rule, holds the initial session |
| Shell.NextSection | App.tsx:35-39 | the next index is in range, one more than the old one, and 0 after the last section |
| Shell.SectionsCycle | App.tsx:38 | after n closes the index is (i + n) mod 5: sections come round in order and never end the game |
| Shell.App.constructor | App.tsx:9-14 | MENU with score, eaten count, section index and game id 0 |
| Shell.App.StartGame | App.tsx:19-25 | PLAYING, score 0, eaten count 0, section 0, game id + 1, and a freshly mounted canvas holding the initial session |
| Shell.App.ResumeGame | App.tsx:27-29 | sets PLAYING and nothing else |
| Shell.App.HandleSpecialFood | App.tsx:31-33 | sets POPUP and nothing else |
| Shell.App.HandlePopupClose | App.tsx:35-39 | PLAYING on the next section; the index wraps to 0 iff the closed section was the last (isLastSection) |
| Shell.App.IsLastSection | App.tsx:62 | the section on show is the last one, so closing its popup wraps the index to 0 |
| Shell.App.Frame | App.tsx:52-63 | one canvas frame with its callbacks: GAME_OVER on collision, POPUP on an orb, +10 score and +1 eaten per NORMAL food, no state change outside PLAYING (so GAME_OVER is never left by a frame); the canvas size is kept; the shell invariant holds |
| Shell.App.PressKey | components/SnakeCanvas.tsx:112-135 | the key handler sees the shell's current state: only PLAYING lets a key change the buffer |
| Shell.App.Resize | components/SnakeCanvas.tsx:296-311 | on the menu the canvas restarts its session; in any other state only its size changes |

## Left out

- Rendering: the grid, food and orb drawing, the flashing END text timed by `Date.now()`, and the snake circles and connecting line (`components/SnakeCanvas.tsx:207-291`). These are drawing calls and change no state. The particle colour argument is left out for the same reason.
- The `requestAnimationFrame` loop, event-listener registration and React hooks (`components/SnakeCanvas.tsx:111-135, 293, 296-317`). A frame is one call of `Tick`/`Frame`. A resize or key press is one method call.
- The defensive early returns when the canvas or its 2D context is missing (`components/SnakeCanvas.tsx:67, 139-142`).
- Choosing the speed from `window.innerWidth` (`components/SnakeCanvas.tsx:149`). The speed is a parameter.
- `Math.random` and `Date.now`. Food placement factors, food ids and particle velocities come in a `Roll`. Uniqueness of food ids is not modelled.
- `Math.sqrt`, `atan2`, `cos` and `sin`. The square root is the parameter `root`. The pull uses the exact real identity `(cos, sin)(atan2(dy, dx)) = (dx, dy) / |(dx, dy)|`.
- IEEE floating-point rounding. Coordinates and particle life are reals, so 0.05 is exact.
- `normalizeVector` (`utils/gameUtils.ts:10-14`). Nothing calls it.
- The mobile buttons (`App.tsx:42-45, 84-120`). They only forward ±1 to `setDirection`, which is `SetDirection`.
- Which overlay renders which button: the start button on MENU, the close button on POPUP, restart on GAME_OVER (`App.tsx:124-165`). Because of this, the model does not show that `HandlePopupClose` is reachable only from POPUP. It also does not show that `ResumeGame` is never called. Its proved fact is narrower: a frame never leaves GAME_OVER.
- `components/HireMeForm.tsx`, `components/PortfolioPopup.tsx` and the portfolio content in `constants.tsx`. Only the number of sections (5) is used.
- Asynchronous React state: the score, eaten-count and game-state updates of a frame take effect together at the end of the frame.
