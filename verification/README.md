# Neon snake engine, modelled in Dafny

A model of the deterministic game engine of a grid snake game: a 20×20
board, a snake that moves one cell per tick, five scripted obstacle layouts
(one per level, the last reused beyond level 5), a score that raises the
level every 5 foods and a tick interval that shrinks by 3 ms per food down
to 50 ms.

The whole state is one immutable `Session` record (snake, food, heading,
status, score, best score, speed, level, direction lock), and each handler of
`App.tsx` is a pure function from sessions to sessions:

- `types.dfy` (module `Types`): cells, headings, statuses, panel actions and
  the reversal rule. The repository's `types.ts` is not part of this model;
  these definitions stand in for it.
- `constants.dfy` (module `Constants`): the configuration of `constants.ts`
  and facts about it (starting snake, catalogue shape, layouts on the board
  and free of repeats).
- `engine.dfy` (module `Engine`): level lookup, food-placement constraint,
  the tick with its ordered wall/obstacle/self checks, growth and shift,
  progression, the direction handlers and their lock, the panel actions,
  and the state part of the game-over handler.
- `invariants.dfy` (module `Invariants`): the session invariant every
  transition keeps, the closed forms of the speed and level ramps, and what
  the direction lock guarantees.
- `play.dfy` (module `Play`): sessions driven by event streams (timer ticks
  gated on the status, direction requests, buttons) and an end-to-end run
  from page load into the top wall.

Random food placement is modelled by its outcome only. `Tick`, `ResetGame`
and `HandleAction` take the cell the placement loop lands on (`spot`) as a
parameter. Their precondition says it is a cell that loop can return: on the
board, off the snake it was placed for, and off that level's obstacles.
`SpawnFood` picks such a cell whenever one exists. `SpawnFoodFitsTick` and
`SpawnFoodFitsReset` show that its pick meets those preconditions.

## Model

| member | source | states |
|---|---|---|
| Engine.Obstacles | App.tsx:37-41 | the layout of level `l` is catalogue entry `l - 1` up to the catalogue's length, and the last entry for every level beyond it |
| Engine.ObstaclesClampToLast | App.tsx:37-41 | every level at or past 5 gets the level-5 layout |
| Engine.SpawnFood | App.tsx:44-63 | the food placed is on the board, not on the snake, not on the level's obstacles |
| Engine.ResetFoodExists | App.tsx:74 | a new round always has a free cell for its food |
| Engine.SpawnFoodFitsTick | App.tsx:162 | the cell the food loop picks for the grown snake and the level reached meets the eating tick's food precondition |
| Engine.SpawnFoodFitsReset | App.tsx:74 | the cell the food loop picks for a new round meets `ResetGame`'s food precondition |
| Engine.LevelAfterFood | App.tsx:149-157 | the level goes up by exactly one when the new score is a multiple of 5, otherwise stays |
| Engine.SpeedAfterFood | App.tsx:160 | the interval never drops below the minimum, strictly shrinks while above it, drops by exactly the decrement when there is room, and is exactly the minimum once the decrement would reach or pass it |
| Engine.StepThenReverse | App.tsx:99-115 | the head always moves to a new cell, and moving back the reverse way undoes the move |
| Engine.EndGame | App.tsx:79-83 | game over sets the status and makes the best score the larger of best and current, changing nothing else |
| Engine.Tick | App.tsx:97-171 | an out-of-bounds, obstacle or self hit ends the round with the snake unchanged; otherwise the new head leads, the lock is released, a plain move shifts every segment into the cell ahead at equal length, and eating keeps the whole body, adds 1 to the score, raises the level iff the new score is a multiple of 5, ramps the speed and places food off the grown snake and the new level's obstacles |
| Engine.Turn | App.tsx:218-231 | a direction request is taken, and locks, exactly when playing, unlocked and not the reverse of the heading; otherwise nothing changes |
| Engine.HandleKey | App.tsx:181-211 | an arrow key acts exactly like the panel's direction request for its heading; other keys do nothing |
| Engine.ResetGame | App.tsx:66-76 | a new round has the starting snake and heading, score 0, level 1, initial speed, playing, lock clear, the best score kept, and food off the snake and the obstacles |
| Engine.HandleAction | App.tsx:233-239 | Start and Reset begin a new round; Pause changes only the status, to paused exactly when it was playing and to playing otherwise |
| Engine.PauseTwice | App.tsx:236-237 | pausing twice restores a running or paused round |
| Types.OppositeIsReverse | App.tsx:221-225 | the four-case reversal test is the same as "reverse heading", and it is symmetric |
| Constants.InitialSnakeShape | constants.ts:8-12 | the starting snake has three distinct on-board cells, head at (10, 10), each segment one row below the previous |
| Constants.LevelCatalogShape | constants.ts:21-23 | there are five layouts and the first is empty |
| Constants.LayoutsInBounds | constants.ts:21-56 | every obstacle of every layout is on the board |
| Constants.BoxDistinct | constants.ts:37-47 | the level-4 box lists no cell twice |
| Constants.LayoutsDistinct | constants.ts:26-55 | no layout lists a cell twice |
| Constants.SpeedConstantsSane | constants.ts:4-17 | the minimum interval is positive and at most the initial one, the decrement is positive, and so is the score per level |
| Invariants.SpeedAfterFoods | App.tsx:160 | the interval after any number of foods stays between the minimum and the initial value |
| Invariants.LevelAfterFoods | App.tsx:152-157 | the level after `n` foods is between 1 and `n + 1` |
| Invariants.SpeedClosedForm | App.tsx:160 | after `n` foods the interval is `max(50, 150 - 3n)` |
| Invariants.LevelClosedForm | App.tsx:149-157 | after `n` foods the level is `1 + n / 5` |
| Invariants.BootInv | App.tsx:20-27 | the session at page load satisfies the invariant |
| Invariants.ResetGameInv | App.tsx:66-76 | a new round satisfies the invariant |
| Invariants.ShiftInv | App.tsx:145-166 | a plain move keeps the snake non-empty, duplicate-free, on the board and as long as the score says, and the food free |
| Invariants.GrowInv | App.tsx:145-163 | eating keeps the invariant, with length, level and speed advanced by one food |
| Invariants.TickInv | App.tsx:97-171 | every tick keeps the invariant |
| Invariants.InvSpeedAndLevel | App.tsx:149-160 | within a round the speed and level are fixed functions of the score |
| Invariants.Turns | App.tsx:218-231 | a burst of direction requests changes only the heading and the lock |
| Invariants.TurnsNeverReverse | App.tsx:218-231 | however many requests arrive between two ticks, the heading never becomes the reverse of the last tick's heading |
| Play.Apply | App.tsx:174-177 | every event keeps the invariant and never lowers the best score; outside a running round only buttons act; a round is paused or ended only from a running round |
| Play.Run | App.tsx:174-177 | a whole event stream keeps the invariant and never lowers the best score |
| Play.FirstTickFromReset | constants.ts:8-14 | the first tick of a new round never collides |
| Play.ClimbedInv | constants.ts:8-12 | the starting snake moved straight up to any row 0..10 still satisfies the invariant |
| Play.ClimbRun | App.tsx:102-126 | `k` ticks straight up from row `h >= k` leave the head on row `h - k`, still playing |
| Play.ClimbToWall | App.tsx:117-126 | from row `h`, tick `h + 1` ends the round with the snake at row 0 |
| Play.StartFromBoot | App.tsx:66-76 | Start on the freshly loaded page gives the starting snake, still playing |
| Play.WallOnEleventhTick | App.tsx:97-126 | from page load, Start and ten ticks up leave the head at (10, 0) and the round running; the eleventh tick ends it with the snake unchanged |
| Play.HeadMayLandOnNewObstacle | App.tsx:148-162 | a concrete tick from a reachable session (seven segments at score 4) after which the head sits on an obstacle of the level just reached |

## Behaviour worth knowing

- A tick that ends the round does not release the direction lock. The wall,
  obstacle and self checks return at App.tsx:125, 132 and 142, before the
  release at App.tsx:168. The lock exists to stop two turns within one frame
  (the comment at App.tsx:33). After a collision only the next new round
  clears it (App.tsx:75).
- Pause from idle or from game over starts play (App.tsx:237). The control
  panel only sends Pause while playing (components/ControlPanel.tsx:42). Its
  resume button sends Start, which begins a new round instead of resuming.
- The head can come to rest on an obstacle. Food placed on level `l` avoids
  only level `l`'s obstacles (App.tsx:162 places it for the level reached, but
  the food being eaten was placed earlier). Eating it can raise the level to
  one with an obstacle on that cell (`Play.HeadMayLandOnNewObstacle`). The
  next tick either moves the head off or ends the round (App.tsx:118-143).
  Only a new head is ever checked against obstacles (App.tsx:129-133).

## Left out

- The React state hooks, `useCallback`/`useRef` plumbing and the interval
  timer (App.tsx:20-34, 174-177): ticks are explicit events. Only the rule
  that the timer runs while playing is kept, in `Play.Apply`. The model
  assumes each handler sees the committed state, not a stale closure.
- Engine.SpawnFood: the uniform random rejection loop (App.tsx:49-62) is
  reduced to its result, a free cell. The distribution is not modelled. Nor
  is the endless loop when no cell is free: the model requires a free cell.
- The commentary request and its loading flag and fallback strings
  (App.tsx:29-31, 73, 85-93, services/geminiService.ts): these are an
  external network call and an environment check, with no effect on game
  state.
- Rendering and input widgets (components/GameBoard.tsx,
  components/ControlPanel.tsx), the `MAX` level label (App.tsx:252) and the
  keyboard listener registration (App.tsx:213-215).
- JavaScript numbers are modelled as unbounded integers; every value the
  engine computes stays far inside the exactly representable range.
