# Snake game engine, difficulty policy and high-score table

This project models the rules of a single-player snake game (vue-snake) and
proves properties about them. The game runs on a 20 × 20 grid. The snake is a
sequence of cells stored head first. The state also holds one food cell, a
heading, a score, and the pause and game-over flags. A host timer calls
`moveSnake` once per tick, and key presses call `setDirection`.

- `game.dfy` (module `Game`) holds the pure rules: heading change, next head,
  collision test, points per food and tick interval. The class `GameStore`
  holds the state and changes it step by step. Its invariant `Valid()` says
  that the snake is non-empty, lies inside the grid and has no two segments on
  one cell, and that the food lies inside the grid and off the snake. Every
  action keeps that invariant.
- `settings.dfy` (module `Settings`) holds three difficulty tiers, with their
  score multipliers and tick intervals, and the settings record with its
  three setters. The multiplier is an exact number of tenths (10, 15, 20 for
  1, 1.5, 2), so `Math.floor(10 × multiplier)` needs no floating point.
- `high_scores.dfy` (module `HighScores`) holds the stored list of entries.
  `addScore` appends to it. There are two queries: the top ten of one tier,
  highest score first, and all entries, newest first.

The engine takes the multiplier as a parameter of `MoveSnake`. It does not
look it up in the settings store.

Behaviours of the code worth stating outright:

- Eating keeps the tail. When the head moves onto the food, the code adds
  the new head and does not drop the tail. Eating the food at (11, 10) from
  `[(10, 10)]` therefore gives `[(11, 10), (10, 10)]`, not `[(11, 10)]`.
  `Game.EatingScenario` shows the same growth from the real initial state.
- The self-collision test looks at the body before the move (`slice(1, -1)`).
  This never lets two segments overlap: `Game.MoveKeepsSnakeWellPlaced`
  proves that every move that does not collide leaves all segments distinct.
- `setDirection` does not look at `isGameOver` or `isPaused`. A turn is
  accepted after the game has ended too, and `Game.GameStore.SetDirection`
  does the same.
- The engine's own `gameSpeed` is `floor(150 / multiplier)`, which gives
  150, 100 and 75 ms. The settings table `getGameSpeed` gives 150, 120 and
  90 ms. The two agree only on the easy tier (`Game.ScoringAndSpeedByTier`).
  Which of the two the host uses as its tick interval is not part of this
  model.

## Model

| member | source | states |
|---|---|---|
| `Settings.DefaultSettings` | src/stores/settings.ts:15-19 | the default settings are medium difficulty, sound on, classic theme |
| `Settings.DifficultyMultiplier` | src/stores/settings.ts:23-30 | the multiplier in tenths is 10 + 5 × tier rank, i.e. 1, 1.5 and 2 |
| `Settings.TickInterval` | src/stores/settings.ts:32-39 | the interval is 150 − 30 × tier rank ms, i.e. 150, 120 and 90 |
| `Settings.HarderTierIsFasterAndRicher` | src/stores/settings.ts:23-39 | a harder tier has a strictly larger multiplier and a strictly shorter interval |
| `Settings.SettingsStore.constructor` | src/stores/settings.ts:14-20 | a new store holds the default settings |
| `Settings.SettingsStore.GetDifficultyMultiplier` | src/stores/settings.ts:23-30 | the getter is the multiplier table applied to the stored difficulty: 10 + 5 × its rank, in tenths |
| `Settings.SettingsStore.GetGameSpeed` | src/stores/settings.ts:32-39 | the getter is the interval table applied to the stored difficulty: 150 − 30 × its rank, in ms |
| `Settings.SettingsStore.SetDifficulty` | src/stores/settings.ts:43-45 | the difficulty becomes the argument; sound and theme are unchanged |
| `Settings.SettingsStore.SetSoundEnabled` | src/stores/settings.ts:47-49 | the sound flag becomes the argument; difficulty and theme are unchanged |
| `Settings.SettingsStore.SetTheme` | src/stores/settings.ts:51-53 | the theme becomes the argument; difficulty and sound are unchanged |
| `Game.NewHeading` | src/stores/game.ts:50-64 | the heading becomes the request exactly when the request is not the reverse of the current heading, and otherwise stays; it is never the reverse of the old heading |
| `Game.NextHead` | src/stores/game.ts:69-85 | the candidate head is a cell that shares a side with the old head |
| `Game.NextHeadOpposite` | src/stores/game.ts:69-85 | a step followed by a step in the opposite direction returns to the start; reversing twice is the identity |
| `Game.CheckCollision` | src/stores/game.ts:109-125 | a collision is exactly a cell outside [0, 20)² or a cell equal to a segment at index 1 … length − 2 |
| `Game.PointsPerFood` | src/stores/game.ts:99 | floor(10 × multiplier) equals the multiplier's tenths, with nothing lost to rounding |
| `Game.GameSpeed` | src/stores/game.ts:42-46 | the result is the floor of 1500 / tenths, i.e. floor(150 / multiplier): result × tenths ≤ 1500 < (result + 1) × tenths |
| `Game.ScoringAndSpeedByTier` | src/stores/game.ts:42-46 | per tier, points per food are 10/15/20 and the engine's interval is 150/100/75 ms; it equals the settings interval only on easy |
| `Game.MoveKeepsSnakeWellPlaced` | src/stores/game.ts:88-105 | after a move without collision, the grown snake (on eating) or the shifted snake (otherwise) stays inside the grid with distinct segments, and a shifted snake stays off the food |
| `Game.FreeCellExists` | src/stores/game.ts:127-136 | a snake of distinct in-grid segments shorter than 400 leaves some grid cell free, so the food search has a cell to find |
| `Game.GameStore.constructor` | src/stores/game.ts:15-23 | the initial state: snake [(10,10)], food (15,10), heading right, score 0, both flags false; the invariant holds |
| `Game.GameStore.GridState` | src/stores/game.ts:26-40 | a fresh 20 × 20 grid whose food cell is 2, whose other snake cells are 1 and whose other cells are 0 |
| `Game.GameStore.SetDirection` | src/stores/game.ts:50-64 | only the heading changes, and it changes as `NewHeading` says |
| `Game.GameStore.MoveSnake` | src/stores/game.ts:66-107 | paused or over: no change and false; collision: game over, snake, food and score unchanged, false; eating: new head in front of the whole old body, score up by the food's points, new food off the snake, true; otherwise: new head in front of the old body minus its tail, food and score unchanged, false; the heading and pause flag never change, and the invariant is kept |
| `Game.GameStore.GenerateFood` | src/stores/game.ts:127-139 | only the food changes, and it lands inside the grid on no snake segment |
| `Game.GameStore.TogglePause` | src/stores/game.ts:141-143 | only the pause flag changes, and it is negated |
| `Game.GameStore.ResetGame` | src/stores/game.ts:145-152 | snake [(10,10)], heading right, score 0, both flags false, and food placed validly |
| `HighScores.FilterByDifficulty` | src/stores/highScores.ts:23-24 | the result holds every entry of the tier exactly as often as the list does, and nothing else |
| `HighScores.Insert` | src/stores/highScores.ts:25 | inserting into a list sorted by key (largest first) keeps it sorted and adds exactly that entry |
| `HighScores.SortDesc` | src/stores/highScores.ts:25 | the sort returns a permutation of its input with non-increasing keys |
| `HighScores.PrefixDominatesRest` | src/stores/highScores.ts:25-26 | in a list sorted by score, every entry cut off after the first k scores no more than every kept entry |
| `HighScores.GetTopScores` | src/stores/highScores.ts:22-27 | the result has min(10, tier size) entries, all of the tier, with non-increasing scores; it is a sub-multiset of the stored list, and the whole tier when the tier has at most 10 entries; any tier entry left out scores no more than every returned entry |
| `HighScores.GetAllScores` | src/stores/highScores.ts:30-34 | the result is a permutation of the stored list, ordered newest first by the given timestamp function |
| `HighScores.HighScoresStore.constructor` | src/stores/highScores.ts:16-18 | a new table is empty |
| `HighScores.HighScoresStore.AddScore` | src/stores/highScores.ts:38-45 | exactly one entry with the given name, score, difficulty and date is appended; earlier entries are unchanged |

## Left out

- Game.GameStore.MoveSnake: requires that eating does not fill the last free cell. In that case the source's food search loops forever, and the model excludes it.
- Game.GameStore.GenerateFood: the random sampling loop is a nondeterministic choice of any free cell. The model has no randomness, no uniform distribution and no retry count, and it requires that a free cell exists.
- HighScores.GetAllScores: the date comparison is a timestamp function given as a parameter. Parsing ISO date strings is not modelled.
- HighScores.SortDesc: the sort is modelled as a stable insertion sort, but stability is not proved.
- HighScores.GetTopScores: when scores tie at the tenth place, the source keeps the earliest stored entries, because the filter keeps the stored order and the sort is stable. No contract states which tied entries survive the cut. The contract says only that every entry left out scores no more than every entry returned.
- Game.GameStore.GridState: the result is one two-dimensional array rather than an array of row arrays.
- Game.GameStore.GridState: requires the food to lie inside the grid, which `Valid()` guarantees. With the food's y outside the grid the source throws, and with only its x outside it writes past the end of the row (or sets a non-index property); neither case is modelled.
- Game.GRID_SIZE: the grid is a module constant of 20. In the source it is a state field, but no action changes it.
- Scores and coordinates are unbounded integers. JavaScript numbers are floating point, but every value here stays small.
- HighScores.HighScoresStore.AddScore: the `saveScores` call and the clock are outside the model. The clock's reading is the `date` parameter.
- Persistence is not modelled: `loadSettings`, `saveSettings`, `loadScores` and `saveScores`, with their use of localStorage and JSON, are I/O.
- Sound playback (`src/stores/sound.ts`) is browser audio I/O and is not modelled.
- The colour tables (`src/config/themes.ts`, `src/composables/useTheme.ts`) are constant lookups and are not modelled.
- Pinia store wiring and Vue reactivity are not modelled.
