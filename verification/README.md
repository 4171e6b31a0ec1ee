# Tic-tac-toe move history and the persistent state hook, in Dafny

This project models two pieces of a React exercise repository:

- `useLocalStorageState` (`src/exercise/02.js`): a state cell whose initial value is read from
  `localStorage` through a deserializer (falling back to a default, which may be an initializer
  function), and whose state is written back through a serializer after every change.
- The tic-tac-toe `Game` (`src/exercise/04.js`): a history of boards seeded with one empty board,
  a cursor `currentStep` into it, and the three things a user can do — click a square
  (`selectSquare`), click a move button, and `restart` — together with the pure helpers
  `calculateNextValue`, `calculateWinner` and `calculateStatus`.

The store is an immutable `map<string, string>`, every event is one pure transition, and the
runtime's `JSON.stringify`/`JSON.parse` pair is a parameter (`json: Codec`) rather than a concrete
encoder. The modules are:

| file | module | what it holds |
|---|---|---|
| `wrappers.dfy` | `Wrappers` | `Option`, standing in for `null` |
| `js_values.dfy` | `JsValues` | JavaScript values, truthiness and the `or` operator |
| `local_storage_state.dfy` | `LocalStorageState` | the store, codec, options, default, initializer, write-back effect |
| `tic_tac_toe.dfy` | `TicTacToe` | marks, boards, mark count, winning lines, winner search, status |
| `game_history.dfy` | `GameHistory` | the `(history, step)` state machine, its invariant, event runs |
| `persisted_game.dfy` | `PersistedGame` | the game's two cells over one store: mount, write-back, reload |

Main results:

- `selectSquare` truncates the history after the cursor and appends the new board. From the tail
  it is a pure append. It leaves the game unchanged when the board has a winner or the square is
  taken.
- Every history the game builds is `Consistent`: it starts with the empty board, and each later
  board is one accepted click after the previous one. So board `i` holds exactly `i` marks, the
  turns alternate X, O, X, …, and only the last board can have a winner. This holds after any
  sequence of events the page can dispatch.
- The hook starts from the decoded stored value only when that value is truthy. After a write of
  `v` through a codec that reads `v` back, a fresh mount yields `v` if `v` is truthy and the
  default otherwise.
- A game remounted over the store its cells wrote comes back unchanged. The stored cursor `0` is
  falsy and is replaced by the default, but that default is `0` too.

Five behaviours of the code are easy to miss:

- A function-valued default is called on every mount (`src/exercise/02.js:20-21`), even when
  storage holds a truthy value. `Init.initializerCalls` records this.
- Any falsy decoded value falls back to the default (`src/exercise/02.js:23`): a missing key,
  but also a stored `''`, `0` or `false`. This is modelled as written, not corrected.
- The deserializer is applied to `getItem`'s result, so a custom deserializer sees `null` for a
  missing key and may turn it into a truthy value.
- A `defaultState` of `undefined` counts as omitted, so it becomes `''` like a missing argument.
- Decode errors are not caught, write failures are not reported, and a move button cannot
  point outside the history. The model has no error paths for these, only the preconditions of
  the source's callers.

`src/exercise/04.js` imports `useLocalStorageState` from `src/utils.js`. That file is not part of
this model; the game's cells are modelled with the hook of `src/exercise/02.js`.

## Model

| member | source | states |
|---|---|---|
| `LocalStorageState.SetItem` | src/exercise/02.js:28 | `setItem` makes `getItem(key)` return the new text and leaves every other key's entry as it was |
| `LocalStorageState.OmittedArguments` | src/exercise/02.js:11-15 | with no options the codec is the runtime's JSON stringify/parse; with no default, or an `undefined` one, the default is `''`; any other default is kept as given |
| `LocalStorageState.CustomOptionsWin` | src/exercise/02.js:14 | a supplied serializer or deserializer replaces the JSON one, each independently of the other |
| `LocalStorageState.InitialState` | src/exercise/02.js:16-24 | the initial state is the decoded stored entry when that is truthy and the resolved default otherwise; a function default is called exactly once, whatever storage holds |
| `LocalStorageState.Persist` | src/exercise/02.js:26-29 | the write-back effect leaves `serializer(state)` under the key and every other entry unchanged |
| `LocalStorageState.Mount` | src/exercise/02.js:11-32 | the cell's codec is the options resolved against JSON; the first render takes the lazily initialised state, and its effect leaves the store holding that state's encoding under the key, other keys untouched |
| `LocalStorageState.SetState` | src/exercise/02.js:26-31 | after `setState(v)` the state is `v`, the store holds `serializer(v)` under the key, other keys are untouched, and the initializer does not run again |
| `LocalStorageState.Update` | src/exercise/02.js:48-52 | a functional update sets the state to the updater applied to the current state and writes it back under the same key through the same codec; the initializer does not run again |
| `LocalStorageState.ReloadAfterWrite` | src/exercise/02.js:23-28 | after a write of `v` with a codec that reads `v` back, re-initialising the key yields `v` when `v` is truthy and the default when it is falsy |
| `LocalStorageState.RemountAfterSetState` | src/exercise/02.js:16-29 | a hook remounted with the same options over the store left by `setState(v)` starts from `v` if `v` is truthy, otherwise from its own default |
| `LocalStorageState.SetSameStateKeepsStore` | src/exercise/02.js:26-29 | re-setting the current state leaves a synchronized store as it was |
| `JsValues.FalsyValues` | src/exercise/02.js:23 | the values the `or` operator skips are exactly `undefined`, `null`, `false`, `0` and `''` |
| `TicTacToe.CountMarks` | src/exercise/04.js:123 | the number of marked squares never exceeds the number of squares |
| `TicTacToe.FullIffAllCounted` | src/exercise/04.js:116 | `every(Boolean)` holds exactly when the count of marked squares equals the number of squares |
| `TicTacToe.MarkingCountsOne` | src/exercise/04.js:77-79 | writing a mark into an empty square raises the count of marks by exactly one |
| `TicTacToe.NextValue` | src/exercise/04.js:122-124 | X is next exactly when the mark count is even and O exactly when it is odd; `GameHistory.NextValueAlternates` shows this alternates X, O, X, … along a history |
| `TicTacToe.CalculateStatus` | src/exercise/04.js:113-119 | a winner is shown exactly when there is one; otherwise scratch exactly when the board is full, and the next player exactly when it is not; `TicTacToe.StatusOfBoard` restates this in terms of the lines and the mark count |
| `TicTacToe.EmptyBoardHasNoMarks` | src/exercise/04.js:51 | the seed board holds no mark |
| `TicTacToe.WinnerFrom` | src/exercise/04.js:137-143 | the search from line `i` returns the mark that fills the first completed line from `i` on, and returns none exactly when no line from `i` on is completed |
| `TicTacToe.Winner` | src/exercise/04.js:126-144 | `calculateWinner` returns `m` only when the first completed listed line is filled with `m`, and returns `null` exactly when no listed line is completed |
| `TicTacToe.SoleWinner` | src/exercise/04.js:126-144 | when only one mark fills any line, that mark is the winner |
| `TicTacToe.StatusOfBoard` | src/exercise/04.js:113-124 | the status shows a winner exactly when some line is completed, scratch exactly when none is and all nine squares are marked, and otherwise the next player, X exactly when the mark count is even |
| `GameHistory.Start` | src/exercise/04.js:50-53 | the initial state is one empty board with the cursor on it, and is consistent |
| `GameHistory.SelectSquare` | src/exercise/04.js:72-86 | a blocked click changes nothing; an accepted one keeps the boards up to the cursor, puts one new board after them, and moves the cursor onto it; the new board is the old one plus the next mark in the chosen square |
| `GameHistory.GoTo` | src/exercise/04.js:64 | a move button moves only the cursor, to an existing move |
| `GameHistory.Restart` | src/exercise/04.js:88-91 | restart leaves exactly one board, unmarked, with the cursor on it |
| `GameHistory.CommitAtTailAppends` | src/exercise/04.js:81-85 | a click accepted at the last move appends one board to the unchanged history |
| `GameHistory.CommitTruncates` | src/exercise/04.js:81-85 | a click accepted at move `k` leaves `k + 2` boards, the first `k + 1` of them unchanged, so every later board is dropped |
| `GameHistory.SelectSquareKeepsConsistent` | src/exercise/04.js:72-86 | a click keeps the history consistent: empty first board, each board one accepted move after the previous |
| `GameHistory.GoToKeepsConsistent` | src/exercise/04.js:64 | a jump keeps the history consistent |
| `GameHistory.MarksMatchMoveNumber` | src/exercise/04.js:77-84 | in a consistent history the board after move `i` holds exactly `i` marks |
| `GameHistory.NextValueAlternates` | src/exercise/04.js:121-124 | in a consistent history X is to move after an even number of moves and O after an odd one |
| `GameHistory.OnlyLastBoardWon` | src/exercise/04.js:73-75 | no board but the last of a consistent history has a winner, since clicks are ignored once there is one |
| `GameHistory.Apply` | src/exercise/04.js:93-103 | each event the page offers keeps the history non-empty and the cursor in range |
| `GameHistory.Run` | src/exercise/04.js:93-106 | any run of offered events keeps the history non-empty and the cursor in range; a run of restarts is always offered |
| `GameHistory.RunKeepsConsistent` | src/exercise/04.js:93-106 | every game reached by events from a consistent game is consistent |
| `GameHistory.BranchScenario` | src/exercise/04.js:72-91 | moves at 4, 0, 8 give four boards with the cursor at 3; jumping to move 1 and playing 2 gives three boards, cursor 2, marks at 4 and 2 only |
| `PersistedGame.HistoryRoundTrip` | src/exercise/04.js:50-52 | a history stored as an array of nine-square arrays decodes back to the same boards |
| `PersistedGame.DecodeGame` | src/exercise/04.js:50-55 | stored cells are read as a game exactly when the history decodes to boards and the cursor is a number addressing one of them, and then as that history and cursor |
| `PersistedGame.MountGame` | src/exercise/04.js:50-55 | the mounted game is the one the two cells' initial states decode to, and there is none exactly when they do not decode; its history and cursor encode to those initial states; afterwards the store holds both encodings and no other key changes |
| `PersistedGame.MountEmptyStore` | src/exercise/04.js:50-53 | over a store without either key the game mounts at one empty board with the cursor on it |
| `PersistedGame.WriteGame` | src/exercise/04.js:50-53 | writing both cells leaves the store synchronized with the game and every other key untouched |
| `PersistedGame.SessionSelect` | src/exercise/04.js:81-85 | a click changes the game as `selectSquare` does; an ignored click changes neither game nor store; an accepted one keeps the store synchronized, other keys untouched |
| `PersistedGame.SessionGoTo` | src/exercise/04.js:64 | a jump writes only the cursor cell and keeps the store synchronized |
| `PersistedGame.SessionRestart` | src/exercise/04.js:88-91 | restart leaves the store synchronized with the fresh game |
| `PersistedGame.ApplySession` | src/exercise/04.js:93-103 | any offered event changes the game as in `Apply` and keeps the store synchronized |
| `PersistedGame.RunSession` | src/exercise/04.js:93-106 | a run over a session succeeds exactly when the same run succeeds on the game alone |
| `PersistedGame.ReloadRestoresGame` | src/exercise/04.js:50-53 | a remount over a synchronized store, with a JSON that reads both cells back, yields the same game and the same store |
| `PersistedGame.RunSessionKeepsSynced` | src/exercise/04.js:50-53 | after any run of events the store matches the game reached, and a remount restores that game |

## Left out

- React scheduling: lazy-initializer timing, effect timing and dependency arrays, and batching of
  functional updaters. Each event is one atomic transition, and a write-back follows every state
  the handler set. React skips the write when the state is unchanged; on a synchronized store that
  write would change nothing (`SetSameStateKeepsStore`).
- `window.localStorage` and concrete JSON: the store is a map, and the runtime's JSON functions are
  the `json` parameter. `JSON.parse(null) === null` and the round trip are stated as preconditions
  where a property needs them.
- A deserializer that throws: the source does not catch it, and the model's deserializer is total.
- JavaScript numbers are integers here (no `NaN`, `-0` or fractions), and functions are never
  stored values.
- `console.log` calls, the `uuid` helper (a random rendering key), and the components `Board`,
  `Greeting`, `App`, `renderSquare` and `renderMove` with their text. The status is a `Status`
  datatype rather than a string.
- A square index outside 0..8 or a move index outside the history: the page renders no such
  control, so these are preconditions, and a `Run` containing one yields `None`.
- `PersistedGame.DecodeGame`: stored cells that are not a list of nine-square boards of `null`,
  `'X'` and `'O'` with a cursor inside it are out of scope, and the model yields `None` for them.
  The source renders some of these shapes, such as a board of two squares or a square holding
  `'Z'`. It throws for others, for instance a cursor outside the history, a history or current
  board that is not an array, or a square holding an object.
- A change of `key` or of the serializer while the hook is mounted.
