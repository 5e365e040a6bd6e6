# Terminal snake: a verified model of the game engine, the leaderboard and the mode list

This Dafny project models the core of a terminal snake game written in Rust:

- the game engine of `src/game.rs`: one tick is food, turn, head step, tail step, wrap and lose check;
- its key handling and nickname editing;
- the ranked ten-entry leaderboard of `src/leaderboard.rs`;
- the application of `src/main.rs`, which holds a list of three modes (Menu, Game, Leaderboard), sends each terminal event to the mode at the front, and runs the game's tick from its event loop.

Files and modules:

- `common.dfy`: `Wrappers` (Option), `Input` (the decoded key events) and `Numbers` (u16, u32, the saturating `as u16` cast).
- `geometry.dfy`: `Geometry` holds directions, points, segments, the playground rectangle, segment length and the collision test.
- `game.dfy`: `Game` holds the tick steps as functions of the snake's fields, lemmas about them, and the class `SnakeGame` (AppGameState). Each of its methods changes the fields the source changes and is proved equal to those functions.
- `leaderboard.dfy`: `Leaderboard` holds the insertion rule as functions and lemmas, and the class `Board`, whose `UpdateBoard` works on the ten-entry array the way the source does.
- `app.dfy`: `App` holds the mode list as a sequence of tags, with functions for extracting and pushing. The class `App` has `HandleEvent`, the world update and the event loop.

**Coordinates.** The source keeps coordinates in f64. Every coordinate it ever holds is a multiple of 0.5:

- coordinates start on whole numbers;
- steps are 0.5;
- edges and food cells are whole numbers.

The model therefore counts in half-units: an integer `c` stands for `c / 2`. One step is 1, an edge at `e` is `2 * e`, and the source's `relative_eq!` is equality. "Up" increases y, as in the source.

The score `total_length` is a natural number that starts at 8. It is cast to u16 with saturation, as Rust's float-to-int cast does.

**Panics.** The source panics in two places the model can reach, and each is an explicit outcome rather than a precondition:

- `move_snake_tail` can drop the last segment, and `teleport_snake`'s `expect` then panics. `SnakeGame.OnTick` reports this as `panicked`.
- `update_board` indexes past the 16-char slot when a qualifying name is longer than 16 chars. `Board.UpdateBoard` reports this as `panicked`, and `App.HandleEvent` reports it as `aborted`.

**The code as written.** The model follows the code where it differs from what the program seems to promise:

- Eating food adds 1 to the score but only one half-unit to the drawn snake. The tail pauses for a single tick, on the eaten cell.
- A long nickname is not cut to 16 chars; it panics, as above.
- The list of collected actions in `run` is never cleared. `game_actions.clear()` clears a local copy that is rebuilt on every iteration. So each tick applies the last game action ever collected, and a turn is applied again on every later tick until a new one arrives.
- The second `Backspace` arm of the lost-game key match is unreachable: match arms are tried in order, and the first `Backspace` arm always matches before it.
- The engine keeps both checks exactly as the code writes them: the collision test and the wrap's extra tail step. Both are listed under "## Findings", and their corrected forms are proved beside them.

## Model

| member | source | states |
|---|---|---|
| Numbers.ToU16 | src/leaderboard.rs:122 | the cast of a score to u16: the value itself below 65536, 65535 above |
| Geometry.Step | src/game.rs:167-180 | one step of 0.5 along a direction gives an oriented segment of length one half-unit |
| Geometry.MoveEnd | src/game.rs:162-181 | moving the head end keeps the start and direction, keeps the segment oriented and lengthens it by one half-unit |
| Geometry.MoveStart | src/game.rs:202-215 | moving the tail end keeps the end and direction; on an oriented segment of positive length it stays oriented and shortens by one half-unit; the segment becomes zero-length exactly when it was one half-unit long |
| Geometry.HitIsOnSegment | src/game.rs:296-303 | the corrected collision test holds exactly when the head lies on the segment |
| Geometry.HitAsWrittenCharacterized | src/game.rs:296-303 | the test as written agrees with "the head lies on the segment" for Up, Down and Right moving segments, and for a Left moving one it detects only its tail end |
| Geometry.HitAsWrittenMissesLeftInterior | src/game.rs:298-299 | a head inside a left-moving segment is on it, yet the test as written does not detect it |
| Geometry.HitAsWritten | src/game.rs:296-303 | the self-collision test exactly as typed; what it accepts is stated by Geometry.HitAsWrittenCharacterized |
| Geometry.Hit | src/game.rs:296-303 | the corrected test, comparing with x2 in the reverse sense; Geometry.HitIsOnSegment proves it is "the head lies on the segment" |
| Game.DirectionKeyAction | src/game.rs:437-470 | an arrow key gives a turn exactly when it is across the head's axis; the turn takes the arrow's direction, so it is never the head's direction or its opposite; every other key gives DoNothing |
| Game.LastAction | src/game.rs:327-331 | on_tick's action is a member of its list, the last one when there is any, and DoNothing when the list is empty |
| Game.LastActionConcat | src/game.rs:327-331 | appending actions changes the chosen one exactly when the appended list is not empty, and then it is the last appended |
| Game.KeyAction | src/game.rs:410-471 | handle_key_press answers ReturnToMenu with the nickname and score exactly for a press of Enter once the game is lost; a release or repeat gives DoNothing; a press while the game runs gives exactly the direction resolution for the head, and a turn only comes from there |
| Game.Turned | src/game.rs:126-160 | the turn of process_user_input as a function of the chain; its shape is stated by Game.TurnedShape |
| Game.HeadMoved | src/game.rs:162-181 | the head step of move_snake_head as a function of the chain; its shape is stated by Game.HeadMovedShape |
| Game.TailStepped | src/game.rs:183-224 | the tail step of move_snake_tail as a function of the chain and the consumed-food queue; its cases are stated by Game.TailSteppedShape and Game.TailDroppedIff |
| Game.Teleported | src/game.rs:226-279 | the wrap as written always leaves at least one segment; the rest is stated by Game.TeleportedShape and Game.WrapShortensBody |
| Game.TeleportedConserving | src/game.rs:226-279 | the wrap without the extra tail step; Game.WrapConservesBody proves it keeps the drawn length |
| Game.Loses | src/game.rs:281-304 | the lose condition of check_lose_conditions; its cases are stated by Game.LosesCases |
| Game.Fed | src/game.rs:306-325 | the food step of generate_and_process_food; its cases are stated by Game.FedCases |
| Game.TurnedShape | src/game.rs:126-160 | a turn prepends exactly one zero-length segment at the old head's end, in the requested direction, adds no length and keeps every segment oriented; any other action leaves the chain unchanged |
| Game.HeadMovedShape | src/game.rs:162-181 | the head step changes only the head's end, by one step along its direction; the other segments stay; the drawn length grows by one half-unit |
| Game.TailDroppedIff | src/game.rs:196-223 | without a pause, an oriented tail segment is dropped exactly when it is at most one half-unit long |
| Game.TailSteppedShape | src/game.rs:183-224 | on the oldest consumed food the tail pauses: that food is popped and the chain is untouched; otherwise the food queue stays, the other segments stay, the tail moves one step or is dropped (drop exactly when it was at most one half-unit long), and the drawn length falls by one half-unit unless the tail was zero-length |
| Game.TickDrawnLength | src/game.rs:126-224 | turn, head step and tail step of one tick together: the drawn snake grows by exactly one half-unit when the tail pauses on eaten food or was zero-length, and keeps its length otherwise |
| Game.WrapShortensBody | src/game.rs:226-279 | as written, a wrap starts a zero-length segment on the opposite edge and then takes one tail step, so the drawn snake loses one half-unit unless the tail pauses or is zero-length |
| Game.WrapOfInitialSnakeLosesHalfUnit | src/game.rs:226-279 | the first wrap of the starting snake turns a drawn length of 8 into 7.5 |
| Game.WrapConservesBody | src/game.rs:226-279 | the wrap without the extra tail step keeps every segment oriented and the drawn length unchanged; the new head is the zero-length segment on the opposite edge; with killing borders or no crossing nothing changes |
| Game.TeleportedShape | src/game.rs:226-279 | the wrap keeps every segment oriented; with killing borders or no crossing it changes nothing; otherwise it is the new edge segment followed by exactly one tail step |
| Game.LosesCases | src/game.rs:281-304 | with killing borders, a head at or beyond any edge loses, and a head inside loses exactly when some non-head segment passes the test as written; without them, losing is exactly that self-collision; a one-segment snake only loses at the border |
| Game.FoodCell | src/game.rs:312-317 | the food drawn from any u32 lies on a whole cell of [left, left+width) x [top, top+height) |
| Game.FedCases | src/game.rs:306-325 | food is eaten exactly when the head's end is on it: the cell is appended to the consumed queue, the score grows by exactly 1 and no food remains; otherwise the food stays and nothing else changes; food is always inside the playground |
| Game.ClampCursor | src/game.rs:402-404 | the cursor is kept in [0, length of the name], unchanged when already inside |
| Game.CharPosition | src/game.rs:372-378 | the insertion position is the cursor when it is inside the name and the end of the name when the cursor is beyond it |
| Game.InsertAt | src/game.rs:362-366 | inserting keeps the chars before the position, puts the new char there and shifts the rest by one |
| Game.RemoveBefore | src/game.rs:380-400 | deleting removes exactly the char left of the cursor and keeps the others in order |
| Game.RemoveUndoesInsert | src/game.rs:362-400 | typing a char and then Backspace gives back the original name |
| Game.EditedKeepsCursor | src/game.rs:410-435 | every key pressed after the loss keeps the cursor within the name |
| Game.Edited | src/game.rs:410-435 | the nickname edit for a key pressed after the loss; Game.EditedKeepsCursor proves the cursor stays within the name, and Game.SnakeGame.HandleKeyPress ties the edit to the methods that perform it |
| Game.SnakeGame.constructor | src/game.rs:58-85 | the new game is playground (10,10,50,50), one segment of length 8 moving right from (25,25), score 8, no food, empty name, cursor 0, not lost, borders not killing |
| Game.SnakeGame.Reset | src/main.rs:232 | the game is overwritten by a fresh one, in place |
| Game.SnakeGame.ProcessUserInput | src/game.rs:126-160 | the chain becomes the turned chain; nothing else changes |
| Game.SnakeGame.MoveSnakeHead | src/game.rs:162-181 | the chain becomes the chain with its head stepped; nothing else changes |
| Game.SnakeGame.MoveSnakeTail | src/game.rs:183-224 | the chain and the consumed-food queue become the tail step of the old ones; nothing else changes |
| Game.SnakeGame.TeleportSnake | src/game.rs:226-279 | the chain and the food queue become the wrap of the old ones, which always leaves a segment |
| Game.SnakeGame.CheckLoseConditions | src/game.rs:281-304 | the loss flag becomes set exactly when it was set or the lose condition holds on the current chain |
| Game.SnakeGame.GenerateAndProcessFood | src/game.rs:306-325 | the food, the consumed queue and the score become the feeding result for the old head and the given random draw |
| Game.SnakeGame.OnTick | src/game.rs:327-350 | nothing changes once lost; otherwise food, the last action's turn, the head step, the tail step, the wrap and the lose check compose in that order; a panic is reported exactly when the tail step leaves no segment |
| Game.SnakeGame.Ticked | src/game.rs:327-350 | the state one tick leaves, step by step; Game.SnakeGame.OnTick is proved to leave it |
| Game.SnakeGame.MoveCursorLeft | src/game.rs:352-355 | the cursor moves one left, saturating at 0 and clamped to the name |
| Game.SnakeGame.MoveCursorRight | src/game.rs:357-360 | the cursor moves one right, clamped to the name |
| Game.SnakeGame.EnterChar | src/game.rs:362-370 | the char is inserted at the cursor and the cursor advances by one |
| Game.SnakeGame.DeleteChar | src/game.rs:380-400 | at cursor 0 nothing changes; otherwise the char left of the cursor is removed and the cursor moves back by one |
| Game.SnakeGame.HandleKeyPress | src/game.rs:410-471 | a release or repeat does nothing; while running, the answer is the direction resolution for the head; once lost, Enter answers ReturnToMenu with the name and score and every other key edits the nickname as Edited says |
| Leaderboard.DefaultTable | src/main.rs:27-39 | the compiled-in table: ten entries, each named with 16 'a' chars with score 0 |
| Leaderboard.DefaultTableShape | src/main.rs:27-39 | the compiled-in table is well formed and sorted, and a score qualifies against it exactly when it is positive, at the top |
| Leaderboard.HandleKeyPress | src/leaderboard.rs:147-155 | ReturnToMenu exactly for a press of 'q' |
| Leaderboard.InsertionPoint | src/leaderboard.rs:120-127 | the insertion point is the first index whose score is strictly lower; there is none exactly when every stored score is at least as high |
| Leaderboard.SlotName | src/leaderboard.rs:132-141 | the name left-aligned and padded with spaces to 16 chars |
| Leaderboard.Inserted | src/leaderboard.rs:119-145 | the table update_board leaves for a name that fits; its layout, ranking and multiset exchange are stated by Leaderboard.InsertedLayout, Leaderboard.InsertedKeepsSorted and Leaderboard.InsertedExchangesLast |
| Leaderboard.InsertedLayout | src/leaderboard.rs:130-144 | entries before the insertion point stay, the new entry holds the padded name and the score, each later entry is the one one place higher, and the table keeps its length |
| Leaderboard.NotQualifyingIsNoOp | src/leaderboard.rs:120-130 | a score no higher than every stored one leaves the table unchanged |
| Leaderboard.InsertedKeepsSorted | src/leaderboard.rs:119-145 | a table ranked from the highest score down stays ranked |
| Leaderboard.InsertedExchangesLast | src/leaderboard.rs:130-144 | as a multiset, the old last entry is dropped and the new entry added, and nothing else changes |
| Leaderboard.InsertedWellFormed | src/leaderboard.rs:132-141 | every entry keeps a 16-char name and the table keeps its length |
| Leaderboard.RankingExample | src/leaderboard.rs:119-145 | scores 50, 30, 70 inserted into the compiled-in table come out 70, 50, 30 at the top |
| Leaderboard.Board.constructor | src/leaderboard.rs:70-86 | the table starts as the one loaded |
| Leaderboard.Board.Rank | src/leaderboard.rs:120-126 | the scan returns the insertion point, or 11 exactly when there is none |
| Leaderboard.Board.FillSlot | src/leaderboard.rs:131-140 | the slot is the name padded to 16 chars; overflow is reported exactly for a name longer than 16 chars, with the slot holding its first 16 |
| Leaderboard.Board.PlaceAt | src/leaderboard.rs:130-144 | the entry is stored at the index and the entries from there on move one place down, the last one falling off |
| Leaderboard.Board.UpdateBoard | src/leaderboard.rs:119-145 | for a name of at most 16 chars the table becomes the insertion result; a score that does not qualify changes nothing; a longer name with a qualifying score panics after its first 16 chars were written into the slot (the score there is unchanged) |
| App.ArrangementIsPermutation | src/main.rs:113-116 | a mode list with each of the three modes is exactly a permutation of them |
| App.IndexOf | src/main.rs:196-202 | the position found holds the mode, with no earlier occurrence |
| App.Extract | src/main.rs:195-202 | extracting removes the first occurrence only and keeps the other modes in order |
| App.MoveToFront | src/main.rs:194-215 | moving a mode to the front keeps a list an arrangement of the three modes |
| App.MoveToFrontKeepsOrder | src/main.rs:194-215 | the moved mode is first and the other two keep the relative order they had |
| App.MoveSecondToFront | src/main.rs:194-215 | moving the second mode to the front swaps the first two |
| App.ReturnFromGame | src/main.rs:233-253 | the game-over transition keeps the list an arrangement |
| App.ReturnFromGameLayout | src/main.rs:231-254 | from any arrangement, the game-over transition gives Menu, Game, Leaderboard |
| App.MenuStep | src/main.rs:183-220 | a key to the menu brings Game or Leaderboard to the front on those answers, and changes nothing otherwise or when the menu is not in front |
| App.NextModes | src/main.rs:181-282 | every event keeps the list a permutation of the three modes |
| App.GameStaysInFront | src/main.rs:221-257 | with the game in front, the list only changes on the game-over Enter, which leaves Menu, Game, Leaderboard |
| App.SwitchToLeaderboardLayout | src/main.rs:183-220 | the menu's switch to the leaderboard leaves Leaderboard, Menu, Game, whatever the order of the other two was |
| App.LeaderboardHandsBack | src/main.rs:258-277 | with the leaderboard in front after the menu's block and a key it leaves on, the menu is moved back to the front in the same call |
| App.SwitchedKeyIsDispatchedAgain | src/main.rs:183-282 | the key that makes the menu switch to the leaderboard reaches the leaderboard in the same call: from either arrangement with the menu in front, a press of 'q' goes there and straight back to the menu, leaving Menu, Leaderboard, Game |
| App.Contribution | src/main.rs:152-157 | an action contributes its game action to on_tick's list exactly when it is UpdateGameState of something other than DoNothing |
| App.GameActions | src/main.rs:151-157 | the list run hands to on_tick; its members are stated by App.GameActionsMembers and its growth by App.GameActionsConcat |
| App.GameActionsConcat | src/main.rs:137-157 | collecting more actions extends on_tick's list at its end, keeping arrival order |
| App.GameActionsMembers | src/main.rs:151-157 | on_tick's list holds exactly the collected game actions other than DoNothing |
| App.StaleActionRepeats | src/main.rs:132-161 | since the collected actions are never cleared, a tick with no new game action applies the same action as the previous one |
| App.ArrivalsPrefix | src/main.rs:133-140 | the events of the first rounds are the first events overall |
| App.Reached | src/main.rs:181-282 | the mode list a record of handled events leaves is a permutation of the three modes, the starting list when nothing was handled |
| App.DispatchedConcat | src/main.rs:133-140 | a record of one batch, started from the list the earlier events left, joins their record and leaves the list the batch left |
| App.DispatchedSnoc | src/main.rs:138-139 | one more handled event, classified against the list the record leaves, extends the record |
| App.DispatchedPrefix | src/main.rs:133-140 | a record is one against any event list beginning with the recorded events, and leaves the same mode list |
| App.RoundRecorded | src/main.rs:133-142 | after a batch the joined record covers the events through that round and no world-update record is lost |
| App.UpdatesRecordedGrow | src/main.rs:139 | appending actions keeps every earlier world update's list a prefix of the collected actions |
| App.UpdatesRecordedAppend | src/main.rs:146-158 | a world update given the list through its round, without CloseApp, extends the record of updates |
| App.RoundStep | src/main.rs:133-165 | one iteration kept in both records: the events joined, and a world update that ran recorded with its list |
| App.App.constructor | src/main.rs:107-127 | the list starts as Menu, Leaderboard, Game with a fresh game and the loaded table |
| App.App.HandleEvent | src/main.rs:181-282 | the list becomes the next-modes result; CloseApp exactly when the menu answers exit to a key, changing nothing; the game's action when the game is in front; otherwise DoNothing, with game and table unchanged; an abort only on a ReturnToMenu whose name is longer than 16 chars and whose score qualifies against the table |
| App.App.MenuBlock | src/main.rs:183-220 | the application closes exactly when the menu is in front and answers exit to a key, with the list unchanged; otherwise the list becomes the menu step |
| App.App.LeaderboardBlock | src/main.rs:258-277 | with the leaderboard in front and a key it leaves on, the menu is moved to the front; otherwise the list stays |
| App.App.HandleGameEvent | src/main.rs:221-257 | the game's action is returned; without the game-over Enter only the nickname may change and nothing aborts; with it the game is fresh, update_board runs exactly once with the name and score, the abort happens exactly when the score qualifies and the name is longer than 16 chars, and otherwise the list becomes the game-over transition |
| App.App.FinishGame | src/main.rs:231-254 | the game is fresh; the abort happens exactly when the score qualifies and the name is longer than 16 chars; otherwise the table is the insertion result for a name that fits and the list becomes the game-over transition |
| App.App.HandleBatch | src/main.rs:137-140 | one batch: each event's action is recorded against the mode list it met, the first event against the game's loss flag at the start; an abort stops the batch right after a ReturnToMenu whose name is longer than 16 chars; without an abort every event is handled and the list is the one the batch leaves |
| App.App.Pass | src/main.rs:133-165 | one iteration: the batch is handled; the loop stops closed exactly when CloseApp is among the collected actions, without a world update; otherwise the world update gets the whole list, which holds no CloseApp; a panic comes either from a ReturnToMenu whose name is longer than 16 chars or from a tick of the game in front after the interval elapsed |
| App.App.Advance | src/main.rs:133-165 | one iteration with the records of the earlier ones: both records extend, the round's first event met the game's loss flag at the round's start, the loop stops closed only right after the batch that brings CloseApp, a panic has one of the two causes (a ReturnToMenu whose name is longer than 16 chars, or a tick of the game in front after the interval elapsed), and when it goes on the loop's progress holds for one more round |
| App.App.UpdateWorld | src/main.rs:146-165 | the filtered list is the game actions of all collected actions; the game ticks on exactly that list when it is in front and the interval has elapsed; otherwise nothing changes |
| App.App.Run | src/main.rs:130-168 | every event's action is appended to the list in arrival order; each action is CloseApp exactly when the menu closes the application, and a game action exactly when the game is in front after the menu's block, for the mode list that event met, each list being what the event before it left; each world update is handed the whole list collected through its own round, never cleared, with no CloseApp in it, and the game actions filtered from that list; the loop ends closed right after the batch that brings the first CloseApp; a panic stops it only right after a ReturnToMenu whose name is longer than 16 chars, or after the world update of the last recorded round ticked the game in front on the list through that round; without input left, CloseApp was never collected and the list is the result of all events |

## Left out

- Drawing is left out because it only renders the state: the `draw` methods of all three modes, `snake_canvas`, `popup_area` and the frame drawn on each loop iteration.
- The input thread, its channel and crossterm polling (src/main.rs:69-98) are concurrency and terminal I/O. Each loop iteration receives its batch of events instead, and an empty batch stands for `get_events` returning its error.
- The clock is left out. Whether the tick interval has elapsed is an input for each iteration, and the reset of `time_tick` after a tick is not modelled.
- OsRng is left out. Its u32 draw is an input, and a failing draw (`unwrap`) is not modelled.
- The menu's key handler is not part of this model: what the menu answers to an event is an input. src/menu.rs does not define that handler.
- Reading the table from the executable and writing it back on `Drop` (src/leaderboard.rs:32-86) are file and memory-map I/O. The table arrives already loaded.
- f64 arithmetic is modelled as exact integers in half-units. This is exact because every value is a small multiple of 0.5.
- The colour of each line is left out because only drawing reads it.
- `reset_cursor` is never called, so it is not modelled.
- The source's String is modelled as a sequence of chars. UTF-8 byte offsets (`byte_index`, `String::insert`) become char positions, which is what byte_index computes them from.
- After a panic (`panicked` or `aborted`) the model does not describe the state further: the program has ended.
- App.App.HandleEvent: its contract states the mode list, the action, when it aborts, and the unchanged game and table outside the game's block. What the game's block does to the game and the table is stated by App.App.HandleGameEvent, which it calls with the list the menu's block left.
- App.App.HandleGameEvent: on ReturnToMenu the model sets the list through ReturnFromGame once the table is updated. The source performs the two extractions before `update_board`; this makes a difference only when update_board panics.
- App.App.Run: it only runs over the finite list of rounds it is given. The loop's endless continuation beyond that input is not modelled. Its contract classifies each event's action and records each world update's list; which game action an event produces is stated by App.App.HandleEvent, and what a tick does by App.App.UpdateWorld.
- App.App.HandleBatch: the abort it states is a ReturnToMenu whose name is longer than 16 chars, without the score's qualification against the table at that moment, which App.App.HandleEvent states.
- App.App.Pass: as for HandleBatch, and a tick's panic is stated by its cause (the game in front, the interval elapsed); which tick step fails is stated by Game.SnakeGame.Ticked through App.App.UpdateWorld.
- App.App.Advance: as for HandleBatch, its abort cause omits the score's qualification against the table, which App.App.HandleEvent states.
- App.App.Advance: the loss flag is tied to the record only for the round's first event; later events of a round met the flag the previous event left, which the record does not state.
- App.App.Run: as for HandleBatch, its abort cause is a ReturnToMenu whose name is longer than 16 chars, without the score's qualification against the table, which App.App.HandleEvent states.
- App.App.Run: it does not tie its loss-flag record to the flag at its start, because rounds without events may tick the game and change the flag before the first event; Advance ties each round's first event to the flag at that round's start.
- Leaderboard.Board.UpdateBoard: the scan, the filling of the slot and the shift are written as the helper methods Rank, FillSlot and PlaceAt, which update_board performs inline.

## Findings

| source | as written | input that shows it | evidently intended | confidence | as-written member | corrected member |
|---|---|---|---|---|---|---|
| src/game.rs:298-299 | the second disjunct of the self-collision test compares the head's x with the segment's x1 on both sides, so it requires the head's x to equal x1 | a left-moving segment from (10, 5) to (6, 5) and the head's end at (8, 5): the head is on the segment but no loss is flagged | the inclusive bounding box in the reverse sense, comparing with x2 | medium, not executed | Geometry.HitAsWrittenMissesLeftInterior | Geometry.HitIsOnSegment |
| src/game.rs:226-279 | after a wrap, `teleport_snake` calls `move_snake_tail` again (lines 241, 252, 263, 274), although the old head's overshoot stays in the chain | the starting snake after 55 ticks, from (52.5, 25) to (60.5, 25) moving right: after the wrap its drawn length is 7.5 instead of 8; each further wrap loses another 0.5, until a tail step removes the last segment and `expect` panics | a wrap keeps the snake's length | medium, not executed | Game.WrapOfInitialSnakeLosesHalfUnit | Game.WrapConservesBody |

The engine (`Game.Loses`, `Game.Teleported` and the `SnakeGame` methods) keeps both checks as the code writes them, so that it describes what the program does. The corrected definitions (`Geometry.Hit`, `Game.TeleportedConserving`) have their intended properties proved beside them.
