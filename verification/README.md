# Reversi rules, game server and terminal client in Dafny

A model of the core of gawetto/reversi, a Rust implementation of Reversi (Othello).
It covers three parts, all built on one rule engine:

- **The rule engine** (`reversi_core`). It has the `Position` smart constructor and its four fallible steps, and the 8x8 `Field` with `get`, `set`, `count`, `puttable` and `get_gameresult`. It also has the ray cast of `get_reversable`, then `check_putable`, `auto_reverse` and `create_initial_data`.
- **The game server's synchronous state transitions** (`reversi_server`). These are the connection and game tables, `add_new_game`, `get_game_summary_list`, every `handle_*` handler and `handle_message`. Each handler is one atomic step from a server state to the next state plus the messages it queues. The messages are kept per recipient, in sending order.
- **The key handling of the terminal client** (`reversi_cui`, `input`).

The message vocabulary of `reversi_message` is mirrored as datatypes.

Modules, in dependency order:

| file | module | contents |
|---|---|---|
| results.dfy | Results | `Option` and `Result` with `:-` support |
| board.dfy | Board | positions and their steps, colours, cells, the field, counting |
| rules.dfy | Rules | rays, `get_reversable`, `check_putable`, `auto_reverse`, `puttable`, game result |
| session.dfy | Session | `ReversiData` and the move step `try_put` |
| messages.dfy | Messages | `GameID`, `ClientMessage`, `GameSummary`, `ServerMessage` |
| server.dfy | Server | server state, `add_new_game`, lobby lists, the handlers |
| cui.dfy | Cui | the terminal client's `input` |

Representation choices:

- **Field.** The field is a sequence of 64 cells, row by row. Cell (x, y) sits at index 8x+y. `x` is the row, which `up`/`down` change. `y` is the column, which `left`/`right` change.
- **Coordinates.** A coordinate is the subset type `0 <= i < 8`. So `Position::new` is the only place a range error can arise, as in the source.
- **Ray directions.** They are named by compass, with North being `up`. They come in the order of the source's `direction` array. `Step` moves by one row/column offset. `StepIsComposedStep` proves it equal to the source's closure, a vertical step and then a horizontal one, failures included.
- **`ReversiData` and `try_put`.** The server and the browser client use these, but their definitions are not part of this model. `ReversiData` is modelled as the triple returned by `create_initial_data`: field, cursor, turn. `try_put` is modelled as the Enter step of the terminal client, applied at the cursor. `ReversiData::new()`, which the server calls for a new game and for a reset (reversi_server/src/main.rs:66 and :130), is modelled as `create_initial_data` (reversi_cui/src/main.rs:30). The GUI resets a game with `ReversiData::new()` (reversi_gui/src/main.rs:12) where the terminal client calls `create_initial_data`. All three are modelling assumptions.
- **Connection senders.** A connection's sender channel is replaced by its address. A handler's output maps each recipient to the messages it receives, oldest first. `HashMap` iteration order only changes how messages to different recipients interleave, never the order seen by one recipient.
- **Panics.** Every `unwrap` of the server is a precondition of the handler that contains it.

Three behaviours of the code shape the model:

- **`SelectGame` on an unknown id.** It panics at the `unwrap` of reversi_server/src/main.rs:99, so `HandleSelectGame` requires the game to exist.
- **`Put` from a client without a game.** The requester's game id is unwrapped at reversi_server/src/main.rs:110, so `HandlePut` requires the requester to have a game. `Reset` without a game returns early (lines 126-129), and `HandleReset` models that as a step that changes nothing.
- **`Put` carries only a position** (reversi_message/src/lib.rs:8). The move is made for the game's turn.

## Model

| member | source | states |
|---|---|---|
| Board.NewPosition | reversi_core/src/lib.rs:80-88 | construction succeeds exactly when both coordinates lie in [0,7], and the position then holds those coordinates |
| Board.Up | reversi_core/src/lib.rs:89-91 | succeeds exactly when the row is at least 1; the result is one row up, same column |
| Board.Down | reversi_core/src/lib.rs:92-94 | succeeds exactly when the row is at most 6; the result is one row down, same column |
| Board.Left | reversi_core/src/lib.rs:95-97 | succeeds exactly when the column is at least 1; the result is one column left, same row |
| Board.Right | reversi_core/src/lib.rs:98-100 | succeeds exactly when the column is at most 6; the result is one column right, same row |
| Board.AnotherColor | reversi_core/src/lib.rs:121-126 | the other colour is never the colour given |
| Board.AnotherColorInvolution | reversi_core/src/lib.rs:121-126 | taking the other colour twice gives back the colour |
| Board.PositionAt | reversi_core/src/lib.rs:9-11 | every index of the 64 cells belongs to the position it is decoded to |
| Board.IndexRoundTrip | reversi_core/src/lib.rs:9-11 | every position owns its own cell: decoding its index gives it back |
| Board.Set | reversi_core/src/lib.rs:30-35 | after `set(p, m)`, `get(p)` is `m` and every other cell reads as before |
| Board.NewField | reversi_core/src/lib.rs:20-29 | black at (3,3) and (4,4), white at (3,4) and (4,3), every other cell empty |
| Board.CountIn | reversi_core/src/lib.rs:36-45 | the cell-by-cell count of a value never exceeds the number of cells |
| Board.CountInIsMultiplicity | reversi_core/src/lib.rs:36-45 | the cell-by-cell filter count of `count` equals the multiplicity of that disc among the cells |
| Board.CountInPartition | reversi_core/src/lib.rs:36-45 | empty, black and white cells together are all the cells |
| Board.CountTotal | reversi_core/src/lib.rs:36-45 | black, white and empty counts add up to 64, so there are at most 64 discs |
| Board.CountInUpdate | reversi_core/src/lib.rs:33-35 | overwriting one cell moves one unit of count from the old value to the new |
| Board.CountAfterSet | reversi_core/src/lib.rs:33-45 | `set` changes a colour's count by exactly what the cell lost or gained |
| Board.CountAfterPlace | reversi_core/src/lib.rs:33-45 | a disc put on an empty cell raises its colour's count by one and leaves the other's unchanged |
| Board.CountInMonotone | reversi_core/src/lib.rs:36-45 | if every cell holding a value keeps it, the count cannot drop, and one more such cell makes it strictly larger |
| Board.NewFieldCounts | reversi_core/src/lib.rs:197-203 | the initial field holds two black and two white discs |
| Board.CountTest | reversi_core/src/lib.rs:221-225 | a black disc on any empty cell of the initial field, (0,0) among them, makes three black discs |
| Rules.DirectionsComplete | reversi_core/src/lib.rs:130-139 | the direction list names all eight directions |
| Rules.Step | reversi_core/src/lib.rs:130-139 | a successful ray step brings the position one step closer to the edge it heads for |
| Rules.StepIsComposedStep | reversi_core/src/lib.rs:130-139 | the one-offset step equals the source's closure (vertical step, then horizontal) for every position and direction, failures included |
| Rules.Walk | reversi_core/src/lib.rs:143-156 | k steps that stay on the board end k steps closer to the edge |
| Rules.Ray | reversi_core/src/lib.rs:141-160 | a kept ray lists only opponent discs, each strictly nearer the edge than the origin |
| Rules.RaysFrom | reversi_core/src/lib.rs:140-161 | the concatenated rays list only opponent discs, never the origin |
| Rules.Reversable | reversi_core/src/lib.rs:128-163 | `get_reversable` lists only opponent discs, never the cell moved on |
| Rules.RunExtend | reversi_core/src/lib.rs:143-156 | an opponent disc in front of an outflanking run gives a run one step longer |
| Rules.RunShrink | reversi_core/src/lib.rs:143-156 | an outflanking run longer than one step continues from its next cell |
| Rules.RaySound | reversi_core/src/lib.rs:143-160 | a kept ray is an outflanking run (opponent discs closed by an own disc) one longer than the ray |
| Rules.RayCells | reversi_core/src/lib.rs:143-156 | the i-th disc of a kept ray is the cell i+1 steps from the origin |
| Rules.RayComplete | reversi_core/src/lib.rs:143-160 | every outflanking run is found: its ray is kept |
| Rules.RunUnique | reversi_core/src/lib.rs:150-152 | a ray has one closing disc: the first disc of the mover's colour ends it |
| Rules.RaysFromMember | reversi_core/src/lib.rs:140-161 | a position is in the concatenated rays exactly when it is in the kept ray of one listed direction |
| Rules.ReversableOnlyFlanked | reversi_core/src/lib.rs:128-163 | every listed disc is outflanked on a straight line from the move |
| Rules.ReversableAllFlanked | reversi_core/src/lib.rs:128-163 | every outflanked disc is listed |
| Rules.ReversableIff | reversi_core/src/lib.rs:128-163 | a position is listed exactly when it is outflanked |
| Rules.CheckPutableIff | reversi_core/src/lib.rs:165-173 | a move is legal exactly on an empty cell from which it outflanks at least one disc |
| Rules.WalkOffset | reversi_core/src/lib.rs:143-156 | j steps in one direction move exactly j offsets of that direction |
| Rules.ReversableOnLine | reversi_core/src/lib.rs:128-163 | every listed disc lies on one of the eight straight lines through the move, at least one step away |
| Rules.OffLinesNotReversable | reversi_core/src/lib.rs:128-163 | a cell sharing no row, column or diagonal with the move is never turned |
| Rules.SetEach | reversi_core/src/lib.rs:176-178 | each listed cell takes the value at the origin and all others are kept, provided the origin is not listed |
| Rules.AutoReverse | reversi_core/src/lib.rs:175-179 | each reversible cell takes the value at the origin; every other cell, the origin included, is unchanged |
| Rules.RayIgnoresBehind | reversi_core/src/lib.rs:143-156 | a ray never reads a cell at or behind a given cell on its line, so overwriting that cell does not change it |
| Rules.RaysFromIgnoreOrigin | reversi_core/src/lib.rs:140-161 | overwriting the origin cell does not change the concatenated rays |
| Rules.ReversableIgnoresOrigin | reversi_cui/src/main.rs:59-60 | putting the disc before `auto_reverse` does not change which discs are turned |
| Rules.PuttableIff | reversi_core/src/lib.rs:46-56 | the scan of all 64 cells finds a legal move exactly when one exists |
| Rules.NoMovesIff | reversi_core/src/lib.rs:57-60 | neither scan finding a move is exactly neither colour having one |
| Rules.GameResultSpec | reversi_core/src/lib.rs:57-70 | Playing exactly while some colour can move; otherwise Draw exactly on equal counts, and Win for exactly the colour with more discs |
| Rules.RayBlocked | reversi_core/src/lib.rs:144-149 | a ray that leaves the board or meets an empty cell at its first step is discarded |
| Rules.RayOneFlank | reversi_core/src/lib.rs:144-153 | one opponent disc followed by an own disc is a ray of exactly that disc |
| Rules.PutableByOneFlank | reversi_core/src/lib.rs:165-173 | an empty cell followed, in some direction, by an opponent disc and then an own disc is a legal move |
| Rules.ReversableNone | reversi_core/src/lib.rs:158-162 | a cell whose every ray is discarded turns nothing |
| Rules.CheckPutableCornerTest | reversi_core/src/lib.rs:205-208 | on the initial field black may not move at (0,0) |
| Rules.CheckPutableTest | reversi_core/src/lib.rs:209 | on the initial field black may move at (4,2) |
| Rules.AutoReverseTest | reversi_core/src/lib.rs:212-219 | after the test's three `set`s, reversing from (3,5) for black turns (3,4) black |
| Session.InitialDataPlaying | reversi_core/src/lib.rs:181-186 | the initial game has two discs of each colour, black may move at (4,2), and the game is under way |
| Session.TryPut | reversi_cui/src/main.rs:58-64 | an illegal move changes nothing. A legal move puts the mover's disc on the empty cursor cell and turns exactly the outflanked discs. The turn passes exactly when the opponent then has a legal move |
| Session.TryPutCounts | reversi_cui/src/main.rs:58-64 | a legal move adds one disc to the board, gains the mover at least two discs and costs the opponent at least one |
| Session.TryPutKeeps | reversi_cui/src/main.rs:58-60 | a cell other than the cursor that is not outflanked keeps its content |
| Session.TryPutPasses | reversi_cui/src/main.rs:61-64 | if the opponent can answer somewhere, the turn passes to it |
| Session.TryPutAnswered | reversi_cui/src/main.rs:58-64 | a move that outflanks a disc is legal; if an answer for the opponent survives off the move's lines, the turn passes; an empty cell elsewhere stays empty |
| Session.InitialRows | reversi_core/src/lib.rs:20-29 | the initial cells around (4,2) and (3,2) that the client test depends on |
| Session.TryPutTest | reversi_cui/src/main.rs:182-185 | black at (4,2) on the initial field is put, the corner stays empty, and white moves next |
| Server.NewServerData | reversi_server/src/main.rs:29-34 | the new server has no connections and no games, and satisfies the table invariant |
| Server.AddConnection | reversi_server/src/main.rs:35-37 | the address is added or replaced with the given data; other connections and all games are unchanged |
| Server.RemoveConnection | reversi_server/src/main.rs:177 | the address is forgotten; other connections and all games, even unwatched ones, stay |
| Server.ConnectRoundTrip | reversi_server/src/main.rs:165-177 | connecting a new address and disconnecting it restores the server state |
| Server.ConnectionsKeepValid | reversi_server/src/main.rs:161-177 | connecting without a game and disconnecting keep every connection's game in the table |
| Server.AddNewGame | reversi_server/src/main.rs:63-71 | on success the id is the smallest in [1, u32::MAX) not in use, and a fresh game is inserted there; Err exactly when all those ids are taken, and the table is then unchanged |
| Server.IdRangeSize | reversi_server/src/main.rs:64 | the candidate ids 1 .. n-1 number n-1 |
| Server.FreeIdWhileRoom | reversi_server/src/main.rs:81 | `add_new_game` cannot fail while fewer than u32::MAX - 1 games exist |
| Server.MinId | reversi_server/src/main.rs:59 | the chosen id is in the set and no id in it is smaller |
| Server.SortedIds | reversi_server/src/main.rs:59 | the ids listed once each, with nothing added, in strictly ascending order |
| Server.PrependMin | reversi_server/src/main.rs:59 | the smallest id in front of an ascending listing of the others is an ascending listing of all |
| Server.SummaryList | reversi_server/src/main.rs:45-61 | the lobby has one line per game |
| Server.SummaryListGames | reversi_server/src/main.rs:46-50 | every line names an existing game and every game has a line |
| Server.LinesCoverIds | reversi_server/src/main.rs:46-50 | lines whose ids list the games name only games and cover them all |
| Server.SummaryListSorted | reversi_server/src/main.rs:59 | the lines are in strictly ascending id order |
| Server.SummaryListCounts | reversi_server/src/main.rs:51-56 | each line counts the connections attached to its game, truncated to 32 bits, and is marked `your` exactly when the recipient is attached to it |
| Server.YourAtMostOnce | reversi_server/src/main.rs:56 | at most one line is marked `your` |
| Server.YourIsRequesterGame | reversi_server/src/main.rs:56 | some line is marked `your` exactly when the recipient is attached to a game |
| Server.SumMemberSetsBound | reversi_server/src/main.rs:51-55 | the member sets of distinct games add up to at most the number of connections |
| Server.SumMemberSetsSame | reversi_server/src/main.rs:51-55 | equal member sets give equal sums |
| Server.SumMembersAtMost | reversi_server/src/main.rs:51-55 | truncated member counts add up to at most the untruncated set sizes |
| Server.MembersWithinConnections | reversi_server/src/main.rs:51-55 | the member counts of the lobby add up to at most the number of connections |
| Server.GameLists | reversi_server/src/main.rs:87-93 | every connection, and nobody else, is sent its own lobby |
| Server.AttachOutbox | reversi_server/src/main.rs:83-93 | the attaching client is sent the view and then its lobby; every other connection only its lobby |
| Server.ViewToMembers | reversi_server/src/main.rs:114-122 | exactly the members of the game are sent the same view |
| Server.HandleSessionList | reversi_server/src/main.rs:73-78 | nothing changes and only the requester is sent one lobby |
| Server.AttachKeepsValid | reversi_server/src/main.rs:95-96 | attaching a connection to an existing game keeps every connection's game in the table |
| Server.HandleCreateGame | reversi_server/src/main.rs:80-93 | a fresh game under the first free id; the requester is attached to it; other connections and old games are unchanged; the requester is sent the fresh view then its lobby, every other connection its lobby |
| Server.HandleSelectGame | reversi_server/src/main.rs:95-107 | the requester is attached to the game; games and other connections are unchanged; the requester is sent the game's view then its lobby, every other connection its lobby |
| Server.HandlePut | reversi_server/src/main.rs:109-123 | only the requester's game changes, by the move step at the given position; exactly its members, the requester among them, are sent the new view |
| Server.HandleReset | reversi_server/src/main.rs:125-141 | without a game nothing changes and nothing is sent; otherwise only that game becomes the initial game, and exactly its members, the requester among them, are sent it |
| Server.HandleMessage | reversi_server/src/main.rs:143-151 | each message runs its own handler: `SessionList`, `SelectGame`, `Put` and `Reset` give exactly their handler's result, and `CreateGame` attaches the requester to a fresh game at the first free id and sends what `handle_creategame` sends; every message keeps every connection's game in the table, keeps the connection set, and never drops a game |
| Server.TwoMembersLobby | reversi_server/src/main.rs:51-56 | a game two connections are attached to is listed with two members and marked as the recipient's |
| Server.SelectGameScenario | reversi_server/src/main.rs:95-96 | client 2 selecting client 1's game attaches both to it |
| Cui.Input | reversi_cui/src/main.rs:12-76 | an ended loop stays ended; only the arrows and `r` move the cursor; only `r`, Enter and Backspace change the field |
| Cui.EscEnds | reversi_cui/src/main.rs:19-22 | Esc sets `end` and changes nothing else |
| Cui.PassTwice | reversi_cui/src/main.rs:23-26 | `p` changes the colour to move, and pressing it twice restores the state |
| Cui.ResetRestarts | reversi_cui/src/main.rs:27-30 | after `r` the field has two discs each, the cursor is at (0,0), black moves, and the game is under way |
| Cui.ArrowsMove | reversi_cui/src/main.rs:31-53 | each arrow moves the cursor one cell in its direction, or not at all at the edge; nothing but the cursor changes |
| Cui.ArrowsUndo | reversi_cui/src/main.rs:31-53 | opposite arrows undo each other whenever the first one moved the cursor |
| Cui.EnterIllegalNoop | reversi_cui/src/main.rs:58 | Enter where the mover has no legal move changes nothing |
| Cui.EnterLegal | reversi_cui/src/main.rs:54-66 | Enter on a legal cell puts the disc, turns exactly the outflanked discs, passes the turn exactly when the opponent can answer, and adds one disc |
| Cui.BackspaceClears | reversi_cui/src/main.rs:67-72 | Backspace empties the cursor cell without any legality check, keeps every other cell, cursor, turn and `end`, and never adds a disc |
| Cui.OthersIgnored | reversi_cui/src/main.rs:73 | every other key and every non-key event changes nothing |
| Cui.InputTestEnter | reversi_cui/src/main.rs:182-185 | Enter at (4,2) on the initial field puts black there and hands the move to white |
| Cui.InputTestKeys | reversi_cui/src/main.rs:186-212 | `p` twice, the four arrows, Backspace and Esc give the turns, cursor positions, empty corner and end the test asserts |
| Cui.InputTest | reversi_cui/src/main.rs:176-213 | from the initial field, the whole key sequence of input_test meets every assertion of the test: black at (4,2) and white to move after Enter, black then white after each `p`, the cursor at (4,3), (5,3), (5,2) and (4,2) after the arrows, (0,0) empty after Backspace, and `end` after Esc |

## Left out

- Terminal I/O of the client: raw mode, drawing (`view`) and the event loop of `main` (reversi_cui/src/main.rs:77-168). An event is a parameter of `Cui.Input`. Key modifiers are ignored, as the source ignores them.
- The server's network layer: `handle_connection`, `main`, the tokio runtime, the WebSocket streams and the `Arc<Mutex<…>>` (reversi_server/src/main.rs:153-192). Each handler is one atomic step. Only the table updates of connecting and disconnecting are modelled.
- What the server does with a frame that does not parse. The code turns it into a closed-connection error (reversi_server/src/main.rs:167-168), which ends the connection's handling. This is part of the network layer.
- JSON serialization (`send_message`, the serde derives). A sent message is a value of `ServerMessage` in the recipient's queue.
- A handler that panics. Each `unwrap` is a precondition instead. The effects a handler has before its panic are not modelled, such as `handle_selectgame` attaching the requester before failing on an unknown game.
- The browser client, the wasm view code and the GUI crate. They are rendering and callbacks, and the mouse mapping uses floating point.
- Session.TryPut: the definitions of `ReversiData` and `try_put` are not part of this model. They are modelled as the triple and the terminal client's Enter step, so every property of the server's `Put` rests on that assumption.
- Session.CreateInitialData: `ReversiData::new()` is not part of this model and is assumed to build the same game as `create_initial_data`, so what `Server.AddNewGame`, `Server.HandleCreateGame` and `Server.HandleReset` say about a new game rests on that assumption. The function states nothing itself. `Session.InitialDataPlaying` and `Cui.ResetRestarts` state what the initial game is.
- Server.SummaryList: its own contract states only the number of lines. The line contents, order and marks are stated by `Server.SummaryListGames`, `Server.SummaryListSorted` and `Server.SummaryListCounts`.
- Server.HandleCreateGame: excludes a table in which every id below u32::MAX is taken, where the source panics. `Server.FreeIdWhileRoom` shows this cannot happen with fewer than u32::MAX - 1 games.
- Deserializing a `Position` from a client message. It would bypass the range check of `Position::new`. The model's `Position` is always on the board.
