/** The key handling of the terminal client (reversi_cui/src/main.rs, `input`). The
    terminal itself (raw mode, drawing, reading events) is not modelled: an event is a
    parameter and the four variables `input` mutates form one state value. */
module Cui {
  import opened Results
  import Board
  import opened Rules
  import opened Session

  /** The keys `input` distinguishes; every other key is `OtherKey`. */
  datatype KeyCode =
    | Esc
    | Char(ch: char)
    | Left
    | Up
    | Right
    | Down
    | Enter
    | Backspace
    | OtherKey

  /** A terminal event: a key press (its modifiers are ignored), or anything else such as a
      mouse or resize event. */
  datatype Event = Key(code: KeyCode) | OtherEvent

  /** The four variables of the client's loop. */
  datatype CuiState = CuiState(field: Board.Field, cursor: Board.Position, end: bool,
                               turn: Board.Color)

  /** The game part of the client's state. */
  function Game(st: CuiState): ReversiData {
    ReversiData(st.field, st.cursor, st.turn)
  }

  /** `cursor.X().unwrap_or(cursor)`: a step that would leave the board keeps the cursor. */
  function Move(step: Result<Board.Position, Board.FieldOutError>, p: Board.Position): Board.Position {
    step.UnwrapOr(p)
  }

  /** `input`: one event applied to the client's state. Only a key press acts; the loop
      never starts again once `end` is set, the cursor stays where it was on every key but
      the arrows and `r`, and the field changes only on `r`, Enter and Backspace. */
  function Input(ev: Event, st: CuiState): (r: CuiState)
    ensures st.end ==> r.end
    ensures !(ev.Key? && ev.code in {Left, Up, Right, Down, Char('r')}) ==> r.cursor == st.cursor
    ensures !(ev.Key? && ev.code in {Enter, Backspace, Char('r')}) ==> r.field == st.field
  {
    match ev
    case Key(Esc) => st.(end := true)
    case Key(Char('p')) => st.(turn := Board.AnotherColor(st.turn))
    case Key(Char('r')) =>
      var d := CreateInitialData();
      st.(field := d.field, cursor := d.cursor, turn := d.turn)
    case Key(Left) => st.(cursor := Move(Board.Left(st.cursor), st.cursor))
    case Key(Up) => st.(cursor := Move(Board.Up(st.cursor), st.cursor))
    case Key(Right) => st.(cursor := Move(Board.Right(st.cursor), st.cursor))
    case Key(Down) => st.(cursor := Move(Board.Down(st.cursor), st.cursor))
    case Key(Enter) =>
      var d := TryPut(Game(st));
      st.(field := d.field, turn := d.turn)
    case Key(Backspace) => st.(field := Board.Set(st.field, st.cursor, Board.Empty))
    case _ => st
  }

  /** Esc ends the loop and touches nothing else. */
  lemma EscEnds(st: CuiState)
    ensures Input(Key(Esc), st) == CuiState(st.field, st.cursor, true, st.turn)
  {
  }

  /** `p` hands the move to the other colour; pressing it twice restores the state. */
  lemma PassTwice(st: CuiState)
    ensures Input(Key(Char('p')), st).turn != st.turn
    ensures Input(Key(Char('p')), Input(Key(Char('p')), st)) == st
  {
    Board.AnotherColorInvolution(st.turn);
  }

  /** `r` replaces the game by `create_initial_data` and keeps `end`. */
  lemma ResetIsInitial(st: CuiState)
    ensures Game(Input(Key(Char('r')), st)) == CreateInitialData()
    ensures Input(Key(Char('r')), st).end == st.end
  {
  }

  /** `r` starts a new game: the initial field with two discs each, the cursor in the
      corner, black to move; whether the loop has ended is kept. */
  lemma ResetRestarts(st: CuiState)
    ensures var r := Input(Key(Char('r')), st);
      && Board.Count(r.field, Board.Black) == 2 && Board.Count(r.field, Board.White) == 2
      && r.cursor == Board.Position(0, 0) && r.turn == Board.Black && r.end == st.end
      && GetGameResult(r.field) == Playing
  {
    ResetIsInitial(st);
    InitialDataPlaying();
  }

  /** The arrows move the cursor one cell (Left/Right along the column axis, Up/Down along
      the row axis) and do nothing at the edge of the board. */
  lemma ArrowsMove(st: CuiState)
    ensures var c := st.cursor;
      && Input(Key(Left), st).cursor
         == (if c.y >= 1 then Board.Position(c.x, c.y - 1) else c)
      && Input(Key(Right), st).cursor
         == (if c.y <= 6 then Board.Position(c.x, c.y + 1) else c)
      && Input(Key(Up), st).cursor
         == (if c.x >= 1 then Board.Position(c.x - 1, c.y) else c)
      && Input(Key(Down), st).cursor
         == (if c.x <= 6 then Board.Position(c.x + 1, c.y) else c)
    ensures forall k :: k in {Left, Right, Up, Down} ==>
              Input(Key(k), st).(cursor := st.cursor) == st
  {
  }

  /** Opposite arrows undo each other whenever the first one moved the cursor. */
  lemma ArrowsUndo(st: CuiState)
    ensures st.cursor.y <= 6 ==> Input(Key(Left), Input(Key(Right), st)) == st
    ensures st.cursor.x <= 6 ==> Input(Key(Up), Input(Key(Down), st)) == st
    ensures st.cursor.y >= 1 ==> Input(Key(Right), Input(Key(Left), st)) == st
    ensures st.cursor.x >= 1 ==> Input(Key(Down), Input(Key(Up), st)) == st
  {
    ArrowsMove(st);
    ArrowsMove(Input(Key(Right), st));
    ArrowsMove(Input(Key(Down), st));
    ArrowsMove(Input(Key(Left), st));
    ArrowsMove(Input(Key(Up), st));
  }

  /** Enter applies the move of `try_put` to the game at the cursor and keeps `end`. */
  lemma EnterIsTryPut(st: CuiState)
    ensures Input(Key(Enter), st)
            == st.(field := TryPut(Game(st)).field, turn := TryPut(Game(st)).turn)
  {
  }

  /** Enter on a cell where the mover has no legal move changes nothing. */
  lemma EnterIllegalNoop(st: CuiState)
    requires !CheckPutable(st.field, st.cursor, st.turn)
    ensures Input(Key(Enter), st) == st
  {
  }

  /** Enter on a legal cell puts the mover's disc there, turns exactly the outflanked discs,
      and passes the turn unless the opponent would then have no legal move; the board
      gains one disc. */
  lemma EnterLegal(st: CuiState)
    requires CheckPutable(st.field, st.cursor, st.turn)
    ensures var r := Input(Key(Enter), st);
      && r.cursor == st.cursor && r.end == st.end
      && Board.Get(r.field, st.cursor) == Board.Putted(st.turn)
      && (forall q :: q != st.cursor ==>
            Board.Get(r.field, q) == if q in Reversable(st.field, st.cursor, st.turn)
                                     then Board.Putted(st.turn) else Board.Get(st.field, q))
      && (r.turn == Board.AnotherColor(st.turn) <==>
            exists p :: CheckPutable(r.field, p, Board.AnotherColor(st.turn)))
      && Board.Count(r.field, Board.Black) + Board.Count(r.field, Board.White)
         == Board.Count(st.field, Board.Black) + Board.Count(st.field, Board.White) + 1
  {
    TryPutCounts(Game(st));
  }

  /** Backspace empties the cursor cell, keeps every other cell, and never adds a disc. */
  lemma BackspaceClears(st: CuiState)
    ensures var r := Input(Key(Backspace), st);
      && Board.Get(r.field, st.cursor) == Board.Empty
      && (forall q :: q != st.cursor ==> Board.Get(r.field, q) == Board.Get(st.field, q))
      && r.cursor == st.cursor && r.turn == st.turn && r.end == st.end
      && Board.Count(r.field, Board.Black) <= Board.Count(st.field, Board.Black)
      && Board.Count(r.field, Board.White) <= Board.Count(st.field, Board.White)
  {
    Board.CountAfterSet(st.field, st.cursor, Board.Empty, Board.Black);
    Board.CountAfterSet(st.field, st.cursor, Board.Empty, Board.White);
  }

  /** Keys other than those above, and events other than key presses, change nothing. */
  lemma OthersIgnored(st: CuiState, ev: Event)
    requires ev.Key? ==> ev.code !in {Esc, Left, Up, Right, Down, Enter, Backspace}
    requires ev.Key? && ev.code.Char? ==> ev.code.ch != 'p' && ev.code.ch != 'r'
    ensures Input(ev, st) == st
  {
  }

  /** input_test's first event: Enter at (4,2) on the initial field puts black there and
      hands the move to white. */
  lemma InputTestEnter(f: Board.Field)
    requires f == Board.NewField()
    ensures var s := Input(Key(Enter), CuiState(f, Board.Position(4, 2), false, Board.Black));
      && Board.Get(s.field, Board.Position(4, 2)) == Board.Putted(Board.Black)
      && Board.Get(s.field, Board.Position(0, 0)) == Board.Empty
      && s.turn == Board.White && s.cursor == Board.Position(4, 2) && !s.end
  {
    TryPutTest(f);
    EnterIsTryPut(CuiState(f, Board.Position(4, 2), false, Board.Black));
  }

  /** The rest of input_test from any state at (4,2) with white to move and an empty corner:
      `p` twice brings the move back to white; Right, Down, Left and Up visit (4,3), (5,3),
      (5,2) and return to (4,2); Backspace leaves (0,0) empty; Esc ends the loop. */
  lemma InputTestKeys(s1: CuiState)
    requires s1.cursor == Board.Position(4, 2) && s1.turn == Board.White && !s1.end
    requires Board.Get(s1.field, Board.Position(0, 0)) == Board.Empty
    ensures var s2 := Input(Key(Char('p')), s1);
      var s3 := Input(Key(Char('p')), s2);
      var s4 := Input(Key(Right), s3);
      var s5 := Input(Key(Down), s4);
      var s6 := Input(Key(Left), s5);
      var s7 := Input(Key(Up), s6);
      var s8 := Input(Key(Backspace), s7);
      var s9 := Input(Key(Esc), s8);
      && s2.turn == Board.Black && s3.turn == Board.White
      && s4.cursor == Board.Position(4, 3) && s5.cursor == Board.Position(5, 3)
      && s6.cursor == Board.Position(5, 2) && s7.cursor == Board.Position(4, 2)
      && Board.Get(s8.field, Board.Position(0, 0)) == Board.Empty
      && Board.Get(s8.field, Board.Position(4, 2)) == Board.Empty
      && !s8.end && s9.end
  {
  }

  /** input_test (reversi_cui/src/main.rs) in full, from the initial field. */
  lemma InputTest(f: Board.Field)
    requires f == Board.NewField()
    ensures var s0 := CuiState(f, Board.Position(4, 2), false, Board.Black);
      var s1 := Input(Key(Enter), s0);
      && Board.Get(s1.field, Board.Position(4, 2)) == Board.Putted(Board.Black)
      && s1.turn == Board.White
      && var s2 := Input(Key(Char('p')), s1);
         var s3 := Input(Key(Char('p')), s2);
         var s4 := Input(Key(Right), s3);
         var s5 := Input(Key(Down), s4);
         var s6 := Input(Key(Left), s5);
         var s7 := Input(Key(Up), s6);
         var s8 := Input(Key(Backspace), s7);
         && s2.turn == Board.Black && s3.turn == Board.White
         && s4.cursor == Board.Position(4, 3) && s5.cursor == Board.Position(5, 3)
         && s6.cursor == Board.Position(5, 2) && s7.cursor == Board.Position(4, 2)
         && Board.Get(s8.field, Board.Position(0, 0)) == Board.Empty
         && !s8.end && Input(Key(Esc), s8).end
  {
    InputTestEnter(f);
    InputTestKeys(Input(Key(Enter), CuiState(f, Board.Position(4, 2), false, Board.Black)));
  }
}
