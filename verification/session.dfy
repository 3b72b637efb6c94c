/** The state of one game and its move step. `ReversiData` and `try_put` are used by the
    server and the browser client but their definitions are not part of this model; they are
    modelled as the triple returned by `create_initial_data` and as the Enter step of the
    terminal client (reversi_cui/src/main.rs), applied at the cursor. */
module Session {
  import opened Results
  import opened Board
  import opened Rules

  /** One game: the board, the cell the player points at and the colour to move. */
  datatype ReversiData = ReversiData(field: Field, cursor: Position, turn: Color)

  /** `create_initial_data` (`ReversiData::new` by assumption): the initial field, the cursor
      at (0,0) and black to move. */
  function CreateInitialData(): ReversiData {
    ReversiData(NewField(), NewPosition(0, 0).value, Black)
  }

  /** A new game is under way: two discs each, and black has a legal move at (4,2). */
  lemma InitialDataPlaying()
    ensures Count(CreateInitialData().field, Black) == 2
    ensures Count(CreateInitialData().field, White) == 2
    ensures CheckPutable(CreateInitialData().field, Position(4, 2), CreateInitialData().turn)
    ensures GetGameResult(CreateInitialData().field) == Playing
  {
    NewFieldCounts();
    CheckPutableTest();
    GameResultSpec(NewField());
  }

  /** `try_put`: a legal move at the cursor puts the mover's disc there, turns every
      outflanked disc and passes the turn; the turn comes back to the mover when the opponent
      then has no legal move. An illegal move changes nothing. */
  function TryPut(d: ReversiData): (r: ReversiData)
    ensures r.cursor == d.cursor
    ensures !CheckPutable(d.field, d.cursor, d.turn) ==> r == d
    ensures CheckPutable(d.field, d.cursor, d.turn) ==>
              && Get(d.field, d.cursor) == Empty
              && Get(r.field, d.cursor) == Putted(d.turn)
              && forall q :: q != d.cursor ==>
                   Get(r.field, q) == if q in Reversable(d.field, d.cursor, d.turn)
                                      then Putted(d.turn) else Get(d.field, q)
    ensures CheckPutable(d.field, d.cursor, d.turn) ==>
              (r.turn == AnotherColor(d.turn) <==>
                 exists p :: CheckPutable(r.field, p, AnotherColor(d.turn)))
  {
    if CheckPutable(d.field, d.cursor, d.turn) then
      var placed := Set(d.field, d.cursor, Putted(d.turn));
      var flipped := AutoReverse(placed, d.cursor, d.turn);
      var next := AnotherColor(d.turn);
      var turn := if !Puttable(flipped, next) then AnotherColor(next) else next;
      ReversableIgnoresOrigin(d.field, d.cursor, Putted(d.turn), d.turn);
      PuttableIff(flipped, next);
      ReversiData(flipped, d.cursor, turn)
    else
      d
  }

  /** A legal move adds exactly one disc to the board, gains the mover at least two discs
      (the one put and at least one turned) and costs the opponent at least one. */
  lemma TryPutCounts(d: ReversiData)
    requires CheckPutable(d.field, d.cursor, d.turn)
    ensures Count(TryPut(d).field, d.turn) >= Count(d.field, d.turn) + 2
    ensures Count(TryPut(d).field, AnotherColor(d.turn)) < Count(d.field, AnotherColor(d.turn))
    ensures Count(TryPut(d).field, Black) + Count(TryPut(d).field, White)
            == Count(d.field, Black) + Count(d.field, White) + 1
  {
    var f := d.field;
    var t := d.turn;
    var o := AnotherColor(t);
    var p := d.cursor;
    var rs := Reversable(f, p, t);
    var placed := Set(f, p, Putted(t));
    var r := TryPut(d).field;
    assert rs != [];
    var q := rs[0];
    assert Get(f, q) == Putted(o) && q != p;
    // Putting the disc on the empty cursor cell.
    CountAfterPlace(f, p, t);
    CountInUpdate(f, Index(p), Putted(t), Empty);
    // Turning the outflanked discs of the placed field.
    forall i | 0 <= i < 64 && placed[i] == Putted(t)
      ensures r[i] == Putted(t)
    {
      assert Get(placed, PositionAt(i)) == placed[i];
    }
    assert placed[Index(q)] != Putted(t) && r[Index(q)] == Putted(t);
    CountInMonotone(placed, r, Putted(t));
    forall i | 0 <= i < 64 && r[i] == Putted(o)
      ensures f[i] == Putted(o)
    {
      assert Get(r, PositionAt(i)) == r[i];
    }
    assert r[Index(q)] != Putted(o) && f[Index(q)] == Putted(o);
    CountInMonotone(r, f, Putted(o));
    forall i | 0 <= i < 64
      ensures placed[i] == Empty <==> r[i] == Empty
    {
      assert Get(r, PositionAt(i)) == r[i];
      assert Get(placed, PositionAt(i)) == placed[i];
    }
    CountInSamePattern(placed, r, Empty);
    CountIsCountIn(placed, t);
    CountIsCountIn(r, t);
    CountIsCountIn(r, o);
    CountIsCountIn(f, o);
    CountTotal(f);
    CountTotal(r);
  }

  /** A cell off the cursor that a legal move does not turn keeps its content. */
  lemma TryPutKeeps(d: ReversiData, q: Position)
    requires CheckPutable(d.field, d.cursor, d.turn)
    requires q != d.cursor && q !in Reversable(d.field, d.cursor, d.turn)
    ensures Get(TryPut(d).field, q) == Get(d.field, q)
  {
  }

  /** If the opponent can answer somewhere after a legal move, the turn passes. */
  lemma TryPutPasses(d: ReversiData, q: Position)
    requires CheckPutable(d.field, d.cursor, d.turn)
    requires CheckPutable(TryPut(d).field, q, AnotherColor(d.turn))
    ensures TryPut(d).turn == AnotherColor(d.turn)
  {
  }

  /** A move at the cursor that outflanks `m1` against `m2` in direction `md` is legal; if it
      leaves the pattern empty `a`, own disc `b`, opponent disc `e` on a line off the cursor's
      lines intact, the opponent may answer at `a`, so the turn passes. An empty cell `z`
      elsewhere stays empty. */
  lemma TryPutAnswered(d: ReversiData, md: Direction, m1: Position, m2: Position,
                       a: Position, dir: Direction, b: Position, e: Position, z: Position)
    requires Get(d.field, d.cursor) == Empty
    requires Step(d.cursor, md) == Ok(m1) && Get(d.field, m1) == Putted(AnotherColor(d.turn))
    requires Step(m1, md) == Ok(m2) && Get(d.field, m2) == Putted(d.turn)
    requires Step(a, dir) == Ok(b) && Step(b, dir) == Ok(e)
    requires a != d.cursor && b != d.cursor && z != d.cursor
    requires Get(d.field, a) == Empty && Get(d.field, z) == Empty
    requires Get(d.field, b) == Putted(d.turn)
    requires Get(d.field, e) == Putted(AnotherColor(d.turn))
    requires OffLines(d.cursor, e)
    ensures CheckPutable(d.field, d.cursor, d.turn)
    ensures Get(TryPut(d).field, d.cursor) == Putted(d.turn)
    ensures TryPut(d).turn == AnotherColor(d.turn)
    ensures Get(TryPut(d).field, z) == Empty
  {
    var o := AnotherColor(d.turn);
    PutableByOneFlank(d.field, d.cursor, md, d.turn, m1, m2);
    OffLinesNotReversable(d.field, d.cursor, d.turn, e);
    TryPutKeeps(d, a);
    TryPutKeeps(d, b);
    TryPutKeeps(d, e);
    TryPutKeeps(d, z);
    AnotherColorInvolution(d.turn);
    PutableByOneFlank(TryPut(d).field, a, dir, o, b, e);
    TryPutPasses(d, a);
  }

  /** The cells of the initial field that input_test's move depends on. */
  lemma InitialRows(f: Field)
    requires f == NewField()
    ensures Get(f, Position(4, 2)) == Empty && Get(f, Position(3, 2)) == Empty
    ensures Get(f, Position(0, 0)) == Empty
    ensures Get(f, Position(4, 3)) == Putted(White) && Get(f, Position(4, 4)) == Putted(Black)
    ensures Get(f, Position(3, 3)) == Putted(Black) && Get(f, Position(3, 4)) == Putted(White)
  {
  }

  /** The move of the terminal client's input_test: black at (4,2) on the initial field
      is legal (it outflanks (4,3) against (4,4)), and white, who can answer at (3,2) by
      outflanking (3,3) against (3,4), moves next. The corner stays empty. The field is a
      parameter equal to the initial one so that the verifier reasons from its cells rather
      than evaluating the whole move on a literal. */
  lemma TryPutTest(f: Field)
    requires f == NewField()
    ensures var r := TryPut(ReversiData(f, Position(4, 2), Black));
      && Get(r.field, Position(4, 2)) == Putted(Black)
      && r.turn == White
      && Get(r.field, Position(0, 0)) == Empty
  {
    InitialRows(f);
    TryPutAnswered(ReversiData(f, Position(4, 2), Black),
                   East, Position(4, 3), Position(4, 4),
                   Position(3, 2), East, Position(3, 3), Position(3, 4), Position(0, 0));
  }
}
