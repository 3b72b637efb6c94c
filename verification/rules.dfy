/** The move rules of reversi_core/src/lib.rs: the ray cast of `get_reversable`, move
    legality, disc flipping, move availability and the game result. */
module Rules {
  import opened Results
  import opened Board

  /** The eight ray directions, in the order of the `direction` array of `get_reversable`.
      North is `up` (row x - 1), South is `down`, West is `left` (column y - 1), East is
      `right`. */
  datatype Direction = NorthWest | North | NorthEast | SouthWest | South | SouthEast | East | West

  const Directions: seq<Direction> :=
    [NorthWest, North, NorthEast, SouthWest, South, SouthEast, East, West]

  lemma DirectionsComplete(d: Direction)
    ensures d in Directions
  {
  }

  /** Row offset of one step in direction `d`. */
  function Dx(d: Direction): int {
    match d
    case NorthWest | North | NorthEast => -1
    case SouthWest | South | SouthEast => 1
    case East | West => 0
  }

  /** Column offset of one step in direction `d`. */
  function Dy(d: Direction): int {
    match d
    case NorthWest | SouthWest | West => -1
    case NorthEast | SouthEast | East => 1
    case North | South => 0
  }

  /** How many more steps fit on the board from `p` in direction `d`, measured along the
      axis the direction is named after (rows for the six up/down directions). */
  function Reach(p: Position, d: Direction): nat {
    match d
    case NorthWest | North | NorthEast => p.x
    case SouthWest | South | SouthEast => 7 - p.x
    case East => 7 - p.y
    case West => p.y
  }

  /** One step of a ray, composed from the four position steps exactly as the closures of
      the `direction` array of `get_reversable` compose them: a diagonal is a vertical
      step followed by a horizontal one and fails when either half fails. */
  function ComposedStep(p: Position, d: Direction): Result<Position, FieldOutError> {
    match d
    case NorthWest => var q :- Up(p); Left(q)
    case North => Up(p)
    case NorthEast => var q :- Up(p); Right(q)
    case SouthWest => var q :- Down(p); Left(q)
    case South => Down(p)
    case SouthEast => var q :- Down(p); Right(q)
    case East => Right(p)
    case West => Left(p)
  }

  /** One step of a ray as a single offset; `StepIsComposedStep` shows it is the closure of
      the source. */
  function Step(p: Position, d: Direction): (r: Result<Position, FieldOutError>)
    ensures r.Ok? ==> Reach(r.value, d) + 1 == Reach(p, d)
  {
    NewPosition(p.x + Dx(d), p.y + Dy(d))
  }

  /** The offset step and the composed closure agree everywhere, failures included. */
  lemma StepIsComposedStep(p: Position, d: Direction)
    ensures Step(p, d) == ComposedStep(p, d)
  {
  }

  /** The position `k` steps from `p` in direction `d`, if it is on the board. */
  function Walk(p: Position, d: Direction, k: nat): (r: Option<Position>)
    ensures r.Some? ==> Reach(r.value, d) + k == Reach(p, d)
    decreases k
  {
    if k == 0 then Some(p)
    else match Step(p, d)
      case Err(_) => None
      case Ok(q) => Walk(q, d, k - 1)
  }

  /** The loop of `get_reversable` for one direction: walk from `p` over discs of the other
      colour. Off the board or onto an empty cell the ray is discarded (`None`); onto a disc
      of colour `c` it yields the opponent discs passed over, nearest first. */
  function Ray(f: Field, p: Position, d: Direction, c: Color): (r: Option<seq<Position>>)
    decreases Reach(p, d)
    ensures r.Some? ==> forall q :: q in r.value ==>
              Get(f, q) == Putted(AnotherColor(c)) && Reach(q, d) < Reach(p, d)
  {
    match Step(p, d)
    case Err(_) => None
    case Ok(q) =>
      if Get(f, q) == Empty then None
      else if Get(f, q) == Putted(c) then Some([])
      else
        assert Get(f, q) == Putted(AnotherColor(c));
        match Ray(f, q, d, c)
        case None => None
        case Some(ks) => Some([q] + ks)
  }

  /** Ray `d` from `p` passes over opponent discs for steps 1 .. m-1 and reaches a disc of
      colour `c` at step `m`: the outflanking pattern of the rules. */
  ghost predicate Run(f: Field, p: Position, d: Direction, c: Color, m: nat) {
    && 1 <= m
    && Walk(p, d, m).Some?
    && Get(f, Walk(p, d, m).value) == Putted(c)
    && forall j :: 1 <= j < m ==>
         Walk(p, d, j).Some? && Get(f, Walk(p, d, j).value) == Putted(AnotherColor(c))
  }

  /** `q` lies strictly between `p` and a closing disc of colour `c` on some straight ray. */
  ghost predicate Flanked(f: Field, p: Position, c: Color, q: Position) {
    exists d: Direction, m: nat, j: nat ::
      1 <= j < m && Run(f, p, d, c, m) && Walk(p, d, j) == Some(q)
  }

  /** The concatenation of the rays kept for directions `ds`, in order. */
  function RaysFrom(f: Field, p: Position, c: Color, ds: seq<Direction>): (r: seq<Position>)
    ensures forall q :: q in r ==> Get(f, q) == Putted(AnotherColor(c)) && q != p
  {
    if ds == [] then []
    else
      (match Ray(f, p, ds[0], c) case Some(ks) => ks case None => [])
      + RaysFrom(f, p, c, ds[1..])
  }

  /** `get_reversable`: every disc a move of colour `c` at `p` would turn. */
  function Reversable(f: Field, p: Position, c: Color): (r: seq<Position>)
    ensures forall q :: q in r ==> Get(f, q) == Putted(AnotherColor(c)) && q != p
  {
    RaysFrom(f, p, c, Directions)
  }

  /** Walking `j + 1` steps is one step followed by `j` more. */
  lemma WalkShift(p: Position, d: Direction, q: Position, j: nat)
    requires Step(p, d) == Ok(q)
    ensures Walk(p, d, j + 1) == Walk(q, d, j)
  {
  }

  /** One opponent disc in front of a run from the next cell is a run one step longer. */
  lemma RunExtend(f: Field, p: Position, d: Direction, c: Color, q: Position, n: nat)
    requires Step(p, d) == Ok(q)
    requires Get(f, q) == Putted(AnotherColor(c))
    requires Run(f, q, d, c, n)
    ensures Run(f, p, d, c, n + 1)
  {
    WalkShift(p, d, q, 0);
    WalkShift(p, d, q, n);
    forall j | 1 <= j < n + 1
      ensures Walk(p, d, j).Some? && Get(f, Walk(p, d, j).value) == Putted(AnotherColor(c))
    {
      WalkShift(p, d, q, j - 1);
    }
  }

  /** A run longer than one step continues as a run from the next cell. */
  lemma RunShrink(f: Field, p: Position, d: Direction, c: Color, q: Position, m: nat)
    requires Step(p, d) == Ok(q)
    requires Run(f, p, d, c, m) && m > 1
    ensures Get(f, q) == Putted(AnotherColor(c))
    ensures Run(f, q, d, c, m - 1)
  {
    WalkShift(p, d, q, 0);
    WalkShift(p, d, q, m - 1);
    forall j | 1 <= j < m - 1
      ensures Walk(q, d, j).Some? && Get(f, Walk(q, d, j).value) == Putted(AnotherColor(c))
    {
      WalkShift(p, d, q, j);
    }
  }

  /** A ray that is kept is an outflanking run whose length is one more than the number
      of discs it lists. */
  lemma {:induction false} RaySound(f: Field, p: Position, d: Direction, c: Color)
    requires Ray(f, p, d, c).Some?
    ensures Run(f, p, d, c, |Ray(f, p, d, c).value| + 1)
    decreases Reach(p, d)
  {
    var q := Step(p, d).value;
    WalkShift(p, d, q, 0);
    if Get(f, q) != Putted(c) {
      RaySound(f, q, d, c);
      var ks' := Ray(f, q, d, c).value;
      assert |Ray(f, p, d, c).value| == |ks'| + 1;
      RunExtend(f, p, d, c, q, |ks'| + 1);
    }
  }

  /** A kept ray lists the cells of its run in order, nearest first. */
  lemma {:induction false} RayCells(f: Field, p: Position, d: Direction, c: Color)
    requires Ray(f, p, d, c).Some?
    ensures forall j :: 0 <= j < |Ray(f, p, d, c).value| ==>
              Walk(p, d, j + 1) == Some(Ray(f, p, d, c).value[j])
    decreases Reach(p, d)
  {
    var q := Step(p, d).value;
    var ks := Ray(f, p, d, c).value;
    if Get(f, q) != Putted(c) {
      RayCells(f, q, d, c);
      var ks' := Ray(f, q, d, c).value;
      assert ks == [q] + ks';
      forall j | 0 <= j < |ks|
        ensures Walk(p, d, j + 1) == Some(ks[j])
      {
        WalkShift(p, d, q, j);
        if j > 0 {
          assert ks[j] == ks'[j - 1];
        }
      }
    }
  }

  lemma {:induction false} RayComplete(f: Field, p: Position, d: Direction, c: Color, m: nat)
    requires Run(f, p, d, c, m)
    ensures Ray(f, p, d, c).Some?
    decreases m
  {
    assert Walk(p, d, 1).Some?;
    var q := Step(p, d).value;
    WalkShift(p, d, q, 0);
    if m > 1 {
      RunShrink(f, p, d, c, q, m);
      RayComplete(f, q, d, c, m - 1);
    }
  }

  /** A ray has at most one closing disc: the first disc of colour `c` ends it. */
  lemma RunUnique(f: Field, p: Position, d: Direction, c: Color, m1: nat, m2: nat)
    requires Run(f, p, d, c, m1) && Run(f, p, d, c, m2)
    ensures m1 == m2
  {
  }

  lemma {:induction false} RaysFromMember(f: Field, p: Position, c: Color, ds: seq<Direction>, q: Position)
    ensures q in RaysFrom(f, p, c, ds) <==>
            exists i :: 0 <= i < |ds| && Ray(f, p, ds[i], c).Some? && q in Ray(f, p, ds[i], c).value
  {
    if ds != [] {
      RaysFromMember(f, p, c, ds[1..], q);
      if q in RaysFrom(f, p, c, ds[1..]) {
        var i :| 0 <= i < |ds[1..]| && Ray(f, p, ds[1..][i], c).Some? && q in Ray(f, p, ds[1..][i], c).value;
        assert ds[i + 1] == ds[1..][i];
      }
      if exists i :: 0 <= i < |ds| && Ray(f, p, ds[i], c).Some? && q in Ray(f, p, ds[i], c).value {
        var i :| 0 <= i < |ds| && Ray(f, p, ds[i], c).Some? && q in Ray(f, p, ds[i], c).value;
        if i > 0 {
          assert ds[1..][i - 1] == ds[i];
        }
      }
    }
  }

  lemma ReversableOnlyFlanked(f: Field, p: Position, c: Color, q: Position)
    requires q in Reversable(f, p, c)
    ensures Flanked(f, p, c, q)
  {
    RaysFromMember(f, p, c, Directions, q);
    var i :| 0 <= i < |Directions| && Ray(f, p, Directions[i], c).Some?
             && q in Ray(f, p, Directions[i], c).value;
    var d := Directions[i];
    var ks := Ray(f, p, d, c).value;
    RaySound(f, p, d, c);
    RayCells(f, p, d, c);
    var j :| 0 <= j < |ks| && ks[j] == q;
    assert 1 <= j + 1 < |ks| + 1 && Run(f, p, d, c, |ks| + 1) && Walk(p, d, j + 1) == Some(q);
  }

  lemma ReversableAllFlanked(f: Field, p: Position, c: Color, q: Position)
    requires Flanked(f, p, c, q)
    ensures q in Reversable(f, p, c)
  {
    var d: Direction, m: nat, j: nat :| 1 <= j < m && Run(f, p, d, c, m) && Walk(p, d, j) == Some(q);
    RayComplete(f, p, d, c, m);
    RaySound(f, p, d, c);
    RayCells(f, p, d, c);
    var ks := Ray(f, p, d, c).value;
    RunUnique(f, p, d, c, m, |ks| + 1);
    assert Walk(p, d, (j - 1) + 1) == Some(ks[j - 1]);
    assert ks[j - 1] == q;
    DirectionsComplete(d);
    var i :| 0 <= i < |Directions| && Directions[i] == d;
    RaysFromMember(f, p, c, Directions, q);
  }

  /** `get_reversable` returns exactly the outflanked discs: a position is listed if and
      only if it lies strictly inside an opponent run closed by a disc of colour `c`. */
  lemma ReversableIff(f: Field, p: Position, c: Color, q: Position)
    ensures q in Reversable(f, p, c) <==> Flanked(f, p, c, q)
  {
    if q in Reversable(f, p, c) {
      ReversableOnlyFlanked(f, p, c, q);
    }
    if Flanked(f, p, c, q) {
      ReversableAllFlanked(f, p, c, q);
    }
  }

  /** A move is legal exactly on an empty cell from which it outflanks at least one disc. */
  lemma CheckPutableIff(f: Field, p: Position, c: Color)
    ensures CheckPutable(f, p, c) <==> Get(f, p) == Empty && exists q :: Flanked(f, p, c, q)
  {
    var rs := Reversable(f, p, c);
    if |rs| != 0 {
      ReversableIff(f, p, c, rs[0]);
    }
    if exists q :: Flanked(f, p, c, q) {
      var q :| Flanked(f, p, c, q);
      ReversableIff(f, p, c, q);
    }
  }

  /** `j` times a unit offset `u` (-1, 0 or 1), written without a multiplication. */
  function Signed(j: int, u: int): int {
    if u < 0 then -j else if u > 0 then j else 0
  }

  /** `q` lies `j` offsets of direction `d` away from `p`. */
  predicate Along(p: Position, d: Direction, j: int, q: Position) {
    q.x == p.x + Signed(j, Dx(d)) && q.y == p.y + Signed(j, Dy(d))
  }

  lemma SignedSucc(j: int, u: int)
    requires -1 <= u <= 1
    ensures Signed(j - 1, u) + u == Signed(j, u)
  {
  }

  /** One step moves by the offsets of its direction. */
  lemma StepOffset(p: Position, d: Direction, q: Position)
    requires Step(p, d) == Ok(q)
    ensures q.x == p.x + Dx(d) && q.y == p.y + Dy(d)
  {
  }

  /** `j` steps in direction `d` move `j` offsets of `d` away. */
  lemma {:induction false} WalkOffset(p: Position, d: Direction, j: nat)
    requires Walk(p, d, j).Some?
    ensures Walk(p, d, j).value.x == p.x + Signed(j, Dx(d))
    ensures Walk(p, d, j).value.y == p.y + Signed(j, Dy(d))
    decreases j
  {
    if j > 0 {
      var q := Step(p, d).value;
      WalkShift(p, d, q, j - 1);
      WalkOffset(q, d, j - 1);
      StepOffset(p, d, q);
      SignedSucc(j, Dx(d));
      SignedSucc(j, Dy(d));
    }
  }

  /** Every disc `get_reversable` lists lies on one of the eight straight lines through `p`,
      at least one step away. */
  lemma ReversableOnLine(f: Field, p: Position, c: Color, q: Position)
    requires q in Reversable(f, p, c)
    ensures exists d: Direction, j: nat :: 1 <= j && Along(p, d, j, q)
  {
    ReversableOnlyFlanked(f, p, c, q);
    var d: Direction, m: nat, j: nat :| 1 <= j < m && Run(f, p, d, c, m) && Walk(p, d, j) == Some(q);
    WalkOffset(p, d, j);
    assert Along(p, d, j, q);
  }

  /** `check_putable`. `CheckPutableIff` characterizes it by the rules of the game. */
  function CheckPutable(f: Field, p: Position, c: Color): bool {
    if Get(f, p) != Empty then false
    else if |Reversable(f, p, c)| == 0 then false
    else true
  }

  /** `q` shares no row, column or diagonal with `p`. */
  predicate OffLines(p: Position, q: Position) {
    && p.x != q.x && p.y != q.y
    && q.x - p.x != q.y - p.y && q.x - p.x != p.y - q.y
  }

  /** A move at `p` can only turn discs on the eight lines through `p`. */
  lemma OffLinesNotReversable(f: Field, p: Position, c: Color, q: Position)
    requires OffLines(p, q)
    ensures q !in Reversable(f, p, c)
  {
    if q in Reversable(f, p, c) {
      ReversableOnLine(f, p, c, q);
      assert false;
    }
  }

  /** Sets every cell of `ps`, in order, to the current value at `point` (the `for_each`
      of `auto_reverse`, which reads `field.get(point)` afresh for every cell). */
  function SetEach(f: Field, ps: seq<Position>, point: Position): (r: Field)
    ensures point !in ps ==>
              forall q :: Get(r, q) == if q in ps then Get(f, point) else Get(f, q)
    decreases |ps|
  {
    if ps == [] then f
    else SetEach(Set(f, ps[0], Get(f, point)), ps[1..], point)
  }

  /** `auto_reverse`: every reversible cell takes the value at `point`; every other cell,
      `point` included, keeps its value. */
  function AutoReverse(f: Field, p: Position, c: Color): (r: Field)
    ensures forall q :: Get(r, q) == if q in Reversable(f, p, c) then Get(f, p) else Get(f, q)
  {
    SetEach(f, Reversable(f, p, c), p)
  }

  /** Rays never look at their own origin, so overwriting the origin cell does not change
      any ray cast from it. */
  lemma {:induction false} RayIgnoresBehind(f: Field, r: Position, m: Masu, p: Position, d: Direction, c: Color)
    requires Reach(p, d) <= Reach(r, d)
    ensures Ray(Set(f, r, m), p, d, c) == Ray(f, p, d, c)
    decreases Reach(p, d)
  {
    match Step(p, d)
    case Err(_) =>
    case Ok(q) =>
      assert q != r;
      RayIgnoresBehind(f, r, m, q, d, c);
  }

  lemma {:induction false} RaysFromIgnoreOrigin(f: Field, p: Position, m: Masu, c: Color, ds: seq<Direction>)
    ensures RaysFrom(Set(f, p, m), p, c, ds) == RaysFrom(f, p, c, ds)
  {
    if ds != [] {
      RayIgnoresBehind(f, p, m, p, ds[0], c);
      RaysFromIgnoreOrigin(f, p, m, c, ds[1..]);
    }
  }

  /** Placing the disc before flipping (as the move step does) does not change what flips. */
  lemma ReversableIgnoresOrigin(f: Field, p: Position, m: Masu, c: Color)
    ensures Reversable(Set(f, p, m), p, c) == Reversable(f, p, c)
  {
    RaysFromIgnoreOrigin(f, p, m, c, Directions);
  }

  /** `Field::puttable`: the two nested loops over rows and columns that stop at the first
      cell where colour `c` may move, written as the bounded search they perform. */
  function Puttable(f: Field, c: Color): bool {
    exists x: int, y: int | 0 <= x < 8 && 0 <= y < 8 :: CheckPutable(f, Position(x, y), c)
  }

  /** The scan finds a legal move exactly when one exists somewhere on the board. */
  lemma PuttableIff(f: Field, c: Color)
    ensures Puttable(f, c) <==> exists p :: CheckPutable(f, p, c)
  {
    if exists p :: CheckPutable(f, p, c) {
      var p :| CheckPutable(f, p, c);
      assert Position(p.x, p.y) == p;
    }
  }

  datatype GameResult = Win(winner: Color) | Draw | Playing

  /** Neither colour has a legal move. */
  ghost predicate NoMoves(f: Field) {
    forall p, c :: !CheckPutable(f, p, c)
  }

  /** `Field::get_gameresult`. `GameResultSpec` characterizes it. */
  function GetGameResult(f: Field): GameResult {
    if Puttable(f, White) || Puttable(f, Black) then Playing
    else
      var bcount := Count(f, Black);
      var wcount := Count(f, White);
      if bcount == wcount then Draw
      else if bcount > wcount then Win(Black)
      else Win(White)
  }

  /** Neither scan finds a move exactly when neither colour has one. */
  lemma NoMovesIff(f: Field)
    ensures NoMoves(f) <==> !Puttable(f, White) && !Puttable(f, Black)
  {
    PuttableIff(f, White);
    PuttableIff(f, Black);
    if !NoMoves(f) {
      var p, c :| CheckPutable(f, p, c);
      match c
      case White =>
      case Black =>
    }
  }

  /** The game goes on while either colour can move; once neither can, equal disc counts
      are a draw and otherwise the colour with more discs wins. */
  lemma GameResultSpec(f: Field)
    ensures GetGameResult(f) == Playing <==> !NoMoves(f)
    ensures GetGameResult(f) == Draw <==> NoMoves(f) && Count(f, Black) == Count(f, White)
    ensures forall c :: GetGameResult(f) == Win(c) <==>
              NoMoves(f) && Count(f, c) > Count(f, AnotherColor(c))
  {
    NoMovesIff(f);
  }

  /** A ray that leaves the board or meets an empty cell at its first step is discarded. */
  lemma RayBlocked(f: Field, p: Position, d: Direction, c: Color)
    requires Step(p, d).Err? || Get(f, Step(p, d).value) == Empty
    ensures Ray(f, p, d, c) == None
  {
  }

  /** One opponent disc followed by a disc of colour `c` is a ray of exactly that disc. */
  lemma RayOneFlank(f: Field, p: Position, d: Direction, c: Color, q: Position, r: Position)
    requires Step(p, d) == Ok(q) && Get(f, q) == Putted(AnotherColor(c))
    requires Step(q, d) == Ok(r) && Get(f, r) == Putted(c)
    ensures Ray(f, p, d, c) == Some([q])
  {
    assert Ray(f, q, d, c) == Some([]);
    assert Get(f, q) != Putted(c) && Get(f, q) != Empty;
    assert [q] + [] == [q];
  }

  /** An empty cell with one opponent disc and then an own disc in some direction is a
      legal move. */
  lemma PutableByOneFlank(f: Field, p: Position, d: Direction, c: Color, q: Position, r: Position)
    requires Get(f, p) == Empty
    requires Step(p, d) == Ok(q) && Get(f, q) == Putted(AnotherColor(c))
    requires Step(q, d) == Ok(r) && Get(f, r) == Putted(c)
    ensures CheckPutable(f, p, c)
  {
    RayOneFlank(f, p, d, c, q, r);
    DirectionsComplete(d);
    var i :| 0 <= i < |Directions| && Directions[i] == d;
    RaysFromMember(f, p, c, Directions, q);
  }

  /** A cell whose every ray is discarded turns nothing. */
  lemma ReversableNone(f: Field, p: Position, c: Color)
    requires forall d :: Ray(f, p, d, c) == None
    ensures Reversable(f, p, c) == []
  {
    var rs := Reversable(f, p, c);
    if rs != [] {
      RaysFromMember(f, p, c, Directions, rs[0]);
      assert false;
    }
  }

  /** check_putable_test, first half: on the initial field black may not move in the
      corner (0,0), whose three neighbours are empty. */
  lemma CheckPutableCornerTest()
    ensures !CheckPutable(NewField(), Position(0, 0), Black)
  {
    var f := NewField();
    var corner := Position(0, 0);
    forall d ensures Ray(f, corner, d, Black) == None {
      RayBlocked(f, corner, d, Black);
    }
    ReversableNone(f, corner, Black);
  }

  /** check_putable_test, second half: black may move at (4,2), outflanking (4,3). */
  lemma CheckPutableTest()
    ensures CheckPutable(NewField(), Position(4, 2), Black)
  {
    PutableByOneFlank(NewField(), Position(4, 2), East, Black, Position(4, 3), Position(4, 4));
  }

  /** auto_reverse_test: with black at (3,3) and (3,5) around white at (3,4), reversing from
      (3,5) turns (3,4) black. */
  lemma AutoReverseTest()
    ensures
      var f := Set(Set(Set(NewField(), Position(3, 3), Putted(Black)),
                       Position(3, 4), Putted(White)),
                   Position(3, 5), Putted(Black));
      Get(AutoReverse(f, Position(3, 5), Black), Position(3, 4)) == Putted(Black)
  {
    var f := Set(Set(Set(NewField(), Position(3, 3), Putted(Black)),
                     Position(3, 4), Putted(White)),
                 Position(3, 5), Putted(Black));
    RayOneFlank(f, Position(3, 5), West, Black, Position(3, 4), Position(3, 3));
    RaysFromMember(f, Position(3, 5), Black, Directions, Position(3, 4));
    assert Directions[7] == West;
  }
}
