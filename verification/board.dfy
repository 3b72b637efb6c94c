/** Positions, colours, cells and the 8x8 field of the Reversi rule engine
    (reversi_core/src/lib.rs). */
module Board {
  import opened Results

  /** One board coordinate: both axes run from 0 to 7. */
  type Coord = i: int | 0 <= i < 8

  /** A square of the board. `x` is the row (changed by `Up`/`Down`), `y` the column
      (changed by `Left`/`Right`). Only `NewPosition` and the steps below build one from
      arbitrary integers; the subset type keeps every value on the board. */
  datatype Position = Position(x: Coord, y: Coord)

  /** The single error of the engine: a coordinate left [0,7]. */
  datatype FieldOutError = FieldOutError

  /** Smart constructor: fails exactly when a coordinate lies outside [0,7]. */
  function NewPosition(x: int, y: int): (r: Result<Position, FieldOutError>)
    ensures r.Ok? <==> 0 <= x <= 7 && 0 <= y <= 7
    ensures r.Ok? ==> r.value.x == x && r.value.y == y
  {
    if x < 0 || y < 0 || 7 < x || 7 < y then Err(FieldOutError)
    else Ok(Position(x, y))
  }

  function Up(p: Position): (r: Result<Position, FieldOutError>)
    ensures r.Ok? <==> 1 <= p.x
    ensures r.Ok? ==> r.value.x == p.x - 1 && r.value.y == p.y
  {
    NewPosition(p.x - 1, p.y)
  }

  function Down(p: Position): (r: Result<Position, FieldOutError>)
    ensures r.Ok? <==> p.x <= 6
    ensures r.Ok? ==> r.value.x == p.x + 1 && r.value.y == p.y
  {
    NewPosition(p.x + 1, p.y)
  }

  function Left(p: Position): (r: Result<Position, FieldOutError>)
    ensures r.Ok? <==> 1 <= p.y
    ensures r.Ok? ==> r.value.x == p.x && r.value.y == p.y - 1
  {
    NewPosition(p.x, p.y - 1)
  }

  function Right(p: Position): (r: Result<Position, FieldOutError>)
    ensures r.Ok? <==> p.y <= 6
    ensures r.Ok? ==> r.value.x == p.x && r.value.y == p.y + 1
  {
    NewPosition(p.x, p.y + 1)
  }

  datatype Color = Black | White

  /** A cell: empty, or holding a disc of one colour. */
  datatype Masu = Empty | Putted(color: Color)

  function AnotherColor(c: Color): (r: Color)
    ensures r != c
  {
    match c
    case Black => White
    case White => Black
  }

  lemma AnotherColorInvolution(c: Color)
    ensures AnotherColor(c) != c
    ensures AnotherColor(AnotherColor(c)) == c
  {
  }

  /** The 8x8 grid, stored row by row: cell (x, y) lives at index 8 * x + y. */
  type Field = s: seq<Masu> | |s| == 64 witness seq(64, _ => Empty)

  /** Row-major offset of cell (x, y). */
  function Offset(x: Coord, y: Coord): (i: nat)
    ensures i < 64
  {
    8 * x + y
  }

  function Index(p: Position): (i: nat)
    ensures i < 64
  {
    Offset(p.x, p.y)
  }

  /** The inverse of `Index`. */
  function PositionAt(i: nat): (p: Position)
    requires i < 64
    ensures Index(p) == i
  {
    Position(i / 8, i % 8)
  }

  lemma IndexRoundTrip(p: Position)
    ensures PositionAt(Index(p)) == p
  {
  }

  function Get(f: Field, p: Position): Masu {
    f[Offset(p.x, p.y)]
  }

  /** Overwrites one cell without any legality check. */
  function Set(f: Field, p: Position, m: Masu): (r: Field)
    ensures Get(r, p) == m
    ensures forall q {:trigger Get(r, q)} :: q != p ==> Get(r, q) == Get(f, q)
  {
    f[Index(p) := m]
  }

  /** The empty grid the constructor starts from. */
  function EmptyField(): Field { seq(64, _ => Empty) }

  /** `Field::new`: the four centre discs, every other cell empty. */
  function NewField(): (f: Field)
    ensures Get(f, Position(3, 3)) == Putted(Black)
    ensures Get(f, Position(4, 4)) == Putted(Black)
    ensures Get(f, Position(3, 4)) == Putted(White)
    ensures Get(f, Position(4, 3)) == Putted(White)
    ensures forall p: Position :: !(3 <= p.x <= 4 && 3 <= p.y <= 4) ==> Get(f, p) == Empty
  {
    Set(Set(Set(Set(EmptyField(), Position(3, 3), Putted(Black)),
                    Position(4, 4), Putted(Black)),
                Position(3, 4), Putted(White)),
        Position(4, 3), Putted(White))
  }

  /** Number of cells of `s` equal to `m`, counted cell by cell as `Field::count` filters
      the flattened grid. */
  function CountIn(s: seq<Masu>, m: Masu): (n: nat)
    ensures n <= |s|
  {
    if s == [] then 0 else (if s[0] == m then 1 else 0) + CountIn(s[1..], m)
  }

  /** `Field::count`: the number of discs of colour `c`, as the multiplicity of that disc
      among the 64 cells. `CountInIsMultiplicity` shows it equals the cell-by-cell count. */
  function Count(f: Field, c: Color): nat {
    multiset(f)[Putted(c)]
  }

  /** The cell-by-cell count agrees with the multiplicity of `m` in the cells. */
  lemma {:induction false} CountInIsMultiplicity(s: seq<Masu>, m: Masu)
    ensures CountIn(s, m) == multiset(s)[m]
  {
    if s != [] {
      CountInIsMultiplicity(s[1..], m);
      assert s == [s[0]] + s[1..];
      assert multiset(s) == multiset{s[0]} + multiset(s[1..]);
    }
  }

  lemma CountIsCountIn(f: Field, c: Color)
    ensures Count(f, c) == CountIn(f, Putted(c))
  {
    CountInIsMultiplicity(f, Putted(c));
  }

  /** Every cell is empty, black or white. */
  lemma {:induction false} CountInPartition(s: seq<Masu>)
    ensures CountIn(s, Empty) + CountIn(s, Putted(Black)) + CountIn(s, Putted(White)) == |s|
  {
    if s != [] {
      CountInPartition(s[1..]);
      match s[0]
      case Empty =>
      case Putted(Black) =>
      case Putted(White) =>
    }
  }

  lemma CountTotal(f: Field)
    ensures Count(f, Black) + Count(f, White) + CountIn(f, Empty) == 64
    ensures Count(f, Black) + Count(f, White) <= 64
  {
    CountIsCountIn(f, Black);
    CountIsCountIn(f, White);
    CountInPartition(f);
  }

  /** Overwriting index `i` with `v` moves one unit of count from `s[i]` to `v`. */
  lemma {:induction false} CountInUpdate(s: seq<Masu>, i: nat, v: Masu, m: Masu)
    requires i < |s|
    ensures CountIn(s[i := v], m)
            == CountIn(s, m) - (if s[i] == m then 1 else 0) + (if v == m then 1 else 0)
  {
    if i == 0 {
      assert s[i := v][1..] == s[1..];
    } else {
      CountInUpdate(s[1..], i - 1, v, m);
      assert s[i := v][1..] == s[1..][i - 1 := v];
    }
  }

  lemma CountAfterSet(f: Field, p: Position, m: Masu, c: Color)
    ensures Count(Set(f, p, m), c)
            == Count(f, c) - (if Get(f, p) == Putted(c) then 1 else 0)
               + (if m == Putted(c) then 1 else 0)
  {
    CountIsCountIn(f, c);
    CountIsCountIn(Set(f, p, m), c);
    CountInUpdate(f, Index(p), m, Putted(c));
  }

  /** A disc put on an empty cell raises its colour's count by exactly one. */
  lemma CountAfterPlace(f: Field, p: Position, c: Color)
    requires Get(f, p) == Empty
    ensures Count(Set(f, p, Putted(c)), c) == Count(f, c) + 1
    ensures Count(Set(f, p, Putted(c)), AnotherColor(c)) == Count(f, AnotherColor(c))
  {
    CountAfterSet(f, p, Putted(c), c);
    CountAfterSet(f, p, Putted(c), AnotherColor(c));
  }

  /** If every `m` in `a` is still an `m` in `b`, `b` has at least as many; one extra `m`
      in `b` makes it strictly more. */
  lemma {:induction false} CountInMonotone(a: seq<Masu>, b: seq<Masu>, m: Masu)
    requires |a| == |b|
    requires forall i :: 0 <= i < |a| && a[i] == m ==> b[i] == m
    ensures CountIn(a, m) <= CountIn(b, m)
    ensures (exists i :: 0 <= i < |a| && a[i] != m && b[i] == m) ==> CountIn(a, m) < CountIn(b, m)
  {
    if a != [] {
      CountInMonotone(a[1..], b[1..], m);
      if exists i :: 0 <= i < |a| && a[i] != m && b[i] == m {
        var i :| 0 <= i < |a| && a[i] != m && b[i] == m;
        if i > 0 {
          assert a[1..][i - 1] != m && b[1..][i - 1] == m;
        }
      }
    }
  }

  /** Cells that agree on being `m` have equal counts of `m`. */
  lemma CountInSamePattern(a: seq<Masu>, b: seq<Masu>, m: Masu)
    requires |a| == |b|
    requires forall i :: 0 <= i < |a| ==> (a[i] == m <==> b[i] == m)
    ensures CountIn(a, m) == CountIn(b, m)
  {
    CountInMonotone(a, b, m);
    CountInMonotone(b, a, m);
  }

  lemma {:induction false} CountInAllEmpty(s: seq<Masu>, c: Color)
    requires forall i :: 0 <= i < |s| ==> s[i] == Empty
    ensures CountIn(s, Putted(c)) == 0
  {
    if s != [] {
      CountInAllEmpty(s[1..], c);
    }
  }

  /** The initial field holds two discs of each colour (the position init_field_test
      checks). */
  lemma NewFieldCounts()
    ensures Count(NewField(), Black) == 2
    ensures Count(NewField(), White) == 2
  {
    var f0 := Set(EmptyField(), Position(3, 3), Putted(Black));
    var f1 := Set(f0, Position(4, 4), Putted(Black));
    var f2 := Set(f1, Position(3, 4), Putted(White));
    forall c: Color ensures Count(EmptyField(), c) == 0 {
      CountInAllEmpty(EmptyField(), c);
      CountIsCountIn(EmptyField(), c);
    }
    CountAfterSet(EmptyField(), Position(3, 3), Putted(Black), Black);
    CountAfterSet(f0, Position(4, 4), Putted(Black), Black);
    CountAfterSet(f1, Position(3, 4), Putted(White), Black);
    CountAfterSet(f2, Position(4, 3), Putted(White), Black);
    CountAfterSet(EmptyField(), Position(3, 3), Putted(Black), White);
    CountAfterSet(f0, Position(4, 4), Putted(Black), White);
    CountAfterSet(f1, Position(3, 4), Putted(White), White);
    CountAfterSet(f2, Position(4, 3), Putted(White), White);
  }

  /** count_test, for every empty cell of the initial field and not only (0,0): one more
      black disc makes three. */
  lemma CountTest(p: Position)
    requires Get(NewField(), p) == Empty
    ensures Count(Set(NewField(), p, Putted(Black)), Black) == 3
  {
    NewFieldCounts();
    CountAfterPlace(NewField(), p, Black);
  }
}
