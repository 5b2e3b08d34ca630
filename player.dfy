/**
 * Ship placement from player.c: the obstruction test, writing a ship into the
 * grid, the random placement over every (row, column, direction) triple, the
 * random fleet, and the coordinate check applied to a typed location.
 * The random number is a parameter (`roll`); reading stdin is not modelled.
 */
module Player {
  import opened Wrappers
  import opened Board

  // ---------------------------------------------------------------------------
  // Coordinates (player_get_coord)
  // ---------------------------------------------------------------------------

  /** The check and mapping player_get_coord applies to a column letter and a
      row number it has parsed: 'A'..'J' and 1..10, giving (row - 1, col - 'A'). */
  function CoordOf(col: char, row: int): (rc: Option<(int, int)>)
    ensures rc.Some? <==> 'A' <= col <= 'J' && 1 <= row <= 10
    ensures rc.Some? ==> 0 <= rc.value.0 < BoardSize && 0 <= rc.value.1 < BoardSize
  {
    if row < 1 || row > 10 then None
    else if col < 'A' || col > 'J' then None
    else Some((row - 1, col as int - 'A' as int))
  }

  /** The column letter of column `c`, as the boards label it. */
  function ColumnLetter(c: int): (ch: char)
    requires 0 <= c < BoardSize
    ensures 'A' <= ch <= 'J'
  {
    ('A' as int + c) as char
  }

  /** Every cell is reachable: its letter and 1-based row number map back to it. */
  lemma CoordRoundTrip(r: int, c: int)
    requires 0 <= r < BoardSize && 0 <= c < BoardSize
    ensures CoordOf(ColumnLetter(c), r + 1) == Some((r, c))
  {
  }

  /** Two accepted inputs that name the same cell are the same input. */
  lemma CoordInjective(col1: char, row1: int, col2: char, row2: int)
    requires CoordOf(col1, row1).Some? && CoordOf(col1, row1) == CoordOf(col2, row2)
    ensures col1 == col2 && row1 == row2
  {
  }

  // ---------------------------------------------------------------------------
  // Obstruction (ship_obstructed)
  // ---------------------------------------------------------------------------

  /** Row of the i-th cell of a ship at (r, c): it grows when dir is non-zero (down). */
  function StepRow(r: int, dir: int, i: int): int
  {
    if dir != 0 then r + i else r
  }

  /** Column of the i-th cell of a ship at (r, c): it grows when dir is zero (right). */
  function StepCol(c: int, dir: int, i: int): int
  {
    if dir != 0 then c else c + i
  }

  /** A cell a ship cannot use: past the last row or column, or holding a ship. */
  predicate Blocked(cells: seq<Ship>, r: int, c: int)
    requires |cells| == CellCount && 0 <= r && 0 <= c
  {
    r >= BoardSize || c >= BoardSize || cells[Flat(r, c)] != ShipNone
  }

  /** ship_obstructed's answer: one of the `size` cells from (r, c) is blocked. */
  predicate Obstructed(cells: seq<Ship>, r: int, c: int, dir: int, size: int)
    requires |cells| == CellCount && 0 <= r && 0 <= c
  {
    exists i :: 0 <= i < size && Blocked(cells, StepRow(r, dir, i), StepCol(c, dir, i))
  }

  /** A location that is not obstructed lies on the board and covers only empty cells. */
  lemma UnobstructedFits(cells: seq<Ship>, r: int, c: int, dir: int, size: int)
    requires |cells| == CellCount && 0 <= r && 0 <= c && size > 0
    requires !Obstructed(cells, r, c, dir, size)
    ensures r < BoardSize && c < BoardSize
    ensures dir != 0 ==> r + size <= BoardSize
    ensures dir == 0 ==> c + size <= BoardSize
    ensures forall i :: 0 <= i < size ==>
      StepRow(r, dir, i) < BoardSize && StepCol(c, dir, i) < BoardSize &&
      cells[Flat(StepRow(r, dir, i), StepCol(c, dir, i))] == ShipNone
  {
    assert !Blocked(cells, StepRow(r, dir, 0), StepCol(c, dir, 0));
    assert !Blocked(cells, StepRow(r, dir, size - 1), StepCol(c, dir, size - 1));
  }

  /** ship_obstructed: walk the `size` cells, stopping at the first blocked one. */
  method ShipObstructed(board: OurBoard, r: int, c: int, dir: int, size: int) returns (obstructed: bool)
    requires board.WellFormed() && 0 <= r && 0 <= c
    ensures obstructed == Obstructed(board.Cells(), r, c, dir, size)
  {
    ghost var cells := board.Cells();
    var curRow, curCol := r, c;
    var i := 0;
    while i < size
      invariant 0 <= i && (i <= size || i == 0)
      invariant curRow == StepRow(r, dir, i) && curCol == StepCol(c, dir, i)
      invariant !Obstructed(cells, r, c, dir, i)
    {
      if curRow >= BoardSize || curCol >= BoardSize {
        assert Blocked(cells, StepRow(r, dir, i), StepCol(c, dir, i));
        return true;
      }
      if board.ships[curRow, curCol] != ShipNone {
        assert cells[Flat(curRow, curCol)] == board.ships[curRow, curCol];
        assert Blocked(cells, StepRow(r, dir, i), StepCol(c, dir, i));
        return true;
      }
      assert cells[Flat(curRow, curCol)] == board.ships[curRow, curCol];
      ObstructedStep(cells, r, c, dir, i);
      if dir != 0 {
        curRow := curRow + 1;
      } else {
        curCol := curCol + 1;
      }
      i := i + 1;
    }
    return false;
  }

  /** One more cell is obstructed exactly when the ones before were or the new one is blocked. */
  lemma ObstructedStep(cells: seq<Ship>, r: int, c: int, dir: int, i: int)
    requires |cells| == CellCount && 0 <= r && 0 <= c && 0 <= i
    ensures Obstructed(cells, r, c, dir, i + 1)
        <==> Obstructed(cells, r, c, dir, i) || Blocked(cells, StepRow(r, dir, i), StepCol(c, dir, i))
  {
  }

  /** With a size of zero nothing is ever obstructed. */
  lemma ZeroSizeNeverObstructed(cells: seq<Ship>, r: int, c: int, dir: int)
    requires |cells| == CellCount && 0 <= r && 0 <= c
    ensures !Obstructed(cells, r, c, dir, 0)
  {
  }

  // ---------------------------------------------------------------------------
  // Writing a ship (place_ship)
  // ---------------------------------------------------------------------------

  /** Cell (x, y) is one of the first `n` cells of a ship at (r, c) in direction dir. */
  predicate InShip(r: int, c: int, dir: int, n: int, x: int, y: int)
  {
    if dir != 0 then y == c && r <= x < r + n else x == r && c <= y < c + n
  }

  /** The i-th cell of a ship is in it exactly when i < n. */
  lemma InShipStep(r: int, c: int, dir: int, n: int, i: int)
    requires 0 <= i
    ensures InShip(r, c, dir, n, StepRow(r, dir, i), StepCol(c, dir, i)) <==> i < n
  {
  }

  /** place_ship: write `ship` into the `size` cells from (r, c), each of which
      must be empty, counting every cell written in ship_counts. */
  method PlaceShip(board: OurBoard, ship: Ship, r: int, c: int, dir: int, size: int)
    requires board.Valid() && 0 <= r && 0 <= c
    requires !Obstructed(board.Cells(), r, c, dir, size)
    modifies board.ships, board.shipCounts
    ensures board.Valid()
    ensures forall x, y :: 0 <= x < BoardSize && 0 <= y < BoardSize ==>
      board.ships[x, y] == if InShip(r, c, dir, size, x, y) then ship else old(board.ships[x, y])
    ensures forall k :: 0 <= k < ShipCount ==>
      board.shipCounts[k] == old(board.shipCounts[k]) + (if k == ShipIndex(ship) && size > 0 then size else 0)
    ensures ship != ShipNone ==>
      Occupied(board.Cells()) == old(Occupied(board.Cells())) + (if size > 0 then size else 0)
  {
    ghost var start := board.Cells();
    var cr, cc := r, c;
    var i := 0;
    while i < size
      invariant 0 <= i && (i <= size || i == 0)
      invariant cr == StepRow(r, dir, i) && cc == StepCol(c, dir, i)
      invariant board.Valid()
      invariant forall x, y :: 0 <= x < BoardSize && 0 <= y < BoardSize ==>
        board.ships[x, y] == if InShip(r, c, dir, i, x, y) then ship else old(board.ships[x, y])
      invariant forall k :: 0 <= k < ShipCount ==>
        board.shipCounts[k] == old(board.shipCounts[k]) + (if k == ShipIndex(ship) then i else 0)
      invariant ship != ShipNone ==> Occupied(board.Cells()) == Occupied(start) + i
    {
      assert !Blocked(start, cr, cc);
      InShipStep(r, c, dir, i, i);
      FillCell(board, ship, cr, cc);
      if dir != 0 {
        cr := cr + 1;
      } else {
        cc := cc + 1;
      }
      i := i + 1;
    }
  }

  /** One step of place_ship: an empty cell receives `ship` and the kind's
      count goes up by one. */
  method FillCell(board: OurBoard, ship: Ship, r: int, c: int)
    requires board.Valid() && 0 <= r < BoardSize && 0 <= c < BoardSize
    requires board.ships[r, c] == ShipNone
    modifies board.ships, board.shipCounts
    ensures board.Valid()
    ensures forall x, y :: 0 <= x < BoardSize && 0 <= y < BoardSize ==>
      board.ships[x, y] == if x == r && y == c then ship else old(board.ships[x, y])
    ensures forall k :: 0 <= k < ShipCount ==>
      board.shipCounts[k] == old(board.shipCounts[k]) + (if k == ShipIndex(ship) then 1 else 0)
    ensures ship != ShipNone ==> Occupied(board.Cells()) == old(Occupied(board.Cells())) + 1
  {
    ghost var before := board.Cells();
    board.ships[r, c] := ship;
    WriteCell(board, before, r, c, ship);
    FlatIndex(r, c);
    forall k
      ensures CountShip(board.Cells(), k)
           == CountShip(before, k) - (if k == ShipNone then 1 else 0) + (if k == ship then 1 else 0)
    {
      CountShipUpdate(before, Flat(r, c), ship, k);
    }
    board.shipCounts[ShipIndex(ship)] := board.shipCounts[ShipIndex(ship)] + 1;
  }

  /** After writing one cell, the row-major view changed in that cell only. */
  lemma WriteCell(board: OurBoard, before: seq<Ship>, r: int, c: int, v: Ship)
    requires board.WellFormed() && |before| == CellCount
    requires 0 <= r < BoardSize && 0 <= c < BoardSize && board.ships[r, c] == v
    requires forall x, y :: 0 <= x < BoardSize && 0 <= y < BoardSize && (x != r || y != c) ==>
      board.ships[x, y] == before[Flat(x, y)]
    ensures board.Cells() == before[Flat(r, c) := v]
  {
    var now := board.Cells();
    FlatIndex(r, c);
    forall n | 0 <= n < CellCount
      ensures now[n] == before[Flat(r, c) := v][n]
    {
      var x, y := n / BoardSize, n % BoardSize;
      assert n == Flat(x, y);
    }
  }

  // ---------------------------------------------------------------------------
  // Random placement (place_ship_random)
  // ---------------------------------------------------------------------------
  // place_ship_random visits every (row, column, direction) triple with rows
  // outermost, then columns, then the two directions.  The counts below follow
  // that order: a row, then the columns of a row, then a cell's directions.

  /** 1 when (r, c, dir) leaves room for a ship of `size`, else 0. */
  function Room(cells: seq<Ship>, size: int, r: int, c: int, dir: int): nat
    requires |cells| == CellCount && 0 <= r && 0 <= c
  {
    if Obstructed(cells, r, c, dir, size) then 0 else 1
  }

  /** Unobstructed triples in row r with a column below n. */
  function CountInRow(cells: seq<Ship>, size: int, r: int, n: int): (count: nat)
    requires |cells| == CellCount && 0 <= r && 0 <= n
    ensures count <= 2 * n
  {
    if n == 0 then 0
    else CountInRow(cells, size, r, n - 1) + Room(cells, size, r, n - 1, 0) + Room(cells, size, r, n - 1, 1)
  }

  /** Unobstructed triples in the rows below m. */
  function CountInRows(cells: seq<Ship>, size: int, m: int): (count: nat)
    requires |cells| == CellCount && 0 <= m
    ensures count <= 2 * BoardSize * m
  {
    if m == 0 then 0 else CountInRows(cells, size, m - 1) + CountInRow(cells, size, m - 1, BoardSize)
  }

  /** unobstructed_count: the unobstructed triples of the whole board. */
  function CountFree(cells: seq<Ship>, size: int): nat
    requires |cells| == CellCount
  {
    CountInRows(cells, size, BoardSize)
  }

  /** The unobstructed triples visited before (r, c, dir). */
  function CountBefore(cells: seq<Ship>, size: int, r: int, c: int, dir: int): nat
    requires |cells| == CellCount && 0 <= r && 0 <= c
  {
    CountInRows(cells, size, r) + CountInRow(cells, size, r, c) + (if dir != 0 then Room(cells, size, r, c, 0) else 0)
  }

  lemma {:induction false} CountInRowMonotone(cells: seq<Ship>, size: int, r: int, n: int, n': int)
    requires |cells| == CellCount && 0 <= r && 0 <= n <= n'
    ensures CountInRow(cells, size, r, n) <= CountInRow(cells, size, r, n')
  {
    if n < n' {
      CountInRowMonotone(cells, size, r, n, n' - 1);
    }
  }

  lemma {:induction false} CountInRowsMonotone(cells: seq<Ship>, size: int, m: int, m': int)
    requires |cells| == CellCount && 0 <= m <= m'
    ensures CountInRows(cells, size, m) <= CountInRows(cells, size, m')
  {
    if m < m' {
      CountInRowsMonotone(cells, size, m, m' - 1);
    }
  }

  /** (r1, c1, d1) is visited before (r2, c2, d2). */
  predicate VisitedBefore(r1: int, c1: int, d1: int, r2: int, c2: int, d2: int)
  {
    r1 < r2 || (r1 == r2 && (c1 < c2 || (c1 == c2 && d1 < d2)))
  }

  /** An unobstructed triple raises the count of every triple visited after it. */
  lemma CountBeforeIncreases(cells: seq<Ship>, size: int, r1: int, c1: int, d1: int, r2: int, c2: int, d2: int)
    requires |cells| == CellCount
    requires 0 <= r1 < BoardSize && 0 <= c1 < BoardSize && 0 <= d1 < 2
    requires 0 <= r2 < BoardSize && 0 <= c2 < BoardSize && 0 <= d2 < 2
    requires !Obstructed(cells, r1, c1, d1, size) && VisitedBefore(r1, c1, d1, r2, c2, d2)
    ensures CountBefore(cells, size, r1, c1, d1) < CountBefore(cells, size, r2, c2, d2)
  {
    if r1 < r2 {
      CountInRowMonotone(cells, size, r1, c1 + 1, BoardSize);
      CountInRowsMonotone(cells, size, r1 + 1, r2);
    } else if c1 < c2 {
      CountInRowMonotone(cells, size, r1, c1 + 1, c2);
    }
  }

  /** A triple and the unobstructed ones before it fit within the total. */
  lemma CountBeforeBound(cells: seq<Ship>, size: int, r: int, c: int, dir: int)
    requires |cells| == CellCount
    requires 0 <= r < BoardSize && 0 <= c < BoardSize && 0 <= dir < 2
    ensures CountBefore(cells, size, r, c, dir) + Room(cells, size, r, c, dir) <= CountFree(cells, size)
  {
    CountInRowMonotone(cells, size, r, c + 1, BoardSize);
    CountInRowsMonotone(cells, size, r + 1, BoardSize);
  }

  /** The unobstructed triples of row r with a column below n. */
  ghost function FreeInRow(cells: seq<Ship>, size: int, r: int, n: int): set<(int, int, int)>
    requires |cells| == CellCount && 0 <= r
  {
    set c, d | 0 <= c < n && 0 <= d < 2 && !Obstructed(cells, r, c, d, size) :: (r, c, d)
  }

  /** The unobstructed triples of the rows below m. */
  ghost function FreeInRows(cells: seq<Ship>, size: int, m: int): set<(int, int, int)>
    requires |cells| == CellCount
  {
    set r, c, d | 0 <= r < m && 0 <= c < BoardSize && 0 <= d < 2 && !Obstructed(cells, r, c, d, size) :: (r, c, d)
  }

  /** The unobstructed triples at cell (r, c). */
  ghost function FreeAt(cells: seq<Ship>, size: int, r: int, c: int): set<(int, int, int)>
    requires |cells| == CellCount && 0 <= r && 0 <= c
  {
    set d | 0 <= d < 2 && !Obstructed(cells, r, c, d, size) :: (r, c, d)
  }

  lemma FreeAtSize(cells: seq<Ship>, size: int, r: int, c: int)
    requires |cells| == CellCount && 0 <= r && 0 <= c
    ensures |FreeAt(cells, size, r, c)| == Room(cells, size, r, c, 0) + Room(cells, size, r, c, 1)
  {
    var here := FreeAt(cells, size, r, c);
    var b0, b1 := Obstructed(cells, r, c, 0, size), Obstructed(cells, r, c, 1, size);
    if b0 && b1 {
      assert here == {};
    } else if b0 {
      assert here == {(r, c, 1)};
    } else if b1 {
      assert here == {(r, c, 0)};
    } else {
      assert here == {(r, c, 0), (r, c, 1)};
    }
  }

  lemma {:induction false} FreeInRowSize(cells: seq<Ship>, size: int, r: int, n: int)
    requires |cells| == CellCount && 0 <= r && 0 <= n
    ensures |FreeInRow(cells, size, r, n)| == CountInRow(cells, size, r, n)
  {
    if n == 0 {
      assert FreeInRow(cells, size, r, n) == {};
    } else {
      FreeInRowSize(cells, size, r, n - 1);
      FreeAtSize(cells, size, r, n - 1);
      assert FreeInRow(cells, size, r, n) == FreeInRow(cells, size, r, n - 1) + FreeAt(cells, size, r, n - 1);
      assert FreeInRow(cells, size, r, n - 1) !! FreeAt(cells, size, r, n - 1);
    }
  }

  /** unobstructed_count is the number of triples ship_obstructed clears. */
  lemma {:induction false} FreeInRowsSize(cells: seq<Ship>, size: int, m: int)
    requires |cells| == CellCount && 0 <= m
    ensures |FreeInRows(cells, size, m)| == CountInRows(cells, size, m)
  {
    if m == 0 {
      assert FreeInRows(cells, size, m) == {};
    } else {
      FreeInRowsSize(cells, size, m - 1);
      FreeInRowSize(cells, size, m - 1, BoardSize);
      assert FreeInRows(cells, size, m) == FreeInRows(cells, size, m - 1) + FreeInRow(cells, size, m - 1, BoardSize);
      assert FreeInRows(cells, size, m - 1) !! FreeInRow(cells, size, m - 1, BoardSize);
    }
  }

  /** The first pass of place_ship_random: the obstruction of every triple,
      and how many are unobstructed. */
  method TabulateObstructions(board: OurBoard, size: int) returns (table: array3<bool>, count: int)
    requires board.WellFormed()
    ensures fresh(table)
    ensures table.Length0 == BoardSize && table.Length1 == BoardSize && table.Length2 == 2
    ensures forall i, j, k :: 0 <= i < BoardSize && 0 <= j < BoardSize && 0 <= k < 2 ==>
      table[i, j, k] == Obstructed(board.Cells(), i, j, k, size)
    ensures count == CountFree(board.Cells(), size)
  {
    table := new bool[BoardSize, BoardSize, 2];
    ghost var cells := board.Cells();
    count := 0;
    var i := 0;
    while i < BoardSize
      invariant 0 <= i <= BoardSize
      invariant count == CountInRows(cells, size, i)
      invariant forall x, y, z | 0 <= x < i && 0 <= y < BoardSize && 0 <= z < 2 ::
                  table[x, y, z] == Obstructed(cells, x, y, z, size)
    {
      var inRow := TabulateRow(board, table, size, i);
      count := count + inRow;
      i := i + 1;
    }
  }

  /** One row of the first pass: the obstruction of every triple in row i,
      and how many of them are unobstructed. */
  method TabulateRow(board: OurBoard, table: array3<bool>, size: int, i: int) returns (count: int)
    requires board.WellFormed() && 0 <= i < BoardSize
    requires table.Length0 == BoardSize && table.Length1 == BoardSize && table.Length2 == 2
    modifies table
    ensures forall x, y, z | 0 <= x < BoardSize && 0 <= y < BoardSize && 0 <= z < 2 ::
              table[x, y, z] == if x == i then Obstructed(board.Cells(), x, y, z, size) else old(table[x, y, z])
    ensures count == CountInRow(board.Cells(), size, i, BoardSize)
  {
    ghost var cells := board.Cells();
    count := 0;
    var j := 0;
    while j < BoardSize
      invariant 0 <= j <= BoardSize
      invariant count == CountInRow(cells, size, i, j)
      invariant forall x, y, z | 0 <= x < BoardSize && 0 <= y < BoardSize && 0 <= z < 2 ::
                  table[x, y, z] == if x == i && y < j then Obstructed(cells, x, y, z, size) else old(table[x, y, z])
    {
      var k := 0;
      while k < 2
        invariant 0 <= k <= 2
        invariant count == CountInRow(cells, size, i, j)
                           + (if k >= 1 then Room(cells, size, i, j, 0) else 0)
                           + (if k >= 2 then Room(cells, size, i, j, 1) else 0)
        invariant forall x, y, z | 0 <= x < BoardSize && 0 <= y < BoardSize && 0 <= z < 2 ::
                    table[x, y, z] == if x == i && (y < j || (y == j && z < k)) then Obstructed(cells, x, y, z, size) else old(table[x, y, z])
      {
        var obstructed := ShipObstructed(board, i, j, k, size);
        assert obstructed == Obstructed(cells, i, j, k, size);
        table[i, j, k] := obstructed;
        if !obstructed {
          count := count + 1;
        }
        k := k + 1;
      }
      j := j + 1;
    }
  }

  /** (r, c, dir) is on the board, unobstructed, and has exactly n
      unobstructed triples before it. */
  predicate Picked(cells: seq<Ship>, size: int, n: int, r: int, c: int, dir: int)
    requires |cells| == CellCount
  {
    && 0 <= r < BoardSize && 0 <= c < BoardSize && 0 <= dir < 2
    && !Obstructed(cells, r, c, dir, size)
    && CountBefore(cells, size, r, c, dir) == n
  }

  /** The second pass of place_ship_random: the unobstructed triple with
      exactly idx unobstructed triples before it. */
  method PickUnobstructed(table: array3<bool>, ghost cells: seq<Ship>, size: int, idx: int)
    returns (r: int, c: int, dir: int)
    requires |cells| == CellCount
    requires table.Length0 == BoardSize && table.Length1 == BoardSize && table.Length2 == 2
    requires forall i, j, k :: 0 <= i < BoardSize && 0 <= j < BoardSize && 0 <= k < 2 ==>
      table[i, j, k] == Obstructed(cells, i, j, k, size)
    requires 0 <= idx < CountFree(cells, size)
    ensures Picked(cells, size, idx, r, c, dir)
  {
    var counter := 0;
    r, c, dir := 0, 0, 0;
    var placed := false;
    var i := 0;
    while i < BoardSize
      invariant 0 <= i <= BoardSize
      invariant counter == CountInRows(cells, size, i)
      invariant placed <==> idx < counter
      invariant placed ==> Picked(cells, size, idx, r, c, dir)
    {
      var j := 0;
      while j < BoardSize
        invariant 0 <= j <= BoardSize
        invariant counter == CountInRows(cells, size, i) + CountInRow(cells, size, i, j)
        invariant placed <==> idx < counter
        invariant placed ==> Picked(cells, size, idx, r, c, dir)
      {
        var k := 0;
        while k < 2
          invariant 0 <= k <= 2
          invariant counter == CountInRows(cells, size, i) + CountInRow(cells, size, i, j)
                               + (if k >= 1 then Room(cells, size, i, j, 0) else 0)
                               + (if k >= 2 then Room(cells, size, i, j, 1) else 0)
          invariant placed <==> idx < counter
          invariant placed ==> Picked(cells, size, idx, r, c, dir)
        {
          if !table[i, j, k] {
            var hit := idx == counter;
            counter := counter + 1;
            if hit {
              placed := true;
              r, c, dir := i, j, k;
            }
          }
          k := k + 1;
        }
        j := j + 1;
      }
      i := i + 1;
    }
    assert placed;
  }

  /** Different triples are never picked for the same n. */
  lemma PickedUnique(cells: seq<Ship>, size: int, n: int, r1: int, c1: int, d1: int, r2: int, c2: int, d2: int)
    requires |cells| == CellCount
    requires Picked(cells, size, n, r1, c1, d1) && Picked(cells, size, n, r2, c2, d2)
    ensures r1 == r2 && c1 == c2 && d1 == d2
  {
    if VisitedBefore(r1, c1, d1, r2, c2, d2) {
      CountBeforeIncreases(cells, size, r1, c1, d1, r2, c2, d2);
    } else if VisitedBefore(r2, c2, d2, r1, c1, d1) {
      CountBeforeIncreases(cells, size, r2, c2, d2, r1, c1, d1);
    }
  }

  /** `%` of a value already below the divisor (kept apart: in the lemma
      below the same fact runs out of resource). */
  lemma ModSmall(a: int, n: int)
    requires 0 <= a < n
    ensures a % n == a
  {
  }

  /** Every unobstructed triple is picked for some random number: the number
      of unobstructed triples before it. */
  lemma EveryFreeTripleReachable(cells: seq<Ship>, size: int, r: int, c: int, dir: int)
    requires |cells| == CellCount
    requires 0 <= r < BoardSize && 0 <= c < BoardSize && 0 <= dir < 2
    requires !Obstructed(cells, r, c, dir, size)
    ensures CountFree(cells, size) > 0
    ensures Picked(cells, size, CountBefore(cells, size, r, c, dir) % CountFree(cells, size), r, c, dir)
  {
    CountBeforeBound(cells, size, r, c, dir);
    ModSmall(CountBefore(cells, size, r, c, dir), CountFree(cells, size));
  }

  /** place_ship_random: put `ship` at the unobstructed triple with
      roll % unobstructed_count unobstructed triples before it; that count
      must not be zero.  The ghost results name the triple chosen. */
  method PlaceShipRandom(board: OurBoard, ship: Ship, size: int, roll: nat)
    returns (ghost r: int, ghost c: int, ghost dir: int)
    requires board.Valid()
    requires CountFree(board.Cells(), size) > 0
    modifies board.ships, board.shipCounts
    ensures Picked(old(board.Cells()), size, roll % CountFree(old(board.Cells()), size), r, c, dir)
    ensures board.Valid()
    ensures forall x, y :: 0 <= x < BoardSize && 0 <= y < BoardSize ==>
      board.ships[x, y] == if InShip(r, c, dir, size, x, y) then ship else old(board.ships[x, y])
    ensures forall k :: 0 <= k < ShipCount ==>
      board.shipCounts[k] == old(board.shipCounts[k]) + (if k == ShipIndex(ship) && size > 0 then size else 0)
    ensures ship != ShipNone ==>
      Occupied(board.Cells()) == old(Occupied(board.Cells())) + (if size > 0 then size else 0)
  {
    var table, unobstructedCount := TabulateObstructions(board, size);
    var idx := roll % unobstructedCount;
    var i, j, k := PickUnobstructed(table, board.Cells(), size, idx);
    r, c, dir := i, j, k;
    PlaceShip(board, ship, i, j, k, size);
  }

  // ---------------------------------------------------------------------------
  // The random fleet (board_init_random)
  // ---------------------------------------------------------------------------

  /** Cells 5w .. 5w+4 (the left or right half of row w / 2) hold some ship. */
  predicate WindowOccupied(s: seq<Ship>, w: int)
    requires 0 <= w && 5 * w + 5 <= |s|
  {
    exists i :: 5 * w <= i < 5 * w + 5 && s[i] != ShipNone
  }

  /** n occupied windows mean at least n occupied cells. */
  lemma {:induction false} WindowsOccupied(s: seq<Ship>, n: nat)
    requires |s| == 5 * n
    requires forall w :: 0 <= w < n ==> WindowOccupied(s, w)
    ensures Occupied(s) >= n
  {
    if n > 0 {
      var head, tail := s[..5], s[5..];
      assert s == head + tail;
      CountShipAppend(head, tail, ShipNone);
      assert WindowOccupied(s, 0);
      var i :| 0 <= i < 5 && s[i] != ShipNone;
      CountShipBelow(head, i, ShipNone);
      forall w | 0 <= w < n - 1
        ensures WindowOccupied(tail, w)
      {
        assert WindowOccupied(s, w + 1);
        var j :| 5 * (w + 1) <= j < 5 * (w + 1) + 5 && s[j] != ShipNone;
        assert tail[j - 5] != ShipNone;
      }
      WindowsOccupied(tail, n - 1);
    }
  }

  /** With fewer than 20 occupied cells, some half row is empty, so a ship of
      at most 5 cells has an unobstructed triple and the % in place_ship_random
      never divides by zero. */
  lemma RoomForShip(cells: seq<Ship>, size: int)
    requires |cells| == CellCount && size <= 5
    requires Occupied(cells) < 20
    ensures CountFree(cells, size) > 0
  {
    if forall w :: 0 <= w < 20 ==> WindowOccupied(cells, w) {
      WindowsOccupied(cells, 20);
    }
    var w :| 0 <= w < 20 && !WindowOccupied(cells, w);
    var r, c := w / 2, (w % 2) * 5;
    forall i | 0 <= i < size
      ensures !Blocked(cells, StepRow(r, 0, i), StepCol(c, 0, i))
    {
      assert Flat(r, c + i) == 5 * w + i;
    }
    CountBeforeBound(cells, size, r, c, 0);
  }

  /** The number of cells board_init_random gives each kind. */
  function FleetSize(k: Ship): (n: nat)
    ensures n == 0 <==> k == ShipNone
    ensures n <= 5
  {
    match k
    case ShipNone => 0
    case AircraftCarrier => 5
    case Battleship => 4
    case Cruiser => 3
    case Submarine => 3
    case Destroyer => 2
  }

  /** The kinds board_init_random places, in the order it places them. */
  const Fleet: seq<Ship> := [AircraftCarrier, Battleship, Cruiser, Submarine, Destroyer]

  /** `cells` holds the first |spots| ships of the fleet and nothing else:
      ship j occupies exactly the straight run of FleetSize cells from
      spots[j], and every other cell is empty. */
  ghost predicate Holds(cells: seq<Ship>, spots: seq<(int, int, int)>)
    requires |cells| == CellCount && |spots| <= |Fleet|
  {
    && (forall j, x, y | 0 <= j < |spots| && 0 <= x < BoardSize && 0 <= y < BoardSize ::
          Covers(cells, Fleet[j], spots[j], x, y))
    && (forall x, y | 0 <= x < BoardSize && 0 <= y < BoardSize :: FleetOnly(cells, |spots|, x, y))
  }

  /** Cell (x, y) holds kind k exactly when it lies on k's run from `spot`. */
  ghost predicate Covers(cells: seq<Ship>, k: Ship, spot: (int, int, int), x: int, y: int)
    requires |cells| == CellCount && 0 <= x < BoardSize && 0 <= y < BoardSize
  {
    cells[Flat(x, y)] == k <==> InShip(spot.0, spot.1, spot.2, FleetSize(k), x, y)
  }

  /** Cell (x, y) is empty or holds one of the first n ships of the fleet. */
  ghost predicate FleetOnly(cells: seq<Ship>, n: nat, x: int, y: int)
    requires |cells| == CellCount && n <= |Fleet| && 0 <= x < BoardSize && 0 <= y < BoardSize
  {
    cells[Flat(x, y)] == ShipNone || cells[Flat(x, y)] in Fleet[..n]
  }

  /** The history of board_init_random so far: the board holds the ships
      placed at `spots`, and, when there is one, the last of them went to the
      triple its roll picks on the grid before it, grids[n], which has the same
      history one ship shorter. */
  ghost predicate Placement(cells: seq<Ship>, rolls: seq<nat>, spots: seq<(int, int, int)>, grids: seq<seq<Ship>>)
    decreases |spots|
  {
    && |cells| == CellCount && |rolls| == |Fleet| && |spots| == |grids| <= |Fleet|
    && Holds(cells, spots)
    && (|spots| > 0 ==>
          var n := |spots| - 1;
          var size := FleetSize(Fleet[n]);
          && |grids[n]| == CellCount
          && Placement(grids[n], rolls, spots[..n], grids[..n])
          && PickedByRoll(grids[n], size, rolls[n], spots[n]))
  }

  /** The triple place_ship_random picks with `roll` on `cells`. */
  ghost predicate PickedByRoll(cells: seq<Ship>, size: int, roll: nat, spot: (int, int, int))
    requires |cells| == CellCount
  {
    CountFree(cells, size) > 0 && Picked(cells, size, roll % CountFree(cells, size), spot.0, spot.1, spot.2)
  }

  /** An empty grid holds no ships and has no history. */
  lemma PlacementStart(cells: seq<Ship>, rolls: seq<nat>)
    requires |cells| == CellCount && |rolls| == |Fleet|
    requires forall n | 0 <= n < CellCount :: cells[n] == ShipNone
    ensures Placement(cells, rolls, [], [])
  {
    forall x, y | 0 <= x < BoardSize && 0 <= y < BoardSize
      ensures FleetOnly(cells, 0, x, y)
    {
    }
  }

  /** A cell of an unobstructed location is empty. */
  lemma InShipEmpty(cells: seq<Ship>, r: int, c: int, dir: int, size: int, x: int, y: int)
    requires |cells| == CellCount && 0 <= r && 0 <= c
    requires !Obstructed(cells, r, c, dir, size)
    requires InShip(r, c, dir, size, x, y) && 0 <= x < BoardSize && 0 <= y < BoardSize
    ensures cells[Flat(x, y)] == ShipNone
  {
    var t := if dir != 0 then x - r else y - c;
    assert !Blocked(cells, StepRow(r, dir, t), StepCol(c, dir, t));
  }

  /** Writing the next ship of the fleet on empty cells keeps the grid
      described by the spots, now one longer. */
  lemma HoldsAfterPlacing(before: seq<Ship>, after: seq<Ship>, spots: seq<(int, int, int)>, r: int, c: int, dir: int)
    requires |before| == CellCount && |after| == CellCount && |spots| < |Fleet|
    requires Holds(before, spots)
    requires 0 <= r && 0 <= c && !Obstructed(before, r, c, dir, FleetSize(Fleet[|spots|]))
    requires forall x, y | 0 <= x < BoardSize && 0 <= y < BoardSize ::
      after[Flat(x, y)] == if InShip(r, c, dir, FleetSize(Fleet[|spots|]), x, y) then Fleet[|spots|] else before[Flat(x, y)]
    ensures Holds(after, spots + [(r, c, dir)])
  {
    var spots' := spots + [(r, c, dir)];
    var n := |spots|;
    forall j, x, y | 0 <= j < |spots'| && 0 <= x < BoardSize && 0 <= y < BoardSize
      ensures Covers(after, Fleet[j], spots'[j], x, y)
    {
      if InShip(r, c, dir, FleetSize(Fleet[n]), x, y) {
        InShipEmpty(before, r, c, dir, FleetSize(Fleet[n]), x, y);
      }
      FleetOrder(n);
      if j < n {
        FleetOrder(j);
        assert Covers(before, Fleet[j], spots[j], x, y);
      } else {
        assert FleetOnly(before, n, x, y);
        forall i | 0 <= i < n
          ensures Fleet[i] != Fleet[n]
        {
          FleetOrder(i);
        }
      }
    }
    forall x, y | 0 <= x < BoardSize && 0 <= y < BoardSize
      ensures FleetOnly(after, |spots'|, x, y)
    {
      assert FleetOnly(before, n, x, y);
    }
  }

  /** The number of cells the first n ships of the fleet cover. */
  function FleetTotal(n: nat): nat
    requires n <= |Fleet|
  {
    if n == 0 then 0 else FleetTotal(n - 1) + FleetSize(Fleet[n - 1])
  }

  /** The fleet lists the kinds in ShipIndex order, and before its last ship
      is placed at most 15 cells are taken. */
  lemma FleetOrder(n: nat)
    requires n < |Fleet|
    ensures ShipIndex(Fleet[n]) == n + 1
    ensures FleetTotal(n) <= 15
  {
    if n == 0 {
    } else if n == 1 {
    } else if n == 2 {
    } else if n == 3 {
    } else {
      assert FleetTotal(4) == 15;
    }
  }

  /** Placing the next ship of the fleet where its roll points extends the
      placement history by that ship and the grid it was placed on. */
  lemma PlacementAfterPlacing(before: seq<Ship>, after: seq<Ship>, rolls: seq<nat>,
                              spots: seq<(int, int, int)>, grids: seq<seq<Ship>>, r: int, c: int, dir: int)
    requires Placement(before, rolls, spots, grids) && |spots| < |Fleet| && |after| == CellCount
    requires CountFree(before, FleetSize(Fleet[|spots|])) > 0
    requires Picked(before, FleetSize(Fleet[|spots|]),
                    rolls[|spots|] % CountFree(before, FleetSize(Fleet[|spots|])), r, c, dir)
    requires forall x, y | 0 <= x < BoardSize && 0 <= y < BoardSize ::
      after[Flat(x, y)] == if InShip(r, c, dir, FleetSize(Fleet[|spots|]), x, y) then Fleet[|spots|] else before[Flat(x, y)]
    ensures Placement(after, rolls, spots + [(r, c, dir)], grids + [before])
  {
    var spots', grids' := spots + [(r, c, dir)], grids + [before];
    HoldsAfterPlacing(before, after, spots, r, c, dir);
    assert spots'[..|spots|] == spots && grids'[..|spots|] == grids;
  }

  /** The board after board_init_random has placed the first |spots| ships:
      the counting invariant holds, each placed kind is counted at its size
      and no other kind at all, and the grid has the placement history
      `spots`, `grids`. */
  ghost predicate Stage(board: OurBoard, rolls: seq<nat>, spots: seq<(int, int, int)>, grids: seq<seq<Ship>>)
    reads board, board.ships, board.shipCounts
  {
    && board.Valid() && |spots| <= |Fleet|
    && (forall k | 0 <= k < ShipCount ::
          board.shipCounts[k] == if 0 < k <= |spots| then FleetSize(Fleet[k - 1]) else 0)
    && Occupied(board.Cells()) == FleetTotal(|spots|)
    && Placement(board.Cells(), rolls, spots, grids)
  }

  /** A cleared board is the first stage, with no ship placed. */
  lemma StageStart(board: OurBoard, rolls: seq<nat>)
    requires board.Valid() && |rolls| == |Fleet|
    requires forall r, c :: 0 <= r < BoardSize && 0 <= c < BoardSize ==> board.ships[r, c] == ShipNone
    requires forall k :: 0 <= k < ShipCount ==> board.shipCounts[k] == 0
    requires Occupied(board.Cells()) == 0
    ensures Stage(board, rolls, [], [])
  {
    var cells := board.Cells();
    forall n | 0 <= n < CellCount
      ensures cells[n] == ShipNone
    {
      FlatIndex(n / BoardSize, n % BoardSize);
    }
    PlacementStart(cells, rolls);
  }

  /** At the last stage every kind has its fleet size, in the counts and on
      the grid, and 17 cells are taken. */
  lemma StageComplete(board: OurBoard, rolls: seq<nat>, spots: seq<(int, int, int)>, grids: seq<seq<Ship>>)
    requires Stage(board, rolls, spots, grids) && |spots| == |Fleet|
    ensures forall k :: board.shipCounts[ShipIndex(k)] == FleetSize(k)
    ensures forall k :: k != ShipNone ==> CountShip(board.Cells(), k) == FleetSize(k)
    ensures Occupied(board.Cells()) == 17
  {
    assert FleetTotal(5) == 17;
  }

  /** board_init_random: a cleared board with the five ships placed at random,
      largest first; `rolls` are the five random numbers, in order.  The ghost
      results record where each ship went and the grid each call saw. */
  method BoardInitRandom(board: OurBoard, rolls: seq<nat>)
    returns (ghost spots: seq<(int, int, int)>, ghost grids: seq<seq<Ship>>)
    requires board.WellFormed() && |rolls| == 5
    modifies board.hits, board.ships, board.shipCounts
    ensures board.Valid()
    ensures forall r, c :: 0 <= r < BoardSize && 0 <= c < BoardSize ==> board.hits[r, c] == HsNone
    ensures forall k :: board.shipCounts[ShipIndex(k)] == FleetSize(k)
    ensures forall k :: k != ShipNone ==> CountShip(board.Cells(), k) == FleetSize(k)
    ensures Occupied(board.Cells()) == 17
    ensures |spots| == |Fleet| && Placement(board.Cells(), rolls, spots, grids)
  {
    board.Init();
    StageStart(board, rolls);
    spots, grids := PlaceLargeShips(board, rolls);
    spots, grids := PlaceSmallShips(board, rolls, spots, grids);
    StageComplete(board, rolls, spots, grids);
  }

  /** The first three place_ship_random calls of board_init_random: the
      carrier, the battleship and the cruiser, each with its own roll. */
  method PlaceLargeShips(board: OurBoard, rolls: seq<nat>)
    returns (ghost spots: seq<(int, int, int)>, ghost grids: seq<seq<Ship>>)
    requires Stage(board, rolls, [], [])
    modifies board.ships, board.shipCounts
    ensures Stage(board, rolls, spots, grids) && |spots| == 3
  {
    spots, grids := [], [];
    spots, grids := PlaceFleetShip(board, AircraftCarrier, 5, rolls[0], rolls, spots, grids);
    spots, grids := PlaceFleetShip(board, Battleship, 4, rolls[1], rolls, spots, grids);
    spots, grids := PlaceFleetShip(board, Cruiser, 3, rolls[2], rolls, spots, grids);
  }

  /** The last two place_ship_random calls of board_init_random: the
      submarine and the destroyer. */
  method PlaceSmallShips(board: OurBoard, rolls: seq<nat>, ghost spots: seq<(int, int, int)>, ghost grids: seq<seq<Ship>>)
    returns (ghost spots': seq<(int, int, int)>, ghost grids': seq<seq<Ship>>)
    requires Stage(board, rolls, spots, grids) && |spots| == 3
    modifies board.ships, board.shipCounts
    ensures Stage(board, rolls, spots', grids') && |spots'| == |Fleet|
  {
    spots', grids' := PlaceFleetShip(board, Submarine, 3, rolls[3], rolls, spots, grids);
    spots', grids' := PlaceFleetShip(board, Destroyer, 2, rolls[4], rolls, spots', grids');
  }

  /** One place_ship_random call of board_init_random: the next ship of the
      fleet goes to the triple its roll picks on the current grid, which
      always has room for it. */
  method PlaceFleetShip(board: OurBoard, ship: Ship, size: int, roll: nat, ghost rolls: seq<nat>,
                        ghost spots: seq<(int, int, int)>, ghost grids: seq<seq<Ship>>)
    returns (ghost spots': seq<(int, int, int)>, ghost grids': seq<seq<Ship>>)
    requires Stage(board, rolls, spots, grids)
    requires |spots| < |Fleet| && ship == Fleet[|spots|] && size == FleetSize(ship) && roll == rolls[|spots|]
    modifies board.ships, board.shipCounts
    ensures Stage(board, rolls, spots', grids')
    ensures |spots'| == |spots| + 1 && spots'[..|spots|] == spots
  {
    ghost var before := board.Cells();
    FleetOrder(|spots|);
    RoomForShip(before, size);
    ghost var r, c, dir := PlaceShipRandom(board, ship, size, roll);
    PlacementAfterPlacing(before, board.Cells(), rolls, spots, grids, r, c, dir);
    spots', grids' := spots + [(r, c, dir)], grids + [before];
    assert spots'[..|spots|] == spots;
  }

  // ---------------------------------------------------------------------------
  // Manual placement (player_place_ship, without its input loop)
  // ---------------------------------------------------------------------------

  /** The location player_place_ship accepts from a column letter, a row
      number and a direction letter: the coordinate check of player_get_coord,
      and 'H' (0) or 'V' (1), upper case only. */
  function ManualLocation(col: char, row: int, d: char): (loc: Option<(int, int, int)>)
    ensures loc.Some? <==> CoordOf(col, row).Some? && (d == 'H' || d == 'V')
    ensures loc.Some? ==> loc.value.0 == row - 1 && loc.value.1 == col as int - 'A' as int
    ensures loc.Some? ==> (loc.value.2 == 0 <==> d == 'H') && 0 <= loc.value.2 < 2
  {
    if row < 1 || row > 10 || col < 'A' || col > 'J' || (d != 'H' && d != 'V') then None
    else Some((row - 1, col as int - 'A' as int, if d == 'H' then 0 else 1))
  }

  /** The obstruction test player_place_ship applies to that location, as
      written: it asks ship_obstructed about a ship of size 0. */
  function ManualCheckAsWritten(cells: seq<Ship>, r: int, c: int, dir: int): (accepted: bool)
    requires |cells| == CellCount && 0 <= r && 0 <= c
    ensures accepted
  {
    !Obstructed(cells, r, c, dir, 0)
  }

  /** As written, the test lets through locations place_ship cannot take: on
      an empty grid a carrier typed as "J1 H" runs off the board, and a
      destroyer typed at "A1 H" over a ship in A1 overlaps it. */
  lemma ManualCheckAsWrittenAdmitsBadLocations()
    ensures var empty := seq(CellCount, _ => ShipNone);
      ManualLocation('J', 1, 'H') == Some((0, 9, 0)) &&
      ManualCheckAsWritten(empty, 0, 9, 0) && Obstructed(empty, 0, 9, 0, 5)
    ensures var taken := seq(CellCount, n => if n == 0 then AircraftCarrier else ShipNone);
      ManualLocation('A', 1, 'H') == Some((0, 0, 0)) &&
      ManualCheckAsWritten(taken, 0, 0, 0) && Obstructed(taken, 0, 0, 0, 2)
  {
    var empty := seq(CellCount, _ => ShipNone);
    assert Blocked(empty, StepRow(0, 0, 1), StepCol(9, 0, 1));
    var taken := seq(CellCount, n => if n == 0 then AircraftCarrier else ShipNone);
    assert Blocked(taken, StepRow(0, 0, 0), StepCol(0, 0, 0));
  }

  /** The evidently intended test: the location is accepted exactly when a
      ship of the given size fits there, and then it is placed. */
  method PlaceShipChecked(board: OurBoard, ship: Ship, r: int, c: int, dir: int, size: int)
    returns (placed: bool)
    requires board.Valid() && 0 <= r && 0 <= c
    modifies board.ships, board.shipCounts
    ensures placed == !Obstructed(old(board.Cells()), r, c, dir, size)
    ensures board.Valid()
    ensures forall x, y :: 0 <= x < BoardSize && 0 <= y < BoardSize ==>
      board.ships[x, y] == if placed && InShip(r, c, dir, size, x, y) then ship else old(board.ships[x, y])
    ensures forall k :: 0 <= k < ShipCount ==>
      board.shipCounts[k] == old(board.shipCounts[k]) + (if placed && k == ShipIndex(ship) && size > 0 then size else 0)
  {
    var obstructed := ShipObstructed(board, r, c, dir, size);
    if obstructed {
      return false;
    }
    PlaceShip(board, ship, r, c, dir, size);
    return true;
  }
}
