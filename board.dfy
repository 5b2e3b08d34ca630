/**
 * The board model of board.h and board.c: a 10x10 grid of hit states and a
 * 10x10 grid of ship kinds for the local player, a per-kind cell count, the
 * opponent view (hit states only), and the characters the boards are drawn
 * with.
 */
module Board {

  /** BOARD_SIZE */
  const BoardSize := 10
  /** Number of cells in a grid. */
  const CellCount := BoardSize * BoardSize

  /** Row-major position of cell (r, c) in a grid laid out as one sequence. */
  function Flat(r: int, c: int): int
  {
    r * BoardSize + c
  }

  /** Row-major positions are one-to-one with the cells of the grid. */
  lemma FlatIndex(r: int, c: int)
    requires 0 <= r < BoardSize && 0 <= c < BoardSize
    ensures 0 <= Flat(r, c) < CellCount
    ensures Flat(r, c) / BoardSize == r && Flat(r, c) % BoardSize == c
  {
  }

  /** enum hit_state; HsNone is its zero value, so a zeroed grid is unshot. */
  datatype HitState = HsNone | Hit | Miss

  /** enum ship; ShipNone is its zero value and marks an empty cell. */
  datatype Ship = ShipNone | AircraftCarrier | Battleship | Cruiser | Submarine | Destroyer

  /** SHIP_COUNT: the number of values of enum ship, the size of ship_counts. */
  const ShipCount := 6

  /** The numeric value of a ship kind, its index in ship_counts. */
  function ShipIndex(k: Ship): (i: nat)
    ensures i < ShipCount
    ensures i == 0 <==> k == ShipNone
  {
    match k
    case ShipNone => 0
    case AircraftCarrier => 1
    case Battleship => 2
    case Cruiser => 3
    case Submarine => 4
    case Destroyer => 5
  }

  /** Distinct kinds have distinct indices, so ship_counts has one slot per kind. */
  lemma ShipIndexInjective(a: Ship, b: Ship)
    ensures ShipIndex(a) == ShipIndex(b) ==> a == b
  {
  }

  // ---------------------------------------------------------------------------
  // Display characters (hit_char, ship_name, ourboard_char)
  // ---------------------------------------------------------------------------

  /** hit_char */
  function HitChar(h: HitState): (ch: char)
    ensures ch == ' ' <==> h == HsNone
  {
    match h
    case HsNone => ' '
    case Hit => 'x'
    case Miss => 'o'
  }

  /** The three hit states are drawn with three different characters. */
  lemma HitCharDistinct(a: HitState, b: HitState)
    ensures HitChar(a) == HitChar(b) ==> a == b
  {
  }

  /** ship_name: "<invalid>" for anything that is not one of the five kinds. */
  function ShipName(k: Ship): (name: string)
    ensures name == "<invalid>" <==> k == ShipNone
  {
    match k
    case AircraftCarrier => "Aircraft Carrier"
    case Battleship => "Battleship"
    case Cruiser => "Cruiser"
    case Submarine => "Submarine"
    case Destroyer => "Destroyer"
    case ShipNone => "<invalid>"
  }

  /** The five ship kinds have five different names. */
  lemma ShipNamesDistinct(a: Ship, b: Ship)
    requires a != ShipNone && b != ShipNone
    ensures ShipName(a) == ShipName(b) ==> a == b
  {
  }

  /** The upper-case letter a ship cell is drawn with. */
  function ShipLetter(k: Ship): (ch: char)
    requires k != ShipNone
    ensures 'A' <= ch <= 'Z'
  {
    match k
    case AircraftCarrier => 'A'
    case Battleship => 'B'
    case Cruiser => 'C'
    case Submarine => 'S'
    case Destroyer => 'D'
  }

  predicate IsUpper(ch: char) { 'A' <= ch <= 'Z' }

  predicate IsLower(ch: char) { 'a' <= ch <= 'z' }

  /** tolower */
  function ToLower(ch: char): (r: char)
  {
    if IsUpper(ch) then (ch as int - 'A' as int + 'a' as int) as char else ch
  }

  /** toupper, to read a drawn letter back. */
  function ToUpper(ch: char): (r: char)
  {
    if IsLower(ch) then (ch as int - 'a' as int + 'A' as int) as char else ch
  }

  /** ourboard_char, given the cell's ship and hit state: an empty cell shows
      its hit character; a ship cell shows the kind's letter, lower-cased
      exactly when the cell was hit (a miss on a ship cell stays upper case). */
  function OurBoardChar(ship: Ship, hit: HitState): (ch: char)
    ensures ship == ShipNone ==> ch == HitChar(hit)
    ensures ship != ShipNone ==> (IsLower(ch) <==> hit == Hit)
    ensures ship != ShipNone ==> ToUpper(ch) == ShipLetter(ship)
  {
    match ship
    case ShipNone => HitChar(hit)
    case _ => if hit == Hit then ToLower(ShipLetter(ship)) else ShipLetter(ship)
  }

  /** What the drawn character gives away: the cell's ship kind always, and
      its hit state except that a miss on a ship cell looks unshot. */
  lemma OurBoardCharDetermines(s1: Ship, h1: HitState, s2: Ship, h2: HitState)
    requires OurBoardChar(s1, h1) == OurBoardChar(s2, h2)
    ensures s1 == s2
    ensures h1 == h2 || (s1 != ShipNone && h1 != Hit && h2 != Hit)
  {
  }

  // ---------------------------------------------------------------------------
  // Counting cells
  // ---------------------------------------------------------------------------

  /** Number of cells holding kind `k`. */
  function CountShip(cells: seq<Ship>, k: Ship): (n: nat)
    ensures n <= |cells|
  {
    if cells == [] then 0 else (if cells[0] == k then 1 else 0) + CountShip(cells[1..], k)
  }

  /** Number of cells holding some ship. */
  function Occupied(cells: seq<Ship>): nat
  {
    |cells| - CountShip(cells, ShipNone)
  }

  lemma {:induction false} CountShipAppend(a: seq<Ship>, b: seq<Ship>, k: Ship)
    ensures CountShip(a + b, k) == CountShip(a, k) + CountShip(b, k)
  {
    if a == [] {
      assert a + b == b;
    } else {
      assert (a + b)[1..] == a[1..] + b;
      CountShipAppend(a[1..], b, k);
    }
  }

  /** Overwriting one cell moves one unit of count from its old kind to its new one. */
  lemma {:induction false} CountShipUpdate(s: seq<Ship>, i: nat, v: Ship, k: Ship)
    requires i < |s|
    ensures CountShip(s[i := v], k)
         == CountShip(s, k) - (if s[i] == k then 1 else 0) + (if v == k then 1 else 0)
  {
    if i > 0 {
      assert s[i := v][1..] == s[1..][i - 1 := v];
      CountShipUpdate(s[1..], i - 1, v, k);
    }
  }

  /** A kind no cell holds has count zero. */
  lemma {:induction false} CountShipAbsent(s: seq<Ship>, k: Ship)
    requires forall i :: 0 <= i < |s| ==> s[i] != k
    ensures CountShip(s, k) == 0
  {
    if s != [] {
      CountShipAbsent(s[1..], k);
    }
  }

  /** A kind every cell holds has count |s|. */
  lemma {:induction false} CountShipEverywhere(s: seq<Ship>, k: Ship)
    requires forall i :: 0 <= i < |s| ==> s[i] == k
    ensures CountShip(s, k) == |s|
  {
    if s != [] {
      CountShipEverywhere(s[1..], k);
    }
  }

  /** A cell holding another kind keeps the count below |s|. */
  lemma {:induction false} CountShipBelow(s: seq<Ship>, i: nat, k: Ship)
    requires i < |s| && s[i] != k
    ensures CountShip(s, k) < |s|
  {
    if i > 0 {
      CountShipBelow(s[1..], i - 1, k);
    }
  }

  // ---------------------------------------------------------------------------
  // struct our_board
  // ---------------------------------------------------------------------------

  /** struct our_board: the local grid.  ship_counts[k] is the number of cells
      holding kind k (a count of zero means that ship is gone). */
  class OurBoard {
    var hits: array2<HitState>
    var ships: array2<Ship>
    var shipCounts: array<int>

    /** Both grids are BOARD_SIZE x BOARD_SIZE; ship_counts has SHIP_COUNT slots. */
    ghost predicate WellFormed()
      reads this
    {
      && hits.Length0 == BoardSize && hits.Length1 == BoardSize
      && ships.Length0 == BoardSize && ships.Length1 == BoardSize
      && shipCounts.Length == ShipCount
    }

    /** The ship grid in row-major order: cell (r, c) at r * BOARD_SIZE + c. */
    ghost function Cells(): (s: seq<Ship>)
      reads this, ships
      requires WellFormed()
      ensures |s| == CellCount
      ensures forall r, c :: 0 <= r < BoardSize && 0 <= c < BoardSize ==> s[Flat(r, c)] == ships[r, c]
    {
      var g := ships;
      var s := seq(CellCount, n requires 0 <= n < CellCount reads g => g[n / BoardSize, n % BoardSize]);
      assert forall r, c :: 0 <= r < BoardSize && 0 <= c < BoardSize ==> s[Flat(r, c)] == g[r, c] by {
        forall r, c | 0 <= r < BoardSize && 0 <= c < BoardSize
          ensures s[Flat(r, c)] == g[r, c]
        {
          FlatIndex(r, c);
        }
      }
      s
    }

    /** The counting invariant: every ship kind's count is its number of cells. */
    ghost predicate Valid()
      reads this, ships, shipCounts
    {
      && WellFormed()
      && forall k :: k != ShipNone ==> shipCounts[ShipIndex(k)] == CountShip(Cells(), k)
    }

    /** Storage for a board; its contents are set by Init. */
    constructor ()
      ensures WellFormed()
      ensures fresh(hits) && fresh(ships) && fresh(shipCounts)
    {
      hits := new HitState[BoardSize, BoardSize];
      ships := new Ship[BoardSize, BoardSize];
      shipCounts := new int[ShipCount];
    }

    /** ourboard_init: zero the whole board. */
    method Init()
      requires WellFormed()
      modifies hits, ships, shipCounts
      ensures Valid()
      ensures forall r, c :: 0 <= r < BoardSize && 0 <= c < BoardSize ==> hits[r, c] == HsNone
      ensures forall r, c :: 0 <= r < BoardSize && 0 <= c < BoardSize ==> ships[r, c] == ShipNone
      ensures forall k :: 0 <= k < ShipCount ==> shipCounts[k] == 0
      ensures Occupied(Cells()) == 0
    {
      forall r, c | 0 <= r < BoardSize && 0 <= c < BoardSize {
        hits[r, c] := HsNone;
      }
      forall r, c | 0 <= r < BoardSize && 0 <= c < BoardSize {
        ships[r, c] := ShipNone;
      }
      forall k | 0 <= k < ShipCount {
        shipCounts[k] := 0;
      }
      var cells := Cells();
      assert forall n :: 0 <= n < CellCount ==> cells[n] == ShipNone;
      CountShipEverywhere(cells, ShipNone);
      forall k | k != ShipNone
        ensures shipCounts[ShipIndex(k)] == CountShip(cells, k)
      {
        CountShipAbsent(cells, k);
      }
    }
  }

  // ---------------------------------------------------------------------------
  // struct their_board
  // ---------------------------------------------------------------------------

  /** struct their_board: the opponent view, hit states only. */
  class TheirBoard {
    var hits: array2<HitState>

    ghost predicate WellFormed()
      reads this
    {
      hits.Length0 == BoardSize && hits.Length1 == BoardSize
    }

    constructor ()
      ensures WellFormed() && fresh(hits)
    {
      hits := new HitState[BoardSize, BoardSize];
    }

    /** their_board_init: mark every cell unshot, row by row. */
    method Init()
      requires WellFormed()
      modifies hits
      ensures forall r, c :: 0 <= r < BoardSize && 0 <= c < BoardSize ==> hits[r, c] == HsNone
    {
      var i := 0;
      while i < BoardSize
        invariant 0 <= i <= BoardSize
        invariant forall r, c :: 0 <= r < i && 0 <= c < BoardSize ==> hits[r, c] == HsNone
      {
        var j := 0;
        while j < BoardSize
          invariant 0 <= j <= BoardSize
          invariant forall r, c :: 0 <= r < i && 0 <= c < BoardSize ==> hits[r, c] == HsNone
          invariant forall c :: 0 <= c < j ==> hits[i, c] == HsNone
        {
          hits[i, j] := HsNone;
          j := j + 1;
        }
        i := i + 1;
      }
    }
  }
}
