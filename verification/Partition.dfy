/**
 * The recursive partition of the proxy channel into the nodes of a linear quadtree.
 */
module Partition {
  import opened Bytes
  import opened Bits
  import Grid

  // ------------------------------------------------------------------------- inputs

  /** The stored proxy grid and the channel that was chosen. */
  datatype Proxy = Proxy(data: seq<real>, width: nat, height: nat, channels: nat, channel: nat) {
    function Value(x: nat, y: nat): Option<real> {
      if x >= width || y >= height then None
      else
        var at := (y * width + x) * channels + channel;
        if at < |data| then Some(data[at]) else None
    }
  }

  /** Any non-zero strength forbids aggregation. */
  datatype Direction = Direction(width: nat, height: nat, values: seq<real>) {
    predicate Blocked(x: nat, y: nat) {
      && x < width && y < height
      && y * width + x < |values| && values[y * width + x] != 0.0
    }
  }

  /** The proxy is stored line by line with the channels of a cell together, and only the chosen
      channel is looked at. */
  lemma ValueAtPlace(p: Proxy, cell: nat, i: nat)
    requires cell < p.height * p.width && i == cell * p.channels + p.channel
    ensures p.width > 0
    ensures p.Value(cell % p.width, cell / p.width) == if i < |p.data| then Some(p.data[i]) else None
  {
    Grid.Line(cell, p.height, p.width);
  }

  lemma BlockedAtPlace(d: Direction, i: nat)
    requires i < |d.values| == d.width * d.height
    ensures d.width > 0
    ensures d.Blocked(i % d.width, i / d.width) <==> d.values[i] != 0.0
  {
    Grid.Line(i, d.height, d.width);
  }

  datatype Options = Options(
    maxCoarse: real,
    minCoarse: real,
    threshold: real,
    drill: real,
    maxDepth: nat
  )

  /** The scale and offset aggregates are quantised with. */
  datatype Rules = Rules(scale: real, bias: real)

  datatype Env = Env(proxy: Proxy, direction: Option<Direction>, options: Options, res: real,
                     rules: Rules) {
    predicate Blocked(x: nat, y: nat) {
      direction.Some? && direction.value.Blocked(x, y)
    }
  }

  datatype Square = Square(x: nat, y: nat, size: nat, depth: nat) {
    predicate Covers(px: nat, py: nat) {
      x <= px < x + size && y <= py < y + size
    }
  }

  function Min(a: nat, b: nat): nat { if a < b then a else b }

  // ------------------------------------------------------------- what a square holds

  /** What the scan of a square gathers; no value was seen while `max` is `None`. */
  datatype Stats = Stats(count: nat, sum: real, max: Option<real>, blocked: bool)

  const NOTHING := Stats(0, 0.0, None, false)

  function AddCell(env: Env, s: Stats, x: nat, y: nat): Stats {
    var t := match env.proxy.Value(x, y)
      case None => s
      case Some(v) =>
        Stats(s.count + 1, s.sum + v,
              Some(if s.max.Some? && s.max.value >= v then s.max.value else v), s.blocked);
    if env.Blocked(x, y) then t.(blocked := true) else t
  }

  function RowStats(env: Env, s: Stats, y: nat, from: nat, end: nat): Stats
    decreases end
  {
    if end <= from then s else AddCell(env, RowStats(env, s, y, from, end - 1), end - 1, y)
  }

  function AreaStats(env: Env, x0: nat, x1: nat, y0: nat, y1: nat): Stats
    decreases y1
  {
    if y1 <= y0 then NOTHING
    else RowStats(env, AreaStats(env, x0, x1, y0, y1 - 1), y1 - 1, x0, x1)
  }

  function SquareStats(env: Env, sq: Square): Stats {
    AreaStats(env, sq.x, Min(sq.x + sq.size, env.proxy.width),
              sq.y, Min(sq.y + sq.size, env.proxy.height))
  }

  /** The scanned cells of an area: whole rows before `row`, and `row` itself before `end`. */
  predicate Scanned(x: nat, y: nat, x0: nat, x1: nat, y0: nat, row: nat, end: nat) {
    (y0 <= y < row && x0 <= x < x1) || (y == row && y0 <= y && x0 <= x < end)
  }

  /** The statistics say of the scanned cells what they should. */
  ghost predicate Describes(env: Env, s: Stats, x0: nat, x1: nat, y0: nat, row: nat, end: nat) {
    && (s.count > 0 <==> s.max.Some?)
    && (s.max.Some? <==> exists x: nat, y: nat ::
          Scanned(x, y, x0, x1, y0, row, end) && env.proxy.Value(x, y).Some?)
    && (forall x: nat, y: nat :: Scanned(x, y, x0, x1, y0, row, end) && env.proxy.Value(x, y).Some?
          ==> s.max.Some? && env.proxy.Value(x, y).value <= s.max.value)
    && (s.max.Some? ==> exists x: nat, y: nat ::
          Scanned(x, y, x0, x1, y0, row, end) && env.proxy.Value(x, y) == s.max)
    && (s.blocked <==> exists x: nat, y: nat ::
          Scanned(x, y, x0, x1, y0, row, end) && env.Blocked(x, y))
  }

  lemma CellDescribed(env: Env, s: Stats, x0: nat, x1: nat, y0: nat, row: nat, end: nat)
    requires Describes(env, s, x0, x1, y0, row, end) && x0 <= end && y0 <= row
    ensures Describes(env, AddCell(env, s, end, row), x0, x1, y0, row, end + 1)
  {
    hide Proxy.Value, Env.Blocked;
    var next := end + 1;
    assert Scanned(end, row, x0, x1, y0, row, next);
    assert forall x: nat, y: nat ::
      (Scanned(x, y, x0, x1, y0, row, next) <==>
       (Scanned(x, y, x0, x1, y0, row, end) || (x == end && y == row)));
  }

  lemma {:induction false} RowDescribed(env: Env, s: Stats, x0: nat, x1: nat, y0: nat, row: nat, end: nat)
    requires Describes(env, s, x0, x1, y0, row, x0) && x0 <= end && y0 <= row
    ensures Describes(env, RowStats(env, s, row, x0, end), x0, x1, y0, row, end)
    decreases end
  {
    hide Describes, AddCell;
    if end > x0 {
      RowDescribed(env, s, x0, x1, y0, row, end - 1);
      CellDescribed(env, RowStats(env, s, row, x0, end - 1), x0, x1, y0, row, end - 1);
    }
  }

  lemma NextRow(env: Env, s: Stats, x0: nat, x1: nat, y0: nat, row: nat)
    requires Describes(env, s, x0, x1, y0, row, if x0 <= x1 then x1 else x0) && y0 <= row
    ensures Describes(env, s, x0, x1, y0, row + 1, x0)
  {
    hide Proxy.Value, Env.Blocked;
    var next, end := row + 1, if x0 <= x1 then x1 else x0;
    assert forall x: nat, y: nat ::
      (Scanned(x, y, x0, x1, y0, next, x0) <==> Scanned(x, y, x0, x1, y0, row, end));
  }

  lemma NothingDescribed(env: Env, x0: nat, x1: nat, y0: nat)
    ensures Describes(env, NOTHING, x0, x1, y0, y0, x0)
  {
  }

  lemma EmptyRow(env: Env, s: Stats, row: nat, x0: nat, x1: nat)
    requires x1 <= x0
    ensures RowStats(env, s, row, x0, x1) == s == RowStats(env, s, row, x0, x0)
  {
  }

  lemma {:induction false} AreaDescribed(env: Env, x0: nat, x1: nat, y0: nat, y1: nat)
    ensures Describes(env, AreaStats(env, x0, x1, y0, y1), x0, x1, y0, if y0 <= y1 then y1 else y0, x0)
    decreases y1
  {
    hide Describes, RowStats;
    if y1 <= y0 {
      NothingDescribed(env, x0, x1, y0);
    } else {
      AreaDescribed(env, x0, x1, y0, y1 - 1);
      var s, end := AreaStats(env, x0, x1, y0, y1 - 1), if x0 <= x1 then x1 else x0;
      RowDescribed(env, s, x0, x1, y0, y1 - 1, end);
      if x1 < x0 {
        EmptyRow(env, s, y1 - 1, x0, x1);
      }
      NextRow(env, RowStats(env, s, y1 - 1, x0, x1), x0, x1, y0, y1 - 1);
    }
  }

  /** The proxy has a value for the cell. */
  predicate Valued(env: Env, x: nat, y: nat) { env.proxy.Value(x, y).Some? }

  /** What the statistics of a square mean for its cells. */
  lemma SquareDescribed(env: Env, sq: Square)
    ensures var s := SquareStats(env, sq);
      && (s.count > 0 <==> s.max.Some?)
      && (s.count > 0 <==> exists x: nat, y: nat :: sq.Covers(x, y) && Valued(env, x, y))
      && (forall x: nat, y: nat :: sq.Covers(x, y) && Valued(env, x, y) ==>
            s.max.Some? && env.proxy.Value(x, y).value <= s.max.value)
      && (s.max.Some? ==> exists x: nat, y: nat :: sq.Covers(x, y) && env.proxy.Value(x, y) == s.max)
      && (s.blocked <==> exists x: nat, y: nat :: sq.Covers(x, y) && env.Blocked(x, y)
                           && x < env.proxy.width && y < env.proxy.height)
  {
    hide Env.Blocked, AreaStats;
    var x1, y1 := Min(sq.x + sq.size, env.proxy.width), Min(sq.y + sq.size, env.proxy.height);
    var last := if sq.y <= y1 then y1 else sq.y;
    AreaDescribed(env, sq.x, x1, sq.y, y1);
    assert forall x: nat, y: nat ::
      (Scanned(x, y, sq.x, x1, sq.y, last, sq.x) <==>
       (sq.Covers(x, y) && x < env.proxy.width && y < env.proxy.height));
  }

  // ------------------------------------------------------------- the number and the sum

  /** The cells of a square that have a value. */
  ghost function CellsOf(env: Env, sq: Square): set<(nat, nat)> {
    set x: nat, y: nat | x < env.proxy.width && y < env.proxy.height && sq.Covers(x, y) && Valued(env, x, y) :: (x, y)
  }

  function ValueAt(env: Env, cell: (nat, nat)): real {
    match env.proxy.Value(cell.0, cell.1) case None => 0.0 case Some(v) => v
  }

  ghost function Pick(cells: set<(nat, nat)>): (cell: (nat, nat))
    requires cells != {}
    ensures cell in cells
  {
    var cell :| cell in cells;
    cell
  }

  /** The sum of a set of cells, in no particular order. */
  ghost function Total(env: Env, cells: set<(nat, nat)>): real {
    if cells == {} then 0.0
    else ValueAt(env, Pick(cells)) + Total(env, cells - {Pick(cells)})
  }

  /** Any cell may be counted first. */
  lemma {:induction false} TotalTakes(env: Env, cells: set<(nat, nat)>, cell: (nat, nat))
    requires cell in cells
    ensures Total(env, cells) == ValueAt(env, cell) + Total(env, cells - {cell})
    decreases |cells|
  {
    hide ValueAt;
    var p := Pick(cells);
    if cell != p {
      TotalTakes(env, cells - {p}, cell);
      TotalTakes(env, cells - {cell}, p);
      assert cells - {p} - {cell} == cells - {cell} - {p};
    }
  }

  ghost function ScannedCells(env: Env, x0: nat, x1: nat, y0: nat, row: nat, end: nat): set<(nat, nat)> {
    set x: nat, y: nat | x < env.proxy.width && y < env.proxy.height
      && Scanned(x, y, x0, x1, y0, row, end) && Valued(env, x, y) :: (x, y)
  }

  ghost predicate Sums(env: Env, s: Stats, cells: set<(nat, nat)>) {
    s.count == |cells| && s.sum == Total(env, cells)
  }

  lemma ScannedOn(env: Env, x0: nat, x1: nat, y0: nat, row: nat, end: nat)
    requires x0 <= end && y0 <= row
    ensures (end, row) !in ScannedCells(env, x0, x1, y0, row, end)
    ensures ScannedCells(env, x0, x1, y0, row, end + 1)
         == ScannedCells(env, x0, x1, y0, row, end) + (if Valued(env, end, row) then {(end, row)} else {})
  {
    assert Valued(env, end, row) ==> end < env.proxy.width && row < env.proxy.height;
    hide Valued;
    var was, now := ScannedCells(env, x0, x1, y0, row, end), ScannedCells(env, x0, x1, y0, row, end + 1);
    forall x: nat, y: nat ensures (x, y) in now <==> (x, y) in was || (Valued(env, end, row) && (x, y) == (end, row)) {
    }
  }

  lemma CellSummed(env: Env, s: Stats, x0: nat, x1: nat, y0: nat, row: nat, end: nat)
    requires Sums(env, s, ScannedCells(env, x0, x1, y0, row, end)) && x0 <= end && y0 <= row
    ensures Sums(env, AddCell(env, s, end, row), ScannedCells(env, x0, x1, y0, row, end + 1))
  {
    hide Env.Blocked, Total, ScannedCells, Proxy.Value;
    ScannedOn(env, x0, x1, y0, row, end);
    var was, now := ScannedCells(env, x0, x1, y0, row, end), ScannedCells(env, x0, x1, y0, row, end + 1);
    if Valued(env, end, row) {
      TotalTakes(env, now, (end, row));
      assert now - {(end, row)} == was;
    }
  }

  lemma {:induction false} RowSummed(env: Env, s: Stats, x0: nat, x1: nat, y0: nat, row: nat, end: nat)
    requires Sums(env, s, ScannedCells(env, x0, x1, y0, row, x0)) && x0 <= end && y0 <= row
    ensures Sums(env, RowStats(env, s, row, x0, end), ScannedCells(env, x0, x1, y0, row, end))
    decreases end
  {
    hide Sums, AddCell, ScannedCells;
    if end > x0 {
      RowSummed(env, s, x0, x1, y0, row, end - 1);
      CellSummed(env, RowStats(env, s, row, x0, end - 1), x0, x1, y0, row, end - 1);
    }
  }

  lemma SameScanned(env: Env, x0: nat, x1: nat, y0: nat, row: nat)
    requires y0 <= row
    ensures ScannedCells(env, x0, x1, y0, row + 1, x0)
         == ScannedCells(env, x0, x1, y0, row, if x0 <= x1 then x1 else x0)
  {
    hide Valued;
  }

  lemma NothingScanned(env: Env, x0: nat, x1: nat, y0: nat)
    ensures ScannedCells(env, x0, x1, y0, y0, x0) == {}
  {
  }

  lemma {:induction false} AreaSummed(env: Env, x0: nat, x1: nat, y0: nat, y1: nat)
    ensures Sums(env, AreaStats(env, x0, x1, y0, y1), ScannedCells(env, x0, x1, y0, if y0 <= y1 then y1 else y0, x0))
    decreases y1
  {
    hide RowStats, ScannedCells;
    if y1 <= y0 {
      NothingScanned(env, x0, x1, y0);
    } else {
      AreaSummed(env, x0, x1, y0, y1 - 1);
      var s, end := AreaStats(env, x0, x1, y0, y1 - 1), if x0 <= x1 then x1 else x0;
      RowSummed(env, s, x0, x1, y0, y1 - 1, end);
      if x1 < x0 {
        EmptyRow(env, s, y1 - 1, x0, x1);
      }
      SameScanned(env, x0, x1, y0, y1 - 1);
    }
  }

  /** The count of a square is the number of its cells with a value, the sum is their sum. */
  lemma SquareSummed(env: Env, sq: Square)
    ensures var s := SquareStats(env, sq);
      s.count == |CellsOf(env, sq)| && s.sum == Total(env, CellsOf(env, sq))
  {
    hide AreaStats, Total, Valued;
    var x1, y1 := Min(sq.x + sq.size, env.proxy.width), Min(sq.y + sq.size, env.proxy.height);
    var last := if sq.y <= y1 then y1 else sq.y;
    AreaSummed(env, sq.x, x1, sq.y, y1);
    assert ScannedCells(env, sq.x, x1, sq.y, last, sq.x) == CellsOf(env, sq);
  }

  // ---------------------------------------------------------------------- recursion

  datatype Verdict = Off | Empty | Small | Merge | Deep | Split

  /** What `partition_recursive` does with a square, test by test. */
  function Decide(env: Env, sq: Square): Verdict {
    var o, s := env.options, SquareStats(env, sq);
    var span := sq.size as real * env.res;
    if sq.size == 0 || o.maxCoarse <= 0.0 then Off
    else if s.count == 0 || s.max.None? then Empty
    else if span < o.minCoarse then Small
    else if s.max.value - s.sum / s.count as real <= o.threshold && span <= o.maxCoarse && !s.blocked
    then Merge
    else if sq.depth >= o.maxDepth || sq.size < 2 then Deep
    else Split
  }

  /** The quarter of a square: 0 low/low, 1 high x, 2 high y, 3 both. */
  function Quarter(sq: Square, q: nat): Square {
    var half := sq.size / 2;
    Square(sq.x + (if q % 2 == 1 then half else 0), sq.y + (if q >= 2 then half else 0), half,
           sq.depth + 1)
  }

  /** A square the recursion stops at: merged into a node, or abandoned for its size or depth. */
  datatype Part = Part(square: Square, merged: bool)

  predicate InGrid(sq: Square)
    requires sq.size > 0
  {
    sq.x / sq.size < Pow2(sq.depth) && sq.y / sq.size < Pow2(sq.depth)
  }

  /** The squares the recursion stops at, in the order it reaches them; a square that holds no
      value, or lies off its depth's grid, is not listed. */
  function Parts(env: Env, sq: Square): seq<Part>
    decreases sq.size
  {
    match Decide(env, sq)
    case Empty => []
    case Merge => if InGrid(sq) then [Part(sq, true)] else []
    case Off => [Part(sq, false)]
    case Small => [Part(sq, false)]
    case Deep => [Part(sq, false)]
    case Split =>
      Parts(env, Quarter(sq, 0)) + Parts(env, Quarter(sq, 1))
      + Parts(env, Quarter(sq, 2)) + Parts(env, Quarter(sq, 3))
  }

  function Hit(b: bool): nat { if b then 1 else 0 }

  /** How many of the squares cover a cell. */
  function Hits(parts: seq<Part>, px: nat, py: nat): nat {
    if parts == [] then 0 else Hit(parts[0].square.Covers(px, py)) + Hits(parts[1..], px, py)
  }

  lemma {:induction false} HitsJoin(a: seq<Part>, b: seq<Part>, px: nat, py: nat)
    ensures Hits(a + b, px, py) == Hits(a, px, py) + Hits(b, px, py)
  {
    if a == [] {
      assert a + b == b;
    } else {
      assert (a + b)[1..] == a[1..] + b;
      HitsJoin(a[1..], b, px, py);
    }
  }

  /** The square lies on the grid of its depth over a root of the given side. */
  predicate Aligned(sq: Square, side: nat) {
    && sq.size > 0
    && sq.size * Pow2(sq.depth) == side
    && InGrid(sq)
    && sq.x == sq.x / sq.size * sq.size
    && sq.y == sq.y / sq.size * sq.size
  }

  lemma Place(x: nat, size: nat, i: nat)
    requires size > 0 && x == i * size
    ensures x / size == i
  {
    Grid.OneQuotient(x / size, x % size, i, 0, size);
  }

  lemma HalfPlace(x: nat, half: nat, b: nat)
    requires half > 0 && x == x / (2 * half) * (2 * half) && b < 2
    ensures (x + b * half) / half == 2 * (x / (2 * half)) + b
    ensures x + b * half == (x + b * half) / half * half
  {
    var i := x / (2 * half);
    assert i * (2 * half) == (2 * i) * half;
    assert x + b * half == (2 * i + b) * half;
    Place(x + b * half, half, 2 * i + b);
  }

  lemma QuarterAligned(sq: Square, side: nat, k: nat, q: nat)
    requires Aligned(sq, side) && sq.size == Pow2(k + 1) && q < 4
    ensures Aligned(Quarter(sq, q), side) && Quarter(sq, q).size == Pow2(k)
  {
    hide Pow2;
    PowStep(k + 1);
    PowStep(sq.depth + 1);
    var half, n := Pow2(k), Pow2(sq.depth);
    assert (2 * half) / 2 == half;
    assert (2 * half) * n == half * (2 * n);
    HalfPlace(sq.x, half, if q % 2 == 1 then 1 else 0);
    HalfPlace(sq.y, half, if q >= 2 then 1 else 0);
  }

  /** The four quarters cover each cell of a square once. */
  lemma QuartersCover(sq: Square, px: nat, py: nat)
    requires sq.size == 2 * (sq.size / 2)
    ensures Hit(Quarter(sq, 0).Covers(px, py)) + Hit(Quarter(sq, 1).Covers(px, py))
          + Hit(Quarter(sq, 2).Covers(px, py)) + Hit(Quarter(sq, 3).Covers(px, py))
         == Hit(sq.Covers(px, py))
  {
  }

  lemma OneHit(p: Part, px: nat, py: nat)
    ensures Hits([p], px, py) == Hit(p.square.Covers(px, py))
  {
    assert [p][1..] == [];
  }

  /** The parts of an aligned square are aligned, cover no cell twice, nothing outside the
      square, and every cell that has a value exactly once. */
  lemma {:induction false} PartsTile(env: Env, sq: Square, side: nat, k: nat, px: nat, py: nat)
    requires Aligned(sq, side) && sq.size == Pow2(k)
    ensures Hits(Parts(env, sq), px, py) <= Hit(sq.Covers(px, py))
    ensures sq.Covers(px, py) && Valued(env, px, py) ==> Hits(Parts(env, sq), px, py) == 1
    decreases k
  {
    hide Pow2, Decide, Valued, Square.Covers, Hits, Aligned;
    match Decide(env, sq)
    case Empty => EmptyHasNoValue(env, sq, px, py);
      NoHits(px, py);
    case Merge =>
      OneHit(Part(sq, true), px, py);
      AlignedInGrid(sq, side);
    case Off => OneHit(Part(sq, false), px, py);
    case Small => OneHit(Part(sq, false), px, py);
    case Deep => OneHit(Part(sq, false), px, py);
    case Split =>
      SplitsInHalf(env, sq, k);
      TileQuarters(env, sq, side, k, px, py);
  }

  lemma NoHits(px: nat, py: nat)
    ensures Hits([], px, py) == 0
  {
  }

  lemma AlignedInGrid(sq: Square, side: nat)
    requires Aligned(sq, side)
    ensures sq.size > 0 && InGrid(sq)
  {
  }

  lemma EmptyHasNoValue(env: Env, sq: Square, px: nat, py: nat)
    requires Decide(env, sq) == Empty
    ensures !(sq.Covers(px, py) && Valued(env, px, py))
  {
    hide SquareStats, Valued;
    SquareDescribed(env, sq);
  }

  lemma SplitsInHalf(env: Env, sq: Square, k: nat)
    requires Decide(env, sq) == Split && sq.size == Pow2(k)
    ensures k > 0 && sq.size == 2 * (sq.size / 2)
  {
    hide SquareStats;
  }

  lemma {:induction false} TileQuarters(env: Env, sq: Square, side: nat, k: nat, px: nat, py: nat)
    requires Aligned(sq, side) && sq.size == Pow2(k) && Decide(env, sq) == Split && k > 0
    requires sq.size == 2 * (sq.size / 2)
    ensures Hits(Parts(env, sq), px, py) <= Hit(sq.Covers(px, py))
    ensures sq.Covers(px, py) && Valued(env, px, py) ==> Hits(Parts(env, sq), px, py) == 1
    decreases k, 0
  {
    hide Pow2, Decide, Valued, Square.Covers, Hits, Aligned, Quarter;
    QuartersCover(sq, px, py);
    var a, b := Parts(env, Quarter(sq, 0)), Parts(env, Quarter(sq, 1));
    var c, d := Parts(env, Quarter(sq, 2)), Parts(env, Quarter(sq, 3));
    HitsJoin(a + b + c, d, px, py);
    HitsJoin(a + b, c, px, py);
    HitsJoin(a, b, px, py);
    QuarterAligned(sq, side, k - 1, 0);
    QuarterAligned(sq, side, k - 1, 1);
    QuarterAligned(sq, side, k - 1, 2);
    QuarterAligned(sq, side, k - 1, 3);
    PartsTile(env, Quarter(sq, 0), side, k - 1, px, py);
    PartsTile(env, Quarter(sq, 1), side, k - 1, px, py);
    PartsTile(env, Quarter(sq, 2), side, k - 1, px, py);
    PartsTile(env, Quarter(sq, 3), side, k - 1, px, py);
  }
}
