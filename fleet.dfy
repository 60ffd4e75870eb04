/** The alien fleet: how many aliens fit on the screen, where each one is
    placed, and how the whole fleet drops when it reverses direction. */
module Fleet {

  /** An alien's rectangle, given by its top-left corner; every alien of a
      fleet has the same width and height, held in the Geometry. */
  datatype Alien = Alien(x: int, y: int)

  /** The sizes the layout depends on: the screen, one alien's rectangle and
      the height of the ship's rectangle. */
  datatype Geometry = Geometry(
    screenWidth: int, screenHeight: int,
    alienWidth: int, alienHeight: int,
    shipHeight: int)
  {
    /** Image sizes are positive, so the layout's divisions are defined. */
    predicate Valid() {
      alienWidth > 0 && alienHeight > 0 && shipHeight >= 0
    }
  }

  /** Number of values Python's range(n) yields: none when n is not positive. */
  function RangeLen(n: int): nat {
    if n < 0 then 0 else n
  }

  /** number_aliens_x: the free width (screen minus a margin of two alien
      widths), floor-divided by the room one alien and its gap take.
      Python's // and Dafny's / agree here because the divisor is positive. */
  function AliensPerRow(g: Geometry): (n: int)
    requires g.Valid()
    ensures 2 * g.alienWidth * n <= g.screenWidth - 2 * g.alienWidth
    ensures g.screenWidth - 2 * g.alienWidth < 2 * g.alienWidth * (n + 1)
  {
    (g.screenWidth - 2 * g.alienWidth) / (2 * g.alienWidth)
  }

  /** number_rows: the free height (screen minus three alien heights and
      the ship), floor-divided by the room one row and its gap take. */
  function NumberRows(g: Geometry): (n: int)
    requires g.Valid()
    ensures 2 * g.alienHeight * n <= g.screenHeight - 3 * g.alienHeight - g.shipHeight
    ensures g.screenHeight - 3 * g.alienHeight - g.shipHeight < 2 * g.alienHeight * (n + 1)
  {
    (g.screenHeight - 3 * g.alienHeight - g.shipHeight) / (2 * g.alienHeight)
  }

  /** The alien _create_alien places at column `col` of row `row`. */
  function AlienAt(g: Geometry, col: int, row: int): Alien {
    Alien(g.alienWidth + 2 * g.alienWidth * col, g.alienHeight + 2 * g.alienHeight * row)
  }

  /** The first `n` aliens of row `row`, left to right. */
  function Row(g: Geometry, row: int, n: nat): (r: seq<Alien>)
    ensures |r| == n
    ensures forall c :: 0 <= c < n ==> r[c] == AlienAt(g, c, row)
  {
    if n == 0 then [] else Row(g, row, n - 1) + [AlienAt(g, n - 1, row)]
  }

  /** The first `rows` rows of `cols` aliens each, row after row. */
  function Grid(g: Geometry, rows: nat, cols: nat): (r: seq<Alien>)
    ensures |r| == rows * cols
  {
    if rows == 0 then [] else Grid(g, rows - 1, cols) + Row(g, rows - 1, cols)
  }

  /** The fleet _create_fleet builds. */
  function Layout(g: Geometry): seq<Alien>
    requires g.Valid()
  {
    Grid(g, RangeLen(NumberRows(g)), RangeLen(AliensPerRow(g)))
  }

  lemma MulLess(a: int, b: int, k: int)
    requires 0 <= a < b && k >= 0
    ensures k * a + k <= k * b
  {
    var d := b - a;
    assert k * b == k * a + k * d;
    assert k * d == k + k * (d - 1);
    assert k * (d - 1) >= 0;
  }

  lemma MulSucc(k: int, c: int)
    ensures k * (c + 1) == k * c + k
  {
  }

  /** Grid is row-major: the alien at column c of row r sits at index r*cols + c. */
  lemma {:induction false} GridAt(g: Geometry, rows: nat, cols: nat, r: nat, c: nat)
    requires r < rows && c < cols
    ensures r * cols + c < |Grid(g, rows, cols)|
    ensures Grid(g, rows, cols)[r * cols + c] == AlienAt(g, c, r)
  {
    var prefix := Grid(g, rows - 1, cols);
    assert |prefix| == (rows - 1) * cols;
    if r == rows - 1 {
      assert Grid(g, rows, cols)[r * cols + c] == Row(g, r, cols)[c];
    } else {
      GridAt(g, rows - 1, cols, r, c);
      MulLess(r, rows - 1, cols);
      assert r * cols == cols * r && (rows - 1) * cols == cols * (rows - 1);
      assert Grid(g, rows, cols)[r * cols + c] == prefix[r * cols + c];
    }
  }

  /** Every alien of a grid is the alien of some cell inside the grid. */
  lemma {:induction false} GridMember(g: Geometry, rows: nat, cols: nat, a: Alien)
    requires a in Grid(g, rows, cols)
    ensures exists c, r :: 0 <= c < cols && 0 <= r < rows && a == AlienAt(g, c, r)
  {
    if rows == 0 {
      assert false;
    } else if a in Grid(g, rows - 1, cols) {
      GridMember(g, rows - 1, cols, a);
    } else {
      var row := Row(g, rows - 1, cols);
      var c :| 0 <= c < |row| && row[c] == a;
      assert a == AlienAt(g, c, rows - 1);
    }
  }

  /** The fleet has number_rows * number_aliens_x aliens, and none when
      either count is not positive. */
  lemma LayoutSize(g: Geometry)
    requires g.Valid()
    ensures |Layout(g)| == RangeLen(NumberRows(g)) * RangeLen(AliensPerRow(g))
    ensures NumberRows(g) <= 0 || AliensPerRow(g) <= 0 ==> Layout(g) == []
  {
  }

  /** The alien of column c, row r is at index r * number_aliens_x + c. */
  lemma LayoutAt(g: Geometry, r: int, c: int)
    requires g.Valid()
    requires 0 <= r < NumberRows(g) && 0 <= c < AliensPerRow(g)
    ensures r * AliensPerRow(g) + c < |Layout(g)|
    ensures Layout(g)[r * AliensPerRow(g) + c] == AlienAt(g, c, r)
  {
    GridAt(g, NumberRows(g), AliensPerRow(g), r, c);
  }

  /** Neighbours in a row are separated by exactly one alien width, and
      stand on the same line. */
  lemma LayoutSpacing(g: Geometry, r: int, c: int)
    requires g.Valid()
    requires 0 <= r < NumberRows(g) && 0 <= c && c + 1 < AliensPerRow(g)
    ensures var n, fleet := AliensPerRow(g), Layout(g);
      r * n + c + 1 < |fleet| &&
      fleet[r * n + c + 1].x - (fleet[r * n + c].x + g.alienWidth) == g.alienWidth &&
      fleet[r * n + c + 1].y == fleet[r * n + c].y
  {
    LayoutAt(g, r, c);
    LayoutAt(g, r, c + 1);
    MulSucc(2 * g.alienWidth, c);
  }

  /** Every alien of a fresh fleet lies inside the screen: one alien width
      clear on the left, two on the right, one alien height clear at the top,
      and three alien heights plus the ship's height clear at the bottom. */
  lemma LayoutFits(g: Geometry, a: Alien)
    requires g.Valid() && a in Layout(g)
    ensures g.alienWidth <= a.x && a.x + g.alienWidth <= g.screenWidth - 2 * g.alienWidth
    ensures g.alienHeight <= a.y
    ensures a.y + g.alienHeight <= g.screenHeight - 3 * g.alienHeight - g.shipHeight
  {
    var rows, cols := RangeLen(NumberRows(g)), RangeLen(AliensPerRow(g));
    GridMember(g, rows, cols, a);
    var c, r :| 0 <= c < cols && 0 <= r < rows && a == AlienAt(g, c, r);
    var w, h := g.alienWidth, g.alienHeight;
    // the right edge of column c is 2w(c+1), at most 2w times number_aliens_x
    MulLess(c, cols, 2 * w);
    // the bottom edge of row r is 2h(r+1), at most 2h times number_rows
    MulLess(r, rows, 2 * h);
    MulLess(0, c + 1, 2 * w);
    MulLess(0, r + 1, 2 * h);
  }

  /** The bottom-edge test of _check_aliens_bottom: the alien's rectangle
      reaches the bottom of the screen. */
  predicate AtBottom(g: Geometry, a: Alien) {
    a.y + g.alienHeight >= g.screenHeight
  }

  predicate AnyAtBottom(g: Geometry, fleet: seq<Alien>) {
    exists i :: 0 <= i < |fleet| && AtBottom(g, fleet[i])
  }

  /** A fleet just built never touches the bottom of the screen. */
  lemma FreshFleetClearOfBottom(g: Geometry)
    requires g.Valid()
    ensures !AnyAtBottom(g, Layout(g))
  {
    var fleet := Layout(g);
    forall i | 0 <= i < |fleet| ensures !AtBottom(g, fleet[i]) {
      LayoutFits(g, fleet[i]);
    }
  }

  /** The fleet after _change_fleet_direction's loop: every alien moved down
      by `drop`, in the same order and the same column. */
  function Dropped(fleet: seq<Alien>, drop: int): seq<Alien> {
    seq(|fleet|, i requires 0 <= i < |fleet| => Alien(fleet[i].x, fleet[i].y + drop))
  }
}
