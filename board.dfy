/**
 * The board of a dots-and-boxes game: the dot lattice, the horizontal and
 * vertical lines between neighbouring dots, and the squares bounded by four
 * lines.  Lines are identified by orientation and coordinates, squares by
 * their coordinates; a square refers to its four sides by line identifier.
 */
module Board {
  import opened Wrappers

  datatype Orientation = Horizontal | Vertical

  /** Identifier of a line: `h-x-y` or `v-x-y`. */
  datatype LineId = LineId(orientation: Orientation, x: nat, y: nat)

  datatype Dot = Dot(x: nat, y: nat)

  /** A line; `playerId` is the id of the player who drew it. */
  datatype Line = Line(id: LineId, drawn: bool, playerId: Option<nat>)

  /** A square with its four bounding lines, by identifier. */
  datatype Square = Square(x: nat, y: nat,
                           top: LineId, right: LineId, bottom: LineId, left: LineId,
                           completed: bool, playerId: Option<nat>)

  datatype Grid = Grid(dots: seq<Dot>, horizontalLines: seq<Line>,
                       verticalLines: seq<Line>, squares: seq<Square>)

  const EmptyGrid := Grid([], [], [], [])

  // ---------------------------------------------------------------------------
  // Row-major enumeration: `for i < rows { for j < cols { push(f(j, i)) } }`
  // ---------------------------------------------------------------------------

  function Row<T>(i: nat, cols: nat, f: (nat, nat) -> T): seq<T>
  {
    seq(cols, j requires 0 <= j => f(j, i))
  }

  function Lattice<T>(rows: nat, cols: nat, f: (nat, nat) -> T): seq<T>
  {
    if rows == 0 then [] else Lattice(rows - 1, cols, f) + Row(rows - 1, cols, f)
  }

  lemma {:induction false} LatticeLength<T>(rows: nat, cols: nat, f: (nat, nat) -> T)
    ensures |Lattice(rows, cols, f)| == rows * cols
  {
    if rows > 0 {
      LatticeLength(rows - 1, cols, f);
      assert (rows - 1) * cols + cols == rows * cols;
    }
  }

  /** Element `(j, i)` sits at position `i * cols + j`. */
  lemma {:induction false} LatticeAt<T>(rows: nat, cols: nat, f: (nat, nat) -> T, i: nat, j: nat)
    requires i < rows && j < cols
    ensures i * cols + j < |Lattice(rows, cols, f)|
    ensures Lattice(rows, cols, f)[i * cols + j] == f(j, i)
  {
    LatticeLength(rows - 1, cols, f);
    LatticeLength(rows, cols, f);
    var prefix := Lattice(rows - 1, cols, f);
    if i < rows - 1 {
      LatticeAt(rows - 1, cols, f, i, j);
    } else {
      assert i * cols + j == |prefix| + j;
    }
  }

  /** Every element comes from some coordinate pair inside the bounds. */
  lemma {:induction false} LatticeCoords<T>(rows: nat, cols: nat, f: (nat, nat) -> T, k: nat)
    returns (i: nat, j: nat)
    requires k < |Lattice(rows, cols, f)|
    ensures i < rows && j < cols && Lattice(rows, cols, f)[k] == f(j, i)
  {
    var prefix := Lattice(rows - 1, cols, f);
    if k < |prefix| {
      i, j := LatticeCoords(rows - 1, cols, f, k);
    } else {
      i, j := rows - 1, k - |prefix|;
    }
  }

  /** When `key` tells coordinate pairs apart, no key occurs twice. */
  lemma {:induction false} LatticeDistinct<T, K>(rows: nat, cols: nat, f: (nat, nat) -> T, key: T -> K)
    requires forall i: nat, j: nat, i': nat, j': nat :: key(f(j, i)) == key(f(j', i')) ==> i == i' && j == j'
    ensures forall a, b :: 0 <= a < b < |Lattice(rows, cols, f)| ==>
              key(Lattice(rows, cols, f)[a]) != key(Lattice(rows, cols, f)[b])
  {
    if rows > 0 {
      var L, P := Lattice(rows, cols, f), Lattice(rows - 1, cols, f);
      LatticeDistinct(rows - 1, cols, f, key);
      forall a, b | 0 <= a < b < |L| ensures key(L[a]) != key(L[b]) {
        if b < |P| {
          assert L[a] == P[a] && L[b] == P[b];
        } else if a < |P| {
          var i, j := LatticeCoords(rows - 1, cols, f, a);
          assert L[a] == f(j, i) && L[b] == f(b - |P|, rows - 1);
        } else {
          assert L[a] == f(a - |P|, rows - 1) && L[b] == f(b - |P|, rows - 1);
        }
      }
    }
  }

  /** The nested `for`/`push` loops that fill one of the grid's arrays. */
  method FillLattice<T>(rows: nat, cols: nat, f: (nat, nat) -> T) returns (s: seq<T>)
    ensures s == Lattice(rows, cols, f)
  {
    s := [];
    var i := 0;
    while i < rows
      invariant i <= rows
      invariant s == Lattice(i, cols, f)
    {
      var j := 0;
      while j < cols
        invariant j <= cols
        invariant s == Lattice(i, cols, f) + Row(i, cols, f)[..j]
      {
        assert Row(i, cols, f)[..j + 1] == Row(i, cols, f)[..j] + [f(j, i)];
        s := s + [f(j, i)];
        j := j + 1;
      }
      assert Row(i, cols, f)[..cols] == Row(i, cols, f);
      i := i + 1;
    }
  }

  // ---------------------------------------------------------------------------
  // The initial grid
  // ---------------------------------------------------------------------------

  /** `gridSize - 1` as a loop bound: no iteration when the size is below 1. */
  function Cells(n: nat): nat
  {
    if n == 0 then 0 else n - 1
  }

  function NewDot(x: nat, y: nat): Dot { Dot(x, y) }

  function NewHorizontal(x: nat, y: nat): Line { Line(LineId(Horizontal, x, y), false, None) }

  function NewVertical(x: nat, y: nat): Line { Line(LineId(Vertical, x, y), false, None) }

  /** Square `(x, y)`: top `h(x, y)`, right `v(x+1, y)`, bottom `h(x, y+1)`, left `v(x, y)`. */
  function NewSquare(x: nat, y: nat): Square
  {
    Square(x, y, LineId(Horizontal, x, y), LineId(Vertical, x + 1, y),
           LineId(Horizontal, x, y + 1), LineId(Vertical, x, y), false, None)
  }

  function LineKey(l: Line): LineId { l.id }

  /** The grid built for size `n`, every line undrawn and every square open. */
  function InitialGrid(n: nat): Grid
  {
    Grid(Lattice(n, n, NewDot),
         Lattice(n, Cells(n), NewHorizontal),
         Lattice(Cells(n), n, NewVertical),
         Lattice(Cells(n), Cells(n), NewSquare))
  }

  method BuildGrid(n: nat) returns (g: Grid)
    ensures g == InitialGrid(n)
  {
    var dots := FillLattice(n, n, NewDot);
    var horizontalLines := FillLattice(n, Cells(n), NewHorizontal);
    var verticalLines := FillLattice(Cells(n), n, NewVertical);
    var squares := FillLattice(Cells(n), Cells(n), NewSquare);
    g := Grid(dots, horizontalLines, verticalLines, squares);
  }

  // ---------------------------------------------------------------------------
  // Looking lines up, drawing them and checking squares
  // ---------------------------------------------------------------------------

  /** Position of the first line with identifier `id` (`|ls|` when there is none). */
  function FindIndex(ls: seq<Line>, id: LineId): (k: nat)
    ensures k <= |ls|
    ensures k < |ls| ==> ls[k].id == id
  {
    FindFrom(ls, id, 0)
  }

  /** The search from position `i` on, front to back as `find` walks the list. */
  function FindFrom(ls: seq<Line>, id: LineId, i: nat): (k: nat)
    requires i <= |ls|
    ensures i <= k <= |ls|
    ensures k < |ls| ==> ls[k].id == id
    decreases |ls| - i
  {
    if i == |ls| then |ls|
    else if ls[i].id == id then i
    else FindFrom(ls, id, i + 1)
  }

  /** No line before the one found carries `id`: it is the first match, and `|ls|` means there is none. */
  lemma FindIndexFirst(ls: seq<Line>, id: LineId, j: nat)
    requires j < FindIndex(ls, id)
    ensures ls[j].id != id
  {
    FindFromFirst(ls, id, 0, j);
  }

  lemma {:induction false} FindFromFirst(ls: seq<Line>, id: LineId, i: nat, j: nat)
    requires i <= |ls| && i <= j < FindFrom(ls, id, i)
    ensures ls[j].id != id
    decreases |ls| - i
  {
    if i < j {
      FindFromFirst(ls, id, i + 1, j);
    }
  }

  predicate HasLine(ls: seq<Line>, id: LineId)
  {
    FindIndex(ls, id) < |ls|
  }

  /** `lines.find(l => l.id === id)?.drawn`: false when the line is missing. */
  predicate IsDrawn(ls: seq<Line>, id: LineId)
  {
    var k := FindIndex(ls, id);
    k < |ls| && ls[k].drawn
  }

  function LineIds(ls: seq<Line>): seq<LineId>
  {
    seq(|ls|, k requires 0 <= k < |ls| => ls[k].id)
  }

  predicate UniqueIds(ls: seq<Line>)
  {
    forall a, b :: 0 <= a < b < |ls| ==> ls[a].id != ls[b].id
  }

  /** The search only looks at identifiers. */
  lemma FindIndexByIds(a: seq<Line>, b: seq<Line>, id: LineId)
    requires LineIds(a) == LineIds(b)
    ensures FindIndex(a, id) == FindIndex(b, id)
  {
    assert |a| == |LineIds(a)| == |b|;
    forall j | 0 <= j < |a| ensures a[j].id == b[j].id {
      assert LineIds(a)[j] == LineIds(b)[j];
    }
    FindFromByIds(a, b, id, 0);
  }

  lemma {:induction false} FindFromByIds(a: seq<Line>, b: seq<Line>, id: LineId, i: nat)
    requires |a| == |b| && i <= |a| && forall j :: 0 <= j < |a| ==> a[j].id == b[j].id
    ensures FindFrom(a, id, i) == FindFrom(b, id, i)
    decreases |a| - i
  {
    if i < |a| && a[i].id != id {
      FindFromByIds(a, b, id, i + 1);
    }
  }

  /** In a list without duplicate identifiers, the search finds the only match. */
  lemma FindIndexUnique(ls: seq<Line>, k: nat)
    requires UniqueIds(ls) && k < |ls|
    ensures FindIndex(ls, ls[k].id) == k
  {
    if FindIndex(ls, ls[k].id) > k {
      FindIndexFirst(ls, ls[k].id, k);
    }
  }

  /** `lines.map(l => l.id === id ? {...l, drawn: true, playerId: pid} : l)` */
  function DrawLine(ls: seq<Line>, id: LineId, pid: nat): (r: seq<Line>)
    ensures |r| == |ls| && LineIds(r) == LineIds(ls)
    ensures forall k :: 0 <= k < |ls| && ls[k].id != id ==> r[k] == ls[k]
    ensures forall k :: 0 <= k < |ls| && ls[k].id == id ==> r[k] == Line(id, true, Some(pid))
  {
    var r := seq(|ls|, k requires 0 <= k < |ls| =>
                   if ls[k].id == id then ls[k].(drawn := true, playerId := Some(pid)) else ls[k]);
    assert LineIds(r) == LineIds(ls);
    r
  }

  /** After drawing `id`, a line is drawn iff it was drawn before or it is `id` (when present). */
  lemma DrawLineEffect(ls: seq<Line>, id: LineId, pid: nat, x: LineId)
    ensures HasLine(DrawLine(ls, id, pid), x) == HasLine(ls, x)
    ensures IsDrawn(DrawLine(ls, id, pid), x) <==> IsDrawn(ls, x) || (x == id && HasLine(ls, id))
  {
    FindIndexByIds(DrawLine(ls, id, pid), ls, x);
  }

  /** Drawing an undrawn line never touches a line that is already drawn. */
  lemma DrawLineKeepsDrawn(ls: seq<Line>, id: LineId, pid: nat)
    requires UniqueIds(ls) && !IsDrawn(ls, id)
    ensures forall k :: 0 <= k < |ls| && ls[k].drawn ==> DrawLine(ls, id, pid)[k] == ls[k]
  {
    forall k | 0 <= k < |ls| && ls[k].drawn ensures DrawLine(ls, id, pid)[k] == ls[k] {
      if ls[k].id == id {
        FindIndexUnique(ls, k);
      }
    }
  }

  predicate SidesDrawn(sq: Square, hl: seq<Line>, vl: seq<Line>)
  {
    IsDrawn(hl, sq.top) && IsDrawn(hl, sq.bottom) && IsDrawn(vl, sq.left) && IsDrawn(vl, sq.right)
  }

  /** A square whose four sides are drawn is claimed by `pid`; completed squares stay as they are. */
  function CheckSquare(sq: Square, hl: seq<Line>, vl: seq<Line>, pid: nat): Square
  {
    if sq.completed then sq
    else if SidesDrawn(sq, hl, vl) then sq.(completed := true, playerId := Some(pid))
    else sq
  }

  function UpdateSquares(ss: seq<Square>, hl: seq<Line>, vl: seq<Line>, pid: nat): (r: seq<Square>)
    ensures |r| == |ss|
    ensures forall k :: 0 <= k < |ss| && ss[k].completed ==> r[k] == ss[k]
    ensures forall k :: 0 <= k < |ss| && !ss[k].completed ==>
              (r[k].completed <==> SidesDrawn(ss[k], hl, vl)) &&
              (r[k].completed ==> r[k].playerId == Some(pid)) &&
              (!r[k].completed ==> r[k] == ss[k])
    ensures Frames(r) == Frames(ss)
  {
    var r := seq(|ss|, k requires 0 <= k < |ss| => CheckSquare(ss[k], hl, vl, pid));
    assert Frames(r) == Frames(ss);
    r
  }

  /** Some open square has all four sides drawn. */
  predicate CompletesAny(ss: seq<Square>, hl: seq<Line>, vl: seq<Line>)
  {
    exists k :: 0 <= k < |ss| && !ss[k].completed && SidesDrawn(ss[k], hl, vl)
  }

  /** The `squares.map` with the `squareCompleted` flag it raises as it goes. */
  method ScanSquares(ss: seq<Square>, hl: seq<Line>, vl: seq<Line>, pid: nat)
    returns (updated: seq<Square>, squareCompleted: bool)
    ensures updated == UpdateSquares(ss, hl, vl, pid)
    ensures squareCompleted == CompletesAny(ss, hl, vl)
  {
    updated := [];
    squareCompleted := false;
    var k := 0;
    while k < |ss|
      invariant k <= |ss| && |updated| == k
      invariant forall j :: 0 <= j < k ==> updated[j] == CheckSquare(ss[j], hl, vl, pid)
      invariant squareCompleted <==> exists j :: 0 <= j < k && !ss[j].completed && SidesDrawn(ss[j], hl, vl)
    {
      var square := ss[k];
      if square.completed {
        updated := updated + [square];
      } else if IsDrawn(hl, square.top) && IsDrawn(hl, square.bottom)
             && IsDrawn(vl, square.left) && IsDrawn(vl, square.right) {
        squareCompleted := true;
        updated := updated + [square.(completed := true, playerId := Some(pid))];
      } else {
        updated := updated + [square];
      }
      k := k + 1;
    }
  }

  // ---------------------------------------------------------------------------
  // A move on the grid
  // ---------------------------------------------------------------------------

  function Family(g: Grid, o: Orientation): seq<Line>
  {
    if o == Horizontal then g.horizontalLines else g.verticalLines
  }

  /** A line that is on the board and not yet drawn: the only lines the board lets a player click. */
  predicate Clickable(g: Grid, id: LineId)
  {
    HasLine(Family(g, id.orientation), id) && !IsDrawn(Family(g, id.orientation), id)
  }

  /** The grid with only line `id` drawn by `pid`. */
  function WithLine(g: Grid, id: LineId, pid: nat): Grid
  {
    if id.orientation == Horizontal
    then g.(horizontalLines := DrawLine(g.horizontalLines, id, pid))
    else g.(verticalLines := DrawLine(g.verticalLines, id, pid))
  }

  /** Line `id` drawn by `pid` and every square it closes claimed by `pid`. */
  function MoveGrid(g: Grid, id: LineId, pid: nat): Grid
  {
    var d := WithLine(g, id, pid);
    d.(squares := UpdateSquares(g.squares, d.horizontalLines, d.verticalLines, pid))
  }

  predicate MoveCompletes(g: Grid, id: LineId, pid: nat)
  {
    var d := WithLine(g, id, pid);
    CompletesAny(g.squares, d.horizontalLines, d.verticalLines)
  }

  /** The grid half of a click: draw the line in its family, then scan the squares. */
  method ApplyLineClick(g: Grid, id: LineId, pid: nat) returns (m: Grid, squareCompleted: bool)
    ensures m == MoveGrid(g, id, pid)
    ensures squareCompleted == MoveCompletes(g, id, pid)
  {
    if id.orientation == Horizontal {
      var newHorizontalLines := DrawLine(g.horizontalLines, id, pid);
      var updatedSquares;
      updatedSquares, squareCompleted := ScanSquares(g.squares, newHorizontalLines, g.verticalLines, pid);
      m := g.(horizontalLines := newHorizontalLines, squares := updatedSquares);
    } else {
      var newVerticalLines := DrawLine(g.verticalLines, id, pid);
      var updatedSquares;
      updatedSquares, squareCompleted := ScanSquares(g.squares, g.horizontalLines, newVerticalLines, pid);
      m := g.(verticalLines := newVerticalLines, squares := updatedSquares);
    }
  }

  /** The clicked line is drawn and owned by the mover; every other line is as it was. */
  lemma MoveDrawsLine(g: Grid, id: LineId, pid: nat)
    requires Clickable(g, id) && UniqueIds(Family(g, id.orientation))
    ensures var m := MoveGrid(g, id, pid);
      var k := FindIndex(Family(g, id.orientation), id);
      && IsDrawn(Family(m, id.orientation), id)
      && Family(m, id.orientation)[k] == Line(id, true, Some(pid))
      && m.dots == g.dots
      && Family(m, Opposite(id.orientation)) == Family(g, Opposite(id.orientation))
      && forall j :: 0 <= j < |Family(g, id.orientation)| && j != k ==>
           Family(m, id.orientation)[j] == Family(g, id.orientation)[j]
  {
    var ls, k := Family(g, id.orientation), FindIndex(Family(g, id.orientation), id);
    DrawLineEffect(ls, id, pid, id);
    forall j | 0 <= j < |ls| && j != k
      ensures Family(MoveGrid(g, id, pid), id.orientation)[j] == ls[j]
    {
      assert ls[j].id != ls[k].id;
    }
  }

  function Opposite(o: Orientation): Orientation
  {
    if o == Horizontal then Vertical else Horizontal
  }

  // ---------------------------------------------------------------------------
  // Counting squares
  // ---------------------------------------------------------------------------

  /** `squares.filter(s => s.completed).length` */
  function CompletedCount(ss: seq<Square>): (c: nat)
    ensures c <= |ss|
  {
    if |ss| == 0 then 0 else (if ss[0].completed then 1 else 0) + CompletedCount(ss[1..])
  }

  /** Number of open squares whose four sides are drawn. */
  function NewlyCount(ss: seq<Square>, hl: seq<Line>, vl: seq<Line>): nat
  {
    if |ss| == 0 then 0
    else (if !ss[0].completed && SidesDrawn(ss[0], hl, vl) then 1 else 0) + NewlyCount(ss[1..], hl, vl)
  }

  /** Number of squares owned by player `pid`. */
  function OwnedCount(ss: seq<Square>, pid: nat): nat
  {
    if |ss| == 0 then 0 else (if ss[0].playerId == Some(pid) then 1 else 0) + OwnedCount(ss[1..], pid)
  }

  lemma {:induction false} AllCompleted(ss: seq<Square>)
    ensures CompletedCount(ss) == |ss| <==> forall k :: 0 <= k < |ss| ==> ss[k].completed
  {
    if |ss| > 0 {
      AllCompleted(ss[1..]);
      assert forall k :: 1 <= k < |ss| ==> ss[k] == ss[1..][k - 1];
    }
  }

  lemma {:induction false} NewlyPositive(ss: seq<Square>, hl: seq<Line>, vl: seq<Line>)
    ensures NewlyCount(ss, hl, vl) > 0 <==> CompletesAny(ss, hl, vl)
  {
    if |ss| > 0 {
      NewlyPositive(ss[1..], hl, vl);
      if CompletesAny(ss[1..], hl, vl) {
        var k :| 0 <= k < |ss[1..]| && !ss[1..][k].completed && SidesDrawn(ss[1..][k], hl, vl);
        assert ss[k + 1] == ss[1..][k];
      }
      if CompletesAny(ss, hl, vl) && !(!ss[0].completed && SidesDrawn(ss[0], hl, vl)) {
        var k :| 0 <= k < |ss| && !ss[k].completed && SidesDrawn(ss[k], hl, vl);
        assert k > 0 && ss[1..][k - 1] == ss[k];
      }
    }
  }

  /** Updating adds the newly closed squares to the completed ones and to the mover's. */
  lemma {:induction false} UpdateSquaresCounts(ss: seq<Square>, hl: seq<Line>, vl: seq<Line>, pid: nat, q: nat)
    requires forall k :: 0 <= k < |ss| ==> (ss[k].completed <==> ss[k].playerId.Some?)
    ensures CompletedCount(UpdateSquares(ss, hl, vl, pid)) == CompletedCount(ss) + NewlyCount(ss, hl, vl)
    ensures OwnedCount(UpdateSquares(ss, hl, vl, pid), q)
            == OwnedCount(ss, q) + (if q == pid then NewlyCount(ss, hl, vl) else 0)
  {
    if |ss| > 0 {
      var r := UpdateSquares(ss, hl, vl, pid);
      assert r[1..] == UpdateSquares(ss[1..], hl, vl, pid);
      UpdateSquaresCounts(ss[1..], hl, vl, pid, q);
    }
  }

  // ---------------------------------------------------------------------------
  // Invariants of a board in play
  // ---------------------------------------------------------------------------

  function Frame(s: Square): Square
  {
    s.(completed := false, playerId := None)
  }

  function Frames(ss: seq<Square>): seq<Square>
  {
    seq(|ss|, k requires 0 <= k < |ss| => Frame(ss[k]))
  }

  /** Same dots, the same line identifiers in the same order, and the same square bindings. */
  predicate SameShape(a: Grid, b: Grid)
  {
    && a.dots == b.dots
    && LineIds(a.horizontalLines) == LineIds(b.horizontalLines)
    && LineIds(a.verticalLines) == LineIds(b.verticalLines)
    && Frames(a.squares) == Frames(b.squares)
  }

  /** The shape of the grid built for size `n`. */
  predicate Layout(g: Grid, n: nat)
  {
    SameShape(g, InitialGrid(n))
  }

  predicate LinesConsistent(ls: seq<Line>)
  {
    forall k :: 0 <= k < |ls| ==> (ls[k].drawn <==> ls[k].playerId.Some?)
  }

  /** A square is completed exactly when its four sides are drawn, and then it has an owner. */
  predicate SquaresConsistent(ss: seq<Square>, hl: seq<Line>, vl: seq<Line>)
  {
    forall k :: 0 <= k < |ss| ==>
      (ss[k].completed <==> SidesDrawn(ss[k], hl, vl)) && (ss[k].completed <==> ss[k].playerId.Some?)
  }

  predicate Consistent(g: Grid)
  {
    && LinesConsistent(g.horizontalLines) && LinesConsistent(g.verticalLines)
    && SquaresConsistent(g.squares, g.horizontalLines, g.verticalLines)
  }

  /** Counts, freshness and identifiers of the grid built for size `n`. */
  lemma InitialGridShape(n: nat)
    requires n >= 1
    ensures var g := InitialGrid(n);
      && |g.dots| == n * n
      && |g.horizontalLines| == n * (n - 1)
      && |g.verticalLines| == n * (n - 1)
      && |g.squares| == (n - 1) * (n - 1)
      && (forall k :: 0 <= k < |g.horizontalLines| ==> !g.horizontalLines[k].drawn && g.horizontalLines[k].playerId == None)
      && (forall k :: 0 <= k < |g.verticalLines| ==> !g.verticalLines[k].drawn && g.verticalLines[k].playerId == None)
      && (forall k :: 0 <= k < |g.squares| ==> !g.squares[k].completed && g.squares[k].playerId == None)
      && UniqueIds(g.horizontalLines) && UniqueIds(g.verticalLines)
  {
    var g := InitialGrid(n);
    LatticeLength(n, n, NewDot);
    LatticeLength(n, n - 1, NewHorizontal);
    LatticeLength(n - 1, n, NewVertical);
    LatticeLength(n - 1, n - 1, NewSquare);
    assert (n - 1) * n == n * (n - 1);
    forall k | 0 <= k < |g.horizontalLines| ensures !g.horizontalLines[k].drawn && g.horizontalLines[k].playerId == None {
      var i, j := LatticeCoords(n, n - 1, NewHorizontal, k);
    }
    forall k | 0 <= k < |g.verticalLines| ensures !g.verticalLines[k].drawn && g.verticalLines[k].playerId == None {
      var i, j := LatticeCoords(n - 1, n, NewVertical, k);
    }
    forall k | 0 <= k < |g.squares| ensures !g.squares[k].completed && g.squares[k].playerId == None {
      var i, j := LatticeCoords(n - 1, n - 1, NewSquare, k);
    }
    LatticeDistinct(n, n - 1, NewHorizontal, LineKey);
    LatticeDistinct(n - 1, n, NewVertical, LineKey);
  }

  /** In the grid built for size `n`, line `h(x, y)` exists iff `x < n-1` and `y < n`, likewise `v(x, y)`. */
  lemma InitialLines(n: nat, id: LineId)
    requires n >= 1
    ensures HasLine(Family(InitialGrid(n), id.orientation), id) <==>
      if id.orientation == Horizontal then id.x < n - 1 && id.y < n else id.x < n && id.y < n - 1
  {
    if id.orientation == Horizontal {
      HorizontalLines(n, id);
    } else {
      VerticalLines(n, id);
    }
  }

  lemma HorizontalLines(n: nat, id: LineId)
    requires n >= 1 && id.orientation == Horizontal
    ensures HasLine(InitialGrid(n).horizontalLines, id) <==> id.x < n - 1 && id.y < n
  {
    var ls := InitialGrid(n).horizontalLines;
    if HasLine(ls, id) {
      var i, j := LatticeCoords(n, Cells(n), NewHorizontal, FindIndex(ls, id));
    } else if id.x < n - 1 && id.y < n {
      LatticeDistinct(n, Cells(n), NewHorizontal, LineKey);
      LatticeHas(n, Cells(n), NewHorizontal, id.x, id.y);
    }
  }

  lemma VerticalLines(n: nat, id: LineId)
    requires n >= 1 && id.orientation == Vertical
    ensures HasLine(InitialGrid(n).verticalLines, id) <==> id.x < n && id.y < n - 1
  {
    var ls := InitialGrid(n).verticalLines;
    if HasLine(ls, id) {
      var i, j := LatticeCoords(Cells(n), n, NewVertical, FindIndex(ls, id));
    } else if id.x < n && id.y < n - 1 {
      LatticeDistinct(Cells(n), n, NewVertical, LineKey);
      LatticeHas(Cells(n), n, NewVertical, id.x, id.y);
    }
  }

  /** A lattice of lines with distinct identifiers holds the line built at every coordinate pair in bounds. */
  lemma LatticeHas(rows: nat, cols: nat, f: (nat, nat) -> Line, x: nat, y: nat)
    requires forall a, b :: 0 <= a < b < |Lattice(rows, cols, f)| ==>
               LineKey(Lattice(rows, cols, f)[a]) != LineKey(Lattice(rows, cols, f)[b])
    requires x < cols && y < rows
    ensures HasLine(Lattice(rows, cols, f), f(x, y).id)
  {
    var ls := Lattice(rows, cols, f);
    LatticeAt(rows, cols, f, y, x);
    assert UniqueIds(ls) by {
      forall a, b | 0 <= a < b < |ls| ensures ls[a].id != ls[b].id {
        assert LineKey(ls[a]) != LineKey(ls[b]);
      }
    }
    FindIndexUnique(ls, y * cols + x);
  }

  /** Square `(x, y)` of the grid built for size `n` is bound to its four lines, all of which exist and are distinct. */
  lemma InitialSquares(n: nat, k: nat)
    requires n >= 1 && k < |InitialGrid(n).squares|
    ensures var g := InitialGrid(n); var sq := g.squares[k];
      && sq.x < n - 1 && sq.y < n - 1
      && sq.top == LineId(Horizontal, sq.x, sq.y) && sq.right == LineId(Vertical, sq.x + 1, sq.y)
      && sq.bottom == LineId(Horizontal, sq.x, sq.y + 1) && sq.left == LineId(Vertical, sq.x, sq.y)
      && HasLine(g.horizontalLines, sq.top) && HasLine(g.horizontalLines, sq.bottom)
      && HasLine(g.verticalLines, sq.left) && HasLine(g.verticalLines, sq.right)
      && sq.top != sq.bottom && sq.left != sq.right
  {
    var i, j := LatticeCoords(n - 1, n - 1, NewSquare, k);
    var sq := InitialGrid(n).squares[k];
    InitialLines(n, sq.top);
    InitialLines(n, sq.bottom);
    InitialLines(n, sq.left);
    InitialLines(n, sq.right);
  }

  /** A fresh grid satisfies the invariants of a board in play, with no square completed. */
  lemma InitialGridConsistent(n: nat)
    requires n >= 1
    ensures Layout(InitialGrid(n), n) && Consistent(InitialGrid(n))
    ensures CompletedCount(InitialGrid(n).squares) == 0
  {
    var g := InitialGrid(n);
    InitialGridShape(n);
    forall k | 0 <= k < |g.squares| ensures !SidesDrawn(g.squares[k], g.horizontalLines, g.verticalLines) {
      InitialSquares(n, k);
    }
    NoneCompleted(g.squares);
  }

  lemma {:induction false} NoneCompleted(ss: seq<Square>)
    requires forall k :: 0 <= k < |ss| ==> !ss[k].completed
    ensures CompletedCount(ss) == 0
  {
    if |ss| > 0 {
      assert forall k :: 0 <= k < |ss| - 1 ==> ss[1..][k] == ss[k + 1];
      NoneCompleted(ss[1..]);
    }
  }

  /** Identifiers of a board laid out for size `n` are unique. */
  lemma LayoutUnique(g: Grid, n: nat)
    requires n >= 1 && Layout(g, n)
    ensures UniqueIds(g.horizontalLines) && UniqueIds(g.verticalLines)
  {
    InitialGridShape(n);
    var init := InitialGrid(n);
    assert forall a :: 0 <= a < |g.horizontalLines| ==>
      g.horizontalLines[a].id == LineIds(g.horizontalLines)[a] == init.horizontalLines[a].id;
    assert forall a :: 0 <= a < |g.verticalLines| ==>
      g.verticalLines[a].id == LineIds(g.verticalLines)[a] == init.verticalLines[a].id;
  }

  /**
   * A move preserves the layout, "completed iff all four sides drawn", and the
   * owner bookkeeping, and it never changes a drawn line or a completed square.
   */
  lemma MovePreserves(g: Grid, n: nat, id: LineId, pid: nat)
    requires n >= 1 && Layout(g, n) && Consistent(g) && Clickable(g, id)
    ensures var m := MoveGrid(g, id, pid);
      && SameShape(m, g) && Layout(m, n) && Consistent(m)
      && (forall k :: 0 <= k < |g.horizontalLines| && g.horizontalLines[k].drawn ==>
            m.horizontalLines[k] == g.horizontalLines[k])
      && (forall k :: 0 <= k < |g.verticalLines| && g.verticalLines[k].drawn ==>
            m.verticalLines[k] == g.verticalLines[k])
      && (forall k :: 0 <= k < |g.squares| && g.squares[k].completed ==> m.squares[k] == g.squares[k])
  {
    var d := WithLine(g, id, pid);
    var m := MoveGrid(g, id, pid);
    LayoutUnique(g, n);
    DrawLineKeepsDrawn(Family(g, id.orientation), id, pid);
    forall x ensures (IsDrawn(g.horizontalLines, x) ==> IsDrawn(d.horizontalLines, x))
                  && (IsDrawn(g.verticalLines, x) ==> IsDrawn(d.verticalLines, x))
    {
      DrawLineEffect(Family(g, id.orientation), id, pid, x);
    }
    forall k | 0 <= k < |m.squares|
      ensures (m.squares[k].completed <==> SidesDrawn(m.squares[k], m.horizontalLines, m.verticalLines))
           && (m.squares[k].completed <==> m.squares[k].playerId.Some?)
    {
      assert Frames(m.squares)[k] == Frames(g.squares)[k];
      assert SidesDrawn(m.squares[k], d.horizontalLines, d.verticalLines)
          == SidesDrawn(g.squares[k], d.horizontalLines, d.verticalLines);
    }
  }

  /** Every line of the grid built for size `n >= 2` is a side of some square. */
  lemma SideOfSquare(n: nat, id: LineId) returns (q: nat)
    requires n >= 2 && HasLine(Family(InitialGrid(n), id.orientation), id)
    ensures q < |InitialGrid(n).squares|
    ensures var sq := InitialGrid(n).squares[q];
      id == sq.top || id == sq.bottom || id == sq.left || id == sq.right
  {
    if id.orientation == Horizontal {
      HorizontalLines(n, id);
      q := SquareAt(n, id.x, if id.y < n - 1 then id.y else id.y - 1);
    } else {
      VerticalLines(n, id);
      q := SquareAt(n, if id.x < n - 1 then id.x else id.x - 1, id.y);
    }
  }

  /** Position of square `(x, y)` among the squares of the grid built for size `n`. */
  lemma SquareAt(n: nat, x: nat, y: nat) returns (q: nat)
    requires x < n - 1 && y < n - 1
    ensures q < |InitialGrid(n).squares| && InitialGrid(n).squares[q] == NewSquare(x, y)
  {
    LatticeAt(Cells(n), Cells(n), NewSquare, y, x);
    q := y * Cells(n) + x;
  }

  lemma SideDrawn(sq: Square, g: Grid, id: LineId)
    requires SidesDrawn(sq, g.horizontalLines, g.verticalLines)
    requires sq.top.orientation == sq.bottom.orientation == Horizontal
    requires sq.left.orientation == sq.right.orientation == Vertical
    requires id == sq.top || id == sq.bottom || id == sq.left || id == sq.right
    ensures IsDrawn(Family(g, id.orientation), id)
  {
  }

  /** Once every square is completed, no line of the board is left to click. */
  lemma AllClaimedNoMove(g: Grid, n: nat, id: LineId)
    requires n >= 2 && Layout(g, n) && Consistent(g) && CompletedCount(g.squares) == |g.squares|
    ensures !Clickable(g, id)
  {
    var init := InitialGrid(n);
    var ls := Family(g, id.orientation);
    if HasLine(ls, id) {
      assert HasLine(Family(init, id.orientation), id) by {
        FindIndexByIds(ls, Family(init, id.orientation), id);
      }
      var q := SideOfSquare(n, id);
      assert |Frames(g.squares)| == |g.squares|;
      var sq := g.squares[q];
      assert Frame(sq) == Frame(init.squares[q]) by {
        assert Frames(g.squares)[q] == Frames(init.squares)[q];
      }
      assert sq.top == Frame(sq).top && sq.bottom == Frame(sq).bottom
          && sq.left == Frame(sq).left && sq.right == Frame(sq).right;
      InitialSquares(n, q);
      AllCompleted(g.squares);
      SideDrawn(sq, g, id);
    }
  }

  /** For `n >= 3`, line `v(1, 0)` is the right side of square `(0, 0)` and the left side of `(1, 0)`. */
  lemma SharedSide(n: nat)
    requires n >= 3
    ensures |InitialGrid(n).squares| >= 2
    ensures InitialGrid(n).squares[0].right == InitialGrid(n).squares[1].left == LineId(Vertical, 1, 0)
  {
    LatticeAt(n - 1, n - 1, NewSquare, 0, 0);
    LatticeAt(n - 1, n - 1, NewSquare, 0, 1);
  }

  // ---------------------------------------------------------------------------
  // A line bounds at most two squares, so a move closes at most two
  // ---------------------------------------------------------------------------

  /** Coordinates of a square, the part of its identifier `square-x-y`. */
  function SquareKey(s: Square): (nat, nat)
  {
    (s.x, s.y)
  }

  predicate IsSide(sq: Square, id: LineId)
  {
    id == sq.top || id == sq.bottom || id == sq.left || id == sq.right
  }

  /** The squares line `id` can bound: `h(x, y)` bounds `(x, y)` and `(x, y-1)`, `v(x, y)` bounds `(x, y)` and `(x-1, y)`. */
  function SquaresOfLine(id: LineId): (r: set<(nat, nat)>)
    ensures |r| <= 2
    ensures (id.x, id.y) in r
  {
    if id.orientation == Horizontal then
      (if id.y > 0 then {(id.x, id.y), (id.x, id.y - 1)} else {(id.x, id.y)})
    else
      (if id.x > 0 then {(id.x, id.y), (id.x - 1, id.y)} else {(id.x, id.y)})
  }

  /** A square of the grid built for size `n` has line `id` as a side only if it is one of the (at most two) squares `SquaresOfLine(id)`. */
  lemma SideOnlyOf(n: nat, k: nat, id: LineId)
    requires k < |InitialGrid(n).squares| && IsSide(InitialGrid(n).squares[k], id)
    ensures SquareKey(InitialGrid(n).squares[k]) in SquaresOfLine(id)
  {
    var i, j := LatticeCoords(Cells(n), Cells(n), NewSquare, k);
  }

  /** No two squares of the grid built for size `n` share their coordinates. */
  lemma InitialSquareKeysUnique(n: nat)
    ensures forall a, b :: 0 <= a < b < |InitialGrid(n).squares| ==>
              SquareKey(InitialGrid(n).squares[a]) != SquareKey(InitialGrid(n).squares[b])
  {
    LatticeDistinct(Cells(n), Cells(n), NewSquare, SquareKey);
  }

  /** On a consistent board, every square a move closes has the clicked line as a side. */
  lemma ClosedHasSide(g: Grid, id: LineId, pid: nat, k: nat)
    requires Consistent(g) && k < |g.squares|
    requires var d := WithLine(g, id, pid);
      !g.squares[k].completed && SidesDrawn(g.squares[k], d.horizontalLines, d.verticalLines)
    ensures IsSide(g.squares[k], id)
  {
    var sq, ls := g.squares[k], Family(g, id.orientation);
    DrawLineEffect(ls, id, pid, sq.top);
    DrawLineEffect(ls, id, pid, sq.bottom);
    DrawLineEffect(ls, id, pid, sq.left);
    DrawLineEffect(ls, id, pid, sq.right);
  }

  /** Squares with distinct coordinates, all newly closed ones among the coordinates `keys`: at most `|keys|` close. */
  lemma {:induction false} NewlyAtMostKeys(ss: seq<Square>, hl: seq<Line>, vl: seq<Line>, keys: set<(nat, nat)>)
    requires forall a, b :: 0 <= a < b < |ss| ==> SquareKey(ss[a]) != SquareKey(ss[b])
    requires forall k :: 0 <= k < |ss| && !ss[k].completed && SidesDrawn(ss[k], hl, vl) ==> SquareKey(ss[k]) in keys
    ensures NewlyCount(ss, hl, vl) <= |keys|
  {
    if |ss| > 0 {
      var tail := ss[1..];
      var rest := if !ss[0].completed && SidesDrawn(ss[0], hl, vl) then keys - {SquareKey(ss[0])} else keys;
      forall k | 0 <= k < |tail| && !tail[k].completed && SidesDrawn(tail[k], hl, vl)
        ensures SquareKey(tail[k]) in rest
      {
        assert tail[k] == ss[k + 1];
      }
      forall a, b | 0 <= a < b < |tail| ensures SquareKey(tail[a]) != SquareKey(tail[b]) {
        assert tail[a] == ss[a + 1] && tail[b] == ss[b + 1];
      }
      NewlyAtMostKeys(tail, hl, vl, rest);
    }
  }

  /** A move on a board laid out for size `n` closes at most two squares. */
  lemma AtMostTwoClosed(g: Grid, n: nat, id: LineId, pid: nat)
    requires Layout(g, n) && Consistent(g)
    ensures var d := WithLine(g, id, pid);
      NewlyCount(g.squares, d.horizontalLines, d.verticalLines) <= 2
  {
    var d := WithLine(g, id, pid);
    var init := InitialGrid(n).squares;
    assert |Frames(g.squares)| == |g.squares| && |Frames(init)| == |init|;
    forall k | 0 <= k < |g.squares| ensures Frame(g.squares[k]) == Frame(init[k]) {
      assert Frames(g.squares)[k] == Frames(init)[k];
    }
    InitialSquareKeysUnique(n);
    forall a, b | 0 <= a < b < |g.squares| ensures SquareKey(g.squares[a]) != SquareKey(g.squares[b]) {
      assert SquareKey(g.squares[a]) == SquareKey(init[a]) && SquareKey(g.squares[b]) == SquareKey(init[b]);
    }
    forall k | 0 <= k < |g.squares| && !g.squares[k].completed && SidesDrawn(g.squares[k], d.horizontalLines, d.verticalLines)
      ensures SquareKey(g.squares[k]) in SquaresOfLine(id)
    {
      ClosedHasSide(g, id, pid, k);
      assert IsSide(init[k], id) && SquareKey(g.squares[k]) == SquareKey(init[k]);
      SideOnlyOf(n, k, id);
    }
    NewlyAtMostKeys(g.squares, d.horizontalLines, d.verticalLines, SquaresOfLine(id));
  }
}
