/** Geometry of a row-major pixel grid: coordinates, the index of a pixel in a
    flat buffer, 4-neighbourhoods, foreground paths, connected components and
    coordinate sums. Shared by the pill-detection model. */
module Grid {

  newtype byte = x: int | 0 <= x < 256

  /** A pixel position (x, y); x runs along a row, y down the rows. */
  type Pixel = (int, int)

  datatype Axis = X | Y

  predicate InBounds(w: int, h: int, p: Pixel) {
    0 <= p.0 < w && 0 <= p.1 < h
  }

  /** Position of pixel p in a row-major buffer of rows w pixels wide. */
  function Index(w: int, p: Pixel): int {
    p.1 * w + p.0
  }

  /** Row-major order: p is scanned strictly before q. */
  predicate Before(p: Pixel, q: Pixel) {
    p.1 < q.1 || (p.1 == q.1 && p.0 < q.0)
  }

  function Right(p: Pixel): Pixel { (p.0 + 1, p.1) }
  function Left(p: Pixel): Pixel { (p.0 - 1, p.1) }
  function Down(p: Pixel): Pixel { (p.0, p.1 + 1) }
  function Up(p: Pixel): Pixel { (p.0, p.1 - 1) }

  /** q is one of the four pixels sharing an edge with p. */
  predicate Adjacent(p: Pixel, q: Pixel) {
    q == Right(p) || q == Left(p) || q == Down(p) || q == Up(p)
  }

  function Coord(p: Pixel, a: Axis): int {
    match a
    case X => p.0
    case Y => p.1
  }

  lemma MulMono(a: int, b: int, c: int)
    requires a <= b && 0 <= c
    ensures a * c <= b * c
  {
  }

  lemma IndexInRange(w: int, h: int, p: Pixel)
    requires InBounds(w, h, p)
    ensures 0 <= Index(w, p) < w * h
  {
    MulMono(0, p.1, w);
    MulMono(p.1 + 1, h, w);
  }

  lemma IndexInjective(w: int, h: int, p: Pixel, q: Pixel)
    requires InBounds(w, h, p) && InBounds(w, h, q)
    requires Index(w, p) == Index(w, q)
    ensures p == q
  {
    if p.1 < q.1 {
      MulMono(p.1 + 1, q.1, w);
    } else if q.1 < p.1 {
      MulMono(q.1 + 1, p.1, w);
    }
  }

  /** Every in-bounds pixel. */
  ghost function Cells(w: int, h: int): set<Pixel> {
    set x, y | 0 <= x < w && 0 <= y < h :: (x, y)
  }

  function RowCells(w: int, y: int): set<Pixel> {
    set x | 0 <= x < w :: (x, y)
  }

  lemma {:induction false} RowCellsSize(w: nat, y: int)
    ensures |RowCells(w, y)| == w
  {
    if w > 0 {
      RowCellsSize(w - 1, y);
      assert RowCells(w, y) == RowCells(w - 1, y) + {(w - 1, y)};
    }
  }

  /** The first h rows are the first h - 1 rows plus row h - 1. */
  lemma CellsSplit(w: nat, h: nat)
    requires h > 0
    ensures Cells(w, h) == Cells(w, h - 1) + RowCells(w, h - 1)
    ensures Cells(w, h - 1) !! RowCells(w, h - 1)
  {
    var upper, row := Cells(w, h - 1), RowCells(w, h - 1);
    forall p | p in Cells(w, h)
      ensures p in upper + row
    {
      if p.1 == h - 1 { assert p in row; } else { assert p in upper; }
    }
  }

  lemma DisjointUnionSize<T>(A: set<T>, B: set<T>)
    requires A !! B
    ensures |A + B| == |A| + |B|
  {
    assert A * B == {};
  }

  /** The grid has exactly w * h pixels. */
  lemma {:induction false} CellsSize(w: nat, h: nat)
    ensures |Cells(w, h)| == w * h
  {
    if h > 0 {
      CellsSize(w, h - 1);
      RowCellsSize(w, h - 1);
      CellsSplit(w, h);
      DisjointUnionSize(Cells(w, h - 1), RowCells(w, h - 1));
      assert w * h == w * (h - 1) + w;
    }
  }

  // ---------------------------------------------------------------------------
  // Foreground, paths and components of a 0/1 mask

  /** Every entry of the mask is 0 or 1. */
  predicate IsBinary(m: seq<byte>) {
    forall i :: 0 <= i < |m| ==> m[i] == 0 || m[i] == 1
  }

  /** p is an in-bounds pixel whose mask entry is 1. */
  predicate Fg(m: seq<byte>, w: int, h: int, p: Pixel) {
    InBounds(w, h, p) && 0 <= Index(w, p) < |m| && m[Index(w, p)] == 1
  }

  /** A sequence of foreground pixels, each sharing an edge with the next. */
  ghost predicate IsPath(m: seq<byte>, w: int, h: int, path: seq<Pixel>) {
    && |path| > 0
    && (forall i :: 0 <= i < |path| ==> Fg(m, w, h, path[i]))
    && (forall i :: 0 <= i < |path| - 1 ==> Adjacent(path[i], path[i + 1]))
  }

  /** t is 4-connected to s through foreground pixels. */
  ghost predicate Reachable(m: seq<byte>, w: int, h: int, s: Pixel, t: Pixel) {
    exists path :: IsPath(m, w, h, path) && path[0] == s && path[|path| - 1] == t
  }

  /** The 4-connected foreground component that contains s (empty if s is
      not a foreground pixel). */
  ghost function Component(m: seq<byte>, w: int, h: int, s: Pixel): set<Pixel> {
    set x, y | 0 <= x < w && 0 <= y < h && Reachable(m, w, h, s, (x, y)) :: (x, y)
  }

  /** s is the first pixel of its component in row-major order. */
  ghost predicate IsFirst(m: seq<byte>, w: int, h: int, s: Pixel) {
    Fg(m, w, h, s) && forall q :: q in Component(m, w, h, s) ==> !Before(q, s)
  }

  /** q is background, outside the image, or in S. */
  ghost predicate Covered(m: seq<byte>, w: int, h: int, S: set<Pixel>, q: Pixel) {
    !Fg(m, w, h, q) || q in S
  }

  /** All four neighbours of p are covered by S. */
  ghost predicate NeighboursCovered(m: seq<byte>, w: int, h: int, S: set<Pixel>, p: Pixel) {
    && Covered(m, w, h, S, Right(p)) && Covered(m, w, h, S, Left(p))
    && Covered(m, w, h, S, Down(p)) && Covered(m, w, h, S, Up(p))
  }

  /** Every foreground neighbour of a pixel of S lies in S. */
  ghost predicate Closed(m: seq<byte>, w: int, h: int, S: set<Pixel>) {
    forall p {:trigger NeighboursCovered(m, w, h, S, p)} :: p in S ==> NeighboursCovered(m, w, h, S, p)
  }

  lemma ReachSelf(m: seq<byte>, w: int, h: int, s: Pixel)
    requires Fg(m, w, h, s)
    ensures Reachable(m, w, h, s, s)
  {
    assert IsPath(m, w, h, [s]);
  }

  lemma ReachStep(m: seq<byte>, w: int, h: int, s: Pixel, p: Pixel, q: Pixel)
    requires Reachable(m, w, h, s, p) && Adjacent(p, q) && Fg(m, w, h, q)
    ensures Reachable(m, w, h, s, q)
  {
    var path :| IsPath(m, w, h, path) && path[0] == s && path[|path| - 1] == p;
    var longer := path + [q];
    assert IsPath(m, w, h, longer);
    assert longer[0] == s && longer[|longer| - 1] == q;
  }

  lemma AdjacentSymmetric(p: Pixel, q: Pixel)
    requires Adjacent(p, q)
    ensures Adjacent(q, p)
  {
  }

  /** Connectivity does not depend on direction. */
  lemma ReachSymmetric(m: seq<byte>, w: int, h: int, s: Pixel, t: Pixel)
    requires Reachable(m, w, h, s, t)
    ensures Reachable(m, w, h, t, s)
  {
    var path :| IsPath(m, w, h, path) && path[0] == s && path[|path| - 1] == t;
    var n := |path|;
    var back := seq(n, i requires 0 <= i < n => path[n - 1 - i]);
    forall i | 0 <= i < n - 1
      ensures Adjacent(back[i], back[i + 1])
    {
      AdjacentSymmetric(path[n - 2 - i], path[n - 1 - i]);
    }
    assert IsPath(m, w, h, back);
    assert back[0] == t && back[n - 1] == s;
  }

  /** A closed set that holds the first pixel of a path holds its last. */
  lemma {:induction false} ClosedForward(m: seq<byte>, w: int, h: int, S: set<Pixel>, path: seq<Pixel>)
    requires Closed(m, w, h, S) && IsPath(m, w, h, path) && path[0] in S
    ensures path[|path| - 1] in S
  {
    if |path| > 1 {
      var prefix := path[..|path| - 1];
      assert IsPath(m, w, h, prefix);
      ClosedForward(m, w, h, S, prefix);
      var p, q := path[|path| - 2], path[|path| - 1];
      assert Adjacent(p, q) && Fg(m, w, h, q);
      assert NeighboursCovered(m, w, h, S, p);
    }
  }

  /** A closed set that holds the last pixel of a path holds its first. */
  lemma {:induction false} ClosedBackward(m: seq<byte>, w: int, h: int, S: set<Pixel>, path: seq<Pixel>)
    requires Closed(m, w, h, S) && IsPath(m, w, h, path) && path[|path| - 1] in S
    ensures path[0] in S
  {
    if |path| > 1 {
      var suffix := path[1..];
      assert IsPath(m, w, h, suffix);
      ClosedBackward(m, w, h, S, suffix);
      var p, q := path[0], path[1];
      assert Adjacent(p, q) && Fg(m, w, h, p);
      AdjacentSymmetric(p, q);
      assert NeighboursCovered(m, w, h, S, q);
    }
  }

  /** A closed set containing s contains the whole component of s. */
  lemma ClosedHoldsComponent(m: seq<byte>, w: int, h: int, S: set<Pixel>, s: Pixel, t: Pixel)
    requires Closed(m, w, h, S) && s in S && Reachable(m, w, h, s, t)
    ensures t in S
  {
    var path :| IsPath(m, w, h, path) && path[0] == s && path[|path| - 1] == t;
    ClosedForward(m, w, h, S, path);
  }

  /** A closed set missing s misses every pixel connected to s. */
  lemma ClosedExcludesComponent(m: seq<byte>, w: int, h: int, S: set<Pixel>, s: Pixel, t: Pixel)
    requires Closed(m, w, h, S) && s !in S && Reachable(m, w, h, s, t)
    ensures t !in S
  {
    var path :| IsPath(m, w, h, path) && path[0] == s && path[|path| - 1] == t;
    if t in S {
      ClosedBackward(m, w, h, S, path);
    }
  }

  /** Both ends of a foreground path are foreground pixels. */
  lemma ReachEnds(m: seq<byte>, w: int, h: int, s: Pixel, t: Pixel)
    requires Reachable(m, w, h, s, t)
    ensures Fg(m, w, h, s) && Fg(m, w, h, t)
  {
    var path :| IsPath(m, w, h, path) && path[0] == s && path[|path| - 1] == t;
    assert Fg(m, w, h, path[0]) && Fg(m, w, h, path[|path| - 1]);
  }

  lemma ComponentMember(m: seq<byte>, w: int, h: int, s: Pixel, t: Pixel)
    ensures t in Component(m, w, h, s) <==> InBounds(w, h, t) && Reachable(m, w, h, s, t)
  {
    if InBounds(w, h, t) && Reachable(m, w, h, s, t) {
      assert t == (t.0, t.1);
    }
  }

  /** A component is closed under taking foreground neighbours. */
  lemma ComponentClosed(m: seq<byte>, w: int, h: int, s: Pixel)
    ensures Closed(m, w, h, Component(m, w, h, s))
  {
    var C := Component(m, w, h, s);
    forall p | p in C
      ensures NeighboursCovered(m, w, h, C, p)
    {
      ComponentMember(m, w, h, s, p);
      forall q | Adjacent(p, q) && Fg(m, w, h, q)
        ensures q in C
      {
        ReachStep(m, w, h, s, p, q);
        ComponentMember(m, w, h, s, q);
      }
      assert Adjacent(p, Right(p)) && Adjacent(p, Left(p)) && Adjacent(p, Down(p)) && Adjacent(p, Up(p));
    }
  }

  /** Components of two different first pixels share no pixel. */
  lemma FirstsDisjoint(m: seq<byte>, w: int, h: int, s: Pixel, t: Pixel)
    requires IsFirst(m, w, h, s) && IsFirst(m, w, h, t) && s != t
    ensures Component(m, w, h, s) !! Component(m, w, h, t)
  {
    if q :| q in Component(m, w, h, s) && q in Component(m, w, h, t) {
      ComponentMember(m, w, h, s, q);
      ComponentMember(m, w, h, t, q);
      ReachSymmetric(m, w, h, t, q);
      ReachSymmetric(m, w, h, s, q);
      ComponentClosed(m, w, h, s);
      ComponentClosed(m, w, h, t);
      ClosedHoldsComponent(m, w, h, Component(m, w, h, s), q, t);
      ClosedHoldsComponent(m, w, h, Component(m, w, h, t), q, s);
      assert false;
    }
  }

  // ---------------------------------------------------------------------------
  // Coordinate sums over a set of pixels, taken in row-major order

  /** Sum of the chosen coordinate over the pixels of S among (0, y) .. (x-1, y). */
  function RowSum(S: set<Pixel>, y: int, x: nat, a: Axis): int
    decreases x
  {
    if x == 0 then 0
    else RowSum(S, y, x - 1, a) + (if (x - 1, y) in S then Coord((x - 1, y), a) else 0)
  }

  /** Sum of the chosen coordinate over the pixels of S in the first h rows
      of a grid w pixels wide. */
  function CoordSum(S: set<Pixel>, w: nat, h: nat, a: Axis): int
    decreases h
  {
    if h == 0 then 0 else CoordSum(S, w, h - 1, a) + RowSum(S, h - 1, w, a)
  }

  lemma {:induction false} RowSumEmpty(y: int, x: nat, a: Axis)
    ensures RowSum({}, y, x, a) == 0
  {
    if x > 0 {
      RowSumEmpty(y, x - 1, a);
    }
  }

  lemma {:induction false} CoordSumEmpty(w: nat, h: nat, a: Axis)
    ensures CoordSum({}, w, h, a) == 0
  {
    if h > 0 {
      CoordSumEmpty(w, h - 1, a);
      RowSumEmpty(h - 1, w, a);
    }
  }

  lemma {:induction false} RowSumInsert(S: set<Pixel>, p: Pixel, y: int, x: nat, a: Axis)
    requires p !in S
    ensures RowSum(S + {p}, y, x, a)
         == RowSum(S, y, x, a) + (if p.1 == y && 0 <= p.0 < x then Coord(p, a) else 0)
  {
    if x > 0 {
      RowSumInsert(S, p, y, x - 1, a);
    }
  }

  /** Adding a new in-bounds pixel adds exactly its coordinate. */
  lemma {:induction false} CoordSumInsert(S: set<Pixel>, p: Pixel, w: nat, h: nat, a: Axis)
    requires p !in S
    ensures CoordSum(S + {p}, w, h, a)
         == CoordSum(S, w, h, a) + (if InBounds(w, h, p) then Coord(p, a) else 0)
  {
    if h > 0 {
      CoordSumInsert(S, p, w, h - 1, a);
      RowSumInsert(S, p, h - 1, w, a);
    }
  }
}
