/** Pill detection: the mean-threshold binarisation of an RGBA buffer and the
    connected-component scan that turns the 0/1 mask into blob centres.
    Pixel buffers are given as values; decoding an image is not modelled. */
module ImageProcessingService {
  import opened Grid
  import opened Optional

  /** A point in image pixel coordinates. */
  datatype Point = Point(x: real, y: real)

  /** Decoded image: width, height and interleaved R, G, B, A bytes. */
  datatype ImageData = ImageData(data: seq<byte>, width: nat, height: nat) {
    predicate Valid() {
      |data| == 4 * (width * height)
    }
  }

  /** A component must have more pixels than this to count as a pill. */
  const MinBlobSize: nat := 50

  // ---------------------------------------------------------------------------
  // Thresholding

  /** R + G + B of pixel k; the alpha byte at 4k + 3 is not part of it. */
  function Tri(data: seq<byte>, k: nat): (r: int)
    requires 4 * k + 2 < |data|
    ensures 0 <= r <= 765
  {
    data[4 * k] as int + data[4 * k + 1] as int + data[4 * k + 2] as int
  }

  /** Sum of R + G + B over pixels 0 .. k-1. */
  function TriSum(data: seq<byte>, k: nat): int
    requires 4 * k <= |data|
  {
    if k == 0 then 0 else TriSum(data, k - 1) + Tri(data, k - 1)
  }

  /** The grey value (R + G + B) / 3 of pixel k, computed exactly: a value
      between 0 and 255, a third of R + G + B. */
  function Avg(data: seq<byte>, k: nat): (r: real)
    requires 4 * k + 2 < |data|
    ensures 0.0 <= r <= 255.0
    ensures 3.0 * r == Tri(data, k) as real
  {
    (data[4 * k] as real + data[4 * k + 1] as real + data[4 * k + 2] as real) / 3.0
  }

  /** Sum of the grey values of pixels 0 .. k-1. */
  function AvgSum(data: seq<byte>, k: nat): (r: real)
    requires 4 * k <= |data|
    ensures 0.0 <= r <= 255.0 * k as real
  {
    if k == 0 then 0.0 else AvgSum(data, k - 1) + Avg(data, k - 1)
  }

  /** Mean grey value over n > 0 pixels: a grey value itself, and the sum
      of R + G + B over the image divided by 3n. */
  function Mean(data: seq<byte>, n: nat): (r: real)
    requires n > 0 && |data| == 4 * n
    ensures 0.0 <= r <= 255.0
    ensures r == TriSum(data, n) as real / (3 * n) as real
  {
    AvgSumIsTriSum(data, n);
    TriSumBound(data, n);
    QuotientBound(TriSum(data, n), 3 * n, 255);
    ThirdOfQuotient(TriSum(data, n) as real, n);
    AvgSum(data, n) / n as real
  }

  lemma ThirdOfQuotient(a: real, n: nat)
    requires n > 0
    ensures (a / 3.0) / n as real == a / (3 * n) as real
  {
    assert (3 * n) as real == 3.0 * n as real;
  }

  /** The thresholded mask in integer form: pixel k is foreground exactly
      when n * (R + G + B) exceeds the image-wide sum of R + G + B. */
  function Mask(data: seq<byte>, n: nat): (r: seq<byte>)
    requires |data| == 4 * n
    ensures |r| == n && IsBinary(r)
  {
    seq(n, k requires 0 <= k < n => if n * Tri(data, k) > TriSum(data, n) then 1 else 0)
  }

  /** Each pixel adds between 0 and 765 to the sum. */
  lemma {:induction false} TriSumBound(data: seq<byte>, k: nat)
    requires 4 * k <= |data|
    ensures 0 <= TriSum(data, k) <= 765 * k
  {
    if k > 0 {
      TriSumBound(data, k - 1);
    }
  }

  lemma {:induction false} AvgSumIsTriSum(data: seq<byte>, k: nat)
    requires 4 * k <= |data|
    ensures AvgSum(data, k) == TriSum(data, k) as real / 3.0
  {
    if k > 0 {
      AvgSumIsTriSum(data, k - 1);
    }
  }

  lemma AboveMeanIff(t: int, s: int, n: nat)
    requires n > 0
    ensures (t as real / 3.0 > (s as real / 3.0) / n as real) <==> n * t > s
  {
    var nr := n as real;
    var lhs := t as real / 3.0;
    var rhs := (s as real / 3.0) / nr;
    assert rhs * nr == s as real / 3.0;
    assert lhs * nr == (n * t) as real / 3.0;
    if lhs > rhs {
      assert lhs * nr > rhs * nr;
    } else {
      assert lhs * nr <= rhs * nr;
    }
  }

  /** The integer form agrees with the source's comparison of each pixel's
      grey value against the mean grey value. */
  lemma MaskAgainstMean(data: seq<byte>, n: nat, k: nat)
    requires |data| == 4 * n && k < n
    ensures Mask(data, n)[k] == 1 <==> Avg(data, k) > Mean(data, n)
  {
    AvgSumIsTriSum(data, n);
    AboveMeanIff(Tri(data, k), TriSum(data, n), n);
  }

  /** Binarise an image: entry k is 1 when the grey value of pixel k is
      strictly above the mean grey value, else 0. */
  method ThresholdImage(imageData: ImageData) returns (binary: array<byte>)
    requires imageData.Valid()
    ensures fresh(binary)
    ensures binary.Length == imageData.width * imageData.height
    ensures binary[..] == Mask(imageData.data, imageData.width * imageData.height)
  {
    var data := imageData.data;
    var n := imageData.width * imageData.height;
    binary := new byte[n];

    var sum := 0.0;
    var i := 0;
    ghost var k: nat := 0;
    while i < |data|
      invariant k <= n && i == 4 * k
      invariant sum == AvgSum(data, k)
    {
      var avg := (data[i] as real + data[i + 1] as real + data[i + 2] as real) / 3.0;
      sum := sum + avg;
      i, k := i + 4, k + 1;
    }
    // In the source the mean of an empty image is NaN; no pixel reads it then.
    var mean := if n == 0 then 0.0 else sum / n as real;
    var threshold := mean;

    i, k := 0, 0;
    while i < |data|
      invariant k <= n && i == 4 * k
      invariant forall j :: 0 <= j < k ==> binary[j] == Mask(data, n)[j]
    {
      var avg := (data[i] as real + data[i + 1] as real + data[i + 2] as real) / 3.0;
      var index := i / 4;
      assert index == k;
      MaskAgainstMean(data, n, index);
      binary[index] := if avg > threshold then 1 else 0;
      i, k := i + 4, k + 1;
    }
  }

  lemma {:induction false} UniformSum(data: seq<byte>, k: nat, t: int)
    requires 4 * k <= |data|
    requires forall j :: 0 <= j < k ==> Tri(data, j) == t
    ensures TriSum(data, k) == k * t
  {
    if k > 0 {
      UniformSum(data, k - 1, t);
    }
  }

  /** A uniform image has no pixel above its mean. */
  lemma UniformImageIsBackground(data: seq<byte>, n: nat, k: nat)
    requires |data| == 4 * n && k < n
    requires forall j :: 0 <= j < n ==> Tri(data, j) == Tri(data, 0)
    ensures Mask(data, n)[k] == 0
  {
    UniformSum(data, n, Tri(data, 0));
  }

  lemma {:induction false} AllAboveSum(data: seq<byte>, k: nat, s: int, n: nat)
    requires 4 * k <= |data|
    requires forall j :: 0 <= j < k ==> n * Tri(data, j) >= s + 1
    ensures n * TriSum(data, k) >= k * (s + 1)
  {
    if k > 0 {
      AllAboveSum(data, k - 1, s, n);
      assert n * TriSum(data, k) == n * TriSum(data, k - 1) + n * Tri(data, k - 1);
      assert k * (s + 1) == (k - 1) * (s + 1) + (s + 1);
    }
  }

  /** The comparison against the mean is strict, so a non-empty image always
      has at least one background pixel. */
  lemma SomePixelIsBackground(data: seq<byte>, n: nat) returns (k: nat)
    requires |data| == 4 * n && n > 0
    ensures k < n && Mask(data, n)[k] == 0
  {
    var s := TriSum(data, n);
    if forall j :: 0 <= j < n ==> n * Tri(data, j) >= s + 1 {
      AllAboveSum(data, n, s, n);
      assert false;
    }
    k :| 0 <= k < n && !(n * Tri(data, k) >= s + 1);
  }

  lemma {:induction false} AlphaIgnoredSum(d1: seq<byte>, d2: seq<byte>, k: nat)
    requires 4 * k <= |d1| && |d1| == |d2|
    requires forall j :: 0 <= j < k ==> Tri(d1, j) == Tri(d2, j)
    ensures TriSum(d1, k) == TriSum(d2, k)
  {
    if k > 0 {
      AlphaIgnoredSum(d1, d2, k - 1);
    }
  }

  /** Two images that differ only in their alpha bytes give the same mask. */
  lemma AlphaIgnored(d1: seq<byte>, d2: seq<byte>, n: nat)
    requires |d1| == 4 * n && |d2| == 4 * n
    requires forall j :: 0 <= j < n ==>
      d1[4 * j] == d2[4 * j] && d1[4 * j + 1] == d2[4 * j + 1] && d1[4 * j + 2] == d2[4 * j + 2]
    ensures Mask(d1, n) == Mask(d2, n)
  {
    AlphaIgnoredSum(d1, d2, n);
  }

  // ---------------------------------------------------------------------------
  // Flood fill

  /** The visited flag of pixel q, false outside the buffer. */
  ghost function Vis(v: seq<bool>, w: int, q: Pixel): bool {
    0 <= Index(w, q) < |v| && v[Index(w, q)]
  }

  /** q is background, outside the image, or visited. */
  ghost predicate Done(m: seq<byte>, v: seq<bool>, w: int, h: int, q: Pixel) {
    !Fg(m, w, h, q) || Vis(v, w, q)
  }

  /** All four neighbours of p are done. */
  ghost predicate NeighboursDone(m: seq<byte>, v: seq<bool>, w: int, h: int, p: Pixel) {
    && Done(m, v, w, h, Right(p)) && Done(m, v, w, h, Left(p))
    && Done(m, v, w, h, Down(p)) && Done(m, v, w, h, Up(p))
  }

  /** Centre of mass of a non-empty set of pixels. */
  ghost function Centroid(S: set<Pixel>, w: nat, h: nat): Point
    requires |S| > 0
  {
    Point(CoordSum(S, w, h, X) as real / |S| as real, CoordSum(S, w, h, Y) as real / |S| as real)
  }

  /** q no longer needs a visit: it is background, outside the image,
      still on the stack, already marked, or was visited before the fill. */
  ghost predicate Settled(m: seq<byte>, v0: seq<bool>, w: int, h: int,
                          marked: set<Pixel>, stack: seq<Pixel>, q: Pixel)
  {
    !Fg(m, w, h, q) || q in stack || q in marked || Vis(v0, w, q)
  }

  /** All four neighbours of p are settled. */
  ghost predicate NeighboursSettled(m: seq<byte>, v0: seq<bool>, w: int, h: int,
                                    marked: set<Pixel>, stack: seq<Pixel>, p: Pixel)
  {
    && Settled(m, v0, w, h, marked, stack, Right(p)) && Settled(m, v0, w, h, marked, stack, Left(p))
    && Settled(m, v0, w, h, marked, stack, Down(p)) && Settled(m, v0, w, h, marked, stack, Up(p))
  }

  /** The visited flags are the old ones plus the marked pixels, and the
      marked pixels are new foreground pixels. */
  ghost predicate MarksInv(m: seq<byte>, v0: seq<bool>, v: seq<bool>, w: int, h: int, marked: set<Pixel>) {
    && (forall q :: InBounds(w, h, q) ==> Vis(v, w, q) == (Vis(v0, w, q) || q in marked))
    && (forall q {:trigger q in marked} :: q in marked ==> Fg(m, w, h, q) && !Vis(v0, w, q))
  }

  /** The running count and coordinate sums describe the marked pixels. */
  ghost predicate SumsInv(w: nat, h: nat, marked: set<Pixel>, size: nat, sumX: int, sumY: int) {
    && size == |marked|
    && sumX == CoordSum(marked, w, h, X) && sumY == CoordSum(marked, w, h, Y)
    && 0 <= sumX <= (w - 1) * size && 0 <= sumY <= (h - 1) * size
  }

  /** Every pixel that may still need a visit is on the stack. */
  ghost predicate FrontierInv(m: seq<byte>, v0: seq<bool>, w: int, h: int, start: Pixel,
                              marked: set<Pixel>, stack: seq<Pixel>)
  {
    && (forall q {:trigger NeighboursSettled(m, v0, w, h, marked, stack, q)} ::
          q in marked ==> NeighboursSettled(m, v0, w, h, marked, stack, q))
    && Settled(m, v0, w, h, marked, stack, start)
  }

  /** Each stack entry is the start or a neighbour of a marked pixel
      (recorded in `from`), and every marked pixel is connected to the start. */
  ghost predicate OriginInv(m: seq<byte>, w: int, h: int, start: Pixel,
                            marked: set<Pixel>, stack: seq<Pixel>, from: seq<Pixel>)
  {
    && |from| == |stack|
    && (forall k :: 0 <= k < |stack| ==>
          stack[k] == start || (from[k] in marked && Adjacent(from[k], stack[k])))
    && (forall q {:trigger Reachable(m, w, h, start, q)} :: q in marked ==> Reachable(m, w, h, start, q))
  }

  lemma PopSplit(s: seq<Pixel>, z: Pixel)
    requires z in s
    ensures z == s[|s| - 1] || z in s[..|s| - 1]
  {
    var k :| 0 <= k < |s| && s[k] == z;
    if k < |s| - 1 {
      assert s[..|s| - 1][k] == z;
    }
  }

  /** Whatever was settled stays settled once every entry of the old stack is. */
  lemma FrontierKept(m: seq<byte>, v0: seq<bool>, w: int, h: int, start: Pixel,
                     marked: set<Pixel>, stack: seq<Pixel>, marked': set<Pixel>, stack': seq<Pixel>)
    requires FrontierInv(m, v0, w, h, start, marked, stack)
    requires marked <= marked'
    requires forall z :: z in stack ==> Settled(m, v0, w, h, marked', stack', z)
    ensures forall q :: q in marked ==> NeighboursSettled(m, v0, w, h, marked', stack', q)
    ensures Settled(m, v0, w, h, marked', stack', start)
  {
    forall q | q in marked
      ensures NeighboursSettled(m, v0, w, h, marked', stack', q)
    {
      assert NeighboursSettled(m, v0, w, h, marked, stack, q);
    }
  }

  /** Popping a pixel that needs no visit keeps the invariants. */
  lemma SkipStep(m: seq<byte>, v0: seq<bool>, w: int, h: int, start: Pixel,
                 marked: set<Pixel>, stack: seq<Pixel>, from: seq<Pixel>,
                 stack': seq<Pixel>, from': seq<Pixel>)
    requires |stack| > 0 && |from| > 0
    requires stack' == stack[..|stack| - 1] && from' == from[..|from| - 1]
    requires FrontierInv(m, v0, w, h, start, marked, stack)
    requires OriginInv(m, w, h, start, marked, stack, from)
    requires Settled(m, v0, w, h, marked, stack', stack[|stack| - 1])
    ensures FrontierInv(m, v0, w, h, start, marked, stack')
    ensures OriginInv(m, w, h, start, marked, stack', from')
  {
    forall z | z in stack
      ensures Settled(m, v0, w, h, marked, stack', z)
    {
      PopSplit(stack, z);
    }
    FrontierKept(m, v0, w, h, start, marked, stack, marked, stack');
  }

  /** Marking the popped pixel p and pushing its neighbours keeps the
      frontier invariant. */
  lemma MarkFrontier(m: seq<byte>, v0: seq<bool>, w: int, h: int, start: Pixel,
                     marked: set<Pixel>, stack: seq<Pixel>,
                     p: Pixel, marked': set<Pixel>, stack': seq<Pixel>)
    requires |stack| > 0 && p == stack[|stack| - 1]
    requires marked' == marked + {p}
    requires stack' == stack[..|stack| - 1] + [Right(p), Left(p), Down(p), Up(p)]
    requires FrontierInv(m, v0, w, h, start, marked, stack)
    ensures FrontierInv(m, v0, w, h, start, marked', stack')
  {
    forall z | z in stack
      ensures Settled(m, v0, w, h, marked', stack', z)
    {
      PopSplit(stack, z);
    }
    FrontierKept(m, v0, w, h, start, marked, stack, marked', stack');
    assert NeighboursSettled(m, v0, w, h, marked', stack', p);
  }

  /** Marking the popped foreground pixel p and pushing its neighbours keeps
      the origin invariant. */
  lemma MarkOrigin(m: seq<byte>, w: int, h: int, start: Pixel,
                   marked: set<Pixel>, stack: seq<Pixel>, from: seq<Pixel>,
                   p: Pixel, marked': set<Pixel>, stack': seq<Pixel>, from': seq<Pixel>)
    requires |stack| > 0 && p == stack[|stack| - 1] && Fg(m, w, h, p)
    requires marked' == marked + {p}
    requires stack' == stack[..|stack| - 1] + [Right(p), Left(p), Down(p), Up(p)]
    requires |from| == |stack| && from' == from[..|from| - 1] + [p, p, p, p]
    requires OriginInv(m, w, h, start, marked, stack, from)
    ensures OriginInv(m, w, h, start, marked', stack', from')
  {
    var n := |stack|;
    assert p == start || (from[n - 1] in marked && Adjacent(from[n - 1], p));
    if p == start {
      ReachSelf(m, w, h, start);
    } else {
      ReachStep(m, w, h, start, from[n - 1], p);
    }
    forall k | 0 <= k < |stack'|
      ensures stack'[k] == start || (from'[k] in marked' && Adjacent(from'[k], stack'[k]))
    {
      if k < n - 1 {
        assert stack'[k] == stack[k] && from'[k] == from[k];
      }
    }
  }

  /** Once the stack is empty, every foreground neighbour of a marked pixel
      is visited. */
  lemma EmptyFrontier(m: seq<byte>, v0: seq<bool>, v: seq<bool>, w: int, h: int, start: Pixel,
                      marked: set<Pixel>)
    requires MarksInv(m, v0, v, w, h, marked)
    requires FrontierInv(m, v0, w, h, start, marked, [])
    ensures forall q {:trigger NeighboursDone(m, v, w, h, q)} :: q in marked ==> NeighboursDone(m, v, w, h, q)
    ensures Done(m, v, w, h, start)
  {
    forall q | q in marked
      ensures NeighboursDone(m, v, w, h, q)
    {
      assert NeighboursSettled(m, v0, w, h, marked, [], q);
    }
  }

  /** Setting the flag of a new in-bounds pixel p records it as marked. */
  lemma MarkVisited(m: seq<byte>, v0: seq<bool>, v: seq<bool>, w: int, h: int,
                    marked: set<Pixel>, p: Pixel, v': seq<bool>, marked': set<Pixel>)
    requires MarksInv(m, v0, v, w, h, marked)
    requires Fg(m, w, h, p) && !Vis(v, w, p) && |v| == w * h
    requires 0 <= Index(w, p) < |v| && v' == v[Index(w, p) := true] && marked' == marked + {p}
    ensures MarksInv(m, v0, v', w, h, marked')
  {
    forall q | InBounds(w, h, q)
      ensures Vis(v', w, q) == (Vis(v0, w, q) || q in marked')
    {
      if q != p {
        if Index(w, q) == Index(w, p) {
          IndexInjective(w, h, q, p);
        }
      }
    }
  }

  lemma MarkSums(w: nat, h: nat, marked: set<Pixel>, size: nat, sumX: int, sumY: int, p: Pixel)
    requires SumsInv(w, h, marked, size, sumX, sumY)
    requires InBounds(w, h, p) && p !in marked
    ensures SumsInv(w, h, marked + {p}, size + 1, sumX + p.0, sumY + p.1)
  {
    CoordSumInsert(marked, p, w, h, X);
    CoordSumInsert(marked, p, w, h, Y);
    BoundStep(sumX, w - 1, size, p.0);
    BoundStep(sumY, h - 1, size, p.1);
  }

  lemma BoundStep(s: int, c: int, n: nat, a: int)
    requires 0 <= s <= c * n && 0 <= a <= c
    ensures 0 <= s + a <= c * (n + 1)
  {
  }

  lemma QuotientBound(a: int, b: int, c: int)
    requires b > 0 && 0 <= a <= c * b
    ensures 0.0 <= a as real / b as real <= c as real
  {
    var q := a as real / b as real;
    assert q * b as real == a as real;
    assert (c as real - q) * b as real == (c * b - a) as real;
  }

  /** Iterative 4-connected flood fill from (startX, startY) driven by an
      explicit stack. Marks in `visited` exactly the pixels in `marked`: new
      in-bounds foreground pixels, each connected to the start, whose
      foreground neighbours all end up visited. Returns how many it marked
      and their centre (None for an empty fill, where the source divides
      zero by zero). */
  method FloodFill(binary: array<byte>, visited: array<bool>, width: nat, height: nat,
                   startX: int, startY: int)
    returns (size: nat, center: Option<Point>, ghost marked: set<Pixel>)
    requires binary.Length == width * height && visited.Length == width * height
    requires IsBinary(binary[..])
    modifies visited
    ensures MarksInv(binary[..], old(visited[..]), visited[..], width, height, marked)
    ensures forall q {:trigger Reachable(binary[..], width, height, (startX, startY), q)} ::
      q in marked ==> Reachable(binary[..], width, height, (startX, startY), q)
    ensures forall q {:trigger NeighboursDone(binary[..], visited[..], width, height, q)} ::
      q in marked ==> NeighboursDone(binary[..], visited[..], width, height, q)
    ensures Fg(binary[..], width, height, (startX, startY)) && !Vis(old(visited[..]), width, (startX, startY))
      ==> (startX, startY) in marked
    ensures size == |marked|
    ensures size == 0 <==> center == None
    ensures size > 0 ==> center == Some(Centroid(marked, width, height))
    ensures center.Some? ==>
      0.0 <= center.value.x <= (width - 1) as real && 0.0 <= center.value.y <= (height - 1) as real
  {
    ghost var m := binary[..];
    ghost var v0 := visited[..];
    ghost var start: Pixel := (startX, startY);

    var stack: seq<Pixel> := [(startX, startY)];
    ghost var from: seq<Pixel> := [(startX, startY)];
    size := 0;
    var sumX, sumY := 0, 0;
    marked := {};
    CoordSumEmpty(width, height, X);
    CoordSumEmpty(width, height, Y);

    while |stack| > 0
      invariant |visited[..]| == width * height
      invariant MarksInv(m, v0, visited[..], width, height, marked)
      invariant SumsInv(width, height, marked, size, sumX, sumY)
      invariant FrontierInv(m, v0, width, height, start, marked, stack)
      invariant OriginInv(m, width, height, start, marked, stack, from)
      decreases Cells(width, height) - marked, |stack|
    {
      var p := stack[|stack| - 1];
      var rest := stack[..|stack| - 1];
      ghost var restFrom := from[..|from| - 1];
      var x, y := p.0, p.1;
      var idx := Index(width, p);
      if 0 <= x < width && 0 <= y < height {
        IndexInRange(width, height, p);
      }

      if x < 0 || x >= width || y < 0 || y >= height || visited[idx] || binary[idx] == 0 {
        assert Settled(m, v0, width, height, marked, rest, p);
        SkipStep(m, v0, width, height, start, marked, stack, from, rest, restFrom);
        stack, from := rest, restFrom;
        continue;
      }

      assert p in Cells(width, height) && p !in marked;
      ghost var vBefore := visited[..];
      visited[idx] := true;
      assert visited[..] == vBefore[idx := true];
      size := size + 1;
      sumX := sumX + x;
      sumY := sumY + y;
      ghost var markedBefore := marked;
      marked := marked + {p};
      MarkVisited(m, v0, vBefore, width, height, markedBefore, p, visited[..], marked);
      MarkSums(width, height, markedBefore, size - 1, sumX - x, sumY - y, p);

      // pushes (x + 1, y), (x - 1, y), (x, y + 1), (x, y - 1) in this order
      var pushed := rest + [Right(p), Left(p), Down(p), Up(p)];
      ghost var pushedFrom := restFrom + [p, p, p, p];
      MarkFrontier(m, v0, width, height, start, markedBefore, stack, p, marked, pushed);
      MarkOrigin(m, width, height, start, markedBefore, stack, from, p, marked, pushed, pushedFrom);
      stack, from := pushed, pushedFrom;
    }
    EmptyFrontier(m, v0, visited[..], width, height, start, marked);

    if size > 0 {
      QuotientBound(sumX, size, width - 1);
      QuotientBound(sumY, size, height - 1);
      center := Some(Point(sumX as real / size as real, sumY as real / size as real));
    } else {
      center := None;
    }
  }

  // ---------------------------------------------------------------------------
  // Blob scan

  /** s is the first pixel, in row-major order, of a component with more
      than MinBlobSize pixels. */
  ghost predicate BigFirst(m: seq<byte>, w: nat, h: nat, s: Pixel) {
    IsFirst(m, w, h, s) && |Component(m, w, h, s)| > MinBlobSize
  }

  /** b is the centre of the large component whose first pixel is s. */
  ghost predicate BlobOf(m: seq<byte>, w: nat, h: nat, s: Pixel, b: Point) {
    && BigFirst(m, w, h, s)
    && b == Centroid(Component(m, w, h, s), w, h)
    && 0.0 <= b.x <= (w - 1) as real && 0.0 <= b.y <= (h - 1) as real
  }

  /** next is the pixel after cur in row-major order, as far as in-bounds
      pixels can tell. */
  ghost predicate Advances(w: nat, h: nat, cur: Pixel, next: Pixel) {
    forall q {:trigger Before(q, next)} :: InBounds(w, h, q) ==>
      (Before(q, next) <==> Before(q, cur) || q == cur)
  }

  lemma AdvanceRight(w: nat, h: nat, x: int, y: int)
    ensures Advances(w, h, (x, y), (x + 1, y))
  {
  }

  lemma AdvanceRow(w: nat, h: nat, y: int)
    ensures Advances(w, h, (w, y), (0, y + 1))
  {
  }

  /** The visited flags are the set `seen`: a closed set of foreground
      pixels that holds every foreground pixel before cur. */
  ghost predicate SeenInv(m: seq<byte>, w: nat, h: nat, cur: Pixel, v: seq<bool>, seen: set<Pixel>) {
    && |v| == w * h
    && (forall q :: InBounds(w, h, q) ==> Vis(v, w, q) == (q in seen))
    && (forall q :: q in seen ==> Fg(m, w, h, q))
    && Closed(m, w, h, seen)
    && (forall q :: Fg(m, w, h, q) && Before(q, cur) ==> q in seen)
  }

  /** No first pixel of a component has been visited at or after cur. */
  ghost predicate FirstsInv(m: seq<byte>, w: nat, h: nat, cur: Pixel, seen: set<Pixel>) {
    forall q {:trigger Handled(m, w, h, cur, q)} :: q in seen ==> Handled(m, w, h, cur, q)
  }

  /** q is before cur or is not the first pixel of its component. */
  ghost predicate Handled(m: seq<byte>, w: nat, h: nat, cur: Pixel, q: Pixel) {
    Before(q, cur) || !IsFirst(m, w, h, q)
  }

  /** starts lists first pixels of large components, all before cur and in
      scan order, and blobs their centres. */
  ghost predicate StartsInv(m: seq<byte>, w: nat, h: nat, cur: Pixel, starts: seq<Pixel>, blobs: seq<Point>) {
    && |starts| == |blobs|
    && (forall k :: 0 <= k < |starts| ==> BlobOf(m, w, h, starts[k], blobs[k]) && Before(starts[k], cur))
    && (forall i, j :: 0 <= i < j < |starts| ==> Before(starts[i], starts[j]))
  }

  /** Every large component whose first pixel is before cur is listed. */
  ghost predicate CompleteInv(m: seq<byte>, w: nat, h: nat, cur: Pixel, starts: seq<Pixel>) {
    forall s :: BigFirst(m, w, h, s) && Before(s, cur) ==> s in starts
  }

  /** The state of the row-major scan when it reaches pixel cur. */
  ghost predicate Scan(m: seq<byte>, w: nat, h: nat, cur: Pixel, v: seq<bool>, seen: set<Pixel>,
                       starts: seq<Pixel>, blobs: seq<Point>)
  {
    && SeenInv(m, w, h, cur, v, seen)
    && FirstsInv(m, w, h, cur, seen)
    && StartsInv(m, w, h, cur, starts, blobs)
    && CompleteInv(m, w, h, cur, starts)
    && (MinBlobSize + 1) * |blobs| <= |seen|
  }

  lemma ScanInit(m: seq<byte>, w: nat, h: nat, v: seq<bool>)
    requires |v| == w * h && forall i :: 0 <= i < |v| ==> !v[i]
    ensures Scan(m, w, h, (0, 0), v, {}, [], [])
  {
    forall q | InBounds(w, h, q)
      ensures !Vis(v, w, q)
    {
      IndexInRange(w, h, q);
    }
  }

  lemma SeenSkip(m: seq<byte>, w: nat, h: nat, cur: Pixel, next: Pixel, v: seq<bool>, seen: set<Pixel>)
    requires SeenInv(m, w, h, cur, v, seen) && Advances(w, h, cur, next)
    requires !Fg(m, w, h, cur) || cur in seen
    ensures SeenInv(m, w, h, next, v, seen)
  {
    forall q | Fg(m, w, h, q) && Before(q, next)
      ensures q in seen
    {
    }
  }

  lemma FirstsStep(m: seq<byte>, w: nat, h: nat, cur: Pixel, next: Pixel,
                   seen: set<Pixel>, seen': set<Pixel>)
    requires FirstsInv(m, w, h, cur, seen) && Advances(w, h, cur, next)
    requires forall q :: q in seen ==> InBounds(w, h, q)
    requires forall q :: q in seen' ==> q in seen || q == cur || !IsFirst(m, w, h, q)
    ensures FirstsInv(m, w, h, next, seen')
  {
    forall q | q in seen'
      ensures Handled(m, w, h, next, q)
    {
      if q in seen && IsFirst(m, w, h, q) {
        assert Handled(m, w, h, cur, q);
      }
    }
  }

  lemma StartsKeep(m: seq<byte>, w: nat, h: nat, cur: Pixel, next: Pixel,
                   starts: seq<Pixel>, blobs: seq<Point>)
    requires StartsInv(m, w, h, cur, starts, blobs) && Advances(w, h, cur, next)
    ensures StartsInv(m, w, h, next, starts, blobs)
  {
    forall k | 0 <= k < |starts|
      ensures Before(starts[k], next)
    {
      assert BlobOf(m, w, h, starts[k], blobs[k]);
    }
  }

  lemma StartsPush(m: seq<byte>, w: nat, h: nat, cur: Pixel, next: Pixel,
                   starts: seq<Pixel>, blobs: seq<Point>, b: Point)
    requires StartsInv(m, w, h, cur, starts, blobs) && Advances(w, h, cur, next)
    requires BlobOf(m, w, h, cur, b)
    ensures StartsInv(m, w, h, next, starts + [cur], blobs + [b])
  {
    StartsKeep(m, w, h, cur, next, starts, blobs);
  }

  lemma CompleteStep(m: seq<byte>, w: nat, h: nat, cur: Pixel, next: Pixel,
                     starts: seq<Pixel>, starts': seq<Pixel>)
    requires CompleteInv(m, w, h, cur, starts) && Advances(w, h, cur, next)
    requires forall s :: s in starts ==> s in starts'
    requires BigFirst(m, w, h, cur) ==> cur in starts'
    ensures CompleteInv(m, w, h, next, starts')
  {
    forall s | BigFirst(m, w, h, s) && Before(s, next)
      ensures s in starts'
    {
    }
  }

  /** Passing over a pixel that starts no fill. */
  lemma ScanSkip(m: seq<byte>, w: nat, h: nat, cur: Pixel, next: Pixel, v: seq<bool>, seen: set<Pixel>,
                 starts: seq<Pixel>, blobs: seq<Point>)
    requires Scan(m, w, h, cur, v, seen, starts, blobs) && Advances(w, h, cur, next)
    requires !Fg(m, w, h, cur) || cur in seen
    ensures Scan(m, w, h, next, v, seen, starts, blobs)
  {
    SeenSkip(m, w, h, cur, next, v, seen);
    FirstsStep(m, w, h, cur, next, seen, seen);
    StartsKeep(m, w, h, cur, next, starts, blobs);
    if cur in seen {
      assert Handled(m, w, h, cur, cur);
    }
    CompleteStep(m, w, h, cur, next, starts, starts);
  }

  /** A fill started at an unvisited foreground pixel cur marks exactly the
      component of cur, which is new, and cur is its first pixel. */
  lemma FillIsComponent(m: seq<byte>, w: nat, h: nat, cur: Pixel, v: seq<bool>, seen: set<Pixel>,
                        v': seq<bool>, marked: set<Pixel>)
    requires SeenInv(m, w, h, cur, v, seen)
    requires Fg(m, w, h, cur) && cur !in seen
    requires MarksInv(m, v, v', w, h, marked)
    requires forall q {:trigger Reachable(m, w, h, cur, q)} :: q in marked ==> Reachable(m, w, h, cur, q)
    requires forall q {:trigger NeighboursDone(m, v', w, h, q)} :: q in marked ==> NeighboursDone(m, v', w, h, q)
    requires cur in marked
    ensures marked == Component(m, w, h, cur)
    ensures seen !! marked
    ensures Closed(m, w, h, seen + marked)
    ensures IsFirst(m, w, h, cur)
    ensures forall q :: q in marked && q != cur ==> !IsFirst(m, w, h, q)
  {
    var seen' := seen + marked;
    forall q | q in marked
      ensures q !in seen
    {
    }
    forall p | p in seen'
      ensures NeighboursCovered(m, w, h, seen', p)
    {
      if p in seen {
        assert NeighboursCovered(m, w, h, seen, p);
      } else {
        assert NeighboursDone(m, v', w, h, p);
      }
    }
    assert Closed(m, w, h, seen');
    forall t | t in Component(m, w, h, cur)
      ensures t in marked
    {
      ComponentMember(m, w, h, cur, t);
      ClosedHoldsComponent(m, w, h, seen', cur, t);
      ClosedExcludesComponent(m, w, h, seen, cur, t);
    }
    forall q | q in marked
      ensures q in Component(m, w, h, cur)
    {
      ComponentMember(m, w, h, cur, q);
    }
    forall q | q in Component(m, w, h, cur)
      ensures !Before(q, cur)
    {
      ComponentMember(m, w, h, cur, q);
      ReachEnds(m, w, h, cur, q);
    }
    forall q | q in marked && q != cur
      ensures !IsFirst(m, w, h, q)
    {
      ReachSymmetric(m, w, h, cur, q);
      ComponentMember(m, w, h, q, cur);
      ComponentMember(m, w, h, cur, q);
      assert Before(cur, q);
    }
  }

  lemma SeenFill(m: seq<byte>, w: nat, h: nat, cur: Pixel, next: Pixel, v: seq<bool>, seen: set<Pixel>,
                 v': seq<bool>, marked: set<Pixel>)
    requires SeenInv(m, w, h, cur, v, seen) && Advances(w, h, cur, next)
    requires MarksInv(m, v, v', w, h, marked) && |v'| == w * h
    requires cur in marked && Closed(m, w, h, seen + marked)
    ensures SeenInv(m, w, h, next, v', seen + marked)
  {
    forall q | Fg(m, w, h, q) && Before(q, next)
      ensures q in seen + marked
    {
    }
  }

  /** Passing over a pixel that starts a fill, and recording its centre if
      the component is large enough. */
  lemma ScanFill(m: seq<byte>, w: nat, h: nat, cur: Pixel, next: Pixel, v: seq<bool>, seen: set<Pixel>,
                 starts: seq<Pixel>, blobs: seq<Point>, v': seq<bool>, marked: set<Pixel>,
                 center: Point, starts': seq<Pixel>, blobs': seq<Point>)
    requires Scan(m, w, h, cur, v, seen, starts, blobs) && Advances(w, h, cur, next)
    requires Fg(m, w, h, cur) && cur !in seen
    requires MarksInv(m, v, v', w, h, marked) && |v'| == w * h
    requires forall q {:trigger Reachable(m, w, h, cur, q)} :: q in marked ==> Reachable(m, w, h, cur, q)
    requires forall q {:trigger NeighboursDone(m, v', w, h, q)} :: q in marked ==> NeighboursDone(m, v', w, h, q)
    requires cur in marked
    requires center == Centroid(marked, w, h)
    requires 0.0 <= center.x <= (w - 1) as real && 0.0 <= center.y <= (h - 1) as real
    requires if |marked| > MinBlobSize then starts' == starts + [cur] && blobs' == blobs + [center]
             else starts' == starts && blobs' == blobs
    ensures Scan(m, w, h, next, v', seen + marked, starts', blobs')
  {
    FillIsComponent(m, w, h, cur, v, seen, v', marked);
    SeenFill(m, w, h, cur, next, v, seen, v', marked);
    FirstsStep(m, w, h, cur, next, seen, seen + marked);
    if |marked| > MinBlobSize {
      StartsPush(m, w, h, cur, next, starts, blobs, center);
    } else {
      StartsKeep(m, w, h, cur, next, starts, blobs);
    }
    CompleteStep(m, w, h, cur, next, starts, starts');
    assert |seen + marked| == |seen| + |marked|;
  }

  /** A set of foreground pixels has at most w * h elements. */
  lemma FgCount(m: seq<byte>, w: nat, h: nat, S: set<Pixel>)
    requires forall q :: q in S ==> Fg(m, w, h, q)
    ensures |S| <= w * h
  {
    var C := Cells(w, h);
    forall q | q in S
      ensures q in C
    {
    }
    CellsSize(w, h);
    assert C == S + (C - S);
    assert |C| == |S| + |C - S|;
  }

  /** What the finished scan has found. */
  lemma ScanDone(m: seq<byte>, w: nat, h: nat, v: seq<bool>, seen: set<Pixel>,
                 starts: seq<Pixel>, blobs: seq<Point>)
    requires Scan(m, w, h, (0, h), v, seen, starts, blobs)
    ensures |starts| == |blobs|
    ensures forall k :: 0 <= k < |starts| ==> BlobOf(m, w, h, starts[k], blobs[k])
    ensures forall s :: BigFirst(m, w, h, s) ==> s in starts
    ensures forall i, j :: 0 <= i < j < |starts| ==> Before(starts[i], starts[j])
    ensures forall i, j :: 0 <= i < j < |starts| ==>
      Component(m, w, h, starts[i]) !! Component(m, w, h, starts[j])
    ensures (MinBlobSize + 1) * |blobs| <= w * h
  {
    FgCount(m, w, h, seen);
    forall s | BigFirst(m, w, h, s)
      ensures s in starts
    {
      assert Before(s, (0, h));
    }
    forall i, j | 0 <= i < j < |starts|
      ensures Component(m, w, h, starts[i]) !! Component(m, w, h, starts[j])
    {
      assert BlobOf(m, w, h, starts[i], blobs[i]) && BlobOf(m, w, h, starts[j], blobs[j]);
      FirstsDisjoint(m, w, h, starts[i], starts[j]);
    }
  }

  /** One step of the scan at pixel (x, y): fill from it when it is an
      unvisited foreground pixel, and record the centre of a fill larger than
      MinBlobSize. */
  method ScanPixel(binary: array<byte>, visited: array<bool>, width: nat, height: nat, x: nat, y: nat,
                   blobs: seq<Point>, ghost seen: set<Pixel>, ghost starts: seq<Pixel>)
    returns (blobs': seq<Point>, ghost seen': set<Pixel>, ghost starts': seq<Pixel>)
    requires binary.Length == width * height && IsBinary(binary[..])
    requires x < width && y < height
    requires Scan(binary[..], width, height, (x, y), visited[..], seen, starts, blobs)
    modifies visited
    ensures Scan(binary[..], width, height, (x + 1, y), visited[..], seen', starts', blobs')
  {
    ghost var m := binary[..];
    var idx := y * width + x;
    IndexInRange(width, height, (x, y));
    AdvanceRight(width, height, x, y);
    if binary[idx] == 1 && !visited[idx] {
      ghost var v := visited[..];
      var size, center, marked := FloodFill(binary, visited, width, height, x, y);
      if size > MinBlobSize {
        blobs' := blobs + [center.value];
        starts' := starts + [(x, y)];
      } else {
        blobs', starts' := blobs, starts;
      }
      ScanFill(m, width, height, (x, y), (x + 1, y), v, seen, starts, blobs,
               visited[..], marked, center.value, starts', blobs');
      seen' := seen + marked;
    } else {
      ScanSkip(m, width, height, (x, y), (x + 1, y), visited[..], seen, starts, blobs);
      blobs', seen', starts' := blobs, seen, starts;
    }
  }

  /** Scan the mask in row-major order and flood-fill every foreground pixel
      not yet visited; the centre of each fill larger than MinBlobSize is a
      blob. The ghost `starts` lists the pixel each reported fill began at. */
  method FindBlobs(binary: array<byte>, width: nat, height: nat)
    returns (blobs: seq<Point>, ghost starts: seq<Pixel>)
    requires binary.Length == width * height
    requires IsBinary(binary[..])
    ensures |starts| == |blobs|
    ensures forall k :: 0 <= k < |starts| ==> BlobOf(binary[..], width, height, starts[k], blobs[k])
    ensures forall s :: BigFirst(binary[..], width, height, s) ==> s in starts
    ensures forall i, j :: 0 <= i < j < |starts| ==> Before(starts[i], starts[j])
    ensures forall i, j :: 0 <= i < j < |starts| ==>
      Component(binary[..], width, height, starts[i]) !! Component(binary[..], width, height, starts[j])
    ensures (MinBlobSize + 1) * |blobs| <= width * height
  {
    ghost var m := binary[..];
    var visited := new bool[width * height](_ => false);
    blobs := [];
    starts := [];
    ghost var seen: set<Pixel> := {};
    ScanInit(m, width, height, visited[..]);

    var y := 0;
    while y < height
      invariant 0 <= y <= height
      invariant Scan(m, width, height, (0, y), visited[..], seen, starts, blobs)
    {
      var x := 0;
      while x < width
        invariant 0 <= x <= width
        invariant Scan(m, width, height, (x, y), visited[..], seen, starts, blobs)
      {
        blobs, seen, starts := ScanPixel(binary, visited, width, height, x, y, blobs, seen, starts);
        x := x + 1;
      }
      AdvanceRow(width, height, y);
      ScanSkip(m, width, height, (width, y), (0, y + 1), visited[..], seen, starts, blobs);
      y := y + 1;
    }
    ScanDone(m, width, height, visited[..], seen, starts, blobs);
  }
}
