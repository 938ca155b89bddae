/** Model of livestats.py: LiveHistogram, the histogram variant of the P²
    algorithm of Jain and Chlamtac. Heights are data values at the markers,
    positions their ranks; both are kept over exact arithmetic (real, int). */
module LiveStats {

  /** Heights never decrease from one marker to the next. */
  predicate Ordered(s: seq<real>)
  {
    forall j :: 0 < j < |s| ==> s[j - 1] <= s[j]
  }

  /** Positions strictly increase from one marker to the next. */
  predicate Increasing(s: seq<int>)
  {
    forall j :: 0 < j < |s| ==> s[j - 1] < s[j]
  }

  /** Neighbour-wise order is order between any two markers. */
  lemma {:induction false} OrderedMonotone(s: seq<real>, a: int, b: int)
    requires Ordered(s) && 0 <= a <= b < |s|
    ensures s[a] <= s[b]
    decreases b - a
  {
    if a < b {
      OrderedMonotone(s, a + 1, b);
    }
  }

  // ---------------------------------------------------------------------
  // The piecewise-parabolic formula

  /** calcP2: the parabolic prediction of the height of a marker at height q
      and position n when it moves by d, from its neighbours (qm1, nm1) below
      and (qp1, np1) above. The source reads qp1 without declaring it; here it
      is an explicit parameter, which the caller fills with the upper
      neighbour's height. */
  function CalcP2(q: real, qm1: real, d: real, np1: real, n: real, nm1: real, qp1: real): (r: real)
    requires np1 != nm1 && np1 != n && n != nm1
    ensures d == 0.0 ==> r == q
  {
    var outer := d / (np1 - nm1);
    var innerLeft := (n - nm1 + d) * (qp1 - q) / (np1 - n);
    var innerRight := (np1 - n - d) * (q - qm1) / (n - nm1);
    q + outer * (innerLeft + innerRight)
  }

  lemma CancelDivisor(a: real, b: real, s: real)
    requires b != 0.0
    ensures a * (b * s) / b == a * s
  {
    assert a * (b * s) == (a * s) * b;
  }

  /** On three collinear markers (common slope s), the parabolic prediction
      is the point on that line, d ranks further on. */
  lemma CalcP2Collinear(q: real, qm1: real, d: real, np1: real, n: real, nm1: real, qp1: real, s: real)
    requires np1 != nm1 && np1 != n && n != nm1
    requires q - qm1 == (n - nm1) * s && qp1 - q == (np1 - n) * s
    ensures CalcP2(q, qm1, d, np1, n, nm1, qp1) == q + d * s
  {
    var innerLeft := (n - nm1 + d) * (qp1 - q) / (np1 - n);
    var innerRight := (np1 - n - d) * (q - qm1) / (n - nm1);
    CancelDivisor(n - nm1 + d, np1 - n, s);
    CancelDivisor(np1 - n - d, n - nm1, s);
    assert innerLeft == (n - nm1 + d) * s;
    assert innerRight == (np1 - n - d) * s;
    assert innerLeft + innerRight == (np1 - nm1) * s;
    CancelDivisor(d, np1 - nm1, s);
    assert d / (np1 - nm1) * ((np1 - nm1) * s) == d * (np1 - nm1) * s / (np1 - nm1);
  }

  // ---------------------------------------------------------------------
  // One marker of the adjustment pass

  datatype Marker = Marker(height: real, position: int)

  /** The distance from marker i at position n to its desired position. */
  function Dist(i: int, n: int, numCells: int): real
    requires numCells > 1
  {
    var nn := 1.0 + (i as real - 1.0) * (n as real - 1.0) / (numCells as real - 1.0);
    nn - n as real
  }

  /** A marker moves only when it is at least one rank from its desired
      position and there is room to move that way. */
  predicate Triggered(dist: real, backDist: int, forwDist: int)
  {
    (dist >= 1.0 && forwDist > 1) || (dist <= -1.0 && backDist < -1)
  }

  /** The linear prediction of the height one rank (d = +1 or -1) towards the
      neighbour at height hNb and position pNb. */
  function Linear(q: real, d: int, hNb: real, pNb: int, n: int): real
    requires pNb != n
  {
    q + d as real * (hNb - q) / (pNb - n) as real
  }

  lemma LinearUp(q: real, hNext: real, pNext: int, n: int)
    requires pNext - n > 1 && q <= hNext
    ensures q <= Linear(q, 1, hNext, pNext, n) <= hNext
  {
    var w := (pNext - n) as real;
    var t := (hNext - q) / w;
    assert t * w == hNext - q;
    assert 0.0 <= t;
    assert t <= hNext - q by {
      assert t * w >= t;
    }
    assert Linear(q, 1, hNext, pNext, n) == q + t;
  }

  lemma LinearDown(q: real, hPrev: real, pPrev: int, n: int)
    requires pPrev - n < -1 && hPrev <= q
    ensures hPrev <= Linear(q, -1, hPrev, pPrev, n) <= q
  {
    var w := (n - pPrev) as real;
    var t := (q - hPrev) / w;
    assert w >= 2.0;
    assert t * w == q - hPrev;
    assert 0.0 <= t;
    assert t <= q - hPrev by {
      assert t * w >= t * 1.0;
    }
    assert (-1.0 * (hPrev - q)) == q - hPrev;
    assert (pPrev - n) as real == -w;
    assert (q - hPrev) / -w == -t;
    assert Linear(q, -1, hPrev, pPrev, n) == q - t;
  }

  /** One iteration of __adjust for interior marker i at height q and
      position n, between (hPrev, pPrev) and (hNext, pNext). */
  function Relocate(i: int, numCells: int, hPrev: real, q: real, hNext: real,
                    pPrev: int, n: int, pNext: int): (r: Marker)
    requires numCells > 1 && pPrev < n < pNext
    // a marker that is not triggered keeps its height and its position
    ensures !Triggered(Dist(i, n, numCells), pPrev - n, pNext - n) ==> r == Marker(q, n)
    // a triggered marker moves one rank in the direction of its desired
    // position and stays strictly between its neighbours
    ensures Triggered(Dist(i, n, numCells), pPrev - n, pNext - n) ==>
      r.position == (if Dist(i, n, numCells) > 0.0 then n + 1 else n - 1) &&
      pPrev < r.position < pNext
    // its new height is the parabolic one when that keeps the heights
    // strictly ordered, the linear one otherwise
    ensures Triggered(Dist(i, n, numCells), pPrev - n, pNext - n) ==>
      var d := r.position - n;
      var qn := CalcP2(q, hPrev, d as real, pNext as real, n as real, pPrev as real, hNext);
      r.height == if hPrev < qn < hNext then qn
                  else if d == 1 then Linear(q, d, hNext, pNext, n)
                  else Linear(q, d, hPrev, pPrev, n)
    // ordered heights stay ordered
    ensures hPrev <= q <= hNext ==> hPrev <= r.height <= hNext
  {
    var dist := Dist(i, n, numCells);
    if Triggered(dist, pPrev - n, pNext - n) then
      var d := if dist > 0.0 then 1 else -1;
      var qn := CalcP2(q, hPrev, d as real, pNext as real, n as real, pPrev as real, hNext);
      var height :=
        if hPrev < qn < hNext then qn
        else if d == 1 then Linear(q, d, hNext, pNext, n)
        else Linear(q, d, hPrev, pPrev, n);
      assert hPrev <= q <= hNext ==> hPrev <= height <= hNext by {
        if hPrev <= q <= hNext && !(hPrev < qn < hNext) {
          if d == 1 {
            LinearUp(q, hNext, pNext, n);
          } else {
            LinearDown(q, hPrev, pPrev, n);
          }
        }
      }
      Marker(height, n + d)
    else
      Marker(q, n)
  }

  // ---------------------------------------------------------------------
  // The whole adjustment pass

  datatype Markers = Markers(heights: seq<real>, positions: seq<int>)

  /** The markers after one iteration of __adjust, for interior marker i. */
  function AdjustAt(h: seq<real>, p: seq<int>, i: int, numCells: int): (r: Markers)
    requires numCells > 1 && 1 <= i && i + 1 < |p| < |h| && Increasing(p)
    ensures |r.heights| == |h| && |r.positions| == |p|
    ensures Increasing(r.positions)
    ensures Ordered(h) ==> Ordered(r.heights)
    // only marker i is touched, and its position moves by at most one rank
    ensures forall j :: 0 <= j < |h| && j != i ==> r.heights[j] == h[j]
    ensures forall j :: 0 <= j < |p| && j != i ==> r.positions[j] == p[j]
    ensures p[i] - 1 <= r.positions[i] <= p[i] + 1
  {
    var m := Relocate(i, numCells, h[i - 1], h[i], h[i + 1], p[i - 1], p[i], p[i + 1]);
    Markers(h[i := m.height], p[i := m.position])
  }

  /** The markers after __adjust has run from marker i on. The pass visits
      i < numCells - 1, but it stops, with an IndexError, at the first i whose
      upper neighbour pos[i + 1] does not exist. */
  function AdjustFrom(h: seq<real>, p: seq<int>, i: int, numCells: int): (r: Markers)
    requires 1 <= i && |p| < |h| && Increasing(p)
    ensures |r.heights| == |h| && |r.positions| == |p|
    ensures Increasing(r.positions)
    ensures Ordered(h) ==> Ordered(r.heights)
    // markers before i, and the top marker, are never touched
    ensures forall j :: 0 <= j < i && j < |p| ==> r.heights[j] == h[j] && r.positions[j] == p[j]
    ensures r.heights[|h| - 1] == h[|h| - 1]
    // no position moves by more than one rank
    ensures forall j :: 0 <= j < |p| ==> p[j] - 1 <= r.positions[j] <= p[j] + 1
    decreases |p| - i
  {
    if i < numCells - 1 && i + 1 < |p| then
      var next := AdjustAt(h, p, i, numCells);
      AdjustFrom(next.heights, next.positions, i + 1, numCells)
    else
      Markers(h, p)
  }

  // ---------------------------------------------------------------------
  // Finding the cell of a new item

  /** Where an item falls among the heights: below the first one, strictly
      inside the interior cell [index, index + 1], or in no interior cell. */
  datatype Cell = BelowFirst | Between(index: int) | NoMatch

  /** Item strictly between heights j and j + 1. */
  predicate Straddles(h: seq<real>, item: real, j: int)
  {
    0 <= j < |h| - 1 && h[j] < item < h[j + 1]
  }

  /** The for loop over the interior cells, from cell i on. */
  function ScanFrom(h: seq<real>, item: real, i: int): (c: Cell)
    requires 1 <= i
    ensures c != BelowFirst
    ensures c.Between? ==> i <= c.index < |h| - 1 && Straddles(h, item, c.index)
    decreases |h| - i
  {
    if i >= |h| - 1 then NoMatch
    else if h[i] < item && item < h[i + 1] then Between(i)
    else ScanFrom(h, item, i + 1)
  }

  /** The cell search of add: the first branch, then the for loop. */
  function Locate(h: seq<real>, item: real): (c: Cell)
    requires |h| >= 1
    // an interior cell is chosen only when it holds the item strictly inside it
    ensures c.Between? ==> 1 <= c.index < |h| - 1 && Straddles(h, item, c.index)
    // an item at or above the first height never gets cell 0 from the first branch
    ensures h[0] <= item ==> c != BelowFirst
  {
    if h[0] > item then BelowFirst else ScanFrom(h, item, 1)
  }

  /** The cell index k the source computes from the search result. */
  function CellIndex(c: Cell, numCells: int): int
  {
    match c
    case BelowFirst => 0
    case Between(i) => i
    case NoMatch => numCells - 1
  }

  lemma {:induction false} ScanFromBetween(h: seq<real>, item: real, i: int, k: int)
    requires 1 <= i
    ensures ScanFrom(h, item, i) == Between(k) <==>
      i <= k && Straddles(h, item, k) && forall j :: i <= j < k ==> !Straddles(h, item, j)
    decreases |h| - i
  {
    if i < |h| - 1 && !Straddles(h, item, i) {
      ScanFromBetween(h, item, i + 1, k);
    }
  }

  lemma {:induction false} ScanFromNoMatch(h: seq<real>, item: real, i: int)
    requires 1 <= i
    ensures ScanFrom(h, item, i) == NoMatch <==> forall j :: i <= j < |h| - 1 ==> !Straddles(h, item, j)
    decreases |h| - i
  {
    if i < |h| - 1 && !Straddles(h, item, i) {
      ScanFromNoMatch(h, item, i + 1);
    }
  }

  /** k = 0 is taken for exactly the items below the first height. */
  lemma LocateBelowFirst(h: seq<real>, item: real)
    requires |h| >= 1
    ensures Locate(h, item) == BelowFirst <==> item < h[0]
  {
  }

  /** An interior cell is chosen exactly when it is the first interior cell
      that holds the item strictly inside it. */
  lemma LocateBetween(h: seq<real>, item: real, k: int)
    requires |h| >= 1
    ensures Locate(h, item) == Between(k) <==>
      h[0] <= item && 1 <= k && Straddles(h, item, k) &&
      forall j :: 1 <= j < k ==> !Straddles(h, item, j)
  {
    ScanFromBetween(h, item, 1, k);
  }

  /** The search falls through exactly when no interior cell holds the item
      strictly inside it: items equal to a height, and items between the
      first two heights, land here. */
  lemma LocateNoMatch(h: seq<real>, item: real)
    requires |h| >= 1
    ensures Locate(h, item) == NoMatch <==>
      h[0] <= item && forall j :: 1 <= j < |h| - 1 ==> !Straddles(h, item, j)
  {
    ScanFromNoMatch(h, item, 1);
  }

  /** On ordered heights, an item equal to a height, or an item between the
      first two heights, falls through to the last cell: the scan starts at
      cell 1 and compares strictly. */
  lemma LocateFallsThrough(h: seq<real>, item: real, e: int)
    requires |h| >= 2 && Ordered(h) && h[0] <= item
    requires item <= h[1] || (0 <= e < |h| && h[e] == item)
    ensures Locate(h, item) == NoMatch
  {
    forall j | 1 <= j < |h| - 1
      ensures !Straddles(h, item, j)
    {
      if item <= h[1] {
        OrderedMonotone(h, 1, j);
      } else if e <= j {
        OrderedMonotone(h, e, j);
      } else {
        OrderedMonotone(h, j + 1, e);
      }
    }
    LocateNoMatch(h, item);
  }

  /** The cell index always names one of the numCells cells. */
  lemma CellIndexInRange(h: seq<real>, item: real, numCells: int)
    requires numCells >= 1 && |h| == numCells + 1
    ensures 0 <= CellIndex(Locate(h, item), numCells) < numCells
  {
  }

  /** The heights after the search: only the two end heights can change. */
  function Stretched(h: seq<real>, item: real): (r: seq<real>)
    requires |h| >= 2
    ensures |r| == |h|
    ensures forall j :: 0 < j < |h| - 1 ==> r[j] == h[j]
    // the first height only drops, to the item, and only for an item below it
    ensures r[0] == (if item < h[0] then item else h[0])
    // the last height only rises, to the item, and only when the search fell through
    ensures r[|h| - 1] == (if Locate(h, item) == NoMatch && h[|h| - 1] < item then item else h[|h| - 1])
    // afterwards the first height is at or below the item
    ensures r[0] <= item
  {
    match Locate(h, item)
    case BelowFirst => h[0 := item]
    case Between(_) => h
    case NoMatch => if h[|h| - 1] < item then h[|h| - 1 := item] else h
  }

  /** On ordered heights, the stretched end heights enclose the item and the
      heights stay ordered. */
  lemma StretchedOrdered(h: seq<real>, item: real)
    requires |h| >= 2 && Ordered(h)
    ensures var r := Stretched(h, item); r[|h| - 1] >= item && Ordered(r)
  {
    OrderedMonotone(h, 0, |h| - 1);
    if Locate(h, item).Between? {
      OrderedMonotone(h, Locate(h, item).index + 1, |h| - 1);
    }
  }

  /** The for/else search of add: the cell index k and the heights with the
      end markers stretched to the item if needed. */
  method FindCell(heights: seq<real>, item: real, numCells: int) returns (k: int, stretched: seq<real>)
    requires numCells >= 1 && |heights| == numCells + 1
    ensures k == CellIndex(Locate(heights, item), numCells)
    ensures 0 <= k < numCells
    ensures stretched == Stretched(heights, item)
  {
    stretched := heights;
    if stretched[0] > item {
      stretched := stretched[0 := item];
      k := 0;
    } else {
      k := -1;
      var i := 1;
      while i < |stretched| - 1
        invariant 1 <= i <= |heights| - 1
        invariant stretched == heights && k == -1
        invariant ScanFrom(heights, item, i) == Locate(heights, item)
        decreases |heights| - i
      {
        if stretched[i] < item && item < stretched[i + 1] {
          k := i;
          break;
        }
        i := i + 1;
      }
      if k == -1 {
        k := numCells - 1;
        if stretched[|stretched| - 1] < item {
          stretched := stretched[|stretched| - 1 := item];
        }
      }
    }
  }

  // ---------------------------------------------------------------------
  // Shifting the positions

  /** pos[:k] + [x + 1 for x in pos[k:]]: every position from k on moves up
      by one rank. */
  function ShiftFrom(pos: seq<int>, k: nat): (r: seq<int>)
    ensures |r| == |pos|
    ensures forall j :: 0 <= j < |pos| && j < k ==> r[j] == pos[j]
    ensures forall j :: k <= j < |pos| ==> r[j] == pos[j] + 1
    ensures k >= |pos| ==> r == pos
    ensures Increasing(pos) ==> Increasing(r)
  {
    var m := if k < |pos| then k else |pos|;
    pos[..m] + seq(|pos| - m, j requires 0 <= j < |pos| - m => pos[m + j] + 1)
  }

  // ---------------------------------------------------------------------
  // The histogram

  /** zip(a, b): pairs of equal index, as many as the shorter list has. */
  function Zip(a: seq<int>, b: seq<real>): (r: seq<(int, real)>)
    ensures |r| == if |a| < |b| then |a| else |b|
    ensures forall j :: 0 <= j < |r| ==> r[j] == (a[j], b[j])
  {
    if a == [] || b == [] then [] else [(a[0], b[0])] + Zip(a[1..], b[1..])
  }

  class LiveHistogram {
    /** One more than the number of cells asked for, as the source stores it. */
    const numCells: int
    var heights: seq<real>
    var pos: seq<int>
    var initialized: bool

    ghost predicate Valid()
      reads this
    {
      numCells >= 1 &&
      |pos| == numCells - 1 &&
      |heights| <= numCells + 1 &&
      (initialized ==> |heights| == numCells + 1) &&
      Increasing(pos)
    }

    constructor (cells: nat := 10)
      ensures Valid()
      ensures numCells == cells + 1
      ensures heights == [] && !initialized
      ensures |pos| == cells && forall j :: 0 <= j < cells ==> pos[j] == j
    {
      numCells := cells + 1;
      pos := seq(cells, j => j);
      heights := [];
      initialized := false;
    }

    /** Takes one item: buffers it while the heights are not full, otherwise
      finds its cell, stretches the end heights and shifts the positions. */
    method Add(item: real)
      requires Valid()
      modifies this`heights, this`pos, this`initialized
      ensures Valid()
      ensures old(initialized) ==> initialized
      // fill phase: the item is appended and nothing else changes
      ensures old(|heights|) < numCells + 1 ==>
        heights == old(heights) + [item] && pos == old(pos) && initialized == old(initialized)
      // steady phase
      ensures old(|heights|) == numCells + 1 ==>
        initialized &&
        heights == Stretched(old(heights), item) &&
        pos == ShiftFrom(old(pos), CellIndex(Locate(old(heights), item), numCells))
    {
      if |heights| < numCells + 1 {
        heights := heights + [item];
      } else {
        if !initialized {
          // the heights are not sorted: the sort at livestats.py:27 is never called
          initialized := true;
        }
        var k;
        k, heights := FindCell(heights, item, numCells);
        pos := ShiftFrom(pos, k);
        // the adjustment pass at livestats.py:46 is referenced but never called
      }
    }

    /** The adjustment pass over the interior markers. Returns true when it
      stops with an IndexError because pos[i + 1] does not exist. */
    method Adjust() returns (indexError: bool)
      requires Valid() && |heights| == numCells + 1
      modifies this`heights, this`pos
      ensures Valid()
      ensures Markers(heights, pos) == AdjustFrom(old(heights), old(pos), 1, numCells)
      ensures Ordered(old(heights)) ==> Ordered(heights)
      // pos has one entry too few for the last interior marker
      ensures indexError <==> numCells >= 3
    {
      ghost var result := AdjustFrom(heights, pos, 1, numCells);
      ghost var wasOrdered := Ordered(heights);
      indexError := false;
      var i := 1;
      while i < numCells - 1
        invariant 1 <= i && (numCells >= 3 ==> i <= numCells - 2)
        invariant |heights| == numCells + 1 && |pos| == numCells - 1 && Increasing(pos)
        invariant AdjustFrom(heights, pos, i, numCells) == result
        decreases numCells - i
      {
        if i + 1 >= |pos| {
          indexError := true;
          break;
        }
        var m := Relocate(i, numCells, heights[i - 1], heights[i], heights[i + 1], pos[i - 1], pos[i], pos[i + 1]);
        assert AdjustAt(heights, pos, i, numCells) == Markers(heights[i := m.height], pos[i := m.position]);
        heights := heights[i := m.height];
        pos := pos[i := m.position];
        i := i + 1;
      }
      assert Markers(heights, pos) == result;
      assert wasOrdered ==> Ordered(heights);
    }

    /** The (position, height) pairs once initialised, nothing before. */
    function Histogram(): (r: seq<(int, real)>)
      reads this
      ensures !initialized ==> r == []
      ensures initialized ==> |r| == (if |pos| < |heights| then |pos| else |heights|)
      ensures initialized ==> forall j :: 0 <= j < |r| ==> r[j] == (pos[j], heights[j])
    {
      if initialized then Zip(pos, heights) else []
    }
  }
}
