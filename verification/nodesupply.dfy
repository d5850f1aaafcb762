/**
  How many nodes the packer needs.

  The packer rounds the room it asks for up to a quantum, so that the nodes it was given
  cannot run out.  What is rounded is the room asked for, not the room taken: for which
  numbers of nodes that is enough, and a target where it is not.
  */
module NodeSupply {
  import opened Skylines
  import W = Wire

  /** The width rounded up to a multiple of `align`. */
  function Quantized(w: int, align: int): int
    requires align > 0
  {
    w + align - 1 - (w + align - 1) % align
  }

  lemma QuantizedIs(w: int, align: int)
    requires w > 0 && align > 0
    ensures w <= Quantized(w, align) < w + align && Quantized(w, align) % align == 0
  {
    var n := w + align - 1;
    var k := n / align;
    assert k * align == Quantized(w, align);
    W.DivUnique(k * align, align, k, 0);
    assert k * align == k * align / align * align + k * align % align;
  }

  // ---------------------------------------------------------------- outlines on a grid

  ghost predicate Multiple(a: int, d: int)
    requires d > 0
  {
    a >= 0 && a % d == 0
  }

  /** Every point but the sentinel stands at a multiple of `align`. */
  ghost predicate OnGrid(sky: seq<Point>, align: int)
    requires align > 0
  {
    forall k | 0 <= k < |sky| - 1 :: Multiple(sky[k].x, align)
  }

  lemma Quotient(a: int, d: int) returns (m: nat)
    requires d > 0 && Multiple(a, d)
    ensures a == m * d
  {
    m := a / d;
  }

  lemma Times(m: int, n: int, d: int)
    ensures (m + n) * d == m * d + n * d && (m - n) * d == m * d - n * d
  {
  }

  lemma SumOnGrid(a: int, b: int, d: int)
    requires d > 0 && Multiple(a, d) && Multiple(b, d)
    ensures Multiple(a + b, d)
    ensures a >= b ==> Multiple(a - b, d)
    ensures a < b ==> a + d <= b
  {
    hide Multiple;
    var m := Quotient(a, d);
    var n := Quotient(b, d);
    Times(m, n, d);
    IsMultiple(m + n, d);
    W.MulLess(m, n, d);
    W.MulLess(n, m, d);
    if m >= n { IsMultiple(m - n, d); }
  }

  lemma IsMultiple(k: nat, d: int)
    requires d > 0
    ensures Multiple(k * d, d)
  {
    W.MultipleMod(k, d);
  }

  lemma {:induction false} GridSpacing(sky: seq<Point>, width: int, align: int, k: nat)
    requires align > 0 && Skyline(sky, width) && OnGrid(sky, align) && k < |sky| - 1
    ensures sky[k].x >= k * align
  {
    hide Multiple;
    if k > 0 {
      GridSpacing(sky, width, align, k - 1);
      SumOnGrid(sky[k-1].x, sky[k].x, align);
      assert k * align == (k - 1) * align + align;
    }
  }

  /** On the grid, `num` nodes besides the two built in always leave one to take. */
  lemma GridLeavesNode(sky: seq<Point>, width: int, align: int, num: nat)
    requires align > 0 && num * align >= width && Skyline(sky, width) && OnGrid(sky, align)
    ensures |sky| < num + 2
  {
    var k := |sky| - 2;
    GridSpacing(sky, width, align, k);
    W.MulLess(num, k, align);
  }

  /** Widths that are multiples of the quantum keep the outline on the grid. */
  lemma GridIsKept(sky: seq<Point>, q: Wanted, align: int, p: Place, top: int, w: int)
    requires align > 0 && Skyline(sky, q.width) && OnGrid(sky, align) && Option(sky, q, p)
    requires w > 0 && Multiple(w, align) && q.wide == w
    requires q.heuristic.BestFit? ==> Multiple(q.width, align)
    ensures p.i + 1 < |sky| && OnGrid(Raised(sky, p.i, p.x, top, w), align)
  {
    hide Stay, FitsBelow, Multiple, Option;
    OptionIsSpot(sky, q, p, w);
    PlaceOnGrid(sky, q, align, p);
    SumOnGrid(p.x, w, align);
    var r := Raised(sky, p.i, p.x, top, w);
    forall k | 0 <= k < |r| - 1 ensures Multiple(r[k].x, align) {
      RaisedAt(sky, p.i, p.x, top, w, k);
    }
  }

  lemma PlaceOnGrid(sky: seq<Point>, q: Wanted, align: int, p: Place)
    requires align > 0 && Skyline(sky, q.width) && OnGrid(sky, align) && Option(sky, q, p)
    requires Multiple(q.wide, align)
    requires q.heuristic.BestFit? ==> Multiple(q.width, align)
    ensures Multiple(p.x, align)
  {
    hide Multiple, FitsBelow;
    if !LeftAligned(sky, q, p) {
      var t: nat :| RightAligned(sky, q, p, t);
      assert Multiple(sky[t].x, align);
      assert p.x >= sky[p.i].x >= sky[0].x;
      SumOnGrid(sky[t].x, q.wide, align);
    }
  }

  /**
    In general the nodes run out although the widths are quantized to prevent it: what is
    quantized is the room asked for, not the room taken.  Here two nodes serve a target of
    width 4, so widths are quantized to 2; two rectangles of width 1 use them up, and for
    the third there is a place but no node.
    */
  lemma NodesRunOut() returns (q: Wanted, a: seq<Point>, b: seq<Point>, c: seq<Point>)
    ensures q == Wanted(BottomLeft, 2, 1, 4, 10)
    ensures a == [Point(0, 0), Point(4, FAR)]
    ensures Best(a, q, true, Place(0, 0)) && Rest(a, 0, 0, 2) == 0 && b == Raised(a, 0, 0, 1, 1)
    ensures |b| == 3 && Best(b, q, true, Place(1, 1)) && Rest(b, 1, 1, 2) == 0 && c == Raised(b, 1, 1, 1, 1)
    ensures |c| == 2 + 2 && Option(c, q, Place(2, 2)) && FitsBelow(c, q, Place(2, 2))
  {
    q := Wanted(BottomLeft, 2, 1, 4, 10);
    a := [Point(0, 0), Point(4, FAR)];
    assert Top(a, 1, 2, 0) == 0;
    b := Raised(a, 0, 0, 1, 1);
    assert b == [Point(0, 1), Point(1, 0), Point(4, FAR)];
    assert Top(b, 2, 3, 0) == 0 && Top(b, 2, 2, 1) == 1 && Top(b, 1, 2, 1) == 1;
    c := Raised(b, 1, 1, 1, 1);
    assert c == [Point(0, 1), Point(1, 1), Point(2, 0), Point(4, FAR)];
    assert Top(c, 3, 4, 0) == 0;
  }

  // ---------------------------------------------------------------- for every sequence of rectangles

  datatype Size = Size(w: int, h: int)

  /** A target as it is set up: its size, and the nodes besides the two built in. */
  datatype Target = Target(heuristic: Heuristic, width: int, height: int, num: nat) {
    predicate Valid() {
      width > 0 && num > 0
    }

    /** The quantum chosen at set-up. */
    function Quantum(): int
      requires Valid()
    {
      (width + num - 1) / num
    }

    function Wants(r: Size): Wanted
      requires Valid() && Quantum() > 0
    {
      Wanted(heuristic, Quantized(r.w, Quantum()), r.h, width, height)
    }
  }

  function Bare(width: int): seq<Point> {
    [Point(0, 0), Point(width, FAR)]
  }

  lemma QuantumIs(t: Target)
    requires t.Valid()
    ensures t.Quantum() > 0 && t.num * (t.Quantum() - 1) < t.width <= t.num * t.Quantum()
  {
    var n := t.width + t.num - 1;
    assert n == n / t.num * t.num + n % t.num;
    assert t.num * (t.Quantum() - 1) == t.num * t.Quantum() - t.num;
    W.MulLess(n / t.num, 1, t.num);
  }

  /** A rectangle, and where it is put. */
  datatype Move = Move(r: Size, p: Place)

  /** The search accepts this place for the rectangle, apart from the nodes. */
  ghost predicate HasPlace(t: Target, sky: seq<Point>, m: Move)
    requires t.Valid() && t.Quantum() > 0
  {
    && m.r.w > 0 && m.r.h > 0 && Option(sky, t.Wants(m.r), m.p)
    && FitsBelow(sky, t.Wants(m.r), m.p) && Less(KeyOf(sky, t.Wants(m.r), m.p), Limit(t.Wants(m.r)))
  }

  /** The outline after these moves. */
  function After(t: Target, ms: seq<Move>): seq<Point>
    requires t.Valid() && t.Quantum() > 0
  {
    if ms == [] then Bare(t.width)
    else
      var sky, m := After(t, ms[..|ms|-1]), ms[|ms|-1];
      if m.p.i + 1 < |sky| then Raised(sky, m.p.i, m.p.x, Rest(sky, m.p.i, m.p.x, t.Wants(m.r).wide) + m.r.h, m.r.w)
      else sky
  }

  /** Each rectangle had a place, went to the best one, and took a node that was left. */
  ghost predicate Possible(t: Target, ms: seq<Move>)
    requires t.Valid() && t.Quantum() > 0
  {
    ms == []
    || (var sky, m := After(t, ms[..|ms|-1]), ms[|ms|-1];
        && Possible(t, ms[..|ms|-1]) && HasPlace(t, sky, m)
        && Best(sky, t.Wants(m.r), true, m.p) && |sky| < t.num + 2)
  }

  /** Whatever has been packed: while there is a place for a rectangle there is a node. */
  ghost predicate NodesSuffice(t: Target)
    requires t.Valid() && t.Quantum() > 0
  {
    forall ms, m | Possible(t, ms) && HasPlace(t, After(t, ms), m) :: |After(t, ms)| < t.num + 2
  }

  // ---------------------------------------------------------------- enough nodes

  lemma {:induction false} AfterIsSkyline(t: Target, ms: seq<Move>)
    requires t.Valid() && t.Quantum() > 0 && Possible(t, ms)
    ensures Skyline(After(t, ms), t.width)
  {
    hide Raised, Rest, Best, Reach;
    if ms != [] {
      var sky, m := After(t, ms[..|ms|-1]), ms[|ms|-1];
      AfterIsSkyline(t, ms[..|ms|-1]);
      QuantizedIs(m.r.w, t.Quantum());
      OptionIsSpot(sky, t.Wants(m.r), m.p, m.r.w);
      var y := Rest(sky, m.p.i, m.p.x, t.Wants(m.r).wide);
      RestNotNegative(sky, m.p.i, m.p.x, t.Wants(m.r).wide);
      RaisedIsSkyline(sky, t.width, m.p.i, m.p.x, y + m.r.h, m.r.w);
    }
  }

  lemma {:induction false} TopAtLeast(sky: seq<Point>, i: nat, x1: int, floor: int)
    ensures Top(sky, i, x1, floor) >= floor
    decreases |sky| - i
  {
    if i < |sky| && sky[i].x < x1 {
      TopAtLeast(sky, i + 1, x1, if sky[i].y > floor then sky[i].y else floor);
    }
  }

  lemma RestNotNegative(sky: seq<Point>, i: nat, x: int, w: int)
    ensures Rest(sky, i, x, w) >= 0
    ensures i < |sky| && sky[i].x < x + w ==> Rest(sky, i, x, w) >= sky[i].y
  {
    TopAtLeast(sky, i, x + w, 0);
    if i < |sky| && sky[i].x < x + w {
      TopAtLeast(sky, i + 1, x + w, if sky[i].y > 0 then sky[i].y else 0);
    }
  }

  /** As many nodes as columns always leave one, whatever is packed. */
  lemma ColumnsSuffice(sky: seq<Point>, width: int, num: nat)
    requires Skyline(sky, width) && num >= width
    ensures |sky| < num + 2
  {
    GridLeavesNode(sky, width, 1, num);
  }

  // ---------------------------------------------------------------- too few nodes

  /** The outline over k unit squares side by side. */
  function Row(width: int, k: nat): seq<Point> {
    seq(k, i requires 0 <= i => Point(i, 1)) + [Point(k, 0), Point(width, FAR)]
  }

  const UNIT := Size(1, 1)

  function Squares(k: nat): (ms: seq<Move>)
    ensures |ms| == k
  {
    if k == 0 then [] else Squares(k - 1) + [Move(UNIT, Place(k - 1, k - 1))]
  }

  /** Over a last segment that is bare floor anything rests on the floor, and costs nothing. */
  lemma OnFloor(sky: seq<Point>, n: nat, x: int, w: int)
    requires |sky| == n + 2 && sky[n].y == 0 && w > 0 && sky[n].x <= x && x + w <= sky[n+1].x
    ensures Rest(sky, n, x, w) == 0 && Lost(sky, n, x, w) == 0
  {
    var gap := sky[n+1].x - sky[n].x;
    assert Top(sky, n + 1, x + w, 0) == 0;
    assert Waste(sky, n + 1, x, w, 0, if gap > w then w else gap) == 0;
  }

  lemma UnitIsQuantized(a: int)
    requires a > 0
    ensures Quantized(1, a) == a
  {
    W.DivUnique(a, a, 1, 0);
    assert a == a / a * a + a % a;
  }

  /** The next square of the row has its best place on the floor beside it. */
  lemma RowBest(t: Target, k: nat)
    requires t.Valid() && t.Quantum() > 0 && k < t.width && t.height >= 1 && k + t.Quantum() <= t.width
    ensures HasPlace(t, Row(t.width, k), Move(UNIT, Place(k, k)))
    ensures Best(Row(t.width, k), t.Wants(UNIT), true, Place(k, k))
    ensures Rest(Row(t.width, k), k, k, t.Wants(UNIT).wide) == 0
  {
    hide Rest, Lost;
    var sky, q, p := Row(t.width, k), t.Wants(UNIT), Place(k, k);
    UnitIsQuantized(t.Quantum());
    RowIsSkyline(t, k);
    OnFloor(sky, k, k, q.wide);
    assert LeftAligned(sky, q, p);
    forall o | Option(sky, q, o) ensures !Less(KeyOf(sky, q, o), KeyOf(sky, q, p)) {
      RowOption(t, k, o);
    }
  }

  lemma RowOption(t: Target, k: nat, o: Place)
    requires t.Valid() && t.Quantum() > 0 && k < t.width && Option(Row(t.width, k), t.Wants(UNIT), o)
    ensures var y := Rest(Row(t.width, k), o.i, o.x, t.Wants(UNIT).wide);
            y >= 1 || (y == 0 && o.i == k && o.x >= k && o.x + t.Quantum() <= t.width
                       && Lost(Row(t.width, k), o.i, o.x, t.Wants(UNIT).wide) == 0)
  {
    hide Rest, Lost, FitsBelow;
    var sky, q := Row(t.width, k), t.Wants(UNIT);
    UnitIsQuantized(t.Quantum());
    RowIsSkyline(t, k);
    OptionIsSpot(sky, q, o, 1);
    RestNotNegative(sky, o.i, o.x, q.wide);
    if o.i == k {
      OnFloor(sky, k, o.x, q.wide);
    } else {
      assert sky[o.i].y == 1;
    }
  }

  lemma RowIsSkyline(t: Target, k: nat)
    requires t.Valid() && k < t.width
    ensures Skyline(Row(t.width, k), t.width)
  {
    var sky := Row(t.width, k);
    forall a | 0 <= a < |sky|
      ensures sky[a] == if a < k then Point(a, 1) else if a == k then Point(k, 0) else Point(t.width, FAR)
    {
    }
  }

  lemma RowGrows(t: Target, k: nat)
    requires k + 1 < t.width
    ensures Raised(Row(t.width, k), k, k, 1, 1) == Row(t.width, k + 1)
  {
    var sky := Row(t.width, k);
    assert sky[k] == Point(k, 0) && sky[k+1] == Point(t.width, FAR);
    assert Cut(sky, k, k) == k && Stay(sky, k, k + 1) == k;
    assert sky[..k] == seq(k, i requires 0 <= i => Point(i, 1));
  }

  lemma {:induction false} SquaresMakeRow(t: Target, k: nat)
    requires t.Valid() && t.Quantum() > 0 && t.height >= 1 && k <= t.num < t.width
    requires k > 0 ==> k - 1 + t.Quantum() <= t.width
    ensures Possible(t, Squares(k)) && After(t, Squares(k)) == Row(t.width, k)
  {
    hide Rest, Raised, HasPlace, Best, After, Possible, Row;
    if k == 0 {
      NoMoves(t);
    } else {
      SquaresMakeRow(t, k - 1);
      RowBest(t, k - 1);
      RowGrows(t, k - 1);
      RowLength(t.width, k - 1);
      OneMove(t, Squares(k - 1), Move(UNIT, Place(k - 1, k - 1)));
    }
  }

  lemma NoMoves(t: Target)
    requires t.Valid() && t.Quantum() > 0
    ensures Possible(t, []) && After(t, []) == Row(t.width, 0)
  {
    assert Row(t.width, 0) == Bare(t.width);
  }

  lemma RowLength(width: int, k: nat)
    ensures |Row(width, k)| == k + 2
  {
  }

  lemma OneMove(t: Target, ms: seq<Move>, m: Move)
    requires t.Valid() && t.Quantum() > 0 && Possible(t, ms)
    requires var sky := After(t, ms);
             HasPlace(t, sky, m) && Best(sky, t.Wants(m.r), true, m.p) && |sky| < t.num + 2 && m.p.i + 1 < |sky|
    ensures Possible(t, ms + [m])
    ensures var sky := After(t, ms);
            After(t, ms + [m]) == Raised(sky, m.p.i, m.p.x, Rest(sky, m.p.i, m.p.x, t.Wants(m.r).wide) + m.r.h, m.r.w)
  {
    hide Rest, Raised, HasPlace, Best;
    assert (ms + [m])[..|ms + [m]|-1] == ms;
  }

  lemma QuantumFits(t: Target)
    requires t.Valid() && t.num < t.width
    ensures 0 < t.Quantum() <= t.width && t.num - 1 + t.Quantum() <= t.width
  {
    hide Target.Quantum;
    QuantumIs(t);
    var a := t.Quantum() - 1;
    if a > 0 { ProductGrows(t.num - 1, a - 1); }
  }

  lemma ProductGrows(m: nat, b: nat)
    ensures (m + 1) * (b + 1) >= m + b + 1
  {
    assert (m + 1) * (b + 1) == m * (b + 1) + (b + 1);
    assert m * (b + 1) == m * b + m;
    assert m * b >= 0;
  }

  /** A square on top of a row has a place when the target is two high. */
  lemma RowTop(t: Target, k: nat)
    requires t.Valid() && 0 < t.Quantum() <= t.width && 0 < k < t.width && t.height >= 2
    ensures HasPlace(t, Row(t.width, k), Move(UNIT, Place(0, 0)))
  {
    hide Waste;
    var sky, q, p := Row(t.width, k), t.Wants(UNIT), Place(0, 0);
    UnitIsQuantized(t.Quantum());
    RowIsSkyline(t, k);
    TopIsMaximum(sky, 0, q.wide, 0);
    assert sky[0] == Point(0, 1);
    assert forall a | 0 <= a < |sky| && sky[a].x < q.wide :: sky[a].y <= 1;
    assert LeftAligned(sky, q, p) && FitsBelow(sky, q, p);
  }

  /** With too few nodes a row of unit squares takes them all, and there is room for one more. */
  lemma SquaresExhaust(t: Target)
    requires t.Valid() && t.num < t.width && (t.height >= 2 || (t.height == 1 && t.num + t.Quantum() <= t.width))
    ensures t.Quantum() > 0 && !NodesSuffice(t)
  {
    hide Rest, HasPlace, Best, Possible, After;
    QuantumFits(t);
    var ms := Squares(t.num);
    SquaresMakeRow(t, t.num);
    var m;
    if t.num + t.Quantum() <= t.width {
      m := Move(UNIT, Place(t.num, t.num));
      RowBest(t, t.num);
    } else {
      m := Move(UNIT, Place(0, 0));
      RowTop(t, t.num);
    }
    assert Possible(t, ms) && HasPlace(t, After(t, ms), m) && |After(t, ms)| == t.num + 2;
  }

  // ---------------------------------------------------------------- targets one unit high

  /** One row of boxes, filled from the left, and the floor beside them. */
  ghost predicate Flush(sky: seq<Point>) {
    && |sky| >= 2 && (forall a | 0 <= a < |sky| - 2 :: sky[a].y == 1)
    && 0 <= sky[|sky|-2].y <= 1
  }

  /** In a target one unit high a place is on the floor, to the right of all boxes. */
  lemma FlushPlace(t: Target, sky: seq<Point>, m: Move)
    requires t.Valid() && t.Quantum() > 0 && t.height == 1 && Skyline(sky, t.width) && Flush(sky)
    requires HasPlace(t, sky, m)
    ensures var n := |sky| - 2;
            m.p.i == n && m.r.h == 1 && sky[n].y == 0 && sky[n].x <= m.p.x && m.p.x + t.Quantum() <= t.width
    ensures Best(sky, t.Wants(m.r), true, m.p) ==> m.p.x == sky[|sky|-2].x
    ensures Rest(sky, m.p.i, m.p.x, t.Wants(m.r).wide) == 0
  {
    hide Rest, Lost;
    var n, q := |sky| - 2, t.Wants(m.r);
    QuantizedIs(m.r.w, t.Quantum());
    AtLeastQuantum(m.r.w, t.Quantum());
    OptionIsSpot(sky, q, m.p, m.r.w);
    RestNotNegative(sky, m.p.i, m.p.x, q.wide);
    OnFloor(sky, n, m.p.x, q.wide);
    var o := Place(n, sky[n].x);
    OnFloor(sky, n, o.x, q.wide);
    assert LeftAligned(sky, q, o) && Option(sky, q, o);
  }

  lemma AtLeastQuantum(w: int, a: int)
    requires w > 0 && a > 0
    ensures Quantized(w, a) >= a
  {
    var n := w + a - 1;
    var k := n / a;
    assert n == k * a + n % a;
    assert k >= 1;
    W.MulLess(0, k, a);
  }

  lemma FlushRaised(sky: seq<Point>, width: int, w: int)
    requires Skyline(sky, width) && Flush(sky) && sky[|sky|-2].y == 0 && w > 0 && sky[|sky|-2].x + w <= width
    ensures Flush(Raised(sky, |sky| - 2, sky[|sky|-2].x, 1, w))
  {
    var n := |sky| - 2;
    var x := sky[n].x;
    assert Stay(sky, n, x + w) == if x + w < width then n else n + 1;
    assert sky[..n] + [Point(x, 1)] == Raised(sky, n, x, 1, w)[..n+1];
    forall a | 0 <= a < |Raised(sky, n, x, 1, w)| { RaisedAt(sky, n, x, 1, w, a); }
  }

  lemma {:induction false} StaysFlush(t: Target, ms: seq<Move>)
    requires t.Valid() && t.Quantum() > 0 && t.height == 1 && Possible(t, ms)
    ensures Flush(After(t, ms))
  {
    hide Raised, Rest, Best, HasPlace, Flush;
    if ms == [] {
      BareIsFlush(t.width);
    } else {
      var init, m := ms[..|ms|-1], ms[|ms|-1];
      StaysFlush(t, init);
      AfterIsSkyline(t, init);
      var sky := After(t, init);
      FlushPlace(t, sky, m);
      RoomTaken(t, sky, m);
      FlushRaised(sky, t.width, m.r.w);
    }
  }

  lemma BareIsFlush(width: int)
    ensures Flush(Bare(width))
  {
  }

  lemma RoomTaken(t: Target, sky: seq<Point>, m: Move)
    requires t.Valid() && t.Quantum() > 0 && Skyline(sky, t.width) && HasPlace(t, sky, m)
    ensures m.r.w > 0 && m.p.i + 1 < |sky| && m.p.x + m.r.w <= t.width
  {
    hide Rest, Lost;
    QuantizedIs(m.r.w, t.Quantum());
    OptionIsSpot(sky, t.Wants(m.r), m.p, m.r.w);
  }

  /** So there the nodes last if the row is too full for another quantum when they are used up. */
  lemma LowTargetSuffices(t: Target)
    requires t.Valid() && t.height == 1 && t.num + t.Quantum() > t.width
    ensures t.Quantum() > 0 && NodesSuffice(t)
  {
    hide HasPlace, Possible, Flush;
    QuantumIs(t);
    forall ms, m | Possible(t, ms) && HasPlace(t, After(t, ms), m) ensures |After(t, ms)| < t.num + 2 {
      var sky := After(t, ms);
      AfterIsSkyline(t, ms);
      StaysFlush(t, ms);
      FlushPlace(t, sky, m);
      GridSpacing(sky, t.width, 1, |sky| - 2);
    }
  }

  // ---------------------------------------------------------------- exactly when

  /**
    The nodes last for every sequence of rectangles if and only if there are as many as the
    target has columns; apart from targets too low for a second row, where they also last if
    the squares that use them up leave no room for another quantum.
    */
  lemma NodesSufficeIff(t: Target)
    requires t.Valid()
    ensures t.Quantum() > 0
    ensures NodesSuffice(t) <==>
            t.num >= t.width || t.height < 1 || (t.height == 1 && t.num + t.Quantum() > t.width)
  {
    hide HasPlace, Possible;
    QuantumIs(t);
    if t.num >= t.width {
      forall ms, m | Possible(t, ms) && HasPlace(t, After(t, ms), m) ensures |After(t, ms)| < t.num + 2 {
        AfterIsSkyline(t, ms);
        ColumnsSuffice(After(t, ms), t.width, t.num);
      }
    } else if t.height < 1 {
      forall ms, m | Possible(t, ms) ensures !HasPlace(t, After(t, ms), m) { NoRoom(t, After(t, ms), m); }
    } else if t.height == 1 && t.num + t.Quantum() > t.width {
      LowTargetSuffices(t);
    } else {
      SquaresExhaust(t);
    }
  }

  lemma NoRoom(t: Target, sky: seq<Point>, m: Move)
    requires t.Valid() && t.Quantum() > 0 && t.height < 1
    ensures !HasPlace(t, sky, m)
  {
    hide Lost;
    if m.r.h > 0 { RestNotNegative(sky, m.p.i, m.p.x, t.Wants(m.r).wide); }
  }
}
