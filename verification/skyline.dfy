/**
  The geometry of the skyline packer: the outline of what has been packed as a list of
  points, the places a rectangle can take on it, and what packing does to it.
  */
module Skylines {
  /** The height of the sentinel, above any place that is ever chosen. */
  const FAR: int := 0x4000_0000

  /** From `x` to the next point the outline has height `y`. */
  datatype Point = Point(x: int, y: int)

  datatype Box = Box(x: int, y: int, w: int, h: int)

  // ---------------------------------------------------------------- outlines

  /** Strictly from left to right, from 0 to the sentinel at the target's width. */
  ghost predicate Skyline(sky: seq<Point>, width: int) {
    && |sky| >= 2 && sky[0].x == 0 && sky[|sky|-1].x == width
    && (forall a, b | 0 <= a < b < |sky| :: sky[a].x < sky[b].x)
    && forall a | 0 <= a < |sky| :: sky[a].y >= 0
  }

  /** The outline is nowhere below the top of the box. */
  ghost predicate Covers(sky: seq<Point>, b: Box) {
    forall k | 0 <= k < |sky| - 1 ::
      sky[k].x < b.x + b.w && b.x < sky[k+1].x ==> sky[k].y >= b.y + b.h
  }

  predicate Inside(b: Box, width: int, height: int) {
    0 <= b.x && b.x + b.w <= width && 0 <= b.y && b.y + b.h <= height
  }

  predicate Apart(a: Box, b: Box) {
    a.x + a.w <= b.x || b.x + b.w <= a.x || a.y + a.h <= b.y || b.y + b.h <= a.y
  }

  /** The segment over a position at or to the right of the i-th point. */
  lemma SegmentOf(sky: seq<Point>, width: int, i: nat, p: int) returns (k: nat)
    requires Skyline(sky, width) && i < |sky| && sky[i].x <= p < width
    ensures i <= k < |sky| - 1 && sky[k].x <= p < sky[k+1].x
  {
    k := i;
    while sky[k+1].x <= p
      invariant i <= k < |sky| - 1 && sky[k].x <= p
      decreases |sky| - k
    {
      k := k + 1;
    }
  }

  // ---------------------------------------------------------------- resting on the outline

  /** The greatest height of the points from the i-th on that lie left of `x1`. */
  function Top(sky: seq<Point>, i: nat, x1: int, floor: int): int
    decreases |sky| - i
  {
    if i < |sky| && sky[i].x < x1 then Top(sky, i + 1, x1, if sky[i].y > floor then sky[i].y else floor)
    else floor
  }

  lemma {:induction false} TopIsMaximum(sky: seq<Point>, i: nat, x1: int, floor: int)
    requires forall a, b | i <= a < b < |sky| :: sky[a].x < sky[b].x
    ensures var y := Top(sky, i, x1, floor);
            && y >= floor && (forall k | i <= k < |sky| && sky[k].x < x1 :: sky[k].y <= y)
            && (y == floor || exists k | i <= k < |sky| && sky[k].x < x1 :: sky[k].y == y)
    decreases |sky| - i
  {
    if i < |sky| && sky[i].x < x1 {
      TopIsMaximum(sky, i + 1, x1, if sky[i].y > floor then sky[i].y else floor);
    }
  }

  /** The area lost below, as the packer counts it, from the i-th point on. */
  function Waste(sky: seq<Point>, i: nat, x0: int, w: int, floor: int, visited: int): int
    decreases |sky| - i
  {
    if i + 1 < |sky| && sky[i].x < x0 + w then
      var gap := sky[i+1].x - sky[i].x;
      if sky[i].y > floor then
        visited * (sky[i].y - floor)
        + Waste(sky, i + 1, x0, w, sky[i].y, visited + if sky[i].x < x0 then sky[i+1].x - x0 else gap)
      else
        var under := if gap + visited > w then w - visited else gap;
        under * (floor - sky[i].y) + Waste(sky, i + 1, x0, w, floor, visited + under)
    else 0
  }

  /** A place for something of width `w`: over the i-th segment, at `x`. */
  predicate Spot(sky: seq<Point>, width: int, w: int, i: int, x: int) {
    0 <= i < |sky| - 1 && sky[i].x <= x < sky[i+1].x && x + w <= width
  }

  function Rest(sky: seq<Point>, i: nat, x: int, w: int): int {
    Top(sky, i, x + w, 0)
  }

  function Lost(sky: seq<Point>, i: nat, x: int, w: int): int {
    Waste(sky, i, x, w, 0, 0)
  }

  /** Whatever the outline covers and reaches into the range of a spot ends below it. */
  lemma RestIsAbove(sky: seq<Point>, width: int, w: int, i: int, x: int, b: Box)
    requires Skyline(sky, width) && w > 0 && Spot(sky, width, w, i, x)
    requires Covers(sky, b) && 0 <= b.x && b.x + b.w <= width && b.w > 0
    requires b.x < x + w && x < b.x + b.w
    ensures b.y + b.h <= Rest(sky, i, x, w)
  {
    var p := if b.x < x then x else b.x;
    var k := SegmentOf(sky, width, i, p);
    TopIsMaximum(sky, i, x + w, 0);
    assert sky[k].y >= b.y + b.h;
  }

  // ---------------------------------------------------------------- packing one rectangle

  /** The first point from the i-th on that stays: its successor lies beyond `x1`. */
  function Stay(sky: seq<Point>, i: nat, x1: int): (j: nat)
    requires i < |sky|
    ensures i <= j < |sky|
    ensures j + 1 < |sky| ==> sky[j+1].x > x1
    ensures forall k | i < k <= j :: sky[k].x <= x1
    decreases |sky| - i
  {
    if i + 1 < |sky| && sky[i+1].x <= x1 then Stay(sky, i + 1, x1) else i
  }

  /** Where the points in front of the new one end. */
  function Cut(sky: seq<Point>, i: nat, x: int): nat
    requires i < |sky|
  {
    if sky[i].x < x then i + 1 else i
  }

  /** The outline after a box of width `w` with its top at `top` is put at `x`. */
  function Raised(sky: seq<Point>, i: nat, x: int, top: int, w: int): seq<Point>
    requires i + 1 < |sky|
  {
    var s := Cut(sky, i, x);
    var j := Stay(sky, s, x + w);
    var c := if sky[j].x < x + w then Point(x + w, sky[j].y) else sky[j];
    sky[..s] + [Point(x, top), c] + sky[j+1..]
  }

  /** What each point of the new outline is. */
  lemma RaisedAt(sky: seq<Point>, i: nat, x: int, top: int, w: int, k: nat)
    requires i + 1 < |sky| && k < |Raised(sky, i, x, top, w)|
    ensures var s := Cut(sky, i, x);
            var j := Stay(sky, s, x + w);
            var r := Raised(sky, i, x, top, w);
            && |r| == s + 2 + |sky| - j - 1
            && (k < s ==> r[k] == sky[k])
            && (k == s ==> r[k] == Point(x, top))
            && (k == s + 1 ==> r[k] == if sky[j].x < x + w then Point(x + w, sky[j].y) else sky[j])
            && (k > s + 1 ==> r[k] == sky[k - s - 1 + j])
  {
  }

  lemma RaisedLength(sky: seq<Point>, i: nat, x: int, top: int, w: int)
    requires i + 1 < |sky|
    ensures var s := Cut(sky, i, x);
            |Raised(sky, i, x, top, w)| == s + 2 + |sky| - Stay(sky, s, x + w) - 1
  {
  }

  /** Packing keeps the outline an outline. */
  lemma RaisedIsSkyline(sky: seq<Point>, width: int, i: nat, x: int, top: int, w: int)
    requires Skyline(sky, width) && w > 0 && Spot(sky, width, w, i, x) && top >= 0
    ensures Skyline(Raised(sky, i, x, top, w), width)
    ensures Raised(sky, i, x, top, w)[|Raised(sky, i, x, top, w)|-1] == sky[|sky|-1]
  {
    hide Stay;
    var r := Raised(sky, i, x, top, w);
    var s := Cut(sky, i, x);
    var j := Stay(sky, s, x + w);
    forall a, b | 0 <= a < b < |r| ensures r[a].x < r[b].x {
      RaisedAt(sky, i, x, top, w, a);
      RaisedAt(sky, i, x, top, w, b);
    }
    forall a | 0 <= a < |r| ensures r[a].y >= 0 {
      RaisedAt(sky, i, x, top, w, a);
    }
    RaisedAt(sky, i, x, top, w, 0);
    RaisedAt(sky, i, x, top, w, |r| - 1);
  }

  /** What was covered stays covered. */
  lemma RaisedCovers(sky: seq<Point>, width: int, i: nat, x: int, y: int, h: int, w: int, wide: int, b: Box)
    requires Skyline(sky, width) && 0 < w <= wide && Spot(sky, width, wide, i, x)
    requires x + wide >= Reach(sky, i, x, w)
    requires y == Rest(sky, i, x, wide) && h >= 0
    requires Covers(sky, b) && 0 <= b.x && b.x + b.w <= width && b.w > 0
    ensures Covers(Raised(sky, i, x, y + h, w), b)
  {
    hide Stay, Rest;
    var r := Raised(sky, i, x, y + h, w);
    var s := Cut(sky, i, x);
    var j := Stay(sky, s, x + w);
    forall k | 0 <= k < |r| - 1 && r[k].x < b.x + b.w && b.x < r[k+1].x ensures r[k].y >= b.y + b.h {
      RaisedAt(sky, i, x, y + h, w, k);
      RaisedAt(sky, i, x, y + h, w, k + 1);
      if k == s {
        RestIsAbove(sky, width, wide, i, x, b);
      }
    }
  }

  /** How far to the right the outline is raised: over the box, or on to the next point. */
  function Reach(sky: seq<Point>, i: nat, x: int, w: int): int
    requires i + 1 < |sky|
  {
    if sky[i].x < x && sky[i+1].x > x + w then sky[i+1].x else x + w
  }

  /** The new box is covered too. */
  lemma RaisedCoversNew(sky: seq<Point>, width: int, i: nat, x: int, top: int, w: int, h: int)
    requires Skyline(sky, width) && w > 0 && Spot(sky, width, w, i, x)
    ensures Covers(Raised(sky, i, x, top, w), Box(x, top - h, w, h))
  {
    hide Stay;
    var r := Raised(sky, i, x, top, w);
    var s := Cut(sky, i, x);
    var j := Stay(sky, s, x + w);
    forall k | 0 <= k < |r| - 1 && r[k].x < x + w && x < r[k+1].x ensures r[k].y >= top {
      RaisedAt(sky, i, x, top, w, k);
      RaisedAt(sky, i, x, top, w, k + 1);
    }
  }

  // ---------------------------------------------------------------- choosing a place

  datatype Heuristic = BottomLeft | BestFit

  /** Over the i-th segment, at `x`. */
  datatype Place = Place(i: nat, x: int)

  /** What is to be placed: quantized width and height, in a target of this size. */
  datatype Wanted = Wanted(heuristic: Heuristic, wide: int, h: int, width: int, height: int)

  predicate LeftAligned(sky: seq<Point>, q: Wanted, p: Place) {
    p.i < |sky| - 1 && p.x == sky[p.i].x && p.x + q.wide <= q.width
  }

  predicate RightAligned(sky: seq<Point>, q: Wanted, p: Place, t: nat) {
    Spot(sky, q.width, q.wide, p.i, p.x) && t < |sky| && sky[t].x == p.x + q.wide
  }

  predicate FitsBelow(sky: seq<Point>, q: Wanted, p: Place) {
    Rest(sky, p.i, p.x, q.wide) + q.h <= q.height
  }

  /** The places a heuristic looks at. */
  ghost predicate Option(sky: seq<Point>, q: Wanted, p: Place) {
    match q.heuristic
    case BottomLeft => LeftAligned(sky, q, p)
    case BestFit => FitsBelow(sky, q, p) && (LeftAligned(sky, q, p) || exists t :: RightAligned(sky, q, p, t))
  }

  /** Lower first; for best fit then less waste; then further to the left. */
  datatype Key = Key(y: int, waste: int, x: int)

  function KeyOf(sky: seq<Point>, q: Wanted, p: Place): Key {
    Key(Rest(sky, p.i, p.x, q.wide), if q.heuristic.BestFit? then Lost(sky, p.i, p.x, q.wide) else 0, p.x)
  }

  predicate Less(a: Key, b: Key) {
    a.y < b.y || (a.y == b.y && (a.waste < b.waste || (a.waste == b.waste && a.x < b.x)))
  }

  function Limit(q: Wanted): Key {
    Key(FAR, if q.heuristic.BestFit? then FAR else 0, 0)
  }

  /** The search so far: the best place, its height and waste. */
  datatype Lead = Lead(found: bool, p: Place, y: int, waste: int)

  const NoLead := Lead(false, Place(0, 0), FAR, FAR)

  function LeadKey(sky: seq<Point>, q: Wanted, l: Lead): Key {
    if l.found then KeyOf(sky, q, l.p) else Limit(q)
  }

  ghost predicate Leads(sky: seq<Point>, q: Wanted, l: Lead) {
    if l.found then
      && Option(sky, q, l.p) && Less(KeyOf(sky, q, l.p), Limit(q))
      && l.y == Rest(sky, l.p.i, l.p.x, q.wide)
      && (q.heuristic.BestFit? ==> l.waste == Lost(sky, l.p.i, l.p.x, q.wide))
    else l == NoLead
  }

  /** The left-aligned options over the first n segments, none better than the lead. */
  ghost predicate LeftDone(sky: seq<Point>, q: Wanted, l: Lead, n: int) {
    forall o | LeftAligned(sky, q, o) && o.i < n && Option(sky, q, o) ::
      !Less(KeyOf(sky, q, o), LeadKey(sky, q, l))
  }

  /** One more left-aligned place, and a lead at least as good as before and as that place. */
  lemma LeftStep(sky: seq<Point>, q: Wanted, l: Lead, next: Lead, n: nat)
    requires n < |sky| && LeftDone(sky, q, l, n) && !Less(LeadKey(sky, q, l), LeadKey(sky, q, next))
    requires Option(sky, q, Place(n, sky[n].x)) ==>
               !Less(KeyOf(sky, q, Place(n, sky[n].x)), LeadKey(sky, q, next))
    ensures LeftDone(sky, q, next, n + 1)
  {
    hide Rest, Lost, Option, KeyOf;
  }

  lemma LeftEnds(sky: seq<Point>, q: Wanted, l: Lead, n: nat)
    requires Skyline(sky, q.width) && n < |sky|
    ensures LeftDone(sky, q, l, 0)
    ensures LeftDone(sky, q, l, n) && sky[n].x + q.wide > q.width ==> LeftDone(sky, q, l, |sky|)
  {
    hide Option, KeyOf;
  }

  /** The best of the options, or none when no option is below the limit. */
  ghost predicate Best(sky: seq<Point>, q: Wanted, found: bool, p: Place) {
    && (found ==> Option(sky, q, p) && Less(KeyOf(sky, q, p), Limit(q)))
    && forall o | Option(sky, q, o) :: !Less(KeyOf(sky, q, o), if found then KeyOf(sky, q, p) else Limit(q))
  }

  /** The right-aligned options against the first t points, none better than the lead. */
  ghost predicate RightDone(sky: seq<Point>, q: Wanted, l: Lead, t: int) {
    forall o, u: nat | RightAligned(sky, q, o, u) && u < t && Option(sky, q, o) ::
      !Less(KeyOf(sky, q, o), LeadKey(sky, q, l))
  }

  lemma RightStep(sky: seq<Point>, q: Wanted, l: Lead, next: Lead, t: nat, n: nat)
    requires Skyline(sky, q.width) && t < |sky| && n < |sky| - 1 && q.wide > 0
    requires RightDone(sky, q, l, t) && !Less(LeadKey(sky, q, l), LeadKey(sky, q, next))
    requires sky[n].x <= sky[t].x - q.wide < sky[n+1].x
    requires var o := Place(n, sky[t].x - q.wide);
             Option(sky, q, o) ==> !Less(KeyOf(sky, q, o), LeadKey(sky, q, next))
    ensures RightDone(sky, q, next, t + 1)
  {
    hide Rest, Lost, Option, KeyOf;
    forall o, u: nat | RightAligned(sky, q, o, u) && u < t + 1 && Option(sky, q, o)
      ensures !Less(KeyOf(sky, q, o), LeadKey(sky, q, next))
    {
      if u == t {
        SegmentUnique(sky, q.width, o.i, n, o.x);
        assert o == Place(n, sky[t].x - q.wide);
      } else {
        assert !Less(KeyOf(sky, q, o), LeadKey(sky, q, l));
      }
    }
  }

  lemma LeftKeeps(sky: seq<Point>, q: Wanted, l: Lead, next: Lead)
    requires LeftDone(sky, q, l, |sky|) && !Less(LeadKey(sky, q, l), LeadKey(sky, q, next))
    ensures LeftDone(sky, q, next, |sky|)
  {
    hide Option, KeyOf;
  }

  /** Points too far to the left for anything to end there. */
  lemma RightStarts(sky: seq<Point>, q: Wanted, l: Lead, t: nat)
    requires Skyline(sky, q.width) && t <= |sky|
    requires forall k | 0 <= k < t :: sky[k].x < q.wide
    ensures RightDone(sky, q, l, t)
  {
    hide Option, KeyOf;
    forall o, u: nat | RightAligned(sky, q, o, u) ensures sky[u].x >= q.wide {
      assert sky[o.i].x >= sky[0].x;
    }
  }

  /** The lead after the position against the t-th point has been looked at. */
  function RightLead(q: Wanted, l: Lead, p: Place, y: int, waste: int): Lead {
    if y + q.h <= q.height && y <= l.y
       && (y < l.y || waste < l.waste || (waste == l.waste && p.x < if l.found then l.p.x else 0))
    then Lead(true, p, y, waste)
    else l
  }

  lemma RightLeads(sky: seq<Point>, q: Wanted, l: Lead, p: Place, t: nat)
    requires q.heuristic.BestFit? && Leads(sky, q, l) && RightAligned(sky, q, p, t) && p.x >= 0
    ensures var next := RightLead(q, l, p, Rest(sky, p.i, p.x, q.wide), Lost(sky, p.i, p.x, q.wide));
            && Leads(sky, q, next) && !Less(LeadKey(sky, q, l), LeadKey(sky, q, next))
            && (Option(sky, q, p) ==> !Less(KeyOf(sky, q, p), LeadKey(sky, q, next)))
  {
    hide Rest, Lost;
  }

  lemma SearchIsBest(sky: seq<Point>, q: Wanted, l: Lead)
    requires Leads(sky, q, l) && LeftDone(sky, q, l, |sky|)
    requires q.heuristic.BestFit? ==> RightDone(sky, q, l, |sky|)
    ensures Best(sky, q, l.found, l.p)
  {
    hide KeyOf, Rest, Lost, Less;
  }

  /** An option is a spot, and the outline is raised no further than the quantized width. */
  lemma OptionIsSpot(sky: seq<Point>, q: Wanted, p: Place, w: int)
    requires Skyline(sky, q.width) && Option(sky, q, p) && 0 < w <= q.wide
    ensures Spot(sky, q.width, q.wide, p.i, p.x) && Spot(sky, q.width, w, p.i, p.x)
    ensures p.x + q.wide >= Reach(sky, p.i, p.x, w)
  {
    if !LeftAligned(sky, q, p) {
      var t :| RightAligned(sky, q, p, t);
      Ordered(sky, q.width, p.i, t);
    }
  }

  lemma Ordered(sky: seq<Point>, width: int, i: nat, t: nat)
    requires Skyline(sky, width) && i + 1 < |sky| && t < |sky| && sky[i].x < sky[t].x
    ensures sky[i+1].x <= sky[t].x
  {
  }

  lemma SegmentUnique(sky: seq<Point>, width: int, a: int, b: int, x: int)
    requires Skyline(sky, width) && 0 <= a < |sky| - 1 && 0 <= b < |sky| - 1
    requires sky[a].x <= x < sky[a+1].x && sky[b].x <= x < sky[b+1].x
    ensures a == b
  {
  }

  // ---------------------------------------------------------------- what has been packed

  /** All boxes lie in the target, apart from each other and below the outline. */
  ghost predicate Packed(sky: seq<Point>, boxes: seq<Box>, width: int, height: int) {
    && (forall a | 0 <= a < |boxes| ::
          boxes[a].w > 0 && boxes[a].h > 0 && Inside(boxes[a], width, height) && Covers(sky, boxes[a]))
    && forall a, b | 0 <= a < b < |boxes| :: Apart(boxes[a], boxes[b])
  }

  /** Packing at an option that fits keeps all that. */
  lemma PackingIsSound(sky: seq<Point>, boxes: seq<Box>, q: Wanted, p: Place, w: int)
    requires Skyline(sky, q.width) && Packed(sky, boxes, q.width, q.height)
    requires Option(sky, q, p) && FitsBelow(sky, q, p) && 0 < w <= q.wide && q.h > 0
    ensures var y := Rest(sky, p.i, p.x, q.wide);
            var r := Raised(sky, p.i, p.x, y + q.h, w);
            && y >= 0
            && Skyline(r, q.width) && r[|r|-1] == sky[|sky|-1]
            && Packed(r, boxes + [Box(p.x, y, w, q.h)], q.width, q.height)
  {
    hide Raised, Reach, Covers, Option;
    OptionIsSpot(sky, q, p, w);
    var y := Rest(sky, p.i, p.x, q.wide);
    var r := Raised(sky, p.i, p.x, y + q.h, w);
    var box := Box(p.x, y, w, q.h);
    TopIsMaximum(sky, p.i, p.x + q.wide, 0);
    RaisedIsSkyline(sky, q.width, p.i, p.x, y + q.h, w);
    RaisedCoversNew(sky, q.width, p.i, p.x, y + q.h, w, q.h);
    forall a | 0 <= a < |boxes| ensures Covers(r, boxes[a]) && Apart(boxes[a], box) {
      RaisedCovers(sky, q.width, p.i, p.x, y, q.h, w, q.wide, boxes[a]);
      if boxes[a].x < p.x + q.wide && p.x < boxes[a].x + boxes[a].w {
        RestIsAbove(sky, q.width, q.wide, p.i, p.x, boxes[a]);
      }
    }
  }

  // ---------------------------------------------------------------- what waste measures

  function Min(a: int, b: int): int { if a < b then a else b }
  function Max(a: int, b: int): int { if a > b then a else b }

  /** The area between the outline and the height `y` from x0 to x1, from the i-th point on. */
  function Under(sky: seq<Point>, i: nat, x0: int, x1: int, y: int): int
    decreases |sky| - i
  {
    if i + 1 < |sky| && sky[i].x < x1 then
      (Min(sky[i+1].x, x1) - Max(sky[i].x, x0)) * (y - sky[i].y) + Under(sky, i + 1, x0, x1, y)
    else 0
  }

  lemma {:induction false} WasteFrom(sky: seq<Point>, width: int, k: nat, x0: int, w: int, floor: int, visited: int)
    requires Skyline(sky, width) && k < |sky| && x0 <= sky[k].x && x0 + w <= width
    requires sky[k].x < x0 + w ==> visited == sky[k].x - x0
    ensures var y := Top(sky, k, x0 + w, floor);
            Waste(sky, k, x0, w, floor, visited) == visited * (y - floor) + Under(sky, k, x0, x0 + w, y)
    decreases |sky| - k
  {
    var x1 := x0 + w;
    var y := Top(sky, k, x1, floor);
    if k + 1 < |sky| && sky[k].x < x1 {
      hide Skyline;
      NextPoint(sky, width, k);
      var gap, next := sky[k+1].x - sky[k].x, sky[k+1].x;
      var h := sky[k].y;
      if h > floor {
        WasteFrom(sky, width, k + 1, x0, w, h, visited + gap);
        Spread(visited, gap, y, h, floor);
      } else {
        var under := Min(next, x1) - sky[k].x;
        WasteFrom(sky, width, k + 1, x0, w, floor, visited + under);
        Spread(visited, under, y, floor, h);
      }
      if next >= x1 { TopBeyond(sky, k + 1, x1, Max(h, floor)); }
    }
  }

  lemma NextPoint(sky: seq<Point>, width: int, k: nat)
    requires Skyline(sky, width) && k + 1 < |sky|
    ensures sky[k].x < sky[k+1].x
  {
  }

  lemma TopBeyond(sky: seq<Point>, i: nat, x1: int, floor: int)
    requires i < |sky| && sky[i].x >= x1
    ensures Top(sky, i, x1, floor) == floor
  {
  }

  lemma Spread(v: int, g: int, y: int, a: int, b: int)
    ensures v * (a - b) + (v + g) * (y - a) == v * (y - b) + g * (y - a)
    ensures g * (a - b) + (v + g) * (y - a) == v * (y - a) + g * (y - b)
  {
  }

  /**
    The waste of a place is the area lost below it, when it starts at a node or over a
    segment above the floor of the target.
    */
  lemma WasteIsArea(sky: seq<Point>, width: int, w: int, i: nat, x: int)
    requires Skyline(sky, width) && w > 0 && Spot(sky, width, w, i, x)
    requires sky[i].x == x || sky[i].y > 0
    ensures Lost(sky, i, x, w) == Under(sky, i, x, x + w, Rest(sky, i, x, w))
  {
    if sky[i].x == x {
      WasteFrom(sky, width, i, x, w, 0, 0);
    } else {
      var next := sky[i+1].x;
      WasteFrom(sky, width, i + 1, x, w, sky[i].y, next - x);
    }
  }

  /**
    What a right-aligned place is charged beyond that: its first segment is visited with all
    its width, also the part left of the place.  The excess `e` is charged at the height of
    the segment where the count of visited width is cut back, or else up to the top.
    */
  function Surplus(sky: seq<Point>, k: nat, x0: int, w: int, floor: int, e: int): int
    decreases |sky| - k
  {
    if k + 1 < |sky| && sky[k].x < x0 + w then
      if sky[k].y > floor then Surplus(sky, k + 1, x0, w, sky[k].y, e)
      else
        var clip := Max(0, sky[k+1].x - x0 + e - w);
        clip * sky[k].y + Surplus(sky, k + 1, x0, w, floor, e - clip)
    else e * floor
  }

  lemma {:induction false} SurplusFrom(sky: seq<Point>, width: int, k: nat, t: nat, x0: int, w: int, floor: int,
                                       e: int)
    requires Skyline(sky, width) && k <= t < |sky| && sky[t].x == x0 + w && x0 <= sky[k].x && e >= 0 && floor >= 0
    ensures var y, u := Top(sky, k, x0 + w, floor), sky[k].x - x0;
            Waste(sky, k, x0, w, floor, u + e)
            == u * (y - floor) + Under(sky, k, x0, x0 + w, y) + Surplus(sky, k, x0, w, floor, e) - e * floor
    ensures Surplus(sky, k, x0, w, floor, e) >= 0
    decreases t - k
  {
    hide Skyline, Top, Waste, Under, Surplus;
    if k == t {
      AtTheEnd(sky, k, x0, w, floor, e);
    } else {
      Inner(sky, width, k, t);
      var u, y, gap, h := sky[k].x - x0, Top(sky, k, x0 + w, floor), sky[k+1].x - sky[k].x, sky[k].y;
      if h > floor {
        SurplusFrom(sky, width, k + 1, t, x0, w, h, e);
        RaiseStep(sky, k, x0, w, floor, e, y);
        RaiseSum(u, e, gap, y, h, floor);
      } else {
        var clip := Max(0, sky[k+1].x - x0 + e - w);
        SurplusFrom(sky, width, k + 1, t, x0, w, floor, e - clip);
        LevelStep(sky, k, x0, w, floor, e, y);
        Clipped(u, gap, e, clip, y, floor, h);
        assert clip * h >= 0;
      }
    }
  }

  lemma AtTheEnd(sky: seq<Point>, k: nat, x0: int, w: int, floor: int, e: int)
    requires k < |sky| && sky[k].x == x0 + w && e >= 0 && floor >= 0
    ensures Top(sky, k, x0 + w, floor) == floor && Waste(sky, k, x0, w, floor, w + e) == 0
    ensures Under(sky, k, x0, x0 + w, floor) == 0
    ensures Surplus(sky, k, x0, w, floor, e) == e * floor >= 0
  {
  }

  lemma Inner(sky: seq<Point>, width: int, k: nat, t: nat)
    requires Skyline(sky, width) && k < t < |sky|
    ensures sky[k].x < sky[k+1].x <= sky[t].x && sky[k].y >= 0
  {
  }

  /** One segment that raises the floor. */
  lemma RaiseStep(sky: seq<Point>, k: nat, x0: int, w: int, floor: int, e: int, y: int)
    requires k + 1 < |sky| && x0 <= sky[k].x < sky[k+1].x <= x0 + w && sky[k].y > floor
    ensures var u, h, gap := sky[k].x - x0, sky[k].y, sky[k+1].x - sky[k].x;
            && Top(sky, k, x0 + w, floor) == Top(sky, k + 1, x0 + w, h)
            && Waste(sky, k, x0, w, floor, u + e)
               == (u + e) * (h - floor) + Waste(sky, k + 1, x0, w, h, u + gap + e)
            && Under(sky, k, x0, x0 + w, y) == gap * (y - h) + Under(sky, k + 1, x0, x0 + w, y)
            && Surplus(sky, k, x0, w, floor, e) == Surplus(sky, k + 1, x0, w, h, e)
  {
  }

  /** One segment below the floor. */
  lemma LevelStep(sky: seq<Point>, k: nat, x0: int, w: int, floor: int, e: int, y: int)
    requires k + 1 < |sky| && x0 <= sky[k].x < sky[k+1].x <= x0 + w && sky[k].y <= floor
    ensures var u, h, gap, clip := sky[k].x - x0, sky[k].y, sky[k+1].x - sky[k].x, Max(0, sky[k+1].x - x0 + e - w);
            && Top(sky, k, x0 + w, floor) == Top(sky, k + 1, x0 + w, floor)
            && Waste(sky, k, x0, w, floor, u + e)
               == (gap - clip) * (floor - h) + Waste(sky, k + 1, x0, w, floor, u + gap + (e - clip))
            && Under(sky, k, x0, x0 + w, y) == gap * (y - h) + Under(sky, k + 1, x0, x0 + w, y)
            && Surplus(sky, k, x0, w, floor, e) == clip * h + Surplus(sky, k + 1, x0, w, floor, e - clip)
  {
  }

  lemma RaiseSum(u: int, e: int, gap: int, y: int, h: int, floor: int)
    ensures (u + e) * (h - floor) + (u + gap) * (y - h) - e * h == u * (y - floor) + gap * (y - h) - e * floor
  {
  }

  lemma Clipped(u: int, gap: int, e: int, clip: int, y: int, floor: int, h: int)
    ensures (gap - clip) * (floor - h) + (u + gap) * (y - floor) - (e - clip) * floor
            == u * (y - floor) + gap * (y - h) + clip * h - e * floor
  {
  }

  /** A right-aligned place is never charged too little, and too much by exactly the surplus. */
  lemma WasteWithSurplus(sky: seq<Point>, width: int, w: int, i: nat, x: int, t: nat)
    requires Skyline(sky, width) && w > 0 && Spot(sky, width, w, i, x)
    requires t < |sky| && sky[t].x == x + w && sky[i].y == 0
    ensures i < t && sky[i+1].x <= x + w
    ensures var e := Min(sky[i+1].x - sky[i].x, w) - (sky[i+1].x - x);
            && Lost(sky, i, x, w) == Under(sky, i, x, x + w, Rest(sky, i, x, w)) + Surplus(sky, i + 1, x, w, 0, e)
            && Surplus(sky, i + 1, x, w, 0, e) >= 0
  {
    Ordered(sky, width, i, t);
    assert i < t;
    var e := Min(sky[i+1].x - sky[i].x, w) - (sky[i+1].x - x);
    SurplusFrom(sky, width, i + 1, t, x, w, 0, e);
  }

  /** Right-aligned places over the bare floor are charged for floor to their left as well. */
  lemma WasteOvercounts()
    ensures var sky := [Point(0, 0), Point(4, 1), Point(5, FAR)];
            && Skyline(sky, 5) && Spot(sky, 5, 2, 0, 3)
            && Lost(sky, 0, 3, 2) == 2 && Under(sky, 0, 3, 5, Rest(sky, 0, 3, 2)) == 1
  {
    var sky := [Point(0, 0), Point(4, 1), Point(5, FAR)];
    assert Top(sky, 2, 5, 1) == 1 && Top(sky, 1, 5, 0) == 1;
    assert Waste(sky, 2, 3, 2, 1, 3) == 0 && Waste(sky, 1, 3, 2, 0, 2) == 2;
    assert Under(sky, 2, 3, 5, 1) == 0 && Under(sky, 1, 3, 5, 1) == 0;
  }
}
