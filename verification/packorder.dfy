/**
  One rectangle after the other.

  What becomes of a rectangle when its turn comes is settled by the outline it finds: it goes to
  the best place there is, or, if there is none below the top or no node is left, nowhere.  A
  sequence of rectangles follows a sequence of outlines.
  */
module PackOrder {
  import opened NodeSupply
  import opened Skylines
  import opened RectSort

  /** A target as it is when packing begins; `num` are the nodes besides the two built in. */
  datatype Setting = Setting(heuristic: Heuristic, align: int, width: int, height: int, num: nat) {
    predicate Valid() {
      align > 0 && 0 < width <= MAXVAL
    }

    function Wants(r: Rect): Wanted
      requires Valid()
    {
      Wanted(heuristic, Quantized(r.w, align), r.h, width, height)
    }
  }

  /** `p` is the best place for the rectangle, it is not too high, and a node is left for it. */
  ghost predicate Fits(s: Setting, sky: seq<Point>, r: Rect, p: Place)
    requires s.Valid()
  {
    var q := s.Wants(r);
    q.wide <= s.width && r.h <= s.height && |sky| < s.num + 2 && Best(sky, q, true, p) && FitsBelow(sky, q, p)
  }

  /** The rectangle was put at `p`, and the outline is raised over it. */
  ghost predicate Put(s: Setting, sky: seq<Point>, r: Rect, p: Place, next: seq<Point>)
    requires s.Valid()
  {
    && r.x == p.x && r.y == Rest(sky, p.i, p.x, s.Wants(r).wide)
    && p.i + 1 < |sky| && next == Raised(sky, p.i, p.x, r.y + r.h, r.w)
  }

  /** The turn of a rectangle: an empty one takes no room, another is put if and only if it fits. */
  ghost predicate Turn(s: Setting, sky: seq<Point>, r: Rect, next: seq<Point>)
    requires s.Valid()
  {
    if r.Empty() then r.x == 0 && r.y == 0 && next == sky
    else if exists p :: Fits(s, sky, r, p) then exists p :: Fits(s, sky, r, p) && Put(s, sky, r, p, next)
    else r.x == MAXVAL && r.y == MAXVAL && next == sky
  }

  /** The rectangles take their turns in this order, with these outlines in between. */
  ghost predicate Follows(s: Setting, rs: seq<Rect>, skies: seq<seq<Point>>)
    requires s.Valid()
  {
    |skies| == |rs| + 1 && forall k | 0 <= k < |rs| :: Turn(s, skies[k], rs[k], skies[k+1])
  }

  /** Higher rectangles come first, and of the same height wider ones. */
  ghost predicate TallestFirst(rs: seq<Rect>) {
    forall i, j | 0 <= i < j < |rs| :: rs[i].h > rs[j].h || (rs[i].h == rs[j].h && rs[i].w >= rs[j].w)
  }

  /** `order` are the rectangles `rs`, each once, with their indices in the flag. */
  ghost predicate Reorders(order: seq<Rect>, rs: seq<Rect>) {
    && |order| == |rs| && Tagged(order)
    && forall k | 0 <= k < |order| :: order[k] == rs[order[k].packed].(packed := order[k].packed)
  }

  lemma NothingFollows(s: Setting, sky: seq<Point>)
    requires s.Valid()
    ensures Follows(s, [], [sky])
  {
  }

  lemma OneMoreTurn(s: Setting, rs: seq<Rect>, skies: seq<seq<Point>>, r: Rect, next: seq<Point>)
    requires s.Valid() && Follows(s, rs, skies) && Turn(s, skies[|rs|], r, next)
    ensures Follows(s, rs + [r], skies + [next])
  {
    hide Turn;
    var all, ss := rs + [r], skies + [next];
    forall k | 0 <= k < |all| ensures Turn(s, ss[k], all[k], ss[k+1]) {
      if k < |rs| { assert all[k] == rs[k] && ss[k] == skies[k] && ss[k+1] == skies[k+1]; }
    }
  }

  /** What is known of one packed or not, told as its turn. */
  lemma TurnTaken(s: Setting, sky: seq<Point>, r: Rect, found: bool, spare: bool, p: Place, next: seq<Point>)
    requires s.Valid() && !r.Empty() && Skyline(sky, s.width) && (spare <==> |sky| < s.num + 2)
    requires var q := s.Wants(r);
             if found then
               && spare && q.wide <= s.width && r.h <= s.height
               && Best(sky, q, true, p) && FitsBelow(sky, q, p) && Put(s, sky, r, p, next)
             else
               && r.x == MAXVAL && r.y == MAXVAL && next == sky
               && (!spare || q.wide > s.width || r.h > s.height || Best(sky, q, false, p)
                   || (Best(sky, q, true, p) && !FitsBelow(sky, q, p)))
    ensures Turn(s, sky, r, next)
  {
    hide Best, Rest, Raised, FitsBelow;
    var q := s.Wants(r);
    if found {
      assert Fits(s, sky, r, p);
    } else {
      forall o ensures !Fits(s, sky, r, o) {
        if Fits(s, sky, r, o) {
          QuantizedIs(r.w, s.align);
          NoneBest(sky, q, p, o);
          if Best(sky, q, true, p) { BestUnique(sky, q, p, o); }
        }
      }
    }
  }

  lemma NoneBest(sky: seq<Point>, q: Wanted, p: Place, o: Place)
    requires Best(sky, q, true, o)
    ensures !Best(sky, q, false, p)
  {
    hide Rest, Lost, Option;
  }

  // ---------------------------------------------------------------- the best place

  /** The place is one the packer looks at: at a point of the outline, or up against one. */
  ghost predicate Offered(sky: seq<Point>, q: Wanted, p: Place) {
    && p.i < |sky| - 1 && sky[p.i].x <= p.x < sky[p.i+1].x && p.x + q.wide <= q.width
    && (p.x == sky[p.i].x
        || (q.heuristic == BestFit && exists t | 0 <= t < |sky| :: sky[t].x == p.x + q.wide))
    && (q.heuristic == BestFit ==> Rest(sky, p.i, p.x, q.wide) + q.h <= q.height)
  }

  /** Lower, or as low and, for best fit, with less waste, or equal in all that and not further right. */
  predicate AsGood(sky: seq<Point>, q: Wanted, p: Place, o: Place) {
    var y, z := Rest(sky, p.i, p.x, q.wide), Rest(sky, o.i, o.x, q.wide);
    var a, b := Lost(sky, p.i, p.x, q.wide), Lost(sky, o.i, o.x, q.wide);
    y < z || (y == z && (if q.heuristic == BestFit then a < b || (a == b && p.x <= o.x) else p.x <= o.x))
  }

  lemma OfferedIs(sky: seq<Point>, q: Wanted, p: Place)
    requires Skyline(sky, q.width) && q.wide > 0
    ensures Option(sky, q, p) <==> Offered(sky, q, p)
  {
    hide Rest;
    if LeftAligned(sky, q, p) { NextPoint(sky, q.width, p.i); }
    if exists t | 0 <= t < |sky| :: sky[t].x == p.x + q.wide {
      var t: nat :| t < |sky| && sky[t].x == p.x + q.wide;
      assert Spot(sky, q.width, q.wide, p.i, p.x) ==> RightAligned(sky, q, p, t);
    }
  }

  /** The best place is an offered one as good as any other, and below 2^30. */
  lemma BestIs(sky: seq<Point>, q: Wanted, p: Place)
    requires Skyline(sky, q.width) && q.wide > 0
    ensures Best(sky, q, true, p) ==>
              && Offered(sky, q, p) && Rest(sky, p.i, p.x, q.wide) <= 0x4000_0000
              && forall o: Place | Offered(sky, q, o) :: AsGood(sky, q, p, o)
    ensures Offered(sky, q, p) && Rest(sky, p.i, p.x, q.wide) < 0x4000_0000
            && (forall o: Place | Offered(sky, q, o) :: AsGood(sky, q, p, o)) ==>
              Best(sky, q, true, p)
  {
    hide Rest, Lost, Option, Offered;
    OfferedIs(sky, q, p);
    forall o: Place ensures Option(sky, q, o) <==> Offered(sky, q, o) { OfferedIs(sky, q, o); }
  }

  // ---------------------------------------------------------------- one turn has one outcome

  /** Two best places are the same. */
  lemma BestUnique(sky: seq<Point>, q: Wanted, a: Place, b: Place)
    requires Skyline(sky, q.width) && q.wide > 0 && Best(sky, q, true, a) && Best(sky, q, true, b)
    ensures a == b
  {
    hide Rest, Lost, Option;
    OptionIsSpot(sky, q, a, q.wide);
    OptionIsSpot(sky, q, b, q.wide);
    assert !Less(KeyOf(sky, q, a), KeyOf(sky, q, b)) && !Less(KeyOf(sky, q, b), KeyOf(sky, q, a));
    SegmentUnique(sky, q.width, a.i, b.i, a.x);
  }

  /** The outline and the size of a rectangle decide its turn. */
  lemma TurnUnique(s: Setting, sky: seq<Point>, r: Rect, next: seq<Point>, t: Rect, other: seq<Point>)
    requires s.Valid() && Skyline(sky, s.width) && r.w == t.w && r.h == t.h
    requires Turn(s, sky, r, next) && Turn(s, sky, t, other)
    ensures r.x == t.x && r.y == t.y && next == other
  {
    hide Best, FitsBelow, Rest, Raised;
    assert s.Wants(r) == s.Wants(t);
    assert forall p :: Fits(s, sky, r, p) <==> Fits(s, sky, t, p);
    if !r.Empty() && exists p :: Fits(s, sky, r, p) {
      var p :| Fits(s, sky, r, p) && Put(s, sky, r, p, next);
      var o :| Fits(s, sky, t, o) && Put(s, sky, t, o, other);
      QuantizedIs(r.w, s.align);
      BestUnique(sky, s.Wants(r), p, o);
    }
  }

  /** So the sizes, in the order of packing, decide where everything goes. */
  lemma {:induction false} OutcomeDecided(s: Setting, rs: seq<Rect>, ts: seq<Rect>, skies: seq<seq<Point>>,
                                          others: seq<seq<Point>>, k: nat)
    requires s.Valid() && Follows(s, rs, skies) && Follows(s, ts, others) && skies[0] == others[0]
    requires |rs| == |ts| && forall i | 0 <= i < |rs| :: rs[i].w == ts[i].w && rs[i].h == ts[i].h
    requires Skyline(skies[0], s.width) && k <= |rs|
    ensures Skyline(skies[k], s.width) && skies[k] == others[k]
    ensures forall i | 0 <= i < k :: rs[i].x == ts[i].x && rs[i].y == ts[i].y
  {
    hide Turn;
    if k > 0 {
      OutcomeDecided(s, rs, ts, skies, others, k - 1);
      TurnUnique(s, skies[k-1], rs[k-1], skies[k], ts[k-1], others[k]);
      TurnKeeps(s, skies[k-1], rs[k-1], skies[k]);
    }
  }

  lemma TurnKeeps(s: Setting, sky: seq<Point>, r: Rect, next: seq<Point>)
    requires s.Valid() && Skyline(sky, s.width) && Turn(s, sky, r, next)
    ensures Skyline(next, s.width)
  {
    hide Best, FitsBelow, Rest, Raised, Option;
    if !r.Empty() && exists p :: Fits(s, sky, r, p) {
      var p :| Fits(s, sky, r, p) && Put(s, sky, r, p, next);
      QuantizedIs(r.w, s.align);
      BestOption(sky, s.Wants(r), p);
      OptionIsSpot(sky, s.Wants(r), p, r.w);
      RestNotNegative(sky, p.i, p.x, s.Wants(r).wide);
      RaisedIsSkyline(sky, s.width, p.i, p.x, r.y + r.h, r.w);
    }
  }

  lemma BestOption(sky: seq<Point>, q: Wanted, p: Place)
    requires Best(sky, q, true, p)
    ensures Option(sky, q, p)
  {
  }

  // ---------------------------------------------------------------- a rectangle that must be placed

  /**
    On the bare floor of a target with a node to spare, a rectangle whose quantized width and
    whose height are within the target's is packed, and into the corner.
    */
  lemma FirstIsPacked(s: Setting, r: Rect, next: seq<Point>)
    requires s.Valid() && s.num > 0 && !r.Empty() && Turn(s, Bare(s.width), r, next)
    requires Quantized(r.w, s.align) <= s.width && r.h <= s.height
    ensures r.x == 0 && r.y == 0 && next == Raised(Bare(s.width), 0, 0, r.h, r.w)
  {
    hide Rest, Lost, Raised;
    var sky, q, o := Bare(s.width), s.Wants(r), Place(0, 0);
    QuantizedIs(r.w, s.align);
    OnFloor(sky, 0, 0, q.wide);
    assert Skyline(sky, s.width);
    forall p | Option(sky, q, p) ensures !Less(KeyOf(sky, q, p), KeyOf(sky, q, o)) {
      OptionIsSpot(sky, q, p, q.wide);
      OnFloor(sky, 0, p.x, q.wide);
    }
    assert Best(sky, q, true, o) && Fits(s, sky, r, o);
    var p :| Fits(s, sky, r, p) && Put(s, sky, r, p, next);
    BestUnique(sky, q, p, o);
  }
}
