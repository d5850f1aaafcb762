/**
  The skyline rectangle packer, on linked nodes changed in place.

  The outline is a list of nodes from the left edge of the target to a sentinel at its right
  edge; nodes that drop out of it go to a free list.  `sky` is the outline as a value and
  `boxes` is everything packed since the target was set up; `Valid` ties both to the nodes.
  */
module RectPack {
  import opened NodeSupply
  import opened PackOrder
  import opened Skylines
  import opened RectSort
  import W = Wire

  class Node {
    var x: int
    var y: int
    var next: Node?

    constructor (x: int, y: int)
      ensures this.x == x && this.y == y && next == null
    {
      this.x, this.y, next := x, y, null;
    }
  }

  /** A position found: the node whose link leads to the segment under it, null for the head. */
  datatype FindResult = FindResult(found: bool, link: Node?, x: int, y: int, waste: int)

  /** The nodes of `ns` are linked in this order, and the last one ends the list. */
  ghost predicate Linked(ns: seq<Node>, head: Node?)
    reads ns
  {
    && head == (if ns == [] then null else ns[0])
    && forall k {:trigger ns[k].next} | 0 <= k < |ns| :: ns[k].next == if k + 1 < |ns| then ns[k+1] else null
  }

  ghost predicate Distinct(ns: seq<Node>) {
    forall a, b | 0 <= a < b < |ns| :: ns[a] != ns[b]
  }

  ghost predicate Shows(ns: seq<Node>, sky: seq<Point>)
    reads ns
  {
    |ns| == |sky| && forall k | 0 <= k < |ns| :: ns[k].x == sky[k].x && ns[k].y == sky[k].y
  }

  class Context {
    const width: int
    const height: int
    var align: int
    var heuristic: Heuristic
    const numNodes: nat
    var activeHead: Node?
    var freeHead: Node?
    ghost const repr: set<Node>
    ghost var active: seq<Node>
    ghost var free: seq<Node>
    ghost var sky: seq<Point>
    ghost var boxes: seq<Box>

    /** The two lists share no node and lose none. */
    ghost predicate Lists()
      reads `activeHead, `freeHead, `active, `free, repr
    {
      && (forall n | n in active :: n in repr) && (forall n | n in free :: n in repr)
      && Linked(active, activeHead) && Linked(free, freeHead)
      && Distinct(active) && Distinct(free) && Separate(active, 0, free)
      && |active| + |free| == numNodes + 2
    }

    ghost predicate Valid()
      reads this, repr
    {
      && Lists() && Shows(active, sky)
      && 0 < width <= MAXVAL && numNodes > 0 && align > 0
      && Skyline(sky, width) && sky[|sky|-1].y == FAR
      && Packed(sky, boxes, width, height)
    }

    /** Quantizes widths so that few nodes suffice, unless running out of them is allowed. */
    method SetupAllowOutOfMem(allow: bool)
      requires numNodes > 0 && width > 0
      modifies this`align
      ensures align > 0
      ensures if allow then align == 1 else numNodes * align >= width && numNodes * (align - 1) < width
    {
      align := if allow then 1 else (width + numNodes - 1) / numNodes;
    }

    constructor (width: int, height: int, nodes: array<Node>)
      requires 0 < width <= MAXVAL && nodes.Length > 0 && Distinct(nodes[..])
      modifies nodes[..]
      ensures Valid() && this.width == width && this.height == height && numNodes == nodes.Length
      ensures sky == [Point(0, 0), Point(width, FAR)] && boxes == [] && heuristic == BottomLeft
      ensures numNodes * align >= width && numNodes * (align - 1) < width
      ensures fresh(repr - set n | n in nodes[..])
    {
      hide Distinct, Separate, Linked, Skyline, Packed, Shows;
      LinkAll(nodes);
      var first := new Node(0, 0);
      var sentinel := new Node(width, FAR);
      first.next := sentinel;
      this.width, this.height, numNodes := width, height, nodes.Length;
      heuristic := BottomLeft;
      activeHead, freeHead := first, nodes[0];
      active, free := [first, sentinel], nodes[..];
      repr := (set n | n in nodes[..]) + {first, sentinel};
      sky, boxes := [Point(0, 0), Point(width, FAR)], [];
      new;
      SetupAllowOutOfMem(false);
      TwoLinked(first, sentinel);
      DistinctFresh(first, sentinel, nodes[..]);
      EmptyOutline(width, height, first, sentinel);
    }

    method SetupHeuristic(h: Heuristic)
      modifies this`heuristic
      ensures heuristic == h
    {
      heuristic := h;
    }

    /** How high something of width `w` at `x0` has to lie, and the area lost below it. */
    method FindMinY(first: Node, ghost i: nat, x0: int, w: int) returns (minY: int, waste: int)
      requires Valid() && i < |active| && first == active[i] && first.x <= x0 && x0 + w <= width
      ensures minY == Rest(sky, i, x0, w) && waste == Lost(sky, i, x0, w)
    {
      hide Packed, Distinct;
      var node := first;
      ghost var k := i;
      var visited := 0;
      minY, waste := 0, 0;
      while node.x < x0 + w
        invariant i <= k < |active| && node == active[k]
        invariant Top(sky, i, x0 + w, 0) == Top(sky, k, x0 + w, minY)
        invariant waste + Waste(sky, k, x0, w, minY, visited) == Waste(sky, i, x0, w, 0, 0)
        decreases |active| - k
      {
        assert k + 1 < |active| && node.next == active[k+1];
        if node.y > minY {
          waste := waste + visited * (node.y - minY);
          minY := node.y;
          if node.x < x0 {
            visited := visited + (node.next.x - x0);
          } else {
            visited := visited + (node.next.x - node.x);
          }
        } else {
          var under := node.next.x - node.x;
          if under + visited > w {
            under := w - visited;
          }
          waste := waste + under * (minY - node.y);
          visited := visited + under;
        }
        node := node.next;
        k := k + 1;
      }
    }

    lemma Head()
      requires Valid()
      ensures |active| == |sky| >= 2 && activeHead == active[0] && active[0].x == sky[0].x == 0
    {
      hide Packed, Distinct;
    }

    /** The k-th node of the outline. */
    lemma Here(k: nat)
      requires Valid() && k < |active|
      ensures |active| == |sky| && active[k].x == sky[k].x && active[k].y == sky[k].y
      ensures active[k].next == if k + 1 < |active| then active[k+1] else null
      ensures 0 <= sky[k].x <= width
    {
      hide Packed, Distinct;
      assert 0 < k ==> sky[0].x < sky[k].x;
      assert k < |sky| - 1 ==> sky[k].x < sky[|sky|-1].x;
    }

    /** The node whose link leads to the i-th node of the outline; null is the head's. */
    ghost function Before(i: int): Node?
      reads this
    {
      if 0 < i <= |active| then active[i-1] else null
    }

    /** What the link of a node, or of the head, leads to. */
    function Follow(link: Node?): Node?
      reads this, link
    {
      if link == null then activeHead else link.next
    }

    /** The search as the code keeps it, and as the outline sees it. */
    ghost predicate Shown(best: FindResult, l: Lead)
      reads this
    {
      && best.found == l.found && best.y == l.y && best.waste == l.waste
      && if best.found then best.x == l.p.x && best.link == Before(l.p.i) else best.x == 0
    }

    /** The first pass of the search: every node's own position. */
    method ScanLeft(ghost q: Wanted, wide: int, h: int) returns (best: FindResult, ghost l: Lead)
      requires Valid() && q == Wanted(heuristic, wide, h, width, height) && wide > 0
      ensures Leads(sky, q, l) && LeftDone(sky, q, l, |sky|) && Shown(best, l)
    {
      hide Packed, Distinct, Rest, Lost, LeftDone;
      best, l := FindResult(false, null, 0, FAR, FAR), NoLead;
      var node, prev: Node? := activeHead, null;
      ghost var n := 0;
      LeftEnds(sky, q, l, 0);
      while node.x + wide <= width
        invariant n < |active| && node == active[n] && prev == Before(n)
        invariant Leads(sky, q, l) && LeftDone(sky, q, l, n) && Shown(best, l)
        invariant heuristic == BottomLeft ==> best.waste == FAR
        invariant best.found ==> l.p.i < n
        decreases |active| - n
      {
        var y, waste := FindMinY(node, n, node.x, wide);
        ghost var was := l;
        if heuristic == BottomLeft {
          if y < best.y {
            best := FindResult(true, prev, node.x, y, FAR);
            l := Lead(true, Place(n, node.x), y, FAR);
          }
        } else if y + h <= height {
          if y < best.y || (y == best.y && waste < best.waste) {
            best := FindResult(true, prev, node.x, y, waste);
            l := Lead(true, Place(n, node.x), y, waste);
          }
        }
        LeftStep(sky, q, was, l, n);
        prev := node;
        node := node.next;
        n := n + 1;
      }
      LeftEnds(sky, q, l, n);
    }

    /** The first node with enough room to its left. */
    method FirstEnd(wide: int) returns (tail: Node, ghost t: nat)
      requires Valid() && wide <= width
      ensures t < |active| && tail == active[t] && tail.x >= wide
      ensures forall k | 0 <= k < t :: sky[k].x < wide
    {
      hide Packed, Distinct;
      tail, t := activeHead, 0;
      while tail.x < wide
        invariant t < |active| && tail == active[t]
        invariant forall k | 0 <= k < t :: sky[k].x < wide
        decreases |active| - t
      {
        tail := tail.next;
        t := t + 1;
      }
    }

    /** From a node on, finds the one whose segment holds `x`. */
    method Advance(from: Node, prev0: Node?, x: int, ghost i: nat) returns (node: Node, prev: Node?, ghost n: nat)
      requires Valid() && i < |active| - 1 && from == active[i] && prev0 == Before(i) && from.x <= x < width
      ensures n < |active| - 1 && node == active[n] && prev == Before(n) && sky[n].x <= x < sky[n+1].x
    {
      hide Packed, Distinct;
      node, prev, n := from, prev0, i;
      while node.next.x <= x
        invariant n < |active| - 1 && node == active[n] && prev == Before(n) && node.x <= x
        decreases |active| - n
      {
        prev := node;
        node := node.next;
        n := n + 1;
      }
    }

    /** One position of the second pass. */
    method TryRight(ghost q: Wanted, h: int, xpos: int, y: int, waste: int, prev: Node?, best0: FindResult,
                    ghost t: nat, ghost n: nat, ghost l0: Lead)
      returns (best: FindResult, ghost l: Lead)
      requires Skyline(sky, width) && q.width == width && q.height == height && q.h == h && q.heuristic == BestFit
      requires q.wide > 0 && t < |sky| && n < |sky| - 1 && prev == Before(n) && xpos == sky[t].x - q.wide >= 0
      requires sky[n].x <= xpos < sky[n+1].x
      requires y == Rest(sky, n, xpos, q.wide) && waste == Lost(sky, n, xpos, q.wide)
      requires Leads(sky, q, l0) && LeftDone(sky, q, l0, |sky|) && RightDone(sky, q, l0, t) && Shown(best0, l0)
      ensures Leads(sky, q, l) && LeftDone(sky, q, l, |sky|) && RightDone(sky, q, l, t + 1) && Shown(best, l)
    {
      hide Rest, Lost, LeftDone, RightDone, Leads, Option, KeyOf, Less, Skyline;
      best, l := best0, l0;
      assert RightAligned(sky, q, Place(n, xpos), t) by { TailInside(sky, width, t); }
      RightLeads(sky, q, l, Place(n, xpos), t);
      if y + h <= height {
        if y <= best.y {
          if y < best.y || waste < best.waste || (waste == best.waste && xpos < best.x) {
            best := FindResult(true, prev, xpos, y, waste);
            l := Lead(true, Place(n, xpos), y, waste);
          }
        }
      }
      LeftKeeps(sky, q, l0, l);
      RightStep(sky, q, l0, l, t, n);
    }

    /** The second pass, for best fit: every position whose right edge is at a node. */
    method ScanRight(ghost q: Wanted, wide: int, h: int, best0: FindResult, ghost l0: Lead)
      returns (best: FindResult, ghost l: Lead)
      requires Valid() && q == Wanted(heuristic, wide, h, width, height) && heuristic == BestFit
      requires 0 < wide <= width
      requires Leads(sky, q, l0) && LeftDone(sky, q, l0, |sky|) && Shown(best0, l0)
      ensures Leads(sky, q, l) && LeftDone(sky, q, l, |sky|) && RightDone(sky, q, l, |sky|) && Shown(best, l)
    {
      hide Packed, Distinct, Rest, Lost, LeftDone, RightDone, Leads, Lists, Shows, Skyline;
      Head();
      best, l := best0, l0;
      var tail: Node?, node: Node, prev: Node? := activeHead, activeHead, null;
      ghost var t: nat, n: nat := 0, 0;
      tail, t := FirstEnd(wide);
      RightStarts(sky, q, l, t);
      Here(t);
      while tail != null
        invariant t <= |active| && tail == if t < |active| then active[t] else null
        invariant n < |active| - 1 && node == active[n] && prev == Before(n)
        invariant t < |active| ==> node.x <= tail.x - wide && tail.x == sky[t].x
        invariant node.x >= 0
        invariant Leads(sky, q, l) && LeftDone(sky, q, l, |sky|) && RightDone(sky, q, l, t) && Shown(best, l)
        decreases |active| - t
      {
        var xpos := tail.x - wide;
        Here(t);
        node, prev, n := Advance(node, prev, xpos, n);
        Here(n);
        var y, waste := FindMinY(node, n, xpos, wide);
        best, l := TryRight(q, h, xpos, y, waste, prev, best, t, n, l);
        if t + 1 < |active| {
          Here(t + 1);
          Further(sky, width, t);
        }
        tail := tail.next;
        t := t + 1;
      }
    }

    /** The best place for a rectangle, if any; the widths considered are quantized. */
    method FindBestPos(w: int, h: int) returns (best: FindResult, ghost q: Wanted, ghost p: Place)
      requires Valid() && w > 0
      ensures q == Wanted(heuristic, Quantized(w, align), h, width, height)
      ensures if q.wide > width || h > height then !best.found else Best(sky, q, best.found, p)
      ensures best.found ==> best.link == Before(p.i) && best.x == p.x && best.y == Rest(sky, p.i, p.x, q.wide)
    {
      hide Packed, Distinct, Rest, Lost, LeftDone, RightDone, Best;
      var wide := w + align - 1;
      wide := wide - wide % align;
      q := Wanted(heuristic, wide, h, width, height);
      if wide > width || h > height {
        return FindResult(false, null, 0, 0, 0), q, Place(0, 0);
      }
      QuantizedIs(w, align);
      ghost var l;
      best, l := ScanLeft(q, wide, h);
      if heuristic == BestFit {
        best, l := ScanRight(q, wide, h, best, l);
      }
      SearchIsBest(sky, q, l);
      p := l.p;
    }

    /** Moves one node from the outline to the free list. */
    method Drop(cur: Node, ghost nodes: seq<Node>, ghost j: nat) returns (next: Node)
      requires j + 1 < |nodes| && cur == nodes[j] && Distinct(nodes) && Linked(free, freeHead)
      requires Chain(nodes, j) && Separate(nodes, j, free)
      modifies this`freeHead, this`free, cur`next
      ensures next == nodes[j+1] && Chain(nodes, j + 1) && Separate(nodes, j + 1, free)
      ensures Linked(free, freeHead) && free == [cur] + old(free)
    {
      next := cur.next;
      cur.next := freeHead;
      freeHead := cur;
      free := [cur] + free;
    }

    /** Moves nodes to the free list up to the first whose successor lies beyond `limit`. */
    method Release(from: Node, limit: int, ghost nodes: seq<Node>, ghost s: nat) returns (cur: Node, ghost j: nat)
      requires s < |nodes| && from == nodes[s] && Distinct(nodes) && Linked(free, freeHead)
      requires Chain(nodes, s) && Separate(nodes, s, free)
      modifies this`freeHead, this`free, (set n | n in nodes[s..])`next
      ensures s <= j < |nodes| && cur == nodes[j]
      ensures j + 1 < |nodes| ==> nodes[j+1].x > limit
      ensures forall k | s < k <= j :: nodes[k].x <= limit
      ensures Chain(nodes, j) && Linked(free, freeHead)
      ensures free == Backwards(nodes, s, j) + old(free)
    {
      hide Distinct, Linked, Separate;
      cur, j := from, s;
      ghost var was := free;
      while cur.next != null && cur.next.x <= limit
        invariant s <= j < |nodes| && cur == nodes[j]
        invariant forall k | s < k <= j :: nodes[k].x <= limit
        invariant Chain(nodes, j) && Linked(free, freeHead) && Separate(nodes, j, free)
        invariant free == Backwards(nodes, s, j) + was
        decreases |nodes| - j
      {
        assert nodes[j] == nodes[s..][j-s];
        cur := Drop(cur, nodes, j);
        j := j + 1;
      }
    }

    /** Takes a node for the new segment and links it in behind the nodes to its left. */
    method Insert(link: Node?, x: int, top: int, ghost i: nat, ghost s: nat) returns (node: Node, cur: Node)
      requires Lists() && free != [] && i + 1 < |active| && link == Before(i)
      requires s == if active[i].x < x then i + 1 else i
      modifies this`activeHead, this`freeHead, this`free, repr
      ensures node == old(free)[0] && node.x == x && node.y == top
      ensures cur == active[s] && Chain(active, s) && Leading(active, s, node, activeHead)
      ensures free == old(free)[1..] && Linked(free, freeHead)
      ensures forall k | 0 <= k < |active| :: active[k].x == old(active[k].x) && active[k].y == old(active[k].y)
    {
      node := freeHead;
      node.x, node.y := x, top;
      freeHead := node.next;
      free := free[1..];
      cur := Follow(link);
      if cur.x < x {
        var next := cur.next;
        cur.next := node;
        cur := next;
      } else if link == null {
        activeHead := node;
      } else {
        link.next := node;
      }
    }

    /** Links the new node to the first one that stays, which gives way to the rectangle. */
    method Hook(node: Node, cur: Node, edge: int, ghost nodes: seq<Node>, ghost s: nat, ghost j: nat)
      requires s <= j < |nodes| && cur == nodes[j] && node !in nodes && Distinct(nodes)
      requires Leading(nodes, s, node, activeHead) && Chain(nodes, j)
      requires Linked(free, freeHead) && node !in free && cur !in free
      modifies node`next, cur`x, this`active
      ensures active == nodes[..s] + [node] + nodes[j..] && Linked(active, activeHead) && Linked(free, freeHead)
      ensures cur.x == if old(cur.x) < edge then edge else old(cur.x)
    {
      node.next := cur;
      if cur.x < edge {
        cur.x := edge;
      }
      active := nodes[..s] + [node] + nodes[j..];
      assert forall k | j <= k < |nodes| :: active[k - j + s + 1] == nodes[k];
    }

    /**
      Links a new segment into the outline: nodes it hides go to the free list, and the next
      node that stays is moved to the rectangle's right edge if it began in front of it.
      */
    method Splice(link: Node?, x: int, top: int, w: int, ghost i: nat, ghost s: nat)
      returns (ghost node: Node, ghost j: nat)
      requires Lists() && free != [] && i + 1 < |active| && link == Before(i)
      requires s == if active[i].x < x then i + 1 else i
      modifies this`activeHead, this`freeHead, this`active, this`free, repr
      ensures Lists() && s <= j < |old(active)|
      ensures active == old(active)[..s] + [node] + old(active)[j..] && node.x == x && node.y == top
      ensures j + 1 < |old(active)| ==> old(active[j+1].x) > x + w
      ensures forall k | s < k <= j :: old(active[k].x) <= x + w
      ensures forall k | 0 <= k < |old(active)| ::
                && old(active)[k].y == old(active[k].y)
                && old(active)[k].x == if k == j && old(active[k].x) < x + w then x + w else old(active[k].x)
    {
      hide Distinct, Separate, Linked, Leading, Chain, Backwards;
      ghost var nodes, spare := active, free;
      Apart3(nodes, spare, s);
      var added, cur;
      added, cur := Insert(link, x, top, i, s);
      cur, j := Release(cur, x + w, nodes, s);
      Exchanged(nodes, spare, s, j);
      OthersDiffer(nodes, j);
      Hook(added, cur, x + w, nodes, s, j);
      node := added;
    }

    method Relink(link: Node?, x: int, top: int, w: int, ghost i: nat)
      requires Lists() && free != [] && i + 1 < |active| && link == Before(i) && Shows(active, sky)
      modifies this`activeHead, this`freeHead, this`active, this`free, repr
      ensures Lists() && Shows(active, Raised(sky, i, x, top, w))
    {
      hide Raised, Stay, Lists;
      ghost var nodes, s := active, Cut(sky, i, x);
      ghost var node, j := Splice(link, x, top, w, i, s);
      ShowsRaised(nodes, sky, node, i, s, j, x, top, w);
    }

    /**
      Packs one rectangle at the best place.  It fails only when no quantized place is below
      the search limits, the best one is too high, or the nodes have run out.
      */
    method PackRectangle(w: int, h: int) returns (res: FindResult, ghost q: Wanted, ghost p: Place)
      requires Valid() && w > 0 && h > 0
      modifies this`activeHead, this`freeHead, this`active, this`free, this`sky, this`boxes, repr
      ensures Valid() && q == Wanted(heuristic, Quantized(w, align), h, width, height)
      ensures res.found ==>
                && old(free) != [] && q.wide <= width && h <= height
                && Best(old(sky), q, true, p) && FitsBelow(old(sky), q, p)
                && res.x == p.x && res.y == Rest(old(sky), p.i, p.x, q.wide)
                && p.i + 1 < |old(sky)| && sky == Raised(old(sky), p.i, p.x, res.y + h, w)
                && boxes == old(boxes) + [Box(res.x, res.y, w, h)]
      ensures !res.found ==>
                && sky == old(sky) && boxes == old(boxes)
                && (old(free) == [] || q.wide > width || h > height || Best(old(sky), q, false, p)
                    || (Best(old(sky), q, true, p) && !FitsBelow(old(sky), q, p)))
    {
      hide Rest, Raised, Option, Lists, Skyline, Packed, Shows;
      res, q, p := FindBestPos(w, h);
      Counted();
      if !res.found || res.y + h > height || freeHead == null {
        res := res.(found := false);
        return;
      }
      QuantizedIs(w, align);
      OptionIsSpot(sky, q, p, w);
      PackingIsSound(sky, boxes, q, p, w);
      ghost var r := Raised(sky, p.i, p.x, res.y + h, w);
      Relink(res.link, res.x, res.y + h, w, p.i);
      sky := r;
      boxes := boxes + [Box(res.x, res.y, w, h)];
    }

    lemma Counted()
      requires Valid()
      ensures Lists() && Shows(active, sky) && Skyline(sky, width) && |active| == |sky| >= 2
      ensures freeHead == null <==> free == []
    {
      hide Packed;
    }

    /** A target with as many nodes as columns always has one left. */
    lemma ANodeIsLeft()
      requires Valid() && numNodes >= width
      ensures freeHead != null
    {
      hide Packed;
      Counted();
      ColumnsSuffice(sky, width, numNodes);
    }

    /** The target as it is now. */
    ghost function Now(): Setting
      reads this
    {
      Setting(heuristic, align, width, height, numNodes)
    }

    /** A node is left as long as the outline does not take them all. */
    lemma Spare()
      requires Valid()
      ensures Now().Valid() && Skyline(sky, width) && (free != [] <==> |sky| < numNodes + 2)
    {
      hide Packed, Skyline;
    }

    /** One rectangle, empty or not. */
    method PackOne(r0: Rect) returns (r: Rect)
      requires Valid()
      modifies this`activeHead, this`freeHead, this`active, this`free, this`sky, this`boxes, repr
      ensures Valid() && r == r0.(x := r.x, y := r.y)
      ensures Now().Valid() && Turn(Now(), old(sky), r, sky)
      ensures boxes == if r.Boxed() then old(boxes) + [r.AsBox()] else old(boxes)
    {
      hide Lists, Skyline, Packed, Shows, Best, Raised, FitsBelow, Rest;
      r := r0;
      Spare();
      if r.w == 0 || r.h == 0 {
        r := r.(x := 0, y := 0);
      } else {
        var res;
        ghost var q, p, was, spare := Wanted(BottomLeft, 0, 0, 0, 0), Place(0, 0), sky, free != [];
        res, q, p := PackRectangle(r.w, r.h);
        r := if res.found then r.(x := res.x, y := res.y) else r.(x := MAXVAL, y := MAXVAL);
        if res.found { NewBoxInside(); }
        TurnTaken(Now(), was, r, res.found, spare, p, sky);
      }
    }

    /** Packs the rectangles in the order they have in the array. */
    method PackInOrder(rects: array<Rect>) returns (ghost skies: seq<seq<Point>>)
      requires Valid()
      modifies this`activeHead, this`freeHead, this`active, this`free, this`sky, this`boxes, repr, rects
      ensures Valid() && Placed(rects[..], old(boxes), boxes) && SameInputs(old(rects[..]), rects[..])
      ensures Now().Valid() && Follows(Now(), rects[..], skies) && skies[0] == old(sky) && skies[rects.Length] == sky
    {
      hide Lists, Skyline, Packed, Shows, Placed, Turn, Follows;
      ghost var was := boxes;
      PlacedNone(was);
      Spare();
      assert rects[..0] == [];
      skies := [sky];
      NothingFollows(Now(), sky);
      for i := 0 to rects.Length
        invariant Valid() && Placed(rects[..i], was, boxes) && SameInputs(old(rects[..]), rects[..])
        invariant forall k | i <= k < rects.Length :: rects[k] == old(rects[k])
        invariant |skies| == i + 1 && skies[0] == old(sky) && skies[i] == sky
        invariant Now().Valid() && Follows(Now(), rects[..i], skies)
      {
        ghost var before, done := boxes, rects[..i];
        var r := PackOne(rects[i]);
        Settles(r, skies[i], sky);
        rects[i] := r;
        assert rects[..i+1] == done + [r];
        OneMoreTurn(Now(), done, skies, r, sky);
        skies := skies + [sky];
        PlacedNext(done, r, was, before, boxes, sky, width, height);
      }
      assert rects[..rects.Length] == rects[..];
    }

    lemma Settles(r: Rect, was: seq<Point>, next: seq<Point>)
      requires Now().Valid() && Turn(Now(), was, r, next)
      ensures r.Empty() ==> r.x == 0 && r.y == 0
    {
      hide Fits, Put;
    }

    /** Sorts, packs, and sorts back; the flags then hold the indices. */
    method PackSorted(rects: array<Rect>) returns (ghost order: seq<Rect>, ghost skies: seq<seq<Point>>)
      requires Valid()
      modifies this`activeHead, this`freeHead, this`active, this`free, this`sky, this`boxes, repr, rects
      ensures Valid() && Placed(rects[..], old(boxes), boxes)
      ensures forall i | 0 <= i < rects.Length ::
                rects[i].id == old(rects[i].id) && rects[i].w == old(rects[i].w) && rects[i].h == old(rects[i].h)
      ensures Reorders(order, rects[..]) && TallestFirst(order)
      ensures Now().Valid() && Follows(Now(), order, skies) && skies[0] == old(sky) && skies[rects.Length] == sky
    {
      hide Lists, Skyline, Packed, Shows, Placed, Sorted, Tagged, Taller, Earlier, Valid, Follows;
      TagAll(rects);
      ghost var tagged := rects[..];
      FreshTags(tagged);
      ComparatorsAreTransitive();
      Sort(rects, Taller);
      ghost var tallest := rects[..];
      TaggedPermuted(tagged, tallest);
      skies := PackInOrder(rects);
      ghost var packed := rects[..];
      order := packed;
      StillTallest(tallest, packed);
      SameTags(tallest, packed);
      Sort(rects, Earlier);
      TaggedPermuted(packed, rects[..]);
      TagsInPlace(rects[..]);
      PlacedPermuted(packed, rects[..], old(boxes), boxes);
      InputsRestored(tagged, tallest, packed, rects[..]);
      Reordered(packed, rects[..]);
    }

    /**
      Packs an array of rectangles into what is left of the target.  Every rectangle keeps
      its index, id and size; those flagged as packed and not empty each have a box of their
      own inside the target, apart from each other and from everything packed before.  They have
      their turns in `order`, the tallest first, with the outlines `skies` in between.
      */
    method PackRects(rects: array<Rect>) returns (all: bool, ghost order: seq<Rect>, ghost skies: seq<seq<Point>>)
      requires Valid()
      modifies this`activeHead, this`freeHead, this`active, this`free, this`sky, this`boxes, repr, rects
      ensures Valid() && Placed(rects[..], old(boxes), boxes)
      ensures forall i | 0 <= i < rects.Length ::
                && rects[i].id == old(rects[i].id) && rects[i].w == old(rects[i].w) && rects[i].h == old(rects[i].h)
                && rects[i].packed == (if rects[i].Failed() then 0 else 1)
      ensures all <==> forall i | 0 <= i < rects.Length :: rects[i].packed == 1
      ensures Reorders(order, rects[..]) && TallestFirst(order)
      ensures Now().Valid() && Follows(Now(), order, skies) && skies[0] == old(sky) && skies[rects.Length] == sky
    {
      hide Lists, Skyline, Packed, Shows, Placed, Follows, Tagged;
      order, skies := PackSorted(rects);
      ghost var restored := rects[..];
      all := FlagAll(rects);
      PlacedSame(restored, rects[..], old(boxes), boxes);
      ReordersFlagged(order, restored, rects[..]);
    }

    lemma NewBoxInside()
      requires Valid() && boxes != []
      ensures boxes[|boxes|-1].x < MAXVAL
    {
      hide Lists, Shows, Skyline;
    }
  }

  /** What each rectangle has become, and that no two share room in the target. */
  ghost predicate Placed(rs: seq<Rect>, was: seq<Box>, now: seq<Box>) {
    && was <= now
    && (forall k | 0 <= k < |rs| :: Settled(rs[k], was, now))
    && forall a, b | 0 <= a < |rs| && 0 <= b < |rs| && a != b && rs[a].Boxed() && rs[b].Boxed() ::
         Apart(rs[a].AsBox(), rs[b].AsBox())
  }

  /** Empty ones sit in the corner, failed ones nowhere, the rest in a box of their own. */
  ghost predicate Settled(r: Rect, was: seq<Box>, now: seq<Box>) {
    && (r.Empty() ==> r.x == 0 && r.y == 0)
    && (r.Boxed() ==> exists j | |was| <= j < |now| :: now[j] == r.AsBox())
  }

  ghost predicate SameInputs(a: seq<Rect>, b: seq<Rect>) {
    |a| == |b| && forall k | 0 <= k < |a| ::
      b[k].id == a[k].id && b[k].w == a[k].w && b[k].h == a[k].h && b[k].packed == a[k].packed
  }

  lemma PlacedNone(was: seq<Box>)
    ensures Placed([], was, was)
  {
  }

  /** One more rectangle, empty, failed, or in a new box. */
  lemma PlacedNext(rs: seq<Rect>, r: Rect, was: seq<Box>, mid: seq<Box>, now: seq<Box>, sky: seq<Point>,
                   width: int, height: int)
    requires Placed(rs, was, mid) && Packed(sky, now, width, height)
    requires now == if r.Boxed() then mid + [r.AsBox()] else mid
    requires r.Empty() ==> r.x == 0 && r.y == 0
    ensures Placed(rs + [r], was, now)
  {
    var all := rs + [r];
    forall k | 0 <= k < |all| ensures Settled(all[k], was, now) {
      if k < |rs| {
        assert Settled(rs[k], was, mid);
        if rs[k].Boxed() {
          var j :| |was| <= j < |mid| && mid[j] == rs[k].AsBox();
          assert now[j] == rs[k].AsBox();
        }
      } else if r.Boxed() {
        assert now[|mid|] == r.AsBox();
      }
    }
    forall k | 0 <= k < |rs| && rs[k].Boxed() && r.Boxed() ensures Apart(rs[k].AsBox(), r.AsBox()) {
      assert Settled(rs[k], was, mid);
      var j :| |was| <= j < |mid| && mid[j] == rs[k].AsBox();
      assert now[j] == rs[k].AsBox() && now[|mid|] == r.AsBox();
    }
  }

  /** Reordering rectangles with distinct tags changes none of it. */
  lemma PlacedPermuted(rs: seq<Rect>, ts: seq<Rect>, was: seq<Box>, now: seq<Box>)
    requires Placed(rs, was, now) && multiset(rs) == multiset(ts) && Tagged(ts)
    ensures Placed(ts, was, now)
  {
    forall k | 0 <= k < |ts| ensures Settled(ts[k], was, now) {
      var m := PickOf(rs, ts, k);
    }
    forall a, b | 0 <= a < |ts| && 0 <= b < |ts| && a != b && ts[a].Boxed() && ts[b].Boxed()
      ensures Apart(ts[a].AsBox(), ts[b].AsBox())
    {
      var m := PickOf(rs, ts, a);
      var n := PickOf(rs, ts, b);
      assert ts[a].packed != ts[b].packed;
    }
  }

  method TagAll(rects: array<Rect>)
    modifies rects
    ensures forall k | 0 <= k < rects.Length :: rects[k] == old(rects[k]).(packed := k)
  {
    for i := 0 to rects.Length
      invariant forall k | 0 <= k < i :: rects[k] == old(rects[k]).(packed := k)
      invariant forall k | i <= k < rects.Length :: rects[k] == old(rects[k])
    {
      rects[i] := rects[i].(packed := i);
    }
  }

  method FlagAll(rects: array<Rect>) returns (all: bool)
    modifies rects
    ensures forall k | 0 <= k < rects.Length ::
              rects[k] == old(rects[k]).(packed := if old(rects[k]).Failed() then 0 else 1)
    ensures all <==> forall k | 0 <= k < rects.Length :: rects[k].packed == 1
  {
    all := true;
    for i := 0 to rects.Length
      invariant forall k | 0 <= k < i ::
                  rects[k] == old(rects[k]).(packed := if old(rects[k]).Failed() then 0 else 1)
      invariant forall k | i <= k < rects.Length :: rects[k] == old(rects[k])
      invariant all <==> forall k | 0 <= k < i :: rects[k].packed == 1
    {
      rects[i] := rects[i].(packed := if rects[i].x == MAXVAL && rects[i].y == MAXVAL then 0 else 1);
      if rects[i].packed == 0 {
        all := false;
      }
    }
  }

  lemma FreshTags(s: seq<Rect>)
    requires forall k | 0 <= k < |s| :: s[k].packed == k
    ensures Tagged(s)
  {
  }

  lemma ComparatorsAreTransitive()
    ensures Transitive(Taller) && Transitive(Earlier)
  {
  }

  lemma SameTags(a: seq<Rect>, b: seq<Rect>)
    requires Tagged(a) && SameInputs(a, b)
    ensures Tagged(b)
  {
  }

  lemma InputsRestored(tagged: seq<Rect>, tallest: seq<Rect>, packed: seq<Rect>, restored: seq<Rect>)
    requires multiset(tagged) == multiset(tallest) && SameInputs(tallest, packed)
    requires multiset(packed) == multiset(restored) && |restored| == |tagged|
    requires forall k | 0 <= k < |tagged| :: tagged[k].packed == k
    requires forall k | 0 <= k < |restored| :: restored[k].packed == k
    ensures SameInputs(tagged, restored)
  {
    forall i | 0 <= i < |tagged|
      ensures restored[i].id == tagged[i].id && restored[i].w == tagged[i].w && restored[i].h == tagged[i].h
    {
      var k := PickOf(packed, restored, i);
      var m := PickOf(tagged, tallest, k);
    }
  }

  lemma StillTallest(a: seq<Rect>, b: seq<Rect>)
    requires Sorted(a, Taller) && SameInputs(a, b)
    ensures TallestFirst(b)
  {
    forall i, j | 0 <= i < j < |b| ensures b[i].h > b[j].h || (b[i].h == b[j].h && b[i].w >= b[j].w) {
      assert !Taller(a[j], a[i]);
    }
  }

  lemma Reordered(packed: seq<Rect>, restored: seq<Rect>)
    requires multiset(packed) == multiset(restored) && Tagged(packed)
    requires |packed| == |restored| && forall k | 0 <= k < |restored| :: restored[k].packed == k
    ensures Reorders(packed, restored)
  {
    forall k | 0 <= k < |packed| ensures packed[k] == restored[packed[k].packed].(packed := packed[k].packed) {
      var i := PickOf(restored, packed, k);
    }
  }

  lemma ReordersFlagged(order: seq<Rect>, rs: seq<Rect>, ts: seq<Rect>)
    requires Reorders(order, rs) && |rs| == |ts|
    requires forall k | 0 <= k < |rs| :: ts[k] == rs[k].(packed := ts[k].packed)
    ensures Reorders(order, ts)
  {
    forall k | 0 <= k < |order| ensures order[k] == ts[order[k].packed].(packed := order[k].packed) {
      assert 0 <= order[k].packed < |rs|;
    }
  }

  /** Placement is about boxes; flags do not matter to it. */
  lemma PlacedSame(rs: seq<Rect>, ts: seq<Rect>, was: seq<Box>, now: seq<Box>)
    requires Placed(rs, was, now) && |rs| == |ts|
    requires forall k | 0 <= k < |rs| :: ts[k] == rs[k].(packed := ts[k].packed)
    ensures Placed(ts, was, now)
  {
    forall k | 0 <= k < |ts| ensures Settled(ts[k], was, now) && ts[k].Boxed() == rs[k].Boxed() {
      assert Settled(rs[k], was, now);
    }
  }

  /** The spare nodes are apart from those that may be released, and those from the rest. */
  lemma Apart3(nodes: seq<Node>, spare: seq<Node>, s: nat)
    requires Distinct(nodes) && Distinct(spare) && Separate(nodes, 0, spare) && spare != [] && s <= |nodes|
    ensures Separate(nodes, s, spare[1..])
    ensures forall k | 0 <= k < s :: nodes[k] !in nodes[s..]
    ensures spare[0] !in nodes && spare[0] !in spare[1..]
  {
  }

  lemma ShowsRaised(nodes: seq<Node>, sky: seq<Point>, node: Node, i: nat, s: nat, j: nat, x: int, top: int, w: int)
    requires i + 1 < |sky| && s == Cut(sky, i, x) && s <= j < |nodes| == |sky|
    requires j + 1 < |sky| ==> sky[j+1].x > x + w
    requires forall k | s < k <= j :: sky[k].x <= x + w
    requires node.x == x && node.y == top
    requires forall k | 0 <= k < |nodes| :: nodes[k].y == sky[k].y
    requires forall k | 0 <= k < |nodes| && k != j :: nodes[k].x == sky[k].x
    requires nodes[j].x == if sky[j].x < x + w then x + w else sky[j].x
    ensures Shows(nodes[..s] + [node] + nodes[j..], Raised(sky, i, x, top, w))
  {
    hide Stay, Raised;
    StayIs(sky, s, x + w, j);
    var ns, r := nodes[..s] + [node] + nodes[j..], Raised(sky, i, x, top, w);
    RaisedLength(sky, i, x, top, w);
    forall k | 0 <= k < |ns| ensures ns[k].x == r[k].x && ns[k].y == r[k].y {
      RaisedAt(sky, i, x, top, w, k);
      ActiveAt(nodes, node, s, j, k);
    }
  }

  lemma OthersDiffer(nodes: seq<Node>, j: nat)
    requires Distinct(nodes) && j < |nodes|
    ensures forall k | 0 <= k < |nodes| && k != j :: nodes[k] != nodes[j]
  {
  }

  /** The two lists after nodes s to j have been released for one spare node. */
  lemma Exchanged(nodes: seq<Node>, spare: seq<Node>, s: nat, j: nat)
    requires Distinct(nodes) && Distinct(spare) && Separate(nodes, 0, spare) && spare != [] && s <= j < |nodes|
    ensures var ns, ms := nodes[..s] + [spare[0]] + nodes[j..], Backwards(nodes, s, j) + spare[1..];
            && Distinct(ns) && Distinct(ms) && Separate(ns, 0, ms) && |ns| + |ms| == |nodes| + |spare|
            && spare[0] !in ms && nodes[j] !in ms
            && (forall n | n in ns :: n in nodes || n in spare)
            && (forall n | n in ms :: n in nodes || n in spare)
  {
    hide Distinct, Separate;
    var ns, ms := nodes[..s] + [spare[0]] + nodes[j..], Backwards(nodes, s, j) + spare[1..];
    ExchangedActive(nodes, spare, s, j);
    ExchangedFree(nodes, spare, s, j);
    ExchangedApart(nodes, spare, s, j);
  }

  /** Which node stands where in the outline and in the free list after the exchange. */
  lemma ActiveAt(nodes: seq<Node>, n: Node, s: nat, j: nat, a: nat)
    requires s <= j < |nodes| && a < s + 1 + |nodes| - j
    ensures (nodes[..s] + [n] + nodes[j..])[a]
            == if a < s then nodes[a] else if a == s then n else nodes[a - s - 1 + j]
  {
  }

  lemma FreeAt(nodes: seq<Node>, spare: seq<Node>, s: nat, j: nat, b: nat)
    requires s <= j < |nodes| && spare != [] && b < j - s + |spare| - 1
    ensures (Backwards(nodes, s, j) + spare[1..])[b] == if b < j - s then nodes[j-1-b] else spare[b - (j - s) + 1]
  {
  }

  lemma Differ(ns: seq<Node>, a: nat, b: nat)
    requires Distinct(ns) && a < |ns| && b < |ns| && a != b
    ensures ns[a] != ns[b]
  {
  }

  lemma NotShared(ns: seq<Node>, ms: seq<Node>, a: nat, b: nat)
    requires Separate(ns, 0, ms) && a < |ns| && b < |ms|
    ensures ns[a] != ms[b]
  {
  }

  lemma ExchangedActive(nodes: seq<Node>, spare: seq<Node>, s: nat, j: nat)
    requires Distinct(nodes) && Separate(nodes, 0, spare) && spare != [] && s <= j < |nodes|
    ensures var ns := nodes[..s] + [spare[0]] + nodes[j..];
            Distinct(ns) && forall n | n in ns :: n in nodes || n in spare
  {
    hide Separate;
    var ns := nodes[..s] + [spare[0]] + nodes[j..];
    forall a, b | 0 <= a < b < |ns| ensures ns[a] != ns[b] {
      ActiveAt(nodes, spare[0], s, j, a);
      ActiveAt(nodes, spare[0], s, j, b);
      if a == s {
        NotShared(nodes, spare, b - s - 1 + j, 0);
      } else if b == s {
        NotShared(nodes, spare, a, 0);
      } else {
        Differ(nodes, if a < s then a else a - s - 1 + j, if b < s then b else b - s - 1 + j);
      }
    }
  }

  lemma ExchangedFree(nodes: seq<Node>, spare: seq<Node>, s: nat, j: nat)
    requires Distinct(nodes) && Distinct(spare) && Separate(nodes, 0, spare) && spare != [] && s <= j < |nodes|
    ensures var ms := Backwards(nodes, s, j) + spare[1..];
            Distinct(ms) && forall n | n in ms :: n in nodes || n in spare
  {
    hide Separate;
    var ms := Backwards(nodes, s, j) + spare[1..];
    forall a, b | 0 <= a < b < |ms| ensures ms[a] != ms[b] {
      FreeAt(nodes, spare, s, j, a);
      FreeAt(nodes, spare, s, j, b);
      if b < j - s {
        Differ(nodes, j - 1 - a, j - 1 - b);
      } else if a < j - s {
        NotShared(nodes, spare, j - 1 - a, b - (j - s) + 1);
      } else {
        Differ(spare, a - (j - s) + 1, b - (j - s) + 1);
      }
    }
  }

  lemma ExchangedApart(nodes: seq<Node>, spare: seq<Node>, s: nat, j: nat)
    requires Distinct(nodes) && Distinct(spare) && Separate(nodes, 0, spare) && spare != [] && s <= j < |nodes|
    ensures var ns, ms := nodes[..s] + [spare[0]] + nodes[j..], Backwards(nodes, s, j) + spare[1..];
            Separate(ns, 0, ms) && spare[0] !in ms && nodes[j] !in ms
  {
    hide Distinct;
    var ns, ms := nodes[..s] + [spare[0]] + nodes[j..], Backwards(nodes, s, j) + spare[1..];
    forall a, b | 0 <= a < |ns| && 0 <= b < |ms| ensures ns[a] != ms[b] {
      ActiveAt(nodes, spare[0], s, j, a);
      FreeAt(nodes, spare, s, j, b);
      if a == s && b < j - s {
        NotShared(nodes, spare, j - 1 - b, 0);
      } else if a == s {
        Differ(spare, 0, b - (j - s) + 1);
      } else if b < j - s {
        Differ(nodes, if a < s then a else a - s - 1 + j, j - 1 - b);
      } else {
        NotShared(nodes, spare, if a < s then a else a - s - 1 + j, b - (j - s) + 1);
      }
    }
    ActiveAt(nodes, spare[0], s, j, s);
    ActiveAt(nodes, spare[0], s, j, s + 1);
    assert ns[s] == spare[0] && ns[s+1] == nodes[j];
  }

  lemma {:induction false} StayIs(sky: seq<Point>, s: nat, limit: int, j: nat)
    requires s <= j < |sky| && (j + 1 < |sky| ==> sky[j+1].x > limit)
    requires forall k | s < k <= j :: sky[k].x <= limit
    ensures j == Stay(sky, s, limit)
    decreases j - s
  {
    if s < j {
      StayIs(sky, s + 1, limit, j);
    }
  }

  /** The first s nodes are linked in order, and then comes `node`. */
  ghost predicate Leading(ns: seq<Node>, s: int, node: Node, head: Node?)
    requires 0 <= s <= |ns|
    reads ns
  {
    && head == (if s == 0 then node else ns[0])
    && forall k {:trigger ns[k].next} | 0 <= k < s :: ns[k].next == if k + 1 < s then ns[k+1] else node
  }

  /** From the s-th node on, each links to the next and the last ends the list. */
  ghost predicate Chain(ns: seq<Node>, s: int)
    requires 0 <= s
    reads ns
  {
    forall k {:trigger ns[k].next} | s <= k < |ns| :: ns[k].next == if k + 1 < |ns| then ns[k+1] else null
  }

  ghost predicate Separate(ns: seq<Node>, s: int, ms: seq<Node>)
    requires 0 <= s
  {
    forall a, b | s <= a < |ns| && 0 <= b < |ms| :: ns[a] != ms[b]
  }

  ghost function Backwards(ns: seq<Node>, s: nat, j: nat): (r: seq<Node>)
    requires s <= j <= |ns|
    ensures |r| == j - s && forall k | 0 <= k < j - s :: r[k] == ns[j-1-k]
  {
    if s == j then [] else [ns[j-1]] + Backwards(ns, s, j - 1)
  }

  lemma Further(sky: seq<Point>, width: int, t: nat)
    requires Skyline(sky, width) && t + 1 < |sky|
    ensures sky[t].x < sky[t+1].x
  {
  }

  lemma TailInside(sky: seq<Point>, width: int, t: nat)
    requires Skyline(sky, width) && t < |sky|
    ensures 0 <= sky[t].x <= width
  {
  }

  lemma TwoLinked(a: Node, b: Node)
    requires a.next == b && b.next == null
    ensures Linked([a, b], a)
  {
  }

  lemma EmptyOutline(width: int, height: int, a: Node, b: Node)
    requires width > 0 && a.x == 0 && a.y == 0 && b.x == width && b.y == FAR
    ensures var sky := [Point(0, 0), Point(width, FAR)];
            Skyline(sky, width) && Packed(sky, [], width, height) && Shows([a, b], sky)
  {
  }

  lemma DistinctFresh(a: Node, b: Node, ns: seq<Node>)
    requires Distinct(ns) && a !in ns && b !in ns && a != b
    ensures Distinct([a, b]) && Separate([a, b], 0, ns)
  {
  }

  /** Links the caller's nodes into a list. */
  method LinkAll(nodes: array<Node>)
    requires nodes.Length > 0 && Distinct(nodes[..])
    modifies nodes[..]
    ensures Linked(nodes[..], nodes[0])
  {
    var i := 0;
    while i < nodes.Length - 1
      invariant 0 <= i < nodes.Length
      invariant forall k {:trigger nodes[k].next} | 0 <= k < i :: nodes[k].next == nodes[k+1]
    {
      assert forall k | 0 <= k < i :: nodes[..][k] != nodes[..][i];
      nodes[i].next := nodes[i+1];
      i := i + 1;
    }
    assert forall k | 0 <= k < i :: nodes[..][k] != nodes[..][i];
    nodes[i].next := null;
  }
}
