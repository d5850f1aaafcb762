/**
  The rectangles handed to the packer, and the two sorts around packing: tallest first to
  pack, and back to the caller's order by the index parked in the flag field.
  */
module RectSort {
  import opened Skylines

  const MAXVAL: int := 0x7FFF_FFFF

  /** `packed` is the caller's flag; while packing it holds the rectangle's index. */
  datatype Rect = Rect(id: int, w: nat, h: nat, x: int, y: int, packed: int) {
    predicate Empty() {
      w == 0 || h == 0
    }

    predicate Failed() {
      x == MAXVAL && y == MAXVAL
    }

    /** It takes up room in the target. */
    predicate Boxed() {
      !Empty() && !Failed()
    }

    function AsBox(): Box {
      Box(x, y, w, h)
    }
  }

  /** The taller first, of the same height the wider. */
  predicate Taller(a: Rect, b: Rect) {
    a.h > b.h || (a.h == b.h && a.w > b.w)
  }

  predicate Earlier(a: Rect, b: Rect) {
    a.packed < b.packed
  }

  ghost predicate Transitive(before: (Rect, Rect) -> bool) {
    && (forall a :: !before(a, a))
    && forall a, b, c :: before(a, b) && before(b, c) ==> before(a, c)
  }

  ghost predicate Sorted(s: seq<Rect>, before: (Rect, Rect) -> bool) {
    forall i, j | 0 <= i < j < |s| :: !before(s[j], s[i])
  }

  /** An in-place sort; nothing beyond its contract is relied on. */
  method Sort(a: array<Rect>, before: (Rect, Rect) -> bool)
    requires Transitive(before)
    modifies a
    ensures Sorted(a[..], before) && multiset(a[..]) == multiset(old(a[..]))
  {
    var i := 0;
    while i < a.Length
      invariant i <= a.Length
      invariant multiset(a[..]) == multiset(old(a[..]))
      invariant forall p, r | 0 <= p < r < a.Length && p < i :: !before(a[r], a[p])
    {
      var m := Least(a, before, i);
      Swap(a, i, m);
      i := i + 1;
    }
  }

  method Least(a: array<Rect>, before: (Rect, Rect) -> bool, i: nat) returns (m: nat)
    requires Transitive(before) && i < a.Length
    ensures i <= m < a.Length && forall k | i <= k < a.Length :: !before(a[k], a[m])
  {
    m := i;
    var k := i + 1;
    while k < a.Length
      invariant i <= m < k <= a.Length
      invariant forall r | i <= r < k :: !before(a[r], a[m])
    {
      if before(a[k], a[m]) {
        m := k;
      }
      k := k + 1;
    }
  }

  method Swap(a: array<Rect>, i: nat, m: nat)
    requires i <= m < a.Length
    modifies a
    ensures a[..] == old(a[..])[i := old(a[m])][m := old(a[i])]
    ensures multiset(a[..]) == multiset(old(a[..]))
  {
    a[i], a[m] := a[m], a[i];
    assert a[..] == old(a[..])[i := old(a[m])][m := old(a[i])];
  }

  // ---------------------------------------------------------------- tags

  /** Every element carries an index of its own. */
  ghost predicate Tagged(s: seq<Rect>) {
    && (forall i | 0 <= i < |s| :: 0 <= s[i].packed < |s|)
    && forall i, j | 0 <= i < j < |s| :: s[i].packed != s[j].packed
  }

  lemma PickOf(s: seq<Rect>, t: seq<Rect>, i: nat) returns (k: nat)
    requires multiset(s) == multiset(t) && i < |t|
    ensures k < |s| && s[k] == t[i]
  {
    assert t[i] in multiset(t);
    assert t[i] in s;
    k :| 0 <= k < |s| && s[k] == t[i];
  }

  lemma TwiceIn(s: seq<Rect>, i: nat, j: nat)
    requires i < j < |s| && s[i] == s[j]
    ensures multiset(s)[s[i]] >= 2
  {
    assert s == s[..j] + s[j..];
    assert s[i] == s[..j][i] && s[j..][0] == s[i];
    assert s[i] in multiset(s[..j]) && s[i] in multiset(s[j..]);
  }

  lemma {:induction false} OnceIn(s: seq<Rect>, e: Rect)
    requires forall i, j | 0 <= i < j < |s| :: s[i] != s[j]
    ensures multiset(s)[e] <= 1
  {
    if s != [] {
      var init := s[..|s|-1];
      OnceIn(init, e);
      assert s == init + [s[|s|-1]];
      if e == s[|s|-1] { assert e !in init; }
    }
  }

  /** Reordering keeps the tags distinct. */
  lemma TaggedPermuted(s: seq<Rect>, t: seq<Rect>)
    requires Tagged(s) && multiset(s) == multiset(t)
    ensures |s| == |t| && Tagged(t)
  {
    assert |multiset(s)| == |s| && |multiset(t)| == |t|;
    forall i | 0 <= i < |t| ensures 0 <= t[i].packed < |t| {
      var k := PickOf(s, t, i);
    }
    forall i, j | 0 <= i < j < |t| ensures t[i].packed != t[j].packed {
      var k := PickOf(s, t, i);
      var m := PickOf(s, t, j);
      if t[i].packed == t[j].packed {
        assert k == m;
        TwiceIn(t, i, j);
        OnceIn(s, t[i]);
        assert false;
      }
    }
  }

  /** Sorting by distinct indices brings every element to its index. */
  lemma TagsInPlace(s: seq<Rect>)
    requires Tagged(s) && Sorted(s, Earlier)
    ensures forall i | 0 <= i < |s| :: s[i].packed == i
  {
    forall i, j | 0 <= i < j < |s| ensures s[i].packed < s[j].packed {
      assert !Earlier(s[j], s[i]);
    }
    forall i | 0 <= i < |s| ensures s[i].packed == i {
      AtLeast(s, i);
      AtMost(s, i);
    }
  }

  lemma {:induction false} AtLeast(s: seq<Rect>, i: nat)
    requires i < |s| && forall i, j | 0 <= i < j < |s| :: s[i].packed < s[j].packed
    requires forall i | 0 <= i < |s| :: 0 <= s[i].packed < |s|
    ensures s[i].packed >= i
  {
    if i > 0 { AtLeast(s, i - 1); }
  }

  lemma {:induction false} AtMost(s: seq<Rect>, i: nat)
    requires i < |s| && forall i, j | 0 <= i < j < |s| :: s[i].packed < s[j].packed
    requires forall i | 0 <= i < |s| :: 0 <= s[i].packed < |s|
    ensures s[i].packed <= i
    decreases |s| - i
  {
    if i < |s| - 1 { AtMost(s, i + 1); }
  }
}
