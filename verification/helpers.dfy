/** Utility routines of src/utils/helpers.js: the in-place Fisher–Yates
    shuffle and the random empty-tile finder. Each `Math.random()` draw is a
    real in [0, 1) passed in by the caller. */
module Helpers {
  import opened Common

  /** `s` with the elements at `i` and `j` exchanged (the destructuring swap). */
  function Swap<T>(s: seq<T>, i: nat, j: nat): (r: seq<T>)
    requires i < |s| && j < |s|
    ensures |r| == |s| && r[i] == s[j] && r[j] == s[i]
    ensures forall k :: 0 <= k < |s| && k != i && k != j ==> r[k] == s[k]
  {
    s[i := s[j]][j := s[i]]
  }

  lemma SwapPermutes<T>(s: seq<T>, i: nat, j: nat)
    requires i < |s| && j < |s|
    ensures multiset(Swap(s, i, j)) == multiset(s)
  {
    var t := s[i := s[j]];
    assert multiset(t) == multiset(s) - multiset{s[i]} + multiset{s[j]};
  }

  /** Draws are consumed one per pass, the pass at index `i` of an
      `n`-element array using draw number `n - 1 - i`. */
  predicate EnoughDraws(n: nat, rs: seq<real>)
  {
    |rs| + 1 >= n && AllRandom(rs)
  }

  /** The partner of index `i`: `Math.floor(Math.random() * (i + 1))`,
      always an index in 0..i. */
  function Partner(rs: seq<real>, n: nat, i: nat): (j: nat)
    requires 0 < i < n && EnoughDraws(n, rs)
    ensures j <= i
  {
    RandomIndex(rs[n - 1 - i], i + 1)
  }

  /** The passes of the shuffle for indices i, i - 1, ..., 1. */
  function Passes<T>(s: seq<T>, i: nat, rs: seq<real>): (r: seq<T>)
    requires i < |s| && EnoughDraws(|s|, rs)
    ensures |r| == |s|
    decreases i
  {
    if i == 0 then s else Passes(Swap(s, i, Partner(rs, |s|, i)), i - 1, rs)
  }

  /** The order the shuffle leaves `s` in, given the draws `rs`. */
  function Shuffled<T>(s: seq<T>, rs: seq<real>): (r: seq<T>)
    requires EnoughDraws(|s|, rs)
    ensures |r| == |s|
  {
    if |s| == 0 then s else Passes(s, |s| - 1, rs)
  }

  lemma {:induction false} PassesPermute<T>(s: seq<T>, i: nat, rs: seq<real>)
    requires i < |s| && EnoughDraws(|s|, rs)
    ensures |Passes(s, i, rs)| == |s|
    ensures multiset(Passes(s, i, rs)) == multiset(s)
    decreases i
  {
    if i > 0 {
      var j := Partner(rs, |s|, i);
      SwapPermutes(s, i, j);
      PassesPermute(Swap(s, i, j), i - 1, rs);
    }
  }

  /** The pass at index `i` fixes the element at `i` for good: later passes
      touch only smaller indices. */
  lemma {:induction false} PassesKeepSuffix<T>(s: seq<T>, i: nat, rs: seq<real>, k: nat)
    requires i < k < |s| && EnoughDraws(|s|, rs)
    ensures |Passes(s, i, rs)| == |s| && Passes(s, i, rs)[k] == s[k]
    decreases i
  {
    PassesPermute(s, i, rs);
    if i > 0 {
      PassesKeepSuffix(Swap(s, i, Partner(rs, |s|, i)), i - 1, rs, k);
    }
  }

  /** The shuffle is a permutation: same length, same multiset. */
  lemma ShuffledPermutes<T>(s: seq<T>, rs: seq<real>)
    requires EnoughDraws(|s|, rs)
    ensures |Shuffled(s, rs)| == |s|
    ensures multiset(Shuffled(s, rs)) == multiset(s)
  {
    if |s| > 0 {
      PassesPermute(s, |s| - 1, rs);
    }
  }

  /** Arrays of length 0 or 1 are left as they are. */
  lemma ShortUnchanged<T>(s: seq<T>, rs: seq<real>)
    requires |s| <= 1 && EnoughDraws(|s|, rs)
    ensures Shuffled(s, rs) == s
  {
  }

  /** shuffleArray: Fisher–Yates in place, i descending from length - 1 to 1,
      each pass swapping `a[i]` with `a[j]` for a drawn `j` in 0..i. */
  method ShuffleArray<T>(a: array<T>, rs: seq<real>)
    requires EnoughDraws(a.Length, rs)
    modifies a
    ensures a[..] == Shuffled(old(a[..]), rs)
    ensures multiset(a[..]) == multiset(old(a[..]))
  {
    ShuffledPermutes(a[..], rs);
    if a.Length == 0 {
      return;
    }
    var i := a.Length - 1;
    while i > 0
      invariant 0 <= i < a.Length
      invariant Passes(a[..], i, rs) == Shuffled(old(a[..]), rs)
    {
      var j := Partner(rs, a.Length, i);
      ghost var before := a[..];
      assert Passes(before, i, rs) == Passes(Swap(before, i, j), i - 1, rs);
      var t := a[i];
      a[i] := a[j];
      a[j] := t;
      assert forall k :: 0 <= k < a.Length ==> a[..][k] == Swap(before, i, j)[k];
      assert a[..] == Swap(before, i, j);
      i := i - 1;
    }
  }

  /** Whether grid `g` holds at least one floor tile. */
  ghost predicate HasFloor(g: array2<int>)
    reads g
  {
    exists c :: CellIs(g, c, FloorCode)
  }

  /** findEmptyTile: the centre of a drawn floor tile of the stage, or the
      centre of the stage when it has none. */
  method FindEmptyTile(tiles: array2<int>, r: real) returns (p: Pixel)
    requires tiles.Length0 == StageHeight && tiles.Length1 == StageWidth
    requires IsRandom(r)
    ensures HasFloor(tiles) ==> exists c :: CellIs(tiles, c, FloorCode) && p == CellCentre(c)
    ensures !HasFloor(tiles) ==> p == Pixel(StageWidth * TileSize / 2, StageHeight * TileSize / 2)
  {
    var emptyTiles: seq<Pixel> := [];
    ghost var cells: seq<Cell> := [];
    var y := 0;
    while y < StageHeight
      invariant 0 <= y <= StageHeight
      invariant |cells| == |emptyTiles|
      invariant forall k :: 0 <= k < |cells| ==>
        CellIs(tiles, cells[k], FloorCode) && emptyTiles[k] == CellCentre(cells[k])
      invariant forall c :: CellIs(tiles, c, FloorCode) && c.y < y ==> c in cells
    {
      var x := 0;
      while x < StageWidth
        invariant 0 <= x <= StageWidth
        invariant |cells| == |emptyTiles|
        invariant forall k :: 0 <= k < |cells| ==>
          CellIs(tiles, cells[k], FloorCode) && emptyTiles[k] == CellCentre(cells[k])
        invariant forall c :: CellIs(tiles, c, FloorCode) && (c.y < y || (c.y == y && c.x < x)) ==> c in cells
      {
        if tiles[y, x] == FloorCode {
          emptyTiles := emptyTiles + [Pixel(TileCentre(x), TileCentre(y))];
          cells := cells + [Cell(x, y)];
        }
        x := x + 1;
      }
      y := y + 1;
    }

    if |emptyTiles| == 0 {
      p := Pixel(StageWidth * TileSize / 2, StageHeight * TileSize / 2);
      return;
    }
    var k := RandomIndex(r, |emptyTiles|);
    p := emptyTiles[k];
    assert CellIs(tiles, cells[k], FloorCode) && p == CellCentre(cells[k]);
  }

  lemma {:induction false} DistinctCountsOnce<T>(s: seq<T>, v: T)
    requires Distinct(s)
    ensures multiset(s)[v] <= 1
    decreases |s|
  {
    if |s| > 0 {
      var t := s[1..];
      assert s == [s[0]] + t;
      assert Distinct(t) by {
        forall i, j | 0 <= i < j < |t| ensures t[i] != t[j] {
          assert t[i] == s[i + 1] && t[j] == s[j + 1];
        }
      }
      DistinctCountsOnce(t, v);
      if v == s[0] {
        assert forall m :: 0 <= m < |t| ==> t[m] == s[m + 1] != s[0];
      }
    }
  }

  lemma RepeatCountsTwice<T>(s: seq<T>, i: nat, j: nat)
    requires i < j < |s| && s[i] == s[j]
    ensures multiset(s)[s[i]] >= 2
  {
    assert s == s[..i] + [s[i]] + s[i + 1..j] + [s[j]] + s[j + 1..];
  }

  /** A rearrangement of a sequence without repeats has none either. */
  lemma PermutationKeepsDistinct<T>(s: seq<T>, t: seq<T>)
    requires multiset(s) == multiset(t) && Distinct(s)
    ensures Distinct(t)
  {
    forall i, j | 0 <= i < j < |t|
      ensures t[i] != t[j]
    {
      if t[i] == t[j] {
        RepeatCountsTwice(t, i, j);
        DistinctCountsOnce(s, t[i]);
        assert false;
      }
    }
  }

  /** The shuffle never duplicates an element: a sequence without repeats
      stays without repeats. */
  lemma ShuffledKeepsDistinct<T>(s: seq<T>, rs: seq<real>)
    requires EnoughDraws(|s|, rs) && Distinct(s)
    ensures Distinct(Shuffled(s, rs))
  {
    ShuffledPermutes(s, rs);
    PermutationKeepsDistinct(s, Shuffled(s, rs));
  }
}
