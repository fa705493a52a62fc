/**
 * The hls.js adapter. The engine owns an array of level objects and a
 * `nextLevel` field. `getLevels` copies the array, stamps each level object
 * with its position and sorts the copy by bitrate; the copy holds the
 * engine's own objects, so the stamped `index` is visible to the engine too.
 */
module HlsJsTech {
  import opened Wrappers
  import opened Levels

  /** One level object owned by the hls.js engine. Only the fields the adapter and the menu read are modelled. */
  class EngineLevel {
    /** Written by `getLevels`; the engine does not set it itself. */
    var index: int
    const bitrate: int
    const name: Option<string>
    const height: Option<int>

    constructor (bitrate: int, name: Option<string>, height: Option<int>)
      ensures this.bitrate == bitrate && this.name == name && this.height == height
    {
      this.bitrate := bitrate;
      this.name := name;
      this.height := height;
    }
  }

  /** The level as the menu sees it: the engine object's fields at this moment. */
  function AsLevel(e: EngineLevel): (l: Level)
    reads e
    ensures l.index == e.index && l.bitrate == Some(e.bitrate) && l.name == e.name && l.height == e.height
  {
    Level(e.index, Some(e.bitrate), e.name, None, e.height, None)
  }

  /** Ascending (non-strict) by bitrate. */
  predicate SortedByBitrate(s: seq<EngineLevel>) {
    forall k, l :: 0 <= k < l < |s| ==> s[k].bitrate <= s[l].bitrate
  }

  /**
   * `origin[k]` is the position in the unsorted input that `s[k]` came from;
   * levels of equal bitrate keep their input order.
   */
  predicate StableFrom(s: seq<EngineLevel>, origin: seq<int>)
    requires |origin| == |s|
  {
    forall k, l :: 0 <= k < l < |s| && s[k].bitrate == s[l].bitrate ==> origin[k] < origin[l]
  }

  /** No object occurs twice. */
  predicate Distinct(s: seq<EngineLevel>) {
    forall i, j :: 0 <= i < j < |s| ==> s[i] != s[j]
  }

  /** `x` (from input position `ox`) goes before `y` (from `oy`) in a stable sort by bitrate. */
  predicate Before(x: EngineLevel, ox: int, y: EngineLevel, oy: int) {
    x.bitrate < y.bitrate || (x.bitrate == y.bitrate && ox < oy)
  }

  /** The last position below `n` at which `o` occurs in `levels`, or -1. */
  function LastPosition(levels: seq<EngineLevel>, o: EngineLevel, n: int): (p: int)
    requires 0 <= n <= |levels|
    ensures -1 <= p < n
    ensures p >= 0 ==> levels[p] == o
    ensures forall j :: p < j < n ==> levels[j] != o
  {
    if n == 0 then -1
    else if levels[n - 1] == o then n - 1
    else LastPosition(levels, o, n - 1)
  }

  /**
   * After stamping the first `n` positions, each of those objects carries the
   * last position below `n` at which it occurs (the loop writes in increasing
   * order, so a repeated object keeps the later write).
   */
  ghost predicate StampedUpTo(levels: seq<EngineLevel>, n: int)
    requires 0 <= n <= |levels|
    reads levels
  {
    forall i {:trigger levels[i].index} :: 0 <= i < n ==> levels[i].index == LastPosition(levels, levels[i], n)
  }

  /** `s` with positions `j - 1` and `j` exchanged. */
  function Swap<T>(s: seq<T>, j: int): (r: seq<T>)
    requires 0 < j < |s|
    ensures |r| == |s| && r[j - 1] == s[j] && r[j] == s[j - 1]
    ensures forall k :: 0 <= k < |s| && k != j - 1 && k != j ==> r[k] == s[k]
    ensures multiset(r) == multiset(s)
  {
    var r := s[j - 1 := s[j]][j := s[j - 1]];
    assert s == s[..j - 1] + [s[j - 1], s[j]] + s[j + 1..];
    assert r == s[..j - 1] + [s[j], s[j - 1]] + s[j + 1..];
    r
  }

  /** Element `k` of `s` is element `origin[k]` of the input `s0`. */
  predicate Tracks(s: seq<EngineLevel>, origin: seq<int>, s0: seq<EngineLevel>) {
    |origin| == |s| == |s0| &&
    forall k :: 0 <= k < |s| ==> 0 <= origin[k] < |s0| && s[k] == s0[origin[k]]
  }

  /** The first `i` slots hold the first `i` input elements in stable bitrate order; the rest are untouched. */
  predicate SortedPrefix(s: seq<EngineLevel>, origin: seq<int>, i: int) {
    0 <= i <= |s| == |origin| &&
    (forall k :: 0 <= k < i ==> origin[k] < i) &&
    (forall k :: i <= k < |s| ==> origin[k] == k) &&
    (forall k, l {:trigger Before(s[k], origin[k], s[l], origin[l])} ::
      0 <= k < l < i ==> Before(s[k], origin[k], s[l], origin[l]))
  }

  /**
   * Midway through inserting input element `i`: it sits at `j`, everything
   * else up to `i` is in stable order, and what lies right of `j` has strictly
   * greater bitrate.
   */
  predicate Inserting(s: seq<EngineLevel>, origin: seq<int>, i: int, j: int) {
    0 <= j <= i < |s| == |origin| &&
    origin[j] == i &&
    (forall k :: 0 <= k <= i && k != j ==> origin[k] < i) &&
    (forall k :: i < k < |s| ==> origin[k] == k) &&
    (forall k, l {:trigger Before(s[k], origin[k], s[l], origin[l])} ::
      0 <= k < l <= i && k != j && l != j ==> Before(s[k], origin[k], s[l], origin[l])) &&
    (forall l :: j < l <= i ==> s[j].bitrate < s[l].bitrate)
  }

  lemma SwapTracks(s: seq<EngineLevel>, origin: seq<int>, s0: seq<EngineLevel>, j: int)
    requires 0 < j < |s| && Tracks(s, origin, s0)
    ensures Tracks(Swap(s, j), Swap(origin, j), s0)
  {
  }

  lemma StartInsert(s: seq<EngineLevel>, origin: seq<int>, i: int)
    requires SortedPrefix(s, origin, i) && i < |s|
    ensures Inserting(s, origin, i, i)
  {
  }

  lemma StepInsert(s: seq<EngineLevel>, origin: seq<int>, i: int, j: int)
    requires Inserting(s, origin, i, j) && 0 < j && s[j].bitrate < s[j - 1].bitrate
    ensures Inserting(Swap(s, j), Swap(origin, j), i, j - 1)
  {
    var s', o' := Swap(s, j), Swap(origin, j);
    forall k, l | 0 <= k < l <= i && k != j - 1 && l != j - 1
      ensures Before(s'[k], o'[k], s'[l], o'[l])
    {
      // slot j of the new state holds what slot j - 1 held
      var k0 := if k == j then j - 1 else k;
      var l0 := if l == j then j - 1 else l;
      assert s'[k] == s[k0] && o'[k] == origin[k0];
      assert s'[l] == s[l0] && o'[l] == origin[l0];
      assert Before(s[k0], origin[k0], s[l0], origin[l0]);
    }
  }

  lemma FinishInsert(s: seq<EngineLevel>, origin: seq<int>, i: int, j: int)
    requires Inserting(s, origin, i, j) && (j == 0 || s[j - 1].bitrate <= s[j].bitrate)
    ensures SortedPrefix(s, origin, i + 1)
  {
    forall k, l | 0 <= k < l < i + 1
      ensures Before(s[k], origin[k], s[l], origin[l])
    {
      if l == j && k < j - 1 {
        assert Before(s[k], origin[k], s[j - 1], origin[j - 1]);
      }
    }
  }

  lemma {:induction false} SortedPrefixComplete(s: seq<EngineLevel>, origin: seq<int>)
    requires SortedPrefix(s, origin, |s|)
    ensures SortedByBitrate(s) && StableFrom(s, origin)
  {
    forall k, l | 0 <= k < l < |s|
      ensures s[k].bitrate <= s[l].bitrate
      ensures s[k].bitrate == s[l].bitrate ==> origin[k] < origin[l]
    {
      assert Before(s[k], origin[k], s[l], origin[l]);
    }
  }

  /**
   * One pass of the insertion sort: input element `i` moves left past every
   * element of strictly greater bitrate, so equal bitrates keep input order.
   */
  method InsertNext(a: array<EngineLevel>, i: int, ghost s0: seq<EngineLevel>, ghost origin: seq<int>)
    returns (ghost origin': seq<int>)
    requires 0 <= i < a.Length
    requires Tracks(a[..], origin, s0) && SortedPrefix(a[..], origin, i)
    modifies a
    ensures Tracks(a[..], origin', s0) && SortedPrefix(a[..], origin', i + 1)
    ensures multiset(a[..]) == multiset(old(a[..]))
  {
    ghost var cur := a[..];
    origin' := origin;
    StartInsert(cur, origin', i);
    var j := i;
    while 0 < j && a[j].bitrate < a[j - 1].bitrate
      invariant a[..] == cur
      invariant Tracks(cur, origin', s0)
      invariant Inserting(cur, origin', i, j)
      invariant multiset(cur) == multiset(old(a[..]))
    {
      StepInsert(cur, origin', i, j);
      SwapTracks(cur, origin', s0, j);
      a[j - 1], a[j] := a[j], a[j - 1];
      cur, origin' := Swap(cur, j), Swap(origin', j);
      j := j - 1;
    }
    FinishInsert(cur, origin', i, j);
  }

  /**
   * `Array.prototype.sort` with the three-way bitrate comparator, which is
   * stable: an insertion sort. The ghost `origin` says which input position
   * each element came from.
   */
  method SortByBitrate(a: array<EngineLevel>) returns (ghost origin: seq<int>)
    modifies a
    ensures Tracks(a[..], origin, old(a[..]))
    ensures SortedByBitrate(a[..]) && StableFrom(a[..], origin)
    ensures multiset(a[..]) == multiset(old(a[..]))
  {
    ghost var s0 := a[..];
    origin := seq(a.Length, k => k);
    var i := 0;
    while i < a.Length
      invariant Tracks(a[..], origin, s0)
      invariant SortedPrefix(a[..], origin, i)
      invariant multiset(a[..]) == multiset(s0)
    {
      origin := InsertNext(a, i, s0, origin);
      i := i + 1;
    }
    SortedPrefixComplete(a[..], origin);
  }

  /**
   * The stamping loop of `getLevels`: `levels[i].index = i` for each position,
   * in increasing order. The array holds the engine's objects, so the writes
   * land on them.
   */
  method StampPositions(a: array<EngineLevel>)
    modifies a[..]
    ensures a[..] == old(a[..])
    ensures StampedUpTo(a[..], a.Length)
  {
    var i := 0;
    while i < a.Length
      invariant 0 <= i <= a.Length
      invariant StampedUpTo(a[..], i)
    {
      a[i].index := i;
      i := i + 1;
    }
  }

  /** Each element's index names a position at which `levels` holds that very object. */
  ghost predicate PointsBack(s: seq<EngineLevel>, levels: seq<EngineLevel>)
    reads s
  {
    forall k :: 0 <= k < |s| ==> 0 <= s[k].index < |levels| && levels[s[k].index] == s[k]
  }

  /** Each level's index is its own position. */
  ghost predicate IndexedByPosition(levels: seq<EngineLevel>)
    reads levels
  {
    forall i :: 0 <= i < |levels| ==> levels[i].index == i
  }

  /** Levels of equal bitrate appear in increasing order of index. */
  ghost predicate StableByIndex(s: seq<EngineLevel>)
    reads s
  {
    forall k, l :: 0 <= k < l < |s| && s[k].bitrate == s[l].bitrate ==> s[k].index < s[l].index
  }

  /** With no repeated object, each level's stamped index is its own position. */
  lemma StampedDistinct(levels: seq<EngineLevel>)
    requires StampedUpTo(levels, |levels|) && Distinct(levels)
    ensures IndexedByPosition(levels)
  {
    forall i | 0 <= i < |levels|
      ensures levels[i].index == i
    {
      assert LastPosition(levels, levels[i], |levels|) >= i;
    }
  }

  /**
   * A stable rearrangement `s` of stamped levels points back into the engine
   * array; with no repeated object, equal bitrates stay in index order.
   */
  lemma StampedPointsBack(levels: seq<EngineLevel>, s: seq<EngineLevel>, origin: seq<int>)
    requires StampedUpTo(levels, |levels|)
    requires Tracks(s, origin, levels) && StableFrom(s, origin)
    ensures PointsBack(s, levels)
    ensures Distinct(levels) ==> IndexedByPosition(levels) && StableByIndex(s)
  {
    forall k | 0 <= k < |s|
      ensures 0 <= s[k].index < |levels| && levels[s[k].index] == s[k]
    {
      assert levels[origin[k]].index == LastPosition(levels, s[k], |levels|);
    }
    if Distinct(levels) {
      StampedDistinct(levels);
      assert forall k :: 0 <= k < |s| ==> s[k].index == origin[k];
    }
  }

  /** The engine side of the adapter: `this.hls`. */
  class HlsJs {
    /**
     * `hls.levels`, in the engine's own order. A constant here: the adapter
     * never reassigns or reorders it (it sorts a copy).
     */
    const levels: seq<EngineLevel>
    /** `hls.nextLevel`, read by the engine's scheduler at its next decision. */
    var nextLevel: int

    constructor (levels: seq<EngineLevel>, nextLevel: int)
      ensures this.levels == levels && this.nextLevel == nextLevel
    {
      this.levels := levels;
      this.nextLevel := nextLevel;
    }

    /**
     * `getLevels`: a fresh array holding the engine's level objects, sorted
     * stably by bitrate, each object stamped with its engine position. The
     * engine's array keeps its order; its objects gain the stamped index.
     */
    method GetLevels() returns (sorted: array<EngineLevel>, ghost origin: seq<int>)
      modifies levels
      ensures fresh(sorted)
      ensures Tracks(sorted[..], origin, levels) && multiset(sorted[..]) == multiset(levels)
      ensures SortedByBitrate(sorted[..]) && StableFrom(sorted[..], origin)
      ensures StampedUpTo(levels, |levels|) && PointsBack(sorted[..], levels)
      ensures Distinct(levels) ==> IndexedByPosition(levels) && StableByIndex(sorted[..])
    {
      var engine := levels;
      var copy := new EngineLevel[|engine|](k requires 0 <= k < |engine| => engine[k]);
      assert copy[..] == engine;
      StampPositions(copy);
      assert copy[..] == engine;
      origin := SortByBitrate(copy);
      assert Tracks(copy[..], origin, engine);
      sorted := copy;
      StampedPointsBack(engine, sorted[..], origin);
    }

    /** `setLevel`: only writes `hls.nextLevel`. */
    method SetLevel(level: int)
      modifies this`nextLevel
      ensures nextLevel == level
    {
      nextLevel := level;
    }
  }
}
