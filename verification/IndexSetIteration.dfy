/** Iteration over an index set stored as chunks of ranges: the two-level range iterator,
    forwards and backwards, and the iterator over the single indices. */
module IndexSetIteration {

  // A half-open range of indices.
  datatype Range = Range(first: nat, second: nat)

  type Chunks = seq<seq<Range>>

  // What the mutating operations maintain: no empty chunk.
  predicate NoEmptyChunk(cs: Chunks) {
    forall c :: 0 <= c < |cs| ==> cs[c] != []
  }

  function Flat(cs: Chunks): seq<Range> {
    if cs == [] then [] else Flat(cs[..|cs| - 1]) + cs[|cs| - 1]
  }

  // The place of the first range of chunk c in the flat sequence.
  function Start(cs: Chunks, c: nat): nat
    requires c <= |cs|
  {
    |Flat(cs[..c])|
  }

  lemma {:induction false} FlatAt(cs: Chunks, c: nat, i: nat)
    requires c < |cs| && i < |cs[c]|
    ensures Start(cs, c + 1) == Start(cs, c) + |cs[c]|
    ensures Start(cs, c) + i < |Flat(cs)| && Flat(cs)[Start(cs, c) + i] == cs[c][i]
  {
    var n := |cs| - 1;
    assert cs[..c + 1][..c] == cs[..c];
    if c == n {
      assert cs[..n + 1] == cs;
    } else {
      FlatAt(cs[..n], c, i);
      assert cs[..n][..c] == cs[..c];
    }
  }

  lemma {:induction false} StartsIncrease(cs: Chunks, c: nat, d: nat)
    requires NoEmptyChunk(cs) && c < d <= |cs|
    ensures Start(cs, c) + |cs[c]| <= Start(cs, d)
    decreases d
  {
    assert cs[d - 1] != [];
    FlatAt(cs, d - 1, 0);
    if c < d - 1 {
      StartsIncrease(cs, c, d - 1);
    }
  }

  // ---------- positions ----------

  // m_outer and m_inner of the iterator; None is the null pointer.
  datatype Inner = None | At(i: nat)
  datatype Position = Position(outer: nat, inner: Inner)

  predicate ValidAt(cs: Chunks, p: Position) {
    if p.inner.None? then p.outer == |cs| else p.outer < |cs| && p.inner.i < |cs[p.outer]|
  }

  // The place of a position in the flat sequence; the end is one past the last range.
  function Index(cs: Chunks, p: Position): nat
    requires ValidAt(cs, p)
  {
    if p.inner.None? then |Flat(cs)| else Start(cs, p.outer) + p.inner.i
  }

  lemma IndexBounds(cs: Chunks, p: Position)
    requires ValidAt(cs, p)
    ensures p.inner.At? ==> Index(cs, p) < |Flat(cs)| && Flat(cs)[Index(cs, p)] == cs[p.outer][p.inner.i]
  {
    if p.inner.At? {
      FlatAt(cs, p.outer, p.inner.i);
    }
  }

  // A place in the flat sequence has one position, so moving back undoes moving forward.
  lemma OnePosition(cs: Chunks, p: Position, q: Position)
    requires NoEmptyChunk(cs) && ValidAt(cs, p) && ValidAt(cs, q)
    requires Index(cs, p) == Index(cs, q)
    ensures p == q
  {
    IndexBounds(cs, p);
    IndexBounds(cs, q);
    if p.inner.At? && q.inner.At? {
      if p.outer < q.outer {
        StartsIncrease(cs, p.outer, q.outer);
      } else if q.outer < p.outer {
        StartsIncrease(cs, q.outer, p.outer);
      }
    }
  }

  // ---------- ChunkedRangeVectorIterator ----------

  class RangeIterator {
    const chunks: Chunks
    var outer: nat
    var inner: Inner

    ghost predicate Valid()
      reads this
    {
      NoEmptyChunk(chunks) && ValidAt(chunks, Here())
    }

    function Here(): Position
      reads this
    {
      Position(outer, inner)
    }

    ghost function Place(): nat
      requires Valid()
      reads this
    {
      Index(chunks, Here())
    }

    constructor Begin(chunks: Chunks)
      requires NoEmptyChunk(chunks)
      ensures this.chunks == chunks && Valid() && Place() == 0
    {
      this.chunks := chunks;
      outer := if chunks == [] then |chunks| else 0;
      inner := if chunks == [] then None else At(0);
    }

    constructor End(chunks: Chunks)
      requires NoEmptyChunk(chunks)
      ensures this.chunks == chunks && Valid() && Place() == |Flat(chunks)| && Here() == Position(|chunks|, None)
    {
      this.chunks := chunks;
      outer, inner := |chunks|, None;
    }

    // operator*; the source dereferences only before the end
    method Current() returns (r: Range)
      requires Valid() && inner != None
      ensures Place() < |Flat(chunks)| && r == Flat(chunks)[Place()]
    {
      IndexBounds(chunks, Here());
      r := chunks[outer][inner.i];
    }

    // operator++
    method Next()
      requires Valid() && Place() < |Flat(chunks)|
      modifies this
      ensures Valid() && Place() == old(Place()) + 1
    {
      FlatAt(chunks, outer, inner.i);
      inner := At(inner.i + 1);
      if inner.i == |chunks[outer]| {
        NextChunk();
      }
    }

    // next_chunk
    method NextChunk()
      requires NoEmptyChunk(chunks) && outer < |chunks|
      modifies this
      ensures Valid() && Place() == Start(chunks, old(outer) + 1)
    {
      outer := outer + 1;
      inner := if outer != |chunks| then At(0) else None;
      assert chunks[..|chunks|] == chunks;
    }

    // operator--, also from the end
    method Previous()
      requires Valid() && Place() > 0
      modifies this
      ensures Valid() && Place() == old(Place()) - 1
    {
      if inner == None || inner.i == 0 {
        assert chunks[..|chunks|] == chunks && chunks[..0] == [];
        assert outer > 0;
        outer := outer - 1;
        assert chunks[outer] != [];
        inner := At(|chunks[outer]| - 1);
        FlatAt(chunks, outer, inner.i);
      } else {
        inner := At(inner.i - 1);
      }
    }
  }

  method NextThenPrevious(it: RangeIterator)
    requires it.Valid() && it.Place() < |Flat(it.chunks)|
    modifies it
    ensures it.Valid() && it.Here() == old(it.Here())
  {
    it.Next();
    it.Previous();
    OnePosition(it.chunks, it.Here(), old(it.Here()));
  }

  // From begin to end the iterator visits the ranges of all chunks in order.
  method VisitRanges(chunks: Chunks) returns (ranges: seq<Range>)
    requires NoEmptyChunk(chunks)
    ensures ranges == Flat(chunks)
  {
    var it := new RangeIterator.Begin(chunks);
    var end := new RangeIterator.End(chunks);
    ranges := [];
    while it.Here() != end.Here()
      invariant it.chunks == chunks && it.Valid() && fresh(it) && it != end
      invariant end.Here() == Position(|chunks|, None)
      invariant it.Place() <= |Flat(chunks)| && ranges == Flat(chunks)[..it.Place()]
      decreases |Flat(chunks)| - it.Place()
    {
      IndexBounds(chunks, it.Here());
      var r := it.Current();
      ranges := ranges + [r];
      it.Next();
    }
  }

  // ---------- IndexSet::IndexIterator ----------

  // What the set keeps: ranges are not empty, in order, and apart.
  predicate Sorted(rs: seq<Range>) {
    && (forall i :: 0 <= i < |rs| ==> rs[i].first < rs[i].second)
    && (forall i, j :: 0 <= i < j < |rs| ==> rs[i].second <= rs[j].first)
  }

  function Count(first: nat, n: nat): seq<nat> {
    seq(n, i requires i >= 0 => first + i)
  }

  // The single indices of the ranges, in order.
  function Indices(rs: seq<Range>): seq<nat>
    requires Sorted(rs)
  {
    if rs == [] then []
    else
      var r := rs[|rs| - 1];
      Indices(rs[..|rs| - 1]) + Count(r.first, r.second - r.first)
  }

  predicate Contains(rs: seq<Range>, x: nat) {
    exists i :: 0 <= i < |rs| && rs[i].first <= x < rs[i].second
  }

  lemma ContainsLast(rs: seq<Range>, x: nat)
    requires rs != []
    ensures var n := |rs| - 1;
            Contains(rs, x) <==> Contains(rs[..n], x) || rs[n].first <= x < rs[n].second
  {
    var n := |rs| - 1;
    if Contains(rs[..n], x) {
      var i :| 0 <= i < |rs[..n]| && rs[..n][i].first <= x < rs[..n][i].second;
      assert rs[i] == rs[..n][i];
    }
    if Contains(rs, x) && !(rs[n].first <= x < rs[n].second) {
      var i :| 0 <= i < |rs| && rs[i].first <= x < rs[i].second;
      assert rs[i] == rs[..n][i];
    }
  }

  // Every contained index comes exactly once, in increasing order.
  lemma {:induction false} IndicesAreTheSet(rs: seq<Range>)
    requires Sorted(rs)
    ensures forall x :: x in Indices(rs) <==> Contains(rs, x)
    ensures forall i, j :: 0 <= i < j < |Indices(rs)| ==> Indices(rs)[i] < Indices(rs)[j]
  {
    if rs != [] {
      var n := |rs| - 1;
      var r, before := rs[n], Indices(rs[..n]);
      var last := Count(r.first, r.second - r.first);
      IndicesAreTheSet(rs[..n]);
      forall x: nat ensures x in last <==> r.first <= x < r.second {
        if r.first <= x < r.second {
          assert last[x - r.first] == x;
        }
      }
      forall x: nat ensures Contains(rs, x) <==> Contains(rs[..n], x) || r.first <= x < r.second {
        ContainsLast(rs, x);
      }
      forall x | x in before ensures x < r.first {
        assert Contains(rs[..n], x);
        var i :| 0 <= i < n && rs[..n][i].first <= x < rs[..n][i].second;
        assert rs[i].second <= rs[n].first;
      }
      forall i, j | 0 <= i < j < |before + last| ensures (before + last)[i] < (before + last)[j] {
        if i < |before| {
          assert before[i] in before;
        }
      }
    }
  }

  // The indices before the offset-th of range k.
  function YieldedAt(rs: seq<Range>, k: nat, offset: nat): seq<nat>
    requires Sorted(rs) && k <= |rs|
  {
    Indices(rs[..k]) + if k < |rs| then Count(rs[k].first, offset) else []
  }

  lemma YieldStep(rs: seq<Range>, k: nat, offset: nat)
    requires Sorted(rs) && k < |rs| && rs[k].first + offset < rs[k].second
    ensures YieldedAt(rs, k, offset + 1) == YieldedAt(rs, k, offset) + [rs[k].first + offset]
    ensures rs[k].first + offset + 1 == rs[k].second ==> YieldedAt(rs, k, offset + 1) == YieldedAt(rs, k + 1, 0)
  {
    assert Count(rs[k].first, offset + 1) == Count(rs[k].first, offset) + [rs[k].first + offset];
    assert rs[..k + 1][..k] == rs[..k];
  }

  lemma NothingYielded(rs: seq<Range>)
    requires Sorted(rs)
    ensures YieldedAt(rs, 0, 0) == []
  {
  }

  lemma AllYielded(rs: seq<Range>, offset: nat)
    requires Sorted(rs)
    ensures YieldedAt(rs, |rs|, offset) == Indices(rs)
  {
    assert rs[..|rs|] == rs;
  }

  lemma {:induction false} YieldedIsShorter(rs: seq<Range>, k: nat, offset: nat)
    requires Sorted(rs) && k < |rs| && rs[k].first + offset < rs[k].second
    ensures |YieldedAt(rs, k, offset)| < |Indices(rs)|
  {
    var n := |rs| - 1;
    if k < n {
      assert rs[..n][..k] == rs[..k];
      YieldedIsShorter(rs[..n], k, offset);
    }
  }

  lemma NotEmptyAt(rs: seq<Range>, k: nat)
    requires Sorted(rs)
    ensures k < |rs| ==> rs[k].first < rs[k].second
  {
  }

  class IndexIterator {
    const ranges: RangeIterator
    var offset: nat

    constructor (ranges: RangeIterator)
      ensures this.ranges == ranges && offset == 0
    {
      this.ranges := ranges;
      offset := 0;
    }

    // Before the end, at an index of the current range.
    ghost predicate Valid()
      reads this, ranges
    {
      && ranges.Valid()
      && (ranges.inner == None ==> offset == 0)
      && (ranges.inner != None ==>
            var r := ranges.chunks[ranges.outer][ranges.inner.i]; r.first + offset < r.second)
    }

    // The indices yielded before this position.
    ghost function Yielded(): seq<nat>
      requires Valid() && Sorted(Flat(ranges.chunks))
      reads this, ranges
    {
      IndexBounds(ranges.chunks, ranges.Here());
      YieldedAt(Flat(ranges.chunks), ranges.Place(), offset)
    }

    // operator*
    method Current() returns (x: nat)
      requires Valid() && ranges.inner != None
      ensures ranges.Place() < |Flat(ranges.chunks)|
      ensures x == Flat(ranges.chunks)[ranges.Place()].first + offset
    {
      var r := ranges.Current();
      x := r.first + offset;
    }

    // operator++
    method Next()
      requires Valid() && ranges.inner != None && Sorted(Flat(ranges.chunks))
      modifies this, ranges
      ensures Valid()
      ensures Yielded() == old(Yielded()) + [old(ranges.chunks[ranges.outer][ranges.inner.i].first + offset)]
    {
      hide Flat, Start, Sorted, YieldedAt;
      ghost var rs, k := Flat(ranges.chunks), ranges.Place();
      IndexBounds(ranges.chunks, ranges.Here());
      YieldStep(rs, k, offset);
      var r := ranges.Current();
      offset := offset + 1;
      if r.first + offset == r.second {
        ranges.Next();
        offset := 0;
        NotEmptyAt(rs, ranges.Place());
        IndexBounds(ranges.chunks, ranges.Here());
      }
    }
  }

  // From begin to end the index iterator yields the indices of the set in order.
  method VisitIndices(chunks: Chunks) returns (xs: seq<nat>)
    requires NoEmptyChunk(chunks) && Sorted(Flat(chunks))
    ensures xs == Indices(Flat(chunks))
  {
    hide Flat, Start, Sorted, YieldedAt, Indices;
    var ranges := new RangeIterator.Begin(chunks);
    var it := new IndexIterator(ranges);
    ghost var rs := Flat(chunks);
    NotEmptyAt(rs, 0);
    IndexBounds(chunks, ranges.Here());
    NothingYielded(rs);
    xs := [];
    while it.ranges.Here() != Position(|chunks|, None)
      invariant it.ranges == ranges && ranges.chunks == chunks && fresh(it) && fresh(ranges)
      invariant it.Valid() && xs == it.Yielded()
      decreases |Indices(rs)| - |xs|
    {
      IndexBounds(chunks, ranges.Here());
      YieldedIsShorter(rs, ranges.Place(), it.offset);
      var x := it.Current();
      xs := xs + [x];
      it.Next();
      if ranges.inner != None {
        IndexBounds(chunks, ranges.Here());
        YieldedIsShorter(rs, ranges.Place(), it.offset);
      }
    }
    AllYielded(rs, it.offset);
  }
}
