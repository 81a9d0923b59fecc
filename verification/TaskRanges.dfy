/** A block range cut into batches: how a tick generates tasks and how a worker requests blocks. */
module TaskRanges {
  import opened Machine
  import opened ScanScheduler

  /** The consecutive ranges of at most `batch` blocks from first to last, numbered from id. */
  function Chunks(id: nat, first: nat, last: nat, batch: pos): seq<Span>
    decreases last - first
  {
    if first > last then []
    else [Span(id, first, Min(first + batch - 1, last))] + Chunks(id + 1, first + batch, last, batch)
  }

  /** The block numbers from first to last. */
  function Heights(first: int, last: int): (hs: seq<int>)
    decreases last - first
  {
    if first > last then [] else [first] + Heights(first + 1, last)
  }

  function HeightsOf(spans: seq<Span>): seq<int> {
    if spans == [] then [] else Heights(spans[0].first, spans[0].last) + HeightsOf(spans[1..])
  }

  lemma {:induction false} HeightsSplit(first: int, mid: int, last: int)
    requires first <= mid + 1 && mid <= last
    ensures Heights(first, last) == Heights(first, mid) + Heights(mid + 1, last)
    decreases mid - first
  {
    if first <= mid {
      HeightsSplit(first + 1, mid, last);
    }
  }

  /** Heights is ascending, without gap and without repetition. */
  lemma {:induction false} HeightsAt(first: int, last: int, i: nat)
    requires first <= last + 1
    ensures |Heights(first, last)| == last - first + 1
    ensures i < last - first + 1 ==> Heights(first, last)[i] == first + i
    decreases last - first
  {
    if first <= last {
      HeightsAt(first + 1, last, if i > 0 then i - 1 else 0);
    }
  }

  lemma {:induction false} HeightsOfConcat(a: seq<Span>, b: seq<Span>)
    ensures HeightsOf(a + b) == HeightsOf(a) + HeightsOf(b)
  {
    if a == [] {
      assert a + b == b;
    } else {
      assert (a + b)[1..] == a[1..] + b;
      HeightsOfConcat(a[1..], b);
    }
  }

  lemma HeightsOfNext(spans: seq<Span>, n: nat)
    requires n < |spans|
    ensures HeightsOf(spans[..n + 1]) == HeightsOf(spans[..n]) + Heights(spans[n].first, spans[n].last)
  {
    assert spans[..n + 1] == spans[..n] + [spans[n]];
    HeightsOfConcat(spans[..n], [spans[n]]);
  }

  /** The chunks request every block from first to last once, in ascending order. */
  lemma {:induction false} ChunksHeights(id: nat, first: nat, last: nat, batch: pos)
    ensures HeightsOf(Chunks(id, first, last, batch)) == Heights(first, last)
    decreases last - first
  {
    if first <= last {
      var e := Min(first + batch - 1, last);
      ChunksHeights(id + 1, first + batch, last, batch);
      HeightsSplit(first, e, last);
      assert Chunks(id, first, last, batch)[1..] == Chunks(id + 1, first + batch, last, batch);
    }
  }

  /** The ranges follow each other without gap or overlap, each holds between 1 and `batch` blocks. */
  ghost predicate Consecutive(spans: seq<Span>, id: nat, first: nat, last: nat, batch: pos) {
    && (spans != [] ==> spans[0].first == first)
    && (forall i | 1 <= i < |spans| :: spans[i].first == spans[i - 1].last + 1)
    && (forall i | 0 <= i < |spans| ::
          && spans[i].id == id + i
          && spans[i].first <= spans[i].last <= last
          && spans[i].last - spans[i].first + 1 <= batch)
  }

  lemma {:induction false} ChunksConsecutive(id: nat, first: nat, last: nat, batch: pos)
    ensures var spans := Chunks(id, first, last, batch);
      && Consecutive(spans, id, first, last, batch)
      && (first <= last ==> spans != [] && spans[|spans| - 1].last == last)
    decreases last - first
  {
    if first <= last {
      ChunksConsecutive(id + 1, first + batch, last, batch);
      var spans, rest := Chunks(id, first, last, batch), Chunks(id + 1, first + batch, last, batch);
      forall i | 0 <= i < |spans|
        ensures spans[i].id == id + i
        ensures i > 0 ==> spans[i].first == spans[i - 1].last + 1
        ensures spans[i].first <= spans[i].last <= last && spans[i].last - spans[i].first + 1 <= batch
      {
        if i > 0 {
          assert spans[i] == rest[i - 1];
          if i > 1 { assert spans[i - 1] == rest[i - 2]; }
        }
      }
      if rest != [] { assert spans[|spans| - 1] == rest[|rest| - 1]; }
    }
  }

  /** A smaller number of batches than `limit` is enough exactly when limit * batch blocks cover the range. */
  lemma {:induction false} ChunkCount(id: nat, first: nat, last: nat, batch: pos, limit: nat)
    requires first <= last + 1
    ensures |Chunks(id, first, last, batch)| <= limit <==> last - first + 1 <= limit * batch
    decreases last - first
  {
    if first <= last {
      if limit == 0 {
        assert limit * batch == 0;
      } else {
        assert (limit - 1) * batch == limit * batch - batch;
        if first + batch <= last + 1 {
          ChunkCount(id + 1, first + batch, last, batch, limit - 1);
        } else {
          assert Chunks(id + 1, first + batch, last, batch) == [];
          assert (limit - 1) * batch >= 0;
        }
      }
    } else {
      assert limit * batch >= 0;
    }
  }

  /** What remains of the chunks when n of them are done. */
  lemma NextChunk(spans: seq<Span>, id: nat, n: nat, start: nat, last: nat, batch: pos)
    requires n <= |spans| && spans[n..] == Chunks(id + n, start, last, batch) && start <= last
    ensures n < |spans| && spans[n] == Span(id + n, start, Min(start + batch - 1, last))
    ensures spans[n + 1..] == Chunks(id + n + 1, start + batch, last, batch)
  {
    assert spans[n] == spans[n..][0];
    assert spans[n + 1..] == spans[n..][1..];
  }
}
