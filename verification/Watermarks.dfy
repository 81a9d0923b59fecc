/** The watermark of one chain and its block-hash cache. */
module Watermarks {
  import opened Machine
  import HashCache
  import SortedHeights

  datatype Watermark = Watermark(scanned: uint64, confirmed: uint64, finalized: uint64, boundary: uint64)

  const INITIAL := Watermark(0, 0, 0, 0)

  /** The boundary that goes with a scanned height: int64(height) - int64(depth), not below zero. */
  function ReorgBoundary(height: uint64, depth: uint64): uint64 {
    var b := Signed(Signed(height) - Signed(depth));
    if b < 0 then 0 else b
  }

  /** The boundary that the arithmetic is meant to compute. */
  function Exact(height: uint64, depth: uint64): uint64 {
    Max(0, height - depth)
  }

  predicate Fits(height: uint64, depth: uint64) {
    -I63 <= height - depth < I63
  }

  /** The boundary is max(0, height - depth) exactly when the true difference fits into int64. */
  lemma ReorgBoundaryIff(height: uint64, depth: uint64)
    ensures ReorgBoundary(height, depth) == Exact(height, depth) <==> Fits(height, depth)
  {
    SignedDifference(height, depth);
    var diff := height - depth;
    if diff >= I63 {
      assert Signed(diff) == diff - U64;
    } else if diff < -I63 {
      assert Signed(diff) == diff + U64;
    } else {
      assert Signed(diff) == diff;
    }
  }

  lemma SignedDifference(a: uint64, b: uint64)
    ensures Signed(Signed(a) - Signed(b)) == Signed(a - b)
  {
  }

  datatype Op = Scan(height: uint64) | Confirm(height: uint64) | Finalize(height: uint64) | Reset(height: uint64)

  /** The watermark after one update that got its locks.  A refused update leaves it as it is. */
  function Updated(w: Watermark, op: Op, depth: uint64): Watermark {
    match op
    case Scan(h) =>
      if h <= w.scanned then w else w.(scanned := h, boundary := ReorgBoundary(h, depth))
    case Confirm(h) =>
      if h <= w.confirmed then w else w.(confirmed := h, boundary := ReorgBoundary(w.scanned, depth))
    case Finalize(h) =>
      if h <= w.finalized then w else w.(finalized := h)
    case Reset(h) =>
      if h > w.scanned then w else w.(scanned := h)
  }

  function After(w: Watermark, ops: seq<Op>, depth: uint64): Watermark {
    if ops == [] then w else Updated(After(w, ops[..|ops| - 1], depth), ops[|ops| - 1], depth)
  }

  /** All scanned heights are small enough for the boundary arithmetic. */
  predicate InRange(ops: seq<Op>, depth: uint64) {
    depth <= I63 && forall i | 0 <= i < |ops| && ops[i].Scan? :: ops[i].height - depth < I63
  }

  /** Which height an update makes the new anchor, if the old one was `anchor`. */
  function NextAnchor(w: Watermark, op: Op, anchor: uint64): uint64 {
    match op
    case Scan(h) => if h > w.scanned then h else anchor
    case Confirm(h) => if h > w.confirmed then w.scanned else anchor
    case _ => anchor
  }

  /** The scanned height at the latest update that recomputed the boundary; zero before the first one. */
  function Anchor(ops: seq<Op>, depth: uint64): uint64 {
    if ops == [] then 0
    else
      var before := ops[..|ops| - 1];
      NextAnchor(After(INITIAL, before, depth), ops[|ops| - 1], Anchor(before, depth))
  }

  lemma BoundaryStep(w: Watermark, op: Op, anchor: uint64, depth: uint64)
    requires depth <= I63 && (op.Scan? ==> Fits(op.height, depth))
    requires w.boundary == Exact(anchor, depth) && w.scanned <= anchor && Fits(anchor, depth)
    ensures var w', anchor' := Updated(w, op, depth), NextAnchor(w, op, anchor);
      w'.boundary == Exact(anchor', depth) && w'.scanned <= anchor' && Fits(anchor', depth)
  {
    ReorgBoundaryIff(w.scanned, depth);
    ReorgBoundaryIff(op.height, depth);
  }

  /**
   In every run with resets the boundary is that of the anchor, which resets never lower.  Hence it is never below
   max(0, scanned - depth), and above it exactly when a reset put the scanned height below an anchor beyond depth.
   */
  lemma {:induction false} BoundaryInvariant(ops: seq<Op>, depth: uint64)
    requires InRange(ops, depth)
    ensures var w, anchor := After(INITIAL, ops, depth), Anchor(ops, depth);
      && w.boundary == Exact(anchor, depth) && w.scanned <= anchor && Fits(anchor, depth)
      && w.boundary >= Exact(w.scanned, depth)
      && (w.boundary == Exact(w.scanned, depth) <==> w.scanned == anchor || anchor <= depth)
  {
    if ops != [] {
      var before, op := ops[..|ops| - 1], ops[|ops| - 1];
      BoundaryInvariant(before, depth);
      BoundaryStep(After(INITIAL, before, depth), op, Anchor(before, depth), depth);
    }
  }

  /** Right after a boundary-relevant update that is not a reset the boundary is exact. */
  lemma BoundaryExactAfter(ops: seq<Op>, op: Op, depth: uint64)
    requires InRange(ops + [op], depth)
    requires var w := After(INITIAL, ops, depth);
      (op.Scan? && op.height > w.scanned) || (op.Confirm? && op.height > w.confirmed)
    ensures var w := After(INITIAL, ops + [op], depth); w.boundary == Exact(w.scanned, depth)
  {
    assert (ops + [op])[..|ops + [op]| - 1] == ops;
    BoundaryInvariant(ops + [op], depth);
  }

  /** Along every run confirmed and finalized never decrease, and scanned never does without a reset. */
  lemma {:induction false} RunsAreMonotone(w: Watermark, ops: seq<Op>, depth: uint64)
    ensures var w' := After(w, ops, depth);
      && w.confirmed <= w'.confirmed && w.finalized <= w'.finalized
      && ((forall i | 0 <= i < |ops| :: !ops[i].Reset?) ==> w.scanned <= w'.scanned)
  {
    if ops != [] {
      RunsAreMonotone(w, ops[..|ops| - 1], depth);
    }
  }

  /** h is w's own height, or that of one of the operations, and no operation is higher. */
  ghost predicate Largest(h: nat, base: nat, heights: set<nat>) {
    (h == base || h in heights) && base <= h && forall x | x in heights :: x <= h
  }

  function Confirms(ops: seq<Op>): set<nat> {
    set i | 0 <= i < |ops| && ops[i].Confirm? :: ops[i].height as nat
  }

  function Finalizes(ops: seq<Op>): set<nat> {
    set i | 0 <= i < |ops| && ops[i].Finalize? :: ops[i].height as nat
  }

  function Scans(ops: seq<Op>): set<nat> {
    set i | 0 <= i < |ops| && ops[i].Scan? :: ops[i].height as nat
  }

  lemma OneMoreOp(ops: seq<Op>, op: Op)
    ensures Confirms(ops + [op]) == Confirms(ops) + if op.Confirm? then {op.height as nat} else {}
    ensures Finalizes(ops + [op]) == Finalizes(ops) + if op.Finalize? then {op.height as nat} else {}
    ensures Scans(ops + [op]) == Scans(ops) + if op.Scan? then {op.height as nat} else {}
  {
    var more := ops + [op];
    assert more[|ops|] == op && forall i | 0 <= i < |ops| :: more[i] == ops[i];
  }

  /**
   In every run, with resets, the confirmed height is the largest that was confirmed and the finalized height the
   largest that was finalized, whatever was scanned; and without a reset the scanned height is the largest that was
   scanned.
   */
  lemma {:induction false} HeightsAreLargest(w: Watermark, ops: seq<Op>, depth: uint64)
    ensures var w' := After(w, ops, depth);
      && Largest(w'.confirmed, w.confirmed, Confirms(ops))
      && Largest(w'.finalized, w.finalized, Finalizes(ops))
      && ((forall i | 0 <= i < |ops| :: !ops[i].Reset?) ==> Largest(w'.scanned, w.scanned, Scans(ops)))
  {
    if ops != [] {
      var front, last := ops[..|ops| - 1], ops[|ops| - 1];
      HeightsAreLargest(w, front, depth);
      OneMoreOp(front, last);
      assert ops == front + [last];
    }
  }

  /** Right after a granted reset the scanned height is the one asked for, unless it was above the scanned one. */
  lemma ResetIs(w: Watermark, h: uint64, depth: uint64)
    ensures Updated(w, Reset(h), depth) ==
      Watermark(if h <= w.scanned then h else w.scanned, w.confirmed, w.finalized, w.boundary)
  {
  }

  /** The documented order finalized <= confirmed <= scanned. */
  predicate Ordered(w: Watermark) {
    w.finalized <= w.confirmed <= w.scanned
  }

  /** No update enforces the documented order: it survives exactly when the caller's height respects it. */
  lemma OrderSurvivesIff(w: Watermark, op: Op, depth: uint64)
    requires Ordered(w)
    ensures Ordered(Updated(w, op, depth)) <==>
      match op
      case Scan(_) => true
      case Confirm(h) => h <= w.scanned
      case Finalize(h) => h <= w.confirmed
      case Reset(h) => w.confirmed <= h || w.scanned < h
  {
  }

  class WatermarkManager {
    const depth: uint64
    var watermark: Watermark
    var blockHashes: map<nat, string>

    constructor (depth: uint64)
      ensures this.depth == depth && watermark == INITIAL && blockHashes == map[]
    {
      this.depth := depth;
      watermark := INITIAL;
      blockHashes := map[];
    }

    /** `locked` tells whether the distributed lock was granted. */
    method UpdateScannedHeight(height: uint64, locked: bool) returns (ok: bool)
      modifies this`watermark
      ensures ok == locked
      ensures watermark == if locked then Updated(old(watermark), Scan(height), depth) else old(watermark)
      ensures watermark.scanned == if locked then Max(old(watermark.scanned), height) else old(watermark.scanned)
      ensures watermark.confirmed == old(watermark.confirmed) && watermark.finalized == old(watermark.finalized)
      ensures locked && height > old(watermark.scanned) && Fits(height, depth) ==>
        watermark.boundary == Max(0, height - depth)
      ensures !locked || height <= old(watermark.scanned) ==> watermark.boundary == old(watermark.boundary)
    {
      ReorgBoundaryIff(height, depth);
      if !locked {
        return false;
      }
      if height <= watermark.scanned {
        return true;
      }
      var boundary := Signed(Signed(height) - Signed(depth));
      if boundary < 0 {
        boundary := 0;
      }
      watermark := watermark.(scanned := height, boundary := boundary);
      return true;
    }

    method UpdateConfirmedHeight(height: uint64)
      modifies this`watermark
      ensures watermark == Updated(old(watermark), Confirm(height), depth)
      ensures watermark.confirmed == Max(old(watermark.confirmed), height)
      ensures watermark.scanned == old(watermark.scanned) && watermark.finalized == old(watermark.finalized)
      ensures height > old(watermark.confirmed) && Fits(watermark.scanned, depth) ==>
        watermark.boundary == Max(0, watermark.scanned - depth)
      ensures height <= old(watermark.confirmed) ==> watermark.boundary == old(watermark.boundary)
    {
      ReorgBoundaryIff(watermark.scanned, depth);
      if height > watermark.confirmed {
        var boundary := Signed(Signed(watermark.scanned) - Signed(depth));
        if boundary < 0 {
          boundary := 0;
        }
        watermark := watermark.(confirmed := height, boundary := boundary);
      }
    }

    method UpdateFinalizedHeight(height: uint64)
      modifies this`watermark
      ensures watermark == Updated(old(watermark), Finalize(height), depth)
      ensures watermark.finalized == Max(old(watermark.finalized), height)
      ensures watermark.scanned == old(watermark.scanned) && watermark.confirmed == old(watermark.confirmed)
      ensures watermark.boundary == old(watermark.boundary)
    {
      if height > watermark.finalized {
        watermark := watermark.(finalized := height);
      }
    }

    /** Lowers the scanned height and forgets the hashes above it; a height above the scanned one is refused. */
    method ResetToHeight(height: uint64, locked: bool) returns (ok: bool)
      modifies this
      ensures ok == (locked && height <= old(watermark).scanned)
      ensures watermark == if ok then Updated(old(watermark), Reset(height), depth) else old(watermark)
      ensures watermark == if ok then old(watermark).(scanned := height) else old(watermark)
      ensures blockHashes ==
        if ok then map k | k in old(blockHashes) && k <= height :: old(blockHashes)[k] else old(blockHashes)
    {
      if !locked || height > watermark.scanned {
        return false;
      }
      watermark := watermark.(scanned := height);
      CleanupBlockHashesAfter(height);
      return true;
    }

    method CleanupBlockHashesAfter(height: uint64)
      modifies this`blockHashes
      ensures blockHashes == map k | k in old(blockHashes) && k <= height :: old(blockHashes)[k]
    {
      var pending := blockHashes.Keys;
      while pending != {}
        invariant pending <= blockHashes.Keys <= old(blockHashes).Keys
        invariant forall k | k in blockHashes :: blockHashes[k] == old(blockHashes)[k]
        invariant forall k | k in old(blockHashes) && k !in pending :: k in blockHashes <==> k <= height
        decreases pending
      {
        var k :| k in pending;
        if k > height {
          blockHashes := blockHashes - {k};
        }
        pending := pending - {k};
      }
    }

    /** The store itself; the cleanup it starts runs later, on its own. */
    method SetBlockHash(height: uint64, hash: string)
      modifies this`blockHashes
      ensures blockHashes == old(blockHashes)[height := hash]
    {
      blockHashes := blockHashes[height := hash];
    }

    method SortHeights(heights: set<nat>) returns (r: seq<nat>)
      ensures r == SortedHeights.Sorted(heights)
    {
      r := [];
      var rest := heights;
      while rest != {}
        invariant r + SortedHeights.Sorted(rest) == SortedHeights.Sorted(heights)
        decreases rest
      {
        ghost var lowest := SortedHeights.Lowest(rest);
        var m :| m in rest && forall j | j in rest :: m <= j;
        assert m == lowest;
        r := r + [m];
        rest := rest - {m};
      }
    }

    /** A cleanup that nothing disturbs leaves exactly the hashes of the KeepCount(depth) largest heights. */
    method CleanupOldBlockHashes()
      modifies this`blockHashes
      ensures var keep := HashCache.KeepCount(depth);
        && blockHashes == HashCache.Pruned(old(blockHashes), keep)
        && |blockHashes.Keys| == if keep <= 0 then |old(blockHashes).Keys| else Min(|old(blockHashes).Keys|, keep)
    {
      var keepCount := Signed(Signed(depth) * 2);
      HashCache.PrunedIs(blockHashes, keepCount);
      if keepCount <= 0 || |blockHashes.Keys| <= keepCount {
        return;
      }
      var heights := SortHeights(blockHashes.Keys);
      var deleteCount := |heights| - keepCount;
      for i := 0 to deleteCount
        invariant blockHashes == old(blockHashes) - SortedHeights.Elements(heights[..i])
      {
        HashCache.RemoveOne(old(blockHashes), heights, i);
        blockHashes := blockHashes - {heights[i]};
      }
    }
  }
}
