/** `SyncNodes` as values: a run applies the per-block operation to every
    block number from the cursor's own block through the node's tip, in
    increasing order. The node's answers come in as `fetch`; `None` is a
    block the node did not return, which the per-block operation skips. */
module Sync {
  import opened Wrappers
  import opened Models
  import opened Ledger

  /** The numbers `start, start + 1, ..., end - 1`. */
  function Range(start: nat, end: nat): (r: seq<nat>)
    ensures |r| == if end >= start then end - start else 0
    ensures forall i :: 0 <= i < |r| ==> r[i] == start + i
    decreases end
  {
    if end <= start then [] else Range(start, end - 1) + [end - 1]
  }

  /** The blocks `start` to `end - 1` applied in increasing order. */
  function SyncUpTo(rev: Revision, address: string, l: LedgerState, start: nat, end: nat, fetch: nat -> Option<BlockData>): (r: LedgerState)
    ensures r.cursor == l.cursor || start <= r.cursor.number < end
    ensures end <= start ==> r == l
    decreases end
  {
    if end <= start then l
    else ApplyBlock(rev, address, SyncUpTo(rev, address, l, start, end - 1, fetch), end - 1, fetch(end - 1))
  }

  /** The node returned at least one of the blocks `start` to `end - 1`:
      a run over them writes the wallet file at least once. */
  predicate SomeBlockFound(fetch: nat -> Option<BlockData>, start: nat, end: nat) {
    exists m :: start <= m < end && fetch(m).Some?
  }

  lemma SomeBlockFoundStep(fetch: nat -> Option<BlockData>, start: nat, n: nat)
    requires start <= n
    ensures SomeBlockFound(fetch, start, n + 1) <==> SomeBlockFound(fetch, start, n) || fetch(n).Some?
  {
  }

  /** A whole run: from the cursor's own block through the tip, inclusive. */
  function SyncRun(rev: Revision, address: string, l: LedgerState, tip: nat, fetch: nat -> Option<BlockData>): (r: LedgerState)
    ensures tip < l.cursor.number ==> r == l
    ensures tip >= l.cursor.number ==> l.cursor.number <= r.cursor.number <= tip
  {
    SyncUpTo(rev, address, l, l.cursor.number, tip + 1, fetch)
  }

  /** The block numbers a run hands to the per-block operation, in order:
      exactly `tip - start + 1` of them, the first being the cursor's own
      block, or none when the tip is below the cursor. */
  function RequestedBlocks(l: LedgerState, tip: nat): (r: seq<nat>)
    ensures |r| == if tip >= l.cursor.number then tip - l.cursor.number + 1 else 0
    ensures tip >= l.cursor.number ==> r[0] == l.cursor.number && r[|r| - 1] == tip
    ensures forall i, j :: 0 <= i < j < |r| ==> r[i] < r[j]
  {
    Range(l.cursor.number, tip + 1)
  }

  /** During a run the cursor stays between the starting block and the last
      block applied. */
  lemma {:induction false} CursorBounds(rev: Revision, address: string, l: LedgerState, start: nat, end: nat, fetch: nat -> Option<BlockData>)
    requires l.cursor.number == start
    ensures start <= SyncUpTo(rev, address, l, start, end, fetch).cursor.number
    ensures end > start ==> SyncUpTo(rev, address, l, start, end, fetch).cursor.number < end
    decreases end
  {
    if end > start {
      CursorBounds(rev, address, l, start, end - 1, fetch);
    }
  }

  /** The cursor never moves back during a run. */
  lemma {:induction false} CursorNeverDecreases(rev: Revision, address: string, l: LedgerState, start: nat, i: nat, j: nat, fetch: nat -> Option<BlockData>)
    requires l.cursor.number == start && i <= j
    ensures SyncUpTo(rev, address, l, start, i, fetch).cursor.number <= SyncUpTo(rev, address, l, start, j, fetch).cursor.number
    decreases j
  {
    if i < j && j > start {
      CursorNeverDecreases(rev, address, l, start, i, j - 1, fetch);
      CursorBounds(rev, address, l, start, j - 1, fetch);
    }
  }

  /** The cursor ends at the last block the node returned. */
  lemma {:induction false} LastFoundBlockSetsCursor(rev: Revision, address: string, l: LedgerState, start: nat, end: nat, k: nat, fetch: nat -> Option<BlockData>)
    requires start <= k < end && fetch(k).Some?
    requires forall n :: k < n < end ==> fetch(n).None?
    ensures SyncUpTo(rev, address, l, start, end, fetch).cursor == Block(k, fetch(k).value.timestamp)
    decreases end
  {
    if end - 1 > k {
      LastFoundBlockSetsCursor(rev, address, l, start, end - 1, k, fetch);
    }
  }

  /** When the node returns the tip block, a run leaves the cursor at the
      tip, in particular when it returns every block of the run. */
  lemma RunReachesTip(rev: Revision, address: string, l: LedgerState, tip: nat, fetch: nat -> Option<BlockData>)
    requires l.cursor.number <= tip && fetch(tip).Some?
    ensures SyncRun(rev, address, l, tip, fetch).cursor == Block(tip, fetch(tip).value.timestamp)
  {
    LastFoundBlockSetsCursor(rev, address, l, l.cursor.number, tip + 1, tip, fetch);
  }

  /** A block the node does not return does not stop the run: a later block
      it does return still moves the cursor past the missing one. */
  lemma MissingBlockIsSkipped(rev: Revision, address: string, l: LedgerState, tip: nat, m: nat, k: nat, fetch: nat -> Option<BlockData>)
    requires l.cursor.number <= m < k <= tip
    requires fetch(m).None? && fetch(k).Some?
    ensures SyncRun(rev, address, l, tip, fetch).cursor.number >= k > m
  {
    var start := l.cursor.number;
    LastFoundBlockSetsCursor(rev, address, l, start, k + 1, k, fetch);
    CursorNeverDecreases(rev, address, l, start, k + 1, tip + 1, fetch);
  }

  /** One step of unfolding: a run applies the tip block last. */
  lemma RunEndsWithTip(rev: Revision, address: string, l: LedgerState, tip: nat, fetch: nat -> Option<BlockData>)
    requires l.cursor.number <= tip
    ensures SyncRun(rev, address, l, tip, fetch)
            == ApplyBlock(rev, address, SyncUpTo(rev, address, l, l.cursor.number, tip, fetch), tip, fetch(tip))
  {
  }

  /** After a run whose tip block was returned, the next run against the
      same tip requests exactly the tip block again: the cursor's own block
      is re-scanned. */
  lemma NextRunRescansTip(rev: Revision, address: string, l: LedgerState, tip: nat, fetch: nat -> Option<BlockData>)
    requires l.cursor.number <= tip && fetch(tip).Some?
    ensures RequestedBlocks(SyncRun(rev, address, l, tip, fetch), tip) == [tip]
  {
    RunReachesTip(rev, address, l, tip, fetch);
  }

  /** In the current revision a second run against the same tip changes
      nothing: it re-scans the tip block, whose records are already known. */
  lemma CurrentRerunChangesNothing(address: string, l: LedgerState, tip: nat, fetch: nat -> Option<BlockData>)
    requires l.cursor.number <= tip && fetch(tip).Some?
    ensures SyncRun(Current, address, SyncRun(Current, address, l, tip, fetch), tip, fetch)
            == SyncRun(Current, address, l, tip, fetch)
  {
    var l1 := SyncRun(Current, address, l, tip, fetch);
    RunReachesTip(Current, address, l, tip, fetch);
    RunEndsWithTip(Current, address, l, tip, fetch);
    assert l1.cursor.number == tip;
    assert SyncUpTo(Current, address, l1, tip, tip, fetch) == l1;
    assert SyncRun(Current, address, l1, tip, fetch) == ApplyBlock(Current, address, l1, tip, fetch(tip));
    ApplyBlockIdempotent(address, SyncUpTo(Current, address, l, l.cursor.number, tip, fetch), tip, fetch(tip));
  }

  /** In the earlier revision a second run against the same tip stores the
      tip block's relevant records a second time, so hashes repeat as soon
      as that block has one. */
  lemma EarlierRerunDuplicates(address: string, l: LedgerState, tip: nat, fetch: nat -> Option<BlockData>)
    requires l.cursor.number <= tip && fetch(tip).Some?
    ensures var b := fetch(tip).value;
            var rs := Records(Relevant(address, b.transactions), b.timestamp);
            SyncRun(Earlier, address, SyncRun(Earlier, address, l, tip, fetch), tip, fetch).known
            == SyncRun(Earlier, address, l, tip, fetch).known + rs
    ensures var b := fetch(tip).value;
            Relevant(address, b.transactions) != [] ==>
              !NoDuplicateHashes(SyncRun(Earlier, address, SyncRun(Earlier, address, l, tip, fetch), tip, fetch).known)
  {
    var b := fetch(tip).value;
    var prev := SyncUpTo(Earlier, address, l, l.cursor.number, tip, fetch);
    var l1 := SyncRun(Earlier, address, l, tip, fetch);
    RunReachesTip(Earlier, address, l, tip, fetch);
    RunEndsWithTip(Earlier, address, l, tip, fetch);
    assert l1.cursor.number == tip;
    assert SyncUpTo(Earlier, address, l1, tip, tip, fetch) == l1;
    assert SyncRun(Earlier, address, l1, tip, fetch) == ApplyBlock(Earlier, address, l1, tip, fetch(tip));
    MergeAllIsAppend(address, prev.known, b.transactions, b.timestamp);
    MergeAllTwiceDuplicates(address, prev.known, b.transactions, b.timestamp);
  }

  /** The current revision keeps, across a whole run, the ledger free of
      repeated hashes and of records that do not involve the wallet. */
  lemma {:induction false} SyncKeepsInvariant(address: string, l: LedgerState, start: nat, end: nat, fetch: nat -> Option<BlockData>)
    requires NoDuplicateHashes(l.known) && AllInvolve(address, l.known)
    ensures NoDuplicateHashes(SyncUpTo(Current, address, l, start, end, fetch).known)
    ensures AllInvolve(address, SyncUpTo(Current, address, l, start, end, fetch).known)
    decreases end
  {
    if end > start {
      SyncKeepsInvariant(address, l, start, end - 1, fetch);
      ApplyBlockKeepsInvariant(address, SyncUpTo(Current, address, l, start, end - 1, fetch), end - 1, fetch(end - 1));
    }
  }

  /** Records are only ever added: the ledger at the start of a run is a
      prefix of the ledger at its end. */
  lemma {:induction false} SyncKeepsPrefix(rev: Revision, address: string, l: LedgerState, start: nat, end: nat, fetch: nat -> Option<BlockData>)
    ensures l.known <= SyncUpTo(rev, address, l, start, end, fetch).known
    decreases end
  {
    if end > start {
      SyncKeepsPrefix(rev, address, l, start, end - 1, fetch);
    }
  }
}
