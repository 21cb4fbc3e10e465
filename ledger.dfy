/** The wallet's local ledger as values: how the candidates of one fetched
    block are classified, turned into records and merged into the list of
    known transactions, in the current revision (with the hash check) and in
    the earlier one (without it), and how a whole block moves the cursor.
    The wallet classes are proved to perform exactly these steps. */
module Ledger {
  import opened Wrappers
  import opened Ascii
  import opened Models

  /** The candidate is addressed to the wallet. `To` may be null. */
  predicate IsIncoming(address: string, tx: RemoteTransaction) {
    MatchesIgnoreCase(tx.to, address)
  }

  /** The candidate was sent by the wallet. */
  predicate IsOutgoing(address: string, tx: RemoteTransaction) {
    EqualsIgnoreCase(tx.from, address)
  }

  /** A candidate is worth recording when it is incoming or outgoing. */
  predicate IsRelevant(address: string, tx: RemoteTransaction) {
    IsIncoming(address, tx) || IsOutgoing(address, tx)
  }

  /** A stored record that involves the wallet. */
  predicate Involves(address: string, t: Transaction) {
    MatchesIgnoreCase(t.to, address) || EqualsIgnoreCase(t.from, address)
  }

  /** Every stored record involves the wallet. */
  predicate AllInvolve(address: string, known: seq<Transaction>) {
    forall i :: 0 <= i < |known| ==> Involves(address, known[i])
  }

  /** The record made from a candidate: the candidate's own block number,
      the fetched block's time, the fee as gas times gas price and the
      amount as the candidate's value. */
  function RecordOf(tx: RemoteTransaction, blockTime: int): (t: Transaction)
    ensures t.block == Block(tx.blockNumber, blockTime)
    ensures t.txHash == tx.transactionHash && t.from == tx.from && t.to == tx.to
    ensures t.feeInWei == tx.gas * tx.gasPrice && t.amountInWei == tx.value
  {
    NewTransaction(
      Block(tx.blockNumber, blockTime),
      tx.transactionHash,
      tx.from,
      tx.to,
      tx.gas * tx.gasPrice,
      tx.value)
  }

  /** The record of a relevant candidate involves the wallet. */
  lemma RecordOfRelevantInvolves(address: string, tx: RemoteTransaction, blockTime: int)
    ensures Involves(address, RecordOf(tx, blockTime)) <==> IsRelevant(address, tx)
  {
  }

  /** Some record already carries this hash, up to case. */
  predicate HasHash(known: seq<Transaction>, hash: string) {
    exists i :: 0 <= i < |known| && EqualsIgnoreCase(known[i].txHash, hash)
  }

  /** `List.FindAll` with the case-insensitive hash test: the records of
      `known` whose hash matches, in list order. */
  function FindAllByHash(known: seq<Transaction>, hash: string): (r: seq<Transaction>)
    ensures forall t :: t in r ==> t in known && EqualsIgnoreCase(t.txHash, hash)
    ensures forall t :: t in known && EqualsIgnoreCase(t.txHash, hash) ==> t in r
    ensures |r| > 0 <==> HasHash(known, hash)
  {
    if known == [] then []
    else
      var rest := FindAllByHash(known[1..], hash);
      assert forall t :: t in known[1..] ==> t in known;
      var r := if EqualsIgnoreCase(known[0].txHash, hash) then [known[0]] + rest else rest;
      assert |r| > 0 ==> r[0] in known;
      assert HasHash(known, hash) ==> exists i :: 0 <= i < |known| && known[i] in r;
      r
  }

  /** No two records share a hash, up to case. */
  predicate NoDuplicateHashes(known: seq<Transaction>) {
    forall i, j :: 0 <= i < j < |known| ==> !EqualsIgnoreCase(known[i].txHash, known[j].txHash)
  }

  /** One candidate in the current revision: appended when it is relevant
      and no record carries its hash yet. */
  function Admit(address: string, known: seq<Transaction>, tx: RemoteTransaction, blockTime: int): (r: seq<Transaction>)
    ensures r == known || r == known + [RecordOf(tx, blockTime)]
    ensures r != known <==> IsRelevant(address, tx) && !HasHash(known, tx.transactionHash)
  {
    if IsRelevant(address, tx) && |FindAllByHash(known, tx.transactionHash)| == 0
    then known + [RecordOf(tx, blockTime)]
    else known
  }

  /** The current revision's merge of a block's candidates, taken in block
      order; each candidate sees the records the earlier ones added. */
  function Merge(address: string, known: seq<Transaction>, txs: seq<RemoteTransaction>, blockTime: int): (r: seq<Transaction>)
    ensures |known| <= |r| <= |known| + |txs|
    decreases |txs|
  {
    if txs == [] then known
    else Admit(address, Merge(address, known, txs[..|txs| - 1], blockTime), txs[|txs| - 1], blockTime)
  }

  /** One candidate in the earlier revision: appended whenever relevant. */
  function Append(address: string, known: seq<Transaction>, tx: RemoteTransaction, blockTime: int): (r: seq<Transaction>)
    ensures r == known || r == known + [RecordOf(tx, blockTime)]
    ensures r != known <==> IsRelevant(address, tx)
  {
    if IsRelevant(address, tx) then known + [RecordOf(tx, blockTime)] else known
  }

  /** The earlier revision's merge, with no hash check. */
  function MergeAll(address: string, known: seq<Transaction>, txs: seq<RemoteTransaction>, blockTime: int): (r: seq<Transaction>)
    ensures |known| <= |r| <= |known| + |txs|
    decreases |txs|
  {
    if txs == [] then known
    else Append(address, MergeAll(address, known, txs[..|txs| - 1], blockTime), txs[|txs| - 1], blockTime)
  }

  /** The relevant candidates, in block order. */
  function Relevant(address: string, txs: seq<RemoteTransaction>): (r: seq<RemoteTransaction>)
    ensures forall tx :: tx in r <==> tx in txs && IsRelevant(address, tx)
    ensures |r| <= |txs|
    decreases |txs|
  {
    if txs == [] then []
    else
      var p := txs[..|txs| - 1];
      var x := txs[|txs| - 1];
      assert txs == p + [x];
      Relevant(address, p) + (if IsRelevant(address, x) then [x] else [])
  }

  /** The records of a list of candidates, one for one. */
  function Records(txs: seq<RemoteTransaction>, blockTime: int): (r: seq<Transaction>)
    ensures |r| == |txs|
    ensures forall i :: 0 <= i < |txs| ==> r[i] == RecordOf(txs[i], blockTime)
  {
    seq(|txs|, i requires 0 <= i < |txs| => RecordOf(txs[i], blockTime))
  }

  lemma RecordsAppend(txs: seq<RemoteTransaction>, tx: RemoteTransaction, blockTime: int)
    ensures Records(txs + [tx], blockTime) == Records(txs, blockTime) + [RecordOf(tx, blockTime)]
  {
  }

  /** `a` is `b` with some elements deleted. */
  predicate IsSubsequence<T(==)>(a: seq<T>, b: seq<T>)
    decreases |b|
  {
    a == []
    || (b != []
        && ((a[|a| - 1] == b[|b| - 1] && IsSubsequence(a[..|a| - 1], b[..|b| - 1]))
            || IsSubsequence(a, b[..|b| - 1])))
  }

  lemma SubsequenceExtend<T>(a: seq<T>, b: seq<T>, x: T)
    requires IsSubsequence(a, b)
    ensures IsSubsequence(a + [x], b + [x])
    ensures IsSubsequence(a, b + [x])
  {
    assert (a + [x])[..|a|] == a;
    assert (b + [x])[..|b|] == b;
  }

  /** Merging never removes, reorders or changes an existing record. */
  lemma {:induction false} MergeKeepsPrefix(address: string, known: seq<Transaction>, txs: seq<RemoteTransaction>, blockTime: int)
    ensures known <= Merge(address, known, txs, blockTime)
    decreases |txs|
  {
    if txs != [] {
      MergeKeepsPrefix(address, known, txs[..|txs| - 1], blockTime);
    }
  }

  /** The records a merge adds are records of relevant candidates, in block
      order. */
  lemma {:induction false} MergeAddsRelevantInOrder(address: string, known: seq<Transaction>, txs: seq<RemoteTransaction>, blockTime: int)
    ensures known <= Merge(address, known, txs, blockTime)
    ensures IsSubsequence(Merge(address, known, txs, blockTime)[|known|..], Records(Relevant(address, txs), blockTime))
    decreases |txs|
  {
    MergeKeepsPrefix(address, known, txs, blockTime);
    if txs != [] {
      var p := txs[..|txs| - 1];
      var x := txs[|txs| - 1];
      assert txs == p + [x];
      MergeAddsRelevantInOrder(address, known, p, blockTime);
      var prior := Merge(address, known, p, blockTime);
      var rs := Records(Relevant(address, p), blockTime);
      if IsRelevant(address, x) {
        assert Relevant(address, txs) == Relevant(address, p) + [x];
        RecordsAppend(Relevant(address, p), x, blockTime);
        SubsequenceExtend(prior[|known|..], rs, RecordOf(x, blockTime));
        SliceOfAppend(prior, RecordOf(x, blockTime), |known|);
      } else {
        assert Relevant(address, txs) == Relevant(address, p);
      }
    }
  }

  lemma SliceOfAppend<T>(a: seq<T>, x: T, k: nat)
    requires k <= |a|
    ensures (a + [x])[k..] == a[k..] + [x]
  {
  }

  /** A hash present before a merge is present after it. */
  lemma HasHashGrows(known: seq<Transaction>, longer: seq<Transaction>, hash: string)
    requires known <= longer && HasHash(known, hash)
    ensures HasHash(longer, hash)
  {
    var i :| 0 <= i < |known| && EqualsIgnoreCase(known[i].txHash, hash);
    assert longer[i] == known[i];
  }

  /** After a merge every relevant candidate's hash is known. */
  lemma {:induction false} MergeCoversRelevant(address: string, known: seq<Transaction>, txs: seq<RemoteTransaction>, blockTime: int)
    ensures forall tx :: tx in txs && IsRelevant(address, tx) ==>
              HasHash(Merge(address, known, txs, blockTime), tx.transactionHash)
    decreases |txs|
  {
    if txs != [] {
      var p := txs[..|txs| - 1];
      var x := txs[|txs| - 1];
      assert txs == p + [x];
      var prior := Merge(address, known, p, blockTime);
      var r := Merge(address, known, txs, blockTime);
      MergeCoversRelevant(address, known, p, blockTime);
      assert prior <= r;
      forall tx | tx in txs && IsRelevant(address, tx)
        ensures HasHash(r, tx.transactionHash)
      {
        if tx in p {
          HasHashGrows(prior, r, tx.transactionHash);
        } else {
          assert tx == x;
          if |FindAllByHash(prior, x.transactionHash)| == 0 {
            assert r[|prior|] == RecordOf(x, blockTime);
            EqualsIgnoreCaseIsEquivalence(x.transactionHash, x.transactionHash, x.transactionHash);
          }
        }
      }
    }
  }

  /** A merge of candidates whose relevant hashes are all known adds
      nothing. */
  lemma {:induction false} MergeOfKnownIsIdentity(address: string, known: seq<Transaction>, txs: seq<RemoteTransaction>, blockTime: int)
    requires forall tx :: tx in txs && IsRelevant(address, tx) ==> HasHash(known, tx.transactionHash)
    ensures Merge(address, known, txs, blockTime) == known
    decreases |txs|
  {
    if txs != [] {
      var p := txs[..|txs| - 1];
      assert forall tx :: tx in p ==> tx in txs;
      MergeOfKnownIsIdentity(address, known, p, blockTime);
    }
  }

  /** Merging the same block twice gives the same list as merging it once. */
  lemma MergeIdempotent(address: string, known: seq<Transaction>, txs: seq<RemoteTransaction>, blockTime: int)
    ensures Merge(address, Merge(address, known, txs, blockTime), txs, blockTime) == Merge(address, known, txs, blockTime)
  {
    MergeCoversRelevant(address, known, txs, blockTime);
    MergeOfKnownIsIdentity(address, Merge(address, known, txs, blockTime), txs, blockTime);
  }

  /** The appended record's hash is new, so appending keeps hashes unique. */
  lemma AppendFreshKeepsUnique(known: seq<Transaction>, t: Transaction)
    requires NoDuplicateHashes(known) && !HasHash(known, t.txHash)
    ensures NoDuplicateHashes(known + [t])
  {
    var s := known + [t];
    forall i, j | 0 <= i < j < |s|
      ensures !EqualsIgnoreCase(s[i].txHash, s[j].txHash)
    {
      if j == |known| {
        EqualsIgnoreCaseIsEquivalence(s[i].txHash, t.txHash, t.txHash);
        assert !EqualsIgnoreCase(known[i].txHash, t.txHash);
      }
    }
  }

  /** The current merge keeps the hashes of the ledger unique. */
  lemma {:induction false} MergeKeepsUnique(address: string, known: seq<Transaction>, txs: seq<RemoteTransaction>, blockTime: int)
    requires NoDuplicateHashes(known)
    ensures NoDuplicateHashes(Merge(address, known, txs, blockTime))
    decreases |txs|
  {
    if txs != [] {
      var p := txs[..|txs| - 1];
      var x := txs[|txs| - 1];
      MergeKeepsUnique(address, known, p, blockTime);
      var prior := Merge(address, known, p, blockTime);
      if IsRelevant(address, x) && |FindAllByHash(prior, x.transactionHash)| == 0 {
        AppendFreshKeepsUnique(prior, RecordOf(x, blockTime));
      }
    }
  }

  /** The current merge only ever stores records that involve the wallet. */
  lemma {:induction false} MergeKeepsInvolvement(address: string, known: seq<Transaction>, txs: seq<RemoteTransaction>, blockTime: int)
    requires AllInvolve(address, known)
    ensures AllInvolve(address, Merge(address, known, txs, blockTime))
    decreases |txs|
  {
    if txs != [] {
      MergeKeepsInvolvement(address, known, txs[..|txs| - 1], blockTime);
      RecordOfRelevantInvolves(address, txs[|txs| - 1], blockTime);
    }
  }

  /** The earlier revision appends the record of every relevant candidate,
      in block order, so the list grows by exactly their number. */
  lemma {:induction false} MergeAllIsAppend(address: string, known: seq<Transaction>, txs: seq<RemoteTransaction>, blockTime: int)
    ensures MergeAll(address, known, txs, blockTime) == known + Records(Relevant(address, txs), blockTime)
    ensures |MergeAll(address, known, txs, blockTime)| == |known| + |Relevant(address, txs)|
    decreases |txs|
  {
    if txs != [] {
      var p := txs[..|txs| - 1];
      var x := txs[|txs| - 1];
      MergeAllIsAppend(address, known, p, blockTime);
      RecordsAppend(Relevant(address, p), x, blockTime);
    }
  }

  /** The earlier merge, too, stores only records that involve the wallet. */
  lemma MergeAllKeepsInvolvement(address: string, known: seq<Transaction>, txs: seq<RemoteTransaction>, blockTime: int)
    requires AllInvolve(address, known)
    ensures AllInvolve(address, MergeAll(address, known, txs, blockTime))
  {
    MergeAllIsAppend(address, known, txs, blockTime);
    var r := MergeAll(address, known, txs, blockTime);
    var rel := Relevant(address, txs);
    forall i | |known| <= i < |r| ensures Involves(address, r[i]) {
      assert r[i] == RecordOf(rel[i - |known|], blockTime);
      assert rel[i - |known|] in rel;
      RecordOfRelevantInvolves(address, rel[i - |known|], blockTime);
    }
  }

  /** In the earlier revision merging a block twice stores its relevant
      records twice, so once there is one, hashes are no longer unique. */
  lemma MergeAllTwiceDuplicates(address: string, known: seq<Transaction>, txs: seq<RemoteTransaction>, blockTime: int)
    ensures MergeAll(address, MergeAll(address, known, txs, blockTime), txs, blockTime)
            == known + Records(Relevant(address, txs), blockTime) + Records(Relevant(address, txs), blockTime)
    ensures Relevant(address, txs) != [] ==>
              !NoDuplicateHashes(MergeAll(address, MergeAll(address, known, txs, blockTime), txs, blockTime))
  {
    var rs := Records(Relevant(address, txs), blockTime);
    MergeAllIsAppend(address, known, txs, blockTime);
    MergeAllIsAppend(address, known + rs, txs, blockTime);
    if Relevant(address, txs) != [] {
      var s := known + rs + rs;
      assert s[|known|] == s[|known| + |rs|];
      EqualsIgnoreCaseIsEquivalence(s[|known|].txHash, s[|known|].txHash, s[|known|].txHash);
    }
  }

  /** Dropping the last record keeps hashes unique, and its hash was new. */
  lemma UniqueSplit(known: seq<Transaction>, t: Transaction)
    requires NoDuplicateHashes(known + [t])
    ensures NoDuplicateHashes(known)
    ensures !HasHash(known, t.txHash)
  {
    var s := known + [t];
    forall i | 0 <= i < |known|
      ensures !EqualsIgnoreCase(known[i].txHash, t.txHash)
    {
      assert s[i] == known[i] && s[|known|] == t;
    }
    forall i, j | 0 <= i < j < |known|
      ensures !EqualsIgnoreCase(known[i].txHash, known[j].txHash)
    {
      assert s[i] == known[i] && s[j] == known[j];
    }
  }

  /** When no relevant candidate repeats a hash, of the ledger or of another
      candidate, the two revisions merge alike. */
  lemma {:induction false} MergeAgreesWithMergeAll(address: string, known: seq<Transaction>, txs: seq<RemoteTransaction>, blockTime: int)
    requires NoDuplicateHashes(known + Records(Relevant(address, txs), blockTime))
    ensures Merge(address, known, txs, blockTime) == MergeAll(address, known, txs, blockTime)
    decreases |txs|
  {
    if txs != [] {
      var p := txs[..|txs| - 1];
      var x := txs[|txs| - 1];
      var rs := Records(Relevant(address, p), blockTime);
      RecordsAppend(Relevant(address, p), x, blockTime);
      MergeAllIsAppend(address, known, p, blockTime);
      if IsRelevant(address, x) {
        assert known + Records(Relevant(address, txs), blockTime) == (known + rs) + [RecordOf(x, blockTime)];
        UniqueSplit(known + rs, RecordOf(x, blockTime));
      } else {
        assert Records(Relevant(address, txs), blockTime) == rs;
      }
      MergeAgreesWithMergeAll(address, known, p, blockTime);
    }
  }

  /** The two revisions of the per-block merge. */
  datatype Revision = Current | Earlier

  function MergeBlock(rev: Revision, address: string, known: seq<Transaction>, txs: seq<RemoteTransaction>, blockTime: int): seq<Transaction> {
    match rev
    case Current => Merge(address, known, txs, blockTime)
    case Earlier => MergeAll(address, known, txs, blockTime)
  }

  /** The part of the wallet a block changes. */
  datatype LedgerState = LedgerState(cursor: Block, known: seq<Transaction>)

  /** One call of the per-block operation, on a block the node returned or
      did not (`None`). A missing block changes nothing; a found one merges
      its candidates and then sets the cursor to the requested number and
      the block's time, whatever the cursor was. */
  function ApplyBlock(rev: Revision, address: string, l: LedgerState, blockNumber: nat, fetched: Option<BlockData>): (r: LedgerState)
    ensures fetched.None? ==> r == l
    ensures fetched.Some? ==> r.cursor == Block(blockNumber, fetched.value.timestamp)
    ensures l.known <= r.known
  {
    match fetched
    case None => l
    case Some(b) =>
      MergeKeepsPrefix(address, l.known, b.transactions, b.timestamp);
      MergeAllIsAppend(address, l.known, b.transactions, b.timestamp);
      LedgerState(Block(blockNumber, b.timestamp), MergeBlock(rev, address, l.known, b.transactions, b.timestamp))
  }

  /** In the current revision a block applied twice is a block applied once. */
  lemma ApplyBlockIdempotent(address: string, l: LedgerState, blockNumber: nat, fetched: Option<BlockData>)
    ensures ApplyBlock(Current, address, ApplyBlock(Current, address, l, blockNumber, fetched), blockNumber, fetched)
            == ApplyBlock(Current, address, l, blockNumber, fetched)
  {
    if fetched.Some? {
      MergeIdempotent(address, l.known, fetched.value.transactions, fetched.value.timestamp);
    }
  }

  /** In the earlier revision a found block applied twice stores its
      relevant records twice. */
  lemma ApplyBlockTwiceDuplicates(address: string, l: LedgerState, blockNumber: nat, b: BlockData)
    ensures ApplyBlock(Earlier, address, ApplyBlock(Earlier, address, l, blockNumber, Some(b)), blockNumber, Some(b)).known
            == l.known + Records(Relevant(address, b.transactions), b.timestamp)
                       + Records(Relevant(address, b.transactions), b.timestamp)
  {
    MergeAllTwiceDuplicates(address, l.known, b.transactions, b.timestamp);
  }

  /** The current revision keeps the ledger free of repeated hashes and of
      records that do not involve the wallet. */
  lemma ApplyBlockKeepsInvariant(address: string, l: LedgerState, blockNumber: nat, fetched: Option<BlockData>)
    requires NoDuplicateHashes(l.known) && AllInvolve(address, l.known)
    ensures NoDuplicateHashes(ApplyBlock(Current, address, l, blockNumber, fetched).known)
    ensures AllInvolve(address, ApplyBlock(Current, address, l, blockNumber, fetched).known)
  {
    if fetched.Some? {
      MergeKeepsUnique(address, l.known, fetched.value.transactions, fetched.value.timestamp);
      MergeKeepsInvolvement(address, l.known, fetched.value.transactions, fetched.value.timestamp);
    }
  }
}
