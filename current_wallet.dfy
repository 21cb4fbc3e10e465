/** The wallet object of the current revision (src/): its state, the
    mutate-then-persist protocol of `Save`, the per-block merge and the
    ways a wallet comes into existence. */
module CurrentWallet {
  import opened Wrappers
  import opened Exceptions
  import opened Ascii
  import opened Models
  import opened Ledger
  import opened Persistence

  /** The `Action<Wallet>` callbacks handed to `Save`. The only one the
      wallet uses merges a block the node returned. */
  datatype Procedure = MergeFetchedBlock(blockNumber: nat, block: BlockData)

  /** What running a callback does to the ledger part of a wallet. */
  function Effect(address: string, l: LedgerState, proc: Procedure): LedgerState {
    ApplyBlock(Current, address, l, proc.blockNumber, Some(proc.block))
  }

  class Wallet {
    /** The private key; the address is derived from it by code this model
        does not see and is fixed for the object's life. */
    const privateKeyHex: string
    const address: string
    var lastProcessedBlock: Block
    var knownTransactions: seq<Transaction>
    var fileName: Option<string>

    /** A deserialised or newly keyed wallet, not yet associated with a
        file. */
    constructor (privateKeyHex: string, address: string, lastProcessedBlock: Block, knownTransactions: seq<Transaction>)
      ensures this.privateKeyHex == privateKeyHex && this.address == address
      ensures this.lastProcessedBlock == lastProcessedBlock
      ensures this.knownTransactions == knownTransactions
      ensures fileName == None
    {
      this.privateKeyHex := privateKeyHex;
      this.address := address;
      this.lastProcessedBlock := lastProcessedBlock;
      this.knownTransactions := knownTransactions;
      fileName := None;
    }

    function State(): LedgerState
      reads this
    {
      LedgerState(lastProcessedBlock, knownTransactions)
    }

    /** The serialised part of the wallet. */
    function ToSnapshot(): Snapshot
      reads this
    {
      Snapshot(privateKeyHex, lastProcessedBlock, knownTransactions)
    }

    /** The `foreach` of the merge callback: classify each candidate, skip
        one whose hash is already known, append the others. */
    method MergeTransactions(txs: seq<RemoteTransaction>, blockTime: int)
      modifies this
      ensures knownTransactions == Merge(address, old(knownTransactions), txs, blockTime)
      ensures lastProcessedBlock == old(lastProcessedBlock) && fileName == old(fileName)
    {
      var i := 0;
      while i < |txs|
        invariant 0 <= i <= |txs|
        invariant knownTransactions == Merge(address, old(knownTransactions), txs[..i], blockTime)
        invariant lastProcessedBlock == old(lastProcessedBlock) && fileName == old(fileName)
      {
        var tx := txs[i];
        var forMe := MatchesIgnoreCase(tx.to, address);
        var fromMe := EqualsIgnoreCase(tx.from, address);
        if forMe || fromMe {
          var alreadyKnown := FindAllByHash(knownTransactions, tx.transactionHash);
          if |alreadyKnown| == 0 {
            knownTransactions := knownTransactions + [NewTransaction(
              Block(tx.blockNumber, blockTime),
              tx.transactionHash,
              tx.from,
              tx.to,
              tx.gas * tx.gasPrice,
              tx.value)];
          }
        }
        assert txs[..i + 1][..i] == txs[..i];
        i := i + 1;
      }
      assert txs[..|txs|] == txs;
    }

    /** Invoke a callback on this wallet. */
    method Run(proc: Procedure)
      modifies this
      ensures State() == Effect(address, old(State()), proc)
      ensures fileName == old(fileName)
    {
      MergeTransactions(proc.block.transactions, proc.block.timestamp);
      lastProcessedBlock := Block(proc.blockNumber, proc.block.timestamp);
    }

    /** `Save(path)`: write the whole serialised state to `path`. */
    method SaveTo(store: Store, path: string, writeOk: bool) returns (outcome: Outcome<Exception>)
      modifies store
      ensures writeOk ==> outcome == Pass && store.files == old(store.files)[path := ToSnapshot()]
      ensures !writeOk ==> outcome == Fail(WriteFailed) && unchanged(store)
    {
      outcome := store.Write(path, ToSnapshot(), writeOk);
    }

    /** `Save(path, proc)`: reject a null path before anything happens;
        otherwise associate the path, run the callback once and write the
        state it left. A failed write keeps the change in memory only. */
    method SaveWith(store: Store, path: Option<string>, proc: Procedure, writeOk: bool) returns (outcome: Outcome<Exception>)
      modifies this, store
      ensures path.None? ==> outcome == Fail(ArgumentNull) && unchanged(this) && unchanged(store)
      ensures path.Some? ==> fileName == path && State() == Effect(address, old(State()), proc)
      ensures path.Some? && writeOk ==> outcome == Pass && store.files == old(store.files)[path.value := ToSnapshot()]
      ensures path.Some? && !writeOk ==> outcome == Fail(WriteFailed) && unchanged(store)
    {
      if path.None? {
        return Fail(ArgumentNull);
      }
      fileName := path;
      Run(proc);
      outcome := SaveTo(store, path.value, writeOk);
    }

    /** `Save(proc)`: `Save(path, proc)` with the associated file name. */
    method Save(store: Store, proc: Procedure, writeOk: bool) returns (outcome: Outcome<Exception>)
      modifies this, store
      ensures old(fileName).None? ==> outcome == Fail(ArgumentNull) && unchanged(this) && unchanged(store)
      ensures old(fileName).Some? ==> fileName == old(fileName) && State() == Effect(address, old(State()), proc)
      ensures old(fileName).Some? && writeOk ==> outcome == Pass && store.files == old(store.files)[fileName.value := ToSnapshot()]
      ensures old(fileName).Some? && !writeOk ==> outcome == Fail(WriteFailed) && unchanged(store)
    {
      outcome := SaveWith(store, fileName, proc, writeOk);
    }

    /** The per-block operation. `fetched` is what the node returned for
        `blockNumber` (`None` for null). */
    method LoadAndSaveTransactionsForBlock(store: Store, blockNumber: nat, fetched: Option<BlockData>, writeOk: bool)
      returns (outcome: Outcome<Exception>)
      modifies this, store
      ensures fetched.None? ==> outcome == Pass && unchanged(this) && unchanged(store)
      ensures fetched.Some? && old(fileName).None? ==> outcome == Fail(ArgumentNull) && unchanged(this) && unchanged(store)
      ensures outcome != Fail(ArgumentNull) ==> State() == ApplyBlock(Current, address, old(State()), blockNumber, fetched)
      ensures fileName == old(fileName)
      ensures fetched.Some? && old(fileName).Some? && writeOk ==>
                outcome == Pass && store.files == old(store.files)[fileName.value := ToSnapshot()]
      ensures fetched.Some? && old(fileName).Some? && !writeOk ==>
                outcome == Fail(WriteFailed) && unchanged(store)
    {
      if fetched.None? {
        return Pass;
      }
      outcome := Save(store, MergeFetchedBlock(blockNumber, fetched.value), writeOk);
    }
  }

  /** `FromJson`: an existing file gives the wallet it holds, associated with
      its path; a missing file gives null. */
  method FromJson(store: Store, path: string, addressOf: string -> string) returns (w: Option<Wallet>)
    ensures w.Some? <==> path in store.files
    ensures w.Some? ==> fresh(w.value) && w.value.fileName == Some(path)
                        && w.value.ToSnapshot() == store.files[path]
                        && w.value.address == addressOf(store.files[path].privateKeyHex)
  {
    if path !in store.files {
      return None;
    }
    var s := store.files[path];
    var result := new Wallet(s.privateKeyHex, addressOf(s.privateKeyHex), s.lastProcessedBlock, s.knownTransactions);
    result.fileName := Some(path);
    w := Some(result);
  }

  /** `Create`: a fresh key, no known transactions, the cursor at the block
      the node returned for its tip number, written at once with
      `Save(path)`, which leaves the file name unset. A null tip block is
      dereferenced and throws. */
  method Create(store: Store, outputFile: string, newKeyHex: string, addressOf: string -> string,
                tipBlock: Option<BlockData>, writeOk: bool)
    returns (r: Result<Wallet, Exception>)
    modifies store
    ensures tipBlock.None? ==> r == Failure(NullReference) && unchanged(store)
    ensures tipBlock.Some? && !writeOk ==> r == Failure(WriteFailed) && unchanged(store)
    ensures tipBlock.Some? && writeOk ==>
              r.Success? && fresh(r.value)
              && r.value.privateKeyHex == newKeyHex && r.value.address == addressOf(newKeyHex)
              && r.value.knownTransactions == []
              && r.value.lastProcessedBlock == Block(tipBlock.value.number, tipBlock.value.timestamp)
              && r.value.fileName == None
              && store.files == old(store.files)[outputFile := r.value.ToSnapshot()]
  {
    if tipBlock.None? {
      return Failure(NullReference);
    }
    var result := new Wallet(newKeyHex, addressOf(newKeyHex), Block(tipBlock.value.number, tipBlock.value.timestamp), []);
    var saved := result.SaveTo(store, outputFile, writeOk);
    if saved.Fail? {
      assert !writeOk && saved.error == WriteFailed;
      return Failure(WriteFailed);
    }
    r := Success(result);
  }

  /** `LoadOrCreate`: the wallet in `file` if there is one, otherwise a
      created one. */
  method LoadOrCreate(store: Store, file: string, newKeyHex: string, addressOf: string -> string,
                      tipBlock: Option<BlockData>, writeOk: bool)
    returns (r: Result<Wallet, Exception>)
    modifies store
    ensures file in old(store.files) ==>
              r.Success? && fresh(r.value) && r.value.fileName == Some(file)
              && r.value.ToSnapshot() == old(store.files)[file] && unchanged(store)
    ensures file !in old(store.files) && tipBlock.None? ==> r == Failure(NullReference) && unchanged(store)
    ensures file !in old(store.files) && tipBlock.Some? && !writeOk ==> r == Failure(WriteFailed) && unchanged(store)
    ensures file !in old(store.files) && tipBlock.Some? && writeOk ==>
              r.Success? && fresh(r.value) && r.value.fileName == None
              && r.value.knownTransactions == []
              && r.value.lastProcessedBlock == Block(tipBlock.value.number, tipBlock.value.timestamp)
              && store.files == old(store.files)[file := r.value.ToSnapshot()]
  {
    var loaded := FromJson(store, file, addressOf);
    if loaded.Some? {
      return Success(loaded.value);
    }
    r := Create(store, file, newKeyHex, addressOf, tipBlock, writeOk);
  }

  /** A wallet that `LoadOrCreate` had to create cannot save its first
      merged block: the file name was never associated, so `Save(proc)`
      throws `ArgumentNullException` and nothing is merged. */
  method FirstMergeOfCreatedWalletFails(store: Store, file: string, newKeyHex: string, addressOf: string -> string,
                                        tipBlock: BlockData, blockNumber: nat, block: BlockData)
    returns (outcome: Outcome<Exception>)
    requires file !in store.files
    modifies store
    ensures outcome == Fail(ArgumentNull)
  {
    var r := LoadOrCreate(store, file, newKeyHex, addressOf, Some(tipBlock), true);
    var w := r.value;
    outcome := w.LoadAndSaveTransactionsForBlock(store, blockNumber, Some(block), true);
  }

  /** `Create` as its own comment describes it: when the node does not
      return the tip block, the cursor takes the tip number and the current
      time `now`; and the new wallet stays associated with its file, as
      `FromJson` leaves a loaded one. */
  method CreateAsIntended(store: Store, outputFile: string, newKeyHex: string, addressOf: string -> string,
                          tipNumber: nat, tipBlock: Option<BlockData>, now: int, writeOk: bool)
    returns (r: Result<Wallet, Exception>)
    modifies store
    ensures !writeOk ==> r == Failure(WriteFailed) && unchanged(store)
    ensures writeOk ==>
              r.Success? && fresh(r.value)
              && r.value.privateKeyHex == newKeyHex && r.value.address == addressOf(newKeyHex)
              && r.value.knownTransactions == []
              && r.value.lastProcessedBlock == (if tipBlock.None? then Block(tipNumber, now)
                                                else Block(tipBlock.value.number, tipBlock.value.timestamp))
              && r.value.fileName == Some(outputFile)
              && store.files == old(store.files)[outputFile := r.value.ToSnapshot()]
  {
    var cursor := if tipBlock.None? then Block(tipNumber, now) else Block(tipBlock.value.number, tipBlock.value.timestamp);
    var result := new Wallet(newKeyHex, addressOf(newKeyHex), cursor, []);
    result.fileName := Some(outputFile);
    var saved := result.SaveTo(store, outputFile, writeOk);
    if saved.Fail? {
      return Failure(WriteFailed);
    }
    r := Success(result);
  }

  /** A wallet created as intended saves its first merged block to its
      file, whether or not the node returned the tip block. */
  method FirstMergeOfIntendedWalletIsSaved(store: Store, file: string, newKeyHex: string, addressOf: string -> string,
                                          tipNumber: nat, tipBlock: Option<BlockData>, now: int,
                                          blockNumber: nat, block: BlockData)
    returns (outcome: Outcome<Exception>)
    modifies store
    ensures outcome == Pass
    ensures file in store.files && store.files[file].lastProcessedBlock == Block(blockNumber, block.timestamp)
  {
    var r := CreateAsIntended(store, file, newKeyHex, addressOf, tipNumber, tipBlock, now, true);
    var w := r.value;
    outcome := w.LoadAndSaveTransactionsForBlock(store, blockNumber, Some(block), true);
  }
}
