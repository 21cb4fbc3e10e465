/** The console program's non-interactive logic (src/Program.cs): the
    synchronisation loop, the affordability check in front of a send, and
    the ordering and classification of the transaction listing. Prompts,
    menus and printing are left out; what the user types and what the node
    answers come in as parameters. */
module Program {
  import opened Wrappers
  import opened Exceptions
  import opened Ascii
  import opened Numerals
  import opened Decimals
  import opened Models
  import opened Ledger
  import opened Sync
  import opened Persistence
  import opened Sending
  import opened CurrentWallet
  import Units

  // ---------------------------------------------------------------------
  // SyncNodes

  /** The `for` loop of `SyncNodes`: the per-block operation for every
      number from the cursor's block through `tip`. `requested` lists the
      numbers handed to it. An exception from a block ends the run; the
      blocks before it, and the failing one itself when only its write
      failed, stay applied in memory, and the file keeps the last state
      written. */
  method SyncNodes(wallet: Wallet, store: Store, tip: nat, fetch: nat -> Option<BlockData>, writeOk: nat -> bool)
    returns (outcome: Outcome<Exception>, requested: seq<nat>)
    modifies wallet, store
    ensures wallet.fileName == old(wallet.fileName)
    ensures requested <= RequestedBlocks(old(wallet.State()), tip)
    ensures outcome.Pass? ==>
              requested == RequestedBlocks(old(wallet.State()), tip)
              && wallet.State() == SyncRun(Current, wallet.address, old(wallet.State()), tip, fetch)
    ensures outcome.Fail? ==>
              |requested| > 0
              && (old(wallet.fileName).None? ==> outcome.error == ArgumentNull)
              && (old(wallet.fileName).Some? ==> outcome.error == WriteFailed)
    ensures old(wallet.fileName).None? ==> wallet.State() == old(wallet.State()) && store.files == old(store.files)
    ensures outcome.Pass? && SomeBlockFound(fetch, old(wallet.lastProcessedBlock.number), old(wallet.lastProcessedBlock.number) + |requested|) ==>
              wallet.fileName.Some? && store.files == old(store.files)[wallet.fileName.value := wallet.ToSnapshot()]
    ensures outcome.Pass? && !SomeBlockFound(fetch, old(wallet.lastProcessedBlock.number), old(wallet.lastProcessedBlock.number) + |requested|) ==>
              store.files == old(store.files)
    ensures outcome.Fail? && old(wallet.fileName).Some? ==>
              var start := old(wallet.lastProcessedBlock.number);
              wallet.State() == SyncUpTo(Current, wallet.address, old(wallet.State()), start, start + |requested|, fetch)
              && store.files == FilesAfterFailure(old(store.files), wallet.fileName.value, wallet.privateKeyHex,
                                                  wallet.address, old(wallet.State()), start, start + |requested|, fetch)
    ensures outcome.Pass? <==> AllBlocksPass(fetch, old(wallet.fileName).Some?, writeOk, old(wallet.lastProcessedBlock.number), tip + 1)
    ensures outcome.Fail? ==>
              var last := old(wallet.lastProcessedBlock.number) + |requested| - 1;
              !BlockPasses(fetch, old(wallet.fileName).Some?, writeOk, last)
              && AllBlocksPass(fetch, old(wallet.fileName).Some?, writeOk, old(wallet.lastProcessedBlock.number), last)
  {
    var start := wallet.lastProcessedBlock.number;
    var n;
    outcome, requested, n := SyncBlocks(wallet, store, wallet.State(), store.files, start, tip, fetch, writeOk);
    if n <= tip + 1 {
      RangePrefix(start, n, tip + 1);
    }
  }

  /** A wallet with a file whose writes succeed synchronises to the end: the
      run hands every block from the cursor's through `tip` to the per-block
      operation and leaves exactly `SyncRun`. */
  method SyncWithWritableFileCompletes(wallet: Wallet, store: Store, tip: nat, fetch: nat -> Option<BlockData>)
    returns (outcome: Outcome<Exception>, requested: seq<nat>)
    requires wallet.fileName.Some?
    modifies wallet, store
    ensures outcome == Pass
    ensures requested == RequestedBlocks(old(wallet.State()), tip)
    ensures wallet.State() == SyncRun(Current, wallet.address, old(wallet.State()), tip, fetch)
  {
    outcome, requested := SyncNodes(wallet, store, tip, fetch, k => true);
  }

  /** Block `k` goes through the per-block operation without an exception:
      the node does not return it, or the wallet has a file and the write
      succeeds. */
  predicate BlockPasses(fetch: nat -> Option<BlockData>, hasFile: bool, writeOk: nat -> bool, k: nat) {
    fetch(k).None? || (hasFile && writeOk(k))
  }

  /** Every block from `start` to `end - 1` goes through without an exception. */
  predicate AllBlocksPass(fetch: nat -> Option<BlockData>, hasFile: bool, writeOk: nat -> bool, start: nat, end: int) {
    forall k: nat :: start <= k < end ==> BlockPasses(fetch, hasFile, writeOk, k)
  }

  lemma AllBlocksPassStep(fetch: nat -> Option<BlockData>, hasFile: bool, writeOk: nat -> bool, start: nat, n: nat)
    requires start <= n
    ensures AllBlocksPass(fetch, hasFile, writeOk, start, n + 1)
            <==> AllBlocksPass(fetch, hasFile, writeOk, start, n) && BlockPasses(fetch, hasFile, writeOk, n)
  {
  }

  /** The wallet files after a run over blocks `start` to `end - 1` whose
      last block threw: the file holds the state after block `end - 2` when
      the node had returned any block before it, and is untouched otherwise. */
  ghost function FilesAfterFailure(files0: map<string, Snapshot>, file: string, privateKeyHex: string, address: string,
                                   l0: LedgerState, start: nat, end: nat, fetch: nat -> Option<BlockData>): map<string, Snapshot>
  {
    if end > start && SomeBlockFound(fetch, start, end - 1) then
      var before := SyncUpTo(Current, address, l0, start, end - 1, fetch);
      files0[file := Snapshot(privateKeyHex, before.cursor, before.known)]
    else files0
  }

  /** The loop of `SyncNodes` itself, stated in terms of `n`, the number
      after the last block it handed to the per-block operation. */
  method SyncBlocks(wallet: Wallet, store: Store, ghost l0: LedgerState, ghost files0: map<string, Snapshot>,
                    start: nat, tip: nat, fetch: nat -> Option<BlockData>, writeOk: nat -> bool)
    returns (outcome: Outcome<Exception>, requested: seq<nat>, n: nat)
    requires wallet.State() == l0 && store.files == files0 && l0.cursor.number == start
    modifies wallet, store
    ensures start <= n && (n <= tip + 1 || n == start)
    ensures outcome.Pass? ==> n > tip
    ensures requested == Range(start, n) && n == start + |requested|
    ensures wallet.fileName == old(wallet.fileName)
    ensures outcome.Pass? ==> wallet.State() == SyncUpTo(Current, wallet.address, l0, start, n, fetch)
    ensures outcome.Fail? ==> n > start
    ensures outcome.Fail? ==> !BlockPasses(fetch, wallet.fileName.Some?, writeOk, n - 1)
    ensures AllBlocksPass(fetch, wallet.fileName.Some?, writeOk, start, if outcome.Pass? then n else n - 1)
    ensures outcome.Fail? ==> outcome.error == (if wallet.fileName.None? then ArgumentNull else WriteFailed)
    ensures wallet.fileName.None? ==> wallet.State() == l0 && store.files == files0
    ensures outcome.Pass? && SomeBlockFound(fetch, start, n) ==>
              wallet.fileName.Some? && store.files == files0[wallet.fileName.value := wallet.ToSnapshot()]
    ensures outcome.Pass? && !SomeBlockFound(fetch, start, n) ==> store.files == files0
    ensures outcome.Fail? && wallet.fileName.Some? ==>
              wallet.State() == SyncUpTo(Current, wallet.address, l0, start, n, fetch)
              && store.files == FilesAfterFailure(files0, wallet.fileName.value, wallet.privateKeyHex, wallet.address, l0, start, n, fetch)
  {
    requested := [];
    outcome := Pass;
    n := start;
    while n <= tip && outcome.Pass?
      invariant start <= n && (n <= tip + 1 || n == start)
      invariant requested == Range(start, n)
      invariant wallet.fileName == old(wallet.fileName)
      invariant outcome.Pass? ==> wallet.State() == SyncUpTo(Current, wallet.address, l0, start, n, fetch)
      invariant outcome.Fail? ==> n > start
      invariant outcome.Fail? ==> !BlockPasses(fetch, wallet.fileName.Some?, writeOk, n - 1)
      invariant AllBlocksPass(fetch, wallet.fileName.Some?, writeOk, start, if outcome.Pass? then n else n - 1)
      invariant outcome.Fail? ==> outcome.error == (if wallet.fileName.None? then ArgumentNull else WriteFailed)
      invariant wallet.fileName.None? ==> wallet.State() == l0 && store.files == files0
      invariant outcome.Pass? && SomeBlockFound(fetch, start, n) ==>
                  wallet.fileName.Some? && store.files == files0[wallet.fileName.value := wallet.ToSnapshot()]
      invariant outcome.Pass? && !SomeBlockFound(fetch, start, n) ==> store.files == files0
      invariant outcome.Fail? && wallet.fileName.Some? ==>
                  wallet.State() == SyncUpTo(Current, wallet.address, l0, start, n, fetch)
                  && store.files == FilesAfterFailure(files0, wallet.fileName.value, wallet.privateKeyHex, wallet.address, l0, start, n, fetch)
      decreases tip + 1 - n
    {
      requested := requested + [n];
      outcome := SyncBlock(wallet, store, l0, files0, start, n, fetch, writeOk(n));
      AllBlocksPassStep(fetch, wallet.fileName.Some?, writeOk, start, n);
      n := n + 1;
    }
  }

  /** One pass of the loop of `SyncNodes`: the per-block operation on block
      `n`, after blocks `start` to `n - 1` went through without an
      exception. */
  method SyncBlock(wallet: Wallet, store: Store, ghost l0: LedgerState, ghost files0: map<string, Snapshot>,
                   start: nat, n: nat, fetch: nat -> Option<BlockData>, ok: bool)
    returns (outcome: Outcome<Exception>)
    requires start <= n
    requires wallet.State() == SyncUpTo(Current, wallet.address, l0, start, n, fetch)
    requires wallet.fileName.None? ==> wallet.State() == l0 && store.files == files0
    requires SomeBlockFound(fetch, start, n) ==>
               wallet.fileName.Some? && store.files == files0[wallet.fileName.value := wallet.ToSnapshot()]
    requires !SomeBlockFound(fetch, start, n) ==> store.files == files0
    modifies wallet, store
    ensures wallet.fileName == old(wallet.fileName)
    ensures outcome.Fail? <==> fetch(n).Some? && (wallet.fileName.None? || !ok)
    ensures outcome.Fail? ==> outcome.error == (if wallet.fileName.None? then ArgumentNull else WriteFailed)
    ensures wallet.fileName.None? ==> wallet.State() == l0 && store.files == files0
    ensures outcome.Pass? ==> wallet.State() == SyncUpTo(Current, wallet.address, l0, start, n + 1, fetch)
    ensures outcome.Pass? && SomeBlockFound(fetch, start, n + 1) ==>
              wallet.fileName.Some? && store.files == files0[wallet.fileName.value := wallet.ToSnapshot()]
    ensures outcome.Pass? && !SomeBlockFound(fetch, start, n + 1) ==> store.files == files0
    ensures outcome.Fail? && wallet.fileName.Some? ==>
              wallet.State() == SyncUpTo(Current, wallet.address, l0, start, n + 1, fetch)
              && store.files == FilesAfterFailure(files0, wallet.fileName.value, wallet.privateKeyHex, wallet.address, l0, start, n + 1, fetch)
  {
    SomeBlockFoundStep(fetch, start, n);
    outcome := wallet.LoadAndSaveTransactionsForBlock(store, n, fetch(n), ok);
  }

  lemma RangePrefix(start: nat, b: nat, c: nat)
    requires b <= c
    ensures Range(start, b) <= Range(start, c)
  {
    var x, y := Range(start, b), Range(start, c);
    assert x == y[..|x|];
  }

  // ---------------------------------------------------------------------
  // The send flow

  /** The gas price suggested at the prompt, in gwei. */
  const DefaultGasPriceInGwei: int := 40
  /** The gas allowance of a plain value transfer. */
  const GasAllowance: nat := 21000

  /** How a send request ended. `Crashed` is an exception that escapes the
      command; an exception from `SendTransaction` itself is caught and
      reported, and stays inside `Attempted`. */
  datatype SendOutcome =
    | Crashed(error: Exception)
    | Cancelled
    | CannotAfford(maxExpenditureInWei: int, knownBalanceInWei: int)
    | Attempted(attempt: SendAttempt)

  /** The maximum fee as the program computes it: gas allowance times the
      gas price in gwei, with no conversion to wei. */
  function MaxFeeInWei(gasPriceInGwei: int): (r: int)
    ensures r * Pow10(Units.GweiDecimals) == IntendedMaxFeeInWei(gasPriceInGwei)
  {
    GasAllowance * gasPriceInGwei
  }

  /** The maximum fee the submitted transaction actually authorises. */
  function IntendedMaxFeeInWei(gasPriceInGwei: int): int {
    GasAllowance * Units.GweiToWei(gasPriceInGwei)
  }

  /** The flow after the prompts, for a given maximum-fee estimate: show the
      fee in ether, ask for confirmation, convert the amount, compare the
      worst-case expenditure with the balance (equality is affordable) and
      only then send, at the gas price converted to wei. */
  function SendFlowWith(
    maxFeeInWei: int,
    privateKeyHex: string, recipient: string, amountInEth: Decimal, gasPriceInGwei: int,
    nonceOverride: Option<int>, confirmed: bool, knownBalanceInWei: int, pendingCount: nat,
    sign: Unsigned -> string, verify: string -> bool, submit: string -> Result<string, Exception>): (r: SendOutcome)
    requires Valid(amountInEth)
    ensures r.Attempted? ==>
              confirmed
              && Units.EthToWei(amountInEth).Success?
              && maxFeeInWei + Units.EthToWei(amountInEth).value <= knownBalanceInWei
              && r.attempt.payload.amountInWei == Units.EthToWei(amountInEth).value
              && r.attempt.payload.gasPriceInWei == gasPriceInGwei * Pow10(Units.GweiDecimals)
              && r.attempt.payload.gasAllowance == GasAllowance
              && r.attempt.payload.recipient == recipient
    ensures r.Attempted? ==>
              r.attempt == SendTransaction(privateKeyHex, recipient, Units.EthToWei(amountInEth).value,
                                           Units.GweiToWei(gasPriceInGwei), GasAllowance,
                                           nonceOverride, pendingCount, sign, verify, submit)
    ensures r.CannotAfford? ==>
              confirmed
              && Units.EthToWei(amountInEth).Success?
              && r.maxExpenditureInWei == maxFeeInWei + Units.EthToWei(amountInEth).value
              && r.maxExpenditureInWei > knownBalanceInWei
    ensures r.Cancelled? ==> !confirmed
    ensures r.Crashed? <==> Units.WeiToEth(maxFeeInWei).Failure?
                            || (confirmed && Units.EthToWei(amountInEth).Failure?)
  {
    match Units.WeiToEth(maxFeeInWei)
    case Failure(e) => Crashed(e)
    case Success(_) =>
      if !confirmed then Cancelled
      else
        match Units.EthToWei(amountInEth)
        case Failure(e) => Crashed(e)
        case Success(amountInWei) =>
          var maxExpenditureInWei := maxFeeInWei + amountInWei;
          if maxExpenditureInWei > knownBalanceInWei then
            CannotAfford(maxExpenditureInWei, knownBalanceInWei)
          else
            Attempted(SendTransaction(privateKeyHex, recipient, amountInWei, Units.GweiToWei(gasPriceInGwei),
                                      GasAllowance, nonceOverride, pendingCount, sign, verify, submit))
  }

  /** The flow as the program has it, with the unconverted fee estimate. */
  function SendFlow(
    privateKeyHex: string, recipient: string, amountInEth: Decimal, gasPriceInGwei: int,
    nonceOverride: Option<int>, confirmed: bool, knownBalanceInWei: int, pendingCount: nat,
    sign: Unsigned -> string, verify: string -> bool, submit: string -> Result<string, Exception>): (r: SendOutcome)
    requires Valid(amountInEth)
    ensures r.Attempted? ==>
              confirmed && Units.EthToWei(amountInEth).Success?
              && GasAllowance * gasPriceInGwei + Units.EthToWei(amountInEth).value <= knownBalanceInWei
    ensures r.CannotAfford? ==>
              Units.EthToWei(amountInEth).Success?
              && r.maxExpenditureInWei == GasAllowance * gasPriceInGwei + Units.EthToWei(amountInEth).value
              && r.maxExpenditureInWei > knownBalanceInWei
  {
    SendFlowWith(MaxFeeInWei(gasPriceInGwei), privateKeyHex, recipient, amountInEth, gasPriceInGwei,
                 nonceOverride, confirmed, knownBalanceInWei, pendingCount, sign, verify, submit)
  }

  /** The flow with the fee estimate in wei. */
  function IntendedSendFlow(
    privateKeyHex: string, recipient: string, amountInEth: Decimal, gasPriceInGwei: int,
    nonceOverride: Option<int>, confirmed: bool, knownBalanceInWei: int, pendingCount: nat,
    sign: Unsigned -> string, verify: string -> bool, submit: string -> Result<string, Exception>): SendOutcome
    requires Valid(amountInEth)
  {
    SendFlowWith(IntendedMaxFeeInWei(gasPriceInGwei), privateKeyHex, recipient, amountInEth, gasPriceInGwei,
                 nonceOverride, confirmed, knownBalanceInWei, pendingCount, sign, verify, submit)
  }

  /** Once the user confirms and both conversions succeed, the send is
      refused exactly when the estimated maximum expenditure exceeds the
      known balance, and `SendTransaction` is reached exactly otherwise. */
  lemma SendRefusedIffOverBalance(
    privateKeyHex: string, recipient: string, amountInEth: Decimal, gasPriceInGwei: int,
    nonceOverride: Option<int>, knownBalanceInWei: int, pendingCount: nat,
    sign: Unsigned -> string, verify: string -> bool, submit: string -> Result<string, Exception>)
    requires Valid(amountInEth)
    requires Units.WeiToEth(MaxFeeInWei(gasPriceInGwei)).Success? && Units.EthToWei(amountInEth).Success?
    ensures var r := SendFlow(privateKeyHex, recipient, amountInEth, gasPriceInGwei, nonceOverride, true,
                               knownBalanceInWei, pendingCount, sign, verify, submit);
            (r.CannotAfford? <==> MaxFeeInWei(gasPriceInGwei) + Units.EthToWei(amountInEth).value > knownBalanceInWei)
            && (r.Attempted? <==> MaxFeeInWei(gasPriceInGwei) + Units.EthToWei(amountInEth).value <= knownBalanceInWei)
  {
  }

  /** The estimate used by the check is the authorised maximum fee divided
      by 10^9. */
  lemma CheckedFeeIsInGwei(gasPriceInGwei: int)
    ensures IntendedMaxFeeInWei(gasPriceInGwei) == MaxFeeInWei(gasPriceInGwei) * Pow10(Units.GweiDecimals)
    ensures gasPriceInGwei > 0 ==> MaxFeeInWei(gasPriceInGwei) < IntendedMaxFeeInWei(gasPriceInGwei)
  {
    Pow10Values();
  }

  /** As written, a send the check lets through can authorise more than the
      balance: 1 ether at the default 40 gwei passes against a balance of
      1 ether and 840000 wei, while the transaction may be charged up to
      1 ether and 840000 gwei. */
  lemma CheckLetsThroughUnaffordableSend(
    privateKeyHex: string, recipient: string, nonceOverride: Option<int>, pendingCount: nat,
    sign: Unsigned -> string, verify: string -> bool, submit: string -> Result<string, Exception>)
    ensures var r := SendFlow(privateKeyHex, recipient, Decimal(1, 0), DefaultGasPriceInGwei, nonceOverride, true,
                               1_000_000_000_000_840_000, pendingCount, sign, verify, submit);
            r.Attempted?
            && r.attempt.payload.amountInWei + r.attempt.payload.gasAllowance * r.attempt.payload.gasPriceInWei
               > 1_000_000_000_000_840_000
  {
    Pow10Values();
    var one := Decimal(1, 0);
    ValueScaleZero(one);
    ShiftedInteger(1, Units.EthDecimals);
    assert Units.EthToWei(one) == Success(1_000_000_000_000_000_000);
    assert MaxFeeInWei(DefaultGasPriceInGwei) == 840_000;
    assert Units.WeiToEth(840_000).Success?;
    SendRefusedIffOverBalance(privateKeyHex, recipient, one, DefaultGasPriceInGwei, nonceOverride,
                              1_000_000_000_000_840_000, pendingCount, sign, verify, submit);
    assert Units.GweiToWei(DefaultGasPriceInGwei) == 40_000_000_000;
  }

  /** With the fee estimate in wei, a send that gets through never
      authorises more than the known balance. */
  lemma IntendedCheckCoversWorstCase(
    privateKeyHex: string, recipient: string, amountInEth: Decimal, gasPriceInGwei: int,
    nonceOverride: Option<int>, confirmed: bool, knownBalanceInWei: int, pendingCount: nat,
    sign: Unsigned -> string, verify: string -> bool, submit: string -> Result<string, Exception>)
    requires Valid(amountInEth)
    ensures var r := IntendedSendFlow(privateKeyHex, recipient, amountInEth, gasPriceInGwei, nonceOverride, confirmed,
                                       knownBalanceInWei, pendingCount, sign, verify, submit);
            r.Attempted? ==>
              r.attempt.payload.amountInWei + r.attempt.payload.gasAllowance * r.attempt.payload.gasPriceInWei
              <= knownBalanceInWei
  {
  }

  // ---------------------------------------------------------------------
  // The transaction listing

  /** Non-increasing block numbers. */
  predicate DescendingByBlock(s: seq<Transaction>) {
    forall i, j :: 0 <= i < j < |s| ==> s[i].block.number >= s[j].block.number
  }

  /** The records of block `n`, in list order. */
  function InBlock(s: seq<Transaction>, n: nat): seq<Transaction> {
    if s == [] then []
    else (if s[0].block.number == n then [s[0]] else []) + InBlock(s[1..], n)
  }

  lemma {:induction false} InBlockAppend(a: seq<Transaction>, b: seq<Transaction>, n: nat)
    ensures InBlock(a + b, n) == InBlock(a, n) + InBlock(b, n)
    decreases |a|
  {
    if a != [] {
      assert (a + b)[0] == a[0];
      assert (a + b)[1..] == a[1..] + b;
      InBlockAppend(a[1..], b, n);
      var h := if a[0].block.number == n then [a[0]] else [];
      assert InBlock(a + b, n) == h + (InBlock(a[1..], n) + InBlock(b, n));
      assert InBlock(a, n) == h + InBlock(a[1..], n);
    } else {
      assert a + b == b;
    }
  }

  /** A descending list whose head is below `n` has no record of block `n`. */
  lemma {:induction false} NoneInHigherBlock(s: seq<Transaction>, n: nat)
    requires DescendingByBlock(s) && s != [] && s[0].block.number < n
    ensures InBlock(s, n) == []
    decreases |s|
  {
    if |s| > 1 {
      NoneInHigherBlock(s[1..], n);
    }
  }

  /** Insert `t` after every record of a block at least as high as its own,
      so that it follows the earlier records of its own block. */
  function InsertByBlock(sorted: seq<Transaction>, t: Transaction): (r: seq<Transaction>)
    ensures |r| == |sorted| + 1
    ensures r[0] == t || (|sorted| > 0 && r[0] == sorted[0])
  {
    if sorted == [] then [t]
    else if sorted[0].block.number >= t.block.number then [sorted[0]] + InsertByBlock(sorted[1..], t)
    else [t] + sorted
  }

  /** `OrderByDescending(t => t.Block.Number)`: a stable sort, here by
      insertion in list order. */
  function OrderByBlockDescending(s: seq<Transaction>): (r: seq<Transaction>)
    ensures |r| == |s|
    decreases |s|
  {
    if s == [] then [] else InsertByBlock(OrderByBlockDescending(s[..|s| - 1]), s[|s| - 1])
  }

  lemma {:induction false} InsertByBlockPermutes(sorted: seq<Transaction>, t: Transaction)
    ensures multiset(InsertByBlock(sorted, t)) == multiset(sorted) + multiset{t}
    decreases |sorted|
  {
    if sorted != [] {
      assert sorted == [sorted[0]] + sorted[1..];
      if sorted[0].block.number >= t.block.number {
        InsertByBlockPermutes(sorted[1..], t);
      }
    }
  }

  lemma {:induction false} InsertByBlockSorted(sorted: seq<Transaction>, t: Transaction)
    requires DescendingByBlock(sorted)
    ensures DescendingByBlock(InsertByBlock(sorted, t))
    decreases |sorted|
  {
    if sorted != [] {
      var h := sorted[0];
      if h.block.number >= t.block.number {
        var tail := sorted[1..];
        InsertByBlockSorted(tail, t);
        var rest := InsertByBlock(tail, t);
        assert h.block.number >= rest[0].block.number by {
          if rest[0] != t {
            assert rest[0] == sorted[1];
          }
        }
        var r := [h] + rest;
        forall j | 0 < j < |r| ensures h.block.number >= r[j].block.number {
          assert r[j] == rest[j - 1];
        }
      }
    }
  }

  lemma {:induction false} InsertByBlockKeepsBlockOrder(sorted: seq<Transaction>, t: Transaction, n: nat)
    requires DescendingByBlock(sorted)
    ensures InBlock(InsertByBlock(sorted, t), n) == InBlock(sorted, n) + (if t.block.number == n then [t] else [])
    decreases |sorted|
  {
    if sorted != [] {
      var h := sorted[0];
      assert sorted == [h] + sorted[1..];
      if h.block.number >= t.block.number {
        var rest := InsertByBlock(sorted[1..], t);
        assert InsertByBlock(sorted, t) == [h] + rest;
        InsertByBlockKeepsBlockOrder(sorted[1..], t, n);
        InBlockAppend([h], rest, n);
        InBlockAppend([h], sorted[1..], n);
      } else {
        assert InsertByBlock(sorted, t) == [t] + sorted;
        InBlockAppend([t], sorted, n);
        if t.block.number == n {
          NoneInHigherBlock(sorted, n);
        }
      }
    }
  }

  /** The listing is sorted by block number, descending, is a permutation
      of the known records, and keeps the records of each block in the
      order they were recorded. */
  lemma {:induction false} OrderByBlockDescendingIsStableSort(s: seq<Transaction>)
    ensures DescendingByBlock(OrderByBlockDescending(s))
    ensures multiset(OrderByBlockDescending(s)) == multiset(s)
    ensures forall n: nat :: InBlock(OrderByBlockDescending(s), n) == InBlock(s, n)
    decreases |s|
  {
    if s != [] {
      var p := s[..|s| - 1];
      var x := s[|s| - 1];
      assert s == p + [x];
      OrderByBlockDescendingIsStableSort(p);
      forall n: nat ensures InBlock(OrderByBlockDescending(s), n) == InBlock(s, n) {
        InsertByBlockKeepsBlockOrder(OrderByBlockDescending(p), x, n);
        InBlockAppend(p, [x], n);
      }
      InsertByBlockSorted(OrderByBlockDescending(p), x);
      InsertByBlockPermutes(OrderByBlockDescending(p), x);
    }
  }

  /** One entry of the listing. */
  datatype Entry =
    | Received(from: string, txHash: string, time: int, amount: Decimal)
    | Sent(to: Option<string>, txHash: string, time: int, amount: Decimal, fee: Decimal)

  /** The entry of one record: "RECEIVED" with the sender when it is
      addressed to the wallet, otherwise "SENT" with the recipient and the
      fee. Amounts outside the decimal range throw while formatting. */
  function EntryOf(address: string, t: Transaction): (r: Result<Entry, Exception>)
    ensures r.Success? ==> (r.value.Received? <==> MatchesIgnoreCase(t.to, address))
    ensures r.Success? ==> r.value.txHash == t.txHash && r.value.time == t.block.timestamp
    ensures r.Success? ==> Units.WeiOf(Value(r.value.amount)) == t.amountInWei as real
    ensures r.Success? && r.value.Received? ==> r.value.from == t.from
    ensures r.Success? && r.value.Sent? ==> r.value.to == t.to && Units.WeiOf(Value(r.value.fee)) == t.feeInWei as real
    ensures r.Failure? <==> Abs(t.amountInWei) > MaxMagnitude
                            || (!MatchesIgnoreCase(t.to, address) && Abs(t.feeInWei) > MaxMagnitude)
  {
    var isIncoming := MatchesIgnoreCase(t.to, address);
    var amount :- AmountInEth(t);
    if isIncoming then
      Success(Received(t.from, t.txHash, t.block.timestamp, amount))
    else
      var fee :- FeeInEth(t);
      Success(Sent(t.to, t.txHash, t.block.timestamp, amount, fee))
  }

  /** `ListLocallyKnownTransactions`: the records sorted newest block
      first, then formatted one by one. */
  method ListLocallyKnownTransactions(wallet: Wallet) returns (printed: seq<Entry>, outcome: Outcome<Exception>)
    ensures var sorted := OrderByBlockDescending(wallet.knownTransactions);
            |printed| <= |sorted|
            && (forall i :: 0 <= i < |printed| ==> EntryOf(wallet.address, sorted[i]) == Success(printed[i]))
            && (outcome.Pass? <==> |printed| == |sorted|)
            && (outcome.Fail? ==> EntryOf(wallet.address, sorted[|printed|]) == Failure(outcome.error))
  {
    printed, outcome := FormatEntries(wallet.address, OrderByBlockDescending(wallet.knownTransactions));
  }

  /** The formatting loop of `ListLocallyKnownTransactions`: the entries of
      the records, in order, up to the first record whose amounts cannot be
      formatted. */
  method FormatEntries(address: string, sorted: seq<Transaction>) returns (printed: seq<Entry>, outcome: Outcome<Exception>)
    ensures |printed| <= |sorted|
    ensures forall i :: 0 <= i < |printed| ==> EntryOf(address, sorted[i]) == Success(printed[i])
    ensures outcome.Pass? <==> |printed| == |sorted|
    ensures outcome.Fail? ==> EntryOf(address, sorted[|printed|]) == Failure(outcome.error)
  {
    printed := [];
    for i := 0 to |sorted|
      invariant |printed| == i
      invariant forall k :: 0 <= k < i ==> EntryOf(address, sorted[k]) == Success(printed[k])
    {
      var e := EntryOf(address, sorted[i]);
      if e.Failure? {
        return printed, Fail(e.error);
      }
      printed := printed + [e.value];
    }
    outcome := Pass;
  }
}
