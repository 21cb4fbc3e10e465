# A verified model of a console Ethereum wallet

The wallet is a small .NET console program. It keeps a private key in a JSON
file and remembers two things about the chain:

- a *cursor*, the last processed block (its number and time);
- the list of *known transactions* that involve its address.

It synchronises by asking a node for every block from the cursor up to the
node's tip. It signs and submits value transfers after an affordability check.
It lists its history, newest block first. Amounts are integers in wei. They
are converted to and from `decimal` ether and gwei by a few extension methods.

The repository holds two revisions of this core:

- **Current** (`src/`): the merge skips a candidate whose hash is already
  known, case-insensitively. `EthToWei` prints the product with `G29`.
- **Earlier** (files at the repository root): the merge appends every
  relevant candidate, and `EthToWei` prints the product with `ToString()`.

Both revisions are modelled. The model has two layers:

- **Specification functions** hold the logic as values. `Ledger` defines the
  per-candidate and per-block merge of each revision. `Sync` defines a whole
  synchronisation run. `Units` and `EarlierUnits` define the conversions,
  over an exact model of .NET's `decimal` (`Decimals`) and of integer
  printing and parsing (`Numerals`).
- **Imperative members** mirror the code that mutates state. Each is proved
  to perform exactly the specified step:
  - the `Wallet` class of each revision (`CurrentWallet`, `EarlierWallet`),
    whose `foreach` merge is a `while` loop with an invariant naming `Merge`
    or `MergeAll`;
  - the file store (`Persistence.Store`);
  - the `for` loop of `SyncNodes` and the listing loop (`Program`).

The following behaviours are modelled as the code has them:

- **The cursor.** The per-block operation sets the cursor to the requested
  block number unconditionally. A block the node does not return is skipped
  and does not stop the run.
- **A newly created wallet.** `Create` writes the file through `Save(path)`,
  which never sets the wallet's file name. The first block that such a wallet
  merges therefore throws `ArgumentNullException` out of `Save(proc)`, and
  nothing is merged. `CurrentWallet.FirstMergeOfCreatedWalletFails` states
  this. `Program.SyncNodes` promises that a wallet without a file name leaves
  both the ledger and the store unchanged.
- **A missing tip block.** `Create` picks a fallback time when the node does
  not return the tip block. It then dereferences the block anyway, so the
  model's `Create` fails with `NullReference`.
- **The root `Transaction` record.** The root `Transaction.cs` declares a
  `Block` field, but the root `Wallet.cs` writes `BlockNumber` and
  `BlockCreatedAt`. Both revisions are modelled with one record that holds
  `Block(number, timestamp)`.
- **The `decimal` type.** A `decimal` is a mantissa of at most 96 bits and a
  scale of at most 28. The number it stands for is `Value`, kept in real
  arithmetic through repeated division by ten.
  - `decimal.Parse` of an integer beyond 96 bits throws `OverflowException`.
  - Division by `1E18M` returns its exact quotient with the smallest scale
    that represents it. This follows the documented behaviour of
    `Decimal.Divide`.
  - Multiplication by `1E18M` keeps the exact product and lowers the scale
    by exact divisions while the mantissa is too wide. This is
    `Decimals.Rescale`. It overflows when no scale is left.

Inputs from outside the program are parameters of the model:

- what the node returns: the tip number, the `fetch` function from block
  number to block, the pending-transaction count, the balance and the
  `submit` result;
- the offline signer and verifier, and the map from key to address;
- the freshly generated key;
- whether a file write succeeds.

## Model

| member | source | states |
|---|---|---|
| Ascii.EqualsIgnoreCaseIsFoldEquality | src/Wallet.EthereumInteraction.cs:159-160 | ordinal case-insensitive equality holds exactly when the upper-cased copies are equal |
| Ascii.EqualsIgnoreCase | src/Wallet.EthereumInteraction.cs:159-160 | ordinal case-insensitive equality: equal strings match, and matching strings have the same length (its characterisation is `EqualsIgnoreCaseIsFoldEquality`) |
| Ascii.EqualsIgnoreCaseIsEquivalence | src/Wallet.EthereumInteraction.cs:179-180 | the hash comparison is reflexive, symmetric and transitive, so "already known" does not depend on which spelling of a hash came first |
| Ascii.MixedCaseAddressesMatch | src/Wallet.EthereumInteraction.cs:159-160 | mixed-case spellings of one hex address match, and addresses differing in a digit do not |
| Numerals.ParseIntegerText | src/convenience/BigIntegerExtensions.cs:24 | `Parse` of an integer's `ToString()` text gives the integer back, negative values included |
| Numerals.ParseInteger | src/convenience/BigIntegerExtensions.cs:36 | `BigInteger.Parse` fails on empty text and on a lone sign, and a negative result comes only from a leading minus (its round trip with `ToString()` is `ParseIntegerText`) |
| Numerals.IntegerText | src/convenience/BigIntegerExtensions.cs:24 | `BigInteger.ToString()` gives non-empty text that starts with a minus exactly for negative integers (its inverse is `ParseIntegerText`) |
| Numerals.ParseWithZeros | src/convenience/BigIntegerExtensions.cs:36 | parsing an integer's text with k zeros appended yields the integer times 10^k |
| Numerals.ParseRejectsNonDigit | DecimalExtensions.cs:7 | a non-digit anywhere after the first character makes `BigInteger.Parse` fail |
| Decimals.Normalize | src/convenience/DecimalExtensions.cs:23 | dropping trailing fractional zeros keeps the number, gives the normal form and never raises the scale or the mantissa's magnitude |
| Decimals.NormalUnique | src/convenience/BigIntegerExtensions.cs:24 | two normal decimals with the same value are the same decimal |
| Decimals.ParseDecimalText | DecimalExtensions.cs:7 | `BigInteger.Parse` of a decimal's `ToString()` text succeeds exactly at scale 0, yielding the mantissa |
| Decimals.ParseDecimalTextG29 | src/convenience/DecimalExtensions.cs:23 | `BigInteger.Parse` of a decimal's `G29` text succeeds exactly when the decimal is a whole number, yielding that number |
| Decimals.ToText | DecimalExtensions.cs:7 | `decimal.ToString()` gives non-empty text that starts with a minus exactly when the mantissa is negative (its parse is `ParseDecimalText`) |
| Decimals.ToTextG29 | src/convenience/DecimalExtensions.cs:23 | `ToString("G29")` prints a normal decimal exactly as `ToString()` does (its parse is `ParseDecimalTextG29`) |
| Decimals.Rescale | src/convenience/DecimalExtensions.cs:23 | lowering the scale of a product succeeds exactly when its value is within the decimal range, and then keeps the value exactly at a scale no larger than the requested one; otherwise `Overflow` |
| Decimals.ParseWholeDecimal | src/convenience/BigIntegerExtensions.cs:24 | `decimal.Parse` of integer text succeeds exactly when `BigInteger.Parse` does and the magnitude fits in 96 bits, giving that integer at scale 0; otherwise `Format` exactly for malformed text and `Overflow` for a too-large one |
| Decimals.DivideByPow10 | src/convenience/BigIntegerExtensions.cs:24 | the quotient of an integral decimal by 10^k is a valid, normal decimal with exactly the value m / 10^k |
| Decimals.MultiplyByPow10 | src/convenience/DecimalExtensions.cs:23 | `d * 10^k` succeeds exactly when the exact product is within the decimal range, and then returns it exactly at a scale no larger than `d`'s; otherwise it fails with `Overflow` |
| Units.GweiToWei | src/convenience/BigIntegerExtensions.cs:34-37 | appending nine zeros and parsing is exactly multiplication by 10^9, for every integer (the root BigIntegerExtensions.cs:11-13 is the same expression) |
| Units.WeiToEth | src/convenience/BigIntegerExtensions.cs:22-25 | succeeds exactly when the wei amount fits in 96 bits, with a normal decimal of value amount / 10^18, and otherwise fails with `Overflow` (the root BigIntegerExtensions.cs:6-8 is the same expression) |
| Units.EthToWei | src/convenience/DecimalExtensions.cs:21-24 | succeeds exactly when `x * 10^18` is a whole number within the decimal range, returning it; fails with `Overflow` exactly when out of range, else with `Format` |
| Units.WeiOfEtherOf | src/convenience/BigIntegerExtensions.cs:24 | the ether amount of v wei, multiplied back by 10^18, is v |
| Units.EthToWeiOfWeiToEth | src/convenience/DecimalExtensions.cs:21-24 | ether to wei inverts wei to ether on every amount a decimal can hold |
| Units.WeiToEthOfGweiToWei | src/convenience/BigIntegerExtensions.cs:22-37 | a gwei price converted to wei and shown in ether is the price divided by 10^9 |
| Units.EthToWeiPreservesSign | src/convenience/DecimalExtensions.cs:21-24 | a successful conversion keeps the sign of the ether amount, zero included |
| Units.EthToWeiRejectsExcessPrecision | src/convenience/DecimalExtensions.cs:23 | a normal amount with more than 18 fractional digits fails with `Format` |
| Units.EthToWeiExamples | src/convenience/DecimalExtensions.cs:21-24 | 1.5 ether is 1500000000000000000 wei, and 10^-19 ether fails with `Format` |
| EarlierUnits.EthToWei | DecimalExtensions.cs:6-8 | a success is exactly `x * 10^18`, an out-of-range product fails with `Overflow`, and every failure is `Overflow` or `Format` |
| EarlierUnits.AgreesOnScaleZero | DecimalExtensions.cs:6-8 | on amounts of scale 0 the two revisions' `EthToWei` give the same result |
| EarlierUnits.ScaleZeroIsExact | DecimalExtensions.cs:7 | a scale-0 amount whose product fits converts to exactly `x * 10^18` wei |
| EarlierUnits.PreservesSignOnScaleZero | DecimalExtensions.cs:7 | on scale-0 amounts a successful conversion keeps the sign |
| EarlierUnits.RejectsFractionalScale | DecimalExtensions.cs:7 | an amount with a positive scale fails with `Format` whenever its product fits without rescaling, even when the fraction is zero |
| EarlierUnits.OneAndAHalfEther | BigIntegerExtensions.cs:6-8 | 1500000000000000000 wei converts to the decimal 1.5 (mantissa 15, scale 1) |
| EarlierUnits.RoundTripFails | DecimalExtensions.cs:6-8 | wei to ether and back fails for 1.5 ether in the earlier revision and returns the amount in the current one |
| EarlierUnits.RejectsOnePointZero | DecimalExtensions.cs:7 | `1.0M` fails in the earlier revision and gives 10^18 wei in the current one |
| Models.NewTransaction | src/models/Transaction.cs:30-44 | the constructor stores every argument in the field of its own role, the fee and the amount included, although the parameters list the fee first |
| Models.AmountInEth | src/models/Transaction.cs:83 | succeeds exactly when the amount fits in 96 bits, and its ether value times 10^18 is the stored wei amount; otherwise `Overflow` |
| Models.FeeInEth | src/models/Transaction.cs:90 | the same for the fee |
| Ledger.RecordOf | src/Wallet.EthereumInteraction.cs:187-195 | a stored record carries the candidate's block number with the fetched block's time, its hash, sender and recipient, gas times gas price as fee and its value as amount |
| Ledger.RecordOfRelevantInvolves | src/Wallet.EthereumInteraction.cs:159-164 | the record of a candidate involves the wallet exactly when the candidate is incoming or outgoing |
| Ledger.Admit | src/Wallet.EthereumInteraction.cs:164-195 | one candidate leaves the records alone or appends exactly its record, and appends exactly when it is relevant and its hash is not yet known |
| Ledger.Merge | src/Wallet.EthereumInteraction.cs:157-197 | the current merge of a block's candidates grows the records by at most the number of candidates (its ordering, coverage and idempotence are the `Merge…` lemmas) |
| Ledger.Append | Wallet.cs:77-88 | one candidate in the earlier revision leaves the records alone or appends exactly its record, and appends exactly when it is relevant |
| Ledger.MergeAll | Wallet.cs:73-89 | the earlier merge grows the records by at most the number of candidates (its exact content is `MergeAllIsAppend`) |
| Ledger.FindAllByHash | src/Wallet.EthereumInteraction.cs:179-181 | the result holds exactly the known records whose hash matches case-insensitively, and is non-empty exactly when such a record exists |
| Ledger.MergeKeepsPrefix | src/Wallet.EthereumInteraction.cs:157-197 | merging never removes, reorders or changes an existing record |
| Ledger.MergeAddsRelevantInOrder | src/Wallet.EthereumInteraction.cs:157-197 | the records a merge adds are a subsequence of the records of the relevant candidates, in block order |
| Ledger.MergeCoversRelevant | src/Wallet.EthereumInteraction.cs:157-197 | after a merge every relevant candidate's hash is known |
| Ledger.MergeOfKnownIsIdentity | src/Wallet.EthereumInteraction.cs:175-185 | when every relevant hash is already known, a merge adds nothing |
| Ledger.MergeIdempotent | src/Wallet.EthereumInteraction.cs:175-185 | merging the same block twice gives the same list as merging it once |
| Ledger.MergeKeepsUnique | src/Wallet.EthereumInteraction.cs:179-195 | the current merge keeps hashes unique up to case |
| Ledger.MergeKeepsInvolvement | src/Wallet.EthereumInteraction.cs:164-195 | the current merge stores only records that involve the wallet |
| Ledger.MergeAllIsAppend | Wallet.cs:73-89 | the earlier merge appends the record of every relevant candidate in block order, growing the list by exactly their number |
| Ledger.MergeAllKeepsInvolvement | Wallet.cs:73-89 | the earlier merge, too, stores only records that involve the wallet |
| Ledger.MergeAllTwiceDuplicates | Wallet.cs:73-89 | the earlier merge of one block twice stores its relevant records twice, so hashes repeat once there is one |
| Ledger.MergeAgreesWithMergeAll | src/Wallet.EthereumInteraction.cs:179-185 | when no relevant candidate repeats a hash of the ledger or of another candidate, both revisions merge alike |
| Ledger.ApplyBlock | src/Wallet.EthereumInteraction.cs:145-203 | a missing block changes nothing; a found one keeps the old records as a prefix and sets the cursor to the requested number and the block's time |
| Ledger.ApplyBlockIdempotent | src/Wallet.EthereumInteraction.cs:145-203 | in the current revision a block applied twice is a block applied once |
| Ledger.ApplyBlockTwiceDuplicates | Wallet.cs:65-96 | in the earlier revision a found block applied twice stores its relevant records twice |
| Ledger.ApplyBlockKeepsInvariant | src/Wallet.EthereumInteraction.cs:145-203 | the current per-block operation keeps hashes unique and every record involving the wallet |
| Persistence.Store.Write | src/Wallet.LoadingAndSaving.cs:128-132 | a successful write replaces the file's content with the snapshot and touches no other file; a failed one changes nothing and reports `WriteFailed` |
| Sending.NonceFor | src/Wallet.EthereumInteraction.cs:68 | the override when given, otherwise the node's pending count |
| Sending.SendTransaction | src/Wallet.EthereumInteraction.cs:61-84 | the node is asked for the count exactly when there is no override; the signed fields are the arguments; the payload is submitted, prefixed with `0x`, exactly when it verifies, and otherwise the result is `InvalidOperation` (the root Wallet.cs:29-52 is the same) |
| Sending.OverrideIgnoresPendingCount | src/Wallet.EthereumInteraction.cs:68 | with an override the pending count plays no part |
| Sending.OnlyVerifiedPayloadsAreSubmitted | src/Wallet.EthereumInteraction.cs:78-83 | a hash comes back only for a verified, submitted payload, and an unverified one never reaches the node |
| CurrentWallet.Wallet.constructor | src/Wallet.LoadingAndSaving.cs:84-85 | a new or deserialised wallet holds the given key, cursor and records and no file name |
| CurrentWallet.Wallet.MergeTransactions | src/Wallet.EthereumInteraction.cs:157-197 | the loop leaves exactly `Merge` of the old records and the block's candidates, and changes neither cursor nor file name |
| CurrentWallet.Wallet.Run | src/Wallet.EthereumInteraction.cs:155-202 | running the merge callback transforms the ledger exactly as `ApplyBlock` does for a found block |
| CurrentWallet.Wallet.SaveTo | src/Wallet.LoadingAndSaving.cs:128-132 | writes the whole snapshot to the path, or reports `WriteFailed` and leaves the store unchanged |
| CurrentWallet.Wallet.SaveWith | src/Wallet.LoadingAndSaving.cs:121-126 | a null path throws `ArgumentNull` before anything changes; otherwise the path is associated, the callback runs once and its result is written, and a failed write keeps the change in memory only |
| CurrentWallet.Wallet.Save | src/Wallet.LoadingAndSaving.cs:64-67 | the same, with the associated file name, so a wallet without one throws `ArgumentNull` |
| CurrentWallet.Wallet.LoadAndSaveTransactionsForBlock | src/Wallet.EthereumInteraction.cs:145-203 | a missing block changes nothing; otherwise the state becomes `ApplyBlock` of the old one and is written to the associated file, except that no file name means `ArgumentNull` and no change |
| CurrentWallet.FromJson | src/Wallet.LoadingAndSaving.cs:69-80 | an existing file gives a fresh wallet holding its snapshot and associated with its path; a missing file gives null |
| CurrentWallet.Create | src/Wallet.LoadingAndSaving.cs:82-119 | a null tip block throws `NullReference`; otherwise a wallet with the new key, no records and the cursor at the tip block is written to the file, with no file name associated |
| CurrentWallet.LoadOrCreate | src/Wallet.LoadingAndSaving.cs:43-52 | loads the file when it exists, leaving the store alone, and otherwise behaves as `Create` |
| CurrentWallet.FirstMergeOfCreatedWalletFails | src/Wallet.LoadingAndSaving.cs:64-126 | a wallet that had to be created throws `ArgumentNull` on the first block it merges |
| CurrentWallet.CreateAsIntended | src/Wallet.LoadingAndSaving.cs:96-117 | with a missing tip block the cursor takes the tip number and the current time, and the created wallet stays associated with its file |
| CurrentWallet.FirstMergeOfIntendedWalletIsSaved | src/Wallet.LoadingAndSaving.cs:64-126 | a wallet created as intended saves its first merged block, and its file then holds the new cursor |
| EarlierWallet.Wallet.constructor | Wallet+JsonLoadingSaving.cs:29-30 | a new or deserialised wallet holds the given key, cursor and records and no file name |
| EarlierWallet.Wallet.MergeTransactions | Wallet.cs:73-89 | the loop leaves exactly `MergeAll` of the old records and the block's candidates |
| EarlierWallet.Wallet.Run | Wallet.cs:72-95 | running the merge callback transforms the ledger exactly as the earlier `ApplyBlock` |
| EarlierWallet.Wallet.SaveTo | Wallet+JsonLoadingSaving.cs:66-69 | writes the whole snapshot, or reports `WriteFailed` and leaves the store unchanged |
| EarlierWallet.Wallet.SaveWith | Wallet+JsonLoadingSaving.cs:75-79 | a null path throws before anything changes; otherwise associate, run once, write |
| EarlierWallet.Wallet.Save | Wallet+JsonLoadingSaving.cs:71-73 | the same with the associated file name |
| EarlierWallet.Wallet.LoadAndSaveTransactionsForBlock | Wallet.cs:65-96 | a missing block changes nothing; otherwise the earlier `ApplyBlock` is applied and written, or `ArgumentNull` without a file name |
| EarlierWallet.FromJson | Wallet+JsonLoadingSaving.cs:18-26 | an existing file gives its wallet associated with its path; a missing one gives null |
| EarlierWallet.Create | Wallet+JsonLoadingSaving.cs:28-42 | a null tip block throws `NullReference`; otherwise a new wallet at the tip block is written, with no file name associated |
| EarlierWallet.LoadOrCreate | Wallet+JsonLoadingSaving.cs:44-50 | loads an existing file, and otherwise behaves as `Create` |
| EarlierWallet.FirstMergeOfCreatedWalletFails | Wallet+JsonLoadingSaving.cs:28-79 | a wallet that had to be created throws `ArgumentNull` on its first merged block |
| Sync.RequestedBlocks | src/Program.cs:403-405 | the loop requests exactly tip - cursor + 1 block numbers, strictly increasing from the cursor's own block to the tip, or none when the tip is below the cursor |
| Sync.SyncUpTo | src/Program.cs:403-415 | applying blocks `start` to `end - 1` leaves the cursor where it was or on one of those blocks, and applying none changes nothing |
| Sync.SyncRun | src/Program.cs:389-417 | a run with the tip below the cursor changes nothing; otherwise the cursor ends between its old block and the tip |
| Sync.CursorBounds | src/Program.cs:403-415 | during a run the cursor stays between the starting block and the last block applied |
| Sync.CursorNeverDecreases | src/Program.cs:403-415 | within a run the cursor never moves back |
| Sync.LastFoundBlockSetsCursor | src/Program.cs:403-415 | a run leaves the cursor at the last block the node returned, with that block's time |
| Sync.RunReachesTip | src/Program.cs:403-415 | when the node returns the tip block, a run ends with the cursor at the tip |
| Sync.MissingBlockIsSkipped | src/Wallet.EthereumInteraction.cs:148-151 | a missing block does not stop a run: a later returned block still moves the cursor past it |
| Sync.NextRunRescansTip | src/Program.cs:403-405 | after a run that found the tip block, the next run against the same tip requests exactly the tip block again |
| Sync.CurrentRerunChangesNothing | src/Program.cs:403-415 | in the current revision a second run against the same tip changes nothing |
| Sync.EarlierRerunDuplicates | Wallet.cs:65-96 | in the earlier revision a second run stores the tip block's relevant records again, so hashes repeat |
| Sync.SyncKeepsInvariant | src/Program.cs:403-415 | a current run keeps hashes unique and every record involving the wallet |
| Sync.SyncKeepsPrefix | src/Program.cs:403-415 | records are only ever added during a run |
| Program.SyncNodes | src/Program.cs:389-417 | the requested numbers are a prefix of `RequestedBlocks`; a complete run leaves exactly `SyncRun`, and the file then holds the final snapshot when the node returned any block and is untouched otherwise; a failed run names `ArgumentNull` or `WriteFailed`, leaves blocks up to the failing one applied in memory and the file at the last state written; without a file name nothing changes; the run completes exactly when every block from the cursor's through the tip is either not returned or written successfully, and a failed run stops at the first block that is returned but cannot be saved |
| Program.SyncWithWritableFileCompletes | src/Program.cs:403-416 | a wallet with a file whose writes succeed completes the run, requests every block from the cursor's through the tip and leaves exactly `SyncRun` |
| Program.SyncBlocks | src/Program.cs:403-415 | the loop over the block numbers keeps the ledger at `SyncUpTo` of the numbers handled so far and the file at the last state written; every block before the last one handled went through, and the run failed exactly at a returned block without a file name or with a failed write |
| Program.SyncBlock | src/Program.cs:415 | one pass of the loop extends that state by one block, or fails with the in-memory and file state of the failing block; it fails exactly when the node returns the block and the wallet has no file name or the write fails |
| Program.SendFlowWith | src/Program.cs:251-312 | a send is attempted only after confirmation and both conversions, when fee estimate plus amount is within the balance, and the attempt is exactly `SendTransaction` with the amount in wei, the price converted to wei and a 21000 allowance; a refusal reports the compared expenditure; no confirmation means cancelled; an exception escapes exactly when showing the fee in ether fails, or when the confirmed amount cannot be converted |
| Program.MaxFeeInWei | src/Program.cs:251 | the program's fee estimate times 10^9 is the fee the transaction authorises, so the estimate is in gwei, not wei |
| Program.SendFlow | src/Program.cs:235-313 | as written, an attempted send has passed the check with the gwei estimate `21000 * price`, and a refusal reports that estimate plus the amount |
| Program.SendRefusedIffOverBalance | src/Program.cs:274-285 | once confirmed and converted, the send is refused exactly when the estimated maximum expenditure exceeds the balance, and attempted exactly otherwise |
| Program.CheckedFeeIsInGwei | src/Program.cs:251 | the checked fee estimate is the authorised maximum fee divided by 10^9, and strictly below it for any positive price |
| Program.CheckLetsThroughUnaffordableSend | src/Program.cs:251-295 | 1 ether at 40 gwei passes the check against a balance of 1000000000000840000 wei although it authorises more |
| Program.IntendedCheckCoversWorstCase | src/Program.cs:274-295 | with the estimate in wei, an attempted send never authorises more than the known balance |
| Program.OrderByBlockDescendingIsStableSort | src/Program.cs:323 | the listing order is descending by block number, is a permutation of the known records and keeps each block's records in stored order |
| Program.InsertByBlock | src/Program.cs:323 | inserting a record into the listing order adds exactly one element (sortedness and stability are the `InsertByBlock…` lemmas) |
| Program.OrderByBlockDescending | src/Program.cs:323 | the listing order has as many records as the wallet (the sort, permutation and stability are `OrderByBlockDescendingIsStableSort`) |
| Program.EntryOf | src/Program.cs:329-362 | an entry is "received" exactly when addressed to the wallet, carries the hash, time and exact amount, and for a sent one the recipient and the exact fee; it fails exactly when an amount it formats is beyond 96 bits |
| Program.ListLocallyKnownTransactions | src/Program.cs:320-372 | the printed entries are those of the sorted records, in order, all of them unless one cannot be formatted, whose error is reported |
| Program.FormatEntries | src/Program.cs:325-370 | the `foreach` loop formats the records in order and stops at the first one that cannot be formatted, reporting its error |

## Left out

- Network calls are inputs, not code: the tip number, the blocks, the pending
  count, the balance (`FetchBalanceAsOfLastProcessedBlock`,
  `GetMaxKnownRemoteBlock`, `GetNonceForNextTransaction`) and the result of
  `SendRawTransaction`. Node failures are left out.
- Key generation, address derivation, signing and verification are opaque
  functions, because they are cryptography in a library.
- JSON serialisation is not modelled: a file holds the snapshot value.
  Malformed files and deserialisation errors are left out.
- File I/O is reduced to one success flag per write. Partial writes and
  other I/O exceptions are left out.
- `LoadOrCreate` with a null path is left out: the path is always a string.
- `src/Program.cs:94` calls a two-argument `Wallet.LoadOrCreate(path, log)`, which no
  source file defines. The model follows the one-argument `LoadOrCreate` of
  `src/Wallet.LoadingAndSaving.cs:43-52`, so the statements about a created
  wallet are about that overload. The `logger` field that
  `src/Wallet.EthereumInteraction.cs` writes to is never assigned there, and
  logging is not modelled.
- Case-insensitive comparison is ASCII case folding. .NET's
  `OrdinalIgnoreCase` also equates non-ASCII letters such as `é` and `É`.
  This makes no difference here: addresses and transaction hashes are
  `0x`-prefixed hex strings.
- A null sender on a fetched transaction is left out: `from` is always a
  string. A null recipient is modelled.
- `async`/`await`, logging, the menus, the prompts and their validation
  (`ConsoleEx.cs`, `IsValidEthereumAddress`) are left out. So are the main
  loop of the console program and the etherscan links, because they are
  user interface.
- The progress percentage in `SyncNodes` is left out. It is `double`
  arithmetic used only in a log message.
- Timestamps are integer seconds. The range checks of `long.Parse` and
  `DateTimeOffset.FromUnixTimeSeconds`, and the local-time display, are
  left out.
- `G29` printing uses scientific notation for very small products. The
  model prints them with a point instead. Both texts make `BigInteger.Parse`
  fail with `Format`.
- `decimal` rounding is left out. The modelled conversions never need it:
  division here is exact, and the multiplication rescales only by exact
  divisions.
- `FetchBalance` of the earlier revision and `Wallet.Key` are not modelled
  apart from their use as parameters.
- EarlierUnits.RejectsFractionalScale: stated only for amounts whose
  product needs no rescaling. For a very wide mantissa, rescaling can bring
  the product to scale 0, and the earlier `EthToWei` then succeeds.
- Sync.RunReachesTip: requires the node to return the tip block. Otherwise
  `LastFoundBlockSetsCursor` says where the cursor ends.

## Findings

| source | as written | input that shows it | evidently intended | confidence | as-written member | corrected member |
|---|---|---|---|---|---|---|
| DecimalExtensions.cs:6-8 | the product `x * 10^18` is printed with `ToString()`, which keeps every fractional digit of its scale, so `BigInteger.Parse` rejects any amount whose product keeps a positive scale | 1.5 ether, exactly what `WeiToEth` returns for 1500000000000000000 wei; also `1.0M` | wei to ether and back returns the amount, as the `G29` format of the current revision achieves | not executed | EarlierUnits.RoundTripFails | Units.EthToWeiOfWeiToEth |
| src/Program.cs:251 | the maximum fee for the affordability check is the gas allowance times the gas price in gwei, while the transaction is signed with the price in wei (line 293) | 1 ether at 40 gwei against a balance of 1000000000000840000 wei: the check passes, but the transaction may cost up to 1 ether plus 840000 gwei | the estimate is in wei, so that an accepted send never authorises more than the balance | not executed | Program.CheckLetsThroughUnaffordableSend | Program.IntendedCheckCoversWorstCase |
| src/Wallet.LoadingAndSaving.cs:113-117 | `Create` dereferences the tip block even after choosing a fallback time for a null block, and writes through `Save(path)`, which never associates the file name | a file that does not exist yet: the first merged block throws `ArgumentNullException` and is lost; a node that returns no tip block: `NullReferenceException` | the fallback time is used with the tip number, and the created wallet keeps its file, as a loaded one does | not executed | CurrentWallet.FirstMergeOfCreatedWalletFails | CurrentWallet.FirstMergeOfIntendedWalletIsSaved |
