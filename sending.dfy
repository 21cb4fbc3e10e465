/** `Wallet.SendTransaction`, the same in both revisions: choose the nonce,
    sign offline, verify the signed payload and only then submit it. The
    signer, the verifier and the node are opaque and come in as functions. */
module Sending {
  import opened Wrappers
  import opened Exceptions

  /** The fields handed to the offline signer. */
  datatype Unsigned = Unsigned(
    privateKeyHex: string,
    recipient: string,
    amountInWei: int,
    nonce: int,
    gasPriceInWei: int,
    gasAllowance: int)

  /** What one call did: whether it asked the node for the pending count,
      what it signed, what it submitted (if anything) and what it returned. */
  datatype SendAttempt = SendAttempt(
    nonceQueried: bool,
    payload: Unsigned,
    submitted: Option<string>,
    result: Result<string, Exception>)

  /** The override when one is given, otherwise the node's count of the
      address's transactions including pending ones. */
  function NonceFor(nonceOverride: Option<int>, pendingCount: nat): (n: int)
    ensures nonceOverride.Some? ==> n == nonceOverride.value
    ensures nonceOverride.None? ==> n == pendingCount
  {
    nonceOverride.GetOr(pendingCount)
  }

  function SendTransaction(
    privateKeyHex: string,
    recipient: string,
    amountInWei: int,
    gasPriceInWei: int,
    gasAllowance: int,
    nonceOverride: Option<int>,
    pendingCount: nat,
    sign: Unsigned -> string,
    verify: string -> bool,
    submit: string -> Result<string, Exception>): (a: SendAttempt)
    ensures a.nonceQueried <==> nonceOverride.None?
    ensures a.payload.nonce == NonceFor(nonceOverride, pendingCount)
    ensures a.payload.privateKeyHex == privateKeyHex && a.payload.recipient == recipient
    ensures a.payload.amountInWei == amountInWei && a.payload.gasPriceInWei == gasPriceInWei
    ensures a.payload.gasAllowance == gasAllowance
    ensures a.submitted.Some? <==> verify(sign(a.payload))
    ensures a.submitted.Some? ==> a.submitted.value == "0x" + sign(a.payload) && a.result == submit(a.submitted.value)
    ensures a.submitted.None? ==> a.result == Failure(InvalidOperation)
  {
    var nonce := NonceFor(nonceOverride, pendingCount);
    var payload := Unsigned(privateKeyHex, recipient, amountInWei, nonce, gasPriceInWei, gasAllowance);
    var signed := sign(payload);
    if !verify(signed) then
      SendAttempt(nonceOverride.None?, payload, None, Failure(InvalidOperation))
    else
      SendAttempt(nonceOverride.None?, payload, Some("0x" + signed), submit("0x" + signed))
  }

  /** With an override the node's pending count plays no part. */
  lemma OverrideIgnoresPendingCount(
    privateKeyHex: string, recipient: string, amountInWei: int, gasPriceInWei: int, gasAllowance: int,
    nonce: int, count1: nat, count2: nat,
    sign: Unsigned -> string, verify: string -> bool, submit: string -> Result<string, Exception>)
    ensures SendTransaction(privateKeyHex, recipient, amountInWei, gasPriceInWei, gasAllowance, Some(nonce), count1, sign, verify, submit)
         == SendTransaction(privateKeyHex, recipient, amountInWei, gasPriceInWei, gasAllowance, Some(nonce), count2, sign, verify, submit)
  {
  }

  /** A hash comes back only for a payload that verified and was submitted;
      a payload that fails verification never reaches the node. */
  lemma OnlyVerifiedPayloadsAreSubmitted(
    privateKeyHex: string, recipient: string, amountInWei: int, gasPriceInWei: int, gasAllowance: int,
    nonceOverride: Option<int>, pendingCount: nat,
    sign: Unsigned -> string, verify: string -> bool, submit: string -> Result<string, Exception>)
    ensures var a := SendTransaction(privateKeyHex, recipient, amountInWei, gasPriceInWei, gasAllowance,
                                     nonceOverride, pendingCount, sign, verify, submit);
            (a.result.Success? ==> a.submitted.Some? && verify(sign(a.payload)))
            && (!verify(sign(a.payload)) ==> a.submitted == None && a.result.Failure?)
  {
  }
}
