/**
 * The withdrawal form: a guard chain on (bank details, amount, available
 * maximum) and, when every guard passes, one `pending` payout row written with
 * the gross amount the user entered.
 */
module PayoutRequest {
  import opened Wrappers
  import opened Records
  import opened TableStore

  /** Why a request was refused, in the order the guards are tried. */
  datatype Refusal =
    | MissingBankDetails          // no bank account number or IFSC on file
    | InvalidAmount               // NaN or not positive
    | AboveAvailable(max: real)   // more than the available maximum

  /** The guard chain of `handleSubmit`; on acceptance, the amount to record. */
  function CheckRequest(bankAccount: Option<string>, bankIfsc: Option<string>,
                        amount: Option<real>, maxAmount: real): (r: Result<real, Refusal>)
    ensures r.Ok? <==> HasText(bankAccount) && HasText(bankIfsc)
                       && amount.Some? && 0.0 < amount.value <= maxAmount
    ensures r.Ok? ==> r.value == amount.value
    ensures r == Err(MissingBankDetails) <==> !(HasText(bankAccount) && HasText(bankIfsc))
    ensures r == Err(InvalidAmount) <==>
              HasText(bankAccount) && HasText(bankIfsc) && !(amount.Some? && amount.value > 0.0)
    ensures r.Err? && r.error.AboveAvailable? <==>
              HasText(bankAccount) && HasText(bankIfsc) && amount.Some? && amount.value > 0.0
              && amount.value > maxAmount
    ensures r.Err? && r.error.AboveAvailable? ==> r.error.max == maxAmount
  {
    if !HasText(bankAccount) || !HasText(bankIfsc) then Err(MissingBankDetails)
    else if amount.None? || amount.value <= 0.0 then Err(InvalidAmount)
    else if amount.value > maxAmount then Err(AboveAvailable(maxAmount))
    else Ok(amount.value)
  }

  /** Missing bank details refuse the request whatever the amount: the amount is not examined. */
  lemma BankDetailsCheckedFirst(bankAccount: Option<string>, bankIfsc: Option<string>,
                                a1: Option<real>, a2: Option<real>, max1: real, max2: real)
    requires !HasText(bankAccount) || !HasText(bankIfsc)
    ensures CheckRequest(bankAccount, bankIfsc, a1, max1) == CheckRequest(bankAccount, bankIfsc, a2, max2)
  {
  }

  /** The maximum itself is accepted; anything above it is refused. */
  lemma MaximumIsInclusive(account: string, ifsc: string, maxAmount: real, over: real)
    requires |account| > 0 && |ifsc| > 0 && maxAmount > 0.0 && over > maxAmount
    ensures CheckRequest(Some(account), Some(ifsc), Some(maxAmount), maxAmount) == Ok(maxAmount)
    ensures CheckRequest(Some(account), Some(ifsc), Some(over), maxAmount) == Err(AboveAvailable(maxAmount))
  {
  }

  /** How a press of "Request Withdrawal" ended. */
  datatype SubmitOutcome = Refused(reason: Refusal) | WriteFailed | Submitted(payoutId: nat)

  class PayoutRequestForm {
    const userId: UserId
    const maxAmount: real
    const bankAccount: Option<string>
    const bankIfsc: Option<string>
    /** The parsed content of the amount box (`None` for empty or unparsable text). */
    var amount: Option<real>
    var payoutType: PayoutType
    var submitting: bool

    constructor (userId: UserId, maxAmount: real, bankAccount: Option<string>, bankIfsc: Option<string>)
      ensures this.userId == userId && this.maxAmount == maxAmount
      ensures this.bankAccount == bankAccount && this.bankIfsc == bankIfsc
      ensures amount == None && payoutType == MonthlyReturn && !submitting
    {
      this.userId := userId;
      this.maxAmount := maxAmount;
      this.bankAccount := bankAccount;
      this.bankIfsc := bankIfsc;
      amount := None;
      payoutType := MonthlyReturn;
      submitting := false;
    }

    /** The "Withdrawal Type" select. */
    method SelectPayoutType(t: PayoutType)
      modifies this`payoutType
      ensures payoutType == t
    {
      payoutType := t;
    }

    /**
     * `handleSubmit`: every refusal returns before the insert, so writes nothing;
     * otherwise one pending row with the gross amount is inserted, and on success
     * the amount box is cleared.
     */
    method HandleSubmit(store: Store, writeOk: bool) returns (outcome: SubmitOutcome)
      requires store.Valid()
      modifies this`amount, this`submitting, store`payouts
      ensures store.Valid()
      ensures var check := CheckRequest(bankAccount, bankIfsc, old(amount), maxAmount);
        && (check.Err? <==> outcome.Refused?)
        && (check.Err? ==> outcome.reason == check.error)
      ensures outcome.Refused? ==>
        store.payouts == old(store.payouts) && amount == old(amount) && submitting == old(submitting)
      ensures outcome == WriteFailed ==>
        store.payouts == old(store.payouts) && amount == old(amount) && !submitting
      ensures outcome.Submitted? ==>
        && outcome.payoutId == old(|store.payouts|)
        && store.payouts == old(store.payouts)
             + [Payout(old(|store.payouts|), userId, old(amount).value, payoutType,
                       bankAccount.value, bankIfsc.value, Pending, None)]
        && amount == None && !submitting
      ensures !outcome.Refused? ==> (outcome.Submitted? <==> writeOk)
    {
      var check := CheckRequest(bankAccount, bankIfsc, amount, maxAmount);
      if check.Err? {
        return Refused(check.error);
      }
      submitting := true;
      var id := store.InsertPayout(userId, check.value, payoutType, bankAccount.value, bankIfsc.value,
                                   Pending, writeOk);
      if id.None? {
        outcome := WriteFailed;
      } else {
        outcome := Submitted(id.value);
        amount := None;
      }
      submitting := false;
    }
  }
}
