/**
 * The user dashboard: opening an investment (`handleInvest`) and reloading the
 * user's investment rows the portfolio figures are computed from.
 */
module Dashboard {
  import opened Wrappers
  import opened Records
  import opened TableStore
  import opened Portfolio

  /** How a press of "Invest Now" ended. */
  datatype InvestOutcome =
    | InvalidAmount       // NaN or not positive: nothing written
    | InvestmentFailed    // the investment insert failed: nothing written
    | TransactionFailed   // the investment row stays, the buy transaction is missing
    | Invested            // both rows written

  /** `isNaN(amount) || amount <= 0` refuses the amount. */
  predicate AcceptableAmount(amount: Option<real>)
    ensures AcceptableAmount(amount) <==> !(amount.None? || amount.value <= 0.0)
  {
    amount.Some? && amount.value > 0.0
  }

  /** `amount / currentBtcPrice`: the BTC bought; at the same price it is worth the amount again. */
  function BtcQuantity(amountUsd: real, price: real): (btc: real)
    requires price > 0.0
    ensures btc * price == amountUsd
    ensures amountUsd > 0.0 ==> btc > 0.0
  {
    amountUsd / price
  }

  /** The investment row `handleInvest` inserts. */
  function OpenedInvestment(id: nat, userId: UserId, amountUsd: real, price: real): (inv: Investment)
    requires price > 0.0
    ensures inv.id == id && inv.userId == userId && inv.amountUsd == amountUsd
    ensures inv.btcPriceAtPurchase == price
    ensures OpenedAtPrice(inv) && inv.status.Active?
    ensures inv.btcAmount * inv.btcPriceAtPurchase == inv.amountUsd
  {
    Investment(id, userId, amountUsd, BtcQuantity(amountUsd, price), price, ParseInvestmentStatus("active"))
  }

  /** The paired buy transaction; it is written without `investment_id`. */
  function BuyTransaction(id: nat, inv: Investment): (tx: Transaction)
    ensures tx.id == id
    ensures tx.investmentId.None? && tx.txType == Buy && tx.status == TxCompleted
    ensures tx.userId == inv.userId && tx.amountUsd == inv.amountUsd
    ensures tx.btcAmount == inv.btcAmount && tx.btcPrice == inv.btcPriceAtPurchase
  {
    Transaction(id, inv.userId, None, Buy, inv.amountUsd, inv.btcAmount, inv.btcPriceAtPurchase, TxCompleted)
  }

  class DashboardPage {
    const userId: UserId
    /** The parsed content of the amount box (`None` for empty or unparsable text). */
    var investAmount: Option<real>
    var submitting: bool
    /** The user's investment rows as last loaded. */
    var investments: seq<Investment>

    constructor (userId: UserId)
      ensures this.userId == userId
      ensures investAmount == None && !submitting && investments == []
    {
      this.userId := userId;
      investAmount := None;
      submitting := false;
      investments := [];
    }

    /** `loadInvestments`: on a failed read the previous list stays. */
    method LoadInvestments(store: Store, ok: bool)
      modifies this`investments
      ensures investments == if ok then OwnedBy(store.investments, userId) else old(investments)
    {
      if ok {
        investments := OwnedBy(store.investments, userId);
      }
    }

    /**
     * `handleInvest`: validate, insert the investment, then insert the buy
     * transaction. The two writes are not atomic; a failed transaction write
     * keeps the investment. On full success the amount box is cleared and the
     * rows are reloaded (the reload may itself fail).
     */
    method HandleInvest(store: Store, price: real, investOk: bool, txOk: bool, reloadOk: bool)
      returns (outcome: InvestOutcome)
      requires store.Valid() && price > 0.0
      modifies this`investAmount, this`submitting, this`investments, store`investments, store`transactions
      ensures store.Valid()
      ensures outcome == InvalidAmount <==> !AcceptableAmount(old(investAmount))
      ensures outcome == InvalidAmount ==>
        && store.investments == old(store.investments) && store.transactions == old(store.transactions)
        && investAmount == old(investAmount) && submitting == old(submitting) && investments == old(investments)
      ensures outcome == InvestmentFailed <==> AcceptableAmount(old(investAmount)) && !investOk
      ensures outcome == InvestmentFailed ==>
        && store.investments == old(store.investments) && store.transactions == old(store.transactions)
      ensures outcome == TransactionFailed <==> AcceptableAmount(old(investAmount)) && investOk && !txOk
      ensures outcome in {TransactionFailed, Invested} ==>
        && store.investments == old(store.investments)
             + [OpenedInvestment(old(|store.investments|), userId, old(investAmount).value, price)]
      ensures outcome == TransactionFailed ==> store.transactions == old(store.transactions)
      ensures outcome == Invested ==>
        && store.transactions == old(store.transactions)
             + [BuyTransaction(old(|store.transactions|),
                               OpenedInvestment(old(|store.investments|), userId, old(investAmount).value, price))]
        && investAmount == None
        && investments == if reloadOk then OwnedBy(store.investments, userId) else old(investments)
      ensures outcome != InvalidAmount ==> !submitting
      ensures outcome in {InvestmentFailed, TransactionFailed} ==>
        investAmount == old(investAmount) && investments == old(investments)
    {
      if !AcceptableAmount(investAmount) {
        return InvalidAmount;
      }
      var amount := investAmount.value;
      submitting := true;

      var btcAmount := BtcQuantity(amount, price);
      var investmentId := store.InsertInvestment(userId, amount, btcAmount, price, Active, investOk);
      if investmentId.None? {
        submitting := false;
        return InvestmentFailed;
      }

      var txId := store.InsertTransaction(userId, None, Buy, amount, btcAmount, price, TxCompleted, txOk);
      if txId.None? {
        outcome := TransactionFailed;
      } else {
        outcome := Invested;
        investAmount := None;
        LoadInvestments(store, reloadOk);
      }
      submitting := false;
    }
  }

  /**
   * After a successful investment and reload, the dashboard's totals have grown
   * by exactly the amount and the BTC bought, and nothing else changed.
   */
  lemma {:induction false} InvestGrowsUserTotals(rows: seq<Investment>, userId: UserId, amountUsd: real, price: real)
    requires price > 0.0
    ensures var after := OwnedBy(rows + [OpenedInvestment(|rows|, userId, amountUsd, price)], userId);
      && TotalInvested(after) == TotalInvested(OwnedBy(rows, userId)) + amountUsd
      && TotalBtc(after) == TotalBtc(OwnedBy(rows, userId)) + amountUsd / price
  {
    var inv := OpenedInvestment(|rows|, userId, amountUsd, price);
    assert (rows + [inv])[..|rows + [inv]| - 1] == rows;
    assert OwnedBy(rows + [inv], userId) == OwnedBy(rows, userId) + [inv];
    TotalsAppend(OwnedBy(rows, userId), inv);
  }

  /** A single investment opened at price p and looked at while the price is still p shows no profit. */
  lemma FreshInvestmentBreaksEven(userId: UserId, amountUsd: real, price: real)
    requires price > 0.0
    ensures Summarize([OpenedInvestment(0, userId, amountUsd, price)], price).profitLoss == 0.0
    ensures Summarize([OpenedInvestment(0, userId, amountUsd, price)], price).profitLossPercent == 0.0
  {
    NoProfitAtPurchasePrice([OpenedInvestment(0, userId, amountUsd, price)], price);
  }
}
