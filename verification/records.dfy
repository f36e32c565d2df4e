/**
 * Rows of the hosted table store, named after the columns of the generated
 * table types (investments, transactions, payouts, profiles).
 */
module Records {
  import opened Wrappers

  type UserId = string

  /** A clock reading, as stamped into `processed_at`. */
  type Timestamp = nat

  /**
   * The `status` of an investment row: "active", which the dashboards
   * aggregate over, or any other text, which they do not count.
   */
  datatype InvestmentStatus = Active | Other(text: string)

  /** Reads a stored `status` text; `inv.status === 'active'` holds exactly for `Active`. */
  function ParseInvestmentStatus(text: string): (st: InvestmentStatus)
    ensures st.Active? <==> text == "active"
    ensures st.Other? ==> st.text == text
  {
    if text == "active" then Active else Other(text)
  }

  datatype Investment = Investment(
    id: nat,
    userId: UserId,
    amountUsd: real,
    btcAmount: real,
    btcPriceAtPurchase: real,
    status: InvestmentStatus)

  datatype TransactionType = Buy

  datatype TransactionStatus = TxCompleted

  datatype Transaction = Transaction(
    id: nat,
    userId: UserId,
    investmentId: Option<nat>,
    txType: TransactionType,
    amountUsd: real,
    btcAmount: real,
    btcPrice: real,
    status: TransactionStatus)

  /**
   * The three withdrawal kinds a user can pick, stored in `payout_type` as
   * `monthly_return`, `btc_profit` and `principal`; the form starts on `MonthlyReturn`.
   */
  datatype PayoutType = MonthlyReturn | BtcProfit | Principal

  datatype PayoutStatus = Pending | Completed | Failed

  datatype Payout = Payout(
    id: nat,
    userId: UserId,
    amountInr: real,
    payoutType: PayoutType,
    bankAccountNumber: string,
    bankIfscCode: string,
    status: PayoutStatus,
    processedAt: Option<Timestamp>)

  datatype Profile = Profile(
    id: UserId,
    fullName: string,
    bankAccountNumber: Option<string>,
    bankIfscCode: Option<string>)

  /** JavaScript truthiness of an optional text: absent and empty are both false. */
  predicate HasText(s: Option<string>) {
    s.Some? && |s.value| > 0
  }
}
