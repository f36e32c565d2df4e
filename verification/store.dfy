/**
 * The hosted table store as the pages see it: one sequence per table, a row's
 * id being its position. Every write is a step that may fail; a failed write
 * leaves its table untouched, and a write never touches another table.
 */
module TableStore {
  import opened Wrappers
  import opened Records

  class Store {
    var profiles: seq<Profile>
    var investments: seq<Investment>
    var transactions: seq<Transaction>
    var payouts: seq<Payout>

    /** Every row's id is its position, so ids are unique and a new row's id is fresh. */
    ghost predicate Valid()
      reads this
    {
      && (forall i | 0 <= i < |investments| :: investments[i].id == i)
      && (forall i | 0 <= i < |transactions| :: transactions[i].id == i)
      && (forall i | 0 <= i < |payouts| :: payouts[i].id == i)
    }

    constructor (profiles: seq<Profile>)
      ensures Valid()
      ensures this.profiles == profiles
      ensures investments == [] && transactions == [] && payouts == []
    {
      this.profiles := profiles;
      investments, transactions, payouts := [], [], [];
    }

    /** `insert` into `investments`; the store assigns the id. */
    method InsertInvestment(userId: UserId, amountUsd: real, btcAmount: real, btcPrice: real,
                            status: InvestmentStatus, ok: bool) returns (id: Option<nat>)
      requires Valid()
      modifies this`investments
      ensures Valid()
      ensures ok ==> id == Some(old(|investments|))
      ensures ok ==> investments == old(investments)
                       + [Investment(old(|investments|), userId, amountUsd, btcAmount, btcPrice, status)]
      ensures !ok ==> id == None && investments == old(investments)
    {
      if ok {
        id := Some(|investments|);
        investments := investments + [Investment(|investments|, userId, amountUsd, btcAmount, btcPrice, status)];
      } else {
        id := None;
      }
    }

    /** `insert` into `transactions`; the store assigns the id. */
    method InsertTransaction(userId: UserId, investmentId: Option<nat>, txType: TransactionType,
                             amountUsd: real, btcAmount: real, btcPrice: real,
                             status: TransactionStatus, ok: bool) returns (id: Option<nat>)
      requires Valid()
      modifies this`transactions
      ensures Valid()
      ensures ok ==> id == Some(old(|transactions|))
      ensures ok ==> transactions == old(transactions)
                       + [Transaction(old(|transactions|), userId, investmentId, txType,
                                      amountUsd, btcAmount, btcPrice, status)]
      ensures !ok ==> id == None && transactions == old(transactions)
    {
      if ok {
        id := Some(|transactions|);
        transactions := transactions
          + [Transaction(|transactions|, userId, investmentId, txType, amountUsd, btcAmount, btcPrice, status)];
      } else {
        id := None;
      }
    }

    /** `insert` into `payouts`; the store assigns the id and `processed_at` starts empty. */
    method InsertPayout(userId: UserId, amountInr: real, payoutType: PayoutType,
                        bankAccountNumber: string, bankIfscCode: string,
                        status: PayoutStatus, ok: bool) returns (id: Option<nat>)
      requires Valid()
      modifies this`payouts
      ensures Valid()
      ensures ok ==> id == Some(old(|payouts|))
      ensures ok ==> payouts == old(payouts)
                       + [Payout(old(|payouts|), userId, amountInr, payoutType,
                                 bankAccountNumber, bankIfscCode, status, None)]
      ensures !ok ==> id == None && payouts == old(payouts)
    {
      if ok {
        id := Some(|payouts|);
        payouts := payouts
          + [Payout(|payouts|, userId, amountInr, payoutType, bankAccountNumber, bankIfscCode, status, None)];
      } else {
        id := None;
      }
    }

    /**
     * `update({status, processed_at}).eq('id', id)`: keyed on the id alone, whatever
     * the row's current status. No matching row is not an error; nothing changes then.
     */
    method UpdatePayoutStatus(id: nat, status: PayoutStatus, at: Timestamp, ok: bool)
      requires Valid()
      modifies this`payouts
      ensures Valid()
      ensures |payouts| == old(|payouts|)
      ensures ok && id < |payouts| ==>
        payouts == old(payouts)[id := old(payouts[id]).(status := status, processedAt := Some(at))]
      ensures !ok || id >= |payouts| ==> payouts == old(payouts)
    {
      if ok && id < |payouts| {
        payouts := payouts[id := payouts[id].(status := status, processedAt := Some(at))];
      }
    }
  }
}
