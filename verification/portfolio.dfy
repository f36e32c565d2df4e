/**
 * The filter-and-sum derivations over investment rows shared by the user
 * dashboard and the admin page: only rows whose status is "active" count.
 * Sums fold from the left, as `reduce((sum, inv) => sum + …, 0)` does.
 */
module Portfolio {
  import opened Records

  /** `filter(inv => inv.status === 'active')`, keeping order. */
  function ActiveOnly(invs: seq<Investment>): (r: seq<Investment>)
  {
    if invs == [] then []
    else ActiveOnly(invs[..|invs| - 1])
         + (if invs[|invs| - 1].status.Active? then [invs[|invs| - 1]] else [])
  }

  /** `eq('user_id', u)`: the rows owned by one user, keeping order. */
  function OwnedBy(invs: seq<Investment>, u: UserId): (r: seq<Investment>)
    ensures |r| <= |invs|
    ensures forall k | 0 <= k < |r| :: r[k].userId == u && r[k] in invs
    ensures forall k | 0 <= k < |invs| && invs[k].userId == u :: invs[k] in r
  {
    if invs == [] then []
    else OwnedBy(invs[..|invs| - 1], u)
         + (if invs[|invs| - 1].userId == u then [invs[|invs| - 1]] else [])
  }

  function SumAmountUsd(invs: seq<Investment>): real {
    if invs == [] then 0.0 else SumAmountUsd(invs[..|invs| - 1]) + invs[|invs| - 1].amountUsd
  }

  function SumBtc(invs: seq<Investment>): real {
    if invs == [] then 0.0 else SumBtc(invs[..|invs| - 1]) + invs[|invs| - 1].btcAmount
  }

  /** `totalInvested` on the dashboard and `totalVolume` on the admin page. */
  function TotalInvested(invs: seq<Investment>): real {
    SumAmountUsd(ActiveOnly(invs))
  }

  /** `totalBtc` on the dashboard. */
  function TotalBtc(invs: seq<Investment>): real {
    SumBtc(ActiveOnly(invs))
  }

  /** What one row adds to a total: its value when active, nothing otherwise. */
  function InvestedContribution(inv: Investment): real {
    if inv.status.Active? then inv.amountUsd else 0.0
  }

  function BtcContribution(inv: Investment): real {
    if inv.status.Active? then inv.btcAmount else 0.0
  }

  /** The figures shown on the dashboard cards. */
  datatype Summary = Summary(
    totalInvested: real,
    totalBtc: real,
    currentValue: real,
    profitLoss: real,
    profitLossPercent: real)

  /** The dashboard derivations at the live price `price`. */
  function Summarize(invs: seq<Investment>, price: real): (s: Summary)
    ensures s.totalInvested == TotalInvested(invs) && s.totalBtc == TotalBtc(invs)
    ensures s.currentValue == s.totalBtc * price
    ensures s.profitLoss == s.currentValue - s.totalInvested
    ensures s.totalInvested > 0.0 ==> s.profitLossPercent * s.totalInvested == s.profitLoss * 100.0
    ensures s.totalInvested <= 0.0 ==> s.profitLossPercent == 0.0
  {
    var totalInvested := TotalInvested(invs);
    var totalBtc := TotalBtc(invs);
    var currentValue := totalBtc * price;
    var profitLoss := currentValue - totalInvested;
    var profitLossPercent := if totalInvested > 0.0 then (profitLoss / totalInvested) * 100.0 else 0.0;
    Summary(totalInvested, totalBtc, currentValue, profitLoss, profitLossPercent)
  }

  /** A row written by opening an investment: a positive purchase price and btc = usd / price. */
  predicate OpenedAtPrice(inv: Investment) {
    inv.btcPriceAtPurchase > 0.0 && inv.btcAmount == inv.amountUsd / inv.btcPriceAtPurchase
  }

  /** What one active row gains or loses at `price`. */
  function Gain(inv: Investment, price: real): real {
    if inv.status.Active? then inv.btcAmount * price - inv.amountUsd else 0.0
  }

  function SumGain(invs: seq<Investment>, price: real): real {
    if invs == [] then 0.0 else SumGain(invs[..|invs| - 1], price) + Gain(invs[|invs| - 1], price)
  }

  // ---------------------------------------------------------------------------
  // Lemmas

  /** The filter keeps exactly the active rows: each kept row is active and from the list, and no active row is dropped. */
  lemma {:induction false} ActiveOnlyKeepsExactlyActive(invs: seq<Investment>)
    ensures forall k | 0 <= k < |ActiveOnly(invs)| :: ActiveOnly(invs)[k].status.Active? && ActiveOnly(invs)[k] in invs
    ensures forall k | 0 <= k < |invs| && invs[k].status.Active? :: invs[k] in ActiveOnly(invs)
  {
    if invs != [] {
      var init, last := invs[..|invs| - 1], invs[|invs| - 1];
      ActiveOnlyKeepsExactlyActive(init);
      assert forall k | 0 <= k < |init| :: init[k] == invs[k];
    }
  }

  /** The filter keeps each active row exactly as often as the list holds it, and no other row. */
  lemma {:induction false} ActiveOnlyMultiset(invs: seq<Investment>)
    ensures forall x :: multiset(ActiveOnly(invs))[x] == if x.status.Active? then multiset(invs)[x] else 0
  {
    if invs != [] {
      var init, last := invs[..|invs| - 1], invs[|invs| - 1];
      ActiveOnlyMultiset(init);
      assert invs == init + [last];
    }
  }

  /** The `user_id` filter keeps each of the user's rows exactly as often as the list holds it, and no other row. */
  lemma {:induction false} OwnedByMultiset(invs: seq<Investment>, u: UserId)
    ensures forall x :: multiset(OwnedBy(invs, u))[x] == if x.userId == u then multiset(invs)[x] else 0
  {
    if invs != [] {
      var init, last := invs[..|invs| - 1], invs[|invs| - 1];
      OwnedByMultiset(init, u);
      assert invs == init + [last];
    }
  }

  /** The active count shown on the admin page is the number of active rows. */
  lemma {:induction false} ActiveCount(invs: seq<Investment>)
    ensures |ActiveOnly(invs)| == |set k | 0 <= k < |invs| && invs[k].status.Active?|
  {
    if invs != [] {
      var init, last := invs[..|invs| - 1], invs[|invs| - 1];
      ActiveCount(init);
      var before := set k | 0 <= k < |init| && init[k].status.Active?;
      var after := set k | 0 <= k < |invs| && invs[k].status.Active?;
      if last.status.Active? {
        assert after == before + {|invs| - 1};
      } else {
        assert after == before;
      }
    }
  }

  lemma {:induction false} ActiveOnlyAppend(a: seq<Investment>, b: seq<Investment>)
    ensures ActiveOnly(a + b) == ActiveOnly(a) + ActiveOnly(b)
  {
    if b == [] {
      assert a + b == a;
    } else {
      var b' := b[..|b| - 1];
      assert (a + b)[..|a + b| - 1] == a + b';
      ActiveOnlyAppend(a, b');
    }
  }

  lemma {:induction false} SumAmountUsdAppend(a: seq<Investment>, b: seq<Investment>)
    ensures SumAmountUsd(a + b) == SumAmountUsd(a) + SumAmountUsd(b)
  {
    if b == [] {
      assert a + b == a;
    } else {
      var b' := b[..|b| - 1];
      assert (a + b)[..|a + b| - 1] == a + b';
      SumAmountUsdAppend(a, b');
    }
  }

  lemma {:induction false} SumBtcAppend(a: seq<Investment>, b: seq<Investment>)
    ensures SumBtc(a + b) == SumBtc(a) + SumBtc(b)
  {
    if b == [] {
      assert a + b == a;
    } else {
      var b' := b[..|b| - 1];
      assert (a + b)[..|a + b| - 1] == a + b';
      SumBtcAppend(a, b');
    }
  }

  /** Appending a row moves the totals by exactly its contribution: an inactive row adds nothing. */
  lemma TotalsAppend(invs: seq<Investment>, inv: Investment)
    ensures TotalInvested(invs + [inv]) == TotalInvested(invs) + InvestedContribution(inv)
    ensures TotalBtc(invs + [inv]) == TotalBtc(invs) + BtcContribution(inv)
  {
    assert (invs + [inv])[..|invs + [inv]| - 1] == invs;
    var tail := if inv.status.Active? then [inv] else [];
    SumAmountUsdAppend(ActiveOnly(invs), tail);
    SumBtcAppend(ActiveOnly(invs), tail);
  }

  /** The aggregate of two batches is the sum of their aggregates: no row counted twice or lost. */
  lemma TotalsSplit(a: seq<Investment>, b: seq<Investment>)
    ensures TotalInvested(a + b) == TotalInvested(a) + TotalInvested(b)
    ensures TotalBtc(a + b) == TotalBtc(a) + TotalBtc(b)
  {
    ActiveOnlyAppend(a, b);
    SumAmountUsdAppend(ActiveOnly(a), ActiveOnly(b));
    SumBtcAppend(ActiveOnly(a), ActiveOnly(b));
  }

  /** Rows whose status is not "active" contribute nothing to either total. */
  lemma {:induction false} InactiveContributeNothing(invs: seq<Investment>)
    requires forall k | 0 <= k < |invs| :: invs[k].status.Other?
    ensures TotalInvested(invs) == 0.0 && TotalBtc(invs) == 0.0
  {
    if invs != [] {
      var init := invs[..|invs| - 1];
      InactiveContributeNothing(init);
      assert invs == init + [invs[|invs| - 1]];
      TotalsAppend(init, invs[|invs| - 1]);
    }
  }

  /** Profit and loss is the sum, over the active rows, of what each row gains at `price`. */
  lemma {:induction false} ProfitIsSumOfGains(invs: seq<Investment>, price: real)
    ensures TotalBtc(invs) * price - TotalInvested(invs) == SumGain(invs, price)
  {
    if invs == [] {
      EmptyProfit(price);
    } else {
      ProfitIsSumOfGains(invs[..|invs| - 1], price);
      ProfitSnocAt(invs, invs[..|invs| - 1], invs[|invs| - 1], price);
    }
  }

  /** ProfitSnoc stated for a list already known to be `init + [last]`. */
  lemma ProfitSnocAt(all: seq<Investment>, init: seq<Investment>, last: Investment, price: real)
    requires all == init + [last]
    requires TotalBtc(init) * price - TotalInvested(init) == SumGain(init, price)
    ensures TotalBtc(all) * price - TotalInvested(all) == SumGain(all, price)
  {
    ProfitSnoc(init, last, price);
  }

  lemma EmptyProfit(price: real)
    ensures TotalBtc([]) * price - TotalInvested([]) == SumGain([], price)
  {
    assert TotalBtc([]) == 0.0 && TotalInvested([]) == 0.0;
    ZeroTimes(price);
  }

  /** One induction step of ProfitIsSumOfGains: appending a row. */
  lemma ProfitSnoc(init: seq<Investment>, last: Investment, price: real)
    requires TotalBtc(init) * price - TotalInvested(init) == SumGain(init, price)
    ensures TotalBtc(init + [last]) * price - TotalInvested(init + [last]) == SumGain(init + [last], price)
  {
    SnocTotals(init, last, price);
    ProfitRow(TotalBtc(init + [last]), TotalBtc(init), TotalInvested(init + [last]), TotalInvested(init),
              SumGain(init + [last], price), SumGain(init, price), last, price);
  }

  /** Appending a row moves each of the three sums by that row's own term. */
  lemma SnocTotals(init: seq<Investment>, last: Investment, price: real)
    ensures TotalBtc(init + [last]) == TotalBtc(init) + BtcContribution(last)
    ensures TotalInvested(init + [last]) == TotalInvested(init) + InvestedContribution(last)
    ensures SumGain(init + [last], price) == SumGain(init, price) + Gain(last, price)
  {
    TotalsAppend(init, last);
    assert (init + [last])[..|init + [last]| - 1] == init;
  }

  /** The arithmetic of ProfitSnoc, over the totals as plain numbers and the appended row. */
  lemma ProfitRow(btc: real, btcInit: real, invested: real, investedInit: real,
                  gains: real, gainsInit: real, last: Investment, price: real)
    requires btc == btcInit + BtcContribution(last)
    requires invested == investedInit + InvestedContribution(last)
    requires gains == gainsInit + Gain(last, price)
    requires btcInit * price - investedInit == gainsInit
    ensures btc * price - invested == gains
  {
    if last.status.Active? {
      Distribute(btc, btcInit, last.btcAmount, price);
    } else {
      assert btc == btcInit;
    }
  }

  lemma ZeroTimes(price: real)
    ensures 0.0 * price == 0.0
  {
  }

  /** Multiplication by the price distributes over a sum (kept apart so the solver need not search for it). */
  lemma Distribute(total: real, part: real, row: real, price: real)
    requires total == part + row
    ensures total * price == part * price + row * price
  {
  }

  /** An opened row evaluated at its own purchase price neither gains nor loses. */
  lemma GainAtPurchasePrice(inv: Investment)
    requires OpenedAtPrice(inv)
    ensures Gain(inv, inv.btcPriceAtPurchase) == 0.0
  {
    var p := inv.btcPriceAtPurchase;
    assert inv.btcAmount * p == inv.amountUsd / p * p;
  }

  /** An opened row with a non-negative amount gains nothing negative once the price is at least its purchase price. */
  lemma GainWhenPriceRose(inv: Investment, price: real)
    requires OpenedAtPrice(inv) && inv.amountUsd >= 0.0 && price >= inv.btcPriceAtPurchase
    ensures Gain(inv, price) >= 0.0
  {
    var p := inv.btcPriceAtPurchase;
    assert inv.btcAmount >= 0.0;
    assert inv.btcAmount * price >= inv.btcAmount * p;
    assert inv.btcAmount * p == inv.amountUsd;
  }

  /** If every active row was opened at `price`, the dashboard shows no profit and no loss at `price`. */
  lemma {:induction false} NoProfitAtPurchasePrice(invs: seq<Investment>, price: real)
    requires forall k | 0 <= k < |invs| && invs[k].status.Active? ::
               OpenedAtPrice(invs[k]) && invs[k].btcPriceAtPurchase == price
    ensures Summarize(invs, price).profitLoss == 0.0
    ensures Summarize(invs, price).profitLossPercent == 0.0
  {
    ProfitIsSumOfGains(invs, price);
    SumGainZero(invs, price);
  }

  lemma {:induction false} SumGainZero(invs: seq<Investment>, price: real)
    requires forall k | 0 <= k < |invs| && invs[k].status.Active? ::
               OpenedAtPrice(invs[k]) && invs[k].btcPriceAtPurchase == price
    ensures SumGain(invs, price) == 0.0
  {
    if invs != [] {
      var last := invs[|invs| - 1];
      SumGainZero(invs[..|invs| - 1], price);
      if last.status.Active? {
        GainAtPurchasePrice(last);
      }
    }
  }

  /** If the price has not fallen below any active row's purchase price, profit/loss is not negative. */
  lemma {:induction false} NoLossWhenPriceRose(invs: seq<Investment>, price: real)
    requires forall k | 0 <= k < |invs| && invs[k].status.Active? ::
               OpenedAtPrice(invs[k]) && invs[k].amountUsd >= 0.0 && invs[k].btcPriceAtPurchase <= price
    ensures Summarize(invs, price).profitLoss >= 0.0
    ensures Summarize(invs, price).profitLossPercent >= 0.0
  {
    ProfitIsSumOfGains(invs, price);
    SumGainNonNegative(invs, price);
    var s := Summarize(invs, price);
    if s.totalInvested > 0.0 {
      assert s.profitLossPercent * s.totalInvested >= 0.0;
    }
  }

  lemma {:induction false} SumGainNonNegative(invs: seq<Investment>, price: real)
    requires forall k | 0 <= k < |invs| && invs[k].status.Active? ::
               OpenedAtPrice(invs[k]) && invs[k].amountUsd >= 0.0 && invs[k].btcPriceAtPurchase <= price
    ensures SumGain(invs, price) >= 0.0
  {
    if invs != [] {
      var last := invs[|invs| - 1];
      SumGainNonNegative(invs[..|invs| - 1], price);
      if last.status.Active? {
        GainWhenPriceRose(last, price);
      }
    }
  }
}
