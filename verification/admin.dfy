/**
 * The admin page: who may see it, the per-user and platform figures computed
 * by `loadAdminData`, the masked account column, and the approve / reject
 * transitions of a pending payout.
 */
module Admin {
  import opened Wrappers
  import opened Records
  import opened TableStore
  import opened Portfolio

  // ---------------------------------------------------------------------------
  // Access gate

  /** What the page renders. */
  datatype Screen = LoadingScreen | Blank | Panel

  /** `if (loading) …; if (userRole !== 'admin') return null;` then the panel. */
  function Render(loading: bool, isAdmin: bool): (s: Screen)
    ensures s == Panel <==> !loading && isAdmin
    ensures s == LoadingScreen <==> loading
  {
    if loading then LoadingScreen else if !isAdmin then Blank else Panel
  }

  /** The effect that sends a signed-out or non-admin visitor to the sign-in page once loading is over. */
  predicate RedirectsToAuth(loading: bool, signedIn: bool, isAdmin: bool)
    ensures loading ==> !RedirectsToAuth(loading, signedIn, isAdmin)
    ensures !loading && !signedIn ==> RedirectsToAuth(loading, signedIn, isAdmin)
    ensures !loading && signedIn ==> (RedirectsToAuth(loading, signedIn, isAdmin) <==> Render(loading, isAdmin) == Blank)
  {
    !loading && (!signedIn || !isAdmin)
  }

  /** Approve and Reject buttons are rendered for a payout only on the panel and only while it is pending. */
  predicate DisposalOffered(screen: Screen, p: Payout)
    ensures DisposalOffered(screen, p) <==> screen == Panel && p.status !in {Completed, Failed}
  {
    screen == Panel && p.status == Pending
  }

  /**
   * A disposal button exists only for an admin whose page has loaded, only on
   * a pending payout, and never while the redirect applies. The role is looked
   * up for the signed-in user's id, so an admin role implies a signed-in user.
   */
  lemma OnlyAdminsDispose(loading: bool, signedIn: bool, isAdmin: bool, p: Payout)
    requires isAdmin ==> signedIn
    requires DisposalOffered(Render(loading, isAdmin), p)
    ensures isAdmin && !loading && p.status == Pending
    ensures !RedirectsToAuth(loading, signedIn, isAdmin)
  {
  }

  // ---------------------------------------------------------------------------
  // Account-number masking

  /** `s.slice(-n)` for n > 0: the last n characters, or all of a shorter s. */
  function SliceLast(s: string, n: nat): (r: string)
    requires n > 0
    ensures |r| == if |s| < n then |s| else n
    ensures r == s[|s| - |r|..]
  {
    if |s| < n then s else s[|s| - n..]
  }

  /** `t.padStart(width, c)`: c repeated in front until the text is `width` long. */
  function PadStart(t: string, width: nat, c: char): (r: string)
    ensures |r| == if |t| < width then width else |t|
    ensures forall i | 0 <= i < |r| - |t| :: r[i] == c
    ensures r[|r| - |t|..] == t
  {
    if |t| < width then seq(width - |t|, _ => c) + t else t
  }

  /** `n.slice(-4).padStart(n.length, '*')`: the account number as the user table shows it. */
  function MaskAccount(n: string): (r: string)
    ensures |r| == |n|
    ensures forall i | 0 <= i < |n| - 4 :: r[i] == '*'
    ensures forall i | |n| - 4 <= i < |n| && 0 <= i :: r[i] == n[i]
  {
    PadStart(SliceLast(n, 4), |n|, '*')
  }

  /** The bank-account cell: a masked number, or "Not set" when the profile has none. */
  function AccountCell(n: Option<string>): (cell: string)
    ensures HasText(n) ==> cell == MaskAccount(n.value)
    ensures !HasText(n) ==> cell == "Not set"
  {
    if HasText(n) then MaskAccount(n.value) else "Not set"
  }

  /** A number of four characters or fewer is shown unchanged. */
  lemma ShortAccountShownAsIs(n: string)
    requires |n| <= 4
    ensures MaskAccount(n) == n
  {
    assert forall i | 0 <= i < |n| :: MaskAccount(n)[i] == n[i];
  }

  /** The mask reveals only the length and the last four characters. */
  lemma MaskRevealsOnlyLastFour(n: string, m: string)
    requires |n| == |m|
    requires forall i | |n| - 4 <= i < |n| && 0 <= i :: n[i] == m[i]
    ensures MaskAccount(n) == MaskAccount(m)
  {
    assert forall i | 0 <= i < |n| :: MaskAccount(n)[i] == MaskAccount(m)[i];
  }

  /** Masking a masked number changes nothing. */
  lemma MaskIdempotent(n: string)
    ensures MaskAccount(MaskAccount(n)) == MaskAccount(n)
  {
    var m := MaskAccount(n);
    assert forall i | 0 <= i < |n| :: MaskAccount(m)[i] == m[i];
  }

  // ---------------------------------------------------------------------------
  // Per-user and platform figures

  /** A row of the user table. */
  datatype UserData = UserData(
    id: UserId,
    fullName: string,
    totalInvested: real,
    totalBtc: real,
    bankAccountNumber: Option<string>)

  /**
   * One profile with the sums of its active investments
   * (`.eq('user_id', id).eq('status', 'active')` then `reduce`); a failed
   * read yields `undefined`, which `|| 0` turns into 0.
   */
  function UserRow(p: Profile, invs: seq<Investment>, readOk: bool): (u: UserData)
    ensures u.id == p.id && u.fullName == p.fullName && u.bankAccountNumber == p.bankAccountNumber
    ensures readOk ==> u.totalInvested == TotalInvested(OwnedBy(invs, p.id))
                       && u.totalBtc == TotalBtc(OwnedBy(invs, p.id))
    ensures !readOk ==> u.totalInvested == 0.0 && u.totalBtc == 0.0
  {
    var owned := OwnedBy(invs, p.id);
    UserData(p.id, p.fullName,
             if readOk then TotalInvested(owned) else 0.0,
             if readOk then TotalBtc(owned) else 0.0,
             p.bankAccountNumber)
  }

  /** `profilesData.map(…)`: one row per profile, in order. */
  function UsersWithTotals(profiles: seq<Profile>, invs: seq<Investment>, readOks: seq<bool>): (users: seq<UserData>)
    requires |readOks| == |profiles|
    ensures |users| == |profiles|
    ensures forall i | 0 <= i < |profiles| :: users[i] == UserRow(profiles[i], invs, readOks[i])
  {
    if profiles == [] then []
    else [UserRow(profiles[0], invs, readOks[0])] + UsersWithTotals(profiles[1..], invs, readOks[1..])
  }

  function SumUserInvested(users: seq<UserData>): real {
    if users == [] then 0.0 else users[0].totalInvested + SumUserInvested(users[1..])
  }

  function ProfileIds(profiles: seq<Profile>): set<UserId> {
    set p | p in profiles :: p.id
  }

  predicate DistinctIds(profiles: seq<Profile>) {
    forall i, j | 0 <= i < j < |profiles| :: profiles[i].id != profiles[j].id
  }

  /** The sum, over the profiles, of each one's active invested amount. */
  function SumOverProfiles(profiles: seq<Profile>, invs: seq<Investment>): real {
    if profiles == [] then 0.0
    else TotalInvested(OwnedBy(invs, profiles[0].id)) + SumOverProfiles(profiles[1..], invs)
  }

  /** `v` once for every profile whose id is `u`. */
  function HitsValue(profiles: seq<Profile>, u: UserId, v: real): real {
    if profiles == [] then 0.0
    else (if profiles[0].id == u then v else 0.0) + HitsValue(profiles[1..], u, v)
  }

  lemma {:induction false} UsersSumIsSumOverProfiles(profiles: seq<Profile>, invs: seq<Investment>, readOks: seq<bool>)
    requires |readOks| == |profiles|
    requires forall i | 0 <= i < |readOks| :: readOks[i]
    ensures SumUserInvested(UsersWithTotals(profiles, invs, readOks)) == SumOverProfiles(profiles, invs)
  {
    if profiles != [] {
      UsersSumIsSumOverProfiles(profiles[1..], invs, readOks[1..]);
    }
  }

  lemma OwnedBySnoc(invs: seq<Investment>, x: Investment, u: UserId)
    ensures OwnedBy(invs + [x], u) == OwnedBy(invs, u) + (if x.userId == u then [x] else [])
  {
    assert (invs + [x])[..|invs + [x]| - 1] == invs;
  }

  lemma {:induction false} SumOverProfilesSnoc(profiles: seq<Profile>, invs: seq<Investment>, x: Investment)
    ensures SumOverProfiles(profiles, invs + [x])
            == SumOverProfiles(profiles, invs) + HitsValue(profiles, x.userId, InvestedContribution(x))
  {
    if profiles != [] {
      var u := profiles[0].id;
      SumOverProfilesSnoc(profiles[1..], invs, x);
      OwnedBySnoc(invs, x, u);
      if x.userId == u {
        TotalsAppend(OwnedBy(invs, u), x);
      } else {
        assert OwnedBy(invs, u) + [] == OwnedBy(invs, u);
      }
    }
  }

  lemma {:induction false} HitsValueAbsent(profiles: seq<Profile>, u: UserId, v: real)
    requires u !in ProfileIds(profiles)
    ensures HitsValue(profiles, u, v) == 0.0
  {
    if profiles != [] {
      assert profiles[0] in profiles;
      assert ProfileIds(profiles[1..]) <= ProfileIds(profiles) by {
        forall id | id in ProfileIds(profiles[1..]) ensures id in ProfileIds(profiles) {
          var p :| p in profiles[1..] && p.id == id;
          assert p in profiles;
        }
      }
      HitsValueAbsent(profiles[1..], u, v);
    }
  }

  lemma {:induction false} HitsValueOnce(profiles: seq<Profile>, u: UserId, v: real)
    requires DistinctIds(profiles) && u in ProfileIds(profiles)
    ensures HitsValue(profiles, u, v) == v
  {
    var rest := profiles[1..];
    assert ProfileIds(profiles) == {profiles[0].id} + ProfileIds(rest) by {
      forall id | id in ProfileIds(profiles) ensures id in {profiles[0].id} + ProfileIds(rest) {
        var p :| p in profiles && p.id == id;
        if p != profiles[0] {
          var k :| 0 <= k < |profiles| && profiles[k] == p;
          assert rest[k - 1] == p;
        }
      }
    }
    if profiles[0].id == u {
      assert u !in ProfileIds(rest) by {
        forall k | 0 <= k < |rest| ensures rest[k].id != u {
          assert rest[k] == profiles[k + 1];
        }
      }
      HitsValueAbsent(rest, u, v);
    } else {
      HitsValueOnce(rest, u, v);
    }
  }

  /**
   * When every investment belongs to exactly one listed profile and every
   * per-user read succeeded, the user table's invested column adds up to the
   * platform's total volume: nothing is counted twice and nothing is lost.
   */
  lemma {:induction false} PerUserTotalsAddUpToVolume(profiles: seq<Profile>, invs: seq<Investment>, readOks: seq<bool>)
    requires |readOks| == |profiles| && forall i | 0 <= i < |readOks| :: readOks[i]
    requires DistinctIds(profiles)
    requires forall k | 0 <= k < |invs| :: invs[k].userId in ProfileIds(profiles)
    ensures SumUserInvested(UsersWithTotals(profiles, invs, readOks)) == TotalInvested(invs)
  {
    UsersSumIsSumOverProfiles(profiles, invs, readOks);
    SumOverProfilesIsVolume(profiles, invs);
  }

  lemma {:induction false} SumOverProfilesIsVolume(profiles: seq<Profile>, invs: seq<Investment>)
    requires DistinctIds(profiles)
    requires forall k | 0 <= k < |invs| :: invs[k].userId in ProfileIds(profiles)
    ensures SumOverProfiles(profiles, invs) == TotalInvested(invs)
  {
    if invs == [] {
      SumOverProfilesEmpty(profiles);
    } else {
      var init, x := invs[..|invs| - 1], invs[|invs| - 1];
      assert invs == init + [x];
      SumOverProfilesIsVolume(profiles, init);
      SumOverProfilesSnoc(profiles, init, x);
      HitsValueOnce(profiles, x.userId, InvestedContribution(x));
      TotalsAppend(init, x);
    }
  }

  lemma {:induction false} SumOverProfilesEmpty(profiles: seq<Profile>)
    ensures SumOverProfiles(profiles, []) == 0.0
  {
    if profiles != [] {
      SumOverProfilesEmpty(profiles[1..]);
    }
  }

  /** The four figure cards. */
  datatype AdminStats = AdminStats(
    totalUsers: nat,
    totalInvestments: nat,
    totalVolume: real,
    totalTransactions: nat)

  /** Which of the reads `loadAdminData` issues succeed. */
  datatype ReadOutcomes = ReadOutcomes(
    profilesOk: bool,
    perUserOks: seq<bool>,
    investmentsOk: bool,
    transactionsOk: bool,
    payoutsOk: bool)

  // ---------------------------------------------------------------------------
  // The page state

  class AdminPage {
    const loading: bool
    const isAdmin: bool
    var stats: AdminStats
    var users: seq<UserData>
    /** The payout rows as last loaded; the buttons are rendered from these. */
    var payouts: seq<Payout>

    constructor (loading: bool, isAdmin: bool)
      ensures this.loading == loading && this.isAdmin == isAdmin
      ensures stats == AdminStats(0, 0, 0.0, 0) && users == [] && payouts == []
    {
      this.loading := loading;
      this.isAdmin := isAdmin;
      stats := AdminStats(0, 0, 0.0, 0);
      users := [];
      payouts := [];
    }

    /**
     * The page state after `loadAdminData` against `store`: each read that
     * succeeded replaced its part, each failed one left the previous value.
     */
    twostate predicate Reloaded(store: Store, outcomes: ReadOutcomes)
      reads this, store
    {
      && (outcomes.profilesOk ==> |outcomes.perUserOks| == |store.profiles|)
      && users == (if outcomes.profilesOk
                   then UsersWithTotals(store.profiles, store.investments, outcomes.perUserOks)
                   else old(users))
      && stats.totalInvestments ==
           (if outcomes.investmentsOk then |ActiveOnly(store.investments)| else old(stats.totalInvestments))
      && stats.totalVolume ==
           (if outcomes.investmentsOk then TotalInvested(store.investments) else old(stats.totalVolume))
      && stats.totalTransactions ==
           (if outcomes.transactionsOk then |store.transactions| else old(stats.totalTransactions))
      && stats.totalUsers == (if outcomes.profilesOk then |store.profiles| else old(stats.totalUsers))
      && payouts == (if outcomes.payoutsOk then store.payouts else old(payouts))
    }

    /**
     * `loadAdminData`: each read that succeeds replaces its part of the page
     * state through a `setStats(prev => …)`-style update; a failed read leaves
     * the previous figures.
     */
    method LoadAdminData(store: Store, outcomes: ReadOutcomes)
      requires outcomes.profilesOk ==> |outcomes.perUserOks| == |store.profiles|
      modifies this`stats, this`users, this`payouts
      ensures Reloaded(store, outcomes)
    {
      if outcomes.profilesOk {
        users := UsersWithTotals(store.profiles, store.investments, outcomes.perUserOks);
      }
      if outcomes.investmentsOk {
        var active := ActiveOnly(store.investments);
        stats := stats.(totalInvestments := |active|, totalVolume := SumAmountUsd(active));
      }
      if outcomes.transactionsOk {
        stats := stats.(totalTransactions := |store.transactions|);
      }
      if outcomes.profilesOk {
        stats := stats.(totalUsers := |store.profiles|);
      }
      if outcomes.payoutsOk {
        payouts := store.payouts;
      }
    }

    /**
     * `handleApprovePayonet` (approve) and `handleRejectPayout` (reject). The
     * buttons are rendered from the page's snapshot `payouts[k]`, so that row
     * must be offered; the write itself is keyed on the id alone and does not
     * look at the stored status. On success the page reloads.
     */
    method DisposePayout(store: Store, k: nat, approve: bool, now: Timestamp, writeOk: bool, outcomes: ReadOutcomes)
      returns (ok: bool)
      requires store.Valid()
      requires k < |payouts| && DisposalOffered(Render(loading, isAdmin), payouts[k])
      requires outcomes.profilesOk ==> |outcomes.perUserOks| == |store.profiles|
      modifies store`payouts, this`stats, this`users, this`payouts
      ensures store.Valid() && ok == writeOk
      ensures var id := old(payouts[k].id);
              store.payouts == if ok && id < |old(store.payouts)|
                               then old(store.payouts)[id := Disposed(old(store.payouts[id]), approve, now)]
                               else old(store.payouts)
      ensures old(payouts) == old(store.payouts) ==> old(store.payouts[payouts[k].id]).status == Pending
      ensures ok ==> Reloaded(store, outcomes)
      ensures ok && outcomes.payoutsOk ==> payouts == store.payouts
      ensures ok && outcomes.payoutsOk && old(payouts) == old(store.payouts) ==>
                !DisposalOffered(Render(loading, isAdmin), payouts[k])
      ensures !ok ==> unchanged(this)
    {
      var id := payouts[k].id;
      store.UpdatePayoutStatus(id, Disposition(approve), now, writeOk);
      ok := writeOk;
      if ok {
        LoadAdminData(store, outcomes);
      }
    }
  }

  /** `completed` for an approval, `failed` for a rejection. */
  function Disposition(approve: bool): (st: PayoutStatus)
    ensures st != Pending
    ensures approve <==> st == Completed
  {
    if approve then Completed else Failed
  }

  /** The stored row after a disposal write: only its status and `processed_at` differ. */
  function Disposed(p: Payout, approve: bool, now: Timestamp): (q: Payout)
    ensures q.status == Disposition(approve) && q.processedAt == Some(now)
    ensures q.(status := p.status, processedAt := p.processedAt) == p
  {
    p.(status := Disposition(approve), processedAt := Some(now))
  }

  /** A disposed payout is no longer offered for disposition: both terminal states are final on the page. */
  lemma DisposedIsFinal(p: Payout, approve: bool, now: Timestamp, screen: Screen)
    ensures !DisposalOffered(screen, Disposed(p, approve, now))
  {
  }
}
