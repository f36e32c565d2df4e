# Bit Hive Trade ledger model

A Dafny model of the investment and payout ledger of the Micro Bitcoin
platform (bit-hive-trade). Users put US dollars into Bitcoin positions at a
quoted price and see what those positions are worth now. They ask for INR
withdrawals to their bank account, and an administrator approves or rejects
each request. Deposits go through a payment-gateway order, which an edge
function creates.

The model has the following parts:

- `Records` (records.dfy): the table rows as datatypes. These are
  investments, transactions, payouts and profiles, with the status and
  payout-type vocabularies.
- `TableStore` (store.dfy): the hosted store as the pages see it. It is a
  class with one sequence per table, and a row's id is its position. Every
  insert and update is a step that may fail. A failed write changes nothing.
  The status update is keyed on the id alone.
- `Portfolio` (portfolio.dfy): the dashboard figures. These are the totals
  over `active` investments, current value, profit/loss and its percentage.
  The profit/loss is proved to be the sum of per-position gains, which is
  zero at the purchase price and non-negative when the price rose.
- `Dashboard` (dashboard.dfy): `handleInvest` as a method on the page
  state. The outcome depends on the amount check, the two writes and the
  reload, and the writes happen in order with no rollback.
- `PayoutRequest` (payout_request.dfy): the withdrawal form. It is a guard
  chain, then one `pending` row holding the gross amount.
- `Admin` (admin.dfy): the administrator page. It covers:
  - the gate;
  - the masked account column;
  - the per-user and platform figures of `loadAdminData`, with a proof that
    the per-user invested totals add up to the platform volume;
  - the approve and reject transitions. These are offered from the page's
    snapshot only for `pending` rows and written by id alone.
- `RazorpayOrder` (razorpay_order.dfy): the deposit-order edge function. It
  is a pure decision chain:
  - the ₹100 minimum;
  - the credential check;
  - the conversion to paise with JavaScript's rounding;
  - the mapping of the gateway's reply.

Inputs the model does not compute are taken as parameters:

- the live BTC price;
- the signed-in user and their role;
- the outcome of each store read and write;
- the gateway's reply;
- the clock reading stored in `processed_at`.

Amounts are exact reals. `parseFloat` is an `Option<real>`, with `None` for
NaN.

## Model

| member | source | states |
|---|---|---|
| Records.ParseInvestmentStatus | src/pages/Dashboard.tsx:146 | a status text is `Active` exactly when it is the literal `active`; any other text is kept as is |
| TableStore.Store.constructor | src/integrations/supabase/types.ts:16-251 | the store holds the given profiles, and the investment, transaction and payout tables start empty with ids matching positions |
| TableStore.Store.InsertInvestment | src/pages/Dashboard.tsx:100-108 | on success exactly one row is appended with the next id and the given fields; on failure the table is unchanged |
| TableStore.Store.InsertTransaction | src/pages/Dashboard.tsx:117-126 | on success exactly one transaction row is appended with the next id; on failure nothing changes |
| TableStore.Store.InsertPayout | src/components/PayoutRequestForm.tsx:49-58 | on success exactly one payout row is appended with the next id and no `processed_at`; on failure nothing changes |
| TableStore.Store.UpdatePayoutStatus | src/pages/Admin.tsx:191-194 | keyed on the id only: that row's status and `processed_at` are replaced and every other row and field is kept; a missing id or a failed write changes nothing |
| Portfolio.Summarize | src/pages/Dashboard.tsx:145-155 | totals are the active-only sums; currentValue = totalBtc × price; profitLoss = currentValue − totalInvested; the percentage is profitLoss/totalInvested × 100 when totalInvested > 0 and 0 otherwise |
| Portfolio.ActiveOnlyKeepsExactlyActive | src/pages/Dashboard.tsx:146 | the `active` filter (`ActiveOnly`) keeps only active rows of the list and drops no active row |
| Portfolio.OwnedBy | src/pages/Dashboard.tsx:58-62 | the `user_id` filter keeps only the user's rows, all from the list, and drops none of them |
| Portfolio.ActiveOnlyMultiset | src/pages/Dashboard.tsx:146 | the `active` filter keeps each active row exactly as many times as the list holds it, and no other row |
| Portfolio.OwnedByMultiset | src/pages/Dashboard.tsx:58-62 | the `user_id` filter keeps each of the user's rows exactly as many times as the list holds it, and no other row |
| Portfolio.ActiveCount | src/pages/Admin.tsx:106-110 | the length of the active list (`totalInvestments`) is the number of positions holding an active row |
| Portfolio.ActiveOnlyAppend | src/pages/Dashboard.tsx:146 | the `active` filter distributes over concatenation |
| Portfolio.TotalsAppend | src/pages/Dashboard.tsx:145-151 | appending a row moves the totals by that row's amount and BTC if it is active, by nothing otherwise |
| Portfolio.TotalsSplit | src/pages/Dashboard.tsx:145-151 | the totals of a concatenation are the sums of the parts' totals |
| Portfolio.InactiveContributeNothing | src/pages/Dashboard.tsx:145-151 | a list with no active investment has zero invested and zero BTC |
| Portfolio.ProfitIsSumOfGains | src/pages/Dashboard.tsx:153-154 | totalBtc × price − totalInvested equals the sum over active positions of btc × price − amount |
| Portfolio.GainAtPurchasePrice | src/pages/Dashboard.tsx:97-106 | a position opened at price p has zero gain at price p |
| Portfolio.GainWhenPriceRose | src/pages/Dashboard.tsx:153-154 | a position opened at price p has non-negative gain at any price ≥ p |
| Portfolio.NoProfitAtPurchasePrice | src/pages/Dashboard.tsx:153-155 | when every active position was opened at the current price, profitLoss and its percentage are both 0 |
| Portfolio.NoLossWhenPriceRose | src/pages/Dashboard.tsx:153-155 | when the price is at least every active position's purchase price, profitLoss and its percentage are non-negative |
| Dashboard.AcceptableAmount | src/pages/Dashboard.tsx:89-93 | an amount is accepted exactly when it is neither NaN nor ≤ 0 |
| Dashboard.BtcQuantity | src/pages/Dashboard.tsx:97 | btc × price = amount, and a positive amount buys a positive quantity |
| Dashboard.OpenedInvestment | src/pages/Dashboard.tsx:100-108 | the new row carries the given id, user and amount, is `active`, has btc_price_at_purchase = price and btc_amount = amount / price, so btc_amount × btc_price_at_purchase = amount_usd |
| Dashboard.BuyTransaction | src/pages/Dashboard.tsx:117-126 | the buy row is `buy`/`completed`, has the given id, no investment link and carries the investment's user, amount, BTC and price |
| Dashboard.DashboardPage.constructor | src/pages/Dashboard.tsx:36-39 | the page starts with no investments, an empty amount and not submitting |
| Dashboard.DashboardPage.LoadInvestments | src/pages/Dashboard.tsx:57-69 | a successful read replaces the list with the user's own rows; a failed one keeps the old list |
| Dashboard.DashboardPage.HandleInvest | src/pages/Dashboard.tsx:86-138 | the amount is refused exactly when it is NaN or ≤ 0, and then nothing is written; a failed investment write writes no transaction; a failed transaction write keeps the investment; success clears the amount and reloads; `submitting` ends false |
| Dashboard.InvestGrowsUserTotals | src/pages/Dashboard.tsx:97-151 | a new investment raises its owner's totals by the amount and by amount / price |
| Dashboard.FreshInvestmentBreaksEven | src/pages/Dashboard.tsx:97-155 | a single investment evaluated at its purchase price shows zero profit/loss and 0 % |
| PayoutRequest.CheckRequest | src/components/PayoutRequestForm.tsx:31-45 | accepted exactly when both bank details are present and 0 < amount ≤ maximum, and the accepted amount is the one entered; refused for missing details exactly when a detail is missing; for an invalid amount exactly when the details are present and the amount is NaN or ≤ 0; as above the maximum (carrying it) exactly when the details are present and the amount is positive and larger than the maximum |
| PayoutRequest.BankDetailsCheckedFirst | src/components/PayoutRequestForm.tsx:31-34 | with missing bank details the answer does not depend on the amount or the maximum |
| PayoutRequest.MaximumIsInclusive | src/components/PayoutRequestForm.tsx:42-45 | the maximum itself is accepted; any larger amount is refused |
| PayoutRequest.PayoutRequestForm.constructor | src/components/PayoutRequestForm.tsx:24-26 | the payout type starts as `monthly_return`, the amount empty, not submitting |
| PayoutRequest.PayoutRequestForm.SelectPayoutType | src/components/PayoutRequestForm.tsx:85-93 | the chosen type is one of the three payout types |
| PayoutRequest.PayoutRequestForm.HandleSubmit | src/components/PayoutRequestForm.tsx:28-68 | a refused request writes nothing; an accepted one appends exactly one `pending` payout with the gross amount entered, the selected type and the form's bank details, then clears the amount; a write failure writes nothing |
| Admin.Render | src/pages/Admin.tsx:218-231 | the panel is shown exactly when loading is over and the role is admin |
| Admin.RedirectsToAuth | src/pages/Admin.tsx:57-61 | never while loading; once loading is over, a signed-out visitor is always redirected, and for a signed-in visitor it applies exactly when the page renders blank |
| Admin.DisposalOffered | src/pages/Admin.tsx:420-438 | the buttons are offered exactly on the panel for a row that is neither completed nor failed |
| Admin.OnlyAdminsDispose | src/pages/Admin.tsx:420-438 | for any visitor (an admin role implying a signed-in user), a disposal button exists only for an admin whose page has loaded, only on a pending row, and never while the redirect applies |
| Admin.SliceLast | src/pages/Admin.tsx:347 | `slice(-n)`: the last n characters, or the whole of a shorter text |
| Admin.PadStart | src/pages/Admin.tsx:347 | `padStart`: the result is the text preceded by fill characters up to the width |
| Admin.MaskAccount | src/pages/Admin.tsx:347 | same length as the number; the last four characters kept; every earlier character is `*` |
| Admin.AccountCell | src/pages/Admin.tsx:345-351 | a masked number when the profile has one, "Not set" otherwise |
| Admin.ShortAccountShownAsIs | src/pages/Admin.tsx:347 | a number of four characters or fewer is shown unchanged |
| Admin.MaskRevealsOnlyLastFour | src/pages/Admin.tsx:347 | two numbers with the same length and last four characters mask to the same text |
| Admin.MaskIdempotent | src/pages/Admin.tsx:347 | masking a masked number changes nothing |
| Admin.UserRow | src/pages/Admin.tsx:82-95 | the row keeps the profile's fields; after a successful per-user read it shows the sums of that user's active investments; a failed read shows 0 invested and 0 BTC |
| Admin.UsersWithTotals | src/pages/Admin.tsx:80-98 | one row per profile, in order, each with that profile's active totals |
| Admin.PerUserTotalsAddUpToVolume | src/pages/Admin.tsx:80-112 | with distinct profile ids, every investment owned by a listed profile and all reads successful, the users' invested column sums to the platform's total volume |
| Admin.AdminPage.constructor | src/pages/Admin.tsx:47-54 | the stats start at zero, the user and payout lists empty |
| Admin.AdminPage.LoadAdminData | src/pages/Admin.tsx:69-158 | (`Reloaded`) the users, the active count, the active volume, the transaction count, the user count and the payout list are each replaced by what their read yields when it succeeds, and otherwise kept |
| Admin.AdminPage.DisposePayout | src/pages/Admin.tsx:190-216 | an offered snapshot row's id is written: that stored row becomes completed (approve) or failed (reject) with `processed_at` set, and nothing else changes; when the snapshot is current the stored row was pending; after a successful write the whole page state is as `loadAdminData` leaves it (`Reloaded`), and when the payouts reload succeeds and the snapshot was current, the row is no longer offered; a failed write changes neither the store nor the page |
| Admin.Disposition | src/pages/Admin.tsx:193 | approval gives `completed`, rejection `failed`; neither is `pending` |
| Admin.Disposed | src/pages/Admin.tsx:193-194 | only the status and `processed_at` of the row differ |
| Admin.DisposedIsFinal | src/pages/Admin.tsx:420 | a disposed row is never offered for disposal again |
| RazorpayOrder.Message | supabase/functions/create-razorpay-order/index.ts:16-53 | the error text of each refusal; runtime exceptions carry their own |
| RazorpayOrder.RefusedAmount | supabase/functions/create-razorpay-order/index.ts:16 | a numeric amount is refused exactly when it is absent or below ₹100; the zero test is subsumed |
| RazorpayOrder.CredentialsPresent | supabase/functions/create-razorpay-order/index.ts:26 | present exactly when both variables are set and non-empty; an empty value counts as missing |
| RazorpayOrder.Paise | supabase/functions/create-razorpay-order/index.ts:40 | `Math.round(amount × 100)`: within half a paisa of the exact value, halves rounded up |
| RazorpayOrder.Handle | supabase/functions/create-razorpay-order/index.ts:13-72 | a missing, zero or sub-₹100 amount gives 400 and no order; missing credentials give 500 and no order; otherwise exactly one INR order is sent; a non-ok or unreachable gateway gives 500; success returns the order's id, amount and currency with the key id |
| RazorpayOrder.StatusMatchesFailure | supabase/functions/create-razorpay-order/index.ts:16-72 | 400 is used exactly for the amount refusal, 500 for every other error |
| RazorpayOrder.AmountCheckedFirst | supabase/functions/create-razorpay-order/index.ts:16-33 | a refused amount gives the same answer whatever the credentials and the gateway, and sends nothing |
| RazorpayOrder.ExactlyMinimumPasses | supabase/functions/create-razorpay-order/index.ts:16-41 | exactly ₹100 passes and becomes an order of 10000 paise |
| RazorpayOrder.WholePaiseExact | supabase/functions/create-razorpay-order/index.ts:40 | an amount that is a whole number of paise is converted exactly |
| RazorpayOrder.SentOrdersMeetMinimum | supabase/functions/create-razorpay-order/index.ts:16-41 | every order that reaches the gateway is for at least 10000 paise |

## Left out

- Dashboard.BtcQuantity: requires a positive price. With a zero price the division gives Infinity, which the JSON request body sends as null; the store's reaction is outside the model. The price comes from src/hooks/useBtcPrice.tsx, which is not part of this model. It is a network poll on a 30-second timer.
- Dashboard.DashboardPage.HandleInvest: requires a positive price, for the same reason.
- Dashboard.DashboardPage.HandleInvest: the transaction reload (`loadTransactions`, the ten most recent rows) is left out, because the ledger figures never read it.
- Dashboard.DashboardPage.LoadInvestments: the newest-first ordering by `created_at` is not modelled. The model keeps insertion order, and every figure is an order-independent sum.
- Admin.AdminPage.LoadAdminData: not modelled are the `user_name` lookup attached to each payout, the newest-first ordering and the BTC deposit-address setting. The address setting and `handleUpdateBtcAddress` are a settings read and write with no ledger logic. The effect that triggers the load is not modelled either; the method is the load itself.
- Admin.AdminPage.LoadAdminData: every read returns the whole table. The store caps the rows one request returns, and the transaction figure is the length of the returned rows, not the exact count the request asks for. The per-user and platform investment reads are capped the same way, so the model's figures hold only below that cap.
- Admin.MaskAccount: counts Unicode characters, while JavaScript's `length`, `slice` and `padStart` count UTF-16 code units. An account number containing a character outside the Basic Multilingual Plane is masked differently. The account number is unvalidated free text.
- Admin.AdminPage.DisposePayout: the two handlers are one method with an `approve` flag, because they differ only in the status they write.
- Not modelled: the sign-in flow and role lookup of src/lib/auth.ts. The signed-in flag, the role and the loading flag are inputs.
- Not modelled: the monthly accrual and the withdrawal fee. The accrual is a database function whose body is not part of this model. The fee exists only as policy text, and no code applies it, so the payout amount is stored gross.
- Not modelled: atomicity across the investment and transaction writes. The code has none, and the model shows the resulting half-written state (`TransactionFailed`).
- Not modelled: concurrent sessions, and writes that interleave with a page's reads. Each method runs as one step against the store.
- Not modelled: the bank-details form, the deposit-address card, the earnings and withdrawal-history displays and the static pages. They hold no ledger logic beyond display.
- RazorpayOrder.Handle: the CORS preflight, the HTTP call itself, the `Date.now()` receipt and logging are left out. The gateway's reply is an input. Runtime exception messages (a JSON parse error, a network error) are represented by their cause, not their text.
- RazorpayOrder.Handle: the JSON amount is taken to be a number or absent. A non-numeric JSON value, which JavaScript would coerce, is not modelled.
- Not modelled: the browser's validation of the amount inputs (`min`, `max`, `step` and `required` on the withdrawal and investment forms), which runs before the submit handlers. The model covers the handlers only, so for example ₹0.50 is accepted by `CheckRequest` although the form would block it.
- RazorpayOrder.Handle: a gateway that answers ok with a body that is not JSON makes the reply parsing throw, which ends in a 500; the model counts that case as `Unreachable`.
- Not modelled: floating-point rounding, `Number(...)` coercion of numeric columns, and `toFixed`/`toLocaleString` display formatting. Amounts are exact reals.
