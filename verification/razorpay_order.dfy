/**
 * The deposit-order edge function: a request carrying a rupee amount becomes
 * either an error response or a gateway order in paise. The environment's key
 * pair and the gateway's reply are inputs; the function is the decision chain
 * between them.
 */
module RazorpayOrder {
  import opened Wrappers
  import opened Records

  /** The smallest deposit, in rupees. */
  const MinimumRupees: real := 100.0

  /** The parsed request body: `Malformed` when `req.json()` throws. */
  datatype RequestBody = Malformed | Body(amount: Option<real>)

  /**
   * What the gateway did with the order: answered not-ok; `Unreachable` when the
   * call or the parsing of its reply threw; or created it.
   */
  datatype GatewayReply =
    | Rejected
    | Unreachable
    | Accepted(orderId: string, orderAmount: int, orderCurrency: string)

  /** The order body posted to the gateway (the receipt, built from the clock, is not modelled). */
  datatype OrderRequest = OrderRequest(amountPaise: int, currency: string, purpose: string)

  /** Why the handler answered with an error; the last two carry a message the runtime supplies. */
  datatype Failure = BelowMinimum | CredentialsMissing | OrderFailed | BodyUnreadable | GatewayError

  datatype Response =
    | ErrorResponse(status: nat, failure: Failure)
    | OrderCreated(orderId: string, amount: int, currency: string, keyId: string)

  /** What one call does: the order it posted, if any, and what it answered. */
  datatype Outcome = Outcome(sent: Option<OrderRequest>, response: Response)

  /**
   * The `error` text of an error response; `None` where it is the message of
   * an exception raised by the runtime (JSON parsing, the network).
   */
  function Message(f: Failure): (m: Option<string>)
    ensures m.None? <==> f == BodyUnreadable || f == GatewayError
    ensures f == BelowMinimum ==> m == Some("Minimum amount is \U{20B9}100")
    ensures f == CredentialsMissing ==> m == Some("Razorpay credentials not configured")
    ensures f == OrderFailed ==> m == Some("Failed to create payment order")
  {
    match f
    case BelowMinimum => Some("Minimum amount is \U{20B9}100")
    case CredentialsMissing => Some("Razorpay credentials not configured")
    case OrderFailed => Some("Failed to create payment order")
    case BodyUnreadable => None
    case GatewayError => None
  }

  /** `!amount || amount < 100`: a missing or zero amount is refused as well as a small one. */
  predicate RefusedAmount(amount: Option<real>)
    ensures RefusedAmount(amount) <==> amount.None? || amount.value < MinimumRupees
  {
    amount.None? || amount.value == 0.0 || amount.value < MinimumRupees
  }

  /** `!razorpayKeyId || !razorpayKeySecret`: an unset or empty variable counts as missing. */
  predicate CredentialsPresent(keyId: Option<string>, keySecret: Option<string>)
    ensures CredentialsPresent(keyId, keySecret) <==>
              keyId.Some? && keySecret.Some? && |keyId.value| > 0 && |keySecret.value| > 0
    ensures keyId == Some("") || keySecret == Some("") ==> !CredentialsPresent(keyId, keySecret)
  {
    HasText(keyId) && HasText(keySecret)
  }

  /** `Math.round(amount * 100)`: JavaScript rounds halves upward, i.e. floor(x + 0.5). */
  function Paise(rupees: real): (p: int)
    ensures rupees * 100.0 - 0.5 < p as real <= rupees * 100.0 + 0.5
  {
    (rupees * 100.0 + 0.5).Floor
  }

  /** The handler, from the parsed body, the two environment variables and the gateway's reply. */
  function Handle(body: RequestBody, keyId: Option<string>, keySecret: Option<string>, reply: GatewayReply): (out: Outcome)
    ensures body.Malformed? ==> out == Outcome(None, ErrorResponse(500, BodyUnreadable))
    ensures body.Body? && RefusedAmount(body.amount) ==> out == Outcome(None, ErrorResponse(400, BelowMinimum))
    ensures body.Body? && !RefusedAmount(body.amount) && !CredentialsPresent(keyId, keySecret) ==>
              out == Outcome(None, ErrorResponse(500, CredentialsMissing))
    ensures out.sent.Some? <==> body.Body? && !RefusedAmount(body.amount) && CredentialsPresent(keyId, keySecret)
    ensures out.sent.Some? ==> out.sent.value == OrderRequest(Paise(body.amount.value), "INR", "bitcoin_investment")
    ensures out.sent.Some? && reply.Rejected? ==> out.response == ErrorResponse(500, OrderFailed)
    ensures out.sent.Some? && reply.Unreachable? ==> out.response == ErrorResponse(500, GatewayError)
    ensures out.response.OrderCreated? <==> out.sent.Some? && reply.Accepted?
    ensures out.response.OrderCreated? ==>
              out.response == OrderCreated(reply.orderId, reply.orderAmount, reply.orderCurrency, keyId.value)
  {
    match body
    case Malformed => Outcome(None, ErrorResponse(500, BodyUnreadable))
    case Body(amount) =>
      if RefusedAmount(amount) then Outcome(None, ErrorResponse(400, BelowMinimum))
      else if !CredentialsPresent(keyId, keySecret) then Outcome(None, ErrorResponse(500, CredentialsMissing))
      else
        var order := OrderRequest(Paise(amount.value), "INR", "bitcoin_investment");
        match reply
        case Rejected => Outcome(Some(order), ErrorResponse(500, OrderFailed))
        case Unreachable => Outcome(Some(order), ErrorResponse(500, GatewayError))
        case Accepted(id, amt, cur) => Outcome(Some(order), OrderCreated(id, amt, cur, keyId.value))
  }

  /** Every error response is a 400 for the amount and a 500 for everything else. */
  lemma StatusMatchesFailure(body: RequestBody, keyId: Option<string>, keySecret: Option<string>, reply: GatewayReply)
    ensures Handle(body, keyId, keySecret, reply).response.ErrorResponse? ==>
              var r := Handle(body, keyId, keySecret, reply).response;
              (r.status == 400 <==> r.failure == BelowMinimum) && (r.status != 400 ==> r.status == 500)
  {
  }

  /** The amount is checked before the credentials are read or the gateway called: a refused amount gives the same answer whatever they are. */
  lemma AmountCheckedFirst(amount: Option<real>, id1: Option<string>, secret1: Option<string>, reply1: GatewayReply,
                           id2: Option<string>, secret2: Option<string>, reply2: GatewayReply)
    requires RefusedAmount(amount)
    ensures Handle(Body(amount), id1, secret1, reply1) == Handle(Body(amount), id2, secret2, reply2)
    ensures Handle(Body(amount), id1, secret1, reply1).sent.None?
  {
  }

  /** The minimum is inclusive: exactly ₹100 passes the amount check and becomes 10000 paise. */
  lemma ExactlyMinimumPasses(keyId: Option<string>, keySecret: Option<string>, reply: GatewayReply)
    requires CredentialsPresent(keyId, keySecret)
    ensures Handle(Body(Some(100.0)), keyId, keySecret, reply).sent == Some(OrderRequest(10000, "INR", "bitcoin_investment"))
  {
    assert Paise(100.0) == 10000;
  }

  /** A whole number of paise is converted exactly. */
  lemma WholePaiseExact(rupees: real, paise: int)
    requires rupees * 100.0 == paise as real
    ensures Paise(rupees) == paise
  {
  }

  /** Every order that reaches the gateway is for at least 10000 paise. */
  lemma SentOrdersMeetMinimum(body: RequestBody, keyId: Option<string>, keySecret: Option<string>, reply: GatewayReply)
    ensures Handle(body, keyId, keySecret, reply).sent.Some? ==> Handle(body, keyId, keySecret, reply).sent.value.amountPaise >= 10000
  {
    var out := Handle(body, keyId, keySecret, reply);
    if out.sent.Some? {
      var a := body.amount.value;
      assert a >= 100.0;
      assert a * 100.0 >= 10000.0;
    }
  }
}
