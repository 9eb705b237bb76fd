/**
 * Runs of several handlers in a row: what the ledger looks like after a
 * payment intent is credited twice, and a worked exchange on a fresh store.
 */
module Scenarios {
  import opened Wrappers
  import opened Schema
  import opened Queries
  import opened Storage
  import opened Routes

  /** Two top-ups of the same amount credit it twice; nothing tells them apart. */
  lemma TopUpTwiceCreditsTwice(ws: seq<Wallet>, userId: Id, currency: string, amount: real)
    ensures BalanceOf(TopUpWallets(TopUpWallets(ws, userId, currency, amount), userId, currency, amount), userId, currency) ==
            BalanceOf(ws, userId, currency) + 2.0 * amount
  {
    TopUpCredits(ws, userId, currency, amount);
    TopUpCredits(TopUpWallets(ws, userId, currency, amount), userId, currency, amount);
  }

  /**
   * Confirming the same payment intent twice succeeds twice and credits the
   * wallet twice, logging two top-ups that carry the same intent id.
   */
  method ConfirmTwice(db: DatabaseStorage, caller: Id, paymentIntentId: string, amount: Option<real>, currency: string,
                      retrieved: Option<PaymentIntent>)
    returns (first: Result<(), RouteError>, second: Result<(), RouteError>)
    requires db.Valid()
    modifies db`wallets, db`transactions, db`clock
    ensures db.Valid()
    ensures first.Ok? <==> second.Ok?
    ensures first.Ok? ==> (amount.Some? &&
      BalanceOf(db.wallets, caller, currency) == BalanceOf(old(db.wallets), caller, currency) + 2.0 * amount.value)
    ensures first.Ok? ==>
      var n := |old(db.transactions)|;
      |db.transactions| == n + 2 &&
      db.transactions[n].stripePaymentIntentId == Some(paymentIntentId) &&
      db.transactions[n + 1].stripePaymentIntentId == Some(paymentIntentId)
  {
    ghost var ws := db.wallets;
    ghost var n := |db.transactions|;
    first := ConfirmPayment(db, caller, paymentIntentId, amount, currency, retrieved);
    ghost var txs1 := db.transactions;
    second := ConfirmPayment(db, caller, paymentIntentId, amount, currency, retrieved);
    if first.Ok? {
      TopUpTwiceCreditsTwice(ws, caller, currency, amount.value);
      assert db.transactions[n] == txs1[n];
    }
  }

  /**
   * A succeeded intent that the client confirms and Stripe's webhook also
   * reports is credited twice: once with the requested amount, once with the
   * intent's amount in cents divided by 100.
   */
  method ConfirmThenWebhook(db: DatabaseStorage, caller: Id, amount: real, intent: PaymentIntent)
    requires db.Valid()
    requires intent.id != "" && intent.targetCurrency != "" && amount != 0.0
    requires intent.status == "succeeded" && intent.metadataUserId == Some(caller)
    modifies db`wallets, db`transactions, db`clock
    ensures db.Valid()
    ensures BalanceOf(db.wallets, caller, intent.targetCurrency) ==
            BalanceOf(old(db.wallets), caller, intent.targetCurrency) + amount + WebhookAmount(intent)
    ensures |db.transactions| == |old(db.transactions)| + 2
    ensures db.transactions[|old(db.transactions)|].stripePaymentIntentId == Some(intent.id)
    ensures db.transactions[|old(db.transactions)| + 1].stripePaymentIntentId == Some(intent.id)
  {
    ghost var ws := db.wallets;
    ghost var n := |db.transactions|;
    var confirmed := ConfirmPayment(db, caller, intent.id, Some(amount), intent.targetCurrency, Some(intent));
    TopUpCredits(ws, caller, intent.targetCurrency, amount);
    ghost var ws1 := db.wallets;
    ghost var txs1 := db.transactions;
    StripeWebhook(db, StripeEvent("payment_intent.succeeded", intent));
    TopUpCredits(ws1, caller, intent.targetCurrency, WebhookAmount(intent));
    assert db.transactions[n] == txs1[n];
  }

  /** A fresh store after one registration: user 0 with its four zero wallets. */
  method RegisteredAccount() returns (db: DatabaseStorage)
    ensures fresh(db) && db.Valid() && db.rates == []
    ensures db.wallets == RegistrationWallets(0, 0)
  {
    db := new DatabaseStorage();
    var request := RegisterRequest("somchai", "somchai@example.la", "P0001", "020555", "LA", "pw", None);
    assert ParseRole(request.role) == Some(UserRole);
    assert FindUserByEmail([], request.email).None?;
    assert FindUserByUsername([], request.username).None?;
    var registered := Register(db, request, "hash");
    assert registered.Ok?;
    assert [] + RegistrationWallets(0, 0) == RegistrationWallets(0, 0);
  }

  /** A fresh store with one registered user (id 0) who has topped up 100 USD. */
  method FundedAccount() returns (db: DatabaseStorage)
    ensures fresh(db) && db.Valid() && db.rates == []
    ensures BalanceOf(db.wallets, 0, "USD") == 100.0 && BalanceOf(db.wallets, 0, "LAK") == 0.0
  {
    db := RegisteredAccount();
    ghost var ws := db.wallets;
    var intent := PaymentIntent("pi_1", "succeeded", 10000, Some(0), "USD");
    assert TopUpDetailsOk("pi_1", Some(100.0), "USD") && IntentBelongsTo(intent, 0);
    var confirmed := ConfirmPayment(db, 0, "pi_1", Some(100.0), "USD", Some(intent));
    assert db.wallets == TopUpWallets(ws, 0, "USD", 100.0);
    assert [] + ws == ws;
    RegisteredWalletsFound([], 0, 0);
    RegisteredWalletsFound([], 0, 3);
    assert BalanceOf(ws, 0, "USD") == 0.0 && BalanceOf(ws, 0, "LAK") == 0.0;
    TopUpCredits(ws, 0, "USD", 100.0);
    TopUpOtherBalances(ws, 0, "USD", 100.0, 0, "LAK");
  }

  /**
   * A worked run on an empty store: a new user tops up 100 USD, the rate
   * table is seeded, and 50 USD is exchanged to LAK at 20850. The fee is 0.25,
   * so 49.75 USD remain and 1042500 LAK arrive.
   */
  method ExchangeExample() returns (exchanged: Result<ExchangeResult, RouteError>, usd: real, lak: real)
    ensures exchanged == Ok(ExchangeResult(1042500.0, 0.25))
    ensures usd == 49.75 && lak == 1042500.0
  {
    var db := FundedAccount();
    ghost var ws := db.wallets;
    var rates := GetExchangeRates(db);
    SeededForwardRows();
    assert db.rates[0].rate == 20850.0;
    assert db.GetExchangeRate("USD", "LAK") == Some(db.rates[0]);
    assert ExchangeParamsOk("USD", "LAK", Some(50.0));
    assert ExchangeFee(50.0) == 0.25;
    exchanged := CurrencyExchange(db, 0, "USD", "LAK", Some(50.0));
    assert exchanged.Ok?;
    assert exchanged.value == ExchangeResult(50.0 * 20850.0, ExchangeFee(50.0));
    ExchangeBalances(ws, 0, "USD", "LAK", 50.0, 20850.0);
    usd := BalanceOf(db.wallets, 0, "USD");
    lak := BalanceOf(db.wallets, 0, "LAK");
    assert usd == 100.0 - 50.0 - 0.25;
    assert lak == 0.0 + 50.0 * 20850.0;
  }
}
