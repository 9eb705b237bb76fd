/**
 * The route handlers that move money or shape the ledger, each a sequential
 * read-check-write against DatabaseStorage. The authenticated caller arrives
 * as an id (the JWT middleware is not modelled); what Stripe returns arrives
 * as an input record; errors are values of RouteError instead of HTTP codes.
 *
 * Every handler reads its wallets once and computes new balances from those
 * reads, then overwrites: the model keeps that order, so the effect of a
 * same-currency exchange (one wallet read twice) is the source's.
 */
module Routes {
  import opened Wrappers
  import opened Schema
  import opened Queries
  import opened Storage
  import Currency

  datatype RouteError =
    | InvalidParameters        // "Invalid exchange parameters", "Invalid payment parameters"
    | RateUnavailable
    | InsufficientBalance
    | InvalidAmount
    | UnsupportedCurrency
    | BelowMinimumAmount
    | MissingPaymentDetails
    | PaymentLookupFailed      // stripe.paymentIntents.retrieve threw
    | PaymentNotSuccessful
    | PaymentUserMismatch
    | InvalidVendorId
    | VendorNotVerified
    | ValidationFailed         // insertUserSchema.parse refused the body
    | UserExists
    | VendorNationality
    | DuplicateUser            // the database's unique constraint on username or email
    | VendorAlreadyRegistered
    | InvalidRatesData
    | AdminRequired

  // ---------------------------------------------------------------------------
  // Get-or-create of a wallet

  /** The wallets after a handler's "look up (userId, currency), create a zero wallet if missing". */
  function WithWallet(ws: seq<Wallet>, userId: Id, currency: string): (ws': seq<Wallet>)
    ensures |ws| <= |ws'| <= |ws| + 1 && ws'[..|ws|] == ws
  {
    if FindWallet(ws, userId, currency).Some? then ws else ws + [Wallet(|ws|, userId, currency, 0.0)]
  }

  /** Position of the wallet that get-or-create hands back; it has the balance the handler reads. */
  function SlotOf(ws: seq<Wallet>, userId: Id, currency: string): (k: nat)
    ensures k < |WithWallet(ws, userId, currency)|
    ensures OwnedIn(WithWallet(ws, userId, currency)[k], userId, currency)
    ensures WithWallet(ws, userId, currency)[k].balance == BalanceOf(ws, userId, currency)
    ensures k < |ws| <==> FindWallet(ws, userId, currency).Some?
  {
    FindWallet(ws, userId, currency).GetOr(|ws|)
  }

  predicate NonNegativeBalances(ws: seq<Wallet>) {
    forall i :: 0 <= i < |ws| ==> ws[i].balance >= 0.0
  }

  // ---------------------------------------------------------------------------
  // Currency exchange (POST /api/exchange)

  const EXCHANGE_FEE_RATE: real := 0.005

  /** The 0.5% fee, in the source currency. */
  function ExchangeFee(amount: real): real {
    amount * EXCHANGE_FEE_RATE
  }

  datatype ExchangeResult = ExchangeResult(convertedAmount: real, fee: real)

  /** `!fromCurrency || !toCurrency || !amount || amount <= 0` does not hold. */
  predicate ExchangeParamsOk(fromCurrency: string, toCurrency: string, amount: Option<real>) {
    fromCurrency != "" && toCurrency != "" && amount.Some? && amount.value > 0.0
  }

  /**
   * The wallets after the exchange's creation step: both lookups are made
   * first, then a missing from wallet and a missing to wallet are created, in
   * that order. With fromCurrency == toCurrency and no wallet, that makes two.
   */
  function ExchangeWallets(ws: seq<Wallet>, userId: Id, fromCurrency: string, toCurrency: string): (ws': seq<Wallet>)
    ensures |WithWallet(ws, userId, fromCurrency)| <= |ws'| <= |WithWallet(ws, userId, fromCurrency)| + 1
    ensures ws'[..|WithWallet(ws, userId, fromCurrency)|] == WithWallet(ws, userId, fromCurrency)
  {
    var ws1 := WithWallet(ws, userId, fromCurrency);
    if FindWallet(ws, userId, toCurrency).Some? then ws1 else ws1 + [Wallet(|ws1|, userId, toCurrency, 0.0)]
  }

  /** Position of the exchange's to wallet: found by the lookup made before the from wallet was created. */
  function ToSlot(ws: seq<Wallet>, userId: Id, fromCurrency: string, toCurrency: string): (k: nat)
    ensures k < |ExchangeWallets(ws, userId, fromCurrency, toCurrency)|
    ensures OwnedIn(ExchangeWallets(ws, userId, fromCurrency, toCurrency)[k], userId, toCurrency)
    ensures ExchangeWallets(ws, userId, fromCurrency, toCurrency)[k].balance == BalanceOf(ws, userId, toCurrency)
  {
    match FindWallet(ws, userId, toCurrency)
    case Some(t) => t
    case None => |WithWallet(ws, userId, fromCurrency)|
  }

  /**
   * The wallets after the exchange's two writes. Both new balances are
   * computed from the balances read before either write; the from wallet is
   * written first, then the to wallet, so when they are the same row the
   * credit overwrites the debit.
   */
  function ExchangedWallets(ws: seq<Wallet>, userId: Id, fromCurrency: string, toCurrency: string, amount: real, rate: real)
    : (ws': seq<Wallet>)
    ensures SameWalletKeys(ExchangeWallets(ws, userId, fromCurrency, toCurrency), ws')
    ensures forall i :: 0 <= i < |ws'| ==> ws'[i].id == ExchangeWallets(ws, userId, fromCurrency, toCurrency)[i].id
  {
    var ws1 := ExchangeWallets(ws, userId, fromCurrency, toCurrency);
    var f, t := SlotOf(ws, userId, fromCurrency), ToSlot(ws, userId, fromCurrency, toCurrency);
    ws1[f := ws1[f].(balance := BalanceOf(ws, userId, fromCurrency) - amount - ExchangeFee(amount))]
       [t := ws1[t].(balance := BalanceOf(ws, userId, toCurrency) + amount * rate)]
  }

  /** ExchangedWallets as the two writes the handler makes, from the balances it read. */
  lemma ExchangedWalletsWrites(ws: seq<Wallet>, userId: Id, fromCurrency: string, toCurrency: string, a: real, x: real,
                               newFrom: real, newTo: real)
    requires var ws1 := ExchangeWallets(ws, userId, fromCurrency, toCurrency);
      newFrom == ws1[SlotOf(ws, userId, fromCurrency)].balance - a - ExchangeFee(a) &&
      newTo == ws1[ToSlot(ws, userId, fromCurrency, toCurrency)].balance + a * x
    ensures var ws1 := ExchangeWallets(ws, userId, fromCurrency, toCurrency);
      var f, t := SlotOf(ws, userId, fromCurrency), ToSlot(ws, userId, fromCurrency, toCurrency);
      ExchangedWallets(ws, userId, fromCurrency, toCurrency, a, x) ==
        ws1[f := ws1[f].(balance := newFrom)][t := ws1[t].(balance := newTo)]
  {
    ExchangeSlots(ws, userId, fromCurrency, toCurrency);
  }

  /** The transaction row the exchange logs. */
  predicate ExchangeLogged(t: Transaction, userId: Id, fromCurrency: string, toCurrency: string, amount: real, rate: real) {
    t.userId == userId && t.txType == Exchange && t.status == Completed &&
    t.fromCurrency == Some(fromCurrency) && t.toCurrency == Some(toCurrency) &&
    t.amount == amount && t.convertedAmount == Some(amount * rate) && t.exchangeRate == Some(rate) &&
    t.fee == ExchangeFee(amount) && t.vendorId.None? && t.stripePaymentIntentId.None? &&
    t.description == Some("Exchange " + fromCurrency + " to " + toCurrency)
  }

  /** Both lookups of the exchange, then the creation of whichever wallet was missing (server/routes.ts:274-292). */
  method ExchangeWalletsFor(db: DatabaseStorage, caller: Id, fromCurrency: string, toCurrency: string)
    returns (fromWallet: Wallet, toWallet: Wallet)
    requires db.Valid()
    modifies db`wallets
    ensures db.Valid()
    ensures db.wallets == ExchangeWallets(old(db.wallets), caller, fromCurrency, toCurrency)
    ensures fromWallet == db.wallets[SlotOf(old(db.wallets), caller, fromCurrency)]
    ensures toWallet == db.wallets[ToSlot(old(db.wallets), caller, fromCurrency, toCurrency)]
    ensures fromWallet.id == SlotOf(old(db.wallets), caller, fromCurrency)
    ensures toWallet.id == ToSlot(old(db.wallets), caller, fromCurrency, toCurrency)
  {
    ghost var ws := db.wallets;
    var fromLookup := db.GetWalletByUserAndCurrency(caller, fromCurrency);
    var toLookup := db.GetWalletByUserAndCurrency(caller, toCurrency);
    if fromLookup.None? {
      fromWallet := db.CreateWallet(InsertWallet(caller, fromCurrency, Some(0.0)));
    } else {
      fromWallet := fromLookup.value;
    }
    if toLookup.None? {
      toWallet := db.CreateWallet(InsertWallet(caller, toCurrency, Some(0.0)));
    } else {
      toWallet := toLookup.value;
    }
    assert db.wallets == ExchangeWallets(ws, caller, fromCurrency, toCurrency);
  }

  method CurrencyExchange(db: DatabaseStorage, caller: Id, fromCurrency: string, toCurrency: string, amount: Option<real>)
    returns (r: Result<ExchangeResult, RouteError>)
    requires db.Valid()
    modifies db`wallets, db`transactions, db`clock
    ensures db.Valid()
    // Rejections before any write (server/routes.ts:264-272).
    ensures r == Err(InvalidParameters) <==> !ExchangeParamsOk(fromCurrency, toCurrency, amount)
    ensures r == Err(RateUnavailable) <==>
      ExchangeParamsOk(fromCurrency, toCurrency, amount) && old(db.GetExchangeRate(fromCurrency, toCurrency)).None?
    ensures r == Err(InvalidParameters) || r == Err(RateUnavailable) ==>
      db.wallets == old(db.wallets) && db.transactions == old(db.transactions)
    // The balance check, made after missing wallets were created (server/routes.ts:274-302).
    ensures r == Err(InsufficientBalance) <==>
      ExchangeParamsOk(fromCurrency, toCurrency, amount) && old(db.GetExchangeRate(fromCurrency, toCurrency)).Some? &&
      BalanceOf(old(db.wallets), caller, fromCurrency) < amount.value + ExchangeFee(amount.value)
    ensures r == Err(InsufficientBalance) ==>
      db.wallets == ExchangeWallets(old(db.wallets), caller, fromCurrency, toCurrency) &&
      db.transactions == old(db.transactions)
    ensures r.Err? ==> r.error in {InvalidParameters, RateUnavailable, InsufficientBalance}
    // Success (server/routes.ts:305-325).
    ensures r.Ok? ==> ExchangeParamsOk(fromCurrency, toCurrency, amount) && old(db.GetExchangeRate(fromCurrency, toCurrency)).Some?
    ensures r.Ok? ==>
      var a, x := amount.value, old(db.GetExchangeRate(fromCurrency, toCurrency)).value.rate;
      r.value == ExchangeResult(a * x, ExchangeFee(a)) &&
      db.wallets == ExchangedWallets(old(db.wallets), caller, fromCurrency, toCurrency, a, x)
    ensures r.Ok? ==>
      |db.transactions| == |old(db.transactions)| + 1 &&
      db.transactions[..|old(db.transactions)|] == old(db.transactions) &&
      ExchangeLogged(db.transactions[|old(db.transactions)|], caller, fromCurrency, toCurrency, amount.value,
                     old(db.GetExchangeRate(fromCurrency, toCurrency)).value.rate)
  {
    if !ExchangeParamsOk(fromCurrency, toCurrency, amount) {
      return Err(InvalidParameters);
    }
    var exchangeRate := db.GetExchangeRate(fromCurrency, toCurrency);
    if exchangeRate.None? {
      return Err(RateUnavailable);
    }
    r := ExchangeAtRate(db, caller, fromCurrency, toCurrency, amount.value, exchangeRate.value.rate);
  }

  /** The exchange once the parameters and the rate are known: wallet creation, the balance check, the writes. */
  method ExchangeAtRate(db: DatabaseStorage, caller: Id, fromCurrency: string, toCurrency: string, a: real, x: real)
    returns (r: Result<ExchangeResult, RouteError>)
    requires db.Valid()
    modifies db`wallets, db`transactions, db`clock
    ensures db.Valid()
    ensures r.Err? <==> BalanceOf(old(db.wallets), caller, fromCurrency) < a + ExchangeFee(a)
    ensures r.Err? ==>
      r.error == InsufficientBalance &&
      db.wallets == ExchangeWallets(old(db.wallets), caller, fromCurrency, toCurrency) &&
      db.transactions == old(db.transactions)
    ensures r.Ok? ==>
      r.value == ExchangeResult(a * x, ExchangeFee(a)) &&
      db.wallets == ExchangedWallets(old(db.wallets), caller, fromCurrency, toCurrency, a, x)
    ensures r.Ok? ==>
      |db.transactions| == |old(db.transactions)| + 1 &&
      db.transactions[..|old(db.transactions)|] == old(db.transactions) &&
      ExchangeLogged(db.transactions[|old(db.transactions)|], caller, fromCurrency, toCurrency, a, x)
  {
    ghost var ws := db.wallets;
    var fromWallet, toWallet := ExchangeWalletsFor(db, caller, fromCurrency, toCurrency);
    ExchangeSlots(ws, caller, fromCurrency, toCurrency);
    var convertedAmount := a * x;
    var fee := ExchangeFee(a);
    if fromWallet.balance < a + fee {
      return Err(InsufficientBalance);
    }
    var newFromBalance := fromWallet.balance - a - fee;
    var newToBalance := toWallet.balance + convertedAmount;
    WriteBalances(db, fromWallet.id, newFromBalance, toWallet.id, newToBalance);
    ExchangedWalletsWrites(ws, caller, fromCurrency, toCurrency, a, x, newFromBalance, newToBalance);
    var _ := db.CreateTransaction(InsertTransaction(
      caller, Some(fromCurrency), Some(toCurrency), a, Some(convertedAmount), Some(x),
      Some(fee), Exchange, Some(Completed), Some("Exchange " + fromCurrency + " to " + toCurrency), None, None));
    r := Ok(ExchangeResult(convertedAmount, fee));
  }

  /** The exchange's two balance writes, the from wallet first (server/routes.ts:305-309). */
  method WriteBalances(db: DatabaseStorage, fromId: Id, newFrom: real, toId: Id, newTo: real)
    requires db.Valid() && fromId < |db.wallets| && toId < |db.wallets|
    modifies db`wallets
    ensures db.Valid()
    ensures db.wallets ==
      old(db.wallets)[fromId := old(db.wallets)[fromId].(balance := newFrom)][toId := old(db.wallets)[toId].(balance := newTo)]
  {
    ghost var ws := db.wallets;
    var _ := db.UpdateWalletBalance(fromId, newFrom);
    assert db.wallets == ws[fromId := ws[fromId].(balance := newFrom)];
    var _ := db.UpdateWalletBalance(toId, newTo);
  }

  /** The wallet positions the exchange debits and credits, and when they coincide. */
  lemma ExchangeSlots(ws: seq<Wallet>, userId: Id, fromCurrency: string, toCurrency: string)
    ensures var f, t := SlotOf(ws, userId, fromCurrency), ToSlot(ws, userId, fromCurrency, toCurrency);
      var ws1 := ExchangeWallets(ws, userId, fromCurrency, toCurrency);
      ws1[..|ws|] == ws &&
      OwnedIn(ws1[f], userId, fromCurrency) && ws1[f].balance == BalanceOf(ws, userId, fromCurrency) &&
      (f == t <==> fromCurrency == toCurrency && FindWallet(ws, userId, fromCurrency).Some?)
  {
    var ws1 := ExchangeWallets(ws, userId, fromCurrency, toCurrency);
    var w1 := WithWallet(ws, userId, fromCurrency);
    assert ws1[..|ws|] == w1[..|ws|];
  }

  /**
   * Exchanging a currency into itself with no wallet for it creates two
   * wallets for the same (user, currency): both lookups ran before either insert.
   */
  lemma ExchangeSameCurrencyDuplicatesWallet(ws: seq<Wallet>, userId: Id, currency: string)
    requires FindWallet(ws, userId, currency).None?
    ensures var ws1 := ExchangeWallets(ws, userId, currency, currency);
      |ws1| == |ws| + 2 && OwnedIn(ws1[|ws|], userId, currency) && OwnedIn(ws1[|ws| + 1], userId, currency)
  {
  }

  /**
   * Between two different currencies the exchange moves value as promised:
   * the from balance drops by the amount plus the fee, the to balance rises
   * by the converted amount.
   */
  lemma ExchangeBalances(ws: seq<Wallet>, userId: Id, fromCurrency: string, toCurrency: string, a: real, x: real)
    requires fromCurrency != toCurrency
    ensures var ws' := ExchangedWallets(ws, userId, fromCurrency, toCurrency, a, x);
      BalanceOf(ws', userId, fromCurrency) == BalanceOf(ws, userId, fromCurrency) - a - ExchangeFee(a) &&
      BalanceOf(ws', userId, toCurrency) == BalanceOf(ws, userId, toCurrency) + a * x
  {
    var ws1 := ExchangeWallets(ws, userId, fromCurrency, toCurrency);
    var ws' := ExchangedWallets(ws, userId, fromCurrency, toCurrency, a, x);
    assert SameWalletKeys(ws1, ws');
    FindWalletSameKeys(ws1, ws', userId, fromCurrency);
    FindWalletSameKeys(ws1, ws', userId, toCurrency);
    ExchangeWalletsLookup(ws, userId, fromCurrency, toCurrency);
  }

  /** The exchange leaves the balance of every other (user, currency) as it was. */
  lemma ExchangeOtherBalances(ws: seq<Wallet>, userId: Id, fromCurrency: string, toCurrency: string, a: real, x: real,
                              u: Id, c: string)
    requires u != userId || (c != fromCurrency && c != toCurrency)
    ensures BalanceOf(ExchangedWallets(ws, userId, fromCurrency, toCurrency, a, x), u, c) == BalanceOf(ws, u, c)
  {
    var ws1 := ExchangeWallets(ws, userId, fromCurrency, toCurrency);
    var ws' := ExchangedWallets(ws, userId, fromCurrency, toCurrency, a, x);
    assert SameWalletKeys(ws1, ws');
    FindWalletSameKeys(ws1, ws', u, c);
    ExchangeWalletsOther(ws, userId, fromCurrency, toCurrency, u, c);
    var f, t := SlotOf(ws, userId, fromCurrency), ToSlot(ws, userId, fromCurrency, toCurrency);
    match FindWallet(ws, u, c)
    case Some(i) =>
      assert ws1[..|ws|] == ws;
      assert ws1[i] == ws[i];
      assert i != f && i != t;
    case None =>
  }

  /** Where the lookups of the two exchanged keys land in the wallets after creation. */
  lemma ExchangeWalletsLookup(ws: seq<Wallet>, userId: Id, fromCurrency: string, toCurrency: string)
    requires fromCurrency != toCurrency
    ensures FindWallet(ExchangeWallets(ws, userId, fromCurrency, toCurrency), userId, fromCurrency) == Some(SlotOf(ws, userId, fromCurrency))
    ensures FindWallet(ExchangeWallets(ws, userId, fromCurrency, toCurrency), userId, toCurrency) == Some(ToSlot(ws, userId, fromCurrency, toCurrency))
  {
    var w1 := WithWallet(ws, userId, fromCurrency);
    var ws1 := ExchangeWallets(ws, userId, fromCurrency, toCurrency);
    FindWalletAppend(ws, Wallet(|ws|, userId, fromCurrency, 0.0), userId, fromCurrency);
    FindWalletAppend(ws, Wallet(|ws|, userId, fromCurrency, 0.0), userId, toCurrency);
    FindWalletAppend(w1, Wallet(|w1|, userId, toCurrency, 0.0), userId, fromCurrency);
    FindWalletAppend(w1, Wallet(|w1|, userId, toCurrency, 0.0), userId, toCurrency);
  }

  /** A key other than the two exchanged ones finds the same wallet after creation as before. */
  lemma ExchangeWalletsOther(ws: seq<Wallet>, userId: Id, fromCurrency: string, toCurrency: string, u: Id, c: string)
    requires u != userId || (c != fromCurrency && c != toCurrency)
    ensures FindWallet(ExchangeWallets(ws, userId, fromCurrency, toCurrency), u, c) == FindWallet(ws, u, c)
  {
    var w1 := WithWallet(ws, userId, fromCurrency);
    FindWalletAppend(ws, Wallet(|ws|, userId, fromCurrency, 0.0), u, c);
    FindWalletAppend(w1, Wallet(|w1|, userId, toCurrency, 0.0), u, c);
  }

  /**
   * Exchanging a currency into itself with an existing wallet loses the
   * debit: the wallet ends at its old balance plus the converted amount.
   */
  lemma ExchangeSameCurrencyLosesDebit(ws: seq<Wallet>, userId: Id, currency: string, a: real, x: real)
    requires FindWallet(ws, userId, currency).Some?
    ensures BalanceOf(ExchangedWallets(ws, userId, currency, currency, a, x), userId, currency) ==
            BalanceOf(ws, userId, currency) + a * x
    ensures |ExchangedWallets(ws, userId, currency, currency, a, x)| == |ws|
  {
    var ws' := ExchangedWallets(ws, userId, currency, currency, a, x);
    assert SameWalletKeys(ws, ws');
    FindWalletSameKeys(ws, ws', userId, currency);
  }

  /**
   * A successful exchange leaves no wallet negative that was not negative
   * before, provided the rate used is not negative.
   */
  lemma ExchangeKeepsBalancesNonNegative(ws: seq<Wallet>, userId: Id, fromCurrency: string, toCurrency: string, a: real, x: real)
    requires NonNegativeBalances(ws) && a > 0.0 && x >= 0.0
    requires BalanceOf(ws, userId, fromCurrency) >= a + ExchangeFee(a)
    ensures NonNegativeBalances(ExchangedWallets(ws, userId, fromCurrency, toCurrency, a, x))
  {
    var ws1 := ExchangeWallets(ws, userId, fromCurrency, toCurrency);
    var ws' := ExchangedWallets(ws, userId, fromCurrency, toCurrency, a, x);
    var f, t := SlotOf(ws, userId, fromCurrency), ToSlot(ws, userId, fromCurrency, toCurrency);
    assert BalanceOf(ws, userId, toCurrency) >= 0.0;
    assert a * x >= 0.0;
    forall i | 0 <= i < |ws'| ensures ws'[i].balance >= 0.0 {
      if i != f && i != t && i < |ws| {
        assert ws1[..|ws|] == ws;
        assert ws1[i] == ws[i];
      }
    }
  }

  /** The exchange page's preview charges exactly what the server checks and debits. */
  lemma PreviewAgreesWithServer(amount: real, rate: real)
    ensures Currency.CalculateExchangeAmount(amount, rate).feeAmount == ExchangeFee(amount)
    ensures Currency.CalculateExchangeAmount(amount, rate).total == amount + ExchangeFee(amount)
    ensures Currency.CalculateExchangeAmount(amount, rate).convertedAmount == amount * rate
  {
  }

  // ---------------------------------------------------------------------------
  // QR payment (POST /api/qr-payment)

  /** `!vendorId || !amount || !currency || amount <= 0` does not hold. */
  predicate PaymentParamsOk(vendorId: Option<Id>, amount: Option<real>, currency: string) {
    vendorId.Some? && amount.Some? && currency != "" && amount.value > 0.0
  }

  /** The transaction row a QR payment logs. */
  predicate PaymentLogged(t: Transaction, userId: Id, vendorId: Id, amount: real, currency: string, description: string) {
    t.userId == userId && t.txType == Payment && t.status == Completed &&
    t.vendorId == Some(vendorId) && t.amount == amount &&
    t.fromCurrency == Some(currency) && t.toCurrency == Some(currency) &&
    t.description == Some(if description == "" then "QR Payment" else description) &&
    t.fee == 0.0 && t.convertedAmount.None? && t.exchangeRate.None? && t.stripePaymentIntentId.None?
  }

  method QrPayment(db: DatabaseStorage, caller: Id, vendorId: Option<Id>, amount: Option<real>, currency: string, description: string)
    returns (r: Result<Transaction, RouteError>)
    requires db.Valid()
    modifies db`wallets, db`transactions, db`clock
    ensures db.Valid()
    // Rejections, in order, before any write (server/routes.ts:539-552).
    ensures r == Err(InvalidParameters) <==> !PaymentParamsOk(vendorId, amount, currency)
    ensures r == Err(InvalidVendorId) <==>
      PaymentParamsOk(vendorId, amount, currency) && old(db.GetVendor(vendorId.value)).None?
    ensures r == Err(VendorNotVerified) <==>
      PaymentParamsOk(vendorId, amount, currency) && old(db.GetVendor(vendorId.value)).Some? &&
      !old(db.GetVendor(vendorId.value)).value.isVerified
    ensures r.Err? && r.error in {InvalidParameters, InvalidVendorId, VendorNotVerified} ==>
      db.wallets == old(db.wallets) && db.transactions == old(db.transactions)
    // The balance check, made after a missing wallet was created (server/routes.ts:554-568).
    ensures r == Err(InsufficientBalance) <==>
      PaymentParamsOk(vendorId, amount, currency) && old(db.GetVendor(vendorId.value)).Some? &&
      old(db.GetVendor(vendorId.value)).value.isVerified &&
      BalanceOf(old(db.wallets), caller, currency) < amount.value
    ensures r == Err(InsufficientBalance) ==>
      db.wallets == WithWallet(old(db.wallets), caller, currency) && db.transactions == old(db.transactions)
    ensures r.Err? ==> r.error in {InvalidParameters, InvalidVendorId, VendorNotVerified, InsufficientBalance}
    // Success: one debit of exactly the amount, no credit anywhere, one payment row (server/routes.ts:571-586).
    ensures r.Ok? ==> PaymentParamsOk(vendorId, amount, currency)
    ensures r.Ok? ==>
      var ws1 := WithWallet(old(db.wallets), caller, currency);
      var k := SlotOf(old(db.wallets), caller, currency);
      db.wallets == ws1[k := ws1[k].(balance := BalanceOf(old(db.wallets), caller, currency) - amount.value)]
    ensures r.Ok? ==>
      db.transactions == old(db.transactions) + [r.value] && r.value.id == |old(db.transactions)| &&
      PaymentLogged(r.value, caller, vendorId.value, amount.value, currency, description)
  {
    if !PaymentParamsOk(vendorId, amount, currency) {
      return Err(InvalidParameters);
    }
    var vendor := db.GetVendor(vendorId.value);
    if vendor.None? {
      return Err(InvalidVendorId);
    }
    if !vendor.value.isVerified {
      return Err(VendorNotVerified);
    }
    r := PayFromWallet(db, caller, vendorId.value, amount.value, currency, description);
  }

  /** The part of a QR payment after the vendor checks: get or create the wallet, check it, debit it, log the payment. */
  method PayFromWallet(db: DatabaseStorage, caller: Id, vendorId: Id, a: real, currency: string, description: string)
    returns (r: Result<Transaction, RouteError>)
    requires db.Valid()
    modifies db`wallets, db`transactions, db`clock
    ensures db.Valid()
    ensures r.Err? <==> BalanceOf(old(db.wallets), caller, currency) < a
    ensures r.Err? ==>
      r.error == InsufficientBalance &&
      db.wallets == WithWallet(old(db.wallets), caller, currency) && db.transactions == old(db.transactions)
    ensures r.Ok? ==>
      var ws1 := WithWallet(old(db.wallets), caller, currency);
      var k := SlotOf(old(db.wallets), caller, currency);
      db.wallets == ws1[k := ws1[k].(balance := BalanceOf(old(db.wallets), caller, currency) - a)]
    ensures r.Ok? ==>
      db.transactions == old(db.transactions) + [r.value] && r.value.id == |old(db.transactions)| &&
      PaymentLogged(r.value, caller, vendorId, a, currency, description)
  {
    var wallet := PayerWallet(db, caller, currency);
    if wallet.balance < a {
      return Err(InsufficientBalance);
    }
    var newBalance := wallet.balance - a;
    var _ := db.UpdateWalletBalance(wallet.id, newBalance);
    var transaction := db.CreateTransaction(InsertTransaction(
      caller, Some(currency), Some(currency), a, None, None, None, Payment, Some(Completed),
      Some(if description == "" then "QR Payment" else description), Some(vendorId), None));
    r := Ok(transaction);
  }

  /** The payer's wallet in the payment currency, created with balance 0 when the lookup finds none (server/routes.ts:554-562). */
  method PayerWallet(db: DatabaseStorage, userId: Id, currency: string) returns (wallet: Wallet)
    requires db.Valid()
    modifies db`wallets
    ensures db.Valid()
    ensures db.wallets == WithWallet(old(db.wallets), userId, currency)
    ensures wallet == db.wallets[SlotOf(old(db.wallets), userId, currency)]
  {
    var lookup := db.GetWalletByUserAndCurrency(userId, currency);
    if lookup.None? {
      wallet := db.CreateWallet(InsertWallet(userId, currency, Some(0.0)));
    } else {
      wallet := lookup.value;
    }
  }

  /** A QR payment never drives the payer's wallet negative, and touches no other balance. */
  lemma PaymentKeepsBalancesNonNegative(ws: seq<Wallet>, userId: Id, currency: string, a: real)
    requires NonNegativeBalances(ws) && BalanceOf(ws, userId, currency) >= a
    ensures var ws1 := WithWallet(ws, userId, currency);
      var k := SlotOf(ws, userId, currency);
      NonNegativeBalances(ws1[k := ws1[k].(balance := BalanceOf(ws, userId, currency) - a)])
  {
  }

  /** The vendor's "received" view (GET /api/transactions/vendor): a query, not a balance. */
  function VendorTransactions(db: DatabaseStorage, caller: Id): (r: seq<Transaction>)
    reads db
    requires db.Valid()
    ensures db.GetVendorByUserId(caller).None? ==> r == []
    ensures db.GetVendorByUserId(caller).Some? ==>
      forall t :: t in r <==> t in db.transactions && t.vendorId == Some(db.GetVendorByUserId(caller).value.id)
  {
    match db.GetVendorByUserId(caller)
    case None => []
    case Some(v) => db.GetTransactionsByVendorId(v.id)
  }

  // ---------------------------------------------------------------------------
  // Top-up (POST /api/create-payment-intent, /api/confirm-payment, /api/stripe-webhook)

  /** What Stripe reports for a payment intent. `amount` is in the smallest currency unit. */
  datatype PaymentIntent = PaymentIntent(
    id: string,
    status: string,
    amount: int,
    metadataUserId: Option<Id>,
    targetCurrency: string)

  datatype StripeEvent = StripeEvent(eventType: string, intent: PaymentIntent)

  const SUPPORTED_INTENT_CURRENCIES: seq<string> := ["usd", "thb", "lak", "eur"]

  /** The KELVIN SIGN, which JavaScript's toLowerCase maps to 'k'. */
  const KELVIN_SIGN: char := '\U{212A}'

  /**
   * toLowerCase on one character, as far as it can decide whether a currency
   * is supported: A-Z become a-z, and the Kelvin sign becomes 'k'.
   */
  function LowerChar(c: char): (r: char)
    ensures 'A' <= c <= 'Z' ==> r as int == c as int + 32 && 'a' <= r <= 'z'
    ensures c == KELVIN_SIGN ==> r == 'k'
    ensures !('A' <= c <= 'Z') && c != KELVIN_SIGN ==> r == c
  {
    if 'A' <= c <= 'Z' then (c as int + 32) as char
    else if c == KELVIN_SIGN then 'k'
    else c
  }

  /** toLowerCase, character by character. */
  function LowerCase(s: string): (r: string)
    ensures |r| == |s|
    ensures forall i :: 0 <= i < |s| ==> r[i] == LowerChar(s[i])
  {
    seq(|s|, i requires 0 <= i < |s| => LowerChar(s[i]))
  }

  /** Math.round on an exact value: the nearest integer, halves rounded up. */
  function MathRound(x: real): (r: int)
    ensures x - 0.5 < r as real <= x + 0.5
  {
    (x + 0.5).Floor
  }

  datatype IntentRequest = IntentRequest(amountInCents: int, currency: string)

  /** The checks create-payment-intent makes before calling Stripe, and the amount and currency it would send. */
  function CreatePaymentIntent(amount: Option<real>, currency: string): (r: Result<IntentRequest, RouteError>)
    ensures r.Ok? <==>
      amount.Some? && amount.value > 0.0 && LowerCase(currency) in SUPPORTED_INTENT_CURRENCIES &&
      MathRound(amount.value * 100.0) >= 50
    ensures r == Err(InvalidAmount) <==> amount.None? || amount.value <= 0.0
    ensures r.Ok? ==> r.value.amountInCents >= 50 && r.value.currency in SUPPORTED_INTENT_CURRENCIES
    ensures r.Ok? ==> r.value == IntentRequest(MathRound(amount.value * 100.0), LowerCase(currency))
  {
    if amount.None? || amount.value <= 0.0 then Err(InvalidAmount)
    else if LowerCase(currency) !in SUPPORTED_INTENT_CURRENCIES then Err(UnsupportedCurrency)
    else
      var amountInCents := MathRound(amount.value * 100.0);
      if amountInCents < 50 then Err(BelowMinimumAmount)
      else Ok(IntentRequest(amountInCents, LowerCase(currency)))
  }

  /** A currency spelled with the Kelvin sign lower-cases to "lak", so the intent is created in LAK. */
  lemma KelvinSignCurrencyAccepted()
    ensures CreatePaymentIntent(Some(1.0), "LA" + [KELVIN_SIGN]) == Ok(IntentRequest(100, "lak"))
  {
    var lowered := LowerCase("LA" + [KELVIN_SIGN]);
    assert lowered == "lak";
    assert MathRound(1.0 * 100.0) == 100;
  }

  /** The minimum: an amount passes the 50-cent check exactly when it is at least 0.495. */
  lemma MinimumIntentAmount(amount: real)
    ensures MathRound(amount * 100.0) >= 50 <==> amount >= 0.495
  {
    var y := amount * 100.0 + 0.5;
    if amount >= 0.495 {
      assert y >= 50.0;
      assert (50.0).Floor == 50;
    } else {
      assert y < 50.0;
    }
  }

  /** The wallets after confirm-payment credits `amount`: the found wallet gains it, or a wallet is created holding it. */
  function TopUpWallets(ws: seq<Wallet>, userId: Id, currency: string, amount: real): (ws': seq<Wallet>)
    ensures |ws'| == |ws| + (if FindWallet(ws, userId, currency).Some? then 0 else 1)
    ensures SameWalletKeys(ws, ws'[..|ws|])
    ensures FindWallet(ws, userId, currency).None? ==> ws'[|ws|] == Wallet(|ws|, userId, currency, amount)
  {
    match FindWallet(ws, userId, currency)
    case Some(i) => ws[i := ws[i].(balance := ws[i].balance + amount)]
    case None => ws + [Wallet(|ws|, userId, currency, amount)]
  }

  /** A top-up adds the amount to the balance of (user, currency), after which that key has a wallet, and changes no other wallet. */
  lemma TopUpCredits(ws: seq<Wallet>, userId: Id, currency: string, amount: real)
    ensures var ws' := TopUpWallets(ws, userId, currency, amount);
      BalanceOf(ws', userId, currency) == BalanceOf(ws, userId, currency) + amount &&
      FindWallet(ws', userId, currency).Some? &&
      |ws'| == |ws| + (if FindWallet(ws, userId, currency).Some? then 0 else 1) &&
      (forall i :: 0 <= i < |ws| && Some(i) != FindWallet(ws, userId, currency) ==> ws'[i] == ws[i])
  {
    var ws' := TopUpWallets(ws, userId, currency, amount);
    match FindWallet(ws, userId, currency)
    case Some(i) =>
      FindWalletSameKeys(ws, ws', userId, currency);
    case None =>
      FindWalletAppend(ws, Wallet(|ws|, userId, currency, amount), userId, currency);
  }

  /** A top-up leaves the balance of every other (user, currency) as it was. */
  lemma TopUpOtherBalances(ws: seq<Wallet>, userId: Id, currency: string, amount: real, u: Id, c: string)
    requires u != userId || c != currency
    ensures BalanceOf(TopUpWallets(ws, userId, currency, amount), u, c) == BalanceOf(ws, u, c)
  {
    var ws' := TopUpWallets(ws, userId, currency, amount);
    match FindWallet(ws, userId, currency)
    case Some(i) =>
      FindWalletSameKeys(ws, ws', u, c);
      if FindWallet(ws, u, c).Some? {
        assert FindWallet(ws, u, c).value != i;
      }
    case None =>
      FindWalletAppend(ws, Wallet(|ws|, userId, currency, amount), u, c);
  }

  /** The top-up row confirm-payment and the webhook log. */
  predicate TopUpLogged(t: Transaction, userId: Id, amount: real, currency: string, intentId: string) {
    t.userId == userId && t.txType == TopUp && t.status == Completed && t.amount == amount &&
    t.fromCurrency == Some(currency) && t.toCurrency == Some(currency) &&
    t.stripePaymentIntentId == Some(intentId) && t.fee == 0.0 && t.vendorId.None? &&
    t.description == Some("Top up " + currency + " wallet")
  }

  /** `!paymentIntentId || !amount || !currency` does not hold. */
  predicate TopUpDetailsOk(paymentIntentId: string, amount: Option<real>, currency: string) {
    paymentIntentId != "" && amount.Some? && amount.value != 0.0 && currency != ""
  }

  /** The intent's metadata names no user, or names the caller. */
  predicate IntentBelongsTo(intent: PaymentIntent, caller: Id) {
    intent.metadataUserId.None? || intent.metadataUserId.value == caller
  }

  /**
   * confirm-payment. `retrieved` is what stripe.paymentIntents.retrieve gave
   * for the id (None when it threw). The amount credited is the request's, and
   * earlier transactions carrying the same intent id are never consulted.
   */
  method ConfirmPayment(db: DatabaseStorage, caller: Id, paymentIntentId: string, amount: Option<real>, currency: string,
                        retrieved: Option<PaymentIntent>)
    returns (r: Result<(), RouteError>)
    requires db.Valid()
    modifies db`wallets, db`transactions, db`clock
    ensures db.Valid()
    ensures r == Err(MissingPaymentDetails) <==> !TopUpDetailsOk(paymentIntentId, amount, currency)
    ensures r == Err(PaymentLookupFailed) <==> TopUpDetailsOk(paymentIntentId, amount, currency) && retrieved.None?
    ensures r == Err(PaymentNotSuccessful) <==>
      TopUpDetailsOk(paymentIntentId, amount, currency) && retrieved.Some? && retrieved.value.status != "succeeded"
    ensures r == Err(PaymentUserMismatch) <==>
      TopUpDetailsOk(paymentIntentId, amount, currency) && retrieved.Some? && retrieved.value.status == "succeeded" &&
      !IntentBelongsTo(retrieved.value, caller)
    ensures r.Ok? <==>
      TopUpDetailsOk(paymentIntentId, amount, currency) && retrieved.Some? && retrieved.value.status == "succeeded" &&
      IntentBelongsTo(retrieved.value, caller)
    ensures r.Err? ==> db.wallets == old(db.wallets) && db.transactions == old(db.transactions)
    ensures r.Ok? ==> db.wallets == TopUpWallets(old(db.wallets), caller, currency, amount.value)
    ensures r.Ok? ==>
      |db.transactions| == |old(db.transactions)| + 1 &&
      db.transactions[..|old(db.transactions)|] == old(db.transactions) &&
      TopUpLogged(db.transactions[|old(db.transactions)|], caller, amount.value, currency, paymentIntentId)
  {
    if !TopUpDetailsOk(paymentIntentId, amount, currency) {
      return Err(MissingPaymentDetails);
    }
    if retrieved.None? {
      return Err(PaymentLookupFailed);
    }
    var paymentIntent := retrieved.value;
    if paymentIntent.status != "succeeded" {
      return Err(PaymentNotSuccessful);
    }
    if paymentIntent.metadataUserId.Some? && paymentIntent.metadataUserId.value != caller {
      return Err(PaymentUserMismatch);
    }
    ghost var ws := db.wallets;
    var wallet := db.GetWalletByUserAndCurrency(caller, currency);
    if wallet.None? {
      var _ := db.CreateWallet(InsertWallet(caller, currency, Some(amount.value)));
    } else {
      var newBalance := wallet.value.balance + amount.value;
      var _ := db.UpdateWalletBalance(wallet.value.id, newBalance);
    }
    assert db.wallets == TopUpWallets(ws, caller, currency, amount.value);
    var _ := db.CreateTransaction(InsertTransaction(
      caller, Some(currency), Some(currency), amount.value, None, None, None, TopUp, Some(Completed),
      Some("Top up " + currency + " wallet"), None, Some(paymentIntentId)));
    r := Ok(());
  }

  /** The webhook credits only a succeeded event whose metadata user already has a wallet in the target currency. */
  predicate WebhookCredits(ws: seq<Wallet>, event: StripeEvent) {
    event.eventType == "payment_intent.succeeded" && event.intent.metadataUserId.Some? &&
    FindWallet(ws, event.intent.metadataUserId.value, event.intent.targetCurrency).Some?
  }

  /** The webhook's credit: the intent's amount, converted back from cents. */
  function WebhookAmount(intent: PaymentIntent): (a: real)
    ensures a * 100.0 == intent.amount as real
    ensures intent.amount >= 0 ==> a >= 0.0
  {
    intent.amount as real / 100.0
  }

  /** stripe-webhook. The event body is taken as it comes; its signature is not checked. */
  method StripeWebhook(db: DatabaseStorage, event: StripeEvent)
    requires db.Valid()
    modifies db`wallets, db`transactions, db`clock
    ensures db.Valid()
    ensures !WebhookCredits(old(db.wallets), event) ==>
      db.wallets == old(db.wallets) && db.transactions == old(db.transactions)
    ensures WebhookCredits(old(db.wallets), event) ==>
      var i := event.intent;
      db.wallets == TopUpWallets(old(db.wallets), i.metadataUserId.value, i.targetCurrency, WebhookAmount(i)) &&
      |db.wallets| == |old(db.wallets)| &&
      |db.transactions| == |old(db.transactions)| + 1 &&
      db.transactions[..|old(db.transactions)|] == old(db.transactions) &&
      TopUpLogged(db.transactions[|old(db.transactions)|], i.metadataUserId.value, WebhookAmount(i), i.targetCurrency, i.id)
  {
    if event.eventType == "payment_intent.succeeded" && event.intent.metadataUserId.Some? {
      var paymentIntent := event.intent;
      var userId := paymentIntent.metadataUserId.value;
      var targetCurrency := paymentIntent.targetCurrency;
      ghost var ws := db.wallets;
      var wallet := db.GetWalletByUserAndCurrency(userId, targetCurrency);
      if wallet.Some? {
        var amount := WebhookAmount(paymentIntent);
        var newBalance := wallet.value.balance + amount;
        var _ := db.UpdateWalletBalance(wallet.value.id, newBalance);
        assert db.wallets == TopUpWallets(ws, userId, targetCurrency, amount);
        var _ := db.CreateTransaction(InsertTransaction(
          userId, Some(targetCurrency), Some(targetCurrency), amount, None, None, None, TopUp, Some(Completed),
          Some("Top up " + targetCurrency + " wallet"), None, Some(paymentIntent.id)));
      }
    }
  }

  // ---------------------------------------------------------------------------
  // Registration (POST /api/auth/register)

  datatype RegisterRequest = RegisterRequest(
    username: string,
    email: string,
    passportNumber: string,
    phoneNumber: string,
    nationality: string,
    password: string,
    role: Option<string>)

  /** The currencies a new account gets a wallet in, in creation order. */
  const REGISTRATION_CURRENCIES: seq<string> := ["USD", "THB", "EUR", "LAK"]

  /** The four zero-balance wallets registration appends, numbered from `start`. */
  function RegistrationWallets(start: nat, userId: Id): (ws: seq<Wallet>)
    ensures |ws| == |REGISTRATION_CURRENCIES|
    ensures forall k :: 0 <= k < |ws| ==> ws[k] == Wallet(start + k, userId, REGISTRATION_CURRENCIES[k], 0.0)
  {
    seq(|REGISTRATION_CURRENCIES|, k requires 0 <= k < |REGISTRATION_CURRENCIES| =>
      Wallet(start + k, userId, REGISTRATION_CURRENCIES[k], 0.0))
  }

  /**
   * register. `hashedPassword` is what bcrypt made of the password. The
   * checks run in the source's order: the schema, the email, the vendor
   * nationality rule, then the database's unique constraints.
   */
  method Register(db: DatabaseStorage, req: RegisterRequest, hashedPassword: string) returns (r: Result<User, RouteError>)
    requires db.Valid()
    modifies db`users, db`wallets
    ensures db.Valid()
    ensures r == Err(ValidationFailed) <==> ParseRole(req.role).None?
    ensures r == Err(UserExists) <==> ParseRole(req.role).Some? && FindUserByEmail(old(db.users), req.email).Some?
    ensures r == Err(VendorNationality) <==>
      ParseRole(req.role) == Some(VendorRole) && FindUserByEmail(old(db.users), req.email).None? && req.nationality != "LA"
    ensures r == Err(DuplicateUser) <==>
      ParseRole(req.role).Some? && FindUserByEmail(old(db.users), req.email).None? &&
      !(ParseRole(req.role) == Some(VendorRole) && req.nationality != "LA") &&
      FindUserByUsername(old(db.users), req.username).Some?
    ensures r.Err? ==> r.error in {ValidationFailed, UserExists, VendorNationality, DuplicateUser}
    ensures r.Err? ==> db.users == old(db.users) && db.wallets == old(db.wallets)
    ensures r.Ok? ==>
      r.value == UserRow(|old(db.users)|, InsertUser(req.username, req.email, req.passportNumber, req.phoneNumber,
                                                    req.nationality, hashedPassword, ParseRole(req.role).value)) &&
      db.users == old(db.users) + [r.value] &&
      r.value.role != AdminRole && (r.value.role == VendorRole ==> req.nationality == "LA")
    ensures r.Ok? ==> db.wallets == old(db.wallets) + RegistrationWallets(|old(db.wallets)|, r.value.id)
  {
    var role := ParseRole(req.role);
    if role.None? {
      return Err(ValidationFailed);
    }
    var existingUser := db.GetUserByEmail(req.email);
    if existingUser.Some? {
      return Err(UserExists);
    }
    if role.value == VendorRole && req.nationality != "LA" {
      return Err(VendorNationality);
    }
    var created := db.CreateUser(InsertUser(req.username, req.email, req.passportNumber, req.phoneNumber,
                                            req.nationality, hashedPassword, role.value));
    if created.Err? {
      return Err(DuplicateUser);
    }
    var user := created.value;
    ghost var ws := db.wallets;
    for i := 0 to |REGISTRATION_CURRENCIES|
      invariant db.Valid()
      invariant db.users == old(db.users) + [user]
      invariant db.wallets == ws + RegistrationWallets(|ws|, user.id)[..i]
    {
      var _ := db.CreateWallet(InsertWallet(user.id, REGISTRATION_CURRENCIES[i], Some(0.0)));
      assert RegistrationWallets(|ws|, user.id)[..i + 1] == RegistrationWallets(|ws|, user.id)[..i] + [RegistrationWallets(|ws|, user.id)[i]];
    }
    assert RegistrationWallets(|ws|, user.id)[..|REGISTRATION_CURRENCIES|] == RegistrationWallets(|ws|, user.id);
    r := Ok(user);
  }

  /** The registration currencies are exactly the client's CURRENCIES table, in the same order. */
  lemma RegistrationCurrenciesMatchTable()
    ensures REGISTRATION_CURRENCIES == Currency.Codes(Currency.CURRENCIES)
  {
    Currency.CurrencyCodes();
  }

  /**
   * For a user no wallet belonged to, every registration currency then looks
   * up the new zero wallet: the user starts with balance 0 in each.
   */
  lemma RegisteredWalletsFound(ws: seq<Wallet>, userId: Id, k: nat)
    requires forall i :: 0 <= i < |ws| ==> ws[i].userId != userId
    requires k < |REGISTRATION_CURRENCIES|
    ensures FindWallet(ws + RegistrationWallets(|ws|, userId), userId, REGISTRATION_CURRENCIES[k]) == Some(|ws| + k)
    ensures BalanceOf(ws + RegistrationWallets(|ws|, userId), userId, REGISTRATION_CURRENCIES[k]) == 0.0
  {
    var all := ws + RegistrationWallets(|ws|, userId);
    var c := REGISTRATION_CURRENCIES[k];
    assert OwnedIn(all[|ws| + k], userId, c);
    forall j | 0 <= j < |ws| + k ensures !OwnedIn(all[j], userId, c) {
      if j >= |ws| {
        assert all[j].currency == REGISTRATION_CURRENCIES[j - |ws|];
      }
    }
  }

  // ---------------------------------------------------------------------------
  // Vendors (POST /api/vendors, /api/admin/vendors/:id/approve and /reject)

  /** The body of a vendor registration: the insert schema's fields other than userId. */
  datatype VendorRequest = VendorRequest(
    businessName: string,
    businessAddress: string,
    businessType: string,
    businessLicense: Option<string>,
    taxId: Option<string>,
    status: Option<string>,
    approvedBy: Option<Id>,
    rejectionReason: Option<string>)

  /** A caller may register one vendor; it starts unverified whatever the body says. */
  method RegisterVendor(db: DatabaseStorage, caller: Id, req: VendorRequest) returns (r: Result<Vendor, RouteError>)
    requires db.Valid()
    modifies db`vendors
    ensures db.Valid()
    ensures r.Err? <==> old(db.GetVendorByUserId(caller)).Some?
    ensures r.Err? ==> r.error == VendorAlreadyRegistered && db.vendors == old(db.vendors)
    ensures r.Ok? ==>
      db.vendors == old(db.vendors) + [r.value] &&
      r.value == VendorRow(|old(db.vendors)|, InsertVendor(caller, req.businessName, req.businessAddress, req.businessType,
                                                          req.businessLicense, req.taxId, req.status, req.approvedBy,
                                                          req.rejectionReason)) &&
      r.value.userId == caller && !r.value.isVerified
  {
    var vendorData := InsertVendor(caller, req.businessName, req.businessAddress, req.businessType,
                                   req.businessLicense, req.taxId, req.status, req.approvedBy, req.rejectionReason);
    var existingVendor := db.GetVendorByUserId(caller);
    if existingVendor.Some? {
      return Err(VendorAlreadyRegistered);
    }
    var vendor := db.CreateVendor(vendorData);
    r := Ok(vendor);
  }

  /** requireAdmin: the caller is a user whose role is admin. */
  predicate IsAdmin(db: DatabaseStorage, caller: Id)
    reads db
    requires db.Valid()
    ensures IsAdmin(db, caller) <==> caller < |db.users| && db.users[caller].role == AdminRole
  {
    db.GetUser(caller).Some? && db.GetUser(caller).value.role == AdminRole
  }

  /** approve: the vendor is approved and verified by the admin, and its owner's role becomes vendor. */
  method ApproveVendor(db: DatabaseStorage, caller: Id, vendorId: Id) returns (r: Result<(), RouteError>)
    requires db.Valid()
    modifies db`vendors, db`users
    ensures db.Valid()
    ensures r.Err? <==> !old(IsAdmin(db, caller))
    ensures r.Err? ==> r.error == AdminRequired && db.vendors == old(db.vendors) && db.users == old(db.users)
    ensures r.Ok? ==> db.vendors == if vendorId < |old(db.vendors)| then
        old(db.vendors)[vendorId := old(db.vendors)[vendorId].(status := "approved", isVerified := true, approvedBy := Some(caller))]
      else old(db.vendors)
    ensures r.Ok? ==> (db.users ==
      if vendorId < |old(db.vendors)| && old(db.vendors)[vendorId].userId < |old(db.users)| then
        var u := old(db.vendors)[vendorId].userId;
        old(db.users)[u := old(db.users)[u].(role := VendorRole)]
      else old(db.users))
  {
    if !IsAdmin(db, caller) {
      return Err(AdminRequired);
    }
    var _ := db.ApproveVendor(vendorId, caller);
    var vendor := db.GetVendor(vendorId);
    if vendor.Some? {
      db.UpdateUserRole(vendor.value.userId, VendorRole);
    }
    r := Ok(());
  }

  /** reject: the vendor is rejected with the body's reason, or keeps its old one when the body has none; isVerified is left as it was. */
  method RejectVendor(db: DatabaseStorage, caller: Id, vendorId: Id, reason: Option<string>) returns (r: Result<(), RouteError>)
    requires db.Valid()
    modifies db`vendors
    ensures db.Valid()
    ensures r.Err? <==> !old(IsAdmin(db, caller))
    ensures r.Err? ==> r.error == AdminRequired && db.vendors == old(db.vendors)
    ensures r.Ok? ==> db.vendors == if vendorId < |old(db.vendors)| then
        old(db.vendors)[vendorId := old(db.vendors)[vendorId].(status := "rejected",
          rejectionReason := if reason.Some? then reason else old(db.vendors)[vendorId].rejectionReason,
          approvedBy := Some(caller))]
      else old(db.vendors)
    ensures r.Ok? && vendorId < |db.vendors| ==> db.vendors[vendorId].isVerified == old(db.vendors)[vendorId].isVerified
  {
    if !IsAdmin(db, caller) {
      return Err(AdminRequired);
    }
    var _ := db.RejectVendor(vendorId, reason, caller);
    r := Ok(());
  }

  // ---------------------------------------------------------------------------
  // Exchange rates (GET /api/exchange-rates, POST /api/admin/update-rates)

  /** The rates the first read of the rate table seeds. */
  const DEFAULT_RATES: seq<InsertExchangeRate> := [
    InsertExchangeRate("USD", "LAK", 20850.0),
    InsertExchangeRate("THB", "LAK", 625.0),
    InsertExchangeRate("EUR", "LAK", 22750.0),
    InsertExchangeRate("USD", "THB", 33.5),
    InsertExchangeRate("EUR", "USD", 1.09),
    InsertExchangeRate("LAK", "USD", 0.000048),
    InsertExchangeRate("LAK", "THB", 0.0016),
    InsertExchangeRate("LAK", "EUR", 0.000044)
  ]

  lemma DefaultRatesFresh()
    ensures FreshPairs([], DEFAULT_RATES)
  {
  }

  /** Seeding an empty table inserts the eight default rows, in order. */
  lemma SeededTable()
    ensures UpsertAll([], DEFAULT_RATES) == RateRows(0, DEFAULT_RATES)
  {
    DefaultRatesFresh();
    UpsertAllFresh([], DEFAULT_RATES);
  }

  /** `for (const rate of rates) await storage.updateExchangeRate(rate)`: each rate upserted in turn. */
  method UpsertRates(db: DatabaseStorage, list: seq<InsertExchangeRate>)
    requires db.Valid()
    modifies db`rates
    ensures db.Valid()
    ensures db.rates == UpsertAll(old(db.rates), list)
  {
    for i := 0 to |list|
      invariant db.Valid()
      invariant db.rates == UpsertAll(old(db.rates), list[..i])
    {
      var _ := db.UpdateExchangeRate(list[i]);
      assert list[..i + 1][..i] == list[..i];
    }
    assert list[..|list|] == list;
  }

  /** GET /api/exchange-rates: seeds the defaults when the table is empty, then returns every row. */
  method GetExchangeRates(db: DatabaseStorage) returns (rates: seq<ExchangeRate>)
    requires db.Valid()
    modifies db`rates
    ensures db.Valid()
    ensures |old(db.rates)| > 0 ==> db.rates == old(db.rates)
    ensures |old(db.rates)| == 0 ==> db.rates == RateRows(0, DEFAULT_RATES)
    ensures rates == db.rates
  {
    rates := db.GetAllExchangeRates();
    if |rates| == 0 {
      UpsertRates(db, DEFAULT_RATES);
      SeededTable();
      rates := db.GetAllExchangeRates();
    }
  }

  /** POST /api/admin/update-rates: upserts each listed rate in order. The route checks no caller. */
  method UpdateRates(db: DatabaseStorage, rates: Option<seq<InsertExchangeRate>>) returns (r: Result<(), RouteError>)
    requires db.Valid()
    modifies db`rates
    ensures db.Valid()
    ensures r.Err? <==> rates.None?
    ensures r.Err? ==> r.error == InvalidRatesData && db.rates == old(db.rates)
    ensures r.Ok? ==> db.rates == UpsertAll(old(db.rates), rates.value)
  {
    if rates.None? {
      return Err(InvalidRatesData);
    }
    UpsertRates(db, rates.value);
    r := Ok(());
  }

  /** Any run of upserts keeps every directed pair in at most one row. */
  lemma {:induction false} UpsertAllKeepsUniquePairs(rs: seq<ExchangeRate>, news: seq<InsertExchangeRate>)
    requires UniquePairs(rs)
    ensures UniquePairs(UpsertAll(rs, news))
  {
    if |news| > 0 {
      UpsertAllKeepsUniquePairs(rs, news[..|news| - 1]);
      UpsertedKeepsUniquePairs(UpsertAll(rs, news[..|news| - 1]), news[|news| - 1]);
    }
  }

  /**
   * The seeded rates are directional: USD to LAK and LAK to USD are separate
   * rows and not reciprocal, and THB to USD has no row at all although USD to THB has.
   */
  lemma SeededRatesAreDirectional()
    ensures var rs := RateRows(0, DEFAULT_RATES);
      FindRate(rs, "USD", "LAK") == Some(0) && rs[0].rate == 20850.0 &&
      FindRate(rs, "LAK", "USD") == Some(5) && rs[5].rate == 0.000048 &&
      rs[0].rate * rs[5].rate != 1.0 &&
      FindRate(rs, "USD", "THB") == Some(3) &&
      FindRate(rs, "THB", "USD").None?
  {
    SeededForwardRows();
    SeededNoThbToUsd();
  }

  /** Where the seeded USD->LAK, LAK->USD and USD->THB rows sit. */
  lemma SeededForwardRows()
    ensures var rs := RateRows(0, DEFAULT_RATES);
      FindRate(rs, "USD", "LAK") == Some(0) &&
      FindRate(rs, "LAK", "USD") == Some(5) &&
      FindRate(rs, "USD", "THB") == Some(3)
  {
    var rs := RateRows(0, DEFAULT_RATES);
    assert RateFor(rs[0], "USD", "LAK");
    assert RateFor(rs[5], "LAK", "USD");
    assert RateFor(rs[3], "USD", "THB");
    assert forall j :: 0 <= j < 5 ==> !RateFor(rs[j], "LAK", "USD");
    assert forall j :: 0 <= j < 3 ==> !RateFor(rs[j], "USD", "THB");
  }

  /** No seeded row converts THB to USD. */
  lemma SeededNoThbToUsd()
    ensures FindRate(RateRows(0, DEFAULT_RATES), "THB", "USD").None?
  {
    var rs := RateRows(0, DEFAULT_RATES);
    assert forall j :: 0 <= j < |rs| ==> rs[j].toCurrency != "USD" || rs[j].fromCurrency != "THB";
  }
}
