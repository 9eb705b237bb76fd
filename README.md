# fairtech wallet ledger, modelled in Dafny

fairtech is a multi-currency wallet (USD, THB, EUR, LAK) for visitors to Laos.
Users top up with Stripe, exchange between currencies for a 0.5% fee and pay
verified vendors by QR code. Admins approve vendors and maintain the exchange
rates. This project models the server's ledger and proves what each
money-moving request does to it:

- `Schema` (schema.dfy): the five tables' rows, the insert shapes and the
  column defaults.
- `Currency` (currency.dfy): the client's `CURRENCIES` table and its
  `calculateExchangeAmount` preview.
- `Queries` (queries.dfy): the pure lookups and filters the storage layer
  runs. These are the wallet and rate lookups, the rate upsert as a function,
  and the newest-first transaction histories. A lookup takes the first
  matching row in table order; see "Left out" for what that fixes.
- `Storage` (storage.dfy): `DatabaseStorage` as a class. Its tables are
  sequence fields. Reads are functions with `reads this`, and writes are
  methods that reassign one table.
- `Routes` (routes.dfy): the request handlers as methods on a
  `DatabaseStorage`. Each result is `Ok` or a `RouteError`.
- `Scenarios` (scenarios.dfy): several requests in a row.
  - Confirming one payment intent twice, or confirming it and also receiving
    its webhook, credits it twice.
  - A worked exchange: 50 USD becomes 1,042,500 LAK, with a 0.25 USD fee.

Modelling choices:

- Amounts are exact reals. The decimal(20,8) columns and JavaScript floats
  are not modelled.
- Ids are naturals, and a row's id is its position in its table. The
  database draws ids from `gen_random_uuid`, but the ledger never deletes a
  row, so positions are unique too.
- A transaction's `createdAt` comes from a counter in the store. Every
  insert advances the counter.
- The authenticated caller is a user id.
- What Stripe returns is an input record:
  - `retrieve` gives `Option<PaymentIntent>`, and `None` means the call
    threw;
  - a webhook delivers a `StripeEvent`.
- bcrypt's hash is an input string.
- Absent request strings are `""` and absent numbers are `None`, matching
  JavaScript truthiness.

Each handler reads its wallets first, computes the new balances from those
reads, and then writes them. The model keeps this order, so these effects of
the code as written are proved rather than assumed away:

- An exchange creates any missing wallet before it checks the balance. A
  rejected exchange can therefore leave new zero wallets behind.
- When both sides of an exchange are the same existing wallet, the credit
  overwrites the debit. The wallet ends at its old balance plus the converted
  amount (`ExchangeSameCurrencyLosesDebit`).
- When both sides are the same missing wallet, the exchange creates two
  wallets for one (user, currency) (`ExchangeSameCurrencyDuplicatesWallet`).
- Nothing checks whether a payment intent was already credited:
  - confirm-payment credits the amount in the request, not the intent's
    amount;
  - the webhook credits the intent's amount again.
- A QR payment debits the payer and credits no wallet. The vendor sees the
  payment only through its transaction history.
- The seeded rates are directional. USD→LAK and LAK→USD are separate rows
  and are not reciprocal. THB→USD has no row at all, so that exchange is
  refused.

## Model

| member | source | states |
|---|---|---|
| Schema.ParseRole | shared/schema.ts:107-114 | role defaults to user; only "user" and "vendor" are accepted; admin can never be requested |
| Schema.ParseRoleName | shared/schema.ts:8-19 | user and vendor come back unchanged when written out and parsed; admin is refused |
| Schema.UserRow | shared/schema.ts:10-23 | a new user is unverified and has no Stripe customer |
| Schema.WalletRow | shared/schema.ts:24-30 | a new wallet's balance defaults to 0 |
| Schema.TransactionRow | shared/schema.ts:32-47 | status defaults to pending and fee to 0; amount and type are taken as given |
| Schema.RateRow | shared/schema.ts:65-71 | the rate row keeps the inserted pair and rate under the given id |
| Schema.VendorRow | shared/schema.ts:49-63 | status defaults to "pending"; isVerified is false because the insert schema omits it (126-130) |
| Currency.Codes | client/src/lib/currency.ts:1-6 | one code per table entry, in table order |
| Currency.CurrencyCodes | client/src/lib/currency.ts:1-6 | CURRENCIES holds exactly USD, THB, EUR, LAK |
| Currency.CalculateExchangeAmount | client/src/lib/currency.ts:20-30 | the fee is amount·fee, the conversion is amount·rate, and the total less the fee is the amount |
| Currency.QuoteParts | client/src/lib/currency.ts:20-29 | feeAmount = amount·fee, convertedAmount = amount·rate, total = amount + feeAmount; with the default fee, feeAmount = amount/200 |
| Currency.QuoteTotalCoversAmount | client/src/lib/currency.ts:23 | total ≥ amount when amount ≥ 0 and fee ≥ 0 |
| Currency.QuoteLinear | client/src/lib/currency.ts:20-29 | scaling amount by k scales all three outputs by k |
| Queries.FindWallet | server/storage.ts:193-202 | the first wallet with this user and currency, or none exactly when no wallet matches |
| Queries.FindWalletSameKeys | server/storage.ts:209-219 | overwriting balances never changes which wallet a lookup finds |
| Queries.FindWalletAppend | server/storage.ts:204-207 | an appended wallet is found only when no earlier wallet matched |
| Queries.WalletsOf | server/storage.ts:189-191 | exactly the wallets of that user, each as many times as the table holds it (equal multisets after filtering) |
| Queries.FindUserByEmail | server/storage.ts:167-170 | a user with this email, or none exactly when none has it |
| Queries.FindUserByUsername | shared/schema.ts:12 | a user with this username, or none exactly when none has it |
| Queries.FindVendorByUser | server/storage.ts:274-280 | a vendor of this user, or none exactly when there is none |
| Queries.CountPending | server/storage.ts:383-392 | the number of positions whose vendor has status "pending"; so at most the number of vendors, and zero exactly when none is pending |
| Queries.FindRate | server/storage.ts:287-301 | a row for exactly the directed pair, or none; no inverse is derived |
| Queries.SetRate | server/storage.ts:311-321 | keeps every row's id and pair; rows of the pair take the new rate and the others keep theirs |
| Queries.Upserted | server/storage.ts:303-330 | the table grows by one row exactly when the pair had no row; old rows keep their ids and pairs |
| Queries.UpsertAll | server/routes.ts:633-635 | a run of upserts adds at most one row per rate; old rows keep their ids and pairs |
| Queries.SetRateKeys | server/storage.ts:311-321 | updating a pair's rate never moves any pair's row |
| Queries.UpsertedShape | server/storage.ts:303-330 | an existing pair keeps its rows and ids and only their rate changes; an absent pair gains exactly one row at the end |
| Queries.UpsertedIds | server/storage.ts:303-330 | the upsert keeps ids equal to positions |
| Queries.UpsertedLookup | server/storage.ts:303-330 | afterwards the pair's lookup finds the new rate, at its old position or at the new row |
| Queries.UpsertedOtherPair | server/storage.ts:303-330 | every other directed pair, including the inverse, is found where it was and at its old rate |
| Queries.UpsertedIdempotent | server/storage.ts:303-330 | repeating the same upsert changes nothing |
| Queries.SetRateAgain | server/storage.ts:311-321 | setting a pair to the rate its rows already carry leaves the table as it was |
| Queries.UpsertedKeepsUniquePairs | server/storage.ts:303-330 | the upsert never puts one directed pair in two rows |
| Queries.UpsertAllFresh | server/routes.ts:246-248 | upserting pairwise-new pairs only appends one row per pair, in order |
| Queries.NewestFirst | server/storage.ts:397-411 | exactly the transactions the filter selects |
| Queries.NewestFirstIsOrdered | server/storage.ts:397-411 | rows inserted in time order come back strictly newest first |
| Queries.Limit | server/storage.ts:242-252 | at most n rows, a prefix of the input |
| Storage.DatabaseStorage.constructor | server/storage.ts:138-151 | empty tables satisfying the store's invariant |
| Storage.DatabaseStorage.GetUser | server/storage.ts:162-165 | the user with this id, or none exactly when no row has it |
| Storage.DatabaseStorage.GetUserByEmail | server/storage.ts:167-170 | a user with this email, or none exactly when no row has it |
| Storage.DatabaseStorage.CreateUser | server/storage.ts:172-175 | appends the row unless the username or the email is taken (shared/schema.ts:12-13); on failure nothing changes |
| Storage.DatabaseStorage.UpdateUserStripeCustomerId | server/storage.ts:177-187 | only that user's stripeCustomerId changes |
| Storage.DatabaseStorage.UpdateUserRole | server/storage.ts:221-230 | only that user's role changes |
| Storage.DatabaseStorage.GetUserWallets | server/storage.ts:189-191 | exactly this user's wallets, with their multiplicities, so two wallets in one currency both appear |
| Storage.DatabaseStorage.GetWalletByUserAndCurrency | server/storage.ts:193-202 | a wallet with both this user and this currency, or none exactly when none matches |
| Storage.DatabaseStorage.CreateWallet | server/storage.ts:204-207 | always appends one wallet, even when the user already has one in that currency |
| Storage.DatabaseStorage.UpdateWalletBalance | server/storage.ts:209-219 | overwrites that wallet's balance; every other wallet is unchanged |
| Storage.DatabaseStorage.CreateTransaction | server/storage.ts:232-240 | appends one row stamped later than every earlier row |
| Storage.DatabaseStorage.GetTransaction | server/storage.ts:254-260 | the transaction with this id, or none exactly when no row has it |
| Storage.DatabaseStorage.UpdateTransactionStatus | server/storage.ts:262-272 | only that transaction's status changes |
| Storage.DatabaseStorage.GetTransactionsByUserId | server/storage.ts:405-411 | exactly this user's transactions, newest first |
| Storage.DatabaseStorage.GetTransactionsByVendorId | server/storage.ts:397-403 | exactly the transactions naming this vendor, newest first |
| Storage.DatabaseStorage.GetUserTransactions | server/storage.ts:242-252 | the newest `limit` of the user's transactions, 10 by default |
| Storage.DatabaseStorage.GetVendor | server/storage.ts:372-378 | the vendor with this id, or none exactly when no row has it |
| Storage.DatabaseStorage.GetVendorByUserId | server/storage.ts:274-280 | a vendor of this user, or none exactly when there is none |
| Storage.DatabaseStorage.GetAllVendors | server/storage.ts:336-338 | every vendor, newest first |
| Storage.DatabaseStorage.CreateVendor | server/storage.ts:282-285 | appends one vendor, unverified |
| Storage.DatabaseStorage.ApproveVendor | server/storage.ts:340-352 | only that vendor changes: status "approved", isVerified true, approvedBy the admin |
| Storage.DatabaseStorage.RejectVendor | server/storage.ts:354-370 | only that vendor changes: status "rejected", the reason when one is given (the old reason stays when it is absent, as the update skips undefined keys), approvedBy the admin; isVerified stays |
| Storage.DatabaseStorage.GetExchangeRate | server/storage.ts:287-301 | a row for exactly the directed pair, or none exactly when no row has it |
| Storage.DatabaseStorage.UpdateExchangeRate | server/storage.ts:303-330 | the rates become the upsert of the old ones; the pair then looks up to the new rate |
| Storage.DatabaseStorage.GetAdminStats | server/storage.ts:380-395 | the table sizes, and pendingVendors is the number of vendors whose status is "pending" |
| Storage.DatabaseStorage.GetAllExchangeRates | server/storage.ts:332-334 | every rate row, in table order |
| Routes.WithWallet | server/routes.ts:554-562 | get-or-create adds at most one wallet and keeps the old ones as a prefix |
| Routes.SlotOf | server/routes.ts:554-562 | get-or-create hands back a wallet of the right (user, currency) holding the balance the handler reads; it is an old wallet exactly when the lookup found one |
| Routes.ExchangeWallets | server/routes.ts:274-292 | the from wallet is created first, then the to wallet, each only if its lookup failed |
| Routes.ToSlot | server/routes.ts:274-292 | the to wallet has the right (user, currency) and the balance read before any insert |
| Routes.ExchangeWalletsFor | server/routes.ts:274-292 | both lookups happen before either insert; the wallets handed back are the ones the ledger then holds |
| Routes.CurrencyExchange | server/routes.ts:260-329 | bad parameters and a missing directed rate are refused with no write; otherwise the exchange runs at the stored rate (ExchangeAtRate) |
| Routes.ExchangeAtRate | server/routes.ts:274-325 | refused exactly when the from balance is below amount + 0.5% fee, leaving only the created wallets; on success the wallets are ExchangedWallets, one completed exchange row is logged and (amount·rate, fee) is returned |
| Routes.WriteBalances | server/routes.ts:305-309 | the from wallet is written, then the to wallet |
| Routes.ExchangedWallets | server/routes.ts:297-309 | the exchange's writes change only balances: ids, users and currencies are those of the wallets after creation |
| Routes.ExchangedWalletsWrites | server/routes.ts:305-309 | the two writes from the stale reads are exactly ExchangedWallets |
| Routes.ExchangeSlots | server/routes.ts:274-292 | old wallets keep their places; debit and credit hit the same wallet exactly when the currencies are equal and that wallet existed |
| Routes.ExchangeSameCurrencyDuplicatesWallet | server/routes.ts:274-292 | a same-currency exchange with no wallet creates two wallets for one (user, currency) |
| Routes.ExchangeBalances | server/routes.ts:305-309 | between two currencies, from drops by amount + fee and to rises by amount·rate |
| Routes.ExchangeOtherBalances | server/routes.ts:305-309 | every other (user, currency) balance is unchanged |
| Routes.ExchangeWalletsLookup | server/routes.ts:274-292 | after creation, both keys look up to the wallets the handler uses |
| Routes.ExchangeWalletsOther | server/routes.ts:274-292 | creation does not change which wallet any other key finds |
| Routes.ExchangeSameCurrencyLosesDebit | server/routes.ts:305-309 | a same-currency exchange on an existing wallet keeps the credit and loses the debit |
| Routes.ExchangeKeepsBalancesNonNegative | server/routes.ts:300-309 | with a non-negative rate, a successful exchange drives no wallet negative |
| Routes.PreviewAgreesWithServer | server/routes.ts:296-300 | the client preview's fee, total and converted amount equal the server's fee, balance threshold and credit |
| Routes.QrPayment | server/routes.ts:535-591 | refusals in order: parameters, unknown vendor, unverified vendor (no write), then low balance (wallet may be created); success debits exactly the amount from the payer, credits nothing and logs one payment row |
| Routes.PayerWallet | server/routes.ts:554-562 | the payer's wallet is looked up and created at balance 0 only if absent; the wallet returned is the one the ledger then holds |
| Routes.PayFromWallet | server/routes.ts:554-586 | refused exactly when the balance read is below the amount, leaving only a created wallet; otherwise that wallet alone is debited by the amount and one completed payment row is logged |
| Routes.PaymentKeepsBalancesNonNegative | server/routes.ts:564-572 | a QR payment drives no wallet negative |
| Routes.VendorTransactions | server/routes.ts:518-532 | empty for a non-vendor; otherwise exactly the transactions naming the caller's vendor |
| Routes.CreatePaymentIntent | server/routes.ts:356-395 | accepted exactly when the amount is positive, the lower-cased currency is usd/thb/lak/eur and the rounded cents reach 50; the request then carries Math.round(amount·100) cents and the lower-cased currency |
| Routes.KelvinSignCurrencyAccepted | server/routes.ts:368-370 | "LA" followed by the Kelvin sign is accepted and sent to Stripe as "lak" |
| Routes.LowerChar | server/routes.ts:369 | A-Z become a-z and the Kelvin sign becomes k; every other character is kept |
| Routes.LowerCase | server/routes.ts:369 | toLowerCase keeps the length and lower-cases each character |
| Routes.MathRound | server/routes.ts:376 | the result is within one half of x, halves rounded up |
| Routes.MinimumIntentAmount | server/routes.ts:375-383 | the 50-cent check passes exactly when the amount is at least 0.495 |
| Routes.TopUpWallets | server/routes.ts:438-451 | the table grows by one wallet (holding the amount) exactly when the lookup failed; old wallets keep their keys |
| Routes.TopUpCredits | server/routes.ts:439-451 | the top-up adds the amount to that key's balance, creating a wallet only if none existed; other wallets are unchanged |
| Routes.TopUpOtherBalances | server/routes.ts:439-451 | every other (user, currency) balance is unchanged |
| Routes.ConfirmPayment | server/routes.ts:413-469 | refusals in order: missing details, lookup failed, not succeeded, another user's intent, all before any write; otherwise the requested amount is credited and one top-up row carries the intent id |
| Routes.WebhookAmount | server/routes.ts:483 | converts back from cents: the credit times 100 is the intent's amount |
| Routes.StripeWebhook | server/routes.ts:472-505 | credits amount/100 and logs a top-up only for a succeeded event whose user already has a wallet in the target currency; never creates a wallet |
| Routes.RegistrationWallets | server/routes.ts:103-110 | four zero wallets for the user, in USD, THB, EUR, LAK order |
| Routes.Register | server/routes.ts:78-131 | refusals in order: schema, existing email, non-LA vendor, unique constraints, each with no write; success adds one non-admin user and exactly its four zero wallets |
| Routes.RegistrationCurrenciesMatchTable | server/routes.ts:104 | the registration currencies are the client's CURRENCIES codes in order |
| Routes.RegisteredWalletsFound | server/routes.ts:103-110 | for a user with no earlier wallets, each currency then looks up its new wallet with balance 0 |
| Routes.RegisterVendor | server/routes.ts:594-612 | refused when the caller already owns a vendor; otherwise one unverified vendor owned by the caller |
| Routes.ApproveVendor | server/routes.ts:653-668 | only an admin; the vendor is approved by that admin and its owner's role becomes vendor |
| Routes.RejectVendor | server/routes.ts:670-679 | only an admin; the vendor is rejected with the body's reason, or keeps its old reason when the body has none; isVerified stays |
| Routes.IsAdmin | server/routes.ts:64-73 | the caller passes requireAdmin exactly when a user row with that id exists and its role is admin |
| Routes.DefaultRatesFresh | server/routes.ts:235-244 | the eight default pairs are pairwise distinct |
| Routes.SeededTable | server/routes.ts:233-248 | seeding an empty table inserts the eight default rows in order |
| Routes.UpsertRates | server/routes.ts:633-635 | upserts each rate in turn |
| Routes.GetExchangeRates | server/routes.ts:229-257 | an empty table is seeded with the defaults; a non-empty one is left alone; every row is returned |
| Routes.UpdateRates | server/routes.ts:625-641 | a missing list is refused with no write; otherwise each rate is upserted in order |
| Routes.UpsertAllKeepsUniquePairs | server/routes.ts:633-635 | any run of upserts keeps each directed pair in at most one row |
| Routes.SeededRatesAreDirectional | server/routes.ts:235-244 | USD→LAK and LAK→USD are separate, non-reciprocal rows; USD→THB exists but THB→USD does not |
| Routes.SeededForwardRows | server/routes.ts:235-244 | the seeded USD→LAK, USD→THB and LAK→USD rows are found at positions 0, 3 and 5 |
| Routes.SeededNoThbToUsd | server/routes.ts:235-244 | no seeded row converts THB to USD |
| Scenarios.TopUpTwiceCreditsTwice | server/routes.ts:439-451 | two top-ups of the same amount credit it twice |
| Scenarios.ConfirmTwice | server/routes.ts:413-469 | confirming one intent twice succeeds twice, credits twice and logs two rows with the same intent id |
| Scenarios.ConfirmThenWebhook | server/routes.ts:413-505 | a confirmed intent that also reaches the webhook is credited twice |
| Scenarios.RegisteredAccount | server/routes.ts:78-131 | a first registration on an empty store gives user 0 its four zero wallets |
| Scenarios.FundedAccount | server/routes.ts:413-469 | confirming 100 USD for that user leaves 100 USD and 0 LAK |
| Scenarios.ExchangeExample | server/routes.ts:260-329 | exchanging 50 USD at the seeded 20850 returns (1042500, 0.25) and leaves 49.75 USD and 1042500 LAK |

## Left out

- Floating point: parseFloat, toString and Math.round are exact arithmetic here. Math.round is floor(x + 1/2). The decimal(20,8) rounding of stored amounts is not modelled.
- The Stripe SDK: `paymentIntents.create` and `retrieve` are not modelled. The retrieved intent and the webhook event are inputs, and the webhook's signature is never checked anyway.
- CreatePaymentIntent: stops at the request it would send to Stripe. The intent it creates, with metadata userId, type and targetCurrency, is not tied to the intent later confirmed.
- JWT signing and verification, bcrypt, and the `authenticateToken` middleware. The caller is a user id. `requireAdmin` is modelled as `IsAdmin`, over the users table.
- The login route (server/routes.ts:132-171): password checks and token issue only.
- HTTP plumbing: status codes, messages, logging, the 500 paths for a thrown exception, and `createServer`.
- Database plumbing: the pg pool, the drizzle client, the session store, `testConnection` and the `updatePassword` helper.
- Foreign keys: a wallet or transaction naming a missing user is not refused.
- Row order of unordered selects. getUserWallets, getWalletByUserAndCurrency, getExchangeRate and getAllExchangeRates (server/storage.ts:189-200, 287-301, 332-334) have no `order by`. PostgreSQL promises no order, and an update can move a row in a later scan. Queries.FindWallet, Queries.FindRate, Storage.DatabaseStorage.GetWalletByUserAndCurrency, Storage.DatabaseStorage.GetUserWallets and Storage.DatabaseStorage.GetAllExchangeRates assume table order. Where two rows match, as after `ExchangeSameCurrencyDuplicatesWallet`, the model fixes the first one, but the program may find either.
- Concurrency: each handler is one sequential method, and nothing runs between its reads and its writes.
- Timestamps other than a transaction's createdAt. This covers `approvedAt`, `updatedAt`, and the createdAt of users, wallets and vendors.
- Storage.DatabaseStorage.GetAllVendors: assumes vendors were created in table order with distinct times, so "newest first" is the table reversed.
- Storage.DatabaseStorage.UpdateUserRole: returns nothing. The source returns `user[0] || undefined` on a row object, which is always undefined, and no caller uses the value.
- Storage.DatabaseStorage.UpdateTransactionStatus: takes a TxStatus value, not free text.
- The read-only routes GET /api/wallets, /api/transactions, /api/vendors/me, /api/admin/vendors and /api/admin/stats. They return the storage reads GetUserWallets, GetTransactionsByUserId, GetVendorByUserId, GetAllVendors and GetAdminStats, which are modelled. The wallets route's second filter on userId is redundant.
- Routes.Register: models only the role check of insertUserSchema.parse. The presence and type checks on the other fields are taken as passed.
- Routes.RegisterVendor: the insert schema's checks on the body are taken as passed.
- Routes.StripeWebhook: an event whose metadata has no userId is modelled as crediting nothing. The source would query with an undefined id.
- Routes.LowerCase: keeps every non-ASCII character except the Kelvin sign, where toLowerCase would lower-case letters such as É. No other character lower-cases into a letter of usd, thb, lak or eur, so acceptance and the currency sent to Stripe are as in the source.
- Routes.RejectVendor: the body's reason is absent or a string. A JSON `null` reason, which would clear the column, is not modelled.
- Routes.QrPayment: `vendorId` is `None` when absent. Real ids are uuids, so a present id is never falsy.
- `formatCurrency` (locale formatting), i18n tables, client/src/lib/qr.ts, the query client, auth context, and every React page and component.
