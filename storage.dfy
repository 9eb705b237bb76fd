/**
 * DatabaseStorage: the tables as sequences of rows in insertion order, the
 * reads as functions over them and the writes as methods that reassign them.
 *
 * Ids come from gen_random_uuid in the database; here a new row's id is its
 * position in its table, which keeps ids unique because no operation of the
 * ledger deletes a row. The database clock behind `createdAt` is the counter
 * `clock`, which every inserted transaction advances.
 */
module Storage {
  import opened Wrappers
  import opened Schema
  import opened Queries

  /** The counts getAdminStats reports. */
  datatype AdminStats = AdminStats(totalUsers: nat, totalVendors: nat, pendingVendors: nat, totalTransactions: nat)

  /** An insert the database refuses: a unique constraint would be broken. */
  datatype DbError = UniqueViolation

  class DatabaseStorage {
    var users: seq<User>
    var wallets: seq<Wallet>
    var transactions: seq<Transaction>
    var vendors: seq<Vendor>
    var rates: seq<ExchangeRate>
    var clock: nat

    /** Ids are positions, usernames and emails are unique, and transactions were stamped in order. */
    ghost predicate Valid()
      reads this
    {
      (forall i :: 0 <= i < |users| ==> users[i].id == i) &&
      (forall i :: 0 <= i < |wallets| ==> wallets[i].id == i) &&
      (forall i :: 0 <= i < |transactions| ==> transactions[i].id == i) &&
      (forall i :: 0 <= i < |transactions| ==> transactions[i].createdAt < clock) &&
      (forall i :: 0 <= i < |vendors| ==> vendors[i].id == i) &&
      (forall i :: 0 <= i < |rates| ==> rates[i].id == i) &&
      UniqueLogins(users) &&
      Chronological(transactions)
    }

    constructor ()
      ensures Valid()
      ensures users == [] && wallets == [] && transactions == [] && vendors == [] && rates == []
    {
      users, wallets, transactions, vendors, rates := [], [], [], [], [];
      clock := 0;
    }

    // -------------------------------------------------------------------------
    // Users

    /** getUser: the user row with this id, if any. */
    function GetUser(id: Id): (u: Option<User>)
      reads this
      requires Valid()
      ensures u.Some? ==> u.value in users && u.value.id == id
      ensures u.None? <==> forall i :: 0 <= i < |users| ==> users[i].id != id
    {
      if id < |users| then Some(users[id]) else None
    }

    /** getUserByEmail: the user with this email, if any. */
    function GetUserByEmail(email: string): (u: Option<User>)
      reads this
      ensures u.Some? ==> u.value in users && u.value.email == email
      ensures u.None? <==> forall i :: 0 <= i < |users| ==> users[i].email != email
    {
      match FindUserByEmail(users, email)
      case Some(i) => Some(users[i])
      case None => None
    }

    /** createUser: the insert fails when the username or the email is already taken. */
    method CreateUser(nu: InsertUser) returns (r: Result<User, DbError>)
      requires Valid()
      modifies this`users
      ensures Valid()
      ensures r.Err? <==> FindUserByUsername(old(users), nu.username).Some? || FindUserByEmail(old(users), nu.email).Some?
      ensures r.Err? ==> users == old(users)
      ensures r.Ok? ==> r.value == UserRow(|old(users)|, nu) && users == old(users) + [r.value]
    {
      if FindUserByUsername(users, nu.username).Some? || FindUserByEmail(users, nu.email).Some? {
        r := Err(UniqueViolation);
      } else {
        var u := UserRow(|users|, nu);
        users := users + [u];
        r := Ok(u);
      }
    }

    /** updateUserStripeCustomerId: the row with this id, if any, records the Stripe customer. */
    method UpdateUserStripeCustomerId(userId: Id, customerId: string) returns (u: Option<User>)
      requires Valid()
      modifies this`users
      ensures Valid()
      ensures users == if userId < |old(users)| then old(users)[userId := old(users)[userId].(stripeCustomerId := Some(customerId))] else old(users)
      ensures u == GetUser(userId)
    {
      if userId < |users| {
        users := users[userId := users[userId].(stripeCustomerId := Some(customerId))];
      }
      u := GetUser(userId);
    }

    /** updateUserRole: the row with this id, if any, gets the role. */
    method UpdateUserRole(userId: Id, role: Role)
      requires Valid()
      modifies this`users
      ensures Valid()
      ensures users == if userId < |old(users)| then old(users)[userId := old(users)[userId].(role := role)] else old(users)
    {
      if userId < |users| {
        users := users[userId := users[userId].(role := role)];
      }
    }

    // -------------------------------------------------------------------------
    // Wallets

    /** getUserWallets: every wallet of this user, duplicates in a currency included. */
    function GetUserWallets(userId: Id): (r: seq<Wallet>)
      reads this
      ensures forall w :: w in r <==> w in wallets && w.userId == userId
      ensures forall w :: multiset(r)[w] == if w.userId == userId then multiset(wallets)[w] else 0
    {
      WalletsOf(wallets, userId)
    }

    /** getWalletByUserAndCurrency: a wallet of this user in this currency, or none when there is none. */
    function GetWalletByUserAndCurrency(userId: Id, currency: string): (w: Option<Wallet>)
      reads this
      ensures w.Some? ==> w.value in wallets && w.value.userId == userId && w.value.currency == currency
      ensures w.None? <==> forall i :: 0 <= i < |wallets| ==> !OwnedIn(wallets[i], userId, currency)
      ensures w.Some? ==> w.value == wallets[FindWallet(wallets, userId, currency).value]
    {
      match FindWallet(wallets, userId, currency)
      case Some(i) => Some(wallets[i])
      case None => None
    }

    /** createWallet: always appends, whether or not the user already has a wallet in that currency. */
    method CreateWallet(nw: InsertWallet) returns (w: Wallet)
      requires Valid()
      modifies this`wallets
      ensures Valid()
      ensures w == WalletRow(|old(wallets)|, nw)
      ensures wallets == old(wallets) + [w]
    {
      w := WalletRow(|wallets|, nw);
      wallets := wallets + [w];
    }

    /** updateWalletBalance: overwrites the balance of the wallet with this id; no other wallet changes. */
    method UpdateWalletBalance(walletId: Id, balance: real) returns (w: Option<Wallet>)
      requires Valid()
      modifies this`wallets
      ensures Valid()
      ensures walletId < |old(wallets)| ==>
        wallets == old(wallets)[walletId := old(wallets)[walletId].(balance := balance)] && w == Some(wallets[walletId])
      ensures walletId >= |old(wallets)| ==> wallets == old(wallets) && w.None?
    {
      if walletId < |wallets| {
        wallets := wallets[walletId := wallets[walletId].(balance := balance)];
        w := Some(wallets[walletId]);
      } else {
        w := None;
      }
    }

    // -------------------------------------------------------------------------
    // Transactions

    /** createTransaction: appends one row, stamped with the current time. */
    method CreateTransaction(nt: InsertTransaction) returns (t: Transaction)
      requires Valid()
      modifies this`transactions, this`clock
      ensures Valid()
      ensures t == TransactionRow(|old(transactions)|, old(clock), nt)
      ensures transactions == old(transactions) + [t]
      ensures clock > old(clock)
    {
      t := TransactionRow(|transactions|, clock, nt);
      transactions := transactions + [t];
      clock := clock + 1;
    }

    /** getTransaction: the transaction with this id, if any. */
    function GetTransaction(id: Id): (t: Option<Transaction>)
      reads this
      requires Valid()
      ensures t.Some? ==> t.value in transactions && t.value.id == id
      ensures t.None? <==> forall i :: 0 <= i < |transactions| ==> transactions[i].id != id
    {
      if id < |transactions| then Some(transactions[id]) else None
    }

    /** updateTransactionStatus: the row with this id, if any, gets the status; nothing else changes. */
    method UpdateTransactionStatus(id: Id, status: TxStatus) returns (t: Option<Transaction>)
      requires Valid()
      modifies this`transactions
      ensures Valid()
      ensures transactions == if id < |old(transactions)| then old(transactions)[id := old(transactions)[id].(status := status)] else old(transactions)
      ensures t == GetTransaction(id)
    {
      if id < |transactions| {
        transactions := transactions[id := transactions[id].(status := status)];
      }
      t := GetTransaction(id);
    }

    /** getTransactionsByUserId: exactly this user's transactions, newest first. */
    function GetTransactionsByUserId(userId: Id): (r: seq<Transaction>)
      reads this
      requires Valid()
      ensures forall t :: t in r <==> t in transactions && t.userId == userId
      ensures NewestFirstOrder(r)
    {
      NewestFirstIsOrdered(transactions, ByUser(userId));
      NewestFirst(transactions, ByUser(userId))
    }

    /** getTransactionsByVendorId: exactly the transactions naming this vendor, newest first. */
    function GetTransactionsByVendorId(vendorId: Id): (r: seq<Transaction>)
      reads this
      requires Valid()
      ensures forall t :: t in r <==> t in transactions && t.vendorId == Some(vendorId)
      ensures NewestFirstOrder(r)
    {
      NewestFirstIsOrdered(transactions, ByVendor(vendorId));
      NewestFirst(transactions, ByVendor(vendorId))
    }

    /** getUserTransactions: the newest `limit` (by default 10) of this user's transactions. */
    function GetUserTransactions(userId: Id, limit: nat := 10): (r: seq<Transaction>)
      reads this
      requires Valid()
      ensures |r| <= limit && |r| <= |GetTransactionsByUserId(userId)|
      ensures r == GetTransactionsByUserId(userId)[..|r|]
      ensures |r| < limit ==> r == GetTransactionsByUserId(userId)
    {
      Limit(GetTransactionsByUserId(userId), limit)
    }

    // -------------------------------------------------------------------------
    // Vendors

    /** getVendor: the vendor with this id, if any. */
    function GetVendor(vendorId: Id): (v: Option<Vendor>)
      reads this
      requires Valid()
      ensures v.Some? ==> v.value in vendors && v.value.id == vendorId
      ensures v.None? <==> forall i :: 0 <= i < |vendors| ==> vendors[i].id != vendorId
    {
      if vendorId < |vendors| then Some(vendors[vendorId]) else None
    }

    /** getVendorByUserId: a vendor owned by this user, if any. */
    function GetVendorByUserId(userId: Id): (v: Option<Vendor>)
      reads this
      ensures v.Some? ==> v.value in vendors && v.value.userId == userId
      ensures v.None? <==> forall i :: 0 <= i < |vendors| ==> vendors[i].userId != userId
    {
      match FindVendorByUser(vendors, userId)
      case Some(i) => Some(vendors[i])
      case None => None
    }

    /**
     * getAllVendors: every vendor row, newest first. Vendors are appended in
     * creation order, so that is the table reversed.
     */
    function GetAllVendors(): (r: seq<Vendor>)
      reads this
      ensures |r| == |vendors| && forall i :: 0 <= i < |r| ==> r[i] == vendors[|vendors| - 1 - i]
    {
      seq(|vendors|, i requires 0 <= i < |vendors| reads this => vendors[|vendors| - 1 - i])
    }

    /** createVendor: appends the row the insert describes; it is never verified. */
    method CreateVendor(nv: InsertVendor) returns (v: Vendor)
      requires Valid()
      modifies this`vendors
      ensures Valid()
      ensures v == VendorRow(|old(vendors)|, nv)
      ensures vendors == old(vendors) + [v]
    {
      v := VendorRow(|vendors|, nv);
      vendors := vendors + [v];
    }

    /** approveVendor: status approved, verified, approved by the admin. */
    method ApproveVendor(vendorId: Id, adminId: Id) returns (v: Option<Vendor>)
      requires Valid()
      modifies this`vendors
      ensures Valid()
      ensures vendors == if vendorId < |old(vendors)| then
          old(vendors)[vendorId := old(vendors)[vendorId].(status := "approved", isVerified := true, approvedBy := Some(adminId))]
        else old(vendors)
      ensures v == if vendorId < |vendors| then Some(vendors[vendorId]) else None
    {
      if vendorId < |vendors| {
        vendors := vendors[vendorId := vendors[vendorId].(status := "approved", isVerified := true, approvedBy := Some(adminId))];
        v := Some(vendors[vendorId]);
      } else {
        v := None;
      }
    }

    /**
     * rejectVendor: status rejected with the reason, approvedBy the admin;
     * isVerified is left as it was. An absent reason (`undefined`) is a key the
     * update's `set` skips, so the old rejectionReason stays.
     */
    method RejectVendor(vendorId: Id, reason: Option<string>, adminId: Id) returns (v: Option<Vendor>)
      requires Valid()
      modifies this`vendors
      ensures Valid()
      ensures vendors == if vendorId < |old(vendors)| then
          old(vendors)[vendorId := old(vendors)[vendorId].(status := "rejected",
            rejectionReason := if reason.Some? then reason else old(vendors)[vendorId].rejectionReason,
            approvedBy := Some(adminId))]
        else old(vendors)
      ensures v == if vendorId < |vendors| then Some(vendors[vendorId]) else None
    {
      if vendorId < |vendors| {
        var rejectionReason := if reason.Some? then reason else vendors[vendorId].rejectionReason;
        vendors := vendors[vendorId := vendors[vendorId].(status := "rejected", rejectionReason := rejectionReason, approvedBy := Some(adminId))];
        v := Some(vendors[vendorId]);
      } else {
        v := None;
      }
    }

    // -------------------------------------------------------------------------
    // Exchange rates

    /** getExchangeRate: a row for exactly the directed pair (from, to), or none. */
    function GetExchangeRate(from: string, to: string): (x: Option<ExchangeRate>)
      reads this
      ensures x.Some? ==> x.value in rates && x.value.fromCurrency == from && x.value.toCurrency == to
      ensures x.None? <==> forall i :: 0 <= i < |rates| ==> !RateFor(rates[i], from, to)
      ensures x.Some? ==> x.value == rates[FindRate(rates, from, to).value]
    {
      match FindRate(rates, from, to)
      case Some(i) => Some(rates[i])
      case None => None
    }

    /** updateExchangeRate: update the pair's rows if one exists, insert one otherwise. */
    method UpdateExchangeRate(nr: InsertExchangeRate) returns (x: ExchangeRate)
      requires Valid()
      modifies this`rates
      ensures Valid()
      ensures rates == Upserted(old(rates), nr)
      ensures GetExchangeRate(nr.fromCurrency, nr.toCurrency) == Some(x) && x.rate == nr.rate
    {
      UpsertedLookup(rates, nr);
      UpsertedIds(rates, nr);
      var existing := GetExchangeRate(nr.fromCurrency, nr.toCurrency);
      if existing.Some? {
        rates := SetRate(rates, nr.fromCurrency, nr.toCurrency, nr.rate);
      } else {
        rates := rates + [RateRow(|rates|, nr)];
      }
      assert rates == Upserted(old(rates), nr);
      x := rates[FindRate(rates, nr.fromCurrency, nr.toCurrency).value];
    }

    /** getAllExchangeRates: every row. */
    function GetAllExchangeRates(): (r: seq<ExchangeRate>)
      reads this
      ensures r == rates
    {
      rates
    }

    // -------------------------------------------------------------------------
    // Admin

    /** getAdminStats: table sizes and the number of vendors whose status is "pending". */
    function GetAdminStats(): (s: AdminStats)
      reads this
      ensures s.totalUsers == |users| && s.totalVendors == |vendors| && s.totalTransactions == |transactions|
      ensures s.pendingVendors == |set i | 0 <= i < |vendors| && vendors[i].status == "pending"|
      ensures s.pendingVendors <= s.totalVendors
      ensures s.pendingVendors == 0 <==> forall i :: 0 <= i < |vendors| ==> vendors[i].status != "pending"
    {
      AdminStats(|users|, |vendors|, CountPending(vendors), |transactions|)
    }
  }
}
