/**
 * What the storage layer's SQL statements compute over a table, as pure
 * functions on the table's rows: the row a `select ... where` returns, the
 * rows an `update ... where` rewrites, and the rows a filtered `select ...
 * order by createdAt desc` returns.
 *
 * A select without `order by` has no row order the database promises. These
 * functions read the table in insertion order and so take the first matching
 * row; when two rows match, the program may return either.
 */
module Queries {
  import opened Wrappers
  import opened Schema

  // ---------------------------------------------------------------------------
  // First matching row

  /**
   * The position of the first row satisfying `p`, in table order: the row the
   * model takes for a `select ... where` whose caller keeps one row
   * (`const [row] = ...`).
   */
  function FirstWhere<T>(s: seq<T>, p: T -> bool): (r: Option<nat>)
    ensures r.Some? ==> r.value < |s| && p(s[r.value])
    ensures r.Some? ==> forall j :: 0 <= j < r.value ==> !p(s[j])
    ensures r.None? <==> forall j :: 0 <= j < |s| ==> !p(s[j])
  {
    if |s| == 0 then None
    else match FirstWhere(s[..|s| - 1], p)
      case Some(i) => Some(i)
      case None => if p(s[|s| - 1]) then Some(|s| - 1) else None
  }

  /** Two tables on which two conditions agree row by row give the same first match. */
  lemma FirstWhereAgrees<T, U>(s: seq<T>, p: T -> bool, t: seq<U>, q: U -> bool)
    requires |s| == |t|
    requires forall i :: 0 <= i < |s| ==> p(s[i]) == q(t[i])
    ensures FirstWhere(s, p) == FirstWhere(t, q)
  {
    var a, b := FirstWhere(s, p), FirstWhere(t, q);
    if a.Some? {
      assert q(t[a.value]);
      assert p(s[b.value]);
    } else {
      assert forall j :: 0 <= j < |t| ==> !q(t[j]);
    }
  }

  /** Appending a row changes the first match only when there was none before. */
  lemma FirstWhereAppend<T>(s: seq<T>, x: T, p: T -> bool)
    ensures FirstWhere(s + [x], p) ==
      if FirstWhere(s, p).Some? then FirstWhere(s, p)
      else if p(x) then Some(|s|) else None
  {
    assert (s + [x])[..|s + [x]| - 1] == s;
  }

  // ---------------------------------------------------------------------------
  // Wallets

  predicate OwnedIn(w: Wallet, userId: Id, currency: string) {
    w.userId == userId && w.currency == currency
  }

  /** Position of the wallet getWalletByUserAndCurrency returns. */
  function FindWallet(ws: seq<Wallet>, userId: Id, currency: string): (r: Option<nat>)
    ensures r.Some? ==> r.value < |ws| && OwnedIn(ws[r.value], userId, currency)
    ensures r.Some? ==> forall j :: 0 <= j < r.value ==> !OwnedIn(ws[j], userId, currency)
    ensures r.None? <==> forall j :: 0 <= j < |ws| ==> !OwnedIn(ws[j], userId, currency)
  {
    FirstWhere(ws, (w: Wallet) => OwnedIn(w, userId, currency))
  }

  /** The same (userId, currency) key in every position. */
  predicate SameWalletKeys(ws: seq<Wallet>, ws': seq<Wallet>) {
    |ws| == |ws'| &&
    forall i :: 0 <= i < |ws| ==> ws[i].userId == ws'[i].userId && ws[i].currency == ws'[i].currency
  }

  /** Changing balances never changes which wallet a lookup finds. */
  lemma FindWalletSameKeys(ws: seq<Wallet>, ws': seq<Wallet>, userId: Id, currency: string)
    requires SameWalletKeys(ws, ws')
    ensures FindWallet(ws, userId, currency) == FindWallet(ws', userId, currency)
  {
    FirstWhereAgrees(ws, (w: Wallet) => OwnedIn(w, userId, currency),
                     ws', (w: Wallet) => OwnedIn(w, userId, currency));
  }

  lemma FindWalletAppend(ws: seq<Wallet>, w: Wallet, userId: Id, currency: string)
    ensures FindWallet(ws + [w], userId, currency) ==
      if FindWallet(ws, userId, currency).Some? then FindWallet(ws, userId, currency)
      else if OwnedIn(w, userId, currency) then Some(|ws|) else None
  {
    FirstWhereAppend(ws, w, (w: Wallet) => OwnedIn(w, userId, currency));
  }

  /**
   * The balance a handler reads for (userId, currency): that of the wallet the
   * lookup finds, or 0 for the wallet it is about to create (`wallet.balance || "0"`).
   */
  function BalanceOf(ws: seq<Wallet>, userId: Id, currency: string): real {
    match FindWallet(ws, userId, currency)
    case Some(i) => ws[i].balance
    case None => 0.0
  }

  /** The wallets of one user, in table order, each as often as the table holds it. */
  function WalletsOf(ws: seq<Wallet>, userId: Id): (r: seq<Wallet>)
    ensures |r| <= |ws|
    ensures forall w :: w in r <==> w in ws && w.userId == userId
    ensures forall w :: multiset(r)[w] == if w.userId == userId then multiset(ws)[w] else 0
  {
    if |ws| == 0 then []
    else
      var p, last := ws[..|ws| - 1], ws[|ws| - 1];
      var rest := WalletsOf(p, userId);
      assert ws == p + [last];
      assert multiset(ws) == multiset(p) + multiset{last};
      if last.userId == userId then
        assert multiset(rest + [last]) == multiset(rest) + multiset{last};
        rest + [last]
      else rest
  }

  // ---------------------------------------------------------------------------
  // Users and vendors

  function FindUserByEmail(us: seq<User>, email: string): (r: Option<nat>)
    ensures r.Some? ==> r.value < |us| && us[r.value].email == email
    ensures r.None? <==> forall j :: 0 <= j < |us| ==> us[j].email != email
  {
    FirstWhere(us, (u: User) => u.email == email)
  }

  function FindUserByUsername(us: seq<User>, username: string): (r: Option<nat>)
    ensures r.Some? ==> r.value < |us| && us[r.value].username == username
    ensures r.None? <==> forall j :: 0 <= j < |us| ==> us[j].username != username
  {
    FirstWhere(us, (u: User) => u.username == username)
  }

  /** The unique constraints on users.username and users.email. */
  predicate UniqueLogins(us: seq<User>) {
    forall i, j :: 0 <= i < j < |us| ==> us[i].username != us[j].username && us[i].email != us[j].email
  }

  function FindVendorByUser(vs: seq<Vendor>, userId: Id): (r: Option<nat>)
    ensures r.Some? ==> r.value < |vs| && vs[r.value].userId == userId
    ensures r.None? <==> forall j :: 0 <= j < |vs| ==> vs[j].userId != userId
  {
    FirstWhere(vs, (v: Vendor) => v.userId == userId)
  }

  /** The positions of the vendors whose status is "pending". */
  function PendingPositions(vs: seq<Vendor>): set<nat> {
    set i | 0 <= i < |vs| && vs[i].status == "pending"
  }

  /** The number of vendors whose status is "pending". */
  function CountPending(vs: seq<Vendor>): (n: nat)
    ensures n == |PendingPositions(vs)|
    ensures n <= |vs|
    ensures n == 0 <==> forall i :: 0 <= i < |vs| ==> vs[i].status != "pending"
  {
    if |vs| == 0 then
      assert PendingPositions(vs) == {};
      0
    else
      var p := vs[..|vs| - 1];
      assert forall i :: 0 <= i < |p| ==> p[i] == vs[i];
      var last := if vs[|vs| - 1].status == "pending" then {|p|} else {};
      assert PendingPositions(vs) == PendingPositions(p) + last;
      assert |p| !in PendingPositions(p);
      CountPending(p) + (if vs[|vs| - 1].status == "pending" then 1 else 0)
  }

  // ---------------------------------------------------------------------------
  // Exchange rates

  predicate RateFor(x: ExchangeRate, from: string, to: string) {
    x.fromCurrency == from && x.toCurrency == to
  }

  /** Position of the row getExchangeRate returns: a point lookup on the directed pair. */
  function FindRate(rs: seq<ExchangeRate>, from: string, to: string): (r: Option<nat>)
    ensures r.Some? ==> r.value < |rs| && RateFor(rs[r.value], from, to)
    ensures r.Some? ==> forall j :: 0 <= j < r.value ==> !RateFor(rs[j], from, to)
    ensures r.None? <==> forall j :: 0 <= j < |rs| ==> !RateFor(rs[j], from, to)
  {
    FirstWhere(rs, (x: ExchangeRate) => RateFor(x, from, to))
  }

  /** `update exchangeRates set rate where from and to`: every row of the pair gets the rate. */
  function SetRate(rs: seq<ExchangeRate>, from: string, to: string, rate: real): (r: seq<ExchangeRate>)
    ensures |r| == |rs|
    ensures forall i :: 0 <= i < |rs| ==>
      r[i].id == rs[i].id && RateFor(r[i], rs[i].fromCurrency, rs[i].toCurrency) &&
      r[i].rate == (if RateFor(rs[i], from, to) then rate else rs[i].rate)
  {
    seq(|rs|, i requires 0 <= i < |rs| => if RateFor(rs[i], from, to) then rs[i].(rate := rate) else rs[i])
  }

  /** updateExchangeRate: update the pair's rows when a row exists, insert one otherwise. */
  function Upserted(rs: seq<ExchangeRate>, nr: InsertExchangeRate): (r: seq<ExchangeRate>)
    ensures |r| == |rs| + (if FindRate(rs, nr.fromCurrency, nr.toCurrency).Some? then 0 else 1)
    ensures forall i :: 0 <= i < |rs| ==> r[i].id == rs[i].id && RateFor(r[i], rs[i].fromCurrency, rs[i].toCurrency)
  {
    if FindRate(rs, nr.fromCurrency, nr.toCurrency).Some? then
      SetRate(rs, nr.fromCurrency, nr.toCurrency, nr.rate)
    else
      rs + [RateRow(|rs|, nr)]
  }

  /** Successive updateExchangeRate calls, in order. */
  function UpsertAll(rs: seq<ExchangeRate>, news: seq<InsertExchangeRate>): (r: seq<ExchangeRate>)
    ensures |rs| <= |r| <= |rs| + |news|
    ensures forall i :: 0 <= i < |rs| ==> r[i].id == rs[i].id && RateFor(r[i], rs[i].fromCurrency, rs[i].toCurrency)
  {
    if |news| == 0 then rs else Upserted(UpsertAll(rs, news[..|news| - 1]), news[|news| - 1])
  }

  /** No directed pair occurs in two rows. */
  predicate UniquePairs(rs: seq<ExchangeRate>) {
    forall i, j :: 0 <= i < j < |rs| ==> !RateFor(rs[j], rs[i].fromCurrency, rs[i].toCurrency)
  }

  lemma SetRateKeys(rs: seq<ExchangeRate>, from: string, to: string, rate: real, a: string, b: string)
    ensures FindRate(SetRate(rs, from, to, rate), a, b) == FindRate(rs, a, b)
  {
    var rs' := SetRate(rs, from, to, rate);
    FirstWhereAgrees(rs', (x: ExchangeRate) => RateFor(x, a, b), rs, (x: ExchangeRate) => RateFor(x, a, b));
  }

  /**
   * The upsert's shape: an existing pair keeps its rows and ids and only their
   * rate changes; an absent pair gains exactly one row, at the end.
   */
  lemma UpsertedShape(rs: seq<ExchangeRate>, nr: InsertExchangeRate)
    ensures var r := Upserted(rs, nr);
      if FindRate(rs, nr.fromCurrency, nr.toCurrency).Some? then
        |r| == |rs| &&
        forall i :: 0 <= i < |rs| ==>
          r[i] == if RateFor(rs[i], nr.fromCurrency, nr.toCurrency) then rs[i].(rate := nr.rate) else rs[i]
      else
        r == rs + [ExchangeRate(|rs|, nr.fromCurrency, nr.toCurrency, nr.rate)]
  {
  }

  /** The upsert keeps every row's id, and a new row's id is its position. */
  lemma UpsertedIds(rs: seq<ExchangeRate>, nr: InsertExchangeRate)
    requires forall i :: 0 <= i < |rs| ==> rs[i].id == i
    ensures forall i :: 0 <= i < |Upserted(rs, nr)| ==> Upserted(rs, nr)[i].id == i
  {
  }

  /** After the upsert, getExchangeRate on the pair finds the new rate. */
  lemma UpsertedLookup(rs: seq<ExchangeRate>, nr: InsertExchangeRate)
    ensures var k := FindRate(Upserted(rs, nr), nr.fromCurrency, nr.toCurrency);
      k.Some? && Upserted(rs, nr)[k.value].rate == nr.rate &&
      k == if FindRate(rs, nr.fromCurrency, nr.toCurrency).Some? then FindRate(rs, nr.fromCurrency, nr.toCurrency) else Some(|rs|)
  {
    var from, to := nr.fromCurrency, nr.toCurrency;
    if FindRate(rs, from, to).Some? {
      SetRateKeys(rs, from, to, nr.rate, from, to);
    } else {
      FirstWhereAppend(rs, RateRow(|rs|, nr), (x: ExchangeRate) => RateFor(x, from, to));
    }
  }

  /** The upsert leaves every other directed pair, its inverse included, where it was and at its old rate. */
  lemma UpsertedOtherPair(rs: seq<ExchangeRate>, nr: InsertExchangeRate, a: string, b: string)
    requires a != nr.fromCurrency || b != nr.toCurrency
    ensures FindRate(Upserted(rs, nr), a, b) == FindRate(rs, a, b)
    ensures FindRate(rs, a, b).Some? ==> Upserted(rs, nr)[FindRate(rs, a, b).value] == rs[FindRate(rs, a, b).value]
  {
    var from, to := nr.fromCurrency, nr.toCurrency;
    if FindRate(rs, from, to).Some? {
      SetRateKeys(rs, from, to, nr.rate, a, b);
    } else {
      FirstWhereAppend(rs, RateRow(|rs|, nr), (x: ExchangeRate) => RateFor(x, a, b));
    }
  }

  /** Repeating the same upsert changes nothing. */
  lemma UpsertedIdempotent(rs: seq<ExchangeRate>, nr: InsertExchangeRate)
    ensures Upserted(Upserted(rs, nr), nr) == Upserted(rs, nr)
  {
    var from, to := nr.fromCurrency, nr.toCurrency;
    var once := Upserted(rs, nr);
    UpsertedLookup(rs, nr);
    assert Upserted(once, nr) == SetRate(once, from, to, nr.rate);
    SetRateAgain(once, from, to, nr.rate);
  }

  /** Setting a rate on rows of the pair that already carry it changes nothing. */
  lemma SetRateAgain(rs: seq<ExchangeRate>, from: string, to: string, rate: real)
    requires forall i :: 0 <= i < |rs| && RateFor(rs[i], from, to) ==> rs[i].rate == rate
    ensures SetRate(rs, from, to, rate) == rs
  {
    var twice := SetRate(rs, from, to, rate);
    forall i | 0 <= i < |rs| ensures twice[i] == rs[i] {
      if RateFor(rs[i], from, to) {
        assert rs[i].(rate := rate) == rs[i];
      }
    }
  }

  /** The upsert never makes a directed pair occur twice. */
  lemma UpsertedKeepsUniquePairs(rs: seq<ExchangeRate>, nr: InsertExchangeRate)
    requires UniquePairs(rs)
    ensures UniquePairs(Upserted(rs, nr))
  {
    var r := Upserted(rs, nr);
    if FindRate(rs, nr.fromCurrency, nr.toCurrency).Some? {
      forall i, j | 0 <= i < j < |r| ensures !RateFor(r[j], r[i].fromCurrency, r[i].toCurrency) {
        assert RateFor(r[i], rs[i].fromCurrency, rs[i].toCurrency);
        assert RateFor(r[j], rs[j].fromCurrency, rs[j].toCurrency);
      }
    }
  }

  /** The rows a sequence of fresh inserts adds, numbered from `start`. */
  function RateRows(start: nat, news: seq<InsertExchangeRate>): (rows: seq<ExchangeRate>)
    ensures |rows| == |news|
    ensures forall k :: 0 <= k < |news| ==> rows[k] == RateRow(start + k, news[k])
  {
    seq(|news|, k requires 0 <= k < |news| => RateRow(start + k, news[k]))
  }

  /** The pairs of `news` are pairwise distinct and none occurs in `rs`. */
  predicate FreshPairs(rs: seq<ExchangeRate>, news: seq<InsertExchangeRate>) {
    (forall k :: 0 <= k < |news| ==> FindRate(rs, news[k].fromCurrency, news[k].toCurrency).None?) &&
    (forall k, l :: 0 <= k < l < |news| ==>
       news[k].fromCurrency != news[l].fromCurrency || news[k].toCurrency != news[l].toCurrency)
  }

  /** The last of a run of fresh pairs occurs neither in the table nor in the rows added before it. */
  lemma LastPairFresh(rs: seq<ExchangeRate>, news: seq<InsertExchangeRate>)
    requires FreshPairs(rs, news) && |news| > 0
    ensures var nr := news[|news| - 1];
      FindRate(rs + RateRows(|rs|, news[..|news| - 1]), nr.fromCurrency, nr.toCurrency).None?
  {
    var n := |news| - 1;
    var nr := news[n];
    var prev := rs + RateRows(|rs|, news[..n]);
    forall j | 0 <= j < |prev| ensures !RateFor(prev[j], nr.fromCurrency, nr.toCurrency) {
      if j >= |rs| {
        assert prev[j] == RateRow(j, news[j - |rs|]);
      } else {
        assert prev[j] == rs[j];
      }
    }
  }

  lemma FreshPairsPrefix(rs: seq<ExchangeRate>, news: seq<InsertExchangeRate>, n: nat)
    requires FreshPairs(rs, news) && n <= |news|
    ensures FreshPairs(rs, news[..n])
  {
  }

  lemma RateRowsSnoc(start: nat, news: seq<InsertExchangeRate>)
    requires |news| > 0
    ensures RateRows(start, news) == RateRows(start, news[..|news| - 1]) + [RateRow(start + |news| - 1, news[|news| - 1])]
  {
  }

  /** Upserting pairs that are all new only appends, one row per pair, in order. */
  lemma {:induction false} UpsertAllFresh(rs: seq<ExchangeRate>, news: seq<InsertExchangeRate>)
    requires FreshPairs(rs, news)
    ensures UpsertAll(rs, news) == rs + RateRows(|rs|, news)
  {
    if |news| > 0 {
      var n := |news| - 1;
      FreshPairsPrefix(rs, news, n);
      UpsertAllFresh(rs, news[..n]);
      LastPairFresh(rs, news);
      RateRowsSnoc(|rs|, news);
      var prev := rs + RateRows(|rs|, news[..n]);
      assert UpsertAll(rs, news) == Upserted(prev, news[n]);
      assert Upserted(prev, news[n]) == prev + [RateRow(|prev|, news[n])];
    }
  }

  // ---------------------------------------------------------------------------
  // Transactions

  /** Which column a transaction history filters on. */
  datatype TxFilter = ByUser(userId: Id) | ByVendor(vendorId: Id)

  predicate Selects(f: TxFilter, t: Transaction) {
    match f
    case ByUser(u) => t.userId == u
    case ByVendor(v) => t.vendorId == Some(v)
  }

  /** Rows were inserted at strictly increasing times. */
  predicate Chronological(txs: seq<Transaction>) {
    forall i, j :: 0 <= i < j < |txs| ==> txs[i].createdAt < txs[j].createdAt
  }

  /** Strictly newest first: `order by createdAt desc`. */
  predicate NewestFirstOrder(txs: seq<Transaction>) {
    forall i, j :: 0 <= i < j < |txs| ==> txs[i].createdAt > txs[j].createdAt
  }

  /** `select ... where <filter> order by createdAt desc`, for a table inserted in time order. */
  function NewestFirst(txs: seq<Transaction>, f: TxFilter): (r: seq<Transaction>)
    ensures |r| <= |txs|
    ensures forall t :: t in r <==> t in txs && Selects(f, t)
  {
    if |txs| == 0 then []
    else
      var last := txs[|txs| - 1];
      assert txs == txs[..|txs| - 1] + [last];
      var rest := NewestFirst(txs[..|txs| - 1], f);
      if Selects(f, last) then [last] + rest else rest
  }

  /** A new row heads the history it belongs to, and leaves every other history as it was. */
  lemma NewestFirstAppend(txs: seq<Transaction>, t: Transaction, f: TxFilter)
    ensures NewestFirst(txs + [t], f) == if Selects(f, t) then [t] + NewestFirst(txs, f) else NewestFirst(txs, f)
  {
    assert (txs + [t])[..|txs + [t]| - 1] == txs;
  }

  /** On a table inserted in time order the history is strictly newest first. */
  lemma {:induction false} NewestFirstIsOrdered(txs: seq<Transaction>, f: TxFilter)
    requires Chronological(txs)
    ensures NewestFirstOrder(NewestFirst(txs, f))
  {
    if |txs| > 0 {
      var n := |txs| - 1;
      var init := txs[..n];
      assert Chronological(init);
      NewestFirstIsOrdered(init, f);
      var rest := NewestFirst(init, f);
      if Selects(f, txs[n]) {
        var r := [txs[n]] + rest;
        forall i, j | 0 <= i < j < |r| ensures r[i].createdAt > r[j].createdAt {
          if i == 0 {
            assert r[j] in init;
            var k :| 0 <= k < n && init[k] == r[j];
            assert txs[k] == r[j];
          } else {
            assert r[i] == rest[i - 1] && r[j] == rest[j - 1];
          }
        }
      }
    }
  }

  /** `.limit(n)`: at most the first n rows. */
  function Limit(txs: seq<Transaction>, n: nat): (r: seq<Transaction>)
    ensures |r| <= n && |r| <= |txs|
    ensures r == txs[..|r|]
    ensures |txs| >= n ==> |r| == n
  {
    if n <= |txs| then txs[..n] else txs
  }
}
