/**
 * Record shapes of the five tables (users, wallets, transactions, vendors,
 * exchange_rates), the shapes their insert schemas accept, and the row each
 * insert produces once the column defaults are filled in.
 *
 * Decimal columns are exact reals; `varchar` ids are naturals; timestamps other
 * than a transaction's `createdAt` are not modelled.
 */
module Schema {
  import opened Wrappers

  type Id = nat

  /** The `user_role` enum. */
  datatype Role = UserRole | VendorRole | AdminRole

  datatype User = User(
    id: Id,
    username: string,
    email: string,
    passportNumber: string,
    phoneNumber: string,
    nationality: string,
    password: string,
    role: Role,
    isVerified: bool,
    stripeCustomerId: Option<string>)

  /** A wallet row. The table declares no uniqueness on (userId, currency). */
  datatype Wallet = Wallet(id: Id, userId: Id, currency: string, balance: real)

  /** The values the handlers write into the free-text `type` and `status` columns. */
  datatype TxType = TopUp | Payment | Exchange | Withdraw
  datatype TxStatus = Pending | Completed | Failed

  datatype Transaction = Transaction(
    id: Id,
    userId: Id,
    fromCurrency: Option<string>,
    toCurrency: Option<string>,
    amount: real,
    convertedAmount: Option<real>,
    exchangeRate: Option<real>,
    fee: real,
    txType: TxType,
    status: TxStatus,
    description: Option<string>,
    vendorId: Option<Id>,
    stripePaymentIntentId: Option<string>,
    createdAt: nat)

  /** A vendor row; `status` is free text ("pending", "approved", "rejected", or whatever was inserted). */
  datatype Vendor = Vendor(
    id: Id,
    userId: Id,
    businessName: string,
    businessAddress: string,
    businessType: string,
    businessLicense: Option<string>,
    taxId: Option<string>,
    status: string,
    isVerified: bool,
    approvedBy: Option<Id>,
    rejectionReason: Option<string>)

  /** An exchange-rate row, keyed only by its id: (fromCurrency, toCurrency) is not declared unique. */
  datatype ExchangeRate = ExchangeRate(id: Id, fromCurrency: string, toCurrency: string, rate: real)

  // ---------------------------------------------------------------------------
  // Insert shapes: the table columns minus the omitted ones; a column with a
  // default is optional.

  /** insertUserSchema: no id, isVerified or stripeCustomerId; role is already parsed by ParseRole. */
  datatype InsertUser = InsertUser(
    username: string,
    email: string,
    passportNumber: string,
    phoneNumber: string,
    nationality: string,
    password: string,
    role: Role)

  datatype InsertWallet = InsertWallet(userId: Id, currency: string, balance: Option<real>)

  datatype InsertTransaction = InsertTransaction(
    userId: Id,
    fromCurrency: Option<string>,
    toCurrency: Option<string>,
    amount: real,
    convertedAmount: Option<real>,
    exchangeRate: Option<real>,
    fee: Option<real>,
    txType: TxType,
    status: Option<TxStatus>,
    description: Option<string>,
    vendorId: Option<Id>,
    stripePaymentIntentId: Option<string>)

  /** insertVendorSchema omits isVerified, so no insert can set it; status, approvedBy and rejectionReason can be supplied. */
  datatype InsertVendor = InsertVendor(
    userId: Id,
    businessName: string,
    businessAddress: string,
    businessType: string,
    businessLicense: Option<string>,
    taxId: Option<string>,
    status: Option<string>,
    approvedBy: Option<Id>,
    rejectionReason: Option<string>)

  datatype InsertExchangeRate = InsertExchangeRate(fromCurrency: string, toCurrency: string, rate: real)

  /**
   * The `role` field of insertUserSchema: `z.enum(["user", "vendor"]).default("user")`.
   * None means the value was refused by the schema.
   */
  function ParseRole(role: Option<string>): (r: Option<Role>)
    ensures r.Some? ==> r.value != AdminRole
    ensures role.None? ==> r == Some(UserRole)
    ensures r.None? <==> role.Some? && role.value != "user" && role.value != "vendor"
    ensures role == Some("vendor") <==> r == Some(VendorRole)
  {
    match role
    case None => Some(UserRole)
    case Some(s) =>
      if s == "user" then Some(UserRole)
      else if s == "vendor" then Some(VendorRole)
      else None
  }

  /** Name of a role as the enum spells it. */
  function RoleName(r: Role): string {
    match r
    case UserRole => "user"
    case VendorRole => "vendor"
    case AdminRole => "admin"
  }

  /** Every role but admin survives being written out and parsed back; admin is always refused. */
  lemma ParseRoleName(r: Role)
    ensures ParseRole(Some(RoleName(r))) == if r == AdminRole then None else Some(r)
  {
  }

  /** The users row an insert produces: isVerified defaults to false, stripeCustomerId to null. */
  function UserRow(id: Id, u: InsertUser): (row: User)
    ensures row.id == id && row.role == u.role
    ensures !row.isVerified && row.stripeCustomerId.None?
    ensures row.username == u.username && row.email == u.email
  {
    User(id, u.username, u.email, u.passportNumber, u.phoneNumber, u.nationality, u.password,
         u.role, false, None)
  }

  /** The wallets row an insert produces: the balance defaults to 0. */
  function WalletRow(id: Id, w: InsertWallet): (row: Wallet)
    ensures row.id == id && row.userId == w.userId && row.currency == w.currency
    ensures w.balance.None? ==> row.balance == 0.0
    ensures w.balance.Some? ==> row.balance == w.balance.value
  {
    Wallet(id, w.userId, w.currency, w.balance.GetOr(0.0))
  }

  /** The transactions row an insert produces: status defaults to pending and fee to 0. */
  function TransactionRow(id: Id, createdAt: nat, t: InsertTransaction): (row: Transaction)
    ensures row.id == id && row.createdAt == createdAt
    ensures row.userId == t.userId && row.amount == t.amount && row.txType == t.txType
    ensures row.status == t.status.GetOr(Pending) && row.fee == t.fee.GetOr(0.0)
    ensures row.vendorId == t.vendorId && row.stripePaymentIntentId == t.stripePaymentIntentId
  {
    Transaction(id, t.userId, t.fromCurrency, t.toCurrency, t.amount, t.convertedAmount,
                t.exchangeRate, t.fee.GetOr(0.0), t.txType, t.status.GetOr(Pending),
                t.description, t.vendorId, t.stripePaymentIntentId, createdAt)
  }

  /** The vendors row an insert produces: status defaults to "pending", and isVerified is always false. */
  function VendorRow(id: Id, v: InsertVendor): (row: Vendor)
    ensures row.id == id && row.userId == v.userId
    ensures !row.isVerified
    ensures v.status.None? ==> row.status == "pending"
    ensures v.status.Some? ==> row.status == v.status.value
  {
    Vendor(id, v.userId, v.businessName, v.businessAddress, v.businessType, v.businessLicense,
           v.taxId, v.status.GetOr("pending"), false, v.approvedBy, v.rejectionReason)
  }

  /** The exchange_rates row an insert produces (updatedAt is not modelled). */
  function RateRow(id: Id, r: InsertExchangeRate): (row: ExchangeRate)
    ensures row.id == id && row.fromCurrency == r.fromCurrency && row.toCurrency == r.toCurrency && row.rate == r.rate
  {
    ExchangeRate(id, r.fromCurrency, r.toCurrency, r.rate)
  }
}
