/**
 * The client-side currency table and the exchange preview that the exchange
 * page shows before it submits a request.
 */
module Currency {

  datatype CurrencyInfo = CurrencyInfo(code: string, symbol: string, name: string)

  /** The supported currencies, in the order the table lists them. */
  const CURRENCIES: seq<CurrencyInfo> := [
    CurrencyInfo("USD", "$", "US Dollar"),
    CurrencyInfo("THB", "\U{0E3F}", "Thai Baht"),
    CurrencyInfo("EUR", "\U{20AC}", "Euro"),
    CurrencyInfo("LAK", "\U{20AD}", "Lao Kip")
  ]

  /** The codes of CURRENCIES, in table order. */
  function Codes(table: seq<CurrencyInfo>): (codes: seq<string>)
    ensures |codes| == |table|
    ensures forall i :: 0 <= i < |table| ==> codes[i] == table[i].code
  {
    if table == [] then [] else [table[0].code] + Codes(table[1..])
  }

  lemma {:induction false} CurrencyCodes()
    ensures Codes(CURRENCIES) == ["USD", "THB", "EUR", "LAK"]
    ensures forall c :: c in Codes(CURRENCIES) <==> c == "USD" || c == "THB" || c == "EUR" || c == "LAK"
  {
    var codes := Codes(CURRENCIES);
    assert codes[0] == "USD" && codes[1] == "THB" && codes[2] == "EUR" && codes[3] == "LAK";
    assert codes == ["USD", "THB", "EUR", "LAK"];
  }

  /** The default fee rate of the preview: 0.5%. */
  const DEFAULT_FEE: real := 0.005

  datatype ExchangeQuote = ExchangeQuote(convertedAmount: real, feeAmount: real, total: real)

  /** calculateExchangeAmount: the fee, the converted amount and the total the payer is charged. */
  function CalculateExchangeAmount(amount: real, rate: real, fee: real := DEFAULT_FEE): (q: ExchangeQuote)
    ensures q.total - q.feeAmount == amount
    ensures q.feeAmount == amount * fee && q.convertedAmount == amount * rate
  {
    var feeAmount := amount * fee;
    var convertedAmount := amount * rate;
    var total := amount + feeAmount;
    ExchangeQuote(convertedAmount, feeAmount, total)
  }

  /** The fee is the fee rate's share of the amount, and the conversion is by the rate. */
  lemma QuoteParts(amount: real, rate: real, fee: real)
    ensures CalculateExchangeAmount(amount, rate, fee).feeAmount == amount * fee
    ensures CalculateExchangeAmount(amount, rate, fee).convertedAmount == amount * rate
    ensures CalculateExchangeAmount(amount, rate).feeAmount == amount / 200.0
  {
  }

  /** The payer is never charged less than the amount when amount and fee rate are non-negative. */
  lemma QuoteTotalCoversAmount(amount: real, rate: real, fee: real)
    requires amount >= 0.0 && fee >= 0.0
    ensures CalculateExchangeAmount(amount, rate, fee).total >= amount
    ensures CalculateExchangeAmount(amount, rate, fee).total == amount + CalculateExchangeAmount(amount, rate, fee).feeAmount
  {
    assert amount * fee >= 0.0;
  }

  /** All three outputs scale with the amount. */
  lemma QuoteLinear(k: real, amount: real, rate: real, fee: real)
    ensures var q, kq := CalculateExchangeAmount(amount, rate, fee), CalculateExchangeAmount(k * amount, rate, fee);
      kq.convertedAmount == k * q.convertedAmount &&
      kq.feeAmount == k * q.feeAmount &&
      kq.total == k * q.total
  {
    assert (k * amount) * fee == k * (amount * fee);
    assert (k * amount) * rate == k * (amount * rate);
    assert k * amount + k * (amount * fee) == k * (amount + amount * fee);
  }
}
