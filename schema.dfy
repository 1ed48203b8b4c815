/** The records of models/schema.py. Optional fields are `Option`s; amounts are exact reals. */
module Schema {
  import opened Results

  /** One extracted item: `unit_price` and `quantity` default to None; `amount` is required. */
  datatype LineItem = LineItem(
    description: string,
    unitPrice: Option<real>,
    quantity: Option<real>,
    amount: real)

  /** The tax breakdown: a code-to-amount mapping that is always present, and an optional aggregate. */
  datatype Taxes = Taxes(details: map<string, real>, totalTax: Option<real>)

  /**
   * The entry compute_subtotals builds: a label text and an amount. The
   * `sub_totals` field of InvoiceOutput declares string-to-number mappings
   * instead, which cannot hold the text label.
   */
  datatype SubTotal = SubTotal(labelText: string, amount: real)

  /** The result of one invoice request; `final_total` is the only total that is always present. */
  datatype InvoiceOutput = InvoiceOutput(
    billNo: Option<string>,
    billDate: Option<string>,
    patientName: Option<string>,
    lineItems: seq<LineItem>,
    subTotals: seq<map<string, real>>,
    discount: Option<real>,
    taxes: Option<Taxes>,
    grandTotal: Option<real>,
    roundOff: Option<real>,
    finalTotal: real,
    meta: map<string, string>,
    anomalies: seq<string>)
}
