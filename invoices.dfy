/** The invoice record as the two statement surfaces read it.
    Only the fields the statement logic touches are kept; every optional
    string is a `string` in which "" stands for an absent or falsy value. */
module Invoices {

  datatype Option<T> = None | Some(value: T)

  type Month = m: int | 1 <= m <= 12 witness 1
  type Day = d: int | 1 <= d <= 31 witness 1

  /** A calendar date as the JavaScript `Date` built from `details.invoiceDate`
      reports it through getFullYear, getMonth + 1 and getDate. */
  datatype Date = Date(year: int, month: Month, day: Day)

  /** One line item; "" stands for a missing or empty field. */
  datatype Item = Item(description: string, serviceType: string, name: string)

  /** `details.totalAmount` is kept as minor units; None stands for a value that
      `Number(...)` turns into NaN (missing, non-numeric). */
  datatype Invoice = Invoice(
    invoiceNumber: string,
    invoiceDate: Date,
    totalAmount: Option<int>,
    currency: string,
    items: seq<Item>,
    receiverName: string)

  /** `Number(invoice.details.totalAmount) || 0`: NaN and 0 are falsy, so both
      become 0; every other number is kept. */
  function Coerce(amount: Option<int>): (r: int)
    ensures amount.None? ==> r == 0
    ensures amount.Some? ==> r == amount.value
  {
    match amount
    case None => 0
    case Some(v) => v
  }
}
