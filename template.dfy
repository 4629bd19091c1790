/** The printable statement: a title, the same table as the preview, a TOTAL row
    without currency and a footer with the number of invoices. */
module StatementTemplate {
  import opened Invoices
  import opened Totals
  import opened DateSort
  import opened Statement

  /** `title = "STATEMENT"` in the destructuring: the default replaces a missing
      title only, so a supplied empty title stays empty. */
  function Title(title: Option<string>): (r: string)
    ensures title.None? ==> r == "STATEMENT"
    ensures title.Some? ==> r == title.value
  {
    match title
    case None => "STATEMENT"
    case Some(t) => t
  }

  /** What the template renders, apart from the "Generated on" date. The currency it
      computes is never shown, so it is not part of the document. */
  datatype Document = Document(title: string, rows: seq<Row>, totalAmount: int, footerCount: nat)

  method Render(invoices: array<Invoice>, title: Option<string>) returns (doc: Document)
    ensures doc.title == Title(title)
    ensures doc.rows == Rows(StableSortByDate(invoices[..]))
    ensures multiset(doc.rows) == multiset(Rows(invoices[..]))
    ensures |doc.rows| == doc.footerCount == invoices.Length
    ensures doc.totalAmount == Sum(invoices[..])
  {
    var s := Aggregate(invoices);
    doc := Document(Title(title), s.rows, s.totalAmount, invoices.Length);
  }
}
