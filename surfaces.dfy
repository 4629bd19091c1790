/** The preview dialog and the printable template, given the same invoices, show the
    same rows in the same order, the same total and the same invoice count. */
module Surfaces {
  import opened Invoices
  import opened Totals
  import opened DateSort
  import opened Statement
  import PreviewModal
  import StatementTemplate

  method RenderBoth(invoices: array<Invoice>, title: Option<string>)
    returns (view: PreviewModal.View, doc: StatementTemplate.Document)
    ensures view.rows == doc.rows == Rows(StableSortByDate(invoices[..]))
    ensures view.totalAmount == view.footerAmount == doc.totalAmount == Sum(invoices[..])
    ensures view.footerCount == doc.footerCount == |doc.rows| == invoices.Length
    ensures view.totalCurrency == view.footerCurrency == Currency(invoices[..])
    ensures doc.title == StatementTemplate.Title(title)
  {
    view := PreviewModal.Render(invoices);
    doc := StatementTemplate.Render(invoices, title);
  }
}
