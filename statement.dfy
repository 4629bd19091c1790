/** The statement aggregation both surfaces perform: the total over all invoices,
    the currency of the first invoice as supplied, the copy sorted by date, and one
    display row per invoice. */
module Statement {
  import opened Invoices
  import opened Totals
  import opened DateSort
  import opened DateFormat
  import opened Routes

  /** `invoices[0]?.details.currency || "USD"`. */
  function Currency(invoices: seq<Invoice>): (r: string)
    ensures r != ""
    ensures |invoices| > 0 && invoices[0].currency != "" ==> r == invoices[0].currency
    ensures |invoices| == 0 || invoices[0].currency == "" ==> r == "USD"
  {
    if |invoices| > 0 && invoices[0].currency != "" then invoices[0].currency else "USD"
  }

  /** `value || "-"`. */
  function OrDash(value: string): (r: string)
    ensures r != ""
    ensures value != "" ==> r == value
    ensures value == "" ==> r == "-"
  {
    if value == "" then "-" else value
  }

  /** One table row: DATE, TICKET NO, NAME, ROUTE and AMOUNT (before number formatting). */
  datatype Row = Row(date: string, ticketNumber: string, name: string, route: string, amount: int)

  function RowOf(inv: Invoice): (r: Row)
    ensures r.date == FormatDate(inv.invoiceDate)
    ensures r.ticketNumber == OrDash(inv.invoiceNumber) && r.name == OrDash(inv.receiverName)
    ensures r.route == Route(inv.items)
    ensures r.ticketNumber != "" && r.name != "" && r.route != ""
    ensures inv.invoiceNumber != "" ==> r.ticketNumber == inv.invoiceNumber
    ensures inv.invoiceNumber == "" ==> r.ticketNumber == "-"
    ensures inv.receiverName != "" ==> r.name == inv.receiverName
    ensures inv.receiverName == "" ==> r.name == "-"
    ensures r.amount == Coerce(inv.totalAmount)
  {
    Row(FormatDate(inv.invoiceDate), OrDash(inv.invoiceNumber), OrDash(inv.receiverName),
        Route(inv.items), Coerce(inv.totalAmount))
  }

  /** `sortedInvoices.map(...)`: one row per invoice, in the given order. */
  function Rows(invoices: seq<Invoice>): (rows: seq<Row>)
    ensures |rows| == |invoices|
    ensures forall i :: 0 <= i < |invoices| ==> rows[i] == RowOf(invoices[i])
  {
    seq(|invoices|, i requires 0 <= i < |invoices| => RowOf(invoices[i]))
  }

  lemma RowsAppend(a: seq<Invoice>, b: seq<Invoice>)
    ensures Rows(a + b) == Rows(a) + Rows(b)
  {
    var l, r := Rows(a + b), Rows(a) + Rows(b);
    assert |l| == |r|;
    forall i | 0 <= i < |l| ensures l[i] == r[i] {
      if i < |a| {
        assert (a + b)[i] == a[i];
      } else {
        assert (a + b)[i] == b[i - |a|];
      }
    }
  }

  /** Taking one invoice out of the list takes exactly its row out of the rows. */
  lemma RowsRemove(t: seq<Invoice>, i: nat)
    requires i < |t|
    ensures multiset(Rows(t)) == multiset(Rows(t[..i] + t[i + 1..])) + multiset{RowOf(t[i])}
  {
    assert t == t[..i] + [t[i]] + t[i + 1..];
    RowsAppend(t[..i], [t[i]]);
    RowsAppend(t[..i] + [t[i]], t[i + 1..]);
    RowsAppend(t[..i], t[i + 1..]);
    assert Rows([t[i]]) == [RowOf(t[i])];
  }

  /** Reordering the invoices reorders their rows: no row is lost, added or changed. */
  lemma {:induction false} RowsPermutation(s: seq<Invoice>, t: seq<Invoice>)
    requires multiset(s) == multiset(t)
    ensures multiset(Rows(s)) == multiset(Rows(t))
    decreases |s|
  {
    if s == [] {
      assert |t| == |multiset(t)| == 0;
    } else {
      assert s[0] in multiset(t);
      var i :| 0 <= i < |t| && t[i] == s[0];
      var rest := t[..i] + t[i + 1..];
      RemoveMultiset(t, i);
      assert s == [s[0]] + s[1..];
      assert multiset(s) == multiset(s[1..]) + multiset{s[0]};
      assert multiset(s[1..]) == multiset(s) - multiset{s[0]};
      assert multiset(rest) == multiset(t) - multiset{t[i]};
      RowsPermutation(s[1..], rest);
      RowsRemove(t, i);
      RowsRemove(s, 0);
      assert s[..0] + s[1..] == s[1..];
    }
  }

  /** What both surfaces derive from the invoice list. */
  datatype Summary = Summary(rows: seq<Row>, totalAmount: int, currency: string, count: nat)

  /** Computes the aggregation from the caller's array, which it does not modify. */
  method Aggregate(invoices: array<Invoice>) returns (sum: Summary)
    ensures sum.rows == Rows(StableSortByDate(invoices[..]))
    ensures sum.count == |sum.rows| == invoices.Length
    ensures multiset(sum.rows) == multiset(Rows(invoices[..]))
    ensures sum.totalAmount == Sum(invoices[..])
    ensures sum.currency == Currency(invoices[..])
  {
    var input := invoices[..];
    var total := Total(input);
    var currency := Currency(input);
    var sorted := SortedCopy(invoices);
    TotalIsSum(input);
    RowsPermutation(sorted, input);
    var rows := Rows(sorted);
    sum := Summary(rows, total, currency, invoices.Length);
  }

  /** The total does not change when it is taken over the sorted copy instead. */
  lemma TotalOverSortedCopy(invoices: seq<Invoice>)
    ensures Total(StableSortByDate(invoices)) == Total(invoices)
  {
    StableSortPermutation(invoices);
    TotalPermutation(StableSortByDate(invoices), invoices);
  }

  /** Two invoices, dated 2023-01-05 (100) and 2022-11-01 (50), given in either order:
      the rows come out oldest first, the total is 150 and the currency "USD". */
  lemma TwoInvoiceScenario(newer: Invoice, older: Invoice)
    requires newer.invoiceDate == Date(2023, 1, 5) && newer.totalAmount == Some(100) && newer.currency == "USD"
    requires older.invoiceDate == Date(2022, 11, 1) && older.totalAmount == Some(50) && older.currency == "USD"
    ensures StableSortByDate([newer, older]) == [older, newer]
    ensures StableSortByDate([older, newer]) == [older, newer]
    ensures Total([newer, older]) == 150 && Total([older, newer]) == 150
    ensures Currency([newer, older]) == "USD" && Currency([older, newer]) == "USD"
  {
    assert [newer, older][..1] == [newer];
    assert [older, newer][..1] == [older];
    assert [newer][..0] == [];
    assert [older][..0] == [];
    assert StableSortByDate([newer]) == [newer];
    assert StableSortByDate([older]) == [older];
    assert DateKey(older) < DateKey(newer);
    assert Insert([newer], older) == Insert([], older) + [newer];
    assert [newer, older][1..] == [older];
    assert [older, newer][1..] == [newer];
    assert [older][1..] == [];
    assert [newer][1..] == [];
    assert TotalFrom([newer, older], 0) == TotalFrom([older], 100) == TotalFrom([], 150);
    assert TotalFrom([older, newer], 0) == TotalFrom([newer], 50) == TotalFrom([], 150);
  }
}
