/** The statement preview dialog: its table and footer, and the download control
    whose `isGenerating` flag is set while the statement PDF is being fetched. */
module PreviewModal {
  import opened Invoices
  import opened DateFormat
  import opened Totals
  import opened DateSort
  import opened Statement

  /** "Preview of {n} selected invoice{n !== 1 ? 's' : ''}": the count in decimal,
      and the plural "s" exactly when the count is not one. */
  function Description(count: nat): (d: string)
    ensures |d| > 11 && d[..11] == "Preview of "
    ensures d[|d| - 1] == 's' <==> count != 1
  {
    "Preview of " + NatToString(count) + " selected invoice" + (if count != 1 then "s" else "")
  }

  /** The count reads back from the description. */
  lemma DescriptionCount(count: nat)
    ensures var n := NatToString(count);
      Description(count)[11..11 + |n|] == n && DigitsValue(n) == count
  {
    NatToStringRoundTrip(count);
  }

  /** What the dialog shows: the description, the data rows, the total row
      (`total currency`) and the footer (`Total Invoices: n | Total Amount: total currency`). */
  datatype View = View(
    description: string,
    rows: seq<Row>,
    totalAmount: int,
    totalCurrency: string,
    footerCount: nat,
    footerAmount: int,
    footerCurrency: string)

  method Render(invoices: array<Invoice>) returns (v: View)
    ensures v.description == Description(invoices.Length)
    ensures v.rows == Rows(StableSortByDate(invoices[..]))
    ensures multiset(v.rows) == multiset(Rows(invoices[..]))
    ensures |v.rows| == v.footerCount == invoices.Length
    ensures v.totalAmount == v.footerAmount == Sum(invoices[..])
    ensures v.totalCurrency == v.footerCurrency == Currency(invoices[..])
  {
    var s := Aggregate(invoices);
    v := View(Description(invoices.Length), s.rows, s.totalAmount, s.currency,
              invoices.Length, s.totalAmount, s.currency);
  }

  // ---- The download action

  /** How the request to the statement endpoint ends: `fetch` rejects, the response is
      not ok, reading the blob fails, or the PDF arrives. */
  datatype Reply = FetchFailed | NotOk | BlobFailed | Pdf

  /** What the dialog does outside its own state: the POST of `{ invoices }`, the saved
      file, the alert. */
  datatype Effect = Post(body: seq<Invoice>) | SaveFile(fileName: string) | ErrorAlert(message: string)

  const FailureMessage: string := "Failed to generate statement. Please try again."

  /** `iso.split("T")[0]`: the text before the first 'T'. */
  function DatePart(iso: string): (r: string)
    ensures |r| <= |iso| && r == iso[..|r|]
    ensures forall j :: 0 <= j < |r| ==> r[j] != 'T'
    ensures |r| < |iso| ==> iso[|r|] == 'T'
  {
    iso[..FirstIndex(iso, 'T')]
  }

  /** `statement-${new Date().toISOString().split("T")[0]}.pdf`, with the ISO timestamp
      of the moment of download given as `now`. */
  function FileName(now: string): (name: string)
  {
    "statement-" + DatePart(now) + ".pdf"
  }

  /** An ISO timestamp `date + "T" + time` names the file after its date. */
  lemma FileNameOfTimestamp(date: string, time: string)
    requires forall j :: 0 <= j < |date| ==> date[j] != 'T'
    ensures DatePart(date + "T" + time) == date
    ensures FileName(date + "T" + time) == "statement-" + date + ".pdf"
  {
    assert date + "T" + time == date + ("T" + time);
    FirstIndexAfter(date, "T" + time, 'T');
  }

  /** Requests posted that have not yet been answered by a saved file or an alert. */
  function InFlight(effects: seq<Effect>): (n: int)
    decreases |effects|
  {
    if effects == [] then 0
    else InFlight(effects[..|effects| - 1]) + (if effects[|effects| - 1].Post? then 1 else -1)
  }

  lemma InFlightAppend(effects: seq<Effect>, e: Effect)
    ensures InFlight(effects + [e]) == InFlight(effects) + (if e.Post? then 1 else -1)
  {
    assert (effects + [e])[..|effects|] == effects;
  }

  /** The download control of a dialog opened on `invoices`. The button is disabled
      while `isGenerating` holds, so at most one request is ever in flight, and the flag
      says whether one is. */
  class DownloadControl {
    const invoices: seq<Invoice>
    var isGenerating: bool
    var effects: seq<Effect>

    ghost predicate Valid()
      reads this
    {
      InFlight(effects) == if isGenerating then 1 else 0
    }

    /** `useState(false)`, in a dialog whose `invoices` prop is `invoices`. */
    constructor (invoices: seq<Invoice>)
      ensures this.invoices == invoices
      ensures Valid() && !isGenerating && effects == []
    {
      this.invoices := invoices;
      isGenerating := false;
      effects := [];
    }

    /** The button caption: "Generating..." exactly while a request is in flight. */
    function Label(): (r: string)
      reads this
      ensures r == "Generating..." <==> isGenerating
      ensures !isGenerating ==> r == "Download PDF"
    {
      if isGenerating then "Generating..." else "Download PDF"
    }

    /** A click on the button. A disabled button ignores it; otherwise
        `handleDownload` sets the flag and posts the dialog's `invoices` prop, in its
        unsorted order. */
    method Click() returns (started: bool)
      requires Valid()
      modifies this
      ensures Valid()
      ensures started == !old(isGenerating)
      ensures isGenerating && Label() == "Generating..."
      ensures effects == if started then old(effects) + [Post(invoices)] else old(effects)
    {
      started := !isGenerating;
      if started {
        isGenerating := true;
        InFlightAppend(effects, Post(invoices));
        effects := effects + [Post(invoices)];
      }
    }

    /** The rest of `handleDownload` once the request ends: the PDF is saved, or the
        failure is reported; `finally` clears the flag on either path. */
    method Settle(reply: Reply, now: string)
      requires Valid() && isGenerating
      modifies this
      ensures Valid()
      ensures !isGenerating && Label() == "Download PDF"
      ensures reply == Pdf ==> effects == old(effects) + [SaveFile(FileName(now))]
      ensures reply != Pdf ==> effects == old(effects) + [ErrorAlert(FailureMessage)]
    {
      var e := if reply == Pdf then SaveFile(FileName(now)) else ErrorAlert(FailureMessage);
      InFlightAppend(effects, e);
      effects := effects + [e];
      isGenerating := false;
    }
  }

  /** A download that fails returns the control to idle with one alert, and a click
      meanwhile is ignored; nothing retries on its own, and a second click starts a
      new request that saves the file. */
  method FailedDownloadThenRetry(invoices: seq<Invoice>, now: string) returns (log: seq<Effect>)
    ensures log == [Post(invoices), ErrorAlert(FailureMessage), Post(invoices), SaveFile(FileName(now))]
  {
    var c := new DownloadControl(invoices);
    var started := c.Click();
    var again := c.Click();
    assert started && !again;
    c.Settle(NotOk, now);
    started := c.Click();
    c.Settle(Pdf, now);
    log := c.effects;
  }
}
