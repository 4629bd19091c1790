# Invoice statement aggregation

The invoicing application builds a statement for a list of selected invoices on two
surfaces:

- the statement preview dialog (`StatementPreviewModal`);
- the printable statement template (`StatementTemplate`).

Both derive the same data from the invoices:

- the total of the amounts, where `Number(x) || 0` turns a missing or non-numeric
  amount into 0;
- the currency of the first invoice in input order, or "USD";
- a copy of the list sorted by invoice date;
- one table row per invoice, made of:
  - a `D-Mon-YY` date;
  - the ticket number, or "-";
  - the receiver's name, or "-";
  - the route, built from the line items;
  - the coerced amount.

The preview dialog also has a download button. While the statement PDF is being
requested, the `isGenerating` flag disables the button.

This project models that aggregation once and uses it for both surfaces. The modules:

- `Invoices`: the invoice record.
- `Totals`: the reduce behind the total, and an independent reference sum.
- `DateSort`: a stable sort specification plus the in-place insertion sort of a fresh
  copy.
- `DateFormat`: the date text, and a parser that reads it back.
- `Routes`: the route cell, and an independent one-pass definition of it.
- `Statement`: the row, the currency and the aggregation.
- `PreviewModal`: the dialog, and its download control as a class.
- `StatementTemplate`: the printable document.
- `Surfaces`: builds both surfaces from one array and states that they agree.

Conventions, all as both surfaces read the invoice:

- Strings use "" for absent or falsy values.
- Amounts are `Option<int>` in minor units, with `None` standing for NaN.
- Dates are calendar values (year, month 1..12, day 1..31).

The in-place sort works on a fresh copy, and the methods that read the caller's array
have no `modifies` clause, so the input array keeps its contents and order.

For invoice dates without a time of day, the sort is pinned down completely even though
`Array.prototype.sort` does not name an algorithm. Section 23.1.3.30 of ECMA-262 (2023
edition) requires the sort to be stable. `DateSort.StableSortUnique` then proves that any
such result is the specification `StableSortByDate`. The comparator reads `getTime()`,
the full instant, and the model's key is the calendar day. The two agree only when no
invoice date carries a time of day; see `DateSort.Key` under "## Left out".

## Model

| member | source | states |
|---|---|---|
| `Invoices.Coerce` | app/components/modals/invoice/StatementPreviewModal.tsx:35 | `Number(amount)` or else 0: a NaN amount gives 0, any number gives itself |
| `Totals.TotalFromIsSum` | app/components/modals/invoice/StatementPreviewModal.tsx:34-36 | the left-to-right reduce from any accumulator is the accumulator plus the reference sum of the coerced amounts |
| `Totals.TotalIsSum` | app/components/templates/invoice-pdf/StatementTemplate.tsx:15-17 | the reduce from 0 equals the sum of the coerced amounts of every input invoice |
| `Totals.SumPermutation` | app/components/modals/invoice/StatementPreviewModal.tsx:34-36 | the reference sum is the same over any reordering of the invoices |
| `Totals.TotalPermutation` | app/components/templates/invoice-pdf/StatementTemplate.tsx:14-27 | the total is the same over the input and over any permutation of it, such as the sorted copy |
| `Totals.TotalIgnoresOtherFields` | app/components/modals/invoice/StatementPreviewModal.tsx:34-36 | the total depends on nothing but the amounts, position by position |
| `Statement.Currency` | app/components/modals/invoice/StatementPreviewModal.tsx:39 | never empty; the first input invoice's currency when it is non-empty, "USD" for an empty list or an empty first currency |
| `DateSort.KeyIsCalendarOrder` | app/components/modals/invoice/StatementPreviewModal.tsx:43-45 | the date key orders dates lexicographically by year, month, day, and equal keys mean equal dates |
| `DateSort.StableSortPermutation` | app/components/modals/invoice/StatementPreviewModal.tsx:42 | the sorted copy holds exactly the input's invoices (same multiset) |
| `DateSort.StableSortSorted` | app/components/modals/invoice/StatementPreviewModal.tsx:42-46 | the sorted copy is non-decreasing by date |
| `DateSort.StableSortStable` | app/components/templates/invoice-pdf/StatementTemplate.tsx:23-27 | for every date, the invoices with that date appear in the sorted copy in their input order |
| `DateSort.SortedSameOrderPerDateEqual` | app/components/modals/invoice/StatementPreviewModal.tsx:42-46 | two sequences sorted by date with the same order within each date are equal |
| `DateSort.StableSortUnique` | app/components/modals/invoice/StatementPreviewModal.tsx:42-46 | any sorted, stable reordering of the input is the specification's: every conforming stable sort gives the same result |
| `DateSort.InsertAt` | app/components/modals/invoice/StatementPreviewModal.tsx:42-46 | one pass moves `a[i]` left past strictly later invoices and leaves the prefix as the stable insertion of `a[i]` into it; the rest of the array is unchanged |
| `DateSort.InsertionSortByDate` | app/components/modals/invoice/StatementPreviewModal.tsx:42-46 | the in-place sort leaves the array equal to the stable sort of its old contents |
| `DateSort.SortedCopy` | app/components/templates/invoice-pdf/StatementTemplate.tsx:23-27 | sorting a fresh copy yields the stable sort of the input: sorted, a permutation, stable, one entry per input; the input array is outside the frame |
| `DateFormat.NatToString` | app/components/modals/invoice/StatementPreviewModal.tsx:50 | `${day}` and `${invoices.length}`: non-empty and all decimal digits; `DateFormat.NatToStringRoundTrip` states it reads back as the number and `DateFormat.NatToStringNoLeadingZero` that a positive number has no leading zero |
| `DateFormat.IntToString` | app/components/modals/invoice/StatementPreviewModal.tsx:52 | `getFullYear().toString()`; no ensures of its own: `DateFormat.IntToStringSign` states it is non-empty and starts with '-' exactly for a negative year, `DateFormat.YearSuffixOfLongYear` and `DateFormat.YearSuffixOfShortYear` state what `slice(-2)` keeps of it |
| `DateFormat.MonthShort` | app/components/modals/invoice/StatementPreviewModal.tsx:51 | the en-US short month name, three characters; `DateFormat.MonthFromShort` states that it identifies its month among the twelve names, which are taken as given in place of the locale data |
| `DateFormat.IntToStringSign` | app/components/modals/invoice/StatementPreviewModal.tsx:52 | the year text is non-empty and starts with '-' exactly for a negative year |
| `DateFormat.NatToStringNoLeadingZero` | app/components/modals/invoice/StatementPreviewModal.tsx:50 | the day's text never starts with '0', and has one character exactly for days below 10 |
| `DateFormat.NatToStringRoundTrip` | app/components/modals/invoice/StatementPreviewModal.tsx:50 | the decimal text of a number reads back as the number |
| `DateFormat.MonthFromShort` | app/components/modals/invoice/StatementPreviewModal.tsx:51 | the short month name identifies its month among the twelve names |
| `DateFormat.LastTwo` | app/components/modals/invoice/StatementPreviewModal.tsx:52 | `slice(-2)` gives a suffix of length 2, or the whole of a shorter string |
| `DateFormat.YearSuffixOfLongYear` | app/components/modals/invoice/StatementPreviewModal.tsx:52 | from year 10 on, the year text is its tens digit then its units digit (2005 gives "05") |
| `DateFormat.YearSuffixOfShortYear` | app/components/modals/invoice/StatementPreviewModal.tsx:52 | years 0 to 9 give a single digit |
| `DateFormat.YearSuffixModulo` | app/components/modals/invoice/StatementPreviewModal.tsx:52 | from year 10 on, two years render alike exactly when they agree modulo 100 |
| `DateFormat.FormatDateRoundTrip` | app/components/modals/invoice/StatementPreviewModal.tsx:49-54 | `day-Mon-YY` parses back to the day, the month and the year text |
| `DateFormat.FormatDateInjective` | app/components/templates/invoice-pdf/StatementTemplate.tsx:61-65 | from year 10 on, two dates render alike exactly when day, month and year modulo 100 agree |
| `DateFormat.FormatDateExample` | app/components/modals/invoice/StatementPreviewModal.tsx:48 | 2022-12-21 renders as "21-Dec-22" |
| `Routes.Pick` | app/components/modals/invoice/StatementPreviewModal.tsx:143-147 | description over service type over name; empty exactly when all three are |
| `Routes.PickAll` | app/components/modals/invoice/StatementPreviewModal.tsx:142-147 | one pick per item, in item order |
| `Routes.NonEmptyMembers` | app/components/modals/invoice/StatementPreviewModal.tsx:148 | `filter(Boolean)` keeps only non-empty picks taken from the input |
| `Routes.NonEmptyEmptyIff` | app/components/modals/invoice/StatementPreviewModal.tsx:148 | the filter leaves nothing exactly when every pick is empty |
| `Routes.JoinEmptyIff` | app/components/modals/invoice/StatementPreviewModal.tsx:149 | joining non-empty strings is empty exactly for no strings |
| `Routes.JoinLength` | app/components/modals/invoice/StatementPreviewModal.tsx:149 | a join of two or more strings is at least as long as the separator plus its first and last parts |
| `Routes.Route` | app/components/modals/invoice/StatementPreviewModal.tsx:142-149 | the route cell is never empty |
| `Routes.RouteIsJoinedPicks` | app/components/templates/invoice-pdf/StatementTemplate.tsx:68-75 | the route is "-" when there is no non-empty pick and otherwise the non-empty picks joined by ", " in item order |
| `Routes.RouteIsDashIff` | app/components/modals/invoice/StatementPreviewModal.tsx:142-149 | the route is "-" exactly when there is no non-empty pick or the only one is itself "-" |
| `Routes.RouteDashForBlankItems` | app/components/templates/invoice-pdf/StatementTemplate.tsx:68-75 | there is no non-empty pick exactly when every item's pick is empty |
| `Routes.JoinedPicksIsOnePass` | app/components/modals/invoice/StatementPreviewModal.tsx:142-149 | map, filter and join give the same text as a one-pass accumulation over the items |
| `Routes.RouteExampleThreeItems` | app/components/templates/invoice-pdf/StatementTemplate.tsx:67-75 | items with only a description "A", a service type "B", a name "C" give "A, B, C" |
| `Routes.RouteExampleBlankItem` | app/components/templates/invoice-pdf/StatementTemplate.tsx:67-75 | a single item with no description, service type or name gives "-" |
| `Totals.TotalFrom` | app/components/modals/invoice/StatementPreviewModal.tsx:34-36 | the reduce, left to right from an accumulator; no ensures of its own, its value is stated by `Totals.TotalFromIsSum` |
| `Totals.Total` | app/components/templates/invoice-pdf/StatementTemplate.tsx:15-17 | the reduce started from 0; no ensures of its own, stated by `Totals.TotalIsSum` and `Totals.TotalPermutation` |
| `DateSort.Key` | app/components/modals/invoice/StatementPreviewModal.tsx:43-45 | no ensures of its own; `DateSort.KeyIsCalendarOrder` states that it orders dates by year, month, day and tells them apart |
| `DateSort.Insert` | app/components/modals/invoice/StatementPreviewModal.tsx:42-46 | the stable insertion of one invoice adds exactly one element; its order, contents and stability are stated by `DateSort.InsertSorted`, `DateSort.InsertMultiset` and `DateSort.InsertWithKey` |
| `DateSort.StableSortByDate` | app/components/modals/invoice/StatementPreviewModal.tsx:42 | the sorted copy has one entry per input invoice; sorted, permutation and stability are stated by `DateSort.StableSortSorted`, `DateSort.StableSortPermutation` and `DateSort.StableSortStable` |
| `DateFormat.FormatDate` | app/components/modals/invoice/StatementPreviewModal.tsx:49-54 | no ensures of its own; `DateFormat.FormatDateRoundTrip`, `DateFormat.FormatDateInjective` and `DateFormat.FormatDateExample` state what the text holds |
| `Routes.NonEmpty` | app/components/modals/invoice/StatementPreviewModal.tsx:148 | the filter never lengthens the list; `Routes.NonEmptyMembers`, `Routes.NonEmptyKeeps` and `Routes.NonEmptyEmptyIff` state what it keeps |
| `Routes.NonEmptyKeeps` | app/components/modals/invoice/StatementPreviewModal.tsx:148 | `filter(Boolean)` loses no non-empty pick |
| `Routes.Join` | app/components/modals/invoice/StatementPreviewModal.tsx:149 | no ensures of its own; `Routes.JoinEmptyIff` and `Routes.JoinLength` state its properties |
| `PreviewModal.FileName` | app/components/modals/invoice/StatementPreviewModal.tsx:75 | no ensures of its own; `PreviewModal.FileNameOfTimestamp` states the name built from an ISO timestamp |
| `PreviewModal.DownloadControl.Label` | app/components/modals/invoice/StatementPreviewModal.tsx:107 | the caption is "Generating..." exactly while the flag is set, "Download PDF" otherwise |
| `Statement.OrDash` | app/components/modals/invoice/StatementPreviewModal.tsx:152 | the value or else "-": never empty, the value when non-empty, "-" otherwise |
| `Statement.RowOf` | app/components/templates/invoice-pdf/StatementTemplate.tsx:77-98 | the DATE column is `FormatDate` of the invoice date, TICKET NO and NAME are the field or "-" when it is empty, ROUTE is `Route` of the items, AMOUNT is the coerced amount |
| `Statement.Rows` | app/components/modals/invoice/StatementPreviewModal.tsx:137 | exactly one row per invoice, in order, row i built from invoice i; no invoice is dropped |
| `Statement.RowsPermutation` | app/components/modals/invoice/StatementPreviewModal.tsx:137-176 | reordering the invoices reorders their rows and changes none |
| `Statement.Aggregate` | app/components/modals/invoice/StatementPreviewModal.tsx:33-46 | rows of the stable sorted copy, one per input invoice and the same rows as the input's; the reference sum; the currency of the unsorted input |
| `Statement.TotalOverSortedCopy` | app/components/modals/invoice/StatementPreviewModal.tsx:34-46 | the total over the sorted copy equals the total over the input |
| `Statement.TwoInvoiceScenario` | app/components/modals/invoice/StatementPreviewModal.tsx:33-46 | invoices of 2023-01-05 (100) and 2022-11-01 (50) in either order sort oldest first and total 150 "USD" |
| `PreviewModal.Description` | app/components/modals/invoice/StatementPreviewModal.tsx:96 | "Preview of …", ending in the plural "s" exactly when the count is not 1 |
| `PreviewModal.DescriptionCount` | app/components/modals/invoice/StatementPreviewModal.tsx:96 | the count's decimal text follows "Preview of " and reads back as the count |
| `PreviewModal.Render` | app/components/modals/invoice/StatementPreviewModal.tsx:137-194 | the dialog's rows are the sorted copy's rows; the total row and the footer show the same total and currency; the footer count is the input length and the row count |
| `PreviewModal.DatePart` | app/components/modals/invoice/StatementPreviewModal.tsx:75 | `split("T")[0]`: the longest prefix without 'T', stopping at the first 'T' |
| `PreviewModal.FileNameOfTimestamp` | app/components/modals/invoice/StatementPreviewModal.tsx:75 | a timestamp `date T time` names the file `statement-date.pdf` |
| `PreviewModal.DownloadControl.constructor` | app/components/modals/invoice/StatementPreviewModal.tsx:31 | the control keeps the dialog's `invoices` prop; the flag starts false with nothing requested |
| `PreviewModal.DownloadControl.Click` | app/components/modals/invoice/StatementPreviewModal.tsx:56-65 | while generating, the disabled button ignores the click; otherwise the flag is set and one POST of the dialog's own `invoices` prop, unsorted, is issued; the flag is true afterwards either way |
| `PreviewModal.DownloadControl.Settle` | app/components/modals/invoice/StatementPreviewModal.tsx:66-86 | on every outcome the flag is cleared; a PDF saves `statement-<date>.pdf`, every failure raises the one alert message |
| `PreviewModal.FailedDownloadThenRetry` | app/components/modals/invoice/StatementPreviewModal.tsx:56-107 | a failed download followed by a second click gives: POST, alert, POST, saved file; the click during the request issues nothing |
| `StatementTemplate.Title` | app/components/templates/invoice-pdf/StatementTemplate.tsx:12 | "STATEMENT" when no title is given, the given title otherwise |
| `StatementTemplate.Render` | app/components/templates/invoice-pdf/StatementTemplate.tsx:14-122 | the title; the rows of the sorted copy; the reference sum in the TOTAL row; "Total Invoices" equal to the input length and to the number of rows |
| `Surfaces.RenderBoth` | app/components/templates/invoice-pdf/StatementTemplate.tsx:11-127 | from one invoice array, the preview dialog and the template show the same rows in the same order, the same total and the same invoice count |

Both surfaces build the date text, the route and the fallbacks with the same
expressions: the preview through its local `formatDate` (StatementPreviewModal.tsx:49-54),
the template inline (StatementTemplate.tsx:61-65). `FormatDate`, `Route` and `RowOf` are
therefore one definition, used by both. The template computes `currency` (StatementTemplate.tsx:20) but never renders it:
its TOTAL row (StatementTemplate.tsx:112) has no currency, so `StatementTemplate.Document`
has no currency field.

## Left out

- JavaScript date parsing and time zones: `new Date(invoiceDate)` parses in UTC and
  `getDate()` reads local time. The model starts from the calendar date that
  `getFullYear`, `getMonth` and `getDate` report.
- Unparseable dates: the comparator then yields NaN and the order is
  implementation-defined. Only valid dates are modelled.
- Day-of-month validity: the day is 1..31 for every month. Because the date key is
  strictly increasing in (year, month, day), this does not change any order.
- `formatNumberWithCommas` and `DATE_OPTIONS` are defined in modules that are not part
  of this model. Amounts are kept as integers before formatting, and the
  "Generated on" date is not rendered.
- Floating-point amounts are integers in minor units, so float rounding and the
  order of float additions are not modelled.
- Wall-clock values: the ISO timestamp that names the downloaded file is a parameter
  of `Settle`. The template's "Generated on" footer is left out.
- The network and DOM parts of `handleDownload` (`fetch`, `blob`, the object URL and
  the anchor click) become a `Reply` value and an effects log. `console.error` is
  left out. The interleaving of concurrent React renders is not modelled: a click is
  taken to see the current flag.
- JSX markup, CSS classes (including the CSS `uppercase` on the title) and the dialog
  open/close plumbing.
- `app/components/client/ClientDetail.tsx` is not part of this model. It fetches and
  renders client data and has no statement logic.
- `DateSort.Key`: orders by calendar day only. The source compares `getTime()`, the full
  instant, and `invoiceDate` is a plain string. The model assumes no invoice date carries
  a time of day, so that the key orders exactly as `getTime()` does. Two invoices of the
  same day but different times keep their input order in the model, while the source
  orders them by time.
- Missing objects: the source throws a TypeError when `details`, `details.items` or
  `receiver` is absent. The model takes them as present, as the invoice type declares.
- `DateFormat.MonthShort`: `toLocaleDateString("en-US", { month: "short" })` reads the
  locale data of the JavaScript runtime. The model takes the twelve en-US names "Jan" to
  "Dec" as given.
