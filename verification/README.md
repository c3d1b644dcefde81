# Platinum Life premium rater — a Dafny model

The premium rater is a two-page Streamlit application. A client's age, gender,
smoker status, education level and sum assured go in. Out comes a monthly
premium quotation:

- a **base premium**: the per-mille rate for the client's risk class times the
  sum assured, divided by a thousand;
- a **PHCF levy** of 0.25% of the base;
- a flat **stamp duty** of 40;
- their **total**.

The rate comes from a sheet with one row per age and eight rate columns, one
for each gender × smoker status × education level combination.

This project models that calculation and the small amount of state around it:

- `rating.dfy` (module `Rating`): the three selections as enumerations, a rate
  row with its eight per-mille rates, reading a column by its header, and the
  eight-way choice of the rate column.
- `premium.dfy` (module `Premium`): the row lookup by exact age (first matching
  row wins), the premium breakdown, and the calculator. The calculator has two
  forms. `CalculatePremium` returns an explicit `Missing | Found(breakdown)`.
  `CalculatePremiumFigures` returns what the Python function returns, with four
  zeros for an age that has no row.
- `session.dfy` (module `Session`): the session's page (`"form"` or
  `"quotation"`), the two buttons that move between the pages, and the values
  stored between them. It also covers the placeholder shown for a presenter
  detail left empty, and the premium figures shown on the quotation page and
  printed in the downloadable document.

Arithmetic is exact (`real`), not binary floating point. The rate table is a
parameter: a sequence of rows.

For an age with no row, `calculate_premium` returns `(0, 0, 0, 0)`
(premium_rater.py:67-69), and the app still stores those zeros and moves to
the quotation page (premium_rater.py:278-294). The model does the same:
`CalculatePremiumFigures` and `Session.Step` store the zeros.
`CalculatePremium` exposes the explicit outcome that those two are built on.
The sheet may hold several rows for one age; the code takes the first of them
(`values[0]`, premium_rater.py:72), and so does the model.

## Model

| member | source | states |
|---|---|---|
| Rating.Column | premium_rater.py:72-86 | Reading a row by a header gives a rate exactly for the eight sheet headers, and each header gives the rate stored at its own position in the row |
| Rating.SelectRate | premium_rater.py:71-86 | Each branch of the eight-way cascade reads exactly the column at its selection's position among the eight sheet headers (ordered by gender, then smoker status, then education). The catch-all reads "Female Non Smoker Non Tertiary". Rates of a valid row are non-negative |
| Rating.ColumnNameJoinsLabels | premium_rater.py:71-86 | The header each selection reads is the gender, smoker and education option strings of the form, joined by single spaces |
| Rating.CatchAllReadsLastColumn | premium_rater.py:71-86 | The final `else` gives (Female, Non Smoker, Non Tertiary) the rate of the last column, for every row. On a row whose last rate differs from the other seven, `SelectRate` yields that rate for no other triple: no earlier branch reads the last column |
| Rating.ParseColumnNameRoundTrip | premium_rater.py:71-86 | Reading the selection back from the header it names gives the selection back |
| Rating.ColumnNameInjective | premium_rater.py:71-86 | Distinct (gender, smoker, education) triples read distinct columns |
| Rating.RateHeaderIsColumnName | premium_rater.py:71-86 | Every one of the eight rate columns is read by some triple |
| Premium.PremiumFor | premium_rater.py:88-92 | The base premium is the per-mille rate applied to the sum assured. The levy is the PHCF rate (0.25%) times the base. The stamp duty is the flat 40 whatever the inputs. The total is base + levy + stamp |
| Premium.PremiumTotalClosedForm | premium_rater.py:88-91 | 1000 × total = (1 + PHCF rate) × rate × sum assured + 1000 × stamp duty, i.e. 1.0025 × rate × sum assured + 40000 |
| Premium.PremiumNonNegative | premium_rater.py:88-91 | With a non-negative rate and sum assured, base, levy and stamp are non-negative and the total is at least 40 |
| Premium.PremiumMonotoneInSumAssured | premium_rater.py:88-91 | With a non-negative rate, a larger sum assured never gives a smaller total |
| Premium.RowsWithAge | premium_rater.py:66 | The age mask selects only rows of the table with exactly the requested age, and every such row |
| Premium.RowsWithAgeEmpty | premium_rater.py:66-67 | The selection is empty exactly when no row has the age |
| Premium.FirstSelectedIsFirstMatch | premium_rater.py:66-72 | The first selected row (`values[0]`) is the first row of the table with that age |
| Premium.CalculatePremium | premium_rater.py:65-92 | The result is Missing exactly when no row has the age. Otherwise it is the breakdown for the rate that the first row with that exact age gives the client's triple |
| Premium.Figures | premium_rater.py:67-69 | A missing row becomes the tuple (0, 0, 0, 0); a found breakdown is returned unchanged |
| Premium.CalculatePremiumFigures | premium_rater.py:65-92 | The returned tuple is all zeros when no row has the age. It always satisfies total = base + levy + stamp. When a row is found, it is exactly the breakdown for the rate that the first row with that age gives the client's triple, so the stamp is 40 and the levy is 0.25% of the base |
| Premium.MissingIgnoresSelection | premium_rater.py:66-69 | When no row has the age, the result is Missing whatever the selection and sum assured: no rate column is read |
| Premium.FirstRowWins | premium_rater.py:66-86 | When several rows share the age, the first one's rate is used whatever rows follow |
| Premium.OtherAgesIrrelevant | premium_rater.py:66 | Rows of other ages, added before or after the table, do not change the selection (no interpolation between ages) |
| Premium.OtherAgesDoNotChangePremium | premium_rater.py:65-92 | Rows of other ages, added before or after the table, do not change the premium |
| Premium.FoundPremiumBounds | premium_rater.py:88-91 | For a table of non-negative rates and a non-negative sum assured, a found premium has non-negative base and levy, a stamp of 40 and a total of at least 40 |
| Premium.WorkedExample | premium_rater.py:75-91 | Age 30, male, non-smoker, tertiary, sum assured 1,000,000 at rate r gives base 1000 r, levy 2.5 r, stamp 40 and total 1002.5 r + 40 |
| Session.Initial | premium_rater.py:61-62 | A fresh session is on the "form" page with nothing stored and empty presenter details |
| Session.Step | premium_rater.py:278-294 | On the form, Generate Quotation stores the client details and exactly the four figures the calculator returns, and moves to "quotation". Go Back on the quotation page changes only the page. A button pressed on a page that does not show it changes nothing |
| Session.StepPreservesConsistent | premium_rater.py:278-294 | A button press keeps the session invariant: the quotation page has stored values, and they are the calculator's figures for the stored details |
| Session.RunConsistent | premium_rater.py:278-294 | Every session reached from a fresh one by button presses satisfies that invariant |
| Session.GenerateThenGoBack | premium_rater.py:487-489 | Generating a quotation and going back lands on the form with the stored details, figures and presenter details kept |
| Session.GoBackThenRegenerate | premium_rater.py:487-489 | In a session whose stored figures are the calculator's for the stored details, going back and generating again with those details returns to the same quotation page |
| Session.ShowPresenterField | premium_rater.py:478-480 | An empty presenter detail is shown as 18 underscores; a non-empty one is shown unchanged; what is shown is never empty |
| Session.ShowPresenterFieldIdempotent | premium_rater.py:478-480 | Applying the placeholder rule to shown text changes nothing |
| Session.ShowPresenter | premium_rater.py:461-480 | Name, channel and code are each shown unchanged, or as the blank line when empty |
| Session.ScreenFigures | premium_rater.py:389-391 | The page shows the stored base and levy (read with zero defaults at lines 333-334) and the stored total (read with a zero default at line 454), and a stamp duty of 40 whatever is stored |
| Session.DocumentFigures | premium_rater.py:126-129 | The document prints the four stored figures unchanged; with nothing stored it prints zeros and a stamp duty of 40 |
| Session.ScreenFiguresCorrected | premium_rater.py:126-129 | The corrected page keeps the page's base, levy and total, and shows the stored stamp duty (40 when nothing is stored) |
| Session.ScreenMatchesDocumentIff | premium_rater.py:389-391 | In a consistent session, the page's figures equal the document's exactly when nothing is stored or the stored age has a row |
| Session.ScreenDisagreesForMissingAge | premium_rater.py:391 | For every client whose age has no row, after Generate Quotation the page shows a stamp duty of 40 beside a total of 0, while the document prints a stamp duty of 0, so the page's charges do not add up to its total |
| Session.ScreenCorrectedMatchesDocument | premium_rater.py:126-129 | With the stamp line read from the session, the page shows the same four figures as the document, in every session |
| Session.ScreenCorrectedAddsUp | premium_rater.py:389-391 | On every reachable quotation page, the corrected base, levy and stamp add up to the total shown |
| Session.ScreenShowsCalculatedFigures | premium_rater.py:333-334 | On every reachable quotation page, figures are stored, and the corrected page shows the calculator's figures for the stored details |

## Left out

- The Streamlit user interface is left out because it is presentation only. This covers page configuration, styles and HTML, columns, `st.rerun`, and the `st.error`/`st.warning` messages. The model does not show the "no matching rate" message as a side effect; a missing row appears only as `Missing` or as the zero tuple.
- Loading the rate sheet with `pandas.read_excel`, and the `st.stop()` when the file is missing, are left out as file I/O. The table is a parameter. The source reads the sheet again on every rerun of the script (premium_rater.py:28, not cached). The model uses one table for the whole session, so `Session.Consistent` and `Session.RunConsistent` assume the sheet does not change between button presses.
- Loading the logo and encoding it in base64 is left out as file I/O.
- The layout of the PDF document (ReportLab canvas calls, fonts, coordinates, static texts) is left out as foreign library calls. Only the four premium figures the document reads from the session (lines 126-129) are modelled, as `Session.DocumentFigures`. The document prints presenter details raw, without placeholders, and the model does not cover that.
- The download button (lines 491-505) is not modelled. It writes each presenter key back with its own value, which changes nothing.
- Number formatting (thousands separators, two or zero decimals) and binary floating-point rounding are left out. The model computes with exact rationals.
- The input-widget bounds (age 18 to 55; sum assured 1,000,000 to 35,000,000 in steps of 500,000) are not preconditions. The calculator is modelled for every integer age and sum assured.
- Rating.SelectRate: selections are enumerations of the offered option strings. In the source, any other string falls into the catch-all branch, and the form can never produce one.
- Session.Step: the presenter details enter through the Generate Quotation press. Streamlit keeps keyed widget values in the session on its own, and its clean-up of values whose widget is not drawn is not modelled.
- The client details shown on the quotation page (lines 327-332, 369-381) are not modelled beyond being stored. Their defaults for an empty session are left out because a reachable quotation page always has stored values (`Session.RunConsistent`).

## Findings

| source | as written | input that shows it | evidently intended | confidence | as-written member | corrected member |
|---|---|---|---|---|---|---|
| premium_rater.py:391 | The quotation page shows the Stamp Duty line as the constant 40.00, not the stored `stamp` | A client whose age has no row in the rate table: the calculator stores (0, 0, 0, 0), so the page shows base 0, levy 0, stamp 40 and total 0, while the document (line 128) prints stamp 0 | The page shows the stored stamp duty, as the document does. Then page and document agree, and the page's three charges add up to its total | medium; not executed | Session.ScreenDisagreesForMissingAge | Session.ScreenFiguresCorrected |

`Session.ScreenFigures` is the page as written. `Session.ScreenFiguresCorrected`
reads the stamp duty from the session, with the document's default of 40.
`Session.ScreenCorrectedMatchesDocument` and `Session.ScreenCorrectedAddsUp`
prove the intended agreement for the corrected page.
