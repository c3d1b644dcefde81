/**
 The per-mille rate table of the premium rater and the eight-way choice of a
 rate column from a client's gender, smoker status and education level.
 */
module Rating {

  datatype Option<+T> = None | Some(value: T)

  datatype Gender = Male | Female
  datatype SmokerStatus = Smoker | NonSmoker
  datatype Education = Tertiary | NonTertiary

  /** The option strings the client form offers for each selection. */
  function GenderLabel(g: Gender): string {
    match g
    case Male => "Male"
    case Female => "Female"
  }

  function SmokerLabel(s: SmokerStatus): string {
    match s
    case Smoker => "Smoker"
    case NonSmoker => "Non Smoker"
  }

  function EducationLabel(e: Education): string {
    match e
    case Tertiary => "Tertiary"
    case NonTertiary => "Non Tertiary"
  }

  /** One row of the rate sheet: an age and its eight per-mille rates. */
  datatype RateRow = RateRow(
    age: int,
    maleSmokerTertiary: real,
    maleSmokerNonTertiary: real,
    maleNonSmokerTertiary: real,
    maleNonSmokerNonTertiary: real,
    femaleSmokerTertiary: real,
    femaleSmokerNonTertiary: real,
    femaleNonSmokerTertiary: real,
    femaleNonSmokerNonTertiary: real)

  /** Rates are per mille and never negative. */
  predicate ValidRow(row: RateRow) {
    && row.maleSmokerTertiary >= 0.0
    && row.maleSmokerNonTertiary >= 0.0
    && row.maleNonSmokerTertiary >= 0.0
    && row.maleNonSmokerNonTertiary >= 0.0
    && row.femaleSmokerTertiary >= 0.0
    && row.femaleSmokerNonTertiary >= 0.0
    && row.femaleNonSmokerTertiary >= 0.0
    && row.femaleNonSmokerNonTertiary >= 0.0
  }

  predicate ValidTable(table: seq<RateRow>) {
    forall i :: 0 <= i < |table| ==> ValidRow(table[i])
  }

  /** The headers of the eight rate columns of the sheet. */
  const RateHeaders: seq<string> := [
    "Male Smoker Tertiary",
    "Male Smoker Non Tertiary",
    "Male Non Smoker Tertiary",
    "Male Non Smoker Non Tertiary",
    "Female Smoker Tertiary",
    "Female Smoker Non Tertiary",
    "Female Non Smoker Tertiary",
    "Female Non Smoker Non Tertiary"
  ]

  /**
   Reads a rate column of a row by its header. Exactly the eight sheet headers
   are columns, and each yields the rate at its own position.
   */
  function Column(row: RateRow, header: string): (r: Option<real>)
    ensures r.Some? <==> header in RateHeaders
    ensures forall k :: 0 <= k < |RateHeaders| && RateHeaders[k] == header ==> r == Some(Rates(row)[k])
  {
    if header == "Male Smoker Tertiary" then Some(row.maleSmokerTertiary)
    else if header == "Male Smoker Non Tertiary" then Some(row.maleSmokerNonTertiary)
    else if header == "Male Non Smoker Tertiary" then Some(row.maleNonSmokerTertiary)
    else if header == "Male Non Smoker Non Tertiary" then Some(row.maleNonSmokerNonTertiary)
    else if header == "Female Smoker Tertiary" then Some(row.femaleSmokerTertiary)
    else if header == "Female Smoker Non Tertiary" then Some(row.femaleSmokerNonTertiary)
    else if header == "Female Non Smoker Tertiary" then Some(row.femaleNonSmokerTertiary)
    else if header == "Female Non Smoker Non Tertiary" then Some(row.femaleNonSmokerNonTertiary)
    else None
  }

  /** The position of a selection's column among the rate headers: gender, then smoker status, then education. */
  function ColumnIndex(g: Gender, s: SmokerStatus, e: Education): (i: nat)
    ensures i < |RateHeaders|
  {
    (if g == Male then 0 else 4) + (if s == Smoker then 0 else 2) + (if e == Tertiary then 0 else 1)
  }

  /** The header of the rate column for a selection. */
  function ColumnName(g: Gender, s: SmokerStatus, e: Education): string {
    RateHeaders[ColumnIndex(g, s, e)]
  }

  /** The form's three labels for a selection, joined by single spaces. */
  function JoinLabels(g: Gender, s: SmokerStatus, e: Education): string {
    GenderLabel(g) + " " + SmokerLabel(s) + " " + EducationLabel(e)
  }

  // The spelling of each header, checked a pair of selections at a time.
  lemma JoinLabelsMaleSmoker(e: Education)
    ensures JoinLabels(Male, Smoker, e) == ColumnName(Male, Smoker, e)
  {
    if e == Tertiary {
      assert JoinLabels(Male, Smoker, Tertiary) == "Male Smoker Tertiary";
    } else {
      assert JoinLabels(Male, Smoker, NonTertiary) == "Male Smoker Non Tertiary";
    }
  }
  lemma JoinLabelsMaleNonSmoker(e: Education)
    ensures JoinLabels(Male, NonSmoker, e) == ColumnName(Male, NonSmoker, e)
  {
    if e == Tertiary {
      assert JoinLabels(Male, NonSmoker, Tertiary) == "Male Non Smoker Tertiary";
    } else {
      assert JoinLabels(Male, NonSmoker, NonTertiary) == "Male Non Smoker Non Tertiary";
    }
  }
  lemma JoinLabelsFemaleSmoker(e: Education)
    ensures JoinLabels(Female, Smoker, e) == ColumnName(Female, Smoker, e)
  {
    if e == Tertiary {
      assert JoinLabels(Female, Smoker, Tertiary) == "Female Smoker Tertiary";
    } else {
      assert JoinLabels(Female, Smoker, NonTertiary) == "Female Smoker Non Tertiary";
    }
  }
  lemma JoinLabelsFemaleNonSmoker(e: Education)
    ensures JoinLabels(Female, NonSmoker, e) == ColumnName(Female, NonSmoker, e)
  {
    if e == Tertiary {
      assert JoinLabels(Female, NonSmoker, Tertiary) == "Female Non Smoker Tertiary";
    } else {
      assert JoinLabels(Female, NonSmoker, NonTertiary) == "Female Non Smoker Non Tertiary";
    }
  }

  /** Each header is the selection's three form labels joined by single spaces. */
  lemma ColumnNameJoinsLabels(g: Gender, s: SmokerStatus, e: Education)
    ensures ColumnName(g, s, e) == JoinLabels(g, s, e)
  {
    match (g, s)
    case (Male, Smoker) => JoinLabelsMaleSmoker(e);
    case (Male, NonSmoker) => JoinLabelsMaleNonSmoker(e);
    case (Female, Smoker) => JoinLabelsFemaleSmoker(e);
    case (Female, NonSmoker) => JoinLabelsFemaleNonSmoker(e);
  }

  /**
   The rate the calculator uses for a selection. The cascade of conditions and
   the header each branch reads follow the calculator; the final branch is the
   catch-all. The contract says that every branch reads exactly the column
   at its selection's position among the sheet's headers.
   */
  function SelectRate(row: RateRow, g: Gender, s: SmokerStatus, e: Education): (rate: real)
    ensures Column(row, ColumnName(g, s, e)) == Some(rate)
    ensures ValidRow(row) ==> rate >= 0.0
  {
    if g == Male && s == Smoker && e == Tertiary then
      Column(row, "Male Smoker Tertiary").value
    else if g == Male && s == Smoker && e == NonTertiary then
      Column(row, "Male Smoker Non Tertiary").value
    else if g == Male && s == NonSmoker && e == Tertiary then
      Column(row, "Male Non Smoker Tertiary").value
    else if g == Male && s == NonSmoker && e == NonTertiary then
      Column(row, "Male Non Smoker Non Tertiary").value
    else if g == Female && s == Smoker && e == Tertiary then
      Column(row, "Female Smoker Tertiary").value
    else if g == Female && s == Smoker && e == NonTertiary then
      Column(row, "Female Smoker Non Tertiary").value
    else if g == Female && s == NonSmoker && e == Tertiary then
      Column(row, "Female Non Smoker Tertiary").value
    else
      Column(row, "Female Non Smoker Non Tertiary").value
  }

  /** The eight rates of a row, in the order of the sheet's headers. */
  function Rates(row: RateRow): (rates: seq<real>)
    ensures |rates| == |RateHeaders|
  {
    [row.maleSmokerTertiary, row.maleSmokerNonTertiary,
     row.maleNonSmokerTertiary, row.maleNonSmokerNonTertiary,
     row.femaleSmokerTertiary, row.femaleSmokerNonTertiary,
     row.femaleNonSmokerTertiary, row.femaleNonSmokerNonTertiary]
  }

  /**
   The catch-all branch. (Female, Non Smoker, Non Tertiary) falls through every
   guard and reads the last column. On a row whose last rate differs from the
   other seven, no other selection yields that rate: no earlier branch reads
   the last column.
   */
  lemma CatchAllReadsLastColumn(row: RateRow, g: Gender, s: SmokerStatus, e: Education)
    ensures SelectRate(row, Female, NonSmoker, NonTertiary) == row.femaleNonSmokerNonTertiary
    ensures (forall k :: 0 <= k < 7 ==> Rates(row)[k] != row.femaleNonSmokerNonTertiary) ==>
            (SelectRate(row, g, s, e) == row.femaleNonSmokerNonTertiary
             <==> (g == Female && s == NonSmoker && e == NonTertiary))
  {
    var k := ColumnIndex(g, s, e);
    assert SelectRate(row, g, s, e) == Rates(row)[k];
    if !(g == Female && s == NonSmoker && e == NonTertiary) {
      assert k < 7;
    }
  }

  /** Recovers the selection a rate header names; None for any other header. */
  function ParseColumnName(header: string): (sel: Option<(Gender, SmokerStatus, Education)>)
  {
    if header == "Male Smoker Tertiary" then Some((Male, Smoker, Tertiary))
    else if header == "Male Smoker Non Tertiary" then Some((Male, Smoker, NonTertiary))
    else if header == "Male Non Smoker Tertiary" then Some((Male, NonSmoker, Tertiary))
    else if header == "Male Non Smoker Non Tertiary" then Some((Male, NonSmoker, NonTertiary))
    else if header == "Female Smoker Tertiary" then Some((Female, Smoker, Tertiary))
    else if header == "Female Smoker Non Tertiary" then Some((Female, Smoker, NonTertiary))
    else if header == "Female Non Smoker Tertiary" then Some((Female, NonSmoker, Tertiary))
    else if header == "Female Non Smoker Non Tertiary" then Some((Female, NonSmoker, NonTertiary))
    else None
  }

  /** Reading a selection back from the header it names gives the selection. */
  lemma ParseColumnNameRoundTrip(g: Gender, s: SmokerStatus, e: Education)
    ensures ParseColumnName(ColumnName(g, s, e)) == Some((g, s, e))
  {
  }

  /** Distinct selections name distinct columns. */
  lemma ColumnNameInjective(g: Gender, s: SmokerStatus, e: Education,
                            g': Gender, s': SmokerStatus, e': Education)
    requires ColumnName(g, s, e) == ColumnName(g', s', e')
    ensures g == g' && s == s' && e == e'
  {
    ParseColumnNameRoundTrip(g, s, e);
    ParseColumnNameRoundTrip(g', s', e');
  }

  /** Every rate column is named by some selection. */
  lemma RateHeaderIsColumnName(header: string)
    requires header in RateHeaders
    ensures exists g, s, e :: ColumnName(g, s, e) == header
  {
    var i :| 0 <= i < |RateHeaders| && RateHeaders[i] == header;
    var sel := [(Male, Smoker, Tertiary), (Male, Smoker, NonTertiary),
                (Male, NonSmoker, Tertiary), (Male, NonSmoker, NonTertiary),
                (Female, Smoker, Tertiary), (Female, Smoker, NonTertiary),
                (Female, NonSmoker, Tertiary), (Female, NonSmoker, NonTertiary)][i];
    assert ColumnName(sel.0, sel.1, sel.2) == header;
  }
}
