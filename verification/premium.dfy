/**
 The premium calculation: look a rate row up by exact age, select the rate for
 the client's risk class, and break the premium down into base premium, PHCF
 levy, stamp duty and total.
 */
module Premium {
  import opened Rating

  /** The PHCF levy is 0.25% of the base premium. */
  const PhcfRate: real := 0.0025
  /** Stamp duty is a flat charge, whatever the sum assured. */
  const StampDuty: real := 40.0

  /** The four figures of a quotation, in the order the calculator returns them. */
  datatype Breakdown = Breakdown(base: real, phcf: real, stamp: real, total: real)

  /** The outcome of a calculation: no row for the age, or the premium found. */
  datatype Quote = Missing | Found(breakdown: Breakdown)

  /**
   The premium for a per-mille rate and a sum assured. The base premium is the
   rate per thousand of the sum assured, the levy a four-hundredth of the base,
   and the total the sum of the three charges.
   */
  function PremiumFor(rate: real, sumAssured: int): (b: Breakdown)
    ensures b.base * 1000.0 == rate * sumAssured as real
    ensures b.phcf == PhcfRate * b.base
    ensures b.stamp == StampDuty
    ensures b.total == b.base + b.phcf + b.stamp
  {
    var base := (rate / 1000.0) * sumAssured as real;
    var phcf := PhcfRate * base;
    var stamp := StampDuty;
    var total := base + phcf + stamp;
    Breakdown(base, phcf, stamp, total)
  }

  /** The total in closed form: the base premium grossed up by the levy rate, plus the stamp duty. */
  lemma PremiumTotalClosedForm(rate: real, sumAssured: int)
    ensures PremiumFor(rate, sumAssured).total * 1000.0
            == (1.0 + PhcfRate) * rate * sumAssured as real + 1000.0 * StampDuty
  {
    var b := PremiumFor(rate, sumAssured);
    assert b.total * 1000.0 == b.base * 1000.0 + b.phcf * 1000.0 + 1000.0 * StampDuty;
    assert b.phcf * 1000.0 == PhcfRate * (b.base * 1000.0);
  }

  /** A non-negative rate and sum assured give non-negative charges and a total of at least the stamp duty. */
  lemma PremiumNonNegative(rate: real, sumAssured: int)
    requires rate >= 0.0 && sumAssured >= 0
    ensures PremiumFor(rate, sumAssured).base >= 0.0
    ensures PremiumFor(rate, sumAssured).phcf >= 0.0
    ensures PremiumFor(rate, sumAssured).stamp >= 0.0
    ensures PremiumFor(rate, sumAssured).total >= StampDuty
  {
    var b := PremiumFor(rate, sumAssured);
    assert rate * sumAssured as real >= 0.0;
  }

  /** For a non-negative rate, a larger sum assured never gives a smaller total. */
  lemma PremiumMonotoneInSumAssured(rate: real, sumAssured: int, sumAssured': int)
    requires rate >= 0.0 && sumAssured <= sumAssured'
    ensures PremiumFor(rate, sumAssured).total <= PremiumFor(rate, sumAssured').total
  {
    PremiumTotalClosedForm(rate, sumAssured);
    PremiumTotalClosedForm(rate, sumAssured');
    assert rate * sumAssured as real <= rate * sumAssured' as real;
  }

  /**
   The rows of the table whose age equals the requested one, in table order:
   the boolean-mask selection the calculator starts from.
   */
  function RowsWithAge(table: seq<RateRow>, age: int): (rows: seq<RateRow>)
    ensures |rows| <= |table|
    ensures forall r :: r in rows ==> r in table && r.age == age
    ensures forall i :: 0 <= i < |table| && table[i].age == age ==> table[i] in rows
  {
    if |table| == 0 then []
    else if table[0].age == age then [table[0]] + RowsWithAge(table[1..], age)
    else RowsWithAge(table[1..], age)
  }

  /** Row i is the first row of the table with the given age. */
  ghost predicate FirstMatchAt(table: seq<RateRow>, age: int, i: int) {
    && 0 <= i < |table|
    && table[i].age == age
    && forall j :: 0 <= j < i ==> table[j].age != age
  }

  predicate NoRowFor(table: seq<RateRow>, age: int) {
    forall i :: 0 <= i < |table| ==> table[i].age != age
  }

  /** The first selected row is the first row of the table with that age. */
  lemma {:induction false} FirstSelectedIsFirstMatch(table: seq<RateRow>, age: int)
    requires |RowsWithAge(table, age)| > 0
    ensures exists i :: FirstMatchAt(table, age, i) && RowsWithAge(table, age)[0] == table[i]
  {
    if table[0].age == age {
      assert FirstMatchAt(table, age, 0);
    } else {
      FirstSelectedIsFirstMatch(table[1..], age);
      var i :| FirstMatchAt(table[1..], age, i) && RowsWithAge(table[1..], age)[0] == table[1..][i];
      assert FirstMatchAt(table, age, i + 1);
    }
  }

  /** Selecting by an age that no row has selects nothing, and only then. */
  lemma RowsWithAgeEmpty(table: seq<RateRow>, age: int)
    ensures |RowsWithAge(table, age)| == 0 <==> NoRowFor(table, age)
  {
    if !NoRowFor(table, age) {
      var i :| 0 <= i < |table| && table[i].age == age;
      assert table[i] in RowsWithAge(table, age);
    }
  }

  /**
   The calculation. An age with no row yields no breakdown; otherwise the
   first row with exactly that age supplies the rate for the risk class, and
   the premium follows from it.
   */
  function CalculatePremium(table: seq<RateRow>, age: int, gender: Gender, smoker: SmokerStatus,
                            education: Education, sumAssured: int): (q: Quote)
    ensures q.Missing? <==> NoRowFor(table, age)
    ensures q.Found? ==>
      exists i :: FirstMatchAt(table, age, i)
        && q.breakdown == PremiumFor(SelectRate(table[i], gender, smoker, education), sumAssured)
  {
    var rows := RowsWithAge(table, age);
    RowsWithAgeEmpty(table, age);
    if |rows| == 0 then
      Missing
    else
      FirstSelectedIsFirstMatch(table, age);
      Found(PremiumFor(SelectRate(rows[0], gender, smoker, education), sumAssured))
  }

  /**
   The four figures the calculator hands back: zeros in place of a breakdown
   when the age has no row.
   */
  function Figures(q: Quote): (f: Breakdown)
    ensures q.Found? ==> f == q.breakdown
    ensures q.Missing? ==> f.base == 0.0 && f.phcf == 0.0 && f.stamp == 0.0 && f.total == 0.0
  {
    match q
    case Missing => Breakdown(0.0, 0.0, 0.0, 0.0)
    case Found(b) => b
  }

  /** The calculator as it returns: a zero tuple for an age without a row. */
  function CalculatePremiumFigures(table: seq<RateRow>, age: int, gender: Gender, smoker: SmokerStatus,
                                   education: Education, sumAssured: int): (f: Breakdown)
    ensures NoRowFor(table, age) ==> f == Breakdown(0.0, 0.0, 0.0, 0.0)
    ensures f.total == f.base + f.phcf + f.stamp
    ensures !NoRowFor(table, age) ==> f.stamp == StampDuty && f.phcf == PhcfRate * f.base
    ensures !NoRowFor(table, age) ==>
      exists i :: FirstMatchAt(table, age, i)
        && f == PremiumFor(SelectRate(table[i], gender, smoker, education), sumAssured)
  {
    Figures(CalculatePremium(table, age, gender, smoker, education, sumAssured))
  }

  /** When no row has the age, no rate column is read: the result depends on nothing else. */
  lemma MissingIgnoresSelection(table: seq<RateRow>, age: int,
                                gender: Gender, smoker: SmokerStatus, education: Education, sumAssured: int,
                                gender': Gender, smoker': SmokerStatus, education': Education, sumAssured': int)
    requires NoRowFor(table, age)
    ensures CalculatePremium(table, age, gender, smoker, education, sumAssured)
            == CalculatePremium(table, age, gender', smoker', education', sumAssured')
            == Missing
  {
  }

  /** When several rows share the age, the first one's rate is used, whatever follows it. */
  lemma {:induction false} FirstRowWins(table: seq<RateRow>, row: RateRow, rest: seq<RateRow>,
                                        gender: Gender, smoker: SmokerStatus, education: Education,
                                        sumAssured: int)
    requires NoRowFor(table, row.age)
    ensures CalculatePremium(table + [row] + rest, row.age, gender, smoker, education, sumAssured)
            == Found(PremiumFor(SelectRate(row, gender, smoker, education), sumAssured))
  {
    var t := table + [row] + rest;
    var q := CalculatePremium(t, row.age, gender, smoker, education, sumAssured);
    assert t[|table|] == row;
    assert !NoRowFor(t, row.age);
    var i :| FirstMatchAt(t, row.age, i)
             && q.breakdown == PremiumFor(SelectRate(t[i], gender, smoker, education), sumAssured);
    assert i == |table|;
  }

  /** Rows of other ages never change the outcome: there is no interpolation between ages. */
  lemma {:induction false} OtherAgesIrrelevant(table: seq<RateRow>, other: RateRow, age: int)
    requires other.age != age
    ensures RowsWithAge([other] + table, age) == RowsWithAge(table, age)
    ensures RowsWithAge(table + [other], age) == RowsWithAge(table, age)
  {
    assert ([other] + table)[1..] == table;
    if |table| > 0 {
      assert (table + [other])[1..] == table[1..] + [other];
      OtherAgesIrrelevant(table[1..], other, age);
    }
  }

  /** Adding a row of another age, before or after the table, leaves the premium unchanged. */
  lemma OtherAgesDoNotChangePremium(table: seq<RateRow>, other: RateRow, age: int, gender: Gender,
                                    smoker: SmokerStatus, education: Education, sumAssured: int)
    requires other.age != age
    ensures CalculatePremium([other] + table, age, gender, smoker, education, sumAssured)
            == CalculatePremium(table, age, gender, smoker, education, sumAssured)
    ensures CalculatePremium(table + [other], age, gender, smoker, education, sumAssured)
            == CalculatePremium(table, age, gender, smoker, education, sumAssured)
  {
    OtherAgesIrrelevant(table, other, age);
  }

  /** A found premium for a table of valid rates and a non-negative sum assured is non-negative and at least the stamp duty. */
  lemma FoundPremiumBounds(table: seq<RateRow>, age: int, gender: Gender, smoker: SmokerStatus,
                           education: Education, sumAssured: int)
    requires ValidTable(table) && sumAssured >= 0
    requires !NoRowFor(table, age)
    ensures var b := CalculatePremium(table, age, gender, smoker, education, sumAssured).breakdown;
            b.base >= 0.0 && b.phcf >= 0.0 && b.stamp == StampDuty && b.total >= StampDuty
  {
    var q := CalculatePremium(table, age, gender, smoker, education, sumAssured);
    var i :| FirstMatchAt(table, age, i)
             && q.breakdown == PremiumFor(SelectRate(table[i], gender, smoker, education), sumAssured);
    PremiumNonNegative(SelectRate(table[i], gender, smoker, education), sumAssured);
  }

  /**
   A worked example: age 30, a male non-smoker with tertiary education, and a
   sum assured of 1,000,000 at rate r give a base of 1000 r, a levy of 2.5 r and
   a stamp duty of 40.
   */
  lemma WorkedExample(r: real)
    ensures var row := RateRow(30, 0.0, 0.0, r, 0.0, 0.0, 0.0, 0.0, 0.0);
            var b := CalculatePremium([row], 30, Male, NonSmoker, Tertiary, 1000000).breakdown;
            && CalculatePremium([row], 30, Male, NonSmoker, Tertiary, 1000000).Found?
            && b.base == 1000.0 * r && b.phcf == 2.5 * r && b.stamp == 40.0
            && b.total == 1002.5 * r + 40.0
  {
    var row := RateRow(30, 0.0, 0.0, r, 0.0, 0.0, 0.0, 0.0, 0.0);
    FirstRowWins([], row, [], Male, NonSmoker, Tertiary, 1000000);
    assert [] + [row] + [] == [row];
  }
}
