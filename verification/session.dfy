/**
 The two-page session of the rater: a client form and a quotation page, the
 values the session keeps between them, and the figures each page shows.
 */
module Session {
  import opened Rating
  import opened Premium

  datatype Page = Form | Quotation

  /** The value the session keeps under its page key. */
  function PageKey(p: Page): string {
    match p
    case Form => "form"
    case Quotation => "quotation"
  }

  /** The client details entered on the form. */
  datatype ClientInputs = ClientInputs(
    clientName: string,
    age: int,
    gender: Gender,
    smoker: SmokerStatus,
    education: Education,
    sumAssured: int)

  /** The presenter details entered on the form; each may be left empty. */
  datatype PresenterInputs = PresenterInputs(name: string, channel: string, code: string)

  /** What a quotation request stores: the client details and the four figures calculated from them. */
  datatype Stored = Stored(inputs: ClientInputs, figures: Breakdown)

  datatype State = State(page: Page, stored: Option<Stored>, presenter: PresenterInputs)

  /** The two buttons that move between the pages. */
  datatype Event =
    | GenerateQuotation(inputs: ClientInputs, presenter: PresenterInputs)
    | GoBack

  /** A fresh session opens on the form with nothing stored. */
  function Initial(): (s: State)
    ensures s.page == Form && PageKey(s.page) == "form"
    ensures s.stored.None?
    ensures s.presenter.name == "" && s.presenter.channel == "" && s.presenter.code == ""
  {
    State(Form, None, PresenterInputs("", "", ""))
  }

  /** The four figures the calculator returns for the entered client details. */
  function FiguresFor(table: seq<RateRow>, inputs: ClientInputs): Breakdown {
    CalculatePremiumFigures(table, inputs.age, inputs.gender, inputs.smoker, inputs.education, inputs.sumAssured)
  }

  /**
   One button press. Generate Quotation exists only on the form: it stores the
   client details and exactly the four figures the calculator returns, keeps
   the presenter details, and moves to the quotation page. Go Back exists only
   on the quotation page: it changes the page and nothing else.
   */
  function Step(table: seq<RateRow>, s: State, ev: Event): (t: State)
    ensures ev.GenerateQuotation? && s.page == Form ==>
      && t.page == Quotation
      && t.stored.Some?
      && t.stored.value.inputs == ev.inputs
      && t.stored.value.figures == FiguresFor(table, ev.inputs)
      && t.presenter == ev.presenter
    ensures ev.GoBack? && s.page == Quotation ==>
      t.page == Form && t.stored == s.stored && t.presenter == s.presenter
    ensures (ev.GenerateQuotation? && s.page != Form) || (ev.GoBack? && s.page != Quotation) ==>
      t == s
  {
    match ev
    case GenerateQuotation(inputs, presenter) =>
      if s.page == Form then
        State(Quotation, Some(Stored(inputs, FiguresFor(table, inputs))), presenter)
      else
        s
    case GoBack =>
      if s.page == Quotation then s.(page := Form) else s
  }

  /** The session after a sequence of button presses. */
  function Run(table: seq<RateRow>, evs: seq<Event>): State {
    if |evs| == 0 then Initial()
    else Step(table, Run(table, evs[..|evs| - 1]), evs[|evs| - 1])
  }

  /**
   The session invariant: the quotation page always has stored values, and
   the stored figures are those the calculator gives for the stored details.
   */
  ghost predicate Consistent(table: seq<RateRow>, s: State) {
    && (s.page == Quotation ==> s.stored.Some?)
    && (s.stored.Some? ==> s.stored.value.figures == FiguresFor(table, s.stored.value.inputs))
  }

  lemma StepPreservesConsistent(table: seq<RateRow>, s: State, ev: Event)
    requires Consistent(table, s)
    ensures Consistent(table, Step(table, s, ev))
  {
  }

  /** Every session reached from a fresh one by button presses is consistent. */
  lemma {:induction false} RunConsistent(table: seq<RateRow>, evs: seq<Event>)
    ensures Consistent(table, Run(table, evs))
  {
    if |evs| > 0 {
      RunConsistent(table, evs[..|evs| - 1]);
      StepPreservesConsistent(table, Run(table, evs[..|evs| - 1]), evs[|evs| - 1]);
    }
  }

  /** Asking for a quotation and going back returns to the form with everything stored kept. */
  lemma GenerateThenGoBack(table: seq<RateRow>, s: State, inputs: ClientInputs, presenter: PresenterInputs)
    requires s.page == Form
    ensures Step(table, Step(table, s, GenerateQuotation(inputs, presenter)), GoBack)
            == State(Form, Some(Stored(inputs, FiguresFor(table, inputs))), presenter)
  {
  }

  /** Going back and asking again with the same details lands on the same quotation page. */
  lemma GoBackThenRegenerate(table: seq<RateRow>, s: State)
    requires s.page == Quotation && s.stored.Some?
    ensures var again := GenerateQuotation(s.stored.value.inputs, s.presenter);
            Consistent(table, s) ==> Step(table, Step(table, s, GoBack), again) == s
  {
  }

  // ---------------------------------------------------------------------------
  // What the pages show
  // ---------------------------------------------------------------------------

  /** The blank line shown for a presenter detail left empty. */
  const Blank: string := "__________________"

  /** A presenter detail as the quotation page shows it. */
  function ShowPresenterField(v: string): (shown: string)
    ensures |shown| > 0
    ensures v != "" ==> shown == v
    ensures v == "" ==> shown == Blank && |shown| == 18
  {
    if v != "" then v else Blank
  }

  /** Showing an already shown detail changes nothing. */
  lemma ShowPresenterFieldIdempotent(v: string)
    ensures ShowPresenterField(ShowPresenterField(v)) == ShowPresenterField(v)
  {
  }

  /** The presenter section of the quotation page: name, channel and code. */
  function ShowPresenter(p: PresenterInputs): (shown: PresenterInputs)
    ensures shown.name == (if p.name == "" then Blank else p.name)
    ensures shown.channel == (if p.channel == "" then Blank else p.channel)
    ensures shown.code == (if p.code == "" then Blank else p.code)
  {
    PresenterInputs(ShowPresenterField(p.name), ShowPresenterField(p.channel), ShowPresenterField(p.code))
  }

  /**
   The figures the quotation page shows. Base, levy and total are read from
   the session with zero defaults; the stamp duty line is the constant 40.
   */
  function ScreenFigures(s: State): (f: Breakdown)
    ensures f.stamp == StampDuty
    ensures s.stored.Some? ==>
      && f.base == s.stored.value.figures.base
      && f.phcf == s.stored.value.figures.phcf
      && f.total == s.stored.value.figures.total
    ensures s.stored.None? ==> f.base == 0.0 && f.phcf == 0.0 && f.total == 0.0
  {
    match s.stored
    case None => Breakdown(0.0, 0.0, 40.0, 0.0)
    case Some(st) => Breakdown(st.figures.base, st.figures.phcf, 40.0, st.figures.total)
  }

  /**
   The figures the downloadable document prints, all read from the session;
   the stamp duty defaults to 40 when nothing is stored.
   */
  function DocumentFigures(s: State): (f: Breakdown)
    ensures s.stored.Some? ==> f == s.stored.value.figures
    ensures s.stored.None? ==> f == Breakdown(0.0, 0.0, StampDuty, 0.0)
  {
    match s.stored
    case None => Breakdown(0.0, 0.0, 40.0, 0.0)
    case Some(st) => st.figures
  }

  /** The stamp duty kept in the session, 40 when nothing is stored. */
  function StoredStamp(s: State): real {
    match s.stored
    case None => 40.0
    case Some(st) => st.figures.stamp
  }

  /** The page's figures with the stamp duty line read from the session, as the document reads it. */
  function ScreenFiguresCorrected(s: State): (f: Breakdown)
    ensures f.base == ScreenFigures(s).base && f.phcf == ScreenFigures(s).phcf
    ensures f.total == ScreenFigures(s).total
    ensures s.stored.Some? ==> f.stamp == s.stored.value.figures.stamp
    ensures s.stored.None? ==> f.stamp == StampDuty
  {
    ScreenFigures(s).(stamp := StoredStamp(s))
  }

  /**
   As written, the page and the document agree exactly when nothing is stored
   or the stored stamp duty is 40; in a consistent session, exactly when the
   stored age has a row.
   */
  lemma ScreenMatchesDocumentIff(table: seq<RateRow>, s: State)
    requires Consistent(table, s)
    ensures ScreenFigures(s) == DocumentFigures(s)
            <==> (s.stored.None? || !NoRowFor(table, s.stored.value.inputs.age))
  {
  }

  /**
   Any client whose age has no row: after Generate Quotation the page shows a
   stamp duty of 40 next to a total of 0, while the document prints a stamp
   duty of 0, so the page's three charges do not add up to its total.
   */
  lemma ScreenDisagreesForMissingAge(table: seq<RateRow>, s: State, inputs: ClientInputs,
                                     presenter: PresenterInputs)
    requires s.page == Form && NoRowFor(table, inputs.age)
    ensures var t := Step(table, s, GenerateQuotation(inputs, presenter));
            && t.page == Quotation
            && ScreenFigures(t).stamp == StampDuty
            && ScreenFigures(t).total == 0.0
            && DocumentFigures(t).stamp == 0.0
            && ScreenFigures(t).base + ScreenFigures(t).phcf + ScreenFigures(t).stamp
               != ScreenFigures(t).total
  {
  }

  /** The corrected page shows what the document prints, in every session. */
  lemma ScreenCorrectedMatchesDocument(s: State)
    ensures ScreenFiguresCorrected(s) == DocumentFigures(s)
  {
  }

  /** On every reachable quotation page the corrected figures add up to the total shown. */
  lemma {:induction false} ScreenCorrectedAddsUp(table: seq<RateRow>, evs: seq<Event>)
    requires Run(table, evs).page == Quotation
    ensures var f := ScreenFiguresCorrected(Run(table, evs));
            f.base + f.phcf + f.stamp == f.total
  {
    RunConsistent(table, evs);
  }

  /** On every reachable quotation page the figures shown are those the calculator gives for the stored details. */
  lemma {:induction false} ScreenShowsCalculatedFigures(table: seq<RateRow>, evs: seq<Event>)
    requires Run(table, evs).page == Quotation
    ensures Run(table, evs).stored.Some?
    ensures ScreenFiguresCorrected(Run(table, evs)) == FiguresFor(table, Run(table, evs).stored.value.inputs)
  {
    RunConsistent(table, evs);
  }
}
