/** The three calculations of the page and the session state they update:
    option 1 counts the days from one date to another, both ends included;
    option 2 adds a day count to a start date; option 3 subtracts a day count
    from an end date. Every completed calculation becomes the last result,
    is offered for copying and is appended to the history. */
module Calculator {
  import opened Wrappers
  import opened Calendar
  import opened Decimal
  import opened Formatting
  import opened Escaping
  import opened History

  /** The option chosen on the radio button, with the inputs its form asks
      for. Day counts come from a number input with `min_value=0`. */
  datatype Request =
    | DateToDate(inicial: Date, final: Date)
    | EndFromStart(inicial: Date, dias: nat)
    | StartFromEnd(final: Date, dias: nat)

  /** The one refusal: option 1 with the end date before the start date. */
  datatype RangeError = FinalBeforeInitial

  /** A completed calculation: both dates, the day count, the multi-line
      summary, what the copy button carries, and the type and short summary
      passed to `registrar_calculo`. */
  datatype Calculation = Calculation(
    inicial: Date,
    final: Date,
    dias: nat,
    texto: string,
    copia: Option<string>,
    tipo: string,
    resumo: string)

  /** The session state the page keeps between runs. */
  datatype Session = Session(historico: seq<Entry>, ultimoResultado: string)

  /** A fresh session: empty history and no last result. */
  const Initial: Session := Session([], "")

  /** Inputs a widget can produce and Python can compute with: valid dates,
      and for options 2 and 3 a result inside Python's date range. */
  predicate Admissible(req: Request) {
    match req
    case DateToDate(ini, fim) => ini.Valid() && fim.Valid()
    case EndFromStart(ini, n) => ini.Valid() && AddInRange(ini, n)
    case StartFromEnd(fim, n) => fim.Valid() && SubtractInRange(fim, n)
  }

  // ---------------------------------------------------------------------
  // The three computations
  // ---------------------------------------------------------------------

  /** Option 1: refused when the end date precedes the start date;
      otherwise `(data_final - data_inicial).days + 1`, counting both ends. */
  function InclusiveCount(inicial: Date, final: Date): (r: Result<nat, RangeError>)
    requires inicial.Valid() && final.Valid()
    ensures r.Err? <==> Before(final, inicial)
    ensures r.Ok? ==> r.value >= 1
    ensures r.Ok? ==> AddInRange(inicial, r.value - 1) && AddDays(inicial, r.value - 1) == final
  {
    if Before(final, inicial) then Err(FinalBeforeInitial)
    else Ok(DaysBetween(final, inicial) + 1)
  }

  /** Option 2: `data_inicial + timedelta(days=qtd_dias)`. */
  function EndDate(inicial: Date, dias: nat): (r: Date)
    requires inicial.Valid() && AddInRange(inicial, dias)
    ensures r.Valid()
    ensures !Before(r, inicial)
    ensures DaysBetween(r, inicial) == dias
  {
    AddMonotone(inicial, dias);
    AddDays(inicial, dias)
  }

  /** Option 3: `data_final - timedelta(days=qtd_dias)`. */
  function StartDate(final: Date, dias: nat): (r: Date)
    requires final.Valid() && SubtractInRange(final, dias)
    ensures r.Valid()
    ensures !Before(final, r)
    ensures AddInRange(r, dias) && AddDays(r, dias) == final
  {
    var r := SubtractDays(final, dias);
    SubtractAddInverse(final, dias);
    BeforeIffOrdinalLess(final, r);
    r
  }

  // ---------------------------------------------------------------------
  // Texts
  // ---------------------------------------------------------------------

  /** One `Label: value` line of a summary. */
  function Line(name: string, value: string): string {
    name + ": " + value
  }

  lemma LineSingle(name: string, value: string)
    requires SingleLine(name) && SingleLine(value)
    ensures SingleLine(Line(name, value))
  {
  }

  /** Lines joined by newlines, as the f-strings of the summaries join them. */
  function JoinLines(lines: seq<string>): (s: string)
    ensures (forall i :: 0 <= i < |lines| ==> '\r' !in lines[i]) ==> '\r' !in s
  {
    if |lines| == 0 then ""
    else if |lines| == 1 then lines[0]
    else lines[0] + "\n" + JoinLines(lines[1..])
  }

  /** A text cut at every newline, as `str.split("\n")` cuts it: the pieces
      hold no newline, and there is always at least one piece. */
  function SplitLines(s: string): (r: seq<string>)
    ensures |r| >= 1
    ensures forall i :: 0 <= i < |r| ==> '\n' !in r[i]
    decreases |s|
  {
    if |s| == 0 then [""]
    else
      var rest := SplitLines(s[1..]);
      if s[0] == '\n' then [""] + rest
      else [[s[0]] + rest[0]] + rest[1..]
  }

  /** Text without newline before the first cut joins the first piece. */
  lemma {:induction false} SplitPrefix(a: string, t: string)
    requires '\n' !in a
    ensures SplitLines(a + t) == [a + SplitLines(t)[0]] + SplitLines(t)[1..]
    decreases |a|
  {
    if a == [] {
      var st := SplitLines(t);
      assert a + t == t && a + st[0] == st[0];
      assert [st[0]] + st[1..] == st;
    } else {
      var u := a[1..];
      assert (a + t)[0] == a[0];
      assert (a + t)[1..] == u + t;
      SplitPrefix(u, t);
      var st := SplitLines(t);
      assert [a[0]] + (u + st[0]) == a + st[0];
    }
  }

  /** Splitting undoes joining, for at least one line and no newline inside
      a line. */
  lemma {:induction false} SplitJoin(lines: seq<string>)
    requires |lines| >= 1
    requires forall i :: 0 <= i < |lines| ==> '\n' !in lines[i]
    ensures SplitLines(JoinLines(lines)) == lines
    decreases |lines|
  {
    if |lines| == 1 {
      SplitPrefix(lines[0], "");
      assert lines[0] + "" == lines[0];
    } else {
      var j := JoinLines(lines[1..]);
      assert JoinLines(lines) == lines[0] + ("\n" + j);
      SplitPrefix(lines[0], "\n" + j);
      assert ("\n" + j)[1..] == j;
      var sj := SplitLines("\n" + j);
      assert sj == [""] + SplitLines(j);
      assert sj[0] == "" && sj[1..] == SplitLines(j);
      assert lines[0] + sj[0] == lines[0];
      SplitJoin(lines[1..]);
      assert lines == [lines[0]] + lines[1..];
    }
  }

  /** A line in front of one or more lines is joined with a newline. */
  lemma JoinCons(x: string, lines: seq<string>)
    requires |lines| >= 1
    ensures JoinLines([x] + lines) == x + "\n" + JoinLines(lines)
  {
    assert ([x] + lines)[1..] == lines;
  }

  /** A character put in front of the first line goes in front of the
      joined text. */
  lemma JoinPrepend(c: char, lines: seq<string>)
    requires |lines| >= 1
    ensures JoinLines([[c] + lines[0]] + lines[1..]) == [c] + JoinLines(lines)
  {
    if |lines| == 1 {
      var first := [c] + lines[0];
      assert [first] + lines[1..] == [first];
    } else {
      JoinPrependMany(c, lines);
    }
  }

  lemma JoinPrependMany(c: char, lines: seq<string>)
    requires |lines| > 1
    ensures JoinLines([[c] + lines[0]] + lines[1..]) == [c] + JoinLines(lines)
  {
    var first := [c] + lines[0];
    var tail := lines[1..];
    JoinCons(first, tail);
    assert lines == [lines[0]] + tail;
    JoinCons(lines[0], tail);
    PrependAssoc(c, lines[0], "\n");
    PrependAssoc(c, lines[0] + "\n", JoinLines(tail));
  }

  lemma PrependAssoc(c: char, a: string, b: string)
    ensures ([c] + a) + b == [c] + (a + b)
  {
  }

  /** Joining undoes splitting, for every text. */
  lemma {:induction false} JoinSplit(s: string)
    ensures JoinLines(SplitLines(s)) == s
    decreases |s|
  {
    if |s| > 0 {
      var rest := SplitLines(s[1..]);
      JoinSplit(s[1..]);
      if s[0] == '\n' {
        JoinCons("", rest);
        assert s == "\n" + s[1..];
      } else {
        JoinPrepend(s[0], rest);
        assert s == [s[0]] + s[1..];
      }
    }
  }

  /** A four-line summary: it holds no carriage return and splits back into
      its four lines. */
  function Summary(a: string, b: string, c: string, d: string): (s: string)
    requires SingleLine(a) && SingleLine(b) && SingleLine(c) && SingleLine(d)
    ensures '\r' !in s
    ensures SplitLines(s) == [a, b, c, d]
  {
    var lines := [a, b, c, d];
    assert forall i :: 0 <= i < |lines| ==> SingleLine(lines[i]);
    SplitJoin(lines);
    JoinLines(lines)
  }

  /** The fixed texts of option 1's summary are single lines. */
  lemma DifferenceKindSingle()
    ensures SingleLine("Diferença entre datas (de data a data)")
  {
  }

  lemma DifferenceCountSingle()
    ensures SingleLine("Total de dias (incluindo as duas datas)")
  {
  }

  /** `resultado_texto` of option 1: the calculation, both dates with their
      weekdays, and the inclusive count. */
  function DifferenceText(inicial: Date, final: Date, diferenca: nat): (s: string)
    requires inicial.Valid() && final.Valid()
    ensures '\r' !in s
    ensures SplitLines(s) == [
      Line("Cálculo", "Diferença entre datas (de data a data)"),
      Line("Data inicial", FormatWithWeekday(inicial)),
      Line("Data final", FormatWithWeekday(final)),
      Line("Total de dias (incluindo as duas datas)", NatToString(diferenca))]
  {
    DigitsSingleLine(NatToString(diferenca));
    DifferenceKindSingle();
    DifferenceCountSingle();
    LineSingle("Cálculo", "Diferença entre datas (de data a data)");
    LineSingle("Data inicial", FormatWithWeekday(inicial));
    LineSingle("Data final", FormatWithWeekday(final));
    LineSingle("Total de dias (incluindo as duas datas)", NatToString(diferenca));
    Summary(
      Line("Cálculo", "Diferença entre datas (de data a data)"),
      Line("Data inicial", FormatWithWeekday(inicial)),
      Line("Data final", FormatWithWeekday(final)),
      Line("Total de dias (incluindo as duas datas)", NatToString(diferenca)))
  }

  /** `resultado_texto` of option 2: the calculation, the start date, the
      days added and the end date. */
  function EndDateText(inicial: Date, dias: nat, final: Date): (s: string)
    requires inicial.Valid() && final.Valid()
    ensures '\r' !in s
    ensures SplitLines(s) == [
      Line("Cálculo", "Data final (data inicial + dias)"),
      Line("Data inicial", FormatWithWeekday(inicial)),
      Line("Dias adicionados", NatToString(dias)),
      Line("Data final", FormatWithWeekday(final))]
  {
    DigitsSingleLine(NatToString(dias));
    LineSingle("Cálculo", "Data final (data inicial + dias)");
    LineSingle("Data inicial", FormatWithWeekday(inicial));
    LineSingle("Dias adicionados", NatToString(dias));
    LineSingle("Data final", FormatWithWeekday(final));
    Summary(
      Line("Cálculo", "Data final (data inicial + dias)"),
      Line("Data inicial", FormatWithWeekday(inicial)),
      Line("Dias adicionados", NatToString(dias)),
      Line("Data final", FormatWithWeekday(final)))
  }

  /** `resultado_texto` of option 3: the calculation, the end date, the days
      subtracted and the start date. */
  function StartDateText(final: Date, dias: nat, inicial: Date): (s: string)
    requires inicial.Valid() && final.Valid()
    ensures '\r' !in s
    ensures SplitLines(s) == [
      Line("Cálculo", "Data inicial (data final - dias)"),
      Line("Data final", FormatWithWeekday(final)),
      Line("Dias subtraídos", NatToString(dias)),
      Line("Data inicial", FormatWithWeekday(inicial))]
  {
    DigitsSingleLine(NatToString(dias));
    LineSingle("Cálculo", "Data inicial (data final - dias)");
    LineSingle("Data final", FormatWithWeekday(final));
    LineSingle("Dias subtraídos", NatToString(dias));
    LineSingle("Data inicial", FormatWithWeekday(inicial));
    Summary(
      Line("Cálculo", "Data inicial (data final - dias)"),
      Line("Data final", FormatWithWeekday(final)),
      Line("Dias subtraídos", NatToString(dias)),
      Line("Data inicial", FormatWithWeekday(inicial)))
  }

  // ---------------------------------------------------------------------
  // One run of the page
  // ---------------------------------------------------------------------

  /** What every completed calculation satisfies: the copy button carries
      the summary, escaped so that a template literal reads it back as the
      summary itself. */
  predicate CompletedWell(c: Calculation) {
    && c.copia.Some?
    && WellEscaped(c.copia.value)
    && Unescape(c.copia.value) == c.texto
  }

  function Completed(inicial: Date, final: Date, dias: nat, texto: string, tipo: string, resumo: string): (c: Calculation)
    requires inicial.Valid() && final.Valid() && texto != [] && '\r' !in texto
    ensures c.inicial == inicial && c.final == final && c.dias == dias && c.texto == texto
    ensures CompletedWell(c)
  {
    Calculation(inicial, final, dias, texto, CopyPayload(texto), tipo, resumo)
  }

  /** The type each option writes to the history. */
  const DifferenceType: string := "Diferença entre datas (de data a data)"
  const EndType: string := "Data final (inicial + dias)"
  const StartType: string := "Data inicial (final - dias)"

  /** What option 1 completes with, for start `ini` and end `fim`: both
      dates kept, the inclusive count, the summary of those values, and the
      history row's type and `N dia(s) de data a data` summary. */
  predicate DifferenceOutcome(ini: Date, fim: Date, c: Calculation)
    requires ini.Valid() && fim.Valid()
  {
    && c.inicial == ini && c.final == fim
    && c.dias >= 1 && DaysBetween(fim, ini) == c.dias - 1
    && c.texto == DifferenceText(ini, fim, c.dias)
    && c.tipo == DifferenceType
    && c.resumo == NatToString(c.dias) + " dia(s) de data a data"
  }

  /** What option 2 completes with, for start `ini` and `n` days: start and
      count kept, the end `n` days later, the summary of those values, and
      the history row's type and `Final: DD/MM/YYYY` summary. */
  predicate EndOutcome(ini: Date, n: nat, c: Calculation)
    requires ini.Valid()
  {
    && c.inicial == ini && c.dias == n && c.final.Valid()
    && DaysBetween(c.final, ini) == n
    && c.texto == EndDateText(ini, n, c.final)
    && c.tipo == EndType
    && c.resumo == "Final: " + FormatDate(c.final)
  }

  /** What option 3 completes with, for end `fim` and `n` days: end and count
      kept, a start that `n` days bring back to the end, the summary of those
      values, and the history row's type and `Inicial: DD/MM/YYYY` summary. */
  predicate StartOutcome(fim: Date, n: nat, c: Calculation)
    requires fim.Valid()
  {
    && c.final == fim && c.dias == n && c.inicial.Valid()
    && AddInRange(c.inicial, n) && AddDays(c.inicial, n) == fim
    && c.texto == StartDateText(fim, n, c.inicial)
    && c.tipo == StartType
    && c.resumo == "Inicial: " + FormatDate(c.inicial)
  }

  /** What the option a request chooses completes with, for its inputs. */
  predicate Outcome(req: Request, c: Calculation)
    requires Admissible(req)
  {
    match req
    case DateToDate(ini, fim) => DifferenceOutcome(ini, fim, c)
    case EndFromStart(ini, n) => EndOutcome(ini, n, c)
    case StartFromEnd(fim, n) => StartOutcome(fim, n, c)
  }

  /** Option 1 run to completion; refused when the end date comes first. */
  function DifferenceCalculation(inicial: Date, final: Date): (r: Result<Calculation, RangeError>)
    requires inicial.Valid() && final.Valid()
    ensures r.Err? <==> Before(final, inicial)
    ensures r.Ok? ==> DifferenceOutcome(inicial, final, r.value) && CompletedWell(r.value)
  {
    match InclusiveCount(inicial, final)
    case Err(e) => Err(e)
    case Ok(diferenca) =>
      Ok(Completed(inicial, final, diferenca, DifferenceText(inicial, final, diferenca),
                   DifferenceType,
                   NatToString(diferenca) + " dia(s) de data a data"))
  }

  /** Option 2 run to completion. */
  function EndCalculation(inicial: Date, dias: nat): (c: Calculation)
    requires inicial.Valid() && AddInRange(inicial, dias)
    ensures EndOutcome(inicial, dias, c) && CompletedWell(c)
    ensures !Before(c.final, inicial)
  {
    var final := EndDate(inicial, dias);
    Completed(inicial, final, dias, EndDateText(inicial, dias, final),
              EndType, "Final: " + FormatDate(final))
  }

  /** Option 3 run to completion. */
  function StartCalculation(final: Date, dias: nat): (c: Calculation)
    requires final.Valid() && SubtractInRange(final, dias)
    ensures StartOutcome(final, dias, c) && CompletedWell(c)
    ensures !Before(final, c.inicial)
  {
    var inicial := StartDate(final, dias);
    Completed(inicial, final, dias, StartDateText(final, dias, inicial),
              StartType, "Inicial: " + FormatDate(inicial))
  }

  /** The option chosen on the radio button, dispatched on the request's
      tag; only option 1 can be refused, and every completed calculation
      runs forwards in time and is the outcome of the option requested. */
  function Calculate(req: Request): (r: Result<Calculation, RangeError>)
    requires Admissible(req)
    ensures r.Err? <==> req.DateToDate? && Before(req.final, req.inicial)
    ensures r.Ok? ==> r.value.inicial.Valid() && r.value.final.Valid()
    ensures r.Ok? ==> !Before(r.value.final, r.value.inicial) && CompletedWell(r.value)
    ensures r.Ok? ==> Outcome(req, r.value)
  {
    match req
    case DateToDate(ini, fim) => DifferenceCalculation(ini, fim)
    case EndFromStart(ini, n) => Ok(EndCalculation(ini, n))
    case StartFromEnd(fim, n) => Ok(StartCalculation(fim, n))
  }

  /** A history row written from a calculation: its type, both dates as
      `DD/MM/YYYY`, its day count and its short summary. */
  predicate Records(e: Entry, c: Calculation)
    requires c.inicial.Valid() && c.final.Valid()
  {
    && e.tipo == c.tipo
    && e.dataInicial == FormatDate(c.inicial)
    && e.dataFinal == FormatDate(c.final)
    && e.qtdDias == Count(c.dias)
    && e.resumo == c.resumo
  }

  /** A run of the page with a request: a refused request leaves the session
      as it was; a completed one becomes the last result and
      `registrar_calculo` adds exactly one row after the existing ones, with
      the calculation's type, both dates as `DD/MM/YYYY`, the day count and
      the short summary. */
  function Submit(s: Session, req: Request): (r: Session)
    requires Admissible(req)
    ensures Calculate(req).Err? ==> r == s
    ensures Calculate(req).Ok? ==>
              var c := Calculate(req).value;
              && |r.historico| == |s.historico| + 1
              && r.historico[..|s.historico|] == s.historico
              && Records(r.historico[|s.historico|], c)
              && r.ultimoResultado == c.texto
  {
    var outcome := Calculate(req);
    if outcome.Err? then s
    else
      var c := outcome.value;
      Session(Register(s.historico, c.tipo, Some(c.inicial), Some(c.final), Some(c.dias), c.resumo), c.texto)
  }

  /** The first run in a fresh session leaves one history row exactly when
      the calculation completes, and leaves the session fresh otherwise. */
  lemma FirstRun(req: Request)
    requires Admissible(req)
    ensures Calculate(req).Ok? <==> |Submit(Initial, req).historico| == 1
    ensures Calculate(req).Err? ==> Submit(Initial, req) == Initial
  {
  }

  /** The "Limpar histórico" button: empties the history and keeps the last
      result. */
  function ClearHistory(s: Session): (r: Session)
    ensures r.historico == [] && r.ultimoResultado == s.ultimoResultado
  {
    s.(historico := Clear(s.historico))
  }

  // ---------------------------------------------------------------------
  // Laws relating the options
  // ---------------------------------------------------------------------

  /** The same date as start and end counts one day. */
  lemma SameDayCountsOne(d: Date)
    requires d.Valid()
    ensures InclusiveCount(d, d) == Ok(1)
  {
  }

  /** Option 3 undoes option 2 and option 2 undoes option 3. */
  lemma StartUndoesEnd(d: Date, n: nat)
    requires d.Valid() && AddInRange(d, n)
    ensures SubtractInRange(EndDate(d, n), n) && StartDate(EndDate(d, n), n) == d
  {
    AddSubtractInverse(d, n);
  }

  lemma EndUndoesStart(d: Date, n: nat)
    requires d.Valid() && SubtractInRange(d, n)
    ensures AddInRange(StartDate(d, n), n) && EndDate(StartDate(d, n), n) == d
  {
  }

  /** Counting from a start date to the end date option 2 computes for n
      days gives n + 1, since option 1 counts both ends. */
  lemma CountOfEndDate(d: Date, n: nat)
    requires d.Valid() && AddInRange(d, n)
    ensures InclusiveCount(d, EndDate(d, n)) == Ok(n + 1)
  {
  }

  /** The page's default dates lie nine days apart. */
  lemma DefaultDatesNineDaysApart()
    ensures Date(2025, 1, 1).Valid() && Date(2025, 1, 10).Valid()
    ensures ToOrdinal(Date(2025, 1, 10)) == ToOrdinal(Date(2025, 1, 1)) + 9
  {
  }

  /** Option 1 with its default inputs: 01/01/2025 to 10/01/2025 counts 10
      days, the example given in the page's caption. */
  lemma DefaultDifference()
    ensures Date(2025, 1, 1).Valid() && Date(2025, 1, 10).Valid()
    ensures InclusiveCount(Date(2025, 1, 1), Date(2025, 1, 10)) == Ok(10)
  {
    DefaultDatesNineDaysApart();
  }

  /** Option 2 with its default inputs: 01/01/2025 plus 9 days is
      10/01/2025. */
  lemma DefaultEndDate()
    ensures Date(2025, 1, 1).Valid() && AddInRange(Date(2025, 1, 1), 9)
    ensures EndDate(Date(2025, 1, 1), 9) == Date(2025, 1, 10)
  {
    DefaultDatesNineDaysApart();
    OrdinalInjective(AddDays(Date(2025, 1, 1), 9), Date(2025, 1, 10));
  }

  /** Option 3 with its default inputs: 10/01/2025 minus 9 days is
      01/01/2025. */
  lemma DefaultStartDate()
    ensures Date(2025, 1, 10).Valid() && SubtractInRange(Date(2025, 1, 10), 9)
    ensures StartDate(Date(2025, 1, 10), 9) == Date(2025, 1, 1)
  {
    DefaultDatesNineDaysApart();
    OrdinalInjective(SubtractDays(Date(2025, 1, 10), 9), Date(2025, 1, 1));
  }

  /** A refused request changes nothing in the session. */
  lemma RefusalKeepsSession(s: Session, ini: Date, fim: Date)
    requires ini.Valid() && fim.Valid() && Before(fim, ini)
    ensures Submit(s, DateToDate(ini, fim)) == s
  {
  }

  /** Clearing the history twice is clearing it once. */
  lemma ClearHistoryIdempotent(s: Session)
    ensures ClearHistory(ClearHistory(s)) == ClearHistory(s)
  {
  }
}
