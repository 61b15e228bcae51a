/** The session's calculation history: `registrar_calculo` appends one row
    per completed calculation and the "Limpar histórico" button empties it.
    The history is an explicit sequence passed in and returned. */
module History {
  import opened Wrappers
  import opened Calendar
  import opened Formatting

  /** The "Qtd dias" cell: a day count, or an empty string when the count is
      `None`. */
  datatype CountCell = Blank | Count(n: int)

  /** One history row, with the columns Tipo, Data inicial, Data final,
      Qtd dias and Resumo. */
  datatype Entry = Entry(
    tipo: string,
    dataInicial: string,
    dataFinal: string,
    qtdDias: CountCell,
    resumo: string)

  predicate ValidOption(d: Option<Date>) {
    d.Some? ==> d.value.Valid()
  }

  /** A date column: empty for `None`, otherwise `DD/MM/YYYY`. */
  function DateCell(d: Option<Date>): (s: string)
    requires ValidOption(d)
    ensures s == [] <==> d.None?
    ensures d.Some? ==> s == FormatDate(d.value)
  {
    match d
    case None => ""
    case Some(date) => FormatDate(date)
  }

  /** A date column determines the date it was written from. */
  lemma DateCellInjective(a: Option<Date>, b: Option<Date>)
    requires ValidOption(a) && ValidOption(b)
    ensures DateCell(a) == DateCell(b) <==> a == b
  {
    if a.Some? && b.Some? {
      FormatDateInjective(a.value, b.value);
    }
  }

  /** The count column: `qtd_dias if qtd_dias is not None else ""`, so a
      count of 0 is kept. */
  function CountCellOf(n: Option<int>): (c: CountCell)
    ensures c.Blank? <==> n.None?
    ensures n.Some? ==> c.n == n.value
  {
    match n
    case None => Blank
    case Some(k) => Count(k)
  }

  /** `registrar_calculo`: appends exactly one row built from the arguments
      and leaves every earlier row as it was. */
  function Register(
    historico: seq<Entry>,
    tipo: string,
    dataInicial: Option<Date>,
    dataFinal: Option<Date>,
    qtdDias: Option<int>,
    resumo: string): (r: seq<Entry>)
    requires ValidOption(dataInicial) && ValidOption(dataFinal)
    ensures |r| == |historico| + 1
    ensures r[..|historico|] == historico
    ensures r[|historico|].tipo == tipo && r[|historico|].resumo == resumo
    ensures r[|historico|].dataInicial == [] <==> dataInicial.None?
    ensures r[|historico|].dataFinal == [] <==> dataFinal.None?
    ensures dataInicial.Some? ==> r[|historico|].dataInicial == FormatDate(dataInicial.value)
    ensures dataFinal.Some? ==> r[|historico|].dataFinal == FormatDate(dataFinal.value)
    ensures r[|historico|].qtdDias.Blank? <==> qtdDias.None?
    ensures qtdDias.Some? ==> r[|historico|].qtdDias == Count(qtdDias.value)
  {
    historico + [Entry(tipo, DateCell(dataInicial), DateCell(dataFinal), CountCellOf(qtdDias), resumo)]
  }

  /** The "Limpar histórico" button: the history becomes empty whatever it
      held. */
  function Clear(historico: seq<Entry>): (r: seq<Entry>)
    ensures |r| == 0
  {
    []
  }

  /** Clearing twice is clearing once. */
  lemma ClearIdempotent(historico: seq<Entry>)
    ensures Clear(Clear(historico)) == Clear(historico)
  {
  }

  /** A clear forgets the row a registration has just added, along with all
      the earlier ones. */
  lemma RegisterThenClear(
    historico: seq<Entry>,
    tipo: string,
    dataInicial: Option<Date>,
    dataFinal: Option<Date>,
    qtdDias: Option<int>,
    resumo: string)
    requires ValidOption(dataInicial) && ValidOption(dataFinal)
    ensures Clear(Register(historico, tipo, dataInicial, dataFinal, qtdDias, resumo)) == []
  {
  }
}
