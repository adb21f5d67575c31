/**
 * RelatorioController: the stock-position report with its status rule, the three
 * dashboard indicators (critical stock, most searched terms, withdrawal demand by
 * day) and the demand report per medication.
 *
 * `windowStart` is the instant of CURDATE() - INTERVAL 30 DAY (midnight thirty days
 * before today), `dayOf` is DATE() of an instant, and `asInstant` is how the database
 * reads a date parameter compared against a DATETIME column: the midnight starting
 * that date.
 */
module Reports {
  import opened Options
  import opened Text
  import opened Relational
  import opened Ledger
  import opened Stock

  datatype StockStatus = Expired | Critical | Low | Fine

  function StatusLabel(s: StockStatus): string {
    match s
    case Expired => "Vencido"
    case Critical => "Crítico"
    case Low => "Baixo"
    case Fine => "OK"
  }

  const CriticalBelow := 20
  const LowBelow := 50

  /** The expiry is a date strictly before today (isBefore); a NULL expiry never is. */
  predicate ExpiredOn(expiry: Option<int>, today: int) {
    expiry.Some? && expiry.value < today
  }

  /** The status rule of getRelatorioEstoque; every row gets exactly one of the four. */
  function StatusOf(quantity: int, expiry: Option<int>, today: int): (s: StockStatus)
    ensures s.Expired? <==> ExpiredOn(expiry, today)
    ensures s.Critical? <==> !ExpiredOn(expiry, today) && quantity < CriticalBelow
    ensures s.Low? <==> !ExpiredOn(expiry, today) && CriticalBelow <= quantity < LowBelow
    ensures s.Fine? <==> !ExpiredOn(expiry, today) && quantity >= LowBelow
  {
    if ExpiredOn(expiry, today) then Expired
    else if quantity < CriticalBelow then Critical
    else if quantity < LowBelow then Low
    else Fine
  }

  /** The labels are the four distinct words the report shows. */
  lemma StatusLabelsDistinct(a: StockStatus, b: StockStatus)
    ensures StatusLabel(a) == StatusLabel(b) <==> a == b
  {
    if a != b {
      assert StatusLabel(a)[0] != StatusLabel(b)[0] || |StatusLabel(a)| != |StatusLabel(b)|;
    }
  }

  /** A lot with no expiry, or one expiring today or later, is never reported as expired. */
  lemma NotExpiredFromToday(quantity: int, expiry: Option<int>, today: int)
    requires expiry.None? || expiry.value >= today
    ensures !StatusOf(quantity, expiry, today).Expired?
  {
  }

  /** A lot that counts towards availability is never reported expired. */
  lemma CountableIsNotExpired(l: StockLot, today: int)
    requires Countable(l, today)
    ensures !StatusOf(l.quantity, l.expiry, today).Expired?
  {
  }

  /**
   * A lot expiring today is in neither camp: availability already ignores it
   * (it requires an expiry after today) while the report does not call it expired.
   */
  lemma ExpiringTodayIsInBetween(l: StockLot, today: int)
    requires l.expiry == Some(today)
    ensures !Countable(l, today) && !StatusOf(l.quantity, l.expiry, today).Expired?
  {
  }

  function Severity(s: StockStatus): int {
    match s
    case Expired => 0
    case Critical => 1
    case Low => 2
    case Fine => 3
  }

  /** With the same expiry, more stock never gets a more severe status. */
  lemma StatusMonotone(q1: int, q2: int, expiry: Option<int>, today: int)
    requires q1 <= q2
    ensures Severity(StatusOf(q1, expiry, today)) <= Severity(StatusOf(q2, expiry, today))
  {
  }

  // ---------------------------------------------------------------- stock report

  /** MySQL sorts NULL first in ascending order. */
  predicate ExpiryLe(a: Option<int>, b: Option<int>) {
    a.None? || (b.Some? && a.value <= b.value)
  }

  /** ORDER BY m.nome_comercial, u.nome, e.data_validade. */
  predicate ByMedUnitExpiry(a: StockView, b: StockView) {
    || StrLt(a.medName, b.medName)
    || (a.medName == b.medName && StrLt(a.ubsName, b.ubsName))
    || (a.medName == b.medName && a.ubsName == b.ubsName && ExpiryLe(a.expiry, b.expiry))
  }

  lemma StrLtTrans(a: string, b: string, c: string)
    requires (StrLt(a, b) && StrLe(b, c)) || (StrLe(a, b) && StrLt(b, c))
    ensures StrLt(a, c)
  {
    StrLeTransitive(a, b, c);
    if a == c {
      StrLeAntisymmetric(a, b);
    }
  }

  lemma ByMedUnitExpiryIsPreorder()
    ensures TotalPreorder(ByMedUnitExpiry)
  {
    forall a: StockView, b: StockView ensures ByMedUnitExpiry(a, b) || ByMedUnitExpiry(b, a) {
      StrLeTotal(a.medName, b.medName);
      StrLeTotal(a.ubsName, b.ubsName);
    }
    forall a: StockView, b: StockView, c: StockView | ByMedUnitExpiry(a, b) && ByMedUnitExpiry(b, c)
      ensures ByMedUnitExpiry(a, c)
    {
      if a.medName != b.medName {
        if b.medName != c.medName {
          StrLtTrans(a.medName, b.medName, c.medName);
        }
      } else if b.medName == c.medName && a.ubsName != b.ubsName && b.ubsName != c.ubsName {
        StrLtTrans(a.ubsName, b.ubsName, c.ubsName);
      }
    }
  }

  /** AND u.id_ubs = ?, present only when a UBS was given. */
  predicate InUnit(v: StockView, unit: Option<int>) {
    unit.None? || v.ubs == unit.value
  }

  datatype ReportRow = ReportRow(view: StockView, status: StockStatus)

  function WithStatus(vs: seq<StockView>, today: int): (rows: seq<ReportRow>)
    ensures |rows| == |vs|
  {
    seq(|vs|, i requires 0 <= i < |vs| => ReportRow(vs[i], StatusOf(vs[i].quantity, vs[i].expiry, today)))
  }

  /** The lots the report's SELECT returns, in order. */
  function ReportViews(lots: seq<StockLot>, ms: seq<Medication>, us: seq<HealthUnit>, unit: Option<int>): seq<StockView> {
    ByMedUnitExpiryIsPreorder();
    Sort(Filter(Joined(lots, ms, us), (v: StockView) => InUnit(v, unit)), ByMedUnitExpiry)
  }

  datatype ReportOutcome = BadUnit | Report(rows: seq<ReportRow>)

  /**
   * getRelatorioEstoque. A non-empty `ubs_id` that Integer.parseInt refuses answers
   * 500; the status of each row is decided as the rows are read.
   */
  method StockReport(db: Database, ubsParam: Option<string>, today: int) returns (out: ReportOutcome)
    ensures out.BadUnit? <==> OptionalInt(ubsParam).None?
    ensures out.Report? ==>
      out.rows == WithStatus(ReportViews(db.lots, db.medications, db.units, OptionalInt(ubsParam).value), today)
  {
    var unit := OptionalInt(ubsParam);
    if unit.None? {
      return BadUnit;
    }
    var views := ReportViews(db.lots, db.medications, db.units, unit.value);
    var rows := ClassifyRows(views, today);
    out := Report(rows);
  }

  /** The loop over the result set that decides each row's status as it is read. */
  method ClassifyRows(views: seq<StockView>, today: int) returns (rows: seq<ReportRow>)
    ensures rows == WithStatus(views, today)
  {
    rows := [];
    var i := 0;
    while i < |views|
      invariant 0 <= i <= |views|
      invariant rows == WithStatus(views[..i], today)
    {
      var v := views[i];
      var status: StockStatus;
      if v.expiry.Some? && v.expiry.value < today {
        status := Expired;
      } else if v.quantity < CriticalBelow {
        status := Critical;
      } else if v.quantity < LowBelow {
        status := Low;
      } else {
        status := Fine;
      }
      assert status == StatusOf(v.quantity, v.expiry, today);
      assert WithStatus(views[..i + 1], today) == WithStatus(views[..i], today) + [ReportRow(v, status)];
      rows := rows + [ReportRow(v, status)];
      i := i + 1;
    }
    assert views[..i] == views;
  }

  /**
   * A row is reported exactly when it is the view of a lot with an active medication
   * and UBS, in the requested UBS if any, carrying that lot's status; rows are ordered.
   */
  lemma StockReportContents(lots: seq<StockLot>, ms: seq<Medication>, us: seq<HealthUnit>, unit: Option<int>,
                            today: int, row: ReportRow)
    ensures row in WithStatus(ReportViews(lots, ms, us, unit), today)
        <==> exists i :: (0 <= i < |lots| && Shown(lots[i], ms, us) && InUnit(ViewOf(lots[i], ms, us), unit)
                          && row == ReportRow(ViewOf(lots[i], ms, us), StatusOf(lots[i].quantity, lots[i].expiry, today)))
  {
    ByMedUnitExpiryIsPreorder();
    var filtered := Filter(Joined(lots, ms, us), (v: StockView) => InUnit(v, unit));
    var views := ReportViews(lots, ms, us, unit);
    SortSameElements(filtered, ByMedUnitExpiry);
    var rows := WithStatus(views, today);
    if row in rows {
      var k :| 0 <= k < |rows| && rows[k] == row;
      assert views[k] in filtered;
    }
    if exists i :: (0 <= i < |lots| && Shown(lots[i], ms, us) && InUnit(ViewOf(lots[i], ms, us), unit)
                    && row == ReportRow(ViewOf(lots[i], ms, us), StatusOf(lots[i].quantity, lots[i].expiry, today))) {
      var i :| (0 <= i < |lots| && Shown(lots[i], ms, us) && InUnit(ViewOf(lots[i], ms, us), unit)
                && row == ReportRow(ViewOf(lots[i], ms, us), StatusOf(lots[i].quantity, lots[i].expiry, today)));
      var v := ViewOf(lots[i], ms, us);
      assert v in filtered;
      var k :| 0 <= k < |views| && views[k] == v;
      assert rows[k] == row;
    }
  }

  lemma StockReportSorted(lots: seq<StockLot>, ms: seq<Medication>, us: seq<HealthUnit>, unit: Option<int>, today: int)
    ensures forall i, j :: 0 <= i < j < |WithStatus(ReportViews(lots, ms, us, unit), today)| ==>
      ByMedUnitExpiry(WithStatus(ReportViews(lots, ms, us, unit), today)[i].view,
                      WithStatus(ReportViews(lots, ms, us, unit), today)[j].view)
  {
    var views := ReportViews(lots, ms, us, unit);
    assert Sorted(views, ByMedUnitExpiry);
  }

  /** Without a UBS filter the report covers exactly the lots the stock listing shows. */
  lemma UnfilteredReportMatchesListing(lots: seq<StockLot>, ms: seq<Medication>, us: seq<HealthUnit>, v: StockView)
    ensures v in ReportViews(lots, ms, us, None) <==> v in StockListing(lots, ms, us)
  {
    ByMedUnitExpiryIsPreorder();
    SortSameElements(Filter(Joined(lots, ms, us), (w: StockView) => InUnit(w, None)), ByMedUnitExpiry);
    StockListingContents(lots, ms, us, v);
  }

  // ------------------------------------------------------------ critical stock

  /** A row of estoqueCritico. */
  datatype CriticalRow = CriticalRow(medName: string, ubsName: string, lot: string, quantity: int, expiry: Option<int>)

  /** WHERE e.quantidade < 20 AND m.ativo = TRUE; the UBS only has to exist. */
  predicate CriticalShown(l: StockLot, ms: seq<Medication>, us: seq<HealthUnit>) {
    l.quantity < CriticalBelow && MedicationActive(ms, l.med) && FindUnit(us, l.ubs).Some?
  }

  function CriticalRowOf(l: StockLot, ms: seq<Medication>, us: seq<HealthUnit>): CriticalRow
    requires FindMedication(ms, l.med).Some? && FindUnit(us, l.ubs).Some?
  {
    CriticalRow(FindMedication(ms, l.med).value.commercialName, FindUnit(us, l.ubs).value.name, l.lot, l.quantity, l.expiry)
  }

  function CriticalJoined(lots: seq<StockLot>, ms: seq<Medication>, us: seq<HealthUnit>): (rs: seq<CriticalRow>)
    ensures forall r :: r in rs <==>
      exists i :: 0 <= i < |lots| && CriticalShown(lots[i], ms, us) && r == CriticalRowOf(lots[i], ms, us)
  {
    if lots == [] then []
    else
      var init, l := lots[..|lots| - 1], lots[|lots| - 1];
      assert forall i :: 0 <= i < |init| ==> init[i] == lots[i];
      var rs := CriticalJoined(init, ms, us);
      if CriticalShown(l, ms, us) then rs + [CriticalRowOf(l, ms, us)] else rs
  }

  /** ORDER BY e.quantidade ASC, e.data_validade ASC. */
  predicate ScarcerFirst(a: CriticalRow, b: CriticalRow) {
    a.quantity < b.quantity || (a.quantity == b.quantity && ExpiryLe(a.expiry, b.expiry))
  }

  lemma ScarcerFirstIsPreorder()
    ensures TotalPreorder(ScarcerFirst)
  {
  }

  const DashboardLimit: nat := 5

  function CriticalStock(lots: seq<StockLot>, ms: seq<Medication>, us: seq<HealthUnit>): seq<CriticalRow> {
    ScarcerFirstIsPreorder();
    Take(Sort(CriticalJoined(lots, ms, us), ScarcerFirst), DashboardLimit)
  }

  /**
   * At most five rows, each a lot below 20 units with an active medication, the
   * scarcest first; a qualifying row left out means five scarcer-or-equal rows were kept.
   */
  lemma CriticalStockFacts(lots: seq<StockLot>, ms: seq<Medication>, us: seq<HealthUnit>)
    ensures |CriticalStock(lots, ms, us)| <= DashboardLimit
    ensures Sorted(CriticalStock(lots, ms, us), ScarcerFirst)
    ensures forall r :: r in CriticalStock(lots, ms, us) ==>
      r.quantity < CriticalBelow
      && exists i :: 0 <= i < |lots| && CriticalShown(lots[i], ms, us) && r == CriticalRowOf(lots[i], ms, us)
    ensures forall r :: r in CriticalJoined(lots, ms, us) && r !in CriticalStock(lots, ms, us) ==>
      |CriticalStock(lots, ms, us)| == DashboardLimit && forall c :: c in CriticalStock(lots, ms, us) ==> ScarcerFirst(c, r)
  {
    ScarcerFirstIsPreorder();
    var all := CriticalJoined(lots, ms, us);
    var sorted := Sort(all, ScarcerFirst);
    SortSameElements(all, ScarcerFirst);
    TakeSorted(sorted, DashboardLimit, ScarcerFirst);
    var top := CriticalStock(lots, ms, us);
    forall r | r in top ensures r in all {
      var k :| 0 <= k < |top| && top[k] == r;
      assert sorted[k] == r;
    }
    forall r | r in all && r !in top
      ensures |top| == DashboardLimit && forall c :: c in top ==> ScarcerFirst(c, r)
    {
      TakeOfSortedIsTop(sorted, DashboardLimit, ScarcerFirst, r);
    }
  }

  // ------------------------------------------------------------- most searched

  /** WHERE teve_resultados = true AND data_busca >= windowStart. */
  predicate CountedSearch(e: SearchLogEntry, windowStart: int) {
    e.hadResults && e.at >= windowStart
  }

  /** One (term, 1) row per counted search. */
  function CountedTerms(log: seq<SearchLogEntry>, windowStart: int): seq<(string, int)> {
    if log == [] then []
    else
      var e := log[|log| - 1];
      CountedTerms(log[..|log| - 1], windowStart) + (if CountedSearch(e, windowStart) then [(e.term, 1)] else [])
  }

  /** The number of counted searches for `term`. */
  function SearchCount(log: seq<SearchLogEntry>, windowStart: int, term: string): nat {
    if log == [] then 0
    else
      var e := log[|log| - 1];
      SearchCount(log[..|log| - 1], windowStart, term) + (if CountedSearch(e, windowStart) && e.term == term then 1 else 0)
  }

  /** COUNT(*) per group is the number of counted searches for the term, and a term has a group iff it was searched. */
  lemma {:induction false} CountedTermsCount(log: seq<SearchLogEntry>, windowStart: int, term: string)
    ensures SumFor(CountedTerms(log, windowStart), term) == SearchCount(log, windowStart, term)
    ensures term in KeysOf(CountedTerms(log, windowStart)) <==> SearchCount(log, windowStart, term) > 0
  {
    if log != [] {
      var init := log[..|log| - 1];
      var e := log[|log| - 1];
      CountedTermsCount(init, windowStart, term);
      var c := CountedTerms(init, windowStart);
      var all := CountedTerms(log, windowStart);
      if CountedSearch(e, windowStart) {
        assert all == c + [(e.term, 1)];
        assert all[..|all| - 1] == c;
        assert KeysOf(all) == KeysOf(c) + [e.term];
      } else {
        assert all == c;
      }
    }
  }

  /** ORDER BY total DESC. */
  predicate MoreFirst<K>(a: (K, int), b: (K, int)) {
    a.1 >= b.1
  }

  lemma MoreFirstIsPreorder<K(!new)>()
    ensures TotalPreorder(MoreFirst<K>)
  {
  }

  function MostSearched(log: seq<SearchLogEntry>, windowStart: int): seq<(string, int)> {
    MoreFirstIsPreorder<string>();
    Take(Sort(GroupSum(CountedTerms(log, windowStart)), MoreFirst), DashboardLimit)
  }

  /**
   * At most five distinct terms, each with its number of searches with results in
   * the window, the most searched first; a searched term left out means five terms
   * with at least as many searches were kept.
   */
  lemma MostSearchedFacts(log: seq<SearchLogEntry>, windowStart: int)
    ensures |MostSearched(log, windowStart)| <= DashboardLimit
    ensures Distinct(KeysOf(MostSearched(log, windowStart)))
    ensures Sorted(MostSearched(log, windowStart), MoreFirst)
    ensures forall i :: 0 <= i < |MostSearched(log, windowStart)| ==>
      MostSearched(log, windowStart)[i].1 == SearchCount(log, windowStart, MostSearched(log, windowStart)[i].0) > 0
    ensures forall t :: SearchCount(log, windowStart, t) > 0 && t !in KeysOf(MostSearched(log, windowStart)) ==>
      |MostSearched(log, windowStart)| == DashboardLimit
      && forall i :: 0 <= i < DashboardLimit ==> MostSearched(log, windowStart)[i].1 >= SearchCount(log, windowStart, t)
  {
    MoreFirstIsPreorder<string>();
    var es := CountedTerms(log, windowStart);
    var sorted := Sort(GroupSum(es), MoreFirst);
    var top := MostSearched(log, windowStart);
    SortedGroupFacts(es, MoreFirst);
    TakeKeepsDistinctKeys(sorted, DashboardLimit);
    TakeSorted(sorted, DashboardLimit, MoreFirst);
    forall i | 0 <= i < |top|
      ensures top[i].1 == SearchCount(log, windowStart, top[i].0) > 0
    {
      assert top[i] == sorted[i];
      CountedTermsCount(log, windowStart, top[i].0);
      assert top[i].0 in KeysOf(sorted) by {
        assert KeysOf(sorted)[i] == top[i].0;
      }
    }
    forall t | SearchCount(log, windowStart, t) > 0 && t !in KeysOf(top)
      ensures |top| == DashboardLimit && forall i :: 0 <= i < DashboardLimit ==> top[i].1 >= SearchCount(log, windowStart, t)
    {
      CountedTermsCount(log, windowStart, t);
      var j :| 0 <= j < |sorted| && KeysOf(sorted)[j] == t;
      var row := sorted[j];
      MemberKeyIn(top, row);
      TakeOfSortedIsTop(sorted, DashboardLimit, MoreFirst, row);
      forall i | 0 <= i < DashboardLimit ensures top[i].1 >= SearchCount(log, windowStart, t) {
        assert top[i] in top;
      }
    }
  }

  // ------------------------------------------------------------ demand per day

  /**
   * retiradas JOIN itens_retiradas ON id_retirada, keeping the headers `keep`
   * accepts: one (header, line) row per matching pair.
   */
  function JoinedLines(hs: seq<Withdrawal>, lines: seq<WithdrawalLine>, keep: Withdrawal -> bool)
    : (ps: seq<(Withdrawal, WithdrawalLine)>)
    ensures forall p :: p in ps <==> p.0 in hs && keep(p.0) && p.1 in lines && p.1.withdrawal == p.0.id
  {
    if hs == [] then []
    else
      var init, h := hs[..|hs| - 1], hs[|hs| - 1];
      assert hs == init + [h];
      var own := Filter(lines, (l: WithdrawalLine) => l.withdrawal == h.id);
      var mine := seq(|own|, i requires 0 <= i < |own| => (h, own[i]));
      assert forall p :: p in mine <==> p.0 == h && p.1 in own by {
        forall p: (Withdrawal, WithdrawalLine) | p.0 == h && p.1 in own ensures p in mine {
          var i :| 0 <= i < |own| && own[i] == p.1;
          assert mine[i] == p;
        }
      }
      JoinedLines(init, lines, keep) + (if keep(h) then mine else [])
  }

  /** WHERE r.data_retirada >= windowStart. */
  function InLastMonth(windowStart: int): Withdrawal -> bool {
    (h: Withdrawal) => h.at >= windowStart
  }

  /** One (DATE(data_retirada), quantidade) row per joined line. */
  function DayEntries(ps: seq<(Withdrawal, WithdrawalLine)>, dayOf: int -> int): (es: seq<(int, int)>)
    ensures |es| == |ps| && forall i :: 0 <= i < |ps| ==> es[i] == (dayOf(ps[i].0.at), ps[i].1.quantity)
  {
    seq(|ps|, i requires 0 <= i < |ps| => (dayOf(ps[i].0.at), ps[i].1.quantity))
  }

  /** ORDER BY dia ASC. */
  predicate EarlierFirst(a: (int, int), b: (int, int)) {
    a.0 <= b.0
  }

  lemma EarlierFirstIsPreorder()
    ensures TotalPreorder(EarlierFirst)
  {
  }

  /** projecaoDemanda: SUM(ir.quantidade) GROUP BY dia ORDER BY dia ASC over the last thirty days. */
  function DemandByDay(hs: seq<Withdrawal>, lines: seq<WithdrawalLine>, windowStart: int, dayOf: int -> int): seq<(int, int)> {
    EarlierFirstIsPreorder();
    Sort(GroupSum(DayEntries(JoinedLines(hs, lines, InLastMonth(windowStart)), dayOf)), EarlierFirst)
  }

  /**
   * Days strictly increase; a day appears iff some line of a withdrawal made in the
   * window fell on it, and its total is the sum of the quantities of those lines.
   */
  lemma DemandByDayFacts(hs: seq<Withdrawal>, lines: seq<WithdrawalLine>, windowStart: int, dayOf: int -> int)
    ensures forall i, j :: 0 <= i < j < |DemandByDay(hs, lines, windowStart, dayOf)| ==>
      DemandByDay(hs, lines, windowStart, dayOf)[i].0 < DemandByDay(hs, lines, windowStart, dayOf)[j].0
    ensures forall d :: d in KeysOf(DemandByDay(hs, lines, windowStart, dayOf)) <==>
      exists h, l :: h in hs && h.at >= windowStart && l in lines && l.withdrawal == h.id && dayOf(h.at) == d
    ensures forall i :: 0 <= i < |DemandByDay(hs, lines, windowStart, dayOf)| ==>
      DemandByDay(hs, lines, windowStart, dayOf)[i].1
        == SumFor(DayEntries(JoinedLines(hs, lines, InLastMonth(windowStart)), dayOf), DemandByDay(hs, lines, windowStart, dayOf)[i].0)
  {
    EarlierFirstIsPreorder();
    var ps := JoinedLines(hs, lines, InLastMonth(windowStart));
    var es := DayEntries(ps, dayOf);
    var r := DemandByDay(hs, lines, windowStart, dayOf);
    SortedGroupFacts(es, EarlierFirst);
    forall i, j | 0 <= i < j < |r| ensures r[i].0 < r[j].0 {
      assert KeysOf(r)[i] != KeysOf(r)[j];
    }
    forall d ensures d in KeysOf(es) <==>
      exists h, l :: h in hs && h.at >= windowStart && l in lines && l.withdrawal == h.id && dayOf(h.at) == d
    {
      if d in KeysOf(es) {
        var k :| 0 <= k < |es| && KeysOf(es)[k] == d;
        assert ps[k] in ps;
      }
      if exists h, l :: h in hs && h.at >= windowStart && l in lines && l.withdrawal == h.id && dayOf(h.at) == d {
        var h, l :| h in hs && h.at >= windowStart && l in lines && l.withdrawal == h.id && dayOf(h.at) == d;
        assert (h, l) in ps;
        var k :| 0 <= k < |ps| && ps[k] == (h, l);
        assert KeysOf(es)[k] == d;
      }
    }
  }

  // ------------------------------------------------ resolving the demand query's columns

  /** The columns of `retiradas` and of `itens_retiradas` that the handlers name. */
  const WithdrawalColumns: set<string> := {"id_retirada", "id_usuario", "id_ubs", "id_farmaceutico", "data_retirada"}
  const WithdrawalLineColumns: set<string> := {"id_retirada", "id_medicamento", "id_estoque", "quantidade"}

  /** A column named in a query over `retiradas r JOIN itens_retiradas ir`, with its alias if qualified. */
  datatype ColumnRef = ColumnRef(alias: Option<string>, column: string)

  /**
   * How MySQL resolves a column of that join: a qualified name when its table has the
   * column, an unqualified one only when exactly one of the two tables has it. A name
   * both tables have is rejected as ambiguous (error 1052) and the statement fails.
   */
  predicate Resolves(c: ColumnRef) {
    match c.alias
    case Some(a) => (a == "r" && c.column in WithdrawalColumns) || (a == "ir" && c.column in WithdrawalLineColumns)
    case None => (c.column in WithdrawalColumns) != (c.column in WithdrawalLineColumns)
  }

  predicate QueryResolves(cols: seq<ColumnRef>) {
    forall i :: 0 <= i < |cols| ==> Resolves(cols[i])
  }

  /**
   * The columns of the dashboard's demand query as written, in the order they appear:
   * DATE(data_retirada), COUNT(DISTINCT id_retirada), SUM(ir.quantidade), the ON clause
   * and the WHERE clause.
   */
  const DemandColumnsAsWritten: seq<ColumnRef> := [
    ColumnRef(None, "data_retirada"), ColumnRef(None, "id_retirada"), ColumnRef(Some("ir"), "quantidade"),
    ColumnRef(Some("r"), "id_retirada"), ColumnRef(Some("ir"), "id_retirada"), ColumnRef(Some("r"), "data_retirada")]

  /** The same query with the counted column qualified as r.id_retirada. */
  const DemandColumnsIntended: seq<ColumnRef> := DemandColumnsAsWritten[1 := ColumnRef(Some("r"), "id_retirada")]

  /**
   * projecaoDemanda for a demand query naming `cols`. The SQLException of a column that
   * does not resolve is swallowed like any other failure of that query (`queryFails`),
   * and the list stays empty. The list has a day exactly when the query runs and some
   * withdrawal of the window has a line.
   */
  function DemandProjection(cols: seq<ColumnRef>, hs: seq<Withdrawal>, lines: seq<WithdrawalLine>,
                            windowStart: int, dayOf: int -> int, queryFails: bool): (r: seq<(int, int)>)
    ensures r != [] <==> (QueryResolves(cols) && !queryFails
      && exists h, l :: h in hs && h.at >= windowStart && l in lines && l.withdrawal == h.id)
  {
    if QueryResolves(cols) && !queryFails then
      DemandByDayNonEmpty(hs, lines, windowStart, dayOf);
      DemandByDay(hs, lines, windowStart, dayOf)
    else []
  }

  /** The demand by day has a day exactly when some withdrawal of the window has a line. */
  lemma DemandByDayNonEmpty(hs: seq<Withdrawal>, lines: seq<WithdrawalLine>, windowStart: int, dayOf: int -> int)
    ensures DemandByDay(hs, lines, windowStart, dayOf) != []
        <==> exists h, l :: h in hs && h.at >= windowStart && l in lines && l.withdrawal == h.id
  {
    var r := DemandByDay(hs, lines, windowStart, dayOf);
    DemandByDayFacts(hs, lines, windowStart, dayOf);
    if r != [] {
      assert KeysOf(r)[0] in KeysOf(r);
    }
    if exists h, l :: h in hs && h.at >= windowStart && l in lines && l.withdrawal == h.id {
      var h, l :| h in hs && h.at >= windowStart && l in lines && l.withdrawal == h.id;
      var d := dayOf(h.at);
      assert exists h', l' :: h' in hs && h'.at >= windowStart && l' in lines && l'.withdrawal == h'.id && dayOf(h'.at) == d;
      assert d in KeysOf(r);
    }
  }

  /** As written, the unqualified id_retirada is ambiguous: the list is empty on every database. */
  lemma DemandAsWrittenIsEmpty(hs: seq<Withdrawal>, lines: seq<WithdrawalLine>, windowStart: int, dayOf: int -> int,
                               queryFails: bool)
    ensures DemandProjection(DemandColumnsAsWritten, hs, lines, windowStart, dayOf, queryFails) == []
  {
    assert !Resolves(DemandColumnsAsWritten[1]);
  }

  /** One withdrawal with one line inside the window: the intended query reports its day, the written one nothing. */
  lemma DemandAsWrittenLosesAWithdrawal()
    ensures var hs, lines := [Withdrawal(1, 2, 3, 4, 100)], [WithdrawalLine(1, 5, 6, 7)];
      && DemandProjection(DemandColumnsAsWritten, hs, lines, 0, d => d, false) == []
      && DemandProjection(DemandColumnsIntended, hs, lines, 0, d => d, false) != []
  {
    var hs, lines := [Withdrawal(1, 2, 3, 4, 100)], [WithdrawalLine(1, 5, 6, 7)];
    DemandAsWrittenIsEmpty(hs, lines, 0, d => d, false);
    DemandIntendedIsByDay(hs, lines, 0, d => d);
    assert hs[0] in hs && lines[0] in lines;
  }

  /** With r.id_retirada every column resolves, and the list is the demand by day of DemandByDayFacts. */
  lemma DemandIntendedIsByDay(hs: seq<Withdrawal>, lines: seq<WithdrawalLine>, windowStart: int, dayOf: int -> int)
    ensures QueryResolves(DemandColumnsIntended)
    ensures DemandProjection(DemandColumnsIntended, hs, lines, windowStart, dayOf, false)
         == DemandByDay(hs, lines, windowStart, dayOf)
  {
    assert forall i :: 0 <= i < |DemandColumnsIntended| ==> Resolves(DemandColumnsIntended[i]);
  }

  datatype Dashboard = Dashboard(
    critical: seq<CriticalRow>, mostSearched: seq<(string, int)>, demandByDay: seq<(int, int)>)

  datatype DashboardAnswer =
    | DashboardError  // 500 "Erro ao buscar indicadores do dashboard."
    | DashboardOk(dashboard: Dashboard)

  /**
   * getIndicadoresDashboard. A failing connection or critical-stock query is not
   * caught inside and answers 500. A failing search-log or withdrawal query is
   * ignored and leaves its list empty; the rest of the dashboard is still answered.
   */
  method Indicators(db: Database, windowStart: int, dayOf: int -> int,
                    criticalQueryFails: bool, logQueryFails: bool, demandQueryFails: bool)
    returns (a: DashboardAnswer)
    ensures a.DashboardError? <==> criticalQueryFails
    ensures a.DashboardOk? ==>
      && a.dashboard.critical == CriticalStock(db.lots, db.medications, db.units)
      && a.dashboard.mostSearched == (if logQueryFails then [] else MostSearched(db.searchLog, windowStart))
      && a.dashboard.demandByDay
         == (if demandQueryFails then [] else DemandByDay(db.withdrawals, db.withdrawalLines, windowStart, dayOf))
  {
    if criticalQueryFails {
      return DashboardError;
    }
    var critical := CriticalStock(db.lots, db.medications, db.units);
    var searched: seq<(string, int)> := [];
    if !logQueryFails {
      searched := MostSearched(db.searchLog, windowStart);
    }
    DemandIntendedIsByDay(db.withdrawals, db.withdrawalLines, windowStart, dayOf);
    var demand := DemandProjection(DemandColumnsIntended, db.withdrawals, db.withdrawalLines, windowStart, dayOf,
                                   demandQueryFails);
    a := DashboardOk(Dashboard(critical, searched, demand));
  }

  // ------------------------------------------------------- demand per medication

  /** WHERE r.data_retirada BETWEEN ? AND ?, added only when both dates are non-empty. */
  function DemandWindow(start: Option<string>, end: Option<string>, asInstant: string -> int): Option<(int, int)> {
    if start.Some? && start.value != [] && end.Some? && end.value != [] then
      Some((asInstant(start.value), asInstant(end.value)))
    else None
  }

  function InWindow(window: Option<(int, int)>): Withdrawal -> bool {
    (h: Withdrawal) => window.None? || (window.value.0 <= h.at <= window.value.1)
  }

  /** One (id_medicamento, quantidade) row per joined line whose medication exists. */
  function MedEntries(ps: seq<(Withdrawal, WithdrawalLine)>, ms: seq<Medication>): (es: seq<(int, int)>)
    ensures forall e :: e in es <==> exists p :: p in ps && FindMedication(ms, p.1.med).Some? && e == (p.1.med, p.1.quantity)
  {
    if ps == [] then []
    else
      var init, p := ps[..|ps| - 1], ps[|ps| - 1];
      assert ps == init + [p];
      MedEntries(init, ms) + (if FindMedication(ms, p.1.med).Some? then [(p.1.med, p.1.quantity)] else [])
  }

  /** GROUP BY m.id_medicamento ORDER BY total_retirado DESC. */
  function DemandTotals(hs: seq<Withdrawal>, lines: seq<WithdrawalLine>, ms: seq<Medication>, window: Option<(int, int)>)
    : seq<(int, int)>
  {
    MoreFirstIsPreorder<int>();
    Sort(GroupSum(MedEntries(JoinedLines(hs, lines, InWindow(window)), ms)), MoreFirst)
  }

  datatype DemandRow = DemandRow(medName: string, activeIngredient: string, total: int)

  function DemandRowOf(g: (int, int), ms: seq<Medication>): DemandRow {
    var m := FindMedication(ms, g.0);
    if m.Some? then DemandRow(m.value.commercialName, m.value.activeIngredient, g.1) else DemandRow("", "", g.1)
  }

  /** One output row per group, carrying its medication's names and the group's total. */
  function DemandRows(gs: seq<(int, int)>, ms: seq<Medication>): (rows: seq<DemandRow>)
    ensures |rows| == |gs|
    ensures forall i :: 0 <= i < |gs| && FindMedication(ms, gs[i].0).Some? ==>
      && rows[i].medName == FindMedication(ms, gs[i].0).value.commercialName
      && rows[i].activeIngredient == FindMedication(ms, gs[i].0).value.activeIngredient
      && rows[i].total == gs[i].1
  {
    seq(|gs|, i requires 0 <= i < |gs| => DemandRowOf(gs[i], ms))
  }

  /** getRelatorioDemanda. A failing query answers the empty list with status 200. */
  method DemandReport(db: Database, start: Option<string>, end: Option<string>, asInstant: string -> int, queryFails: bool)
    returns (rows: seq<DemandRow>)
    ensures queryFails ==> rows == []
    ensures !queryFails ==>
      rows == DemandRows(DemandTotals(db.withdrawals, db.withdrawalLines, db.medications, DemandWindow(start, end, asInstant)),
                         db.medications)
  {
    rows := [];
    if queryFails {
      return;
    }
    var groups := DemandTotals(db.withdrawals, db.withdrawalLines, db.medications, DemandWindow(start, end, asInstant));
    var i := 0;
    while i < |groups|
      invariant 0 <= i <= |groups|
      invariant rows == DemandRows(groups[..i], db.medications)
    {
      var m := FindMedication(db.medications, groups[i].0);
      var row := if m.Some? then DemandRow(m.value.commercialName, m.value.activeIngredient, groups[i].1)
                 else DemandRow("", "", groups[i].1);
      rows := rows + [row];
      i := i + 1;
    }
    assert groups[..i] == groups;
  }

  /** The date filter needs both dates: with either one missing or empty, every withdrawal counts. */
  lemma DemandWindowNeedsBoth(start: Option<string>, end: Option<string>, asInstant: string -> int, h: Withdrawal)
    requires start.None? || start.value == [] || end.None? || end.value == []
    ensures DemandWindow(start, end, asInstant).None? && InWindow(DemandWindow(start, end, asInstant))(h)
  {
  }

  /**
   * BETWEEN compares against the midnight that starts the end date, so a withdrawal
   * made later on that day is not counted.
   */
  lemma EndDateExcludesLaterThatDay(start: string, end: string, asInstant: string -> int, h: Withdrawal)
    requires start != [] && end != [] && h.at > asInstant(end)
    ensures !InWindow(DemandWindow(Some(start), Some(end), asInstant))(h)
  {
  }

  /**
   * One group per medication, largest total first; a medication appears iff a line
   * of a withdrawal in the window withdrew it, and its total is the sum over those lines.
   */
  lemma DemandTotalsFacts(hs: seq<Withdrawal>, lines: seq<WithdrawalLine>, ms: seq<Medication>, window: Option<(int, int)>)
    ensures Distinct(KeysOf(DemandTotals(hs, lines, ms, window)))
    ensures Sorted(DemandTotals(hs, lines, ms, window), MoreFirst)
    ensures forall m :: m in KeysOf(DemandTotals(hs, lines, ms, window)) <==>
      exists h, l :: (h in hs && InWindow(window)(h) && l in lines && l.withdrawal == h.id && l.med == m
                      && FindMedication(ms, m).Some?)
    ensures forall i :: 0 <= i < |DemandTotals(hs, lines, ms, window)| ==>
      DemandTotals(hs, lines, ms, window)[i].1
        == SumFor(MedEntries(JoinedLines(hs, lines, InWindow(window)), ms), DemandTotals(hs, lines, ms, window)[i].0)
  {
    MoreFirstIsPreorder<int>();
    var ps := JoinedLines(hs, lines, InWindow(window));
    var es := MedEntries(ps, ms);
    SortedGroupFacts(es, MoreFirst);
    forall m ensures m in KeysOf(es) <==>
      exists h, l :: (h in hs && InWindow(window)(h) && l in lines && l.withdrawal == h.id && l.med == m
                      && FindMedication(ms, m).Some?)
    {
      if m in KeysOf(es) {
        var k :| 0 <= k < |es| && KeysOf(es)[k] == m;
        assert es[k] in es;
        var p :| p in ps && FindMedication(ms, p.1.med).Some? && es[k] == (p.1.med, p.1.quantity);
        assert p.0 in hs && p.1 in lines;
      }
      if exists h, l :: (h in hs && InWindow(window)(h) && l in lines && l.withdrawal == h.id && l.med == m
                         && FindMedication(ms, m).Some?) {
        var h, l :| (h in hs && InWindow(window)(h) && l in lines && l.withdrawal == h.id && l.med == m
                     && FindMedication(ms, m).Some?);
        assert (h, l) in ps;
        var e := (l.med, l.quantity);
        assert e in es;
        var k :| 0 <= k < |es| && es[k] == e;
        assert KeysOf(es)[k] == m;
      }
    }
  }
  /**
   * Each row of the demand report names a medication that took part in a withdrawal
   * line of the window, with both its names and the total of that medication's lines.
   */
  lemma DemandRowsFacts(hs: seq<Withdrawal>, lines: seq<WithdrawalLine>, ms: seq<Medication>, window: Option<(int, int)>)
    ensures var gs := DemandTotals(hs, lines, ms, window);
      var rows := DemandRows(gs, ms);
      && |rows| == |gs|
      && forall i :: 0 <= i < |rows| ==>
        var m := FindMedication(ms, gs[i].0);
        && m.Some?
        && rows[i] == DemandRow(m.value.commercialName, m.value.activeIngredient,
                                SumFor(MedEntries(JoinedLines(hs, lines, InWindow(window)), ms), gs[i].0))
  {
    var gs := DemandTotals(hs, lines, ms, window);
    DemandTotalsFacts(hs, lines, ms, window);
    forall i | 0 <= i < |gs| ensures FindMedication(ms, gs[i].0).Some? {
      assert KeysOf(gs)[i] == gs[i].0;
      assert gs[i].0 in KeysOf(gs);
    }
  }

}
