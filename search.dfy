/**
 * MedicamentoController: the medication search with per-(medication, UBS)
 * availability, its search-log record, and the soft delete / status switch of a
 * medication.
 *
 * `like(text, pattern)` stands for `LOWER(text) LIKE pattern` in the database's
 * collation; it is a parameter of the model.
 */
module MedicationSearch {
  import opened Options
  import opened Text
  import opened Relational
  import opened Ledger
  import Audit

  /** The medication matches the pattern on its commercial name or its active ingredient. */
  predicate MatchesTerm(m: Medication, pattern: string, like: (string, string) -> bool) {
    like(m.commercialName, pattern) || like(m.activeIngredient, pattern)
  }

  /** The conditions of the search that depend only on the (medication, UBS) group. */
  predicate PairMatches(ms: seq<Medication>, us: seq<HealthUnit>, med: int, ubs: int,
                        pattern: string, like: (string, string) -> bool) {
    MedicationActive(ms, med) && MatchesTerm(FindMedication(ms, med).value, pattern, like) && UnitActive(us, ubs)
  }

  /** The WHERE clause of the search, for one lot of `estoque`. */
  predicate SearchQualifies(l: StockLot, ms: seq<Medication>, us: seq<HealthUnit>,
                            pattern: string, like: (string, string) -> bool, today: int) {
    Countable(l, today) && PairMatches(ms, us, l.med, l.ubs, pattern, like)
  }

  /** The qualifying lots as ((medication, UBS), quantity) rows, ready for GROUP BY. */
  function SearchEntries(lots: seq<StockLot>, ms: seq<Medication>, us: seq<HealthUnit>,
                         pattern: string, like: (string, string) -> bool, today: int): seq<((int, int), int)> {
    if lots == [] then []
    else
      var init := SearchEntries(lots[..|lots| - 1], ms, us, pattern, like, today);
      var l := lots[|lots| - 1];
      if SearchQualifies(l, ms, us, pattern, like, today) then init + [((l.med, l.ubs), l.quantity)] else init
  }

  /** The group's SUM(e.quantidade) is the pair's physical stock: the same sum admission uses. */
  lemma {:induction false} SearchEntriesSum(lots: seq<StockLot>, ms: seq<Medication>, us: seq<HealthUnit>,
                                            pattern: string, like: (string, string) -> bool, today: int, med: int, ubs: int)
    requires PairMatches(ms, us, med, ubs, pattern, like)
    ensures SumFor(SearchEntries(lots, ms, us, pattern, like, today), (med, ubs)) == PhysicalStock(lots, med, ubs, today)
  {
    if lots != [] {
      var init := SearchEntries(lots[..|lots| - 1], ms, us, pattern, like, today);
      var l := lots[|lots| - 1];
      SearchEntriesSum(lots[..|lots| - 1], ms, us, pattern, like, today, med, ubs);
      if SearchQualifies(l, ms, us, pattern, like, today) {
        var e := ((l.med, l.ubs), l.quantity);
        assert (init + [e])[..|init|] == init;
      }
    }
  }

  /** A group exists exactly for the matching pairs that have a countable lot. */
  lemma {:induction false} SearchEntriesKeys(lots: seq<StockLot>, ms: seq<Medication>, us: seq<HealthUnit>,
                                             pattern: string, like: (string, string) -> bool, today: int, med: int, ubs: int)
    ensures (med, ubs) in KeysOf(SearchEntries(lots, ms, us, pattern, like, today))
        <==> PairMatches(ms, us, med, ubs, pattern, like) && PhysicalStock(lots, med, ubs, today) > 0
  {
    if lots != [] {
      var init := lots[..|lots| - 1];
      var es := SearchEntries(init, ms, us, pattern, like, today);
      var l := lots[|lots| - 1];
      SearchEntriesKeys(init, ms, us, pattern, like, today, med, ubs);
      assert forall i :: 0 <= i < |init| ==> init[i] == lots[i];
      if SearchQualifies(l, ms, us, pattern, like, today) {
        var e := ((l.med, l.ubs), l.quantity);
        assert KeysOf(es + [e]) == KeysOf(es) + [e.0];
      }
    }
  }

  function UnitName(us: seq<HealthUnit>, id: int): string {
    match FindUnit(us, id)
    case Some(u) => u.name
    case None => ""
  }

  /**
   * The nullable columns a hit copies. A NULL column gives a neutral value here, but a
   * hit whose unit has one is never answered: Map.of throws on it (see `Mappable`).
   */
  function UnitAddress(us: seq<HealthUnit>, id: int): string {
    match FindUnit(us, id)
    case Some(u) => if u.address.Some? then u.address.value else ""
    case None => ""
  }

  function UnitLatitude(us: seq<HealthUnit>, id: int): real {
    match FindUnit(us, id)
    case Some(u) => if u.latitude.Some? then u.latitude.value else 0.0
    case None => 0.0
  }

  function UnitLongitude(us: seq<HealthUnit>, id: int): real {
    match FindUnit(us, id)
    case Some(u) => if u.longitude.Some? then u.longitude.value else 0.0
    case None => 0.0
  }

  /** Map.of accepts the hit's values: the UBS row has a non-NULL address, latitude and longitude. */
  predicate Mappable(us: seq<HealthUnit>, id: int) {
    var u := FindUnit(us, id);
    u.Some? && u.value.address.Some? && u.value.latitude.Some? && u.value.longitude.Some?
  }

  /** ORDER BY u.nome on the grouped rows. */
  function ByUnitName(us: seq<HealthUnit>): (((int, int), int), ((int, int), int)) -> bool {
    (a: ((int, int), int), b: ((int, int), int)) => StrLe(UnitName(us, a.0.1), UnitName(us, b.0.1))
  }

  lemma ByUnitNameIsPreorder(us: seq<HealthUnit>)
    ensures TotalPreorder(ByUnitName(us))
  {
    var le := ByUnitName(us);
    forall a, b ensures le(a, b) || le(b, a) {
      StrLeTotal(UnitName(us, a.0.1), UnitName(us, b.0.1));
    }
    forall a, b, c | le(a, b) && le(b, c) ensures le(a, c) {
      StrLeTransitive(UnitName(us, a.0.1), UnitName(us, b.0.1), UnitName(us, c.0.1));
    }
  }

  /** The rows of the main SELECT: one per (medication, UBS) group, by UBS name. */
  function SearchRows(lots: seq<StockLot>, ms: seq<Medication>, us: seq<HealthUnit>,
                      pattern: string, like: (string, string) -> bool, today: int): seq<((int, int), int)> {
    ByUnitNameIsPreorder(us);
    Sort(GroupSum(SearchEntries(lots, ms, us, pattern, like, today)), ByUnitName(us))
  }

  /** What the rows carry: distinct groups, sorted by UBS name, one per matching pair with stock, summing its lots. */
  lemma SearchRowsFacts(lots: seq<StockLot>, ms: seq<Medication>, us: seq<HealthUnit>,
                        pattern: string, like: (string, string) -> bool, today: int)
    ensures var rows := SearchRows(lots, ms, us, pattern, like, today);
      && Distinct(KeysOf(rows))
      && Sorted(rows, ByUnitName(us))
      && (forall med, ubs :: (med, ubs) in KeysOf(rows)
            <==> PairMatches(ms, us, med, ubs, pattern, like) && PhysicalStock(lots, med, ubs, today) > 0)
      && (forall i :: 0 <= i < |rows| ==> (PairMatches(ms, us, rows[i].0.0, rows[i].0.1, pattern, like)
            && rows[i].1 == PhysicalStock(lots, rows[i].0.0, rows[i].0.1, today)))
  {
    ByUnitNameIsPreorder(us);
    var es := SearchEntries(lots, ms, us, pattern, like, today);
    var g := GroupSum(es);
    var rows := SearchRows(lots, ms, us, pattern, like, today);
    PermutationKeepsDistinctKeys(g, rows);
    SortSameElements(g, ByUnitName(us));
    forall med, ubs ensures (med, ubs) in KeysOf(rows) <==> (med, ubs) in KeysOf(g) {
      if (med, ubs) in KeysOf(rows) {
        var i :| 0 <= i < |rows| && KeysOf(rows)[i] == (med, ubs);
        assert rows[i] in g;
      }
      if (med, ubs) in KeysOf(g) {
        var i :| 0 <= i < |g| && KeysOf(g)[i] == (med, ubs);
        assert g[i] in rows;
      }
    }
    forall med, ubs ensures (med, ubs) in KeysOf(g)
        <==> PairMatches(ms, us, med, ubs, pattern, like) && PhysicalStock(lots, med, ubs, today) > 0 {
      SearchEntriesKeys(lots, ms, us, pattern, like, today, med, ubs);
    }
    forall i | 0 <= i < |rows| ensures PairMatches(ms, us, rows[i].0.0, rows[i].0.1, pattern, like)
        && rows[i].1 == PhysicalStock(lots, rows[i].0.0, rows[i].0.1, today) {
      assert rows[i] in g;
      var j :| 0 <= j < |g| && g[j] == rows[i];
      assert KeysOf(g)[j] == rows[i].0;
      SearchEntriesKeys(lots, ms, us, pattern, like, today, rows[i].0.0, rows[i].0.1);
      SearchEntriesSum(lots, ms, us, pattern, like, today, rows[i].0.0, rows[i].0.1);
    }
  }

  /** One element of the answer. */
  datatype SearchHit = SearchHit(
    med: int, ubs: int, available: int, ubsName: string, ubsAddress: string, latitude: real, longitude: real)

  /** The Map.of built for a kept row. */
  function HitOf(med: int, ubs: int, available: int, us: seq<HealthUnit>): SearchHit {
    SearchHit(med, ubs, available, UnitName(us, ubs), UnitAddress(us, ubs), UnitLatitude(us, ubs), UnitLongitude(us, ubs))
  }

  /** The grouped row keeps a positive availability once its active reservations are subtracted. */
  predicate Kept(row: ((int, int), int), rs: seq<Reservation>) {
    row.1 - ActiveReserved(rs, row.0.0, row.0.1) > 0
  }

  /** The loop over the grouped rows: subtract the active reservations and keep rows above zero. */
  function HitsOf(rows: seq<((int, int), int)>, rs: seq<Reservation>, us: seq<HealthUnit>): seq<SearchHit> {
    if rows == [] then []
    else
      var init := HitsOf(rows[..|rows| - 1], rs, us);
      var row := rows[|rows| - 1];
      var (med, ubs) := row.0;
      var available := row.1 - ActiveReserved(rs, med, ubs);
      if available > 0 then init + [HitOf(med, ubs, available, us)] else init
  }

  /** The row is kept, so Map.of is called on it, and its UBS has a NULL column: Map.of throws. */
  predicate Unmappable(row: ((int, int), int), rs: seq<Reservation>, us: seq<HealthUnit>) {
    Kept(row, rs) && !Mappable(us, row.0.1)
  }

  /** The index of the row whose Map.of throws, ending the loop, if there is one. */
  function FirstUnmappable(rows: seq<((int, int), int)>, rs: seq<Reservation>, us: seq<HealthUnit>): (r: Option<nat>)
    ensures r.Some? ==> (r.value < |rows| && Unmappable(rows[r.value], rs, us)
      && forall j :: 0 <= j < r.value ==> !Unmappable(rows[j], rs, us))
    ensures r.None? <==> forall j :: 0 <= j < |rows| ==> !Unmappable(rows[j], rs, us)
  {
    if rows == [] then None
    else if Unmappable(rows[0], rs, us) then Some(0)
    else
      match FirstUnmappable(rows[1..], rs, us)
      case Some(k) => Some(k + 1)
      case None => None
  }

  /** The `resultados` list when the loop ends, normally or by the exception. */
  function Partial(rows: seq<((int, int), int)>, rs: seq<Reservation>, us: seq<HealthUnit>): seq<SearchHit> {
    match FirstUnmappable(rows, rs, us)
    case Some(k) => HitsOf(rows[..k], rs, us)
    case None => HitsOf(rows, rs, us)
  }

  /** The medication id the log records: the first grouped row's, whether or not it was kept. */
  function FirstMed(rows: seq<((int, int), int)>): Option<int> {
    if rows == [] then None else Some(rows[0].0.0)
  }

  datatype SearchResponse =
    | BlankTerm
    | SearchFailed  // "Erro ao realizar busca de medicamento."
    | Hits(hits: seq<SearchHit>)

  function SearchStatus(r: SearchResponse): int {
    match r
    case BlankTerm => 400
    case SearchFailed => 500
    case Hits(_) => 200
  }

  predicate IsBlank(term: Option<string>) {
    term.None? || Trim(term.value) == []
  }

  /** termoBusca: the trimmed, lower-cased term between two `%` wildcards. */
  function SearchPattern(term: string): string {
    "%" + ToLower(Trim(term)) + "%"
  }

  /** The answer of buscarMedicamento for a state of the ledger. */
  function SearchAnswer(lots: seq<StockLot>, rs: seq<Reservation>, ms: seq<Medication>, us: seq<HealthUnit>,
                        term: Option<string>, like: (string, string) -> bool, today: int): SearchResponse {
    if IsBlank(term) then BlankTerm
    else
      var rows := SearchRows(lots, ms, us, SearchPattern(term.value), like, today);
      if FirstUnmappable(rows, rs, us).Some? then SearchFailed else Hits(HitsOf(rows, rs, us))
  }

  /**
   * The loop of buscarMedicamento over the grouped rows, remembering the first row's
   * medication. `failed` is the exception Map.of throws on a NULL column, which ends
   * the loop with the hits built so far.
   */
  method ComputeHits(rows: seq<((int, int), int)>, rs: seq<Reservation>, us: seq<HealthUnit>)
    returns (results: seq<SearchHit>, foundMed: Option<int>, failed: bool)
    ensures failed <==> FirstUnmappable(rows, rs, us).Some?
    ensures results == Partial(rows, rs, us)
    ensures foundMed == FirstMed(rows)
  {
    results, foundMed, failed := [], None, false;
    var i := 0;
    while i < |rows| && !failed
      invariant 0 <= i <= |rows|
      invariant !failed ==> results == HitsOf(rows[..i], rs, us)
      invariant !failed ==> forall j :: 0 <= j < i ==> !Unmappable(rows[j], rs, us)
      invariant failed ==> 0 < i && FirstUnmappable(rows, rs, us) == Some(i - 1) && results == HitsOf(rows[..i - 1], rs, us)
      invariant foundMed == FirstMed(rows[..i])
    {
      var (med, ubs) := rows[i].0;
      if foundMed.None? {
        foundMed := Some(med);
      }
      var totalPhysical := rows[i].1;
      var totalReserved := ActiveReserved(rs, med, ubs);
      var available := totalPhysical - totalReserved;
      if available > 0 {
        if Mappable(us, ubs) {
          results := results + [HitOf(med, ubs, available, us)];
        } else {
          failed := true;
        }
      }
      assert rows[..i + 1][..i] == rows[..i];
      i := i + 1;
    }
    if !failed {
      assert rows[..i] == rows;
    }
  }

  /** The log row buscarMedicamento writes for a non-blank term, or None when it writes none. */
  function LogEntryFor(term: string, hits: seq<SearchHit>, rows: seq<((int, int), int)>, userHeader: Option<string>,
                       logStored: bool, now: int): Option<SearchLogEntry> {
    var user := if userHeader.Some? then ParseInt(userHeader.value) else None;
    if logStored && (userHeader.None? || user.Some?) then
      Some(SearchLogEntry(term, |hits| > 0, user, FirstMed(rows), now))
    else None
  }

  /**
   * buscarMedicamento. A kept row whose UBS has a NULL address or coordinate makes
   * Map.of throw, and the answer is 500. The log row is written after the answer in
   * either case, its had-results flag taken from the hits built so far; `logStored`
   * says whether the insert succeeded, and the X-User-ID header is parsed with
   * Integer.parseInt, whose failure also skips the log. Neither affects the answer.
   */
  method Search(db: Database, term: Option<string>, like: (string, string) -> bool, userHeader: Option<string>,
                logStored: bool, today: int, now: int)
    returns (resp: SearchResponse)
    requires db.Valid()
    modifies db
    ensures db.Valid()
    ensures resp == old(SearchAnswer(db.lots, db.reservations, db.medications, db.units, term, like, today))
    ensures resp.BlankTerm? <==> IsBlank(term)
    ensures resp.SearchFailed? <==> (!IsBlank(term)
      && old(SomeUnmappablePair(db.lots, db.reservations, db.medications, db.units, SearchPattern(term.value), like, today)))
    ensures resp.BlankTerm? ==> db.searchLog == old(db.searchLog)
    ensures !resp.BlankTerm? ==>
      var rows := old(SearchRows(db.lots, db.medications, db.units, SearchPattern(term.value), like, today));
      var entry := LogEntryFor(term.value, Partial(rows, old(db.reservations), old(db.units)), rows, userHeader,
                               logStored, now);
      db.searchLog == old(db.searchLog) + (if entry.Some? then [entry.value] else [])
    ensures unchanged(db`lots, db`reservations, db`medications, db`units, db`withdrawals, db`withdrawalLines)
    ensures unchanged(db`nextLotId, db`nextReservationId, db`nextWithdrawalId)
  {
    if term.None? || Trim(term.value) == [] {
      return BlankTerm;
    }
    var pattern := SearchPattern(term.value);
    var rows := SearchRows(db.lots, db.medications, db.units, pattern, like, today);
    SearchFailsIff(db.lots, db.reservations, db.medications, db.units, pattern, like, today);
    var results, foundMed, failed := ComputeHits(rows, db.reservations, db.units);
    resp := if failed then SearchFailed else Hits(results);
    var user: Option<int> := None;
    var headerOk := true;
    if userHeader.Some? {
      user := ParseInt(userHeader.value);
      headerOk := user.Some?;
    }
    if logStored && headerOk {
      db.searchLog := db.searchLog + [SearchLogEntry(term.value, |results| > 0, user, foundMed, now)];
    }
  }

  /** The log says "had results" exactly when the answer lists something. */
  lemma LogRecordsHadResults(term: string, hits: seq<SearchHit>, rows: seq<((int, int), int)>,
                             userHeader: Option<string>, now: int)
    requires userHeader.None? || ParseInt(userHeader.value).Some?
    ensures LogEntryFor(term, hits, rows, userHeader, true, now).Some?
    ensures LogEntryFor(term, hits, rows, userHeader, true, now).value.hadResults <==> hits != []
    ensures LogEntryFor(term, hits, rows, userHeader, false, now).None?
  {
  }

  /** The hit `h` was produced by the grouped row `row`. */
  predicate FromRow(h: SearchHit, row: ((int, int), int), rs: seq<Reservation>, us: seq<HealthUnit>) {
    && row.0 == (h.med, h.ubs)
    && h.available == row.1 - ActiveReserved(rs, h.med, h.ubs)
    && h.available > 0
    && h.ubsName == UnitName(us, h.ubs)
    && h.ubsAddress == UnitAddress(us, h.ubs)
    && h.latitude == UnitLatitude(us, h.ubs)
    && h.longitude == UnitLongitude(us, h.ubs)
  }

  predicate AllFromRows(hits: seq<SearchHit>, rows: seq<((int, int), int)>, rs: seq<Reservation>, us: seq<HealthUnit>) {
    forall k :: 0 <= k < |hits| ==> exists j :: 0 <= j < |rows| && FromRow(hits[k], rows[j], rs, us)
  }

  /** Every hit comes from a grouped row with its key. */
  lemma {:induction false} HitsOfFromRows(rows: seq<((int, int), int)>, rs: seq<Reservation>, us: seq<HealthUnit>)
    ensures AllFromRows(HitsOf(rows, rs, us), rows, rs, us)
  {
    if rows != [] {
      var n := |rows| - 1;
      var init := rows[..n];
      HitsOfFromRows(init, rs, us);
      var hi := HitsOf(init, rs, us);
      var hits := HitsOf(rows, rs, us);
      assert forall k :: 0 <= k < |hi| ==> hits[k] == hi[k];
      forall k | 0 <= k < |hits| ensures exists j :: 0 <= j < |rows| && FromRow(hits[k], rows[j], rs, us) {
        if k < |hi| {
          assert exists j :: 0 <= j < |init| && FromRow(hi[k], init[j], rs, us);
          var j :| 0 <= j < |init| && FromRow(hi[k], init[j], rs, us);
          assert rows[j] == init[j];
        } else {
          assert FromRow(hits[k], rows[n], rs, us);
        }
      }
    }
  }

  /** A grouped row with a positive availability yields a hit with its key. */
  lemma {:induction false} HitsOfComplete(rows: seq<((int, int), int)>, rs: seq<Reservation>, us: seq<HealthUnit>, j: int)
    requires 0 <= j < |rows| && rows[j].1 - ActiveReserved(rs, rows[j].0.0, rows[j].0.1) > 0
    ensures exists h :: h in HitsOf(rows, rs, us) && (h.med, h.ubs) == rows[j].0
  {
    var n := |rows| - 1;
    var init := rows[..n];
    var hi := HitsOf(init, rs, us);
    var hits := HitsOf(rows, rs, us);
    assert forall k :: 0 <= k < |hi| ==> hits[k] == hi[k];
    if j < n {
      assert rows[j] == init[j];
      HitsOfComplete(init, rs, us, j);
      var h :| h in hi && (h.med, h.ubs) == rows[j].0;
      var k :| 0 <= k < |hi| && hi[k] == h;
      assert hits[k] == h;
    } else {
      assert hits[|hits| - 1].med == rows[j].0.0;
    }
  }

  /** At most one hit per (medication, UBS), and hits ordered by UBS name. */
  predicate HitsOrdered(hits: seq<SearchHit>) {
    && (forall a, b :: 0 <= a < b < |hits| ==> (hits[a].med, hits[a].ubs) != (hits[b].med, hits[b].ubs))
    && (forall a, b :: 0 <= a < b < |hits| ==> StrLe(hits[a].ubsName, hits[b].ubsName))
  }

  /** Hits keep distinct keys and the UBS-name order of the rows. */
  lemma {:induction false} HitsOfOrdered(rows: seq<((int, int), int)>, rs: seq<Reservation>, us: seq<HealthUnit>)
    requires Distinct(KeysOf(rows)) && Sorted(rows, ByUnitName(us))
    ensures HitsOrdered(HitsOf(rows, rs, us))
  {
    if rows != [] {
      var init := rows[..|rows| - 1];
      var last := rows[|rows| - 1];
      assert forall j :: 0 <= j < |init| ==> init[j] == rows[j];
      assert Distinct(KeysOf(init)) by {
        assert forall j :: 0 <= j < |init| ==> KeysOf(init)[j] == KeysOf(rows)[j];
      }
      HitsOfOrdered(init, rs, us);
      HitsOfFromRows(init, rs, us);
      var hi := HitsOf(init, rs, us);
      forall k | 0 <= k < |hi|
        ensures (hi[k].med, hi[k].ubs) != last.0 && StrLe(hi[k].ubsName, UnitName(us, last.0.1))
      {
        assert exists j :: 0 <= j < |init| && FromRow(hi[k], init[j], rs, us);
        var j :| 0 <= j < |init| && FromRow(hi[k], init[j], rs, us);
        assert KeysOf(rows)[j] != KeysOf(rows)[|rows| - 1];
        assert ByUnitName(us)(rows[j], last);
      }
      var hits := HitsOf(rows, rs, us);
      var (med, ubs) := last.0;
      var available := last.1 - ActiveReserved(rs, med, ubs);
      if available > 0 {
        var h := HitOf(med, ubs, available, us);
        assert hits == hi + [h];
        forall a, b | 0 <= a < b < |hits|
          ensures (hits[a].med, hits[a].ubs) != (hits[b].med, hits[b].ubs) && StrLe(hits[a].ubsName, hits[b].ubsName)
        {
          if b == |hi| {
            assert hits[a] == hi[a];
          }
        }
      } else {
        assert hits == hi;
      }
    }
  }

  /** Each listed availability is the admission-control availability of its pair, and positive. */
  lemma HitIsAvailability(lots: seq<StockLot>, rs: seq<Reservation>, ms: seq<Medication>, us: seq<HealthUnit>,
                          pattern: string, like: (string, string) -> bool, today: int, h: SearchHit)
    requires h in HitsOf(SearchRows(lots, ms, us, pattern, like, today), rs, us)
    ensures h.available == Available(lots, rs, h.med, h.ubs, today) && h.available > 0
    ensures PairMatches(ms, us, h.med, h.ubs, pattern, like)
  {
    var rows := SearchRows(lots, ms, us, pattern, like, today);
    var hits := HitsOf(rows, rs, us);
    SearchRowsFacts(lots, ms, us, pattern, like, today);
    HitsOfFromRows(rows, rs, us);
    var k :| 0 <= k < |hits| && hits[k] == h;
    var j :| 0 <= j < |rows| && FromRow(hits[k], rows[j], rs, us);
  }

  lemma HitListedOnlyIf(lots: seq<StockLot>, rs: seq<Reservation>, ms: seq<Medication>, us: seq<HealthUnit>,
                         pattern: string, like: (string, string) -> bool, today: int, h: SearchHit)
    requires h in HitsOf(SearchRows(lots, ms, us, pattern, like, today), rs, us)
    ensures PhysicalStock(lots, h.med, h.ubs, today) > 0
  {
    var rows := SearchRows(lots, ms, us, pattern, like, today);
    var hits := HitsOf(rows, rs, us);
    SearchRowsFacts(lots, ms, us, pattern, like, today);
    HitsOfFromRows(rows, rs, us);
    var k :| 0 <= k < |hits| && hits[k] == h;
    var j :| 0 <= j < |rows| && FromRow(hits[k], rows[j], rs, us);
    assert KeysOf(rows)[j] == (h.med, h.ubs);
  }

  lemma HitListedIf(lots: seq<StockLot>, rs: seq<Reservation>, ms: seq<Medication>, us: seq<HealthUnit>,
                    pattern: string, like: (string, string) -> bool, today: int, med: int, ubs: int)
    requires PairMatches(ms, us, med, ubs, pattern, like) && PhysicalStock(lots, med, ubs, today) > 0
    requires Available(lots, rs, med, ubs, today) > 0
    ensures exists h :: h in HitsOf(SearchRows(lots, ms, us, pattern, like, today), rs, us) && h.med == med && h.ubs == ubs
  {
    var rows := SearchRows(lots, ms, us, pattern, like, today);
    SearchRowsFacts(lots, ms, us, pattern, like, today);
    var j :| 0 <= j < |rows| && KeysOf(rows)[j] == (med, ubs);
    HitsOfComplete(rows, rs, us, j);
  }

  /**
   * A pair is listed exactly when its medication is active and matches, its UBS is
   * active, it has a countable lot, and its availability is positive.
   */
  lemma HitListedIff(lots: seq<StockLot>, rs: seq<Reservation>, ms: seq<Medication>, us: seq<HealthUnit>,
                     pattern: string, like: (string, string) -> bool, today: int, med: int, ubs: int)
    ensures (exists h :: h in HitsOf(SearchRows(lots, ms, us, pattern, like, today), rs, us) && h.med == med && h.ubs == ubs)
        <==> PairMatches(ms, us, med, ubs, pattern, like) && PhysicalStock(lots, med, ubs, today) > 0
             && Available(lots, rs, med, ubs, today) > 0
  {
    var hits := HitsOf(SearchRows(lots, ms, us, pattern, like, today), rs, us);
    if exists h :: h in hits && h.med == med && h.ubs == ubs {
      var h :| h in hits && h.med == med && h.ubs == ubs;
      HitIsAvailability(lots, rs, ms, us, pattern, like, today, h);
      HitListedOnlyIf(lots, rs, ms, us, pattern, like, today, h);
    }
    if PairMatches(ms, us, med, ubs, pattern, like) && PhysicalStock(lots, med, ubs, today) > 0
       && Available(lots, rs, med, ubs, today) > 0 {
      HitListedIf(lots, rs, ms, us, pattern, like, today, med, ubs);
    }
  }

  /** At most one hit per (medication, UBS), ordered by UBS name. */
  lemma HitsDistinctAndOrdered(lots: seq<StockLot>, rs: seq<Reservation>, ms: seq<Medication>, us: seq<HealthUnit>,
                               pattern: string, like: (string, string) -> bool, today: int)
    ensures HitsOrdered(HitsOf(SearchRows(lots, ms, us, pattern, like, today), rs, us))
  {
    SearchRowsFacts(lots, ms, us, pattern, like, today);
    HitsOfOrdered(SearchRows(lots, ms, us, pattern, like, today), rs, us);
  }

  /** The list built before the exception is a prefix of the one the loop builds without it. */
  lemma {:induction false} HitsOfPrefix(rows: seq<((int, int), int)>, rs: seq<Reservation>, us: seq<HealthUnit>, k: int)
    requires 0 <= k <= |rows|
    ensures HitsOf(rows[..k], rs, us) <= HitsOf(rows, rs, us)
  {
    if k < |rows| {
      var init := rows[..|rows| - 1];
      assert init[..k] == rows[..k];
      HitsOfPrefix(init, rs, us, k);
    } else {
      assert rows[..k] == rows;
    }
  }

  /** What the loop leaves in `resultados` is a prefix of the full hit list, and all of it when nothing throws. */
  lemma PartialIsPrefix(rows: seq<((int, int), int)>, rs: seq<Reservation>, us: seq<HealthUnit>)
    ensures Partial(rows, rs, us) <= HitsOf(rows, rs, us)
    ensures FirstUnmappable(rows, rs, us).None? ==> Partial(rows, rs, us) == HitsOf(rows, rs, us)
  {
    if FirstUnmappable(rows, rs, us).Some? {
      HitsOfPrefix(rows, rs, us, FirstUnmappable(rows, rs, us).value);
    }
  }

  /** No hit comes out exactly when no grouped row is kept. */
  lemma {:induction false} HitsOfEmptyIff(rows: seq<((int, int), int)>, rs: seq<Reservation>, us: seq<HealthUnit>)
    ensures HitsOf(rows, rs, us) == [] <==> forall j :: 0 <= j < |rows| ==> !Kept(rows[j], rs)
  {
    if rows != [] {
      var init := rows[..|rows| - 1];
      HitsOfEmptyIff(init, rs, us);
      assert forall j :: 0 <= j < |init| ==> init[j] == rows[j];
    }
  }

  /** A failed search logs "had results" exactly when a row before the throwing one was kept. */
  lemma FailedLogHadResults(rows: seq<((int, int), int)>, rs: seq<Reservation>, us: seq<HealthUnit>)
    requires FirstUnmappable(rows, rs, us).Some?
    ensures Partial(rows, rs, us) != []
        <==> exists j :: 0 <= j < FirstUnmappable(rows, rs, us).value && Kept(rows[j], rs)
  {
    var k := FirstUnmappable(rows, rs, us).value;
    HitsOfEmptyIff(rows[..k], rs, us);
    assert forall j :: 0 <= j < k ==> rows[..k][j] == rows[j];
  }

  /** The pair would be listed, but its UBS has a NULL address, latitude or longitude. */
  predicate UnmappablePair(lots: seq<StockLot>, rs: seq<Reservation>, ms: seq<Medication>, us: seq<HealthUnit>,
                           pattern: string, like: (string, string) -> bool, today: int, med: int, ubs: int) {
    && PairMatches(ms, us, med, ubs, pattern, like) && PhysicalStock(lots, med, ubs, today) > 0
    && Available(lots, rs, med, ubs, today) > 0 && !Mappable(us, ubs)
  }

  ghost predicate SomeUnmappablePair(lots: seq<StockLot>, rs: seq<Reservation>, ms: seq<Medication>, us: seq<HealthUnit>,
                               pattern: string, like: (string, string) -> bool, today: int) {
    exists med, ubs :: UnmappablePair(lots, rs, ms, us, pattern, like, today, med, ubs)
  }

  lemma SearchFailsOnlyIf(lots: seq<StockLot>, rs: seq<Reservation>, ms: seq<Medication>, us: seq<HealthUnit>,
                          pattern: string, like: (string, string) -> bool, today: int)
    requires FirstUnmappable(SearchRows(lots, ms, us, pattern, like, today), rs, us).Some?
    ensures SomeUnmappablePair(lots, rs, ms, us, pattern, like, today)
  {
    var rows := SearchRows(lots, ms, us, pattern, like, today);
    SearchRowsFacts(lots, ms, us, pattern, like, today);
    var k := FirstUnmappable(rows, rs, us).value;
    var (med, ubs) := rows[k].0;
    assert KeysOf(rows)[k] == (med, ubs);
    assert UnmappablePair(lots, rs, ms, us, pattern, like, today, med, ubs);
  }

  lemma SearchFailsIf(lots: seq<StockLot>, rs: seq<Reservation>, ms: seq<Medication>, us: seq<HealthUnit>,
                      pattern: string, like: (string, string) -> bool, today: int, med: int, ubs: int)
    requires UnmappablePair(lots, rs, ms, us, pattern, like, today, med, ubs)
    ensures FirstUnmappable(SearchRows(lots, ms, us, pattern, like, today), rs, us).Some?
  {
    var rows := SearchRows(lots, ms, us, pattern, like, today);
    SearchRowsFacts(lots, ms, us, pattern, like, today);
    assert (med, ubs) in KeysOf(rows);
    var j :| 0 <= j < |rows| && KeysOf(rows)[j] == (med, ubs);
    assert Unmappable(rows[j], rs, us);
  }

  /**
   * The search fails exactly when some pair it would list belongs to a UBS with a
   * NULL address, latitude or longitude.
   */
  lemma SearchFailsIff(lots: seq<StockLot>, rs: seq<Reservation>, ms: seq<Medication>, us: seq<HealthUnit>,
                       pattern: string, like: (string, string) -> bool, today: int)
    ensures FirstUnmappable(SearchRows(lots, ms, us, pattern, like, today), rs, us).Some?
        <==> SomeUnmappablePair(lots, rs, ms, us, pattern, like, today)
  {
    if FirstUnmappable(SearchRows(lots, ms, us, pattern, like, today), rs, us).Some? {
      SearchFailsOnlyIf(lots, rs, ms, us, pattern, like, today);
    }
    if SomeUnmappablePair(lots, rs, ms, us, pattern, like, today) {
      var med, ubs :| UnmappablePair(lots, rs, ms, us, pattern, like, today, med, ubs);
      SearchFailsIf(lots, rs, ms, us, pattern, like, today, med, ubs);
    }
  }

  /** When the search answers, every hit carries its UBS's non-NULL address and coordinates. */
  lemma AnsweredHitsCarryUnitColumns(rows: seq<((int, int), int)>, rs: seq<Reservation>, us: seq<HealthUnit>)
    requires FirstUnmappable(rows, rs, us).None?
    ensures forall h :: h in HitsOf(rows, rs, us) ==>
      var u := FindUnit(us, h.ubs);
      && u.Some? && u.value.name == h.ubsName && u.value.address == Some(h.ubsAddress)
      && u.value.latitude == Some(h.latitude) && u.value.longitude == Some(h.longitude)
  {
    var hits := HitsOf(rows, rs, us);
    HitsOfFromRows(rows, rs, us);
    forall h | h in hits
      ensures var u := FindUnit(us, h.ubs);
        && u.Some? && u.value.name == h.ubsName && u.value.address == Some(h.ubsAddress)
        && u.value.latitude == Some(h.latitude) && u.value.longitude == Some(h.longitude)
    {
      var k :| 0 <= k < |hits| && hits[k] == h;
      assert exists j :: 0 <= j < |rows| && FromRow(hits[k], rows[j], rs, us);
      var j :| 0 <= j < |rows| && FromRow(hits[k], rows[j], rs, us);
      assert !Unmappable(rows[j], rs, us);
    }
  }

  /** UPDATE medicamentos SET ativo = a WHERE id_medicamento = id. */
  function SetActive(ms: seq<Medication>, id: int, a: bool): seq<Medication> {
    seq(|ms|, i requires 0 <= i < |ms| => if ms[i].id == id then ms[i].(active := a) else ms[i])
  }

  /**
   * The admin id read from X-User-ID after the UPDATE: None for a missing header,
   * Some(None) when Integer.parseInt throws on it.
   */
  function AdminId(header: Option<string>): Option<Option<int>> {
    if header.None? then Some(None)
    else if ParseInt(header.value).Some? then Some(Some(ParseInt(header.value).value))
    else None
  }

  /**
   * alterarStatus: set the `ativo` flag of the medication, then audit "ATIVAR" or
   * "DESATIVAR" under the header's admin id. The header is parsed only after the
   * UPDATE has been committed, so a malformed one answers 500 with the flag changed and
   * no audit row.
   */
  method SetStatus(db: Database, trail: Audit.AuditTrail, id: int, active: bool, header: Option<string>,
                   lookup: (string, int) -> Option<string>, auditFails: bool)
    returns (status: int)
    requires db.Valid()
    modifies db, trail
    ensures db.Valid()
    ensures db.medications == SetActive(old(db.medications), id, active)
    ensures unchanged(db`lots, db`reservations, db`units, db`withdrawals, db`withdrawalLines, db`searchLog)
    ensures unchanged(db`nextLotId, db`nextReservationId, db`nextWithdrawalId)
    ensures status == (if AdminId(header).None? then 500 else 200)
    ensures trail.rows == old(trail.rows)
      + (if AdminId(header).None? then []
         else Audit.Logged(AdminId(header).value, if active then "ATIVAR" else "DESATIVAR", "medicamentos", id, None,
                           lookup, auditFails))
  {
    var updated := SetActive(db.medications, id, active);
    assert forall i :: 0 <= i < |updated| ==> updated[i].id == db.medications[i].id;
    db.medications := updated;
    var admin: Option<int> := None;
    if header.Some? {
      var parsed := ParseInt(header.value);
      if parsed.None? {
        return 500;
      }
      admin := Some(parsed.value);
    }
    trail.Record(admin, if active then "ATIVAR" else "DESATIVAR", "medicamentos", id, None, lookup, auditFails);
    status := 200;
  }

  /** excluir: the soft delete, setting `ativo` to false and auditing "DESATIVAR"; the row stays. */
  method Deactivate(db: Database, trail: Audit.AuditTrail, id: int, header: Option<string>,
                    lookup: (string, int) -> Option<string>, auditFails: bool)
    returns (status: int)
    requires db.Valid()
    modifies db, trail
    ensures db.Valid()
    ensures db.medications == SetActive(old(db.medications), id, false)
    ensures |db.medications| == |old(db.medications)|
    ensures unchanged(db`lots, db`reservations, db`units, db`withdrawals, db`withdrawalLines, db`searchLog)
    ensures unchanged(db`nextLotId, db`nextReservationId, db`nextWithdrawalId)
    ensures status == (if AdminId(header).None? then 500 else 200)
    ensures trail.rows == old(trail.rows)
      + (if AdminId(header).None? then []
         else Audit.Logged(AdminId(header).value, "DESATIVAR", "medicamentos", id, None, lookup, auditFails))
  {
    status := SetStatus(db, trail, id, false, header, lookup, auditFails);
  }

  /** The row a lookup finds after the status switch carries the new flag. */
  lemma {:induction false} FindAfterSetActive(ms: seq<Medication>, id: int, a: bool)
    ensures var f := FindMedication(SetActive(ms, id, a), id);
      f.Some? ==> f.value.active == a
    ensures FindMedication(SetActive(ms, id, a), id).Some? <==> FindMedication(ms, id).Some?
  {
    if ms != [] {
      assert SetActive(ms, id, a)[1..] == SetActive(ms[1..], id, a);
      FindAfterSetActive(ms[1..], id, a);
    }
  }

  /** A deactivated medication is absent from every search. */
  lemma DeactivatedNotFound(lots: seq<StockLot>, rs: seq<Reservation>, ms: seq<Medication>, us: seq<HealthUnit>,
                            pattern: string, like: (string, string) -> bool, today: int, id: int)
    ensures forall h :: (h in HitsOf(SearchRows(lots, SetActive(ms, id, false), us, pattern, like, today), rs, us)
      ==> h.med != id)
  {
    var ms' := SetActive(ms, id, false);
    FindAfterSetActive(ms, id, false);
    forall h | h in HitsOf(SearchRows(lots, ms', us, pattern, like, today), rs, us) ensures h.med != id {
      HitIsAvailability(lots, rs, ms', us, pattern, like, today, h);
    }
  }
}
