/**
 * The pharmacy ledger: medications, health units (UBS), stock lots, reservations,
 * withdrawals and the search log, held by one `Database` object whose tables the
 * controllers read and rewrite. Also the availability rule shared by search and
 * reservation admission: non-expired positive stock minus active reservations.
 *
 * Dates are day numbers and `today` is the day of CURDATE(); instants are
 * integers and `now` is passed in by the caller.
 */
module Ledger {
  import opened Options
  import opened Relational

  datatype Medication = Medication(id: int, commercialName: string, activeIngredient: string, active: bool)

  /** A row of `ubs`; the address and the coordinates are nullable columns (DECIMAL coordinates as `real`). */
  datatype HealthUnit = HealthUnit(
    id: int, name: string, address: Option<string>, latitude: Option<real>, longitude: Option<real>, active: bool)

  /** A row of `estoque`; the expiry may be NULL in the table. */
  datatype StockLot = StockLot(id: int, ubs: int, med: int, quantity: int, lot: string, expiry: Option<int>)

  datatype ReservationStatus = Active | Cancelled

  /** A row of `reservas`. */
  datatype Reservation = Reservation(
    id: int, user: int, med: int, ubs: int, quantity: int, pickupAt: int, status: ReservationStatus)

  /** A row of `retiradas` (the header of one withdrawal). */
  datatype Withdrawal = Withdrawal(id: int, patient: int, ubs: int, pharmacist: int, at: int)

  /** A row of `itens_retiradas`. */
  datatype WithdrawalLine = WithdrawalLine(withdrawal: int, med: int, lot: int, quantity: int)

  /** A row of `log_buscas`. */
  datatype SearchLogEntry = SearchLogEntry(
    term: string, hadResults: bool, user: Option<int>, foundMed: Option<int>, at: int)

  predicate UniqueLotIds(lots: seq<StockLot>) {
    forall i, j :: 0 <= i < j < |lots| ==> lots[i].id != lots[j].id
  }

  /** The unique key `uk_medicamento_ubs_lote`. */
  predicate SameKey(a: StockLot, b: StockLot) {
    a.med == b.med && a.ubs == b.ubs && a.lot == b.lot
  }

  predicate UniqueLotKeys(lots: seq<StockLot>) {
    forall i, j :: 0 <= i < j < |lots| ==> !SameKey(lots[i], lots[j])
  }

  predicate UniqueReservationIds(rs: seq<Reservation>) {
    forall i, j :: 0 <= i < j < |rs| ==> rs[i].id != rs[j].id
  }

  predicate UniqueMedicationIds(ms: seq<Medication>) {
    forall i, j :: 0 <= i < j < |ms| ==> ms[i].id != ms[j].id
  }

  predicate UniqueUnitIds(us: seq<HealthUnit>) {
    forall i, j :: 0 <= i < j < |us| ==> us[i].id != us[j].id
  }

  /** The table whose rows the controllers of the core read and write. */
  class Database {
    var medications: seq<Medication>
    var units: seq<HealthUnit>
    var lots: seq<StockLot>
    var reservations: seq<Reservation>
    var withdrawals: seq<Withdrawal>
    var withdrawalLines: seq<WithdrawalLine>
    var searchLog: seq<SearchLogEntry>
    // The next values of the AUTO_INCREMENT columns.
    var nextLotId: int
    var nextReservationId: int
    var nextWithdrawalId: int

    /** Primary and unique keys hold, and every stored id is below its counter. */
    ghost predicate Valid()
      reads this
    {
      && UniqueMedicationIds(medications)
      && UniqueUnitIds(units)
      && UniqueLotIds(lots)
      && UniqueLotKeys(lots)
      && (forall i :: 0 <= i < |lots| ==> lots[i].id < nextLotId)
      && UniqueReservationIds(reservations)
      && (forall i :: 0 <= i < |reservations| ==> reservations[i].id < nextReservationId)
      && (forall i :: 0 <= i < |withdrawals| ==> withdrawals[i].id < nextWithdrawalId)
    }

    constructor ()
      ensures Valid()
      ensures medications == [] && units == [] && lots == [] && reservations == []
      ensures withdrawals == [] && withdrawalLines == [] && searchLog == []
    {
      medications, units, lots, reservations := [], [], [], [];
      withdrawals, withdrawalLines, searchLog := [], [], [];
      nextLotId, nextReservationId, nextWithdrawalId := 1, 1, 1;
    }
  }

  /** A lot counts as physical stock: positive quantity and an expiry after today. */
  predicate Countable(l: StockLot, today: int) {
    l.quantity > 0 && l.expiry.Some? && l.expiry.value > today
  }

  function LotContribution(l: StockLot, med: int, ubs: int, today: int): int {
    if l.med == med && l.ubs == ubs && Countable(l, today) then l.quantity else 0
  }

  /** SUM(quantidade) of the countable lots of (med, ubs), 0 when there are none. */
  function PhysicalStock(lots: seq<StockLot>, med: int, ubs: int, today: int): (n: int)
    ensures n >= 0
    ensures n > 0 <==> exists i :: 0 <= i < |lots| && lots[i].med == med && lots[i].ubs == ubs && Countable(lots[i], today)
  {
    if lots == [] then 0
    else
      var init := lots[..|lots| - 1];
      assert forall i :: 0 <= i < |init| ==> init[i] == lots[i];
      PhysicalStock(init, med, ubs, today) + LotContribution(lots[|lots| - 1], med, ubs, today)
  }

  function ReservationContribution(r: Reservation, med: int, ubs: int): int {
    if r.med == med && r.ubs == ubs && r.status == Active then r.quantity else 0
  }

  /** SUM(quantidade_reservada) of the active reservations of (med, ubs). */
  function ActiveReserved(rs: seq<Reservation>, med: int, ubs: int): int {
    if rs == [] then 0
    else ActiveReserved(rs[..|rs| - 1], med, ubs) + ReservationContribution(rs[|rs| - 1], med, ubs)
  }

  /** The availability of a (medication, UBS) pair; it may be negative. */
  function Available(lots: seq<StockLot>, rs: seq<Reservation>, med: int, ubs: int, today: int): int {
    PhysicalStock(lots, med, ubs, today) - ActiveReserved(rs, med, ubs)
  }

  lemma ActiveReservedAppend(rs: seq<Reservation>, r: Reservation, med: int, ubs: int)
    ensures ActiveReserved(rs + [r], med, ubs) == ActiveReserved(rs, med, ubs) + ReservationContribution(r, med, ubs)
  {
    assert (rs + [r])[..|rs|] == rs;
  }

  /** Replacing one reservation changes the reserved sum by the difference of the two rows. */
  lemma {:induction false} ActiveReservedUpdate(rs: seq<Reservation>, k: int, r: Reservation, med: int, ubs: int)
    requires 0 <= k < |rs|
    ensures ActiveReserved(rs[k := r], med, ubs)
         == ActiveReserved(rs, med, ubs) - ReservationContribution(rs[k], med, ubs) + ReservationContribution(r, med, ubs)
  {
    var n := |rs| - 1;
    if k < n {
      assert rs[k := r][..n] == rs[..n][k := r];
      ActiveReservedUpdate(rs[..n], k, r, med, ubs);
    } else {
      assert rs[k := r][..n] == rs[..n];
    }
  }

  /** Rows that differ only outside (med, ubs) or only in non-active ones leave the sum alone. */
  lemma {:induction false} ActiveReservedSame(rs: seq<Reservation>, ts: seq<Reservation>, med: int, ubs: int)
    requires |rs| == |ts|
    requires forall i :: 0 <= i < |rs| ==> ReservationContribution(rs[i], med, ubs) == ReservationContribution(ts[i], med, ubs)
    ensures ActiveReserved(rs, med, ubs) == ActiveReserved(ts, med, ubs)
  {
    if rs != [] {
      ActiveReservedSame(rs[..|rs| - 1], ts[..|ts| - 1], med, ubs);
    }
  }

  /** Physical stock depends on the lots alone, element by element. */
  lemma {:induction false} PhysicalStockSame(ls: seq<StockLot>, ms: seq<StockLot>, med: int, ubs: int, today: int)
    requires |ls| == |ms|
    requires forall i :: 0 <= i < |ls| ==> LotContribution(ls[i], med, ubs, today) == LotContribution(ms[i], med, ubs, today)
    ensures PhysicalStock(ls, med, ubs, today) == PhysicalStock(ms, med, ubs, today)
  {
    if ls != [] {
      PhysicalStockSame(ls[..|ls| - 1], ms[..|ms| - 1], med, ubs, today);
    }
  }

  /** The quantity of every lot, summed: the total stock of the ledger. */
  function TotalStock(lots: seq<StockLot>): int {
    if lots == [] then 0 else TotalStock(lots[..|lots| - 1]) + lots[|lots| - 1].quantity
  }

  lemma {:induction false} TotalStockUpdate(lots: seq<StockLot>, k: int, l: StockLot)
    requires 0 <= k < |lots|
    ensures TotalStock(lots[k := l]) == TotalStock(lots) - lots[k].quantity + l.quantity
  {
    var n := |lots| - 1;
    if k < n {
      assert lots[k := l][..n] == lots[..n][k := l];
      TotalStockUpdate(lots[..n], k, l);
    } else {
      assert lots[k := l][..n] == lots[..n];
    }
  }

  /** Every lot quantity is at least zero. */
  predicate NonNegativeStock(lots: seq<StockLot>) {
    forall i :: 0 <= i < |lots| ==> lots[i].quantity >= 0
  }

  /** The position of the row with primary key `id`, if there is one. */
  function LotIndex(lots: seq<StockLot>, id: int): (r: Option<nat>)
    ensures r.Some? ==> r.value < |lots| && lots[r.value].id == id
    ensures r.None? ==> forall i :: 0 <= i < |lots| ==> lots[i].id != id
  {
    if lots == [] then None
    else if lots[|lots| - 1].id == id then Some(|lots| - 1)
    else LotIndex(lots[..|lots| - 1], id)
  }

  /** The medication row with that id (the row a JOIN on it pairs with). */
  function FindMedication(ms: seq<Medication>, id: int): Option<Medication> {
    FindFirst(ms, (m: Medication) => m.id, id)
  }

  function FindUnit(us: seq<HealthUnit>, id: int): Option<HealthUnit> {
    FindFirst(us, (u: HealthUnit) => u.id, id)
  }

  /** With unique ids, the row found is the only one carrying that id. */
  lemma FindMedicationUnique(ms: seq<Medication>, k: int)
    requires UniqueMedicationIds(ms) && 0 <= k < |ms|
    ensures FindMedication(ms, ms[k].id) == Some(ms[k])
  {
    FindFirstUnique(ms, (m: Medication) => m.id, k);
  }

  lemma FindUnitUnique(us: seq<HealthUnit>, k: int)
    requires UniqueUnitIds(us) && 0 <= k < |us|
    ensures FindUnit(us, us[k].id) == Some(us[k])
  {
    FindFirstUnique(us, (u: HealthUnit) => u.id, k);
  }

  predicate MedicationActive(ms: seq<Medication>, id: int) {
    var m := FindMedication(ms, id);
    m.Some? && m.value.active
  }

  predicate UnitActive(us: seq<HealthUnit>, id: int) {
    var u := FindUnit(us, id);
    u.Some? && u.value.active
  }
}
