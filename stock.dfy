/**
 * EstoqueController: the lot table `estoque` under its unique key
 * `uk_medicamento_ubs_lote` (medication, UBS, lot code). The existence check the
 * admin form runs before saving, insert, full-row update, physical delete, and the
 * listing of lots whose medication and UBS are both active.
 */
module Stock {
  import opened Options
  import opened Text
  import opened Relational
  import opened Ledger
  import Audit

  /** Some row holds the key (ubs, med, lot), other than the row `exclude` names. */
  predicate LotTaken(lots: seq<StockLot>, ubs: int, med: int, lot: string, exclude: Option<int>) {
    exists i :: 0 <= i < |lots| && lots[i].ubs == ubs && lots[i].med == med && lots[i].lot == lot
                && (exclude.None? || lots[i].id != exclude.value)
  }

  datatype CheckOutcome =
    | CheckFailed          // an id did not parse: 500
    | Checked(found: bool) // {"existe": found}

  /**
   * verificarLote. id_estoque_excluir is read with OptionalInt. The ids arrive as String.valueOf renders the JSON values (so a
   * missing id is the text "null"); a null lot code matches no row, since `lote = NULL`
   * is never true in SQL.
   */
  function CheckLot(lots: seq<StockLot>, ubsText: string, medText: string, lot: Option<string>,
                    exclusion: Option<string>): (r: CheckOutcome)
    ensures r.CheckFailed? <==> OptionalInt(exclusion).None? || ParseInt(ubsText).None? || ParseInt(medText).None?
    ensures r.Checked? ==>
      (r.found <==>
         (lot.Some? && exists i :: (0 <= i < |lots| && lots[i].ubs == ParseInt(ubsText).value
                                    && lots[i].med == ParseInt(medText).value && lots[i].lot == lot.value
                                    && (OptionalInt(exclusion).value.None? || lots[i].id != OptionalInt(exclusion).value.value))))
  {
    var ex, ubs, med := OptionalInt(exclusion), ParseInt(ubsText), ParseInt(medText);
    if ex.None? || ubs.None? || med.None? then CheckFailed
    else Checked(lot.Some? && LotTaken(lots, ubs.value, med.value, lot.value, ex.value))
  }

  /** Some row already holds the unique key of `row`. */
  predicate KeyTaken(lots: seq<StockLot>, row: StockLot) {
    exists i :: 0 <= i < |lots| && SameKey(lots[i], row)
  }

  /** A row of the table that is itself checked, with its own id excluded, never conflicts with itself. */
  lemma CheckLotIgnoresOwnRow(lots: seq<StockLot>, k: int)
    requires UniqueLotKeys(lots) && 0 <= k < |lots|
    requires InInt32(lots[k].ubs) && InInt32(lots[k].med) && InInt32(lots[k].id)
    ensures CheckLot(lots, IntToString(lots[k].ubs), IntToString(lots[k].med), Some(lots[k].lot),
                     Some(IntToString(lots[k].id))) == Checked(false)
  {
    var l := lots[k];
    ParseIntToString(l.ubs);
    ParseIntToString(l.med);
    ParseIntToString(l.id);
    assert OptionalInt(Some(IntToString(l.id))) == Some(Some(l.id));
    forall i | 0 <= i < |lots| && lots[i].ubs == l.ubs && lots[i].med == l.med && lots[i].lot == l.lot
      ensures lots[i].id == l.id
    {
      KeyPinsRow(lots, i, k);
    }
  }

  /** Under the unique key, two rows with the same key are the same row. */
  lemma KeyPinsRow(lots: seq<StockLot>, i: int, j: int)
    requires UniqueLotKeys(lots) && 0 <= i < |lots| && 0 <= j < |lots| && SameKey(lots[i], lots[j])
    ensures i == j
  {
  }

  /** Without an exclusion id the check reports exactly the duplicate an INSERT would hit. */
  lemma CheckLotPredictsInsert(lots: seq<StockLot>, row: StockLot)
    requires InInt32(row.ubs) && InInt32(row.med)
    ensures CheckLot(lots, IntToString(row.ubs), IntToString(row.med), Some(row.lot), None) == Checked(KeyTaken(lots, row))
  {
    ParseIntToString(row.ubs);
    ParseIntToString(row.med);
    if KeyTaken(lots, row) {
      var i :| 0 <= i < |lots| && SameKey(lots[i], row);
      assert lots[i].ubs == row.ubs && lots[i].med == row.med && lots[i].lot == row.lot;
    }
  }

  /** The fields of the stock form: the ids and quantity as rendered text, the expiry as a parsed date. */
  datatype LotForm = LotForm(ubs: string, med: string, quantity: string, lot: string, expiry: Option<int>)

  /**
   * The row the form describes, with primary key `id`; None when a number does not
   * parse or the date is missing (Date.valueOf throws), both of which answer 500.
   */
  function RowOf(id: int, f: LotForm): Option<StockLot> {
    var ubs, med, qty := ParseInt(f.ubs), ParseInt(f.med), ParseInt(f.quantity);
    if ubs.Some? && med.Some? && qty.Some? && f.expiry.Some? then
      Some(StockLot(id, ubs.value, med.value, qty.value, f.lot, f.expiry))
    else None
  }

  /** The form the edit screen fills from a row. */
  function FormOf(l: StockLot): LotForm {
    LotForm(IntToString(l.ubs), IntToString(l.med), IntToString(l.quantity), l.lot, l.expiry)
  }

  /** Saving the form of a row with a date and 32-bit fields describes that same row. */
  lemma RowOfFormOf(l: StockLot)
    requires InInt32(l.ubs) && InInt32(l.med) && InInt32(l.quantity) && l.expiry.Some?
    ensures RowOf(l.id, FormOf(l)) == Some(l)
  {
    ParseIntToString(l.ubs);
    ParseIntToString(l.med);
    ParseIntToString(l.quantity);
  }

  datatype SaveOutcome =
    | Malformed      // a field did not parse: 500
    | Duplicate      // uk_medicamento_ubs_lote violated: 409
    | Saved(id: int)

  function InsertStatus(out: SaveOutcome): int {
    match out
    case Malformed => 500
    case Duplicate => 409
    case Saved(_) => 201
  }

  function UpdateLotStatus(out: SaveOutcome): int {
    match out
    case Malformed => 500
    case Duplicate => 409
    case Saved(_) => 200
  }

  /** Appending a row keeps the key unique exactly when no row already holds its key. */
  lemma AppendKeepsKeysUnique(lots: seq<StockLot>, row: StockLot)
    requires UniqueLotKeys(lots)
    ensures UniqueLotKeys(lots + [row]) <==> !KeyTaken(lots, row)
  {
    var all := lots + [row];
    if KeyTaken(lots, row) {
      var i :| 0 <= i < |lots| && SameKey(lots[i], row);
      assert SameKey(all[i], all[|lots|]);
    } else {
      forall i, j | 0 <= i < j < |all| ensures !SameKey(all[i], all[j]) {
        if j == |lots| {
          assert all[i] == lots[i];
        }
      }
    }
  }

  /**
   * cadastrarEstoque: INSERT with a fresh AUTO_INCREMENT id; a duplicate key is refused
   * with 409. `f` is the body as the statement reads it and `item` the same body as the
   * JSON map handed to the audit; only a saved row is audited, as "CRIAR" with no user.
   */
  method InsertLot(db: Database, trail: Audit.AuditTrail, f: LotForm, item: Audit.Details,
                   lookup: (string, int) -> Option<string>, auditFails: bool)
    returns (out: SaveOutcome)
    requires db.Valid()
    modifies db, trail
    ensures db.Valid()
    ensures out.Malformed? <==> RowOf(0, f).None?
    ensures out.Duplicate? <==> RowOf(0, f).Some? && KeyTaken(old(db.lots), RowOf(0, f).value)
    ensures out.Saved? ==>
      && out.id == old(db.nextLotId) && RowOf(out.id, f).Some?
      && db.lots == old(db.lots) + [RowOf(out.id, f).value]
      && db.nextLotId == old(db.nextLotId) + 1
    ensures !out.Saved? ==> unchanged(db`lots, db`nextLotId)
    ensures unchanged(db`medications, db`units, db`reservations, db`withdrawals, db`withdrawalLines, db`searchLog)
    ensures unchanged(db`nextReservationId, db`nextWithdrawalId)
    ensures trail.rows == old(trail.rows)
      + (if out.Saved? then Audit.Logged(None, "CRIAR", "estoque", out.id, Some(item), lookup, auditFails) else [])
  {
    var probe := RowOf(0, f);
    if probe.None? {
      return Malformed;
    }
    var row := RowOf(db.nextLotId, f).value;
    assert SameKey(row, probe.value);
    if exists i :: 0 <= i < |db.lots| && SameKey(db.lots[i], row) {
      return Duplicate;
    }
    AppendKeepsKeysUnique(db.lots, row);
    db.lots := db.lots + [row];
    db.nextLotId := db.nextLotId + 1;
    out := Saved(row.id);
    trail.Record(None, "CRIAR", "estoque", out.id, Some(item), lookup, auditFails);
  }

  /** UPDATE ... WHERE id_estoque = id: every row with that id takes the new values. */
  function Overwrite(lots: seq<StockLot>, id: int, row: StockLot): seq<StockLot> {
    seq(|lots|, i requires 0 <= i < |lots| => if lots[i].id == id then row else lots[i])
  }

  /**
   * The UPDATE violates the unique key: row `id` exists and some other row already
   * holds the new key. With no row `id` the UPDATE changes nothing and cannot conflict.
   */
  predicate UpdateConflicts(lots: seq<StockLot>, id: int, row: StockLot) {
    LotIndex(lots, id).Some? && exists j :: 0 <= j < |lots| && lots[j].id != id && SameKey(lots[j], row)
  }

  /** With unique ids the UPDATE rewrites exactly the one row `id`; with no such row it is a no-op. */
  lemma OverwriteOneRow(lots: seq<StockLot>, id: int, row: StockLot)
    requires UniqueLotIds(lots)
    ensures LotIndex(lots, id).Some? ==> Overwrite(lots, id, row) == lots[LotIndex(lots, id).value := row]
    ensures LotIndex(lots, id).None? ==> Overwrite(lots, id, row) == lots
  {
    var r := Overwrite(lots, id, row);
    if LotIndex(lots, id).Some? {
      var k := LotIndex(lots, id).value;
      forall i | 0 <= i < |lots| && i != k ensures lots[i].id != id {
        if i < k {
          assert lots[i].id != lots[k].id;
        } else {
          assert lots[k].id != lots[i].id;
        }
      }
      assert r == lots[k := row];
    } else {
      assert r == lots;
    }
  }

  /** The update keeps the keys unique exactly when it does not conflict. */
  lemma OverwriteKeepsKeysUnique(lots: seq<StockLot>, id: int, row: StockLot)
    requires UniqueLotIds(lots) && UniqueLotKeys(lots) && row.id == id
    ensures UniqueLotIds(Overwrite(lots, id, row))
    ensures UniqueLotKeys(Overwrite(lots, id, row)) <==> !UpdateConflicts(lots, id, row)
  {
    OverwriteOneRow(lots, id, row);
    var r := Overwrite(lots, id, row);
    if LotIndex(lots, id).Some? {
      var k := LotIndex(lots, id).value;
      assert forall i :: 0 <= i < |lots| ==> r[i].id == lots[i].id;
      if UpdateConflicts(lots, id, row) {
        var j :| 0 <= j < |lots| && lots[j].id != id && SameKey(lots[j], row);
        assert r[j] == lots[j] && r[k] == row;
        if j < k {
          assert SameKey(r[j], r[k]);
        } else {
          assert SameKey(r[k], r[j]);
        }
      } else {
        forall i, j | 0 <= i < j < |r| ensures !SameKey(r[i], r[j]) {
          if i == k {
            assert lots[j].id != id;
          } else if j == k {
            assert lots[i].id != id;
            assert !SameKey(lots[i], row);
          }
        }
      }
    }
  }

  /** With the edited row's id excluded, the check reports exactly the conflict the UPDATE would hit. */
  lemma CheckLotPredictsUpdate(lots: seq<StockLot>, id: int, row: StockLot)
    requires InInt32(row.ubs) && InInt32(row.med) && InInt32(id) && LotIndex(lots, id).Some?
    ensures CheckLot(lots, IntToString(row.ubs), IntToString(row.med), Some(row.lot), Some(IntToString(id)))
         == Checked(UpdateConflicts(lots, id, row))
  {
    ParseIntToString(row.ubs);
    ParseIntToString(row.med);
    ParseIntToString(id);
    assert OptionalInt(Some(IntToString(id))) == Some(Some(id));
    if UpdateConflicts(lots, id, row) {
      var j :| 0 <= j < |lots| && lots[j].id != id && SameKey(lots[j], row);
      assert lots[j].ubs == row.ubs && lots[j].med == row.med && lots[j].lot == row.lot;
    }
  }

  /**
   * atualizarEstoque: overwrites all five fields of row `id`; a duplicate key is refused
   * with 409. Every UPDATE that runs, even one that finds no row, is audited as "ATUALIZAR".
   */
  method UpdateLot(db: Database, trail: Audit.AuditTrail, id: int, f: LotForm, item: Audit.Details,
                   lookup: (string, int) -> Option<string>, auditFails: bool)
    returns (out: SaveOutcome)
    requires db.Valid()
    modifies db, trail
    ensures db.Valid()
    ensures out.Malformed? <==> RowOf(id, f).None?
    ensures out.Duplicate? <==> RowOf(id, f).Some? && UpdateConflicts(old(db.lots), id, RowOf(id, f).value)
    ensures out.Saved? ==> out.id == id && db.lots == Overwrite(old(db.lots), id, RowOf(id, f).value)
    ensures !out.Saved? ==> unchanged(db`lots)
    ensures unchanged(db`medications, db`units, db`reservations, db`withdrawals, db`withdrawalLines, db`searchLog)
    ensures unchanged(db`nextLotId, db`nextReservationId, db`nextWithdrawalId)
    ensures trail.rows == old(trail.rows)
      + (if out.Saved? then Audit.Logged(None, "ATUALIZAR", "estoque", id, Some(item), lookup, auditFails) else [])
  {
    var row := RowOf(id, f);
    if row.None? {
      return Malformed;
    }
    if LotIndex(db.lots, id).Some? && exists j :: 0 <= j < |db.lots| && db.lots[j].id != id && SameKey(db.lots[j], row.value) {
      return Duplicate;
    }
    OverwriteKeepsKeysUnique(db.lots, id, row.value);
    var updated := Overwrite(db.lots, id, row.value);
    assert forall i :: 0 <= i < |db.lots| ==> updated[i].id == db.lots[i].id;
    db.lots := updated;
    out := Saved(id);
    trail.Record(None, "ATUALIZAR", "estoque", id, Some(item), lookup, auditFails);
  }

  /** DELETE FROM estoque WHERE id_estoque = id. */
  function Without(lots: seq<StockLot>, id: int): seq<StockLot> {
    Filter(lots, (l: StockLot) => l.id != id)
  }

  /** With unique ids the DELETE removes exactly the row `id` and keeps the rest in order. */
  lemma {:induction false} WithoutRemovesOneRow(lots: seq<StockLot>, id: int, k: int)
    requires UniqueLotIds(lots) && 0 <= k < |lots| && lots[k].id == id
    ensures Without(lots, id) == lots[..k] + lots[k + 1..]
  {
    var n := |lots| - 1;
    var init := lots[..n];
    assert lots == init + [lots[n]];
    if k == n {
      assert forall i :: 0 <= i < |init| ==> init[i].id != id by {
        assert forall i :: 0 <= i < |init| ==> init[i] == lots[i];
      }
      FilterKeepsAll(init, (l: StockLot) => l.id != id);
      assert lots[..k] + lots[k + 1..] == init;
    } else {
      assert lots[n].id != id;
      WithoutRemovesOneRow(init, id, k);
      assert lots[..k] + lots[k + 1..] == init[..k] + init[k + 1..] + [lots[n]];
    }
  }

  /** Deleting an id no row carries changes nothing. */
  lemma WithoutAbsent(lots: seq<StockLot>, id: int)
    requires LotIndex(lots, id).None?
    ensures Without(lots, id) == lots
  {
    FilterKeepsAll(lots, (l: StockLot) => l.id != id);
  }

  lemma DropKeepsValidLots(lots: seq<StockLot>, k: int, r: seq<StockLot>, bound: int)
    requires UniqueLotIds(lots) && UniqueLotKeys(lots) && 0 <= k < |lots| && r == lots[..k] + lots[k + 1..]
    requires forall i :: 0 <= i < |lots| ==> lots[i].id < bound
    ensures UniqueLotIds(r) && UniqueLotKeys(r)
    ensures forall i :: 0 <= i < |r| ==> r[i].id < bound
  {
    assert forall i :: 0 <= i < |r| ==> r[i] == if i < k then lots[i] else lots[i + 1];
  }

  /** excluirEstoque: a physical delete that always answers success and is audited as "EXCLUIR" with no details. */
  method DeleteLot(db: Database, trail: Audit.AuditTrail, id: int, lookup: (string, int) -> Option<string>, auditFails: bool)
    requires db.Valid()
    modifies db, trail
    ensures db.Valid()
    ensures db.lots == Without(old(db.lots), id)
    ensures unchanged(db`medications, db`units, db`reservations, db`withdrawals, db`withdrawalLines, db`searchLog)
    ensures unchanged(db`nextLotId, db`nextReservationId, db`nextWithdrawalId)
    ensures trail.rows == old(trail.rows) + Audit.Logged(None, "EXCLUIR", "estoque", id, None, lookup, auditFails)
  {
    var k := LotIndex(db.lots, id);
    if k.Some? {
      WithoutRemovesOneRow(db.lots, id, k.value);
      DropKeepsValidLots(db.lots, k.value, Without(db.lots, id), db.nextLotId);
    } else {
      WithoutAbsent(db.lots, id);
    }
    db.lots := Without(db.lots, id);
    trail.Record(None, "EXCLUIR", "estoque", id, None, lookup, auditFails);
  }

  /** A row of the listing: the lot joined with its medication and UBS. */
  datatype StockView = StockView(
    lotId: int, med: int, ubs: int, medName: string, activeIngredient: string, ubsName: string,
    quantity: int, lot: string, expiry: Option<int>)

  /** The JOINs find both rows and WHERE m.ativo = TRUE AND u.ativo = TRUE holds. */
  predicate Shown(l: StockLot, ms: seq<Medication>, us: seq<HealthUnit>) {
    MedicationActive(ms, l.med) && UnitActive(us, l.ubs)
  }

  function ViewOf(l: StockLot, ms: seq<Medication>, us: seq<HealthUnit>): StockView
    requires FindMedication(ms, l.med).Some? && FindUnit(us, l.ubs).Some?
  {
    var m, u := FindMedication(ms, l.med).value, FindUnit(us, l.ubs).value;
    StockView(l.id, l.med, l.ubs, m.commercialName, m.activeIngredient, u.name, l.quantity, l.lot, l.expiry)
  }

  /** The rows of the SELECT before ORDER BY, one per shown lot. */
  function Joined(lots: seq<StockLot>, ms: seq<Medication>, us: seq<HealthUnit>): (vs: seq<StockView>)
    ensures forall v :: v in vs <==> exists i :: 0 <= i < |lots| && Shown(lots[i], ms, us) && v == ViewOf(lots[i], ms, us)
  {
    if lots == [] then []
    else
      var init, l := lots[..|lots| - 1], lots[|lots| - 1];
      assert forall i :: 0 <= i < |init| ==> init[i] == lots[i];
      var vs := Joined(init, ms, us);
      if Shown(l, ms, us) then vs + [ViewOf(l, ms, us)] else vs
  }

  predicate StrLt(a: string, b: string) {
    StrLe(a, b) && a != b
  }

  /** ORDER BY m.nome_comercial, u.nome. */
  predicate ByMedThenUnit(a: StockView, b: StockView) {
    StrLt(a.medName, b.medName) || (a.medName == b.medName && StrLe(a.ubsName, b.ubsName))
  }

  lemma ByMedThenUnitIsPreorder()
    ensures TotalPreorder(ByMedThenUnit)
  {
    forall a: StockView, b: StockView ensures ByMedThenUnit(a, b) || ByMedThenUnit(b, a) {
      StrLeTotal(a.medName, b.medName);
      StrLeTotal(a.ubsName, b.ubsName);
    }
    forall a: StockView, b: StockView, c: StockView | ByMedThenUnit(a, b) && ByMedThenUnit(b, c)
      ensures ByMedThenUnit(a, c)
    {
      if a.medName == b.medName && b.medName == c.medName {
        StrLeTransitive(a.ubsName, b.ubsName, c.ubsName);
      } else if a.medName != b.medName && b.medName != c.medName {
        StrLeTransitive(a.medName, b.medName, c.medName);
        if a.medName == c.medName {
          StrLeAntisymmetric(a.medName, b.medName);
        }
      }
    }
  }

  /** listarEstoque: the joined rows, one map per row, by medication name and then UBS name. */
  function StockListing(lots: seq<StockLot>, ms: seq<Medication>, us: seq<HealthUnit>): (rows: seq<StockView>)
    ensures Sorted(rows, ByMedThenUnit)
  {
    ByMedThenUnitIsPreorder();
    Sort(Joined(lots, ms, us), ByMedThenUnit)
  }

  /** A row is listed exactly when it is the view of a lot whose medication and UBS are active. */
  lemma StockListingContents(lots: seq<StockLot>, ms: seq<Medication>, us: seq<HealthUnit>, v: StockView)
    ensures v in StockListing(lots, ms, us)
        <==> exists i :: 0 <= i < |lots| && Shown(lots[i], ms, us) && v == ViewOf(lots[i], ms, us)
  {
    ByMedThenUnitIsPreorder();
    SortSameElements(Joined(lots, ms, us), ByMedThenUnit);
  }

  /** Deactivating a medication hides every one of its lots from the listing. */
  lemma InactiveMedicationNotListed(lots: seq<StockLot>, ms: seq<Medication>, us: seq<HealthUnit>, v: StockView)
    requires v in StockListing(lots, ms, us)
    ensures MedicationActive(ms, v.med) && UnitActive(us, v.ubs)
  {
    StockListingContents(lots, ms, us, v);
  }
}
