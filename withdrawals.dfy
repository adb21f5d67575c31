/**
 * RetiradaController.registrarRetirada: one transaction that inserts a withdrawal
 * header, one line per item, and decrements each item's lot with a guarded UPDATE;
 * if any guarded UPDATE affects no row the whole transaction is rolled back.
 */
module Withdrawals {
  import opened Options
  import opened Text
  import opened Ledger
  import Audit

  /** One element of `itens`: id_estoque, id_medicamento, quantidade. */
  datatype Item = Item(lot: int, med: int, quantity: int)

  datatype WithdrawalOutcome =
    | BadCaller        // X-User-ID missing or not an int: 500 before anything is written
    | MissingData      // no items, or no patient or UBS: 400
    | StockConflict    // a lot had too little stock (or no such lot): rolled back, 500
    | Recorded(id: int)

  function WithdrawalStatus(out: WithdrawalOutcome): int {
    match out
    case BadCaller => 500
    case MissingData => 400
    case StockConflict => 500
    case Recorded(_) => 201
  }

  /**
   * UPDATE estoque SET quantidade = quantidade - q WHERE id_estoque = lot AND quantidade >= q,
   * with whether the statement affected a row.
   */
  function Decrement(lots: seq<StockLot>, item: Item): (seq<StockLot>, bool) {
    var k := LotIndex(lots, item.lot);
    if k.Some? && lots[k.value].quantity >= item.quantity then
      (lots[k.value := lots[k.value].(quantity := lots[k.value].quantity - item.quantity)], true)
    else (lots, false)
  }

  /** The batch of guarded UPDATEs, in item order, and whether every one affected a row. */
  function DecrementAll(lots: seq<StockLot>, items: seq<Item>): (seq<StockLot>, bool) {
    if items == [] then (lots, true)
    else
      var (before, ok) := DecrementAll(lots, items[..|items| - 1]);
      var (after, last) := Decrement(before, items[|items| - 1]);
      (after, ok && last)
  }

  /** The `itens_retiradas` rows of a withdrawal. */
  function LinesFor(id: int, items: seq<Item>): (lines: seq<WithdrawalLine>)
    ensures |lines| == |items|
    ensures forall i :: 0 <= i < |items| ==>
      lines[i].withdrawal == id && lines[i].lot == items[i].lot && lines[i].med == items[i].med
      && lines[i].quantity == items[i].quantity
  {
    seq(|items|, i requires 0 <= i < |items| => WithdrawalLine(id, items[i].med, items[i].lot, items[i].quantity))
  }

  function ItemsTotal(items: seq<Item>): int {
    if items == [] then 0 else ItemsTotal(items[..|items| - 1]) + items[|items| - 1].quantity
  }

  /** The quantity the items withdraw from lot `id`. */
  function ItemsFor(items: seq<Item>, id: int): int {
    if items == [] then 0
    else ItemsFor(items[..|items| - 1], id) + (if items[|items| - 1].lot == id then items[|items| - 1].quantity else 0)
  }

  /** Only quantities change: each row keeps its id, medication, UBS, lot code and expiry. */
  predicate SameRowsUpToQuantity(a: seq<StockLot>, b: seq<StockLot>) {
    |a| == |b| && forall i :: 0 <= i < |a| ==> b[i] == a[i].(quantity := b[i].quantity)
  }

  lemma {:induction false} DecrementAllKeepsRows(lots: seq<StockLot>, items: seq<Item>)
    ensures SameRowsUpToQuantity(lots, DecrementAll(lots, items).0)
  {
    if items != [] {
      DecrementAllKeepsRows(lots, items[..|items| - 1]);
    }
  }

  lemma SameRowsKeepKeys(a: seq<StockLot>, b: seq<StockLot>)
    requires SameRowsUpToQuantity(a, b)
    ensures UniqueLotIds(a) ==> UniqueLotIds(b)
    ensures UniqueLotKeys(a) ==> UniqueLotKeys(b)
    ensures forall i :: 0 <= i < |a| ==> a[i].id == b[i].id
  {
    assert forall i :: 0 <= i < |a| ==> a[i].id == b[i].id && SameKey(a[i], b[i]);
  }

  /**
   * A lot the batch touches ends with a quantity of at least zero, since each UPDATE
   * only runs when the lot holds the requested quantity; stock that was not negative
   * stays not negative.
   */
  lemma {:induction false} DecrementAllKeepsStockNonNegative(lots: seq<StockLot>, items: seq<Item>)
    requires NonNegativeStock(lots)
    ensures NonNegativeStock(DecrementAll(lots, items).0)
  {
    if items != [] {
      DecrementAllKeepsStockNonNegative(lots, items[..|items| - 1]);
    }
  }

  /** When every UPDATE affected a row, total stock fell by exactly the sum of the item quantities. */
  lemma {:induction false} DecrementAllTotal(lots: seq<StockLot>, items: seq<Item>)
    requires DecrementAll(lots, items).1
    ensures TotalStock(DecrementAll(lots, items).0) == TotalStock(lots) - ItemsTotal(items)
  {
    if items != [] {
      var init := items[..|items| - 1];
      var item := items[|items| - 1];
      DecrementAllTotal(lots, init);
      var before := DecrementAll(lots, init).0;
      var k := LotIndex(before, item.lot);
      TotalStockUpdate(before, k.value, before[k.value].(quantity := before[k.value].quantity - item.quantity));
    }
  }

  /** With unique lot ids, each lot falls by exactly what the items withdraw from it. */
  lemma {:induction false} DecrementAllPerLot(lots: seq<StockLot>, items: seq<Item>)
    requires UniqueLotIds(lots) && DecrementAll(lots, items).1
    ensures |DecrementAll(lots, items).0| == |lots|
    ensures forall i :: 0 <= i < |lots| ==>
      DecrementAll(lots, items).0[i].quantity == lots[i].quantity - ItemsFor(items, lots[i].id)
  {
    if items != [] {
      var init := items[..|items| - 1];
      var item := items[|items| - 1];
      DecrementAllPerLot(lots, init);
      DecrementAllKeepsRows(lots, items);
      var before := DecrementAll(lots, init).0;
      DecrementAllKeepsRows(lots, init);
      SameRowsKeepKeys(lots, before);
      var k := LotIndex(before, item.lot).value;
      forall i | 0 <= i < |lots|
        ensures DecrementAll(lots, items).0[i].quantity == lots[i].quantity - ItemsFor(items, lots[i].id)
      {
        if i != k {
          assert before[i].id != before[k].id;
        }
      }
    }
  }

  /** The batch only runs when every lot can give the withdrawn quantity. */
  lemma {:induction false} DecrementAllSucceedsOnlyIfFound(lots: seq<StockLot>, items: seq<Item>, j: int)
    requires DecrementAll(lots, items).1 && 0 <= j < |items|
    ensures exists i :: 0 <= i < |lots| && lots[i].id == items[j].lot
  {
    var init := items[..|items| - 1];
    var before := DecrementAll(lots, init).0;
    DecrementAllKeepsRows(lots, init);
    if j < |items| - 1 {
      assert items[j] == init[j];
      DecrementAllSucceedsOnlyIfFound(lots, init, j);
    } else {
      var k := LotIndex(before, items[j].lot).value;
      assert lots[k].id == before[k].id;
    }
  }

  /** The loop over `itens`: queue one line per item and apply the guarded UPDATEs in order. */
  method ApplyItems(lots: seq<StockLot>, id: int, items: seq<Item>)
    returns (lines: seq<WithdrawalLine>, newLots: seq<StockLot>, allAffected: bool)
    ensures lines == LinesFor(id, items)
    ensures (newLots, allAffected) == DecrementAll(lots, items)
  {
    lines, newLots, allAffected := [], lots, true;
    var i := 0;
    while i < |items|
      invariant 0 <= i <= |items|
      invariant lines == LinesFor(id, items[..i])
      invariant (newLots, allAffected) == DecrementAll(lots, items[..i])
    {
      var item := items[i];
      lines := lines + [WithdrawalLine(id, item.med, item.lot, item.quantity)];
      var affected: bool;
      newLots, affected := Decrement(newLots, item).0, Decrement(newLots, item).1;
      allAffected := allAffected && affected;
      assert items[..i + 1][..i] == items[..i];
      i := i + 1;
    }
    assert items[..i] == items;
  }

  /**
   * The transaction of registrarRetirada, up to the commit. The pharmacist recorded is
   * the caller named by the X-User-ID header, never a field of the body; reservations
   * are not touched.
   */
  method Transact(db: Database, callerHeader: Option<string>, patient: Option<int>, ubs: Option<int>,
                  items: Option<seq<Item>>, now: int)
    returns (out: WithdrawalOutcome)
    requires db.Valid()
    modifies db
    ensures db.Valid()
    ensures var caller := if callerHeader.Some? then ParseInt(callerHeader.value) else None;
      && (out.BadCaller? <==> caller.None?)
      && (out.MissingData? <==> caller.Some? && (items.None? || items.value == [] || patient.None? || ubs.None?))
      && (out.Recorded? ==>
            && caller.Some? && items.Some? && patient.Some? && ubs.Some?
            && out.id == old(db.nextWithdrawalId)
            && db.withdrawals == old(db.withdrawals) + [Withdrawal(out.id, patient.value, ubs.value, caller.value, now)]
            && db.withdrawalLines == old(db.withdrawalLines) + LinesFor(out.id, items.value)
            && (db.lots, true) == DecrementAll(old(db.lots), items.value))
      && (out.StockConflict? <==> caller.Some? && !out.MissingData? && !DecrementAll(old(db.lots), items.value).1)
    ensures !out.Recorded? ==>
      db.lots == old(db.lots) && db.withdrawals == old(db.withdrawals) && db.withdrawalLines == old(db.withdrawalLines)
    ensures unchanged(db`reservations, db`medications, db`units, db`searchLog)
    ensures db.nextWithdrawalId == old(db.nextWithdrawalId) + (if out.Recorded? then 1 else 0)
    ensures unchanged(db`nextLotId, db`nextReservationId)
  {
    if callerHeader.None? || ParseInt(callerHeader.value).None? {
      return BadCaller;
    }
    var pharmacist := ParseInt(callerHeader.value).value;
    if items.None? || items.value == [] || patient.None? || ubs.None? {
      return MissingData;
    }
    var id := db.nextWithdrawalId;
    var lines, newLots, allAffected := ApplyItems(db.lots, id, items.value);
    if !allAffected {
      return StockConflict;
    }
    db.nextWithdrawalId := db.nextWithdrawalId + 1;
    DecrementAllKeepsRows(db.lots, items.value);
    SameRowsKeepKeys(db.lots, newLots);
    db.withdrawals := db.withdrawals + [Withdrawal(id, patient.value, ubs.value, pharmacist, now)];
    db.withdrawalLines := db.withdrawalLines + lines;
    db.lots := newLots;
    out := Recorded(id);
  }

  /**
   * registrarRetirada: the transaction, then, once it has committed, the audit of the
   * body, as the JSON map `req`, as "REGISTRAR_RETIRADA" under the caller.
   */
  method Record(db: Database, trail: Audit.AuditTrail, callerHeader: Option<string>, patient: Option<int>,
                ubs: Option<int>, items: Option<seq<Item>>, now: int, req: Audit.Details,
                lookup: (string, int) -> Option<string>, auditFails: bool)
    returns (out: WithdrawalOutcome)
    requires db.Valid()
    modifies db, trail
    ensures db.Valid()
    ensures var caller := if callerHeader.Some? then ParseInt(callerHeader.value) else None;
      && (out.BadCaller? <==> caller.None?)
      && (out.MissingData? <==> caller.Some? && (items.None? || items.value == [] || patient.None? || ubs.None?))
      && (out.Recorded? ==>
            && caller.Some? && items.Some? && patient.Some? && ubs.Some?
            && out.id == old(db.nextWithdrawalId)
            && db.withdrawals == old(db.withdrawals) + [Withdrawal(out.id, patient.value, ubs.value, caller.value, now)]
            && db.withdrawalLines == old(db.withdrawalLines) + LinesFor(out.id, items.value)
            && (db.lots, true) == DecrementAll(old(db.lots), items.value))
      && (out.StockConflict? <==> caller.Some? && !out.MissingData? && !DecrementAll(old(db.lots), items.value).1)
    ensures !out.Recorded? ==>
      db.lots == old(db.lots) && db.withdrawals == old(db.withdrawals) && db.withdrawalLines == old(db.withdrawalLines)
    ensures unchanged(db`reservations, db`medications, db`units, db`searchLog)
    ensures db.nextWithdrawalId == old(db.nextWithdrawalId) + (if out.Recorded? then 1 else 0)
    ensures unchanged(db`nextLotId, db`nextReservationId)
    ensures trail.rows == old(trail.rows)
      + (if out.Recorded? then Audit.Logged(ParseInt(callerHeader.value), "REGISTRAR_RETIRADA", "retiradas", out.id,
                                            Some(req), lookup, auditFails) else [])
  {
    out := Transact(db, callerHeader, patient, ubs, items, now);
    if out.Recorded? {
      trail.Record(ParseInt(callerHeader.value), "REGISTRAR_RETIRADA", "retiradas", out.id, Some(req), lookup, auditFails);
    }
  }
}
