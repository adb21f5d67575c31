/**
 * The reservation lifecycle of ReservaController: admission-controlled creation,
 * cancellation and rescheduling by the owner, and the owner's listing.
 */
module Reservations {
  import opened Options
  import opened Text
  import opened Relational
  import opened Ledger

  datatype CreateOutcome =
    | Created(receipt: Reservation)
    | Unavailable(available: int)

  function CreateStatus(out: CreateOutcome): int {
    if out.Created? then 201 else 400
  }

  const UnavailablePrefix: string := "Quantidade indisponível. Disponível: "

  /** The message of the 400 answer, which carries the computed availability. */
  function UnavailableMessage(available: int): string {
    UnavailablePrefix + IntToString(available)
  }

  /** The number in the rejection message reads back as the availability that was computed. */
  lemma UnavailableMessageReportsAvailability(available: int)
    requires InInt32(available)
    ensures var msg := UnavailableMessage(available);
      |msg| > |UnavailablePrefix| && ParseInt(msg[|UnavailablePrefix|..]) == Some(available)
  {
    var msg := UnavailableMessage(available);
    assert msg[|UnavailablePrefix|..] == IntToString(available);
    ParseIntToString(available);
  }

  /**
   * criarReserva: sum the physical stock and the active reservations of the pair
   * inside one transaction, reject a request above that availability, otherwise
   * insert an active reservation and return it as the receipt. Stock lots are only
   * read; neither the quantity's sign nor the `ativo` flags are checked.
   */
  method Create(db: Database, user: int, med: int, ubs: int, quantity: int, pickupAt: int, today: int)
    returns (out: CreateOutcome)
    requires db.Valid()
    modifies db
    ensures db.Valid()
    ensures out.Unavailable? <==> quantity > old(Available(db.lots, db.reservations, med, ubs, today))
    ensures out.Unavailable? ==> out.available == old(Available(db.lots, db.reservations, med, ubs, today)) && unchanged(db)
    ensures out.Created? ==>
      && out.receipt == Reservation(old(db.nextReservationId), user, med, ubs, quantity, pickupAt, Active)
      && db.reservations == old(db.reservations) + [out.receipt]
      && db.nextReservationId == old(db.nextReservationId) + 1
      && Available(db.lots, db.reservations, med, ubs, today) >= 0
    ensures unchanged(db`lots, db`medications, db`units, db`withdrawals, db`withdrawalLines, db`searchLog)
    ensures unchanged(db`nextLotId, db`nextWithdrawalId)
  {
    var totalPhysical := PhysicalStock(db.lots, med, ubs, today);
    var totalReserved := ActiveReserved(db.reservations, med, ubs);
    var available := totalPhysical - totalReserved;
    if quantity > available {
      return Unavailable(available);
    }
    var r := Reservation(db.nextReservationId, user, med, ubs, quantity, pickupAt, Active);
    ActiveReservedAppend(db.reservations, r, med, ubs);
    db.reservations := db.reservations + [r];
    db.nextReservationId := db.nextReservationId + 1;
    out := Created(r);
  }

  /** A new active reservation lowers its own pair's availability by its quantity and no other. */
  lemma CreatedLowersAvailability(lots: seq<StockLot>, rs: seq<Reservation>, r: Reservation, med: int, ubs: int, today: int)
    requires r.status == Active
    ensures Available(lots, rs + [r], med, ubs, today)
         == Available(lots, rs, med, ubs, today) - (if r.med == med && r.ubs == ubs then r.quantity else 0)
  {
    ActiveReservedAppend(rs, r, med, ubs);
  }

  /** A cancelled row adds nothing to the reserved sum. */
  lemma CancelledRowReservesNothing(lots: seq<StockLot>, rs: seq<Reservation>, r: Reservation, med: int, ubs: int, today: int)
    requires r.status == Cancelled
    ensures Available(lots, rs + [r], med, ubs, today) == Available(lots, rs, med, ubs, today)
  {
    ActiveReservedAppend(rs, r, med, ubs);
  }

  /** The WHERE clause of cancel and reschedule. */
  predicate OwnedActive(r: Reservation, id: int, user: int) {
    r.id == id && r.user == user && r.status == Active
  }

  /** The number of rows the UPDATE of cancel or reschedule affects. */
  function CountOwnedActive(rs: seq<Reservation>, id: int, user: int): (n: nat)
    ensures n > 0 <==> exists i :: 0 <= i < |rs| && OwnedActive(rs[i], id, user)
  {
    if rs == [] then 0
    else
      var init := rs[..|rs| - 1];
      assert forall i :: 0 <= i < |init| ==> init[i] == rs[i];
      CountOwnedActive(init, id, user) + (if OwnedActive(rs[|rs| - 1], id, user) then 1 else 0)
  }

  /** UPDATE reservas SET status = 'CANCELADA' WHERE id_reserva = id AND id_usuario = user AND status = 'ATIVA'. */
  function CancelOwned(rs: seq<Reservation>, id: int, user: int): seq<Reservation> {
    seq(|rs|, i requires 0 <= i < |rs| => if OwnedActive(rs[i], id, user) then rs[i].(status := Cancelled) else rs[i])
  }

  /** UPDATE reservas SET data_hora_reserva = t WHERE the same condition. */
  function RescheduleOwned(rs: seq<Reservation>, id: int, user: int, t: int): seq<Reservation> {
    seq(|rs|, i requires 0 <= i < |rs| => if OwnedActive(rs[i], id, user) then rs[i].(pickupAt := t) else rs[i])
  }

  lemma UpdatesKeepIds(rs: seq<Reservation>, id: int, user: int, t: int)
    requires UniqueReservationIds(rs)
    ensures UniqueReservationIds(CancelOwned(rs, id, user))
    ensures UniqueReservationIds(RescheduleOwned(rs, id, user, t))
  {
    var c, s := CancelOwned(rs, id, user), RescheduleOwned(rs, id, user, t);
    assert forall i :: 0 <= i < |rs| ==> c[i].id == rs[i].id && s[i].id == rs[i].id;
  }

  /**
   * cancelarReserva: 200 when a row of the caller with that id was active and is
   * now cancelled, 404 with nothing changed otherwise.
   */
  method Cancel(db: Database, id: int, user: int) returns (ok: bool)
    requires db.Valid()
    modifies db
    ensures db.Valid()
    ensures ok <==> old(exists i :: 0 <= i < |db.reservations| && OwnedActive(db.reservations[i], id, user))
    ensures db.reservations == CancelOwned(old(db.reservations), id, user)
    ensures !ok ==> db.reservations == old(db.reservations)
    ensures unchanged(db`lots, db`medications, db`units, db`withdrawals, db`withdrawalLines, db`searchLog)
    ensures unchanged(db`nextLotId, db`nextReservationId, db`nextWithdrawalId)
  {
    var affected := CountOwnedActive(db.reservations, id, user);
    UpdatesKeepIds(db.reservations, id, user, 0);
    var updated := CancelOwned(db.reservations, id, user);
    assert affected == 0 ==> updated == db.reservations;
    assert forall i :: 0 <= i < |updated| ==> updated[i].id == db.reservations[i].id;
    db.reservations := updated;
    ok := affected > 0;
  }

  /** HTTP status of cancel and reschedule. */
  function UpdateStatus(ok: bool): int {
    if ok then 200 else 404
  }

  /** With unique ids, a cancel that succeeds rewrites exactly the one row, and only its status. */
  lemma CancelChangesOneRow(rs: seq<Reservation>, k: int, user: int)
    requires UniqueReservationIds(rs) && 0 <= k < |rs| && OwnedActive(rs[k], rs[k].id, user)
    ensures CancelOwned(rs, rs[k].id, user) == rs[k := rs[k].(status := Cancelled)]
  {
    var c := CancelOwned(rs, rs[k].id, user);
    forall i | 0 <= i < |rs| ensures c[i] == rs[k := rs[k].(status := Cancelled)][i] {
      if i != k {
        assert rs[i].id != rs[k].id;
      }
    }
  }

  /** After a cancel no row matches the same request, so cancelling again answers 404. */
  lemma CancelTwiceNotFound(rs: seq<Reservation>, id: int, user: int)
    ensures CountOwnedActive(CancelOwned(rs, id, user), id, user) == 0
  {
    var c := CancelOwned(rs, id, user);
    assert forall i :: 0 <= i < |c| ==> !OwnedActive(c[i], id, user);
  }

  /** Cancelling raises the pair's availability by the cancelled quantity and leaves other pairs alone. */
  lemma CancelRaisesAvailability(lots: seq<StockLot>, rs: seq<Reservation>, k: int, user: int,
                                 med: int, ubs: int, today: int)
    requires UniqueReservationIds(rs) && 0 <= k < |rs| && OwnedActive(rs[k], rs[k].id, user)
    ensures Available(lots, CancelOwned(rs, rs[k].id, user), med, ubs, today)
         == Available(lots, rs, med, ubs, today) + (if rs[k].med == med && rs[k].ubs == ubs then rs[k].quantity else 0)
  {
    CancelChangesOneRow(rs, k, user);
    ActiveReservedUpdate(rs, k, rs[k].(status := Cancelled), med, ubs);
  }

  /**
   * reagendarReserva: 200 when an owned active row got the new pickup time, 404
   * with nothing changed otherwise; availability is not re-checked.
   */
  method Reschedule(db: Database, id: int, user: int, newPickupAt: int) returns (ok: bool)
    requires db.Valid()
    modifies db
    ensures db.Valid()
    ensures ok <==> old(exists i :: 0 <= i < |db.reservations| && OwnedActive(db.reservations[i], id, user))
    ensures db.reservations == RescheduleOwned(old(db.reservations), id, user, newPickupAt)
    ensures !ok ==> db.reservations == old(db.reservations)
    ensures unchanged(db`lots, db`medications, db`units, db`withdrawals, db`withdrawalLines, db`searchLog)
    ensures unchanged(db`nextLotId, db`nextReservationId, db`nextWithdrawalId)
  {
    var affected := CountOwnedActive(db.reservations, id, user);
    UpdatesKeepIds(db.reservations, id, user, newPickupAt);
    var updated := RescheduleOwned(db.reservations, id, user, newPickupAt);
    assert affected == 0 ==> updated == db.reservations;
    assert forall i :: 0 <= i < |updated| ==> updated[i].id == db.reservations[i].id;
    db.reservations := updated;
    ok := affected > 0;
  }

  /** Rescheduling keeps every row's identity, owner, pair, quantity and status. */
  lemma RescheduleKeepsAllButTime(rs: seq<Reservation>, id: int, user: int, t: int)
    ensures var s := RescheduleOwned(rs, id, user, t);
      |s| == |rs| && forall i :: 0 <= i < |rs| ==> s[i] == rs[i].(pickupAt := s[i].pickupAt)
  {
  }

  /** Rescheduling changes no availability. */
  lemma RescheduleKeepsAvailability(lots: seq<StockLot>, rs: seq<Reservation>, id: int, user: int, t: int,
                                    med: int, ubs: int, today: int)
    ensures Available(lots, RescheduleOwned(rs, id, user, t), med, ubs, today) == Available(lots, rs, med, ubs, today)
  {
    ActiveReservedSame(RescheduleOwned(rs, id, user, t), rs, med, ubs);
  }

  /** One row of the listing: the reservation joined with the medication and UBS names. */
  datatype ReservationView = ReservationView(
    id: int, medName: string, ubsName: string, quantity: int, pickupAt: int, status: ReservationStatus)

  /** The JOIN finds both rows and the WHERE keeps the caller's reservations. */
  predicate Listed(r: Reservation, ms: seq<Medication>, us: seq<HealthUnit>, user: int) {
    r.user == user && FindMedication(ms, r.med).Some? && FindUnit(us, r.ubs).Some?
  }

  function ViewOf(r: Reservation, ms: seq<Medication>, us: seq<HealthUnit>): ReservationView
    requires FindMedication(ms, r.med).Some? && FindUnit(us, r.ubs).Some?
  {
    ReservationView(r.id, FindMedication(ms, r.med).value.commercialName, FindUnit(us, r.ubs).value.name,
                    r.quantity, r.pickupAt, r.status)
  }

  /** The rows of the SELECT before ORDER BY, one per listed reservation. */
  function Joined(rs: seq<Reservation>, ms: seq<Medication>, us: seq<HealthUnit>, user: int): (vs: seq<ReservationView>)
    ensures forall v :: v in vs <==> exists i :: 0 <= i < |rs| && Listed(rs[i], ms, us, user) && v == ViewOf(rs[i], ms, us)
  {
    if rs == [] then []
    else
      var init, r := rs[..|rs| - 1], rs[|rs| - 1];
      assert forall i :: 0 <= i < |init| ==> init[i] == rs[i];
      var vs := Joined(init, ms, us, user);
      if Listed(r, ms, us, user) then vs + [ViewOf(r, ms, us)] else vs
  }

  /** ORDER BY data_hora_reserva DESC. */
  predicate LaterFirst(a: ReservationView, b: ReservationView) {
    a.pickupAt >= b.pickupAt
  }

  lemma LaterFirstIsPreorder()
    ensures TotalPreorder(LaterFirst)
  {
  }

  /** consultarReservas: the caller's reservations of every status, latest pickup first. */
  function ListingRows(rs: seq<Reservation>, ms: seq<Medication>, us: seq<HealthUnit>, user: int)
    : (views: seq<ReservationView>)
    ensures Sorted(views, LaterFirst)
  {
    LaterFirstIsPreorder();
    Sort(Joined(rs, ms, us, user), LaterFirst)
  }

  /** The listing shows a reservation exactly when it is the caller's, with its quantity and status. */
  lemma ListingContents(rs: seq<Reservation>, ms: seq<Medication>, us: seq<HealthUnit>, user: int, v: ReservationView)
    ensures v in ListingRows(rs, ms, us, user)
        <==> exists i :: 0 <= i < |rs| && Listed(rs[i], ms, us, user) && v == ViewOf(rs[i], ms, us)
  {
    LaterFirstIsPreorder();
    SortSameElements(Joined(rs, ms, us, user), LaterFirst);
  }

  /** The join yields exactly one view per listed reservation, in the table's order. */
  lemma {:induction false} JoinedOnePerReservation(rs: seq<Reservation>, ms: seq<Medication>, us: seq<HealthUnit>, user: int)
    ensures |Joined(rs, ms, us, user)| == |Filter(rs, (r: Reservation) => Listed(r, ms, us, user))|
  {
    if rs != [] {
      JoinedOnePerReservation(rs[..|rs| - 1], ms, us, user);
    }
  }

  /**
   * The listing has one row per listed reservation of the caller: it reorders the
   * join without adding or dropping a row.
   */
  lemma ListingHasOneRowPerReservation(rs: seq<Reservation>, ms: seq<Medication>, us: seq<HealthUnit>, user: int)
    ensures |ListingRows(rs, ms, us, user)| == |Filter(rs, (r: Reservation) => Listed(r, ms, us, user))|
    ensures multiset(ListingRows(rs, ms, us, user)) == multiset(Joined(rs, ms, us, user))
  {
    LaterFirstIsPreorder();
    JoinedOnePerReservation(rs, ms, us, user);
  }

  /**
   * A reservation created for the caller is listed as its own view: the same id,
   * quantity, pickup time, an active status, and its medication's and UBS's names.
   */
  lemma CreatedIsListed(rs: seq<Reservation>, ms: seq<Medication>, us: seq<HealthUnit>, r: Reservation)
    requires r.status == Active && FindMedication(ms, r.med).Some? && FindUnit(us, r.ubs).Some?
    ensures ViewOf(r, ms, us) in ListingRows(rs + [r], ms, us, r.user)
    ensures exists v :: (v in ListingRows(rs + [r], ms, us, r.user)
      && v.id == r.id && v.quantity == r.quantity && v.pickupAt == r.pickupAt && v.status == Active
      && v.medName == FindMedication(ms, r.med).value.commercialName && v.ubsName == FindUnit(us, r.ubs).value.name)
  {
    var all := rs + [r];
    var v := ViewOf(r, ms, us);
    assert all[|rs|] == r;
    ListingContents(all, ms, us, r.user, v);
  }
}
