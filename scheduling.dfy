/**
 * The reservation screens of the patient page (usuario-reservas.js): the pickup
 * day and hour buttons offered when booking or rescheduling, the checks made on
 * submit, and the split of the patient's reservations into active ones and history.
 * Days are offsets from today; the calendar enters only through the weekday of
 * today (0 = Sunday … 6 = Saturday, as Date.getDay numbers them).
 */
module Scheduling {
  import opened Options
  import opened Relational
  import opened Text
  import opened JsText

  /** How many pickup days are offered, and the hours of the first and last slot. */
  const OfferedDays: nat := 7
  const FirstHour: nat := 9
  const LastHour: nat := 18

  /** A day that is neither Saturday (6) nor Sunday (0). */
  predicate IsWeekday(today: int, offset: int) {
    var d := (today + offset) % 7;
    d != 0 && d != 6
  }

  /** A weekday is never more than two days away. */
  function DaysToWeekday(today: int, offset: int): nat {
    if IsWeekday(today, offset) then 0 else if IsWeekday(today, offset + 1) then 1 else 2
  }

  lemma WeekdayWithinTwoDays(today: int, offset: int)
    requires 0 <= today < 7 && offset >= 0
    ensures DaysToWeekday(today, offset) == 2 ==> IsWeekday(today, offset + 2)
  {
    var d := (today + offset) % 7;
    assert (today + offset + 1) % 7 == (d + 1) % 7;
    assert (today + offset + 2) % 7 == (d + 2) % 7;
  }

  datatype DayLabel = Today | Tomorrow | Formatted  // "Hoje", "Amanhã", Intl.DateTimeFormat text

  /** A day button: the day it stands for and its caption. */
  datatype DateOption = DateOption(offset: nat, caption: DayLabel)

  /**
   * gerarOpcoesDeData: the next seven weekdays counting from today, in order and
   * with none skipped. "Hoje" marks today; "Amanhã" marks tomorrow only when today
   * was offered too, so on a Sunday the Monday button shows its date.
   */
  method DateOptions(today: int) returns (options: seq<DateOption>)
    requires 0 <= today < 7
    ensures |options| == OfferedDays
    ensures forall i :: 0 <= i < |options| ==> IsWeekday(today, options[i].offset)
    ensures forall i, j :: 0 <= i < j < |options| ==> options[i].offset < options[j].offset
    ensures Covered(options, today, options[OfferedDays - 1].offset + 1)
    ensures Captioned(options)
  {
    options := [];
    var added := 0;
    var checked := 0;
    while added < OfferedDays
      invariant added == |options| <= OfferedDays
      invariant forall i :: 0 <= i < added ==> IsWeekday(today, options[i].offset) && options[i].offset < checked
      invariant forall i, j :: 0 <= i < j < added ==> options[i].offset < options[j].offset
      invariant Covered(options, today, checked)
      invariant Captioned(options)
      decreases OfferedDays - added, DaysToWeekday(today, checked)
    {
      WeekdayWithinTwoDays(today, checked);
      if !IsWeekday(today, checked) {
        CoveredSkip(options, today, checked);
      }
      if IsWeekday(today, checked) {
        var caption := if checked == 0 then Today else if checked == 1 && added == 1 then Tomorrow else Formatted;
        CoveredExtend(options, DateOption(checked, caption), today, checked);
        CaptionedExtend(options, DateOption(checked, caption));
        options := options + [DateOption(checked, caption)];
        added := added + 1;
      }
      checked := checked + 1;
    }
    CoveredShrink(options, today, checked, options[OfferedDays - 1].offset + 1);
  }

  /** "Hoje" is exactly the button of today, "Amanhã" exactly a second button standing for tomorrow. */
  predicate Captioned(options: seq<DateOption>) {
    forall i :: 0 <= i < |options| ==>
      && (options[i].caption == Today <==> options[i].offset == 0)
      && (options[i].caption == Tomorrow <==> options[i].offset == 1 && i == 1)
  }

  lemma CaptionedExtend(options: seq<DateOption>, o: DateOption)
    requires Captioned(options)
    requires o.caption == Today <==> o.offset == 0
    requires o.caption == Tomorrow <==> o.offset == 1 && |options| == 1
    ensures Captioned(options + [o])
  {
    var after := options + [o];
    forall i | 0 <= i < |after|
      ensures && (after[i].caption == Today <==> after[i].offset == 0)
              && (after[i].caption == Tomorrow <==> after[i].offset == 1 && i == 1)
    {
      if i < |options| {
        assert after[i] == options[i];
      }
    }
  }

  /** Every weekday before `upto` has a button. */
  predicate Covered(options: seq<DateOption>, today: int, upto: int) {
    forall k :: 0 <= k < upto && IsWeekday(today, k) ==> exists i :: 0 <= i < |options| && options[i].offset == k
  }

  lemma CoveredSkip(options: seq<DateOption>, today: int, checked: int)
    requires Covered(options, today, checked) && !IsWeekday(today, checked)
    ensures Covered(options, today, checked + 1)
  {
  }

  lemma CoveredShrink(options: seq<DateOption>, today: int, upto: int, below: int)
    requires Covered(options, today, upto) && below <= upto
    ensures Covered(options, today, below)
  {
  }

  lemma CoveredExtend(options: seq<DateOption>, o: DateOption, today: int, checked: int)
    requires Covered(options, today, checked)
    requires checked == o.offset
    ensures Covered(options + [o], today, checked + 1)
  {
    var after := options + [o];
    assert after[|options|] == o;
    forall k | 0 <= k < checked && IsWeekday(today, k)
      ensures exists i :: 0 <= i < |after| && after[i].offset == k
    {
      var i :| 0 <= i < |options| && options[i].offset == k;
      assert after[i] == options[i];
    }
  }

  /** An hour as `h.toString().padStart(2, '0') + ":00"`. */
  function Slot(hour: nat): string {
    (if hour < 10 then "0" else "") + NatToString(hour) + ":00"
  }

  /** gerarOpcoesDeHorario: one button per hour from 09:00 to 18:00. */
  method TimeSlots() returns (slots: seq<string>)
    ensures |slots| == LastHour - FirstHour + 1
    ensures forall i :: 0 <= i < |slots| ==> slots[i] == Slot(FirstHour + i)
  {
    slots := [];
    var hour := FirstHour;
    while hour <= LastHour
      invariant FirstHour <= hour <= LastHour + 1
      invariant |slots| == hour - FirstHour
      invariant forall i :: 0 <= i < |slots| ==> slots[i] == Slot(FirstHour + i)
    {
      slots := slots + [Slot(hour)];
      hour := hour + 1;
    }
  }

  /** Each slot is "HH:00" with the two digits of its hour. */
  lemma SlotShape(hour: nat)
    requires FirstHour <= hour <= LastHour
    ensures |Slot(hour)| == 5 && Slot(hour)[2..] == ":00"
    ensures IsDigit(Slot(hour)[0]) && IsDigit(Slot(hour)[1])
    ensures DigitValue(Slot(hour)[0]) * 10 + DigitValue(Slot(hour)[1]) == hour
  {
    if hour >= 10 {
      assert NatToString(hour) == NatToString(hour / 10) + [DigitChar(hour % 10)];
      assert NatToString(hour / 10) == [DigitChar(1)];
    }
  }

  /** Later hours give later slots in text order, so the buttons sort as times do. */
  lemma SlotsAscend(a: nat, b: nat)
    requires FirstHour <= a < b <= LastHour
    ensures StrLe(Slot(a), Slot(b)) && Slot(a) != Slot(b)
  {
    SlotShape(a);
    SlotShape(b);
    var sa, sb := Slot(a), Slot(b);
    if sa[0] == sb[0] {
      assert DigitValue(sa[1]) < DigitValue(sb[1]);
      assert sa[1] < sb[1];
      assert sa[1..] != [] && sb[1..] != [] && sa[1..][0] < sb[1..][0];
      assert StrLe(sa[1..], sb[1..]);
    } else {
      assert DigitValue(sa[0]) < DigitValue(sb[0]);
      assert sa[0] < sb[0];
    }
    assert sa[0] != sb[0] || sa[1] != sb[1];
  }

  /** The end points of the slot range. */
  lemma SlotRange()
    ensures Slot(FirstHour) == "09:00" && Slot(LastHour) == "18:00"
  {
    assert NatToString(9) == "9";
    assert NatToString(1) == "1";
    assert NatToString(8) == "8";
    assert NatToString(18) == NatToString(1) + [DigitChar(8)];
  }

  /** `!value` on the data-valor of the selected button: no selection or an empty value. */
  predicate Chosen(v: Option<string>) {
    v.Some? && v.value != ""
  }

  /** What the booking form sends: the medication, the UBS, the quantity and "date" + "T" + "time". */
  datatype ReservationRequest = ReservationRequest(med: int, ubs: int, quantity: int, timestamp: string)

  datatype FormErrors = FormErrors(date: Option<string>, time: Option<string>, quantity: Option<string>)

  datatype SubmitOutcome = Invalid(errors: FormErrors) | Submit(request: ReservationRequest)

  /** The two quantity messages; the second check runs last and its message wins. */
  function QuantityError(quantity: Option<int>, available: int): Option<string> {
    if quantity.Some? && quantity.value > available then Some("Máximo de " + IntToString(available) + " unidades.")
    else if quantity.None? || quantity.value <= 0 then Some("Quantidade deve ser ao menos 1.")
    else None
  }

  /** The submit handler of formAgendamento. */
  function CheckBooking(date: Option<string>, time: Option<string>, quantityText: string, available: int, med: int, ubs: int): SubmitOutcome {
    var quantity := JsParseInt(quantityText);
    var errors := FormErrors(
      if Chosen(date) then None else Some("Selecione uma data."),
      if Chosen(time) then None else Some("Selecione um horário."),
      QuantityError(quantity, available));
    if errors.date.Some? || errors.time.Some? || errors.quantity.Some? then Invalid(errors)
    else Submit(ReservationRequest(med, ubs, quantity.value, date.value + "T" + time.value))
  }

  /** A booking is sent exactly when a day and an hour are chosen and 1 <= quantity <= available. */
  lemma BookingSentIff(date: Option<string>, time: Option<string>, quantityText: string, available: int, med: int, ubs: int)
    ensures CheckBooking(date, time, quantityText, available, med, ubs).Submit? <==>
      Chosen(date) && Chosen(time) && JsParseInt(quantityText).Some?
      && 1 <= JsParseInt(quantityText).value <= available
  {
  }

  /** A sent booking carries the quantity typed and the chosen day and hour, joined by "T". */
  lemma BookingRequestContents(date: Option<string>, time: Option<string>, quantityText: string, available: int, med: int, ubs: int)
    requires CheckBooking(date, time, quantityText, available, med, ubs).Submit?
    ensures var r := CheckBooking(date, time, quantityText, available, med, ubs).request;
      && r.med == med && r.ubs == ubs && Some(r.quantity) == JsParseInt(quantityText)
      && |r.timestamp| == |date.value| + 1 + |time.value|
      && r.timestamp[..|date.value|] == date.value && r.timestamp[|date.value|] == 'T'
      && r.timestamp[|date.value| + 1..] == time.value
  {
    var ts := date.value + "T" + time.value;
    assert ts[..|date.value|] == date.value;
    assert ts[|date.value| + 1..] == time.value;
  }

  /** More than is available is refused with the maximum, even when no day or hour is missing. */
  lemma OverQuantityNamesTheMaximum(date: Option<string>, time: Option<string>, quantityText: string, available: int, med: int, ubs: int)
    requires JsParseInt(quantityText).Some? && JsParseInt(quantityText).value > available
    ensures CheckBooking(date, time, quantityText, available, med, ubs) ==
      Invalid(FormErrors(if Chosen(date) then None else Some("Selecione uma data."),
                         if Chosen(time) then None else Some("Selecione um horário."),
                         Some("Máximo de " + IntToString(available) + " unidades.")))
  {
  }

  /** The submit handler of formReagendamento; a refusal rewrites both message texts. */
  datatype RescheduleOutcome = Missing(dateText: string, timeText: string) | Send(timestamp: string)

  function CheckReschedule(date: Option<string>, time: Option<string>): RescheduleOutcome {
    if !Chosen(date) || !Chosen(time) then
      Missing(if Chosen(date) then "" else "Selecione uma data.", if Chosen(time) then "" else "Selecione um horário.")
    else Send(date.value + "T" + time.value)
  }

  /** Rescheduling needs a day and an hour, and then sends "date" + "T" + "time". */
  lemma RescheduleIff(date: Option<string>, time: Option<string>)
    ensures CheckReschedule(date, time).Send? <==> Chosen(date) && Chosen(time)
    ensures CheckReschedule(date, time).Send? ==> CheckReschedule(date, time).timestamp == date.value + "T" + time.value
    ensures CheckReschedule(date, time).Missing? ==>
      (CheckReschedule(date, time).dateText == "" <==> Chosen(date))
      && (CheckReschedule(date, time).timeText == "" <==> Chosen(time))
  {
  }

  /** A reservation as the list endpoint returns it. */
  datatype Reservation = Reservation(id: int, status: string, medName: string, ubsName: string, quantity: int, pickup: string)

  predicate IsActive(r: Reservation) {
    r.status == "ATIVA"
  }

  /** "Reservas Ativas" and "Histórico", each in the order of the list. */
  function ActiveReservations(rs: seq<Reservation>): seq<Reservation> {
    Filter(rs, IsActive)
  }

  function History(rs: seq<Reservation>): seq<Reservation> {
    Filter(rs, (r: Reservation) => !IsActive(r))
  }

  /** Every reservation is shown exactly once, in one of the two lists. */
  lemma PartitionCoversAll(rs: seq<Reservation>)
    ensures multiset(ActiveReservations(rs)) + multiset(History(rs)) == multiset(rs)
    ensures |ActiveReservations(rs)| + |History(rs)| == |rs|
  {
    forall r: Reservation ensures (multiset(ActiveReservations(rs)) + multiset(History(rs)))[r] == multiset(rs)[r] {
      FilterMultiset(rs, IsActive, r);
      FilterMultiset(rs, (x: Reservation) => !IsActive(x), r);
    }
    assert multiset(ActiveReservations(rs)) + multiset(History(rs)) == multiset(rs);
    assert |multiset(ActiveReservations(rs)) + multiset(History(rs))| == |multiset(rs)|;
  }

  datatype CardAction = Reschedule(id: int) | Cancel(id: int)

  /** The buttons of a card: only an active reservation can be rescheduled or cancelled. */
  function Actions(r: Reservation): (acts: seq<CardAction>)
    ensures IsActive(r) <==> acts != []
    ensures acts != [] ==> acts == [Reschedule(r.id), Cancel(r.id)]
  {
    if IsActive(r) then [Reschedule(r.id), Cancel(r.id)] else []
  }

  /** The history shows no button, and every active card offers both. */
  lemma ButtonsOnlyOnActiveCards(rs: seq<Reservation>)
    ensures forall r :: r in History(rs) ==> Actions(r) == []
    ensures forall r :: r in ActiveReservations(rs) ==> Actions(r) == [Reschedule(r.id), Cancel(r.id)]
  {
  }

  datatype Colour = Blue | Green | Red | Grey

  /** The colour of the status word on a card. */
  function StatusColour(status: string): (c: Colour)
    ensures c == Blue <==> status == "ATIVA"
    ensures c == Green <==> status == "RETIRADA"
    ensures c == Red <==> status == "CANCELADA" || status == "EXPIRADA"
  {
    if status == "ATIVA" then Blue
    else if status == "RETIRADA" then Green
    else if status == "CANCELADA" || status == "EXPIRADA" then Red
    else Grey
  }
}
