/**
 * ReceitaController.validarReceita: look a prescription up by its code and decide,
 * in a fixed order, whether it can be dispensed. The table is only read.
 */
module Prescriptions {
  import opened Options
  import opened Relational

  /** A row of `receitas`; the expiry may be NULL in the table. */
  datatype Prescription = Prescription(code: string, issued: Option<int>, expiry: Option<int>, authenticated: bool, used: bool)

  datatype Verdict =
    | NotFound               // no row with that code
    | AlreadyUsed            // utilizada
    | Expired                // expiry before today
    | AwaitingAuthentication // valid but not yet authenticated
    | Ready                  // valid and authenticated
    | Failed                 // a NULL expiry makes toLocalDate() throw

  function HttpStatus(v: Verdict): int {
    match v
    case NotFound => 404
    case AlreadyUsed => 409
    case Expired => 410
    case AwaitingAuthentication => 200
    case Ready => 200
    case Failed => 500
  }

  /** The `status` field of the answer. */
  function StatusWord(v: Verdict): string {
    match v
    case NotFound => "invalida"
    case AlreadyUsed => "invalida"
    case Expired => "invalida"
    case AwaitingAuthentication => "aviso"
    case Ready => "valida"
    case Failed => "erro"
  }

  /** The first row whose code matches, as rs.next() reads it. */
  function FindPrescription(ps: seq<Prescription>, code: string): Option<Prescription> {
    FindFirst(ps, (p: Prescription) => p.code, code)
  }

  /** The decision chain on one row: used, then expired, then authenticated. */
  function Decide(p: Prescription, today: int): Verdict {
    if p.expiry.None? then Failed
    else if p.used then AlreadyUsed
    else if p.expiry.value < today then Expired
    else if !p.authenticated then AwaitingAuthentication
    else Ready
  }

  function Validate(ps: seq<Prescription>, code: string, today: int): (v: Verdict)
    ensures v.NotFound? <==> forall i :: 0 <= i < |ps| ==> ps[i].code != code
    ensures !v.NotFound? ==> v == Decide(FindPrescription(ps, code).value, today)
  {
    var p := FindPrescription(ps, code);
    if p.None? then NotFound else Decide(p.value, today)
  }

  /** An unknown code answers 404 with status `invalida`. */
  lemma UnknownCodeIsNotFound(ps: seq<Prescription>, code: string, today: int)
    requires forall i :: 0 <= i < |ps| ==> ps[i].code != code
    ensures HttpStatus(Validate(ps, code, today)) == 404 && StatusWord(Validate(ps, code, today)) == "invalida"
  {
  }

  /** A used prescription answers 409 whatever its expiry date and authentication. */
  lemma UsedWinsOverEverything(p: Prescription, q: Prescription, today: int, later: int)
    requires p.used && q.used && p.expiry.Some? && q.expiry.Some?
    ensures Decide(p, today) == Decide(q, later) == AlreadyUsed
    ensures HttpStatus(Decide(p, today)) == 409
  {
  }

  /** The verdict is one of the four answers on the row exactly as the chain orders them. */
  lemma DecideCases(p: Prescription, today: int)
    requires p.expiry.Some?
    ensures Decide(p, today) == AlreadyUsed <==> p.used
    ensures Decide(p, today) == Expired <==> !p.used && p.expiry.value < today
    ensures Decide(p, today) == AwaitingAuthentication <==> !p.used && p.expiry.value >= today && !p.authenticated
    ensures Decide(p, today) == Ready <==> !p.used && p.expiry.value >= today && p.authenticated
  {
  }

  /** A prescription expiring today is still dispensable. */
  lemma ExpiringTodayIsStillValid(p: Prescription, today: int)
    requires p.expiry == Some(today) && !p.used && p.authenticated
    ensures Decide(p, today) == Ready && HttpStatus(Decide(p, today)) == 200
  {
  }

  /** A NULL expiry fails with 500 before the row is looked at, even for a used prescription. */
  lemma NullExpiryFails(p: Prescription, today: int)
    requires p.expiry.None?
    ensures Decide(p, today) == Failed && HttpStatus(Decide(p, today)) == 500
  {
  }

  /** Answers with status 200 are exactly the unused, unexpired prescriptions. */
  lemma SuccessIffUsable(p: Prescription, today: int)
    ensures HttpStatus(Decide(p, today)) == 200 <==> p.expiry.Some? && !p.used && p.expiry.value >= today
  {
  }

  /** A prescription usable today was usable on every earlier day. */
  lemma UsableEarlier(p: Prescription, today: int, earlier: int)
    requires earlier <= today && HttpStatus(Decide(p, today)) == 200
    ensures Decide(p, earlier) == Decide(p, today)
  {
  }

  /** The code looked up is the one answered about: the row found carries it. */
  lemma VerdictIsAboutTheCode(ps: seq<Prescription>, code: string, today: int)
    requires !Validate(ps, code, today).NotFound?
    ensures exists i :: 0 <= i < |ps| && ps[i].code == code && Validate(ps, code, today) == Decide(ps[i], today)
  {
    var p := FindPrescription(ps, code).value;
    var i :| 0 <= i < |ps| && ps[i] == p;
  }
}
