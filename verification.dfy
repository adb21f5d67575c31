/**
 * AutenticacaoController's verification-code store: a map from e-mail to the last
 * code sent there and its expiry, two minutes after sending. Registration, admin
 * registration and verified profile updates need a valid code and consume it on
 * success; a password reset consumes any pending code.
 *
 * Instants are milliseconds. The answers of the database (whether an INSERT or
 * UPDATE went through, and the text of an integrity violation) and of the mail
 * service are parameters; `committed` records the writes to `usuarios` that went
 * through, in order.
 */
module Verification {
  import opened Options
  import opened Text

  /** plusMinutes(2). */
  const CodeLifetime := 120_000

  datatype CodeInfo = CodeInfo(code: string, expiresAt: int)

  /** new CodigoInfo(codigo) at instant `now`. */
  function Issue(code: string, now: int): CodeInfo {
    CodeInfo(code, now + CodeLifetime)
  }

  /** CodigoInfo.isValido: the same code (a null one never matches) and expiry strictly after now. */
  predicate IsValid(info: CodeInfo, code: Option<string>, now: int) {
    code.Some? && info.code == code.value && info.expiresAt > now
  }

  /** The store holds a valid code for this e-mail. */
  predicate Accepted(codes: map<string, CodeInfo>, email: string, code: Option<string>, now: int) {
    email in codes && IsValid(codes[email], code, now)
  }

  /** A code sent at instant t is accepted exactly before t + 2 minutes, and only that code. */
  lemma IssuedCodeWindow(codes: map<string, CodeInfo>, email: string, c: string, t: int, code: Option<string>, now: int)
    ensures Accepted(codes[email := Issue(c, t)], email, code, now) <==> code == Some(c) && now < t + CodeLifetime
  {
  }

  /** Sending a new code replaces the old one: a different earlier code stops working at once. */
  lemma ResendInvalidatesOldCode(codes: map<string, CodeInfo>, email: string, earlier: string, latest: string, t: int, now: int)
    requires earlier != latest
    ensures !Accepted(codes[email := Issue(latest, t)], email, Some(earlier), now)
  {
  }

  /** Sending to one e-mail leaves the codes of every other e-mail as they were. */
  lemma IssueIsLocal(codes: map<string, CodeInfo>, email: string, other: string, c: string, t: int, code: Option<string>, now: int)
    requires other != email
    ensures Accepted(codes[email := Issue(c, t)], other, code, now) <==> Accepted(codes, other, code, now)
  {
  }

  /** A consumed code is never accepted again. */
  lemma ConsumedCodeRejected(codes: map<string, CodeInfo>, email: string, code: Option<string>, now: int)
    ensures !Accepted(codes - {email}, email, code, now)
  {
  }

  /** The profile of an account; the password hash is not modelled. */
  datatype Account = Account(name: Option<string>, email: string, cpfCns: Option<string>, cep: Option<string>,
                             birth: Option<int>, profile: Option<string>)

  /** data_nascimento: null or blank is stored as NULL; otherwise Date.valueOf must accept it. */
  datatype BirthInput = Blank | BirthDate(day: int) | Unparseable

  datatype AccountForm = AccountForm(
    name: Option<string>, email: Option<string>, cpfCns: Option<string>, cep: Option<string>,
    birth: BirthInput, password: Option<string>, profile: Option<string>, code: Option<string>)

  /** What the database answered to the statement. */
  datatype WriteAnswer = Written | Violation(message: string) | WriteFailed

  datatype UserWrite = InsertUser(account: Account) | UpdateUser(id: int, form: AccountForm) | SetPassword(email: string)

  datatype AuthOutcome =
    | Failed               // 500: a null e-mail or password, a bad date, or a database error
    | BadCode              // 400
    | Conflict(field: string) // 409
    | Done                 // 201 for a registration, 200 for an update or a reset
    | NoSuchEmail          // 404 for a reset

  function RegisterStatus(out: AuthOutcome): int {
    match out
    case Failed => 500
    case BadCode => 400
    case Conflict(_) => 409
    case Done => 201
    case NoSuchEmail => 404
  }

  /** The `field` of a 409 on registration: the lower-cased message names the key. */
  function RegisterConflictField(message: string): string {
    var m := ToLower(message);
    if Contains(m, "email") then "email" else if Contains(m, "cpf_cns") then "cpf_cns" else "desconhecido"
  }

  /** The `field` of a 409 on a verified update, which has no fallback. */
  function UpdateConflictField(message: string): string {
    if Contains(ToLower(message), "email") then "email" else "cpf_cns"
  }

  lemma RegisterConflictFieldCases(message: string)
    ensures RegisterConflictField(message) in {"email", "cpf_cns", "desconhecido"}
    ensures RegisterConflictField(message) == "email" <==> Contains(ToLower(message), "email")
    ensures RegisterConflictField(message) == "cpf_cns"
        <==> !Contains(ToLower(message), "email") && Contains(ToLower(message), "cpf_cns")
  {
  }

  /** The two classifications agree whenever the message names one of the keys, and differ otherwise. */
  lemma ConflictFieldsAgreeWhenNamed(message: string)
    ensures RegisterConflictField(message) == UpdateConflictField(message)
        <==> Contains(ToLower(message), "email") || Contains(ToLower(message), "cpf_cns")
  {
  }

  function BirthValue(b: BirthInput): Option<int>
    requires !b.Unparseable?
  {
    if b.BirthDate? then Some(b.day) else None
  }

  /** The row the INSERT of a registration writes. */
  function AccountOf(form: AccountForm, profile: Option<string>): Account
    requires form.email.Some? && !form.birth.Unparseable?
  {
    Account(form.name, form.email.value, form.cpfCns, form.cep, BirthValue(form.birth), profile)
  }

  class AuthController {
    var codes: map<string, CodeInfo>
    var committed: seq<UserWrite>

    constructor ()
      ensures codes == map[] && committed == []
    {
      codes, committed := map[], [];
    }

    /** The answer of verificarCodigo, which only reads the store. */
    function VerifyStatus(email: Option<string>, code: Option<string>, now: int): (status: int)
      reads this
      ensures status == 500 <==> email.None?
      ensures status == 200 <==> email.Some? && Accepted(codes, email.value, code, now)
    {
      if email.None? then 500
      else if Accepted(codes, email.value, code, now) then 200
      else 400
    }

    /**
     * enviarCodigoVerificacao: `code` is the generated code and `mailSent` whether the
     * mail service accepted it; the code is stored only after the mail went out.
     */
    method SendCode(email: Option<string>, code: string, mailSent: bool, now: int) returns (ok: bool)
      modifies this
      ensures ok <==> email.Some? && mailSent
      ensures ok ==> codes == old(codes)[email.value := Issue(code, now)]
      ensures !ok ==> codes == old(codes)
      ensures committed == old(committed)
    {
      if email.None? || !mailSent {
        return false;
      }
      codes := codes[email.value := Issue(code, now)];
      ok := true;
    }

    /**
     * The shared body of registrar and registrarAdmin: the code check, hashing the
     * password (a null one throws), the date and the INSERT with `profile`.
     */
    method Insert(form: AccountForm, profile: Option<string>, answer: WriteAnswer, now: int) returns (out: AuthOutcome)
      modifies this
      ensures out.BadCode? <==> form.email.Some? && !Accepted(old(codes), form.email.value, form.code, now)
      ensures out.Done? <==>
        && form.email.Some? && Accepted(old(codes), form.email.value, form.code, now)
        && form.password.Some? && !form.birth.Unparseable? && answer.Written?
      ensures out.Done? ==>
        && committed == old(committed) + [InsertUser(AccountOf(form, profile))]
        && codes == old(codes) - {form.email.value}
      ensures out.Conflict? <==>
        && form.email.Some? && Accepted(old(codes), form.email.value, form.code, now)
        && form.password.Some? && !form.birth.Unparseable? && answer.Violation?
      ensures out.Conflict? ==> out.field == RegisterConflictField(answer.message)
      ensures !out.Done? ==> codes == old(codes) && committed == old(committed)
      ensures !out.NoSuchEmail?
    {
      if form.email.None? {
        return Failed;
      }
      var email := form.email.value;
      if !(email in codes && IsValid(codes[email], form.code, now)) {
        return BadCode;
      }
      if form.password.None? || form.birth.Unparseable? {
        return Failed;
      }
      match answer
      case Written =>
        committed := committed + [InsertUser(AccountOf(form, profile))];
        codes := codes - {email};
        out := Done;
      case Violation(message) =>
        out := Conflict(RegisterConflictField(message));
      case WriteFailed =>
        out := Failed;
    }

    /** registrar: public registration always stores the profile `usuario`. */
    method Register(form: AccountForm, answer: WriteAnswer, now: int) returns (out: AuthOutcome)
      modifies this
      ensures out.Done? <==>
        && form.email.Some? && Accepted(old(codes), form.email.value, form.code, now)
        && form.password.Some? && !form.birth.Unparseable? && answer.Written?
      ensures out.Done? ==>
        && committed == old(committed) + [InsertUser(AccountOf(form, Some("usuario")))]
        && codes == old(codes) - {form.email.value}
      ensures out.BadCode? <==> form.email.Some? && !Accepted(old(codes), form.email.value, form.code, now)
      ensures out.Conflict? ==> answer.Violation? && out.field == RegisterConflictField(answer.message)
      ensures !out.Done? ==> codes == old(codes) && committed == old(committed)
    {
      out := Insert(form, Some("usuario"), answer, now);
    }

    /** registrarAdmin: the same, with the profile the body names. */
    method RegisterAdmin(form: AccountForm, answer: WriteAnswer, now: int) returns (out: AuthOutcome)
      modifies this
      ensures out.Done? <==>
        && form.email.Some? && Accepted(old(codes), form.email.value, form.code, now)
        && form.password.Some? && !form.birth.Unparseable? && answer.Written?
      ensures out.Done? ==>
        && committed == old(committed) + [InsertUser(AccountOf(form, form.profile))]
        && codes == old(codes) - {form.email.value}
      ensures out.BadCode? <==> form.email.Some? && !Accepted(old(codes), form.email.value, form.code, now)
      ensures out.Conflict? ==> answer.Violation? && out.field == RegisterConflictField(answer.message)
      ensures !out.Done? ==> codes == old(codes) && committed == old(committed)
    {
      out := Insert(form, form.profile, answer, now);
    }

    /**
     * atualizarComVerificacao: the code check, then UsuarioController.internalUpdate,
     * whose outcome is `answer`; the code is consumed only when the update went through.
     */
    method UpdateWithVerification(id: int, form: AccountForm, answer: WriteAnswer, now: int) returns (out: AuthOutcome)
      modifies this
      ensures out.BadCode? <==> form.email.Some? && !Accepted(old(codes), form.email.value, form.code, now)
      ensures out.Done? <==> form.email.Some? && Accepted(old(codes), form.email.value, form.code, now) && answer.Written?
      ensures out.Done? ==>
        committed == old(committed) + [UpdateUser(id, form)] && codes == old(codes) - {form.email.value}
      ensures out.Conflict? <==> form.email.Some? && Accepted(old(codes), form.email.value, form.code, now) && answer.Violation?
      ensures out.Conflict? ==> out.field == UpdateConflictField(answer.message) && out.field in {"email", "cpf_cns"}
      ensures !out.Done? ==> codes == old(codes) && committed == old(committed)
    {
      if form.email.None? {
        return Failed;
      }
      var email := form.email.value;
      if !(email in codes && IsValid(codes[email], form.code, now)) {
        return BadCode;
      }
      match answer
      case Written =>
        committed := committed + [UpdateUser(id, form)];
        codes := codes - {email};
        out := Done;
      case Violation(message) =>
        out := Conflict(UpdateConflictField(message));
      case WriteFailed =>
        out := Failed;
    }

    /**
     * atualizarSenha: no code is checked. A null new password makes the hashing
     * throw; `rowsUpdated` is the count the UPDATE ... WHERE email = ? reported
     * (none for a null e-mail, since `= NULL` matches nothing).
     */
    method UpdatePassword(email: Option<string>, newPassword: Option<string>, rowsUpdated: nat) returns (out: AuthOutcome)
      modifies this
      ensures out.Failed? <==> newPassword.None?
      ensures out.Done? <==> newPassword.Some? && email.Some? && rowsUpdated > 0
      ensures out.Done? ==> committed == old(committed) + [SetPassword(email.value)] && codes == old(codes) - {email.value}
      ensures out.NoSuchEmail? <==> newPassword.Some? && (email.None? || rowsUpdated == 0)
      ensures !out.Done? ==> codes == old(codes) && committed == old(committed)
    {
      if newPassword.None? {
        return Failed;
      }
      if email.None? || rowsUpdated == 0 {
        return NoSuchEmail;
      }
      committed := committed + [SetPassword(email.value)];
      codes := codes - {email.value};
      out := Done;
    }
  }

  /** verificarCodigo right after sending a code answers 200 exactly within the two minutes. */
  lemma SentCodeVerifies(a: AuthController, email: string, c: string, t: int, now: int)
    requires a.codes == map[email := Issue(c, t)]
    ensures a.VerifyStatus(Some(email), Some(c), now) == 200 <==> now < t + CodeLifetime
  {
  }
}
