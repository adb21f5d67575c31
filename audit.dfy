/**
 * AuditoriaServico.registrarAcao: the details map of an administrative action is
 * copied, stripped of secrets and enriched with names before it is stored as JSON
 * in `auditoria`. The name lookup of getNome (one SELECT per table) is the
 * parameter `lookup`, which yields None when no row is found or the query fails.
 */
module Audit {
  import opened Options
  import opened Text

  /** A JSON value as Jackson hands it over. */
  datatype Value = Null | Num(n: int) | Str(s: string) | Bool(b: bool) | List(items: seq<Value>) | Obj(fields: map<string, Value>)

  type Details = map<string, Value>

  /** The tables getNome knows how to query. */
  const NameTables: set<string> := {"usuarios", "ubs", "medicamentos", "farmaceuticos"}

  /** The keys removed before anything is stored. */
  const SecretKeys: set<string> := {"senha", "codigoVerificacao"}

  /** What is stored when enrichment throws. */
  const FailureDetails: Details := map["erro" := Str("Falha ao serializar detalhes.")]

  const ItemsError: Value := Str("Erro ao formatar lista de itens")

  /** "ID: " + id, the fallback name. */
  function Fallback(id: int): string {
    "ID: " + IntToString(id)
  }

  /** getNome: "N/A" for a null id, the looked-up name, or the fallback. */
  function GetName(table: string, id: Option<int>, lookup: (string, int) -> Option<string>): string {
    if id.None? then "N/A"
    else if table !in NameTables then Fallback(id.value)
    else
      var name := lookup(table, id.value);
      if name.Some? then name.value else Fallback(id.value)
  }

  /** The three fallbacks of getNome. */
  lemma GetNameFallbacks(table: string, id: Option<int>, lookup: (string, int) -> Option<string>)
    ensures id.None? ==> GetName(table, id, lookup) == "N/A"
    ensures id.Some? && table !in NameTables ==> GetName(table, id, lookup) == Fallback(id.value)
    ensures id.Some? && lookup(table, id.value).None? ==> GetName(table, id, lookup) == Fallback(id.value)
    ensures id.Some? && table in NameTables && lookup(table, id.value).Some? ==>
      GetName(table, id, lookup) == lookup(table, id.value).value
  {
  }

  /** The fallback still names the record: the id can be read back from it. */
  lemma FallbackNamesTheId(id: int)
    requires InInt32(id)
    ensures Fallback(id)[..4] == "ID: " && ParseInt(Fallback(id)[4..]) == Some(id)
  {
    assert Fallback(id)[4..] == IntToString(id);
    ParseIntToString(id);
  }

  /** Integer.parseInt(value.toString()); a null value (NPE), a list, an object or a boolean fails. */
  function IdOf(v: Value): Option<int> {
    match v
    case Num(n) => ParseInt(IntToString(n))
    case Str(s) => ParseInt(s)
    case _ => None
  }

  /** An item of `itens` as "<name> (Qtd: n)", or None when reading it throws. */
  function FormatItem(item: Value, lookup: (string, int) -> Option<string>): Option<string> {
    if item.Obj? && "id_medicamento" in item.fields && "quantidade" in item.fields then
      var med, qty := IdOf(item.fields["id_medicamento"]), IdOf(item.fields["quantidade"]);
      if med.Some? && qty.Some? then Some(GetName("medicamentos", med, lookup) + " (Qtd: " + IntToString(qty.value) + ")")
      else None
    else None
  }

  /** Each item through `format`, or None as soon as one fails, as the Java loop throws. */
  function FormatAll(items: seq<Value>, format: Value -> Option<string>): Option<seq<Value>> {
    if |items| == 0 then Some([])
    else
      var init := FormatAll(items[..|items| - 1], format);
      var last := format(items[|items| - 1]);
      if init.Some? && last.Some? then Some(init.value + [Str(last.value)]) else None
  }

  /** itensFormatados. */
  function FormatItems(items: seq<Value>, lookup: (string, int) -> Option<string>): Option<seq<Value>> {
    FormatAll(items, item => FormatItem(item, lookup))
  }

  /** A formatted list has one text per item, in order; it fails iff some item fails. */
  lemma {:induction false} FormatAllFacts(items: seq<Value>, format: Value -> Option<string>)
    ensures FormatAll(items, format).Some? <==> forall i :: 0 <= i < |items| ==> format(items[i]).Some?
    ensures FormatAll(items, format).Some? ==>
      && |FormatAll(items, format).value| == |items|
      && forall i :: 0 <= i < |items| ==> FormatAll(items, format).value[i] == Str(format(items[i]).value)
  {
    if |items| > 0 {
      var init := items[..|items| - 1];
      FormatAllFacts(init, format);
      assert forall i :: 0 <= i < |init| ==> init[i] == items[i];
    }
  }

  /** The same for the items of a withdrawal. */
  lemma FormattedItemsMirrorInput(items: seq<Value>, lookup: (string, int) -> Option<string>)
    ensures FormatItems(items, lookup).Some? <==> forall i :: 0 <= i < |items| ==> FormatItem(items[i], lookup).Some?
    ensures FormatItems(items, lookup).Some? ==>
      && |FormatItems(items, lookup).value| == |items|
      && forall i :: 0 <= i < |items| ==> FormatItems(items, lookup).value[i] == Str(FormatItem(items[i], lookup).value)
  {
    FormatAllFacts(items, item => FormatItem(item, lookup));
  }

  /** Once an item fails, the whole list fails. */
  lemma {:induction false} FormatAllFailurePersists(items: seq<Value>, k: int, format: Value -> Option<string>)
    requires 0 <= k <= |items| && FormatAll(items[..k], format).None?
    ensures FormatAll(items, format).None?
    decreases |items| - k
  {
    if k < |items| {
      assert items[..k + 1][..k] == items[..k];
      FormatAllFailurePersists(items, k + 1, format);
    } else {
      assert items[..k] == items;
    }
  }

  /** A key with a non-null value, the guard `get(key) != null`. */
  predicate HasValue(d: Details, key: string) {
    key in d && d[key] != Null
  }

  /** The `retiradas` case: the patient and UBS ids become names and the items become text. */
  function WithdrawalDetails(d: Details, lookup: (string, int) -> Option<string>): Option<Details> {
    var patient := if HasValue(d, "id_usuario") then IdOf(d["id_usuario"]) else None;
    var unit := if HasValue(d, "id_ubs") then IdOf(d["id_ubs"]) else None;
    if (HasValue(d, "id_usuario") && patient.None?) || (HasValue(d, "id_ubs") && unit.None?) then None
    else
      var d1 := if HasValue(d, "id_usuario") then d - {"id_usuario"} else d;
      var d2 := (if HasValue(d, "id_ubs") then d1 - {"id_ubs"} else d1) - {"id_farmaceutico"};
      var d3 := d2["paciente" := Str(GetName("usuarios", patient, lookup))]["ubs" := Str(GetName("ubs", unit, lookup))];
      if "itens" in d3 && d3["itens"].List? then
        var f := FormatItems(d3["itens"].items, lookup);
        Some(d3["itens" := if f.Some? then List(f.value) else ItemsError])
      else Some(d3)
  }

  /** The `estoque` case: both ids must be present and numeric, and become names. */
  function StockDetails(d: Details, lookup: (string, int) -> Option<string>): Option<Details> {
    if "id_medicamento" in d && "id_ubs" in d then
      var med, unit := IdOf(d["id_medicamento"]), IdOf(d["id_ubs"]);
      if med.Some? && unit.Some? then
        Some((d - {"id_medicamento"} - {"id_ubs"})["medicamento" := Str(GetName("medicamentos", med, lookup))]
                                                  ["ubs" := Str(GetName("ubs", unit, lookup))])
      else None
    else None
  }

  /** The cases that copy a name into `nome_alvo` (a missing key copies null). */
  function TargetName(d: Details, table: string): Details {
    var source := if table == "medicamentos" then "nome_comercial" else "nome";
    if table in {"usuarios", "ubs", "farmaceuticos", "medicamentos"} then
      d["nome_alvo" := if source in d then d[source] else Null]
    else d
  }

  /** The details registrarAcao stores for `table`; None is a NULL column. */
  function Enriched(details: Option<Details>, table: string, lookup: (string, int) -> Option<string>): Option<Details> {
    if details.None? then None
    else
      var d := details.value - {"senha"} - {"codigoVerificacao"};
      var r := if table == "retiradas" then WithdrawalDetails(d, lookup)
               else if table == "estoque" then StockDetails(d, lookup)
               else Some(TargetName(d, table));
      Some(if r.Some? then r.value else FailureDetails)
  }

  /** Null details are stored as NULL, and non-null ones are always stored. */
  lemma NullDetailsStoredNull(details: Option<Details>, table: string, lookup: (string, int) -> Option<string>)
    ensures Enriched(details, table, lookup).None? <==> details.None?
  {
  }

  /** The stored details never carry `senha` or `codigoVerificacao`. */
  lemma NoSecretsStored(details: Option<Details>, table: string, lookup: (string, int) -> Option<string>)
    requires details.Some?
    ensures forall k :: k in SecretKeys ==> k !in Enriched(details, table, lookup).value
  {
  }

  /** The keys the caller gave survive except those the case rewrites. */
  lemma OtherKeysKept(details: Details, table: string, lookup: (string, int) -> Option<string>, k: string)
    requires table !in {"retiradas", "estoque"} && k !in SecretKeys && k != "nome_alvo" && k in details
    ensures k in Enriched(Some(details), table, lookup).value && Enriched(Some(details), table, lookup).value[k] == details[k]
  {
  }

  /** For `estoque`, the ids of medication and UBS are replaced by their names. */
  lemma StockIdsBecomeNames(d: Details, lookup: (string, int) -> Option<string>)
    requires "id_medicamento" in d && "id_ubs" in d
    requires IdOf(d["id_medicamento"]).Some? && IdOf(d["id_ubs"]).Some?
    ensures var r := Enriched(Some(d), "estoque", lookup).value;
      && "id_medicamento" !in r && "id_ubs" !in r
      && r["medicamento"] == Str(GetName("medicamentos", IdOf(d["id_medicamento"]), lookup))
      && r["ubs"] == Str(GetName("ubs", IdOf(d["id_ubs"]), lookup))
  {
    var c := d - {"senha"} - {"codigoVerificacao"};
    assert c["id_medicamento"] == d["id_medicamento"] && c["id_ubs"] == d["id_ubs"];
  }

  /** For `estoque`, a missing id makes the whole enrichment fail: the error details are stored. */
  lemma StockWithoutIdsFails(d: Details, lookup: (string, int) -> Option<string>)
    requires "id_medicamento" !in d || "id_ubs" !in d
    ensures Enriched(Some(d), "estoque", lookup) == Some(FailureDetails)
  {
  }

  /**
   * For `retiradas` with numeric patient and UBS ids: the ids become the names
   * `paciente` and `ubs`, `id_farmaceutico` is dropped, and a list of items turns
   * into one "<name> (Qtd: n)" text per item.
   */
  lemma WithdrawalRewritten(d: Details, lookup: (string, int) -> Option<string>)
    requires forall k :: k in SecretKeys ==> k !in d
    requires HasValue(d, "id_usuario") && HasValue(d, "id_ubs")
    requires IdOf(d["id_usuario"]).Some? && IdOf(d["id_ubs"]).Some?
    ensures var e := Enriched(Some(d), "retiradas", lookup);
      && e.Some? && "paciente" in e.value && "ubs" in e.value
      && var r := e.value;
      && "id_usuario" !in r && "id_ubs" !in r && "id_farmaceutico" !in r
      && r["paciente"] == Str(GetName("usuarios", IdOf(d["id_usuario"]), lookup))
      && r["ubs"] == Str(GetName("ubs", IdOf(d["id_ubs"]), lookup))
      && ("itens" in d && d["itens"].List? && FormatItems(d["itens"].items, lookup).Some? ==>
            "itens" in r && r["itens"] == List(FormatItems(d["itens"].items, lookup).value))
      && ("itens" in d && d["itens"].List? && FormatItems(d["itens"].items, lookup).None? ==>
            "itens" in r && r["itens"] == ItemsError)
  {
    var c := d - {"senha"} - {"codigoVerificacao"};
    assert c == d;
    WithdrawalDetailsRewrite(d, lookup);
    assert Enriched(Some(d), "retiradas", lookup).value == WithdrawalDetails(d, lookup).value;
  }

  lemma WithdrawalDetailsRewrite(d: Details, lookup: (string, int) -> Option<string>)
    requires HasValue(d, "id_usuario") && HasValue(d, "id_ubs")
    requires IdOf(d["id_usuario"]).Some? && IdOf(d["id_ubs"]).Some?
    ensures var r := WithdrawalDetails(d, lookup);
      && r.Some? && "id_usuario" !in r.value && "id_ubs" !in r.value && "id_farmaceutico" !in r.value
      && "paciente" in r.value && "ubs" in r.value
      && r.value["paciente"] == Str(GetName("usuarios", IdOf(d["id_usuario"]), lookup))
      && r.value["ubs"] == Str(GetName("ubs", IdOf(d["id_ubs"]), lookup))
      && ("itens" in d && d["itens"].List? && FormatItems(d["itens"].items, lookup).Some? ==>
            "itens" in r.value && r.value["itens"] == List(FormatItems(d["itens"].items, lookup).value))
      && ("itens" in d && d["itens"].List? && FormatItems(d["itens"].items, lookup).None? ==>
            "itens" in r.value && r.value["itens"] == ItemsError)
  {
    var d2 := d - {"id_usuario"} - {"id_ubs"} - {"id_farmaceutico"};
    var d3 := d2["paciente" := Str(GetName("usuarios", IdOf(d["id_usuario"]), lookup))]
                ["ubs" := Str(GetName("ubs", IdOf(d["id_ubs"]), lookup))];
    assert "itens" in d ==> d3["itens"] == d["itens"];
  }

  /** A patient id sent as JSON null fails the `!= null` guard: the key stays and `paciente` is "N/A". */
  lemma NullPatientKeyKept(d: Details, lookup: (string, int) -> Option<string>)
    requires forall k :: k in SecretKeys ==> k !in d
    requires "id_usuario" in d && d["id_usuario"] == Null && !HasValue(d, "id_ubs")
    ensures var r := Enriched(Some(d), "retiradas", lookup).value;
      "id_usuario" in r && r["id_usuario"] == Null && r["paciente"] == Str("N/A") && r["ubs"] == Str("N/A")
  {
    var c := d - {"senha"} - {"codigoVerificacao"};
    assert c == d;
  }

  /** `nome_alvo` copies `nome` for users, UBS and pharmacists, and `nome_comercial` for medications. */
  lemma TargetNameCopied(d: Details, table: string, lookup: (string, int) -> Option<string>)
    requires table in {"usuarios", "ubs", "farmaceuticos", "medicamentos"}
    requires forall k :: k in SecretKeys ==> k !in d
    ensures var source := if table == "medicamentos" then "nome_comercial" else "nome";
      Enriched(Some(d), table, lookup).value["nome_alvo"] == if source in d then d[source] else Null
  {
    var c := d - {"senha"} - {"codigoVerificacao"};
    assert c == d;
  }

  /** The loop of registrarAcao over `itens`; it stops at the first item that throws. */
  method FormatItemList(items: seq<Value>, lookup: (string, int) -> Option<string>) returns (r: Option<seq<Value>>)
    ensures r == FormatItems(items, lookup)
  {
    var format := item => FormatItem(item, lookup);
    var formatted: seq<Value> := [];
    var i := 0;
    while i < |items|
      invariant 0 <= i <= |items|
      invariant FormatAll(items[..i], format) == Some(formatted)
    {
      var f := format(items[i]);
      assert items[..i + 1][..i] == items[..i];
      if f.None? {
        FormatAllFailurePersists(items, i + 1, format);
        return None;
      }
      formatted := formatted + [Str(f.value)];
      i := i + 1;
    }
    assert items[..i] == items;
    r := Some(formatted);
  }

  /** registrarAcao's enrichment, step by step on a copy of the caller's map. */
  method Enrich(details: Option<Details>, table: string, lookup: (string, int) -> Option<string>) returns (stored: Option<Details>)
    ensures stored == Enriched(details, table, lookup)
  {
    if details.None? {
      return None;
    }
    var d := details.value;
    d := d - {"senha"};
    d := d - {"codigoVerificacao"};
    ghost var copy := d;
    if table == "retiradas" {
      var patient: Option<int> := None;
      if "id_usuario" in d && d["id_usuario"] != Null {
        patient := IdOf(d["id_usuario"]);
        d := d - {"id_usuario"};
        if patient.None? {
          return Some(FailureDetails);
        }
      }
      var unit: Option<int> := None;
      if "id_ubs" in d && d["id_ubs"] != Null {
        unit := IdOf(d["id_ubs"]);
        d := d - {"id_ubs"};
        if unit.None? {
          return Some(FailureDetails);
        }
      }
      d := d - {"id_farmaceutico"};
      d := d["paciente" := Str(GetName("usuarios", patient, lookup))];
      d := d["ubs" := Str(GetName("ubs", unit, lookup))];
      if "itens" in d && d["itens"].List? {
        var f := FormatItemList(d["itens"].items, lookup);
        d := d["itens" := if f.Some? then List(f.value) else ItemsError];
      }
      stored := Some(d);
    } else if table == "estoque" {
      if "id_medicamento" !in d {
        return Some(FailureDetails);
      }
      var med := IdOf(d["id_medicamento"]);
      d := d - {"id_medicamento"};
      if med.None? || "id_ubs" !in d {
        return Some(FailureDetails);
      }
      var unit := IdOf(d["id_ubs"]);
      d := d - {"id_ubs"};
      if unit.None? {
        return Some(FailureDetails);
      }
      d := d["medicamento" := Str(GetName("medicamentos", med, lookup))];
      d := d["ubs" := Str(GetName("ubs", unit, lookup))];
      stored := Some(d);
    } else {
      if table == "usuarios" || table == "ubs" || table == "farmaceuticos" {
        d := d["nome_alvo" := if "nome" in d then d["nome"] else Null];
      } else if table == "medicamentos" {
        d := d["nome_alvo" := if "nome_comercial" in d then d["nome_comercial"] else Null];
      }
      stored := Some(d);
    }
  }

  /** A row of `auditoria`. */
  datatype AuditRow = AuditRow(user: Option<int>, action: string, table: string, recordId: int, details: Option<Details>)

  /**
   * The rows one registrarAcao call adds to `auditoria`: the enriched details under
   * the caller's user, action, table and record id, or nothing when the INSERT fails
   * (that failure is swallowed and never reaches the caller).
   */
  function Logged(user: Option<int>, action: string, table: string, recordId: int, details: Option<Details>,
                  lookup: (string, int) -> Option<string>, insertFails: bool): (r: seq<AuditRow>)
    ensures |r| <= 1
    ensures insertFails <==> r == []
    ensures r != [] ==> r[0].user == user && r[0].action == action && r[0].table == table && r[0].recordId == recordId
                        && r[0].details == Enriched(details, table, lookup)
  {
    if insertFails then [] else [AuditRow(user, action, table, recordId, Enriched(details, table, lookup))]
  }

  class AuditTrail {
    var rows: seq<AuditRow>

    constructor ()
      ensures rows == []
    {
      rows := [];
    }

    /** registrarAcao: a failing INSERT is swallowed and leaves the trail as it was. */
    method Record(user: Option<int>, action: string, table: string, recordId: int, details: Option<Details>,
                  lookup: (string, int) -> Option<string>, insertFails: bool)
      modifies this
      ensures rows == old(rows) + Logged(user, action, table, recordId, details, lookup, insertFails)
    {
      var stored := Enrich(details, table, lookup);
      if !insertFails {
        rows := rows + [AuditRow(user, action, table, recordId, stored)];
      }
    }
  }
}
