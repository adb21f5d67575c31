/**
 * The withdrawal screen of the administration page (admin-validacao.js): the
 * pharmacist picks a UBS, adds lots of that UBS to a basket and confirms the
 * withdrawal, which posts the basket to the withdrawal endpoint. The screen
 * object holds the module-level state of the script: the cached stock listing,
 * the lots selectable for the chosen UBS and the basket.
 */
module Basket {
  import opened Options
  import opened Relational
  import opened Text
  import opened JsText
  import Stock

  /** An entry of cestaDeRetirada. */
  datatype BasketEntry = BasketEntry(lotId: int, med: int, medName: string, lot: string, quantity: int)

  /** An item of the posted withdrawal and the posted withdrawal itself. */
  datatype PayloadItem = PayloadItem(lotId: int, med: int, quantity: int)
  datatype Payload = Payload(patient: int, ubs: int, pharmacist: int, items: seq<PayloadItem>)

  /** The checks of adicionarItemCesta in the order it makes them. */
  datatype AddOutcome =
    | NoMedication          // "Selecione um medicamento."
    | BadQuantity           // "Insira uma quantidade válida."
    | LotNotFound           // "Item de estoque não encontrado."
    | Unavailable(max: int) // "Quantidade indisponível. Máximo: max"
    | AlreadyInBasket       // "Este item (lote) já está na cesta."
    | Added

  datatype ConfirmOutcome =
    | NoPatient                   // "Selecione o paciente."
    | NoUnit                      // "Selecione a UBS."
    | EmptyBasket                 // "Adicione pelo menos um item à cesta."
    | Declined(payload: Payload)  // the confirmation dialog was dismissed
    | Rejected(payload: Payload)  // the API answered the post with an error
    | ReloadFailed(payload: Payload) // the post succeeded, the stock reload threw
    | Registered(payload: Payload)

  /** A lot offered for the UBS: it belongs to it and still has units. */
  predicate Selectable(v: Stock.StockView, ubs: int) {
    v.ubs == ubs && v.quantity > 0
  }

  /** carregarEstoqueDaUbs: the selectable lots; no UBS selected (NaN) gives none. */
  function UnitStock(all: seq<Stock.StockView>, ubsValue: string): seq<Stock.StockView> {
    var ubs := JsParseInt(ubsValue);
    if ubs.None? then [] else Filter(all, (v: Stock.StockView) => Selectable(v, ubs.value))
  }

  /** Array.prototype.find by lot id. */
  function FindLot(vs: seq<Stock.StockView>, lotId: int): Option<Stock.StockView> {
    FindFirst(vs, (v: Stock.StockView) => v.lotId, lotId)
  }

  predicate InBasket(basket: seq<BasketEntry>, lotId: int) {
    exists i :: 0 <= i < |basket| && basket[i].lotId == lotId
  }

  /** No lot appears twice in the basket. */
  predicate DistinctLots(basket: seq<BasketEntry>) {
    forall i, j :: 0 <= i < j < |basket| ==> basket[i].lotId != basket[j].lotId
  }

  /** The entry pushed for a lot: its id, medication, name and lot code, with the quantity asked. */
  function EntryOf(v: Stock.StockView, quantity: int): BasketEntry {
    BasketEntry(v.lotId, v.med, v.medName, v.lot, quantity)
  }

  /** The answer of adicionarItemCesta to the selected option and the typed quantity. */
  function AddVerdict(unitStock: seq<Stock.StockView>, basket: seq<BasketEntry>, medValue: string, quantityValue: string): AddOutcome {
    var lotId, quantity := JsParseInt(medValue), JsParseInt(quantityValue);
    if lotId.None? then NoMedication
    else if quantity.None? || quantity.value <= 0 then BadQuantity
    else
      var found := FindLot(unitStock, lotId.value);
      if found.None? then LotNotFound
      else if quantity.value > found.value.quantity then Unavailable(found.value.quantity)
      else if InBasket(basket, lotId.value) then AlreadyInBasket
      else Added
  }

  /** An item is added exactly when a selectable lot is chosen, the quantity is between 1 and its stock, and the lot is not already there. */
  lemma AddedIff(unitStock: seq<Stock.StockView>, basket: seq<BasketEntry>, medValue: string, quantityValue: string)
    ensures AddVerdict(unitStock, basket, medValue, quantityValue) == Added <==>
      exists v, q :: v in unitStock && JsParseInt(medValue) == Some(v.lotId) && FindLot(unitStock, v.lotId) == Some(v)
        && JsParseInt(quantityValue) == Some(q) && 1 <= q <= v.quantity && !InBasket(basket, v.lotId)
  {
    if AddVerdict(unitStock, basket, medValue, quantityValue) == Added {
      var v := FindLot(unitStock, JsParseInt(medValue).value).value;
      var q := JsParseInt(quantityValue).value;
      assert v in unitStock && JsParseInt(medValue) == Some(v.lotId) && FindLot(unitStock, v.lotId) == Some(v);
    }
  }

  /** A lot already in the basket is refused even with a valid quantity, so it cannot be added twice. */
  lemma SecondAddRefused(unitStock: seq<Stock.StockView>, basket: seq<BasketEntry>, v: Stock.StockView, quantity: int)
    requires FindLot(unitStock, v.lotId) == Some(v) && 1 <= quantity <= v.quantity
    ensures AddVerdict(unitStock, basket + [EntryOf(v, quantity)], IntToString(v.lotId), IntToString(quantity)) == AlreadyInBasket
  {
    JsParseIntOfIntToString(v.lotId);
    JsParseIntOfIntToString(quantity);
    var b := basket + [EntryOf(v, quantity)];
    assert b[|basket|].lotId == v.lotId;
  }

  /** Appending a lot that is not in the basket keeps the lots distinct. */
  lemma AppendKeepsLotsDistinct(basket: seq<BasketEntry>, e: BasketEntry)
    requires DistinctLots(basket) && !InBasket(basket, e.lotId)
    ensures DistinctLots(basket + [e])
  {
    var b := basket + [e];
    forall i, j | 0 <= i < j < |b| ensures b[i].lotId != b[j].lotId {
      if j == |basket| {
        assert b[i] == basket[i];
      }
    }
  }

  /** An accepted add appends the entry of a lot of the list, and the basket keeps distinct lots and positive quantities. */
  lemma AddedEntry(unitStock: seq<Stock.StockView>, basket: seq<BasketEntry>, medValue: string, quantityValue: string)
    requires AddVerdict(unitStock, basket, medValue, quantityValue) == Added
    requires DistinctLots(basket) && forall i :: 0 <= i < |basket| ==> basket[i].quantity > 0
    ensures JsParseInt(medValue).Some? && JsParseInt(quantityValue).Some?
    ensures FindLot(unitStock, JsParseInt(medValue).value).Some?
    ensures var v := FindLot(unitStock, JsParseInt(medValue).value).value;
      var b := basket + [EntryOf(v, JsParseInt(quantityValue).value)];
      && v in unitStock && v.lotId == JsParseInt(medValue).value
      && DistinctLots(b) && forall i :: 0 <= i < |b| ==> b[i].quantity > 0
  {
    var v := FindLot(unitStock, JsParseInt(medValue).value).value;
    AppendKeepsLotsDistinct(basket, EntryOf(v, JsParseInt(quantityValue).value));
  }

  /** removerItemCesta: everything except the entries of that lot; NaN removes nothing. */
  function RemoveEntry(basket: seq<BasketEntry>, lotId: Option<int>): seq<BasketEntry> {
    if lotId.None? then basket else Filter(basket, (e: BasketEntry) => e.lotId != lotId.value)
  }

  /** With distinct lots, removing one deletes exactly its entry and keeps the rest in order. */
  lemma {:induction false} RemoveDeletesOneEntry(basket: seq<BasketEntry>, k: int)
    requires DistinctLots(basket) && 0 <= k < |basket|
    ensures RemoveEntry(basket, Some(basket[k].lotId)) == basket[..k] + basket[k + 1..]
  {
    var p := (e: BasketEntry) => e.lotId != basket[k].lotId;
    var init := basket[..|basket| - 1];
    if k == |basket| - 1 {
      FilterKeepsAll(init, p);
      assert basket[..k] == init;
      assert basket[k + 1..] == [];
    } else {
      assert DistinctLots(init);
      RemoveDeletesOneEntry(init, k);
      assert init[k] == basket[k];
      assert basket[k + 1..] == init[k + 1..] + [basket[|basket| - 1]];
      assert basket[..k] == init[..k];
    }
  }

  /** A lot that is not in the basket leaves it unchanged. */
  lemma RemoveAbsent(basket: seq<BasketEntry>, lotId: int)
    requires !InBasket(basket, lotId)
    ensures RemoveEntry(basket, Some(lotId)) == basket
  {
    FilterKeepsAll(basket, (e: BasketEntry) => e.lotId != lotId);
  }

  /** The items posted: lot, medication and quantity of each entry, in basket order. */
  function PayloadItems(basket: seq<BasketEntry>): (items: seq<PayloadItem>)
    ensures |items| == |basket|
    ensures forall i :: 0 <= i < |basket| ==>
      items[i].lotId == basket[i].lotId && items[i].med == basket[i].med && items[i].quantity == basket[i].quantity
  {
    seq(|basket|, i requires 0 <= i < |basket| => PayloadItem(basket[i].lotId, basket[i].med, basket[i].quantity))
  }

  /** The posted items name each lot once, so the withdrawal endpoint sees no repeated lot. */
  lemma PayloadLotsDistinct(basket: seq<BasketEntry>)
    requires DistinctLots(basket)
    ensures forall i, j :: 0 <= i < j < |PayloadItems(basket)| ==> PayloadItems(basket)[i].lotId != PayloadItems(basket)[j].lotId
  {
  }

  /** The selectable lots are exactly those of the selected UBS with units left. */
  lemma UnitStockContents(all: seq<Stock.StockView>, ubs: int, v: Stock.StockView)
    ensures v in UnitStock(all, IntToString(ubs)) <==> v in all && v.ubs == ubs && v.quantity > 0
  {
    JsParseIntOfIntToString(ubs);
  }

  /** The placeholder option (no UBS selected) offers no lot. */
  lemma NoUnitNoStock(all: seq<Stock.StockView>)
    ensures UnitStock(all, "") == []
  {
    JsParseIntNeedsADigit("");
  }

  class WithdrawalScreen {
    var stock: seq<Stock.StockView>      // estoqueCompleto
    var unitStock: seq<Stock.StockView>  // estoqueUbsAtual
    var basket: seq<BasketEntry>         // cestaDeRetirada
    var pharmacist: int                  // usuarioLogado.id

    /** The basket holds each lot once, with a positive quantity. */
    ghost predicate Valid()
      reads this
    {
      DistinctLots(basket) && forall i :: 0 <= i < |basket| ==> basket[i].quantity > 0
    }

    /** initAdminValidacao: the logged-in user is the pharmacist; the caches start empty. */
    constructor (pharmacist: int)
      ensures Valid()
      ensures stock == [] && unitStock == [] && basket == [] && this.pharmacist == pharmacist
    {
      stock, unitStock, basket := [], [], [];
      this.pharmacist := pharmacist;
    }

    /**
     * carregarDadosValidacao: a fresh listing resets the selections and empties the basket.
     * When a fetch fails (`listing` is None) the error is only shown and nothing changes.
     */
    method LoadData(listing: Option<seq<Stock.StockView>>)
      requires Valid()
      modifies this
      ensures Valid()
      ensures listing.None? ==>
        stock == old(stock) && unitStock == old(unitStock) && basket == old(basket) && pharmacist == old(pharmacist)
      ensures listing.Some? ==>
        stock == listing.value && basket == [] && unitStock == UnitStock(listing.value, "") && pharmacist == old(pharmacist)
    {
      if listing.None? {
        return;
      }
      stock := listing.value;
      basket := [];
      LoadUnitStock("");
    }

    /** carregarEstoqueDaUbs for the value of the UBS select. */
    method LoadUnitStock(ubsValue: string)
      modifies this
      ensures unitStock == UnitStock(stock, ubsValue)
      ensures stock == old(stock) && basket == old(basket) && pharmacist == old(pharmacist)
    {
      var ubs := JsParseInt(ubsValue);
      if ubs.None? {
        unitStock := [];
        return;
      }
      unitStock := Filter(stock, (v: Stock.StockView) => Selectable(v, ubs.value));
    }

    /** adicionarItemCesta for the selected option and the typed quantity. */
    method AddItem(medValue: string, quantityValue: string) returns (r: AddOutcome)
      requires Valid()
      modifies this
      ensures Valid()
      ensures r == AddVerdict(old(unitStock), old(basket), medValue, quantityValue)
      ensures r == Added ==>
        exists v :: v in unitStock && v.lotId == JsParseInt(medValue).value
          && basket == old(basket) + [EntryOf(v, JsParseInt(quantityValue).value)]
      ensures r != Added ==> basket == old(basket)
      ensures stock == old(stock) && unitStock == old(unitStock) && pharmacist == old(pharmacist)
    {
      r := AddVerdict(unitStock, basket, medValue, quantityValue);
      if r == Added {
        AddedEntry(unitStock, basket, medValue, quantityValue);
        var v := FindLot(unitStock, JsParseInt(medValue).value).value;
        basket := basket + [EntryOf(v, JsParseInt(quantityValue).value)];
      }
    }

    /** removerItemCesta for the id carried by the clicked button. */
    method RemoveItem(idValue: string)
      requires Valid()
      modifies this
      ensures Valid()
      ensures basket == RemoveEntry(old(basket), JsParseInt(idValue))
      ensures stock == old(stock) && unitStock == old(unitStock) && pharmacist == old(pharmacist)
    {
      var lotId := JsParseInt(idValue);
      if lotId.None? {
        return;
      }
      var keep := (e: BasketEntry) => e.lotId != lotId.value;
      basket := Filter(basket, keep);
      forall i, j | 0 <= i < j < |basket| ensures basket[i].lotId != basket[j].lotId {
        FilterIsSubsequence(old(basket), keep, i, j);
      }
      forall i | 0 <= i < |basket| ensures basket[i].quantity > 0 {
        assert basket[i] in old(basket);
      }
    }

    /**
     * confirmarRetirada: patient, UBS and a non-empty basket are required; the
     * payload carries the basket. `posted` is the answer to the post and `reloaded`
     * that of the stock reload that follows it. A successful post empties the basket
     * before the reload; a failed reload then leaves the old stock on screen. The UBS
     * stays selected.
     */
    method Confirm(patientValue: string, ubsValue: string, confirmed: bool, posted: bool,
                   reloaded: Option<seq<Stock.StockView>>)
      returns (r: ConfirmOutcome)
      requires Valid()
      modifies this
      ensures Valid()
      ensures r == NoPatient <==> JsParseInt(patientValue).None?
      ensures r == NoUnit <==> JsParseInt(patientValue).Some? && JsParseInt(ubsValue).None?
      ensures r == EmptyBasket <==> JsParseInt(patientValue).Some? && JsParseInt(ubsValue).Some? && old(basket) == []
      ensures r.Declined? || r.Rejected? || r.ReloadFailed? || r.Registered? ==>
        r.payload == Payload(JsParseInt(patientValue).value, JsParseInt(ubsValue).value, pharmacist, PayloadItems(old(basket)))
      ensures r.Declined? <==> !r.NoPatient? && !r.NoUnit? && !r.EmptyBasket? && !confirmed
      ensures r.Rejected? <==> !r.NoPatient? && !r.NoUnit? && !r.EmptyBasket? && confirmed && !posted
      ensures r.ReloadFailed? <==> !r.NoPatient? && !r.NoUnit? && !r.EmptyBasket? && confirmed && posted && reloaded.None?
      ensures r.Registered? || r.ReloadFailed? ==> basket == []
      ensures r.Registered? ==> stock == reloaded.value && unitStock == UnitStock(reloaded.value, ubsValue)
      ensures r.ReloadFailed? ==> stock == old(stock) && unitStock == old(unitStock)
      ensures !r.Registered? && !r.ReloadFailed? ==> basket == old(basket) && stock == old(stock) && unitStock == old(unitStock)
      ensures pharmacist == old(pharmacist)
    {
      var patient := JsParseInt(patientValue);
      var ubs := JsParseInt(ubsValue);
      if patient.None? {
        return NoPatient;
      }
      if ubs.None? {
        return NoUnit;
      }
      if |basket| == 0 {
        return EmptyBasket;
      }
      var payload := Payload(patient.value, ubs.value, pharmacist, PayloadItems(basket));
      if !confirmed {
        return Declined(payload);
      }
      if !posted {
        return Rejected(payload);
      }
      basket := [];
      if reloaded.None? {
        return ReloadFailed(payload);
      }
      stock := reloaded.value;
      LoadUnitStock(ubsValue);
      r := Registered(payload);
    }
  }

  /** Filter keeps the relative order of what it keeps, so distinct lots stay distinct. */
  lemma {:induction false} FilterIsSubsequence(s: seq<BasketEntry>, p: BasketEntry -> bool, i: int, j: int)
    requires DistinctLots(s) && 0 <= i < j < |Filter(s, p)|
    ensures Filter(s, p)[i].lotId != Filter(s, p)[j].lotId
  {
    var init := s[..|s| - 1];
    var fi := Filter(init, p);
    assert DistinctLots(init);
    if j < |fi| {
      FilterIsSubsequence(init, p, i, j);
    } else {
      var last := s[|s| - 1];
      assert Filter(s, p)[j] == last;
      assert Filter(s, p)[i] in init;
      var k :| 0 <= k < |init| && init[k] == Filter(s, p)[i];
      assert s[k] == init[k];
    }
  }
}
