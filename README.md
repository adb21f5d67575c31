# MedControl pharmacy ledger — a Dafny model

MedControl is a pharmacy management system for public health units (UBS: *Unidade
Básica de Saúde*). Patients search for medications, reserve a quantity at a UBS and
collect it at a chosen time. Pharmacists record withdrawals against stock lots and
validate prescriptions. Administrators manage the stock and read reports.

This project models the core of that system in Dafny and proves properties of the
model.

- **The backend ledger.** Stock lots, reservations, withdrawals and the search log
  live in one `Ledger.Database` object whose tables are sequences. The `auditoria`
  table is an `Audit.AuditTrail` object. Each controller operation is a method that
  rewrites these tables and states the whole new state, including any audit row it
  writes:
  - reservations (`ReservaController`);
  - medication search, soft delete and the status switch (`MedicamentoController`);
  - withdrawals (`RetiradaController`);
  - stock lots (`EstoqueController`).

  One availability rule is shared by search and by reservation admission: the
  non-expired positive stock minus the active reservations (`Ledger.Available`).
- **Pure decision rules:**
  - the stock status classifier and the dashboard and demand reports (`RelatorioController`);
  - the prescription decision chain (`ReceitaController`).
- **The verification-code store** of `AutenticacaoController`. It is a map from e-mail
  to (code, creation instant) with a two-minute lifetime, held by a class whose methods
  issue, check and consume codes.
- **The audit sanitiser** of `AuditoriaServico`: secret keys are removed, ids are
  rewritten into names, and items are formatted.
- **Frontend logic:**
  - the withdrawal basket (`admin-validacao.js`);
  - pickup dates and hours, and the reservation form guards (`usuario-reservas.js`);
  - the CEP (postal code) mask and field state (`cep.js`).

  The browser's `parseInt` is modelled in `JsText`.

Conventions:
- Dates are day numbers; `today` stands for `CURDATE()` / `LocalDate.now()`.
- Instants are integers and `now` is a parameter.
- SQL `ORDER BY` is a deterministic insertion sort under a total preorder (`Relational.Sort`).
- `GROUP BY` with `SUM` / `COUNT` is `Relational.GroupSum`.
- Text comparison is code-point order (`Text.StrLe`).
- Java's `Integer.parseInt` is `Text.ParseInt`, which refuses values outside 32 bits.

Where the code and its documentation disagree, the model follows the code. Examples:
- reservation creation does not check the `ativo` flags, but search does;
- the critical-stock indicator filters on an active medication only, not on an active UBS;
- a prescription with a NULL expiry fails with 500 even when it is used;
- a stock update of an id that does not exist reports success and changes nothing.

## Model

| member | source | states |
|---|---|---|
| Ledger.PhysicalStock | backend/src/main/java/br/com/medcontrol/controlador/ReservaController.java:58-66 | The physical stock of a (medication, UBS) pair is never negative. It is positive exactly when some lot of that pair has a positive quantity and an expiry strictly after today. |
| Ledger.ActiveReservedUpdate | backend/src/main/java/br/com/medcontrol/controlador/ReservaController.java:70-78 | Replacing one reservation row changes the active reserved sum by the new row's contribution minus the old one's. |
| Reservations.UnavailableMessageReportsAvailability | backend/src/main/java/br/com/medcontrol/controlador/ReservaController.java:85-89 | The 400 message carries the computed availability, which parses back to the same number. |
| Reservations.Create | backend/src/main/java/br/com/medcontrol/controlador/ReservaController.java:34-139 | The request is refused exactly when the quantity exceeds availability. A refusal reports that availability and changes nothing. Success appends one ATIVA row echoing user, medication, UBS, quantity and time, under the next id. Availability stays non-negative. No stock lot and no other table changes. |
| Reservations.CreatedLowersAvailability | backend/src/main/java/br/com/medcontrol/controlador/ReservaController.java:70-82 | Appending an ATIVA reservation lowers its pair's availability by exactly its quantity and leaves every other pair's unchanged. |
| Reservations.CancelledRowReservesNothing | backend/src/main/java/br/com/medcontrol/controlador/ReservaController.java:70-78 | A CANCELADA row does not count against availability. |
| Reservations.CountOwnedActive | backend/src/main/java/br/com/medcontrol/controlador/ReservaController.java:153-165 | The number of rows the guarded UPDATE affects is positive exactly when a row with that id, owner and ATIVA status exists. |
| Reservations.UpdatesKeepIds | backend/src/main/java/br/com/medcontrol/controlador/ReservaController.java:148-243 | Cancel and reschedule keep reservation ids unique. |
| Reservations.Cancel | backend/src/main/java/br/com/medcontrol/controlador/ReservaController.java:148-171 | Success holds exactly when the caller owns an ATIVA reservation with that id. Only that row's status becomes CANCELADA. Otherwise (404) nothing changes. Stock, counters and the other tables are unchanged. |
| Reservations.CancelChangesOneRow | backend/src/main/java/br/com/medcontrol/controlador/ReservaController.java:153-154 | With unique ids, cancelling changes exactly one row, and only its status. |
| Reservations.CancelTwiceNotFound | backend/src/main/java/br/com/medcontrol/controlador/ReservaController.java:153-166 | After a cancel, no ATIVA row with that id and owner remains, so a second cancel gives 404. |
| Reservations.CancelRaisesAvailability | backend/src/main/java/br/com/medcontrol/controlador/ReservaController.java:148-171 | Cancelling raises its pair's availability by exactly the cancelled quantity and leaves the other pairs unchanged. |
| Reservations.Reschedule | backend/src/main/java/br/com/medcontrol/controlador/ReservaController.java:217-243 | Success holds exactly when the caller owns an ATIVA reservation with that id. Only the pickup time of that row changes. Otherwise (404) nothing changes. |
| Reservations.RescheduleKeepsAllButTime | backend/src/main/java/br/com/medcontrol/controlador/ReservaController.java:224 | Rescheduling keeps every row's id, owner, medication, UBS, quantity and status. |
| Reservations.RescheduleKeepsAvailability | backend/src/main/java/br/com/medcontrol/controlador/ReservaController.java:217-243 | Rescheduling never changes the availability of any pair. |
| Reservations.Joined | backend/src/main/java/br/com/medcontrol/controlador/ReservaController.java:182-186 | The join holds exactly the caller's reservations, with any status, whose medication and UBS exist, as views. |
| Reservations.LaterFirstIsPreorder | backend/src/main/java/br/com/medcontrol/controlador/ReservaController.java:187 | Ordering by pickup time descending is a total preorder. |
| Reservations.ListingRows | backend/src/main/java/br/com/medcontrol/controlador/ReservaController.java:178-210 | The listing of the caller's reservations is sorted latest pickup first. |
| Reservations.ListingContents | backend/src/main/java/br/com/medcontrol/controlador/ReservaController.java:182-187 | A view is listed if and only if it is the view of one of the caller's reservations. |
| Reservations.JoinedOnePerReservation | backend/src/main/java/br/com/medcontrol/controlador/ReservaController.java:182-192 | The join yields exactly as many views as there are listed reservations of the caller. |
| Reservations.ListingHasOneRowPerReservation | backend/src/main/java/br/com/medcontrol/controlador/ReservaController.java:182-192 | The listing has one row per listed reservation of the caller, and it is a permutation of the join. |
| Reservations.CreatedIsListed | backend/src/main/java/br/com/medcontrol/controlador/ReservaController.java:92-187 | A newly created reservation appears in its owner's listing as exactly its own view. That view is ATIVA and has the reservation's id, quantity and pickup time. It also carries the names of its medication and UBS. |
| MedicationSearch.SearchEntriesSum | backend/src/main/java/br/com/medcontrol/controlador/MedicamentoController.java:222-231 | For a pair that matches the term, the grouped SUM equals the physical stock used by admission. |
| MedicationSearch.SearchEntriesKeys | backend/src/main/java/br/com/medcontrol/controlador/MedicamentoController.java:222-231 | A pair forms a group if and only if it matches the term (active medication and UBS, name or ingredient LIKE the pattern) and has positive physical stock. |
| MedicationSearch.ByUnitNameIsPreorder | backend/src/main/java/br/com/medcontrol/controlador/MedicamentoController.java:231 | ORDER BY u.nome is a total preorder. |
| MedicationSearch.SearchRowsFacts | backend/src/main/java/br/com/medcontrol/controlador/MedicamentoController.java:222-231 | The grouped rows have distinct pairs and are sorted by UBS name. They hold exactly the matching pairs with positive stock, each with its physical stock. |
| MedicationSearch.FirstUnmappable | backend/src/main/java/br/com/medcontrol/controlador/MedicamentoController.java:277-298 | Finds the first kept row whose UBS has a NULL address, latitude or longitude, where Map.of throws. It answers none exactly when no such row exists, and every row before the one it finds is safe. |
| MedicationSearch.ComputeHits | backend/src/main/java/br/com/medcontrol/controlador/MedicamentoController.java:244-298 | The loop over the grouped rows gives the filtered hits. It fails exactly when a kept row has a NULL address or coordinate, and then holds the hits built before that row. The medication id it keeps is the first grouped row's, even when that row is filtered out. |
| MedicationSearch.Search | backend/src/main/java/br/com/medcontrol/controlador/MedicamentoController.java:207-320 | A blank or missing term gives 400 with no search and no log. A search that would list a pair whose UBS has a NULL address, latitude or longitude gives 500. Otherwise the response is the computed hits. For both 500 and the hits, the log gains one record only when the user header parses and the log store succeeds. Its had-results flag comes from the hits built before the failure. A failed log never alters the response. No other table changes. |
| MedicationSearch.LogRecordsHadResults | backend/src/main/java/br/com/medcontrol/controlador/MedicamentoController.java:309-320 | The logged had-results flag is true exactly when the given hit list is non-empty. A failed store logs nothing. |
| MedicationSearch.HitsOfPrefix | backend/src/main/java/br/com/medcontrol/controlador/MedicamentoController.java:244-298 | The hits built over the first rows are a prefix of the hits built over all of them. |
| MedicationSearch.PartialIsPrefix | backend/src/main/java/br/com/medcontrol/controlador/MedicamentoController.java:277-298 | The list a failed search leaves behind is a prefix of the full hit list, and is all of it when nothing throws. |
| MedicationSearch.HitsOfEmptyIff | backend/src/main/java/br/com/medcontrol/controlador/MedicamentoController.java:277-290 | No hit is built exactly when no grouped row keeps a positive availability. |
| MedicationSearch.FailedLogHadResults | backend/src/main/java/br/com/medcontrol/controlador/MedicamentoController.java:296-314 | After the exception, the log says "had results" exactly when a row before the failing one was kept. |
| MedicationSearch.SearchFailsOnlyIf | backend/src/main/java/br/com/medcontrol/controlador/MedicamentoController.java:277-298 | A failing search has a pair that would be listed and whose UBS has a NULL address or coordinate. |
| MedicationSearch.SearchFailsIf | backend/src/main/java/br/com/medcontrol/controlador/MedicamentoController.java:277-298 | A pair that would be listed and whose UBS has a NULL address or coordinate makes the search fail. |
| MedicationSearch.SearchFailsIff | backend/src/main/java/br/com/medcontrol/controlador/MedicamentoController.java:277-298 | The search fails if and only if a pair it would list belongs to a UBS with a NULL address, latitude or longitude. |
| MedicationSearch.AnsweredHitsCarryUnitColumns | backend/src/main/java/br/com/medcontrol/controlador/MedicamentoController.java:280-288 | When nothing throws, every hit carries its UBS's name and its non-NULL address, latitude and longitude. |
| MedicationSearch.HitsOfFromRows | backend/src/main/java/br/com/medcontrol/controlador/MedicamentoController.java:254-289 | Every hit comes from a grouped row, carries physical minus ATIVA reserved, and is positive. |
| MedicationSearch.HitsOfComplete | backend/src/main/java/br/com/medcontrol/controlador/MedicamentoController.java:272-277 | Every grouped row whose physical minus reserved is positive yields a hit. |
| MedicationSearch.HitsOfOrdered | backend/src/main/java/br/com/medcontrol/controlador/MedicamentoController.java:243-289 | The hits keep the groups' order and never repeat a pair. |
| MedicationSearch.HitIsAvailability | backend/src/main/java/br/com/medcontrol/controlador/MedicamentoController.java:254-277 | A hit's quantity is exactly the availability that admission uses, and it is positive. |
| MedicationSearch.HitListedOnlyIf | backend/src/main/java/br/com/medcontrol/controlador/MedicamentoController.java:227-229 | A listed pair has positive physical stock. |
| MedicationSearch.HitListedIf | backend/src/main/java/br/com/medcontrol/controlador/MedicamentoController.java:222-289 | A matching pair with positive physical stock and positive availability is listed. |
| MedicationSearch.HitListedIff | backend/src/main/java/br/com/medcontrol/controlador/MedicamentoController.java:222-289 | A pair is listed if and only if it matches, has positive physical stock and has positive availability. |
| MedicationSearch.HitsDistinctAndOrdered | backend/src/main/java/br/com/medcontrol/controlador/MedicamentoController.java:230-231 | The results have at most one entry per (medication, UBS), in UBS-name order. |
| MedicationSearch.SetStatus | backend/src/main/java/br/com/medcontrol/controlador/MedicamentoController.java:173-200 | Only the `ativo` flag of the medication with that id becomes the given value, and no other table of the ledger changes. The X-User-ID header is parsed after the UPDATE. If it does not parse, the answer is 500, the flag stays changed and nothing is audited. Otherwise the answer is 200 and the trail gains the "ATIVAR" or "DESATIVAR" row for `medicamentos` under the admin id, which is null when the header is missing. |
| MedicationSearch.Deactivate | backend/src/main/java/br/com/medcontrol/controlador/MedicamentoController.java:142-167 | Soft delete: the row stays and its `ativo` flag becomes false, and no other table of the ledger changes. A header that does not parse gives 500 after the update and nothing is audited. Otherwise the answer is 200 and the trail gains a "DESATIVAR" row. |
| MedicationSearch.FindAfterSetActive | backend/src/main/java/br/com/medcontrol/controlador/MedicamentoController.java:149-154 | After the switch, the medication with that id exists exactly when it existed before, and it carries the new flag. |
| MedicationSearch.DeactivatedNotFound | backend/src/main/java/br/com/medcontrol/controlador/MedicamentoController.java:228 | A deactivated medication never appears in search results. |
| Withdrawals.LinesFor | backend/src/main/java/br/com/medcontrol/controlador/RetiradaController.java:88-100 | There is one withdrawal line per item, in order, copying lot, medication and quantity under the header's id. |
| Withdrawals.DecrementAllKeepsRows | backend/src/main/java/br/com/medcontrol/controlador/RetiradaController.java:83-104 | The guarded UPDATEs change only quantities: the same rows, ids, keys and length. |
| Withdrawals.DecrementAllKeepsStockNonNegative | backend/src/main/java/br/com/medcontrol/controlador/RetiradaController.java:83-104 | The `quantidade >= ?` guard keeps every lot's quantity non-negative. |
| Withdrawals.DecrementAllTotal | backend/src/main/java/br/com/medcontrol/controlador/RetiradaController.java:64-119 | When every UPDATE affects a row, total stock falls by exactly the sum of the item quantities. |
| Withdrawals.DecrementAllPerLot | backend/src/main/java/br/com/medcontrol/controlador/RetiradaController.java:83-115 | On success, each lot falls by exactly the sum of the quantities of the items that name it. |
| Withdrawals.DecrementAllSucceedsOnlyIfFound | backend/src/main/java/br/com/medcontrol/controlador/RetiradaController.java:110-115 | A batch in which every UPDATE affects a row names only existing lots. |
| Withdrawals.ApplyItems | backend/src/main/java/br/com/medcontrol/controlador/RetiradaController.java:88-115 | The item loop builds the lines and the decremented lots, and reports whether every UPDATE affected a row. |
| Withdrawals.Transact | backend/src/main/java/br/com/medcontrol/controlador/RetiradaController.java:28-119 | An unparsable caller header gives 500 and missing data gives 400, both before any write. If any lot UPDATE affects no row, everything rolls back. Success adds one header whose pharmacist is the caller, one line per item and the decremented lots. Reservations are never touched. |
| Withdrawals.Record | backend/src/main/java/br/com/medcontrol/controlador/RetiradaController.java:28-150 | The ledger changes exactly as in Withdrawals.Transact. Only a committed withdrawal is audited: the trail gains one "REGISTRAR_RETIRADA" row for `retiradas` under the caller, with the new id and the request body. A failed withdrawal adds nothing to the trail. |
| Stock.CheckLot | backend/src/main/java/br/com/medcontrol/controlador/EstoqueController.java:69-109 | The check fails when an id does not parse. Otherwise `existe` is true exactly when some row has this UBS, medication and lot and either no exclusion is given or the row's id differs from it. |
| Stock.CheckLotIgnoresOwnRow | backend/src/main/java/br/com/medcontrol/controlador/EstoqueController.java:77-101 | Checking an existing row with its own id excluded never reports a conflict. |
| Stock.CheckLotPredictsInsert | backend/src/main/java/br/com/medcontrol/controlador/EstoqueController.java:69-156 | The check without exclusion answers exactly whether an insert would hit the unique key. |
| Stock.RowOfFormOf | backend/src/main/java/br/com/medcontrol/controlador/EstoqueController.java:119-128 | A lot read back from its own form fields gives the same row. |
| Stock.AppendKeepsKeysUnique | backend/src/main/java/br/com/medcontrol/controlador/EstoqueController.java:116-156 | Appending keeps the (medication, UBS, lot) key unique if and only if the key is not taken. |
| Stock.InsertLot | backend/src/main/java/br/com/medcontrol/controlador/EstoqueController.java:116-156 | A malformed body changes nothing. A taken key gives 409 and changes nothing. Otherwise one row is appended under the next id, uniqueness is preserved, and no other table of the ledger changes. Only a saved row is audited: the trail gains one "CRIAR" row for `estoque` with no user, the new id and the body. |
| Stock.OverwriteOneRow | backend/src/main/java/br/com/medcontrol/controlador/EstoqueController.java:166-178 | An update replaces exactly the row with that id, or nothing when no row has it. |
| Stock.OverwriteKeepsKeysUnique | backend/src/main/java/br/com/medcontrol/controlador/EstoqueController.java:162-198 | Overwriting keeps the key unique if and only if the new key does not collide with another row. |
| Stock.CheckLotPredictsUpdate | backend/src/main/java/br/com/medcontrol/controlador/EstoqueController.java:69-198 | The check with the row's own id excluded answers exactly whether the update would collide. |
| Stock.UpdateLot | backend/src/main/java/br/com/medcontrol/controlador/EstoqueController.java:162-198 | A malformed body changes nothing. A collision gives 409 and changes nothing. Otherwise all five fields of that row are overwritten, and the trail gains one "ATUALIZAR" row with that id and the body. This happens even when no row has the id. |
| Stock.WithoutRemovesOneRow | backend/src/main/java/br/com/medcontrol/controlador/EstoqueController.java:207-212 | Delete removes exactly the row with that id and keeps the others in order. |
| Stock.WithoutAbsent | backend/src/main/java/br/com/medcontrol/controlador/EstoqueController.java:207-212 | Deleting an id that no row has changes nothing. |
| Stock.DeleteLot | backend/src/main/java/br/com/medcontrol/controlador/EstoqueController.java:204-224 | The lot table loses the row with that id, the invariants hold, and no other table of the ledger changes. The trail gains one "EXCLUIR" row with that id and null details. |
| Stock.Joined | backend/src/main/java/br/com/medcontrol/controlador/EstoqueController.java:30-37 | The join holds exactly the lots whose medication and UBS are active, as views. |
| Stock.ByMedThenUnitIsPreorder | backend/src/main/java/br/com/medcontrol/controlador/EstoqueController.java:38 | ORDER BY commercial name, then UBS name, is a total preorder. |
| Stock.StockListing | backend/src/main/java/br/com/medcontrol/controlador/EstoqueController.java:29-63 | The stock listing is sorted by medication name and then UBS name. |
| Stock.StockListingContents | backend/src/main/java/br/com/medcontrol/controlador/EstoqueController.java:30-38 | A view is listed if and only if it is the view of a lot with an active medication and an active UBS. |
| Stock.InactiveMedicationNotListed | backend/src/main/java/br/com/medcontrol/controlador/EstoqueController.java:37 | Every listed view has an active medication and an active UBS. |
| Reports.StatusOf | backend/src/main/java/br/com/medcontrol/controlador/RelatorioController.java:146-156 | Each status holds exactly under its own condition: expired if the expiry is non-null and before today; else critical below 20; else low below 50; else OK. |
| Reports.StatusLabelsDistinct | backend/src/main/java/br/com/medcontrol/controlador/RelatorioController.java:146-156 | The four labels are distinct, so the label determines the status. |
| Reports.NotExpiredFromToday | backend/src/main/java/br/com/medcontrol/controlador/RelatorioController.java:147 | A null expiry, or an expiry of today or later, is never "Vencido". |
| Reports.CountableIsNotExpired | backend/src/main/java/br/com/medcontrol/controlador/RelatorioController.java:147 | A lot that counts toward availability is never reported as expired. |
| Reports.ExpiringTodayIsInBetween | backend/src/main/java/br/com/medcontrol/controlador/RelatorioController.java:147 | A lot expiring today is not "Vencido", yet it no longer counts toward availability. |
| Reports.StatusMonotone | backend/src/main/java/br/com/medcontrol/controlador/RelatorioController.java:149-155 | More units never give a more severe status. |
| Reports.ByMedUnitExpiryIsPreorder | backend/src/main/java/br/com/medcontrol/controlador/RelatorioController.java:124 | ORDER BY name, UBS and expiry (NULL first) is a total preorder. |
| Reports.StockReport | backend/src/main/java/br/com/medcontrol/controlador/RelatorioController.java:108-166 | A present but unparsable `ubs_id` fails. Otherwise the report holds the active lots, filtered by UBS only when `ubs_id` is given and non-empty, each with its status. |
| Reports.ClassifyRows | backend/src/main/java/br/com/medcontrol/controlador/RelatorioController.java:133-159 | The loop over the result set keeps one row per lot, in order, each carrying the status the classifier gives it. |
| Reports.StockReportContents | backend/src/main/java/br/com/medcontrol/controlador/RelatorioController.java:112-158 | A row is reported if and only if it is the view of an active lot in the selected UBS, with that lot's status. |
| Reports.StockReportSorted | backend/src/main/java/br/com/medcontrol/controlador/RelatorioController.java:124 | The report is ordered by medication name, then UBS name, then expiry. |
| Reports.UnfilteredReportMatchesListing | backend/src/main/java/br/com/medcontrol/controlador/RelatorioController.java:118 | Without a UBS filter, the report holds the same lots as the stock listing. |
| Reports.CriticalJoined | backend/src/main/java/br/com/medcontrol/controlador/RelatorioController.java:35-39 | The candidates are exactly the lots below 20 units with an active medication and an existing UBS. |
| Reports.ScarcerFirstIsPreorder | backend/src/main/java/br/com/medcontrol/controlador/RelatorioController.java:40 | Quantity ascending, then expiry ascending, is a total preorder. |
| Reports.CriticalStockFacts | backend/src/main/java/br/com/medcontrol/controlador/RelatorioController.java:35-53 | There are at most five rows, sorted, each a qualifying lot. A qualifying row left out means five rows no less scarce were kept. |
| Reports.CountedTermsCount | backend/src/main/java/br/com/medcontrol/controlador/RelatorioController.java:57-59 | Each term's entries add up to the number of searches of it with results in the window. A term appears exactly when that number is positive. |
| Reports.MoreFirstIsPreorder | backend/src/main/java/br/com/medcontrol/controlador/RelatorioController.java:59 | Count descending is a total preorder. |
| Reports.MostSearchedFacts | backend/src/main/java/br/com/medcontrol/controlador/RelatorioController.java:57-72 | There are at most five distinct terms, in descending count, each with its true positive count. A counted term left out means the five kept have counts at least as high. |
| Reports.JoinedLines | backend/src/main/java/br/com/medcontrol/controlador/RelatorioController.java:76-79 | The join pairs each kept header with exactly its own withdrawal lines. |
| Reports.DayEntries | backend/src/main/java/br/com/medcontrol/controlador/RelatorioController.java:76-80 | Each joined line contributes its quantity to its day. |
| Reports.EarlierFirstIsPreorder | backend/src/main/java/br/com/medcontrol/controlador/RelatorioController.java:80 | Day ascending is a total preorder. |
| Reports.DemandByDayFacts | backend/src/main/java/br/com/medcontrol/controlador/RelatorioController.java:76-94 | The days are strictly ascending. A day appears exactly when a withdrawal in the window has a line on it. Each total is the sum of that day's quantities. |
| Reports.DemandByDayNonEmpty | backend/src/main/java/br/com/medcontrol/controlador/RelatorioController.java:76-94 | The demand by day has a day exactly when some withdrawal in the window has a line. |
| Reports.DemandProjection | backend/src/main/java/br/com/medcontrol/controlador/RelatorioController.java:75-94 | For the columns a demand query names, the list is non-empty exactly when every column resolves, the query does not fail, and some withdrawal in the window has a line. A failure leaves it empty, as the swallowed SQLException does. |
| Reports.DemandAsWrittenIsEmpty | backend/src/main/java/br/com/medcontrol/controlador/RelatorioController.java:76-79 | As written, the unqualified `id_retirada` names a column of both joined tables. The query never runs, so the demand list is empty on every database. |
| Reports.DemandAsWrittenLosesAWithdrawal | backend/src/main/java/br/com/medcontrol/controlador/RelatorioController.java:76-79 | For one withdrawal with one line in the window, the written query reports nothing and the corrected one reports a day. |
| Reports.DemandIntendedIsByDay | backend/src/main/java/br/com/medcontrol/controlador/RelatorioController.java:76-94 | With `r.id_retirada`, every column resolves and the list is the demand by day whose facts `DemandByDayFacts` states. |
| Reports.Indicators | backend/src/main/java/br/com/medcontrol/controlador/RelatorioController.java:29-102 | A failing connection or critical-stock query answers 500, and only then. Otherwise the dashboard holds the critical stock and the most searched terms. The demand by day is that of the corrected query (see Findings). A failing search-log or demand query yields an empty list for that indicator only. |
| Reports.MedEntries | backend/src/main/java/br/com/medcontrol/controlador/RelatorioController.java:180-183 | A line contributes its quantity to its medication exactly when that medication exists. |
| Reports.DemandRows | backend/src/main/java/br/com/medcontrol/controlador/RelatorioController.java:204-211 | There is one output row per group, in order. Each row whose medication exists carries its commercial name, its active ingredient and the group's total. |
| Reports.DemandRowsFacts | backend/src/main/java/br/com/medcontrol/controlador/RelatorioController.java:179-211 | The demand report has one row per medication group, and each group's medication exists. The row carries that medication's commercial name and active ingredient, and the sum of its withdrawal lines in the window. |
| Reports.DemandReport | backend/src/main/java/br/com/medcontrol/controlador/RelatorioController.java:172-222 | A SQL error yields the empty list. Otherwise the rows are the per-medication totals, restricted to the date window only when both dates are given and non-empty. |
| Reports.DemandWindowNeedsBoth | backend/src/main/java/br/com/medcontrol/controlador/RelatorioController.java:188-192 | With either date missing or empty, no filter is applied. |
| Reports.EndDateExcludesLaterThatDay | backend/src/main/java/br/com/medcontrol/controlador/RelatorioController.java:189 | BETWEEN a date pair excludes withdrawals made after midnight starting the end date. |
| Reports.DemandTotalsFacts | backend/src/main/java/br/com/medcontrol/controlador/RelatorioController.java:179-195 | The medications are distinct and in descending total. A medication appears exactly when it has a line in the window. Each total is the sum of its quantities. |
| Relational.FindFirst | backend/src/main/java/br/com/medcontrol/controlador/ReceitaController.java:28-36 | The row found has the key sought. Nothing is found exactly when no row has that key. It is used for the prescription lookup by code, the medication and UBS lookups by id, and the basket's lot lookup. |
| Relational.FindFirstUnique | backend/src/main/java/br/com/medcontrol/controlador/ReservaController.java:182-186 | When no two rows share a key, looking up a row's key finds that row. This is why the JOIN on a primary key pairs each reservation with its own medication and UBS. |
| Prescriptions.Validate | backend/src/main/java/br/com/medcontrol/controlador/ReceitaController.java:26-77 | The verdict is NotFound exactly when no row has the code. Otherwise it is the decision on the stored row. |
| Prescriptions.UnknownCodeIsNotFound | backend/src/main/java/br/com/medcontrol/controlador/ReceitaController.java:66-70 | An unknown code gives 404 `invalida`. |
| Prescriptions.UsedWinsOverEverything | backend/src/main/java/br/com/medcontrol/controlador/ReceitaController.java:48-51 | A used prescription gives 409 whatever its expiry, authentication or date. |
| Prescriptions.DecideCases | backend/src/main/java/br/com/medcontrol/controlador/ReceitaController.java:48-64 | Each of the four outcomes holds exactly under its own condition in the chain: used; expired; awaiting authentication; ready. |
| Prescriptions.ExpiringTodayIsStillValid | backend/src/main/java/br/com/medcontrol/controlador/ReceitaController.java:52-63 | A prescription expiring today, unused and authenticated, is valid with 200. |
| Prescriptions.NullExpiryFails | backend/src/main/java/br/com/medcontrol/controlador/ReceitaController.java:39 | A NULL expiry fails with 500. |
| Prescriptions.SuccessIffUsable | backend/src/main/java/br/com/medcontrol/controlador/ReceitaController.java:48-64 | The answer is 200 if and only if the expiry is present, the prescription is unused and it has not expired. |
| Prescriptions.UsableEarlier | backend/src/main/java/br/com/medcontrol/controlador/ReceitaController.java:52-55 | A prescription usable today gave the same answer on every earlier day. |
| Prescriptions.VerdictIsAboutTheCode | backend/src/main/java/br/com/medcontrol/controlador/ReceitaController.java:28-36 | A found verdict is the decision on a row with that code. |
| Verification.IssuedCodeWindow | backend/src/main/java/br/com/medcontrol/controlador/AutenticacaoController.java:24-36 | A just-issued code is accepted if and only if it is the stored code and now is strictly before creation plus two minutes. |
| Verification.ResendInvalidatesOldCode | backend/src/main/java/br/com/medcontrol/controlador/AutenticacaoController.java:56 | Sending a new code makes any different earlier code fail. |
| Verification.IssueIsLocal | backend/src/main/java/br/com/medcontrol/controlador/AutenticacaoController.java:56 | Sending to one e-mail does not change whether other e-mails' codes are accepted. |
| Verification.ConsumedCodeRejected | backend/src/main/java/br/com/medcontrol/controlador/AutenticacaoController.java:167 | Once removed, a code is accepted for no value and at no time. |
| Verification.RegisterConflictFieldCases | backend/src/main/java/br/com/medcontrol/controlador/AutenticacaoController.java:171-179 | The registration 409 field is `email` if the lower-cased message mentions email, else `cpf_cns` if it mentions cpf_cns, else `desconhecido`. |
| Verification.ConflictFieldsAgreeWhenNamed | backend/src/main/java/br/com/medcontrol/controlador/AutenticacaoController.java:261 | The registration and update classifications agree exactly when the message names email or cpf_cns. |
| Verification.AuthController.VerifyStatus | backend/src/main/java/br/com/medcontrol/controlador/AutenticacaoController.java:66-81 | A missing e-mail gives 500. An accepted code gives 200. Checking reads the map and never consumes a code. |
| Verification.AuthController.SendCode | backend/src/main/java/br/com/medcontrol/controlador/AutenticacaoController.java:47-64 | When the mail is sent, the code replaces the e-mail's entry. Otherwise the map is unchanged. |
| Verification.AuthController.Insert | backend/src/main/java/br/com/medcontrol/controlador/AutenticacaoController.java:132-185 | A bad code gives 400 with no write. Success commits one user insert and removes the code. A duplicate key gives 409 with the classified field and keeps the code. |
| Verification.AuthController.Register | backend/src/main/java/br/com/medcontrol/controlador/AutenticacaoController.java:132-185 | Public registration behaves as Insert and always stores the profile `usuario`. |
| Verification.AuthController.RegisterAdmin | backend/src/main/java/br/com/medcontrol/controlador/AutenticacaoController.java:187-240 | Admin registration behaves as Insert with the profile taken from the body. |
| Verification.AuthController.UpdateWithVerification | backend/src/main/java/br/com/medcontrol/controlador/AutenticacaoController.java:242-267 | A bad code gives 400 with no write. Success commits the update and removes the code. A conflict names only `email` or `cpf_cns`. |
| Verification.AuthController.UpdatePassword | backend/src/main/java/br/com/medcontrol/controlador/AutenticacaoController.java:289-312 | A missing password fails. No matching row gives 404 with nothing changed. Success commits and removes any pending code. |
| Verification.SentCodeVerifies | backend/src/main/java/br/com/medcontrol/controlador/AutenticacaoController.java:47-81 | After a send, verifying that code answers 200 while the two minutes last. |
| Audit.GetNameFallbacks | backend/src/main/java/br/com/medcontrol/servicos/AuditoriaServico.java:27-69 | A null id gives `N/A`. An unknown table or a missing row gives `ID: <id>`. Otherwise the looked-up name is returned. |
| Audit.FallbackNamesTheId | backend/src/main/java/br/com/medcontrol/servicos/AuditoriaServico.java:65-68 | The fallback text is "ID: " followed by the id, which parses back. |
| Audit.FormatAllFacts | backend/src/main/java/br/com/medcontrol/servicos/AuditoriaServico.java:124-140 | Formatting a list succeeds if and only if every item formats. The result then mirrors the input, item by item. |
| Audit.FormattedItemsMirrorInput | backend/src/main/java/br/com/medcontrol/servicos/AuditoriaServico.java:117-143 | Each withdrawal item becomes its `<name> (Qtd: n)` text, in order, unless some item fails. |
| Audit.FormatAllFailurePersists | backend/src/main/java/br/com/medcontrol/servicos/AuditoriaServico.java:126-140 | Once an item fails to format, the whole list fails. |
| Audit.NullDetailsStoredNull | backend/src/main/java/br/com/medcontrol/servicos/AuditoriaServico.java:85-86 | Null details are stored as null, and only those. |
| Audit.NoSecretsStored | backend/src/main/java/br/com/medcontrol/servicos/AuditoriaServico.java:93-94 | The stored details never contain `senha` or `codigoVerificacao`, including after a failure. |
| Audit.OtherKeysKept | backend/src/main/java/br/com/medcontrol/servicos/AuditoriaServico.java:90-97 | For other tables, every non-secret key keeps its value. |
| Audit.StockIdsBecomeNames | backend/src/main/java/br/com/medcontrol/servicos/AuditoriaServico.java:147-152 | For `estoque`, `id_medicamento` and `id_ubs` are replaced by the medication and UBS names. |
| Audit.StockWithoutIdsFails | backend/src/main/java/br/com/medcontrol/servicos/AuditoriaServico.java:148-149 | For `estoque`, a missing id makes enrichment fail, and the failure text is stored. |
| Audit.WithdrawalRewritten | backend/src/main/java/br/com/medcontrol/servicos/AuditoriaServico.java:98-144 | For `retiradas`, `id_usuario`, `id_ubs` and `id_farmaceutico` are removed. The names `paciente` and `ubs` are added. The items become their formatted texts, or the error text when formatting throws. |
| Audit.NullPatientKeyKept | backend/src/main/java/br/com/medcontrol/servicos/AuditoriaServico.java:100-114 | A JSON-null `id_usuario` is not removed, and the patient name is `N/A`. |
| Audit.TargetNameCopied | backend/src/main/java/br/com/medcontrol/servicos/AuditoriaServico.java:155-166 | `nome_alvo` copies `nome` or `nome_comercial`, or null when absent. |
| Audit.FormatItemList | backend/src/main/java/br/com/medcontrol/servicos/AuditoriaServico.java:124-140 | The loop over items computes the specified formatted list, or its failure. |
| Audit.Enrich | backend/src/main/java/br/com/medcontrol/servicos/AuditoriaServico.java:85-176 | The step-by-step enrichment of a copy computes the specified stored details. |
| Audit.Logged | backend/src/main/java/br/com/medcontrol/servicos/AuditoriaServico.java:81-199 | One call adds at most one row. It adds none exactly when the insert fails. The row carries the caller's user, action, table and record id, with the enriched details. |
| Audit.AuditTrail.Record | backend/src/main/java/br/com/medcontrol/servicos/AuditoriaServico.java:81-199 | One row with the enriched details is appended, unless the insert fails, in which case the trail is unchanged. |
| JsText.SkipJsSpace | frontend/scripts/admin/admin-validacao.js:83-84 | Skipping white space leaves a suffix that does not start with white space. |
| JsText.DigitRun | frontend/scripts/admin/admin-validacao.js:83-84 | The run is the longest prefix of digits of the radix. |
| JsText.JsParseIntOfIntToString | frontend/scripts/admin/admin-validacao.js:224-229 | Every number rendered as an option value is read back by parseInt unchanged. |
| JsText.JsParseIntNeedsADigit | frontend/scripts/admin/admin-validacao.js:86-89 | The empty placeholder, and text starting without a digit, read as NaN. |
| JsText.JsParseIntStopsAtTheFirstNonDigit | frontend/scripts/admin/admin-validacao.js:84 | Only the leading digits count, so "3.7" reads as 3. |
| Basket.UnitStockContents | frontend/scripts/admin/admin-validacao.js:57-68 | The selectable lots are exactly the loaded lots of the selected UBS with positive quantity. |
| Basket.NoUnitNoStock | frontend/scripts/admin/admin-validacao.js:60-63 | With no UBS selected, the list is empty. |
| Basket.AddedIff | frontend/scripts/admin/admin-validacao.js:86-112 | Adding succeeds if and only if: a lot is selected and found; the quantity parses to a value between 1 and the lot's quantity; and the lot is not already in the basket. |
| Basket.SecondAddRefused | frontend/scripts/admin/admin-validacao.js:108-112 | Adding the same lot again is refused. |
| Basket.AppendKeepsLotsDistinct | frontend/scripts/admin/admin-validacao.js:108-121 | An accepted add keeps the basket free of duplicate lots. |
| Basket.RemoveDeletesOneEntry | frontend/scripts/admin/admin-validacao.js:134-136 | Removing deletes exactly the entry with that id and keeps the others in order. |
| Basket.RemoveAbsent | frontend/scripts/admin/admin-validacao.js:134-136 | Removing an id that is not in the basket changes nothing. |
| Basket.PayloadItems | frontend/scripts/admin/admin-validacao.js:183-192 | The payload items mirror the basket in order. |
| Basket.PayloadLotsDistinct | frontend/scripts/admin/admin-validacao.js:183-192 | The payload never names a lot twice. |
| Basket.FilterIsSubsequence | frontend/scripts/admin/admin-validacao.js:134-136 | Filtering a basket without duplicate lots leaves one without duplicates. |
| Basket.WithdrawalScreen.constructor | frontend/scripts/admin/admin-validacao.js:236-240 | The screen starts empty with the logged-in pharmacist. |
| Basket.WithdrawalScreen.LoadData | frontend/scripts/admin/admin-validacao.js:24-52 | A successful load stores the listing, empties the basket and resets the unit stock to the empty selection. A failed fetch changes nothing. |
| Basket.WithdrawalScreen.LoadUnitStock | frontend/scripts/admin/admin-validacao.js:57-77 | The selectable lots become the unit stock of the chosen UBS. |
| Basket.AddedEntry | frontend/scripts/admin/admin-validacao.js:82-128 | An accepted add appends the entry of a lot found in the UBS's list. The basket keeps distinct lots and positive quantities. |
| Basket.WithdrawalScreen.AddItem | frontend/scripts/admin/admin-validacao.js:82-128 | On Added, one entry copying the found lot is appended with the requested quantity. On any rejection the basket is unchanged. The basket stays without duplicates. |
| Basket.WithdrawalScreen.RemoveItem | frontend/scripts/admin/admin-validacao.js:265-269 | The basket loses the entry with the clicked id. |
| Basket.WithdrawalScreen.Confirm | frontend/scripts/admin/admin-validacao.js:166-219 | Confirmation requires a patient, a UBS and a non-empty basket. The payload carries them, the pharmacist and the basket items. A successful post empties the basket before the stock reload. If the reload then fails, the old stock stays on screen. If both succeed, the stock and the UBS's lot list are reloaded. A declined or failed post changes nothing. |
| Scheduling.WeekdayWithinTwoDays | frontend/scripts/usuario/usuario-reservas.js:146-153 | A weekend never lasts more than two days. |
| Scheduling.DateOptions | frontend/scripts/usuario/usuario-reservas.js:137-176 | Seven options, all weekdays, strictly increasing. No weekday up to the last one is skipped. "Hoje" and "Amanhã" label offsets 0 and 1. |
| Scheduling.CaptionedExtend | frontend/scripts/usuario/usuario-reservas.js:155-164 | A new option with the right label keeps the labels right. |
| Scheduling.CoveredExtend | frontend/scripts/usuario/usuario-reservas.js:146-174 | Adding the checked weekday keeps every weekday up to it listed. |
| Scheduling.TimeSlots | frontend/scripts/usuario/usuario-reservas.js:181-188 | Ten slots, one per hour from 09 to 18. |
| Scheduling.SlotShape | frontend/scripts/usuario/usuario-reservas.js:184 | Each slot is two digits of the hour followed by ":00". |
| Scheduling.SlotsAscend | frontend/scripts/usuario/usuario-reservas.js:183-185 | The slots are distinct and in ascending text order. |
| Scheduling.SlotRange | frontend/scripts/usuario/usuario-reservas.js:183 | The first slot is "09:00" and the last "18:00". |
| Scheduling.BookingSentIff | frontend/scripts/usuario/usuario-reservas.js:272-296 | The form submits if and only if a date and a time are chosen and the quantity parses to a value between 1 and the availability. |
| Scheduling.BookingRequestContents | frontend/scripts/usuario/usuario-reservas.js:272-296 | The request carries the medication, the UBS, the parsed quantity and the "dateTtime" timestamp. |
| Scheduling.OverQuantityNamesTheMaximum | frontend/scripts/usuario/usuario-reservas.js:290-293 | An excessive quantity reports the maximum available. |
| Scheduling.RescheduleIff | frontend/scripts/usuario/usuario-reservas.js:426-438 | Rescheduling sends "dateTtime" if and only if both are chosen. Otherwise it marks exactly the missing fields. |
| Scheduling.PartitionCoversAll | frontend/scripts/usuario/usuario-reservas.js:27-28 | The active list and the history together are a permutation of the reservations. |
| Scheduling.Actions | frontend/scripts/usuario/usuario-reservas.js:85-90 | A card has buttons if and only if it is ATIVA, and then exactly reschedule and cancel. |
| Scheduling.ButtonsOnlyOnActiveCards | frontend/scripts/usuario/usuario-reservas.js:27-90 | History cards have no buttons. Active cards have both. |
| Scheduling.StatusColour | frontend/scripts/usuario/usuario-reservas.js:71-74 | Blue is for ATIVA, green for RETIRADA, red for CANCELADA or EXPIRADA. |
| Cep.Digits | frontend/scripts/utils/cep.js:10 | Only digits remain, never more than the input had. |
| Cep.DigitsDistributes | frontend/scripts/utils/cep.js:10 | Digit extraction distributes over concatenation. |
| Cep.FormatShape | frontend/scripts/utils/cep.js:8-16 | At most 9 characters. A hyphen appears only at index 5, and only when more than five digits were typed. Every other character is a digit. |
| Cep.FormatKeepsDigits | frontend/scripts/utils/cep.js:8-16 | The mask keeps the first eight digits in order. |
| Cep.FormatIdempotent | frontend/scripts/utils/cep.js:8-16 | Formatting a formatted value changes nothing. |
| Cep.FullCepRoundTrip | frontend/scripts/utils/cep.js:8-16 | Eight digits format to "XXXXX-XXX" and back to the same digits. |
| Cep.FormattedFullCepIsPrefilledValid | frontend/scripts/utils/cep.js:56-70 | A formatted value has nine characters exactly when at least eight digits were typed. |
| Cep.CepField.FormatInput | frontend/scripts/utils/cep.js:8-16 | The input's text becomes its mask. |
| Cep.CepField.Validate | frontend/scripts/utils/cep.js:23-47 | The lookup is consulted only for eight digits. Found gives valid, 404 gives "CEP inválido" and any other failure "Erro ao consultar CEP". Otherwise the state is cleared. |
| Cep.CepField.Prefill | frontend/scripts/utils/cep.js:56-70 | A saved nine-character value is shown as valid. Otherwise the state is cleared. |

## Left out

- HTTP and JSON handling (Javalin contexts, Jackson parsing, response bodies) is not modelled. Each handler's inputs are parameters, already decoded into Dafny values, and its outcome is a datatype with the status code beside it.
- JDBC, connections and transactions are not modelled. A rollback is modelled as the state being unchanged. The failures a handler swallows or answers on its own are boolean parameters: the search-log store, the audit insert, the dashboard's three queries and the demand report's query. Every other connection or query failure is left out, and so is its 500.
- Reports.Indicators: the demand by day is modelled with the counted column qualified as `r.id_retirada`. As written, the query is rejected as ambiguous and the demand list is always empty; see Findings.
- Reports.StockReport: a failing connection or query answers 500 ("Erro ao gerar relatório de estoque."). The model has no outcome for it; its only error outcome is the unparsable `ubs_id`.
- Reports.DemandReport: a SQLException thrown while the rows are read answers the rows added so far, not the empty list; the model answers the empty list. A NULL `principio_ativo` would make the row's Map.of throw and answer 500, the non-SQL error path; the model keeps `Ledger.Medication.activeIngredient` a non-NULL text, so that path is not covered.
- Concurrency and transaction isolation are left out, because the model is sequential. Two concurrent reservations can both pass admission in the source; the model cannot show this.
- Foreign keys, AUTO_INCREMENT gaps and identifiers assigned by the database are not modelled. Ids come from counters that advance only on success.
- MySQL collation is left out. `LOWER(...) LIKE ?` is an abstract predicate parameter. Text order is code-point order, not the case-insensitive collation.
- For ties and equal keys, the model fixes a deterministic order (a stable insertion sort). This is one order SQL allows, not the only one.
- Dates are day numbers. `CURDATE()`, `LocalDate.now()`, `DATE()` and the parsing of date parameters are parameters. Calendar arithmetic is left out.
- bcrypt password hashing and the e-mail service are not modelled. Code generation is random, so the code is a parameter; so is whether the mail was sent.
- The CEP lookup service's HTTP call is not modelled. Its answer is a parameter.
- DOM rendering, event wiring and the text shown in cards and modals are not modelled. Only the values that decide behaviour are.
- `Intl.DateTimeFormat` labels, `toISOString()` (UTC) dates and time zones are left out. Date options are day offsets from today, with a caption kind.
- JsText.JsParseInt: does not round values beyond 2^53, as JavaScript numbers would.
- Scheduling.CheckBooking: error texts left over from an earlier submit in the booking form are not modelled. Only the current submit's errors are.
- Audit.Enriched: JSON serialisation is not modelled. It is treated as always succeeding on the enriched map. A NULL name column is folded into a successful lookup.
- Audit.GetName: query errors of getNome are folded into a missing row (the lookup returns none), which gives the same `ID: <id>` fallback.
- Audit.AuditTrail.Record: the audit row's timestamp column is set by the database and is not part of the row.
- Text.ToLower: case folding covers ASCII letters only. Java's `toLowerCase()` in the search term and the mail-error check is Unicode- and locale-aware, and so is `LOWER()` in SQL.
- Stock.InsertLot, Stock.UpdateLot and Withdrawals.Record take the request body twice: decoded into the fields the statements use, and as the JSON map the audit receives. The model does not check that the two are the same body.
- MedicationSearch.Search: a NULL UBS `nome` would also make Map.of throw; the model does not cover that case, because the name in `Ledger.HealthUnit` is a non-NULL text.
- Reservations.Create: the X-User-ID header and the body fields are parsed with Integer.parseInt and LocalDateTime.parse, and a failure answers 500 with nothing written. The model takes them already parsed, unlike Withdrawals.Transact, which models the 500 for a caller header that does not parse.
- Withdrawals.Transact: three body failures that end in the 500 are not modelled. One is a body Jackson cannot read. Another is an `id_usuario` or `id_ubs` that is not an Integer, whose cast throws. The third is an item missing `id_medicamento`, `id_estoque` or `quantidade`, whose unboxing throws after the `retiradas` INSERT, so the transaction rolls back. The model takes the body already decoded into integers.
- MedicationSearch.SetStatus: a body without `ativo` (a null unboxed into 500 before the UPDATE) is not modelled. The new flag is a boolean parameter.
- The caller's detail map is never modified, because Dafny maps are values. The model therefore cannot express aliasing, and this holds by construction rather than by proof.
- Other controllers are not part of this model, nor the servers that call into the services: users, UBS, pharmacists, the audit listing, `LogBuscaServico`, `EmailServico`, `CepServico` and `HunterServico`.

## Findings

| source | as written | input that shows it | evidently intended | confidence | as-written member | corrected member |
|---|---|---|---|---|---|---|
| backend/src/main/java/br/com/medcontrol/controlador/RelatorioController.java:76 | `COUNT(DISTINCT id_retirada)` is unqualified in a query over `retiradas r JOIN itens_retiradas ir ON r.id_retirada = ir.id_retirada`. Both tables have `id_retirada`, so MySQL rejects the column as ambiguous (error 1052). The catch at :90-93 swallows the error, and `projecaoDemanda` is always empty. | One withdrawal made today with one line of quantity 7: the dashboard shows no demand. | `COUNT(DISTINCT r.id_retirada)`, so the dashboard shows the withdrawn quantity per day over the last thirty days. | not executed; follows from MySQL's rule for unqualified column names in a join | Reports.DemandAsWrittenIsEmpty | Reports.DemandIntendedIsByDay |
