# Temporal investor ledger — Dafny model

CVM Capital keeps a second, "temporal" account track for its investors
next to the main one. Everything about it lives in React components that
read and write a hosted database:

- the ledger `transacciones_temporal`;
- the investors' deposit requests `solicitudes_temporal`;
- notifications;
- announcements (`avisos`);
- the single switch row `modulo_temporal_config`.

This project models those components. Each table is in-memory state: a field
of the `Tables.Database` class, as a sequence or a map keyed by row id. Every
query is a read of that state and every insert, update or delete is an
assignment to it. Each storage call can fail; a handler stops at the first
failing call and keeps what earlier calls wrote.

The core is one fold over ledger rows, `Ledger.SignedSum`:

- `deposito` and `ganancia` add the amount;
- `retiro` subtracts it;
- the type is compared after lower-casing;
- any other type counts for nothing.

The investor balance cards, the deposit buttons, the admin summary, the
operations panel and the gains processor all use it. The balance
(`Ledger.Balance`) is the fold clamped at zero. The donut chart does not use the
fold: it sums each kind separately (`Ledger.KindSum`), and
`Ledger.SignedSumByKind` relates those sums to the fold.

Around the fold sit the workflows:

- an investor submits or withdraws a pending deposit request;
- an administrator approves a request (request updated, ledger row written,
  notification sent) or rejects it with a reason;
- a monthly gains run splits a percentage of the platform total equally among
  every investor who has a ledger row;
- the investor's charts group gains by month and by category;
- administrators manage announcements and the module switch.

Modules follow the components: `TemporalStatsCards`,
`TemporalSolicitudButtons`, `TemporalAprobacionesList`,
`TemporalGananciasProcessor`, `TemporalResumenGeneral`, `Operaciones`,
`TemporalDonutChart`, `TemporalMonthlyChart`, `AvisosList` and
`ModuloTemporal`. `Ledger`, `Text` and `Tables` hold the shared pieces.

Where a component keeps its own UI state, that state is a class:

- `AvisosList.AvisosPanel`: the announcement form and the row being edited;
- `ModuloTemporal.ConfigPanel`: the loaded configuration and its form.

Timestamps are integers (milliseconds). Amounts are `real`.

Inputs the components do not control are parameters:

- the clock (`now`);
- database-generated ids (`newId`);
- which storage call fails (`fault`, `fails`, `queryFails`);
- the month of a date (`monthOf`);
- the table's default for a new announcement's `activo`.

## Model

| member | source | states |
|---|---|---|
| Text.ToLower | src/components/Dashboard/TemporalStatsCards.tsx:37 | same length, every character lowered pointwise, and no upper-case ASCII letter is left |
| Text.ToLowerIdempotent | src/components/Dashboard/TemporalStatsCards.tsx:37 | lowering an already lowered type changes nothing |
| Text.Trim | src/components/Admin/ModuloTemporal.tsx:107 | the result is an infix of the input with only white space cut on each side, and it is empty or starts and ends with a non-space |
| Text.TrimEmptyIff | src/components/Admin/ModuloTemporal.tsx:98 | `trim()` is empty exactly when the text is all white space |
| Text.TrimIdempotent | src/components/Admin/ModuloTemporal.tsx:107 | trimming a trimmed title changes nothing |
| Ledger.KindOf | src/components/Dashboard/TemporalStatsCards.tsx:37-47 | the `switch` on the lower-cased type: one of the three kinds for the three labels, `Other` for any other type; `Ledger.Recognised` and `Ledger.KindIgnoresCase` characterise it |
| Ledger.Effect | src/components/Dashboard/TemporalStatsCards.tsx:38-46 | one row's change to the running balance: plus the amount for deposits and gains, minus it for withdrawals, nothing otherwise |
| Ledger.SignedSum | src/components/Dashboard/TemporalStatsCards.tsx:35-48 | the unclamped `forEach` accumulation from 0 in row order; `Ledger.SignedSumAppend`, `Ledger.SignedSumReorder` and `Ledger.SignedSumByKind` state its properties |
| Ledger.Max0 | src/components/Dashboard/TemporalStatsCards.tsx:50 | `Math.max(0, x)` is at least 0, at least x, and is x or 0 |
| Ledger.Balance | src/components/Dashboard/TemporalStatsCards.tsx:35-50 | the shown balance is never negative |
| Ledger.KindSum | src/components/Dashboard/TemporalDonutChart.tsx:34-46 | the sum of the amounts of the rows of one kind, as the donut chart's per-category accumulators compute it |
| Ledger.KnownKinds | src/components/Dashboard/TemporalStatsCards.tsx:37-46 | the three switch labels select deposit, withdrawal and gain |
| Ledger.KindIgnoresCase | src/components/Dashboard/TemporalStatsCards.tsx:37 | a type and its lower-cased form fall in the same case of the switch |
| Ledger.SignedSumAppend | src/components/Dashboard/TemporalStatsCards.tsx:36-48 | folding two runs of rows one after the other adds their totals |
| Ledger.SignedSumReorder | src/components/Dashboard/TemporalStatsCards.tsx:36-48 | the fold does not depend on the order in which the store returns rows |
| Ledger.BalanceReorder | src/components/Dashboard/TemporalStatsCards.tsx:35-50 | hence neither does the clamped balance |
| Ledger.SignedSumByKind | src/components/Admin/TemporalResumenGeneral.tsx:46-59 | the fold equals deposits minus withdrawals plus gains |
| Ledger.Recognised | src/components/Dashboard/TemporalStatsCards.tsx:37-47 | keeps exactly the rows whose type is one of the three cases |
| Ledger.UnknownTypesIgnored | src/components/Dashboard/TemporalStatsCards.tsx:37-47 | dropping rows of any other type leaves the total unchanged |
| Ledger.AccumulateBalance | src/components/Dashboard/TemporalStatsCards.tsx:35-50 | the `forEach` accumulation followed by the clamp yields the balance: at least 0, at least the signed total, and 0 for no rows |
| Ledger.RowsOf | src/components/Dashboard/TemporalStatsCards.tsx:28-31 | `.eq('inversor_id', id)` keeps exactly that investor's rows |
| Ledger.RowsOfAppend | src/components/Admin/TemporalAprobacionesList.tsx:81-89 | filtering by investor distributes over appending rows |
| Ledger.InvestorIds | src/components/Admin/TemporalGananciasProcessor.tsx:95-98 | exactly the non-null `inversor_id` values of the ledger |
| Ledger.Distinct | src/components/Admin/TemporalGananciasProcessor.tsx:102 | `[...new Set(ids)]`: no duplicates, the same members, never longer |
| Ledger.DistinctFirstSeen | src/components/Admin/TemporalGananciasProcessor.tsx:102 | `new Set` keeps first-occurrence order: the distinct values of a prefix are a prefix of the distinct values of the whole |
| Ledger.DistinctInvestorCount | src/components/Admin/TemporalResumenGeneral.tsx:33 | the number of distinct investors equals the size of the id set |
| TemporalStatsCards.FetchSaldoTemporal | src/components/Dashboard/TemporalStatsCards.tsx:25-57 | the card shows the investor's clamped balance, at least the signed total; a failed query shows 0 |
| TemporalSolicitudButtons.FetchSaldoActual | src/components/Dashboard/TemporalSolicitudButtons.tsx:33-64 | no user: unchanged; failed query: 0; otherwise the investor's clamped balance |
| TemporalSolicitudButtons.HandleAmountChange | src/components/Dashboard/TemporalSolicitudButtons.tsx:100-107 | accepts the typed text exactly when it is empty or digits without a leading zero (a lone "0" allowed); otherwise the field keeps its text; an accepted field stays acceptable |
| TemporalSolicitudButtons.DigitsValue | src/components/Dashboard/TemporalSolicitudButtons.tsx:112 | `parseInt` of a digit string, as a decimal value read left to right |
| TemporalSolicitudButtons.LeadingNonZeroPositive | src/components/Dashboard/TemporalSolicitudButtons.tsx:101-104 | a digit string not starting with 0 parses to a positive amount |
| TemporalSolicitudButtons.ParsedAmountZeroIff | src/components/Dashboard/TemporalSolicitudButtons.tsx:110-113 | a non-empty accepted amount parses to 0 exactly when it is "0" |
| TemporalSolicitudButtons.NewDeposit | src/components/Dashboard/TemporalSolicitudButtons.tsx:117-125 | the inserted request is a pending deposit of the parsed amount for the user, not yet processed |
| TemporalSolicitudButtons.PendientesDe | src/components/Dashboard/TemporalSolicitudButtons.tsx:71-76 | exactly the user's requests in state `pendiente` |
| TemporalSolicitudButtons.DepositButtonDisabled | src/components/Dashboard/TemporalSolicitudButtons.tsx:184-240 | the deposit button is disabled exactly when the user has a pending deposit request |
| TemporalSolicitudButtons.HandleDepositSubmit | src/components/Dashboard/TemporalSolicitudButtons.tsx:109-140 | a request is created iff there is a user, a non-empty non-zero amount and the insert succeeds; then the field is cleared and the deposit button is disabled; otherwise the table is untouched |
| TemporalSolicitudButtons.DeletePending | src/components/Dashboard/TemporalSolicitudButtons.tsx:147-152 | the delete removes the row only when it is the user's and pending; every other row stays as it was |
| TemporalSolicitudButtons.HandleDeleteSolicitud | src/components/Dashboard/TemporalSolicitudButtons.tsx:142-165 | with a user and a successful call the table loses at most that pending row; otherwise it is unchanged |
| TemporalSolicitudButtons.DiasPendiente | src/components/Dashboard/TemporalSolicitudButtons.tsx:83-84 | the smallest whole number of days covering the elapsed time; 0 only when no time elapsed |
| TemporalAprobacionesList.Approved | src/components/Admin/TemporalAprobacionesList.tsx:69-76 | approval sets state, processing date and processing admin and nothing else |
| TemporalAprobacionesList.ApprovalTx | src/components/Admin/TemporalAprobacionesList.tsx:81-89 | the ledger row carries the request's investor, amount and type, dated now |
| TemporalAprobacionesList.ApprovalNotice | src/components/Admin/TemporalAprobacionesList.tsx:94-102 | a success notice addressed to the investor |
| TemporalAprobacionesList.Rejected | src/components/Admin/TemporalAprobacionesList.tsx:124-132 | rejection records state, reason, date and admin and keeps the request's identity, investor, type and amount |
| TemporalAprobacionesList.RejectionNotice | src/components/Admin/TemporalAprobacionesList.tsx:137-145 | an error notice addressed to the investor |
| TemporalAprobacionesList.ApprovalMovesOwnerBalance | src/components/Admin/TemporalAprobacionesList.tsx:81-89 | approving moves the owner's total by exactly the row's signed amount and leaves every other investor's rows unchanged |
| TemporalAprobacionesList.HandleApprove | src/components/Admin/TemporalAprobacionesList.tsx:60-113 | non-admin or unknown request: no write; otherwise request update, ledger row and notice are written in order up to the first failing call; done iff all three succeed |
| TemporalAprobacionesList.RejectEnabled | src/components/Admin/TemporalAprobacionesList.tsx:368 | the confirm button is enabled when the trimmed reason is non-empty and no request is being processed |
| TemporalAprobacionesList.RejectNeedsReason | src/components/Admin/TemporalAprobacionesList.tsx:368 | the confirm button is enabled iff the reason is not all white space |
| TemporalAprobacionesList.HandleReject | src/components/Admin/TemporalAprobacionesList.tsx:115-158 | no dialog, non-admin or unknown request: no write; otherwise the request update and the error notice, in order up to the first failure; no ledger row |
| TemporalAprobacionesList.Pendientes | src/components/Admin/TemporalAprobacionesList.tsx:204 | exactly the listed requests in state `pendiente` |
| TemporalAprobacionesList.Procesadas | src/components/Admin/TemporalAprobacionesList.tsx:205 | exactly the listed requests in any other state |
| TemporalAprobacionesList.FiltersKeepOrder | src/components/Admin/TemporalAprobacionesList.tsx:204-205 | both `filter` calls keep the list's order: filtering a concatenation concatenates the filtered parts |
| TemporalAprobacionesList.PartitionByEstado | src/components/Admin/TemporalAprobacionesList.tsx:204-205 | the two lists together hold every request exactly once |
| TemporalAprobacionesList.Actionable | src/components/Admin/TemporalAprobacionesList.tsx:258 | an admin gets action buttons on every pending request and on nothing else; a non-admin gets none |
| TemporalGananciasProcessor.CalcularTotalInversionTemporal | src/components/Admin/TemporalGananciasProcessor.tsx:53-85 | the platform total is the clamped fold over every ledger row; 0 on a failed query |
| TemporalGananciasProcessor.GrossPayout | src/components/Admin/TemporalGananciasProcessor.tsx:92 | for a percentage in [0, 100] the gross is between 0 and the total |
| TemporalGananciasProcessor.Recipients | src/components/Admin/TemporalGananciasProcessor.tsx:95-102 | each investor with a ledger row once, no one else |
| TemporalGananciasProcessor.GainRows | src/components/Admin/TemporalGananciasProcessor.tsx:112-118 | one gain row per recipient, in recipient order |
| TemporalGananciasProcessor.GainNotices | src/components/Admin/TemporalGananciasProcessor.tsx:127-133 | one success notice per recipient, in the same order |
| TemporalGananciasProcessor.GainRowsSum | src/components/Admin/TemporalGananciasProcessor.tsx:109-118 | the inserted rows add recipients × share to the ledger total |
| TemporalGananciasProcessor.SharesAddUp | src/components/Admin/TemporalGananciasProcessor.tsx:109-122 | appending the gain rows raises the ledger total by exactly the gross |
| TemporalGananciasProcessor.DistributionPaysGross | src/components/Admin/TemporalGananciasProcessor.tsx:92-122 | a successful run raises the ledger's signed sum by exactly the computed gross |
| TemporalGananciasProcessor.DistributionRaisesBalance | src/components/Admin/TemporalGananciasProcessor.tsx:53-122 | with the total taken as the clamped balance, as the component computes it, a successful run raises that clamped total by exactly the gross |
| TemporalGananciasProcessor.OneRowPerRecipient | src/components/Admin/TemporalGananciasProcessor.tsx:112-118 | each recipient gets exactly one new row, everyone else none |
| TemporalGananciasProcessor.RecipientGetsShare | src/components/Admin/TemporalGananciasProcessor.tsx:109-122 | each recipient's own signed sum rises by exactly the per-investor share |
| TemporalGananciasProcessor.RecipientBalanceGetsShare | src/components/Admin/TemporalGananciasProcessor.tsx:109-122 | a recipient whose own signed sum is not negative sees their clamped balance rise by exactly one share |
| TemporalGananciasProcessor.ProcessEnabled | src/components/Admin/TemporalGananciasProcessor.tsx:226 | the process button is enabled with a percentage, no run in progress and a non-zero total |
| TemporalGananciasProcessor.NoFundsNoProcess | src/components/Admin/TemporalGananciasProcessor.tsx:226 | when the ledger's signed total is not positive, the clamped total is 0 and the process button is disabled |
| TemporalGananciasProcessor.HandleProcess | src/components/Admin/TemporalGananciasProcessor.tsx:87-154 | skipped without a percentage or an admin; no recipients: nothing written; otherwise gain rows then notices, up to the first failing call |
| TemporalGananciasProcessor.ExampleTotal | src/components/Admin/TemporalGananciasProcessor.tsx:53-92 | three deposits of 100 give a total of 300 and a 10% gross of 30 |
| TemporalGananciasProcessor.ExampleRecipients | src/components/Admin/TemporalGananciasProcessor.tsx:95-102 | those three rows yield the three investors in first-seen order |
| TemporalResumenGeneral.FetchEstadisticas | src/components/Admin/TemporalResumenGeneral.tsx:21-79 | distinct investor count, clamped total and sum of gain rows; all zero when either query fails |
| Operaciones.AsLedger | src/components/Admin/Operaciones.tsx:213-215 | the main-table rows are folded by amount and type alone |
| Operaciones.TotalIgnoresUsuarioTipo | src/components/Admin/Operaciones.tsx:222-242 | rows differing only in `usuario_tipo` give the same total |
| Operaciones.OrZero | src/components/Admin/Operaciones.tsx:240-241 | a missing count shows as 0 and a present one as itself |
| Operaciones.FetchEstadisticas | src/components/Admin/Operaciones.tsx:199-257 | both head counts (missing ones 0) and the clamped total of every row; all zero on a failed transaction query |
| Operaciones.FetchStats | src/components/Admin/Operaciones.tsx:66-107 | each of the five badges shows its count when the store returns one, and 0 when it returns none |
| TemporalDonutChart.Slices | src/components/Dashboard/TemporalDonutChart.tsx:48-52 | at most three slices, each one of the three category slices with its sum, all positive; a category present iff its sum is positive; in deposit, withdrawal, gain order |
| TemporalDonutChart.FetchRealData | src/components/Dashboard/TemporalDonutChart.tsx:21-60 | the three per-category sums of the investor's rows become the slices; a failed query keeps the old chart; no rows gives an empty chart |
| TemporalDonutChart.NetOfSlices | src/components/Dashboard/TemporalDonutChart.tsx:48-52 | for non-negative sums the slices' signed total is deposits minus withdrawals plus gains |
| TemporalDonutChart.KindSumsNonNegative | src/components/Dashboard/TemporalDonutChart.tsx:34-46 | with non-negative amounts every category sum is non-negative |
| TemporalDonutChart.ChartAgreesWithBalance | src/components/Dashboard/TemporalDonutChart.tsx:30-52 | with non-negative amounts the chart's clamped net equals the balance card |
| TemporalMonthlyChart.GainRowsOf | src/components/Dashboard/TemporalMonthlyChart.tsx:25-30 | exactly the investor's rows whose type is literally `ganancia` |
| TemporalMonthlyChart.IndexOf | src/components/Dashboard/TemporalMonthlyChart.tsx:44-48 | finds the month's entry if there is one, and reports none only when no entry has that month |
| TemporalMonthlyChart.AddRow | src/components/Dashboard/TemporalMonthlyChart.tsx:44-49 | one `forEach` step: a new month gets an entry of 0 dated by this row, then the row's amount is added to its month's entry |
| TemporalMonthlyChart.Group | src/components/Dashboard/TemporalMonthlyChart.tsx:35-50 | the month map after every row, in row order; `GroupUnique`, `GroupMonths`, `GroupSums` and `GroupTotal` characterise it |
| TemporalMonthlyChart.GroupUnique | src/components/Dashboard/TemporalMonthlyChart.tsx:35-50 | the month map never holds a month twice |
| TemporalMonthlyChart.GroupMonths | src/components/Dashboard/TemporalMonthlyChart.tsx:37-46 | there is an entry for a month iff some row falls in it |
| TemporalMonthlyChart.GroupSums | src/components/Dashboard/TemporalMonthlyChart.tsx:37-50 | each entry holds the sum of its month's amounts |
| TemporalMonthlyChart.GroupTotal | src/components/Dashboard/TemporalMonthlyChart.tsx:37-50 | the entries together hold the sum of every row |
| TemporalMonthlyChart.GroupAttained | src/components/Dashboard/TemporalMonthlyChart.tsx:44-46 | each entry's ordering date is the date of one of its month's rows |
| TemporalMonthlyChart.GroupNewest | src/components/Dashboard/TemporalMonthlyChart.tsx:30-46 | since rows come newest first, that date is the newest of the month |
| TemporalMonthlyChart.SortDesc | src/components/Dashboard/TemporalMonthlyChart.tsx:58 | `.sort` by descending ordering date, a stable insertion sort; `SortDescSpec` states its result |
| TemporalMonthlyChart.Insert | src/components/Dashboard/TemporalMonthlyChart.tsx:58 | one insertion step adds exactly the new entry |
| TemporalMonthlyChart.InsertOrdered | src/components/Dashboard/TemporalMonthlyChart.tsx:58 | inserting into a newest-first list keeps it newest first |
| TemporalMonthlyChart.SortDescSpec | src/components/Dashboard/TemporalMonthlyChart.tsx:58 | the sort is a permutation of the entries, newest first |
| TemporalMonthlyChart.SortUnique | src/components/Dashboard/TemporalMonthlyChart.tsx:58 | sorting keeps months distinct |
| TemporalMonthlyChart.Recent | src/components/Dashboard/TemporalMonthlyChart.tsx:59 | `slice(0, 4)`: the first min(4, n) entries |
| TemporalMonthlyChart.Reverse | src/components/Dashboard/TemporalMonthlyChart.tsx:60 | the same entries in the opposite order |
| TemporalMonthlyChart.ReverseMultiset | src/components/Dashboard/TemporalMonthlyChart.tsx:60 | reversing is a permutation |
| TemporalMonthlyChart.Bars | src/components/Dashboard/TemporalMonthlyChart.tsx:52-60 | entries of the month map, sorted newest first, cut to four, then reversed |
| TemporalMonthlyChart.Placeholder | src/components/Dashboard/TemporalMonthlyChart.tsx:63-73 | the single zero bar of the current month, dated now |
| TemporalMonthlyChart.Chart | src/components/Dashboard/TemporalMonthlyChart.tsx:34-74 | the placeholder for no rows, the bars otherwise |
| TemporalMonthlyChart.NewestFourKept | src/components/Dashboard/TemporalMonthlyChart.tsx:58-60 | no entry left out is newer than one kept |
| TemporalMonthlyChart.BarsCount | src/components/Dashboard/TemporalMonthlyChart.tsx:52-60 | one to four bars; four exactly when there are at least four months |
| TemporalMonthlyChart.BarsSpec | src/components/Dashboard/TemporalMonthlyChart.tsx:52-60 | bars oldest first, each a month entry, no month twice, no omitted month newer than a shown one |
| TemporalMonthlyChart.BarsValues | src/components/Dashboard/TemporalMonthlyChart.tsx:37-60 | each bar is its month's sum, dated by the month's newest row |
| TemporalMonthlyChart.TotalGanancias | src/components/Dashboard/TemporalMonthlyChart.tsx:115 | the `reduce` sum of the shown bars' values |
| TemporalMonthlyChart.TotalReorder | src/components/Dashboard/TemporalMonthlyChart.tsx:115 | the displayed total does not depend on bar order |
| TemporalMonthlyChart.FewMonthsKeepEverything | src/components/Dashboard/TemporalMonthlyChart.tsx:52-60 | with at most four months the displayed total is the sum of every gain row |
| TemporalMonthlyChart.HasRealGanancias | src/components/Dashboard/TemporalMonthlyChart.tsx:114 | true iff some bar is positive |
| TemporalMonthlyChart.GroupByMonth | src/components/Dashboard/TemporalMonthlyChart.tsx:35-50 | the `forEach` over the rows builds the month map that `Group` specifies |
| TemporalMonthlyChart.FetchMonthlyData | src/components/Dashboard/TemporalMonthlyChart.tsx:23-90 | failed query or no rows: the single zero bar of the current month; otherwise one to four bars, oldest first, one per month, each its month's sum, no newer month omitted |
| AvisosList.ExpiryToStore | src/components/Admin/AvisosList.tsx:104 | an empty date field is stored as no expiry, any other text as itself |
| AvisosList.BeforeT | src/components/Admin/AvisosList.tsx:136 | `split('T')[0]`: the longest prefix without a 'T' |
| AvisosList.ExpiryForForm | src/components/Admin/AvisosList.tsx:136 | the form shows exactly the stored expiry's text before its first 'T', or "" when there is none |
| AvisosList.ExpiryRoundTrip | src/components/Admin/AvisosList.tsx:136 | a bare date written from the form reads back into the form unchanged |
| AvisosList.FormOf | src/components/Admin/AvisosList.tsx:132-138 | the form `handleEdit` loads: the row's title, message and type, the date part of its expiry, broadcast off |
| AvisosList.Edited | src/components/Admin/AvisosList.tsx:71-79 | an edit changes title, message, type and expiry and keeps id, state and author |
| AvisosList.EditUntouchedKeepsRow | src/components/Admin/AvisosList.tsx:130-139 | opening a row and saving the untouched form keeps it when its expiry is absent or a bare date; a time part is cut off |
| AvisosList.UpdateWhere | src/components/Admin/AvisosList.tsx:71-79 | only the edited row changes; an unknown id changes nothing |
| AvisosList.NewAviso | src/components/Admin/AvisosList.tsx:98-106 | the new row copies the form's title, message and type, takes the table's default `activo` and the generated id, has the admin's id as author (none without an admin), and stores an empty expiry as none |
| AvisosList.Toggled | src/components/Admin/AvisosList.tsx:142-147 | the row's `activo` becomes the negation of the shown status; nothing else changes |
| AvisosList.ToggleTwice | src/components/Admin/AvisosList.tsx:142-147 | toggling twice from the shown status restores the table |
| AvisosList.Deleted | src/components/Admin/AvisosList.tsx:157-162 | only the row with that id is removed |
| AvisosList.AvisosPanel.constructor | src/components/Admin/AvisosList.tsx:29-38 | no row in edit, default form, dialogs closed |
| AvisosList.AvisosPanel.HandleSubmit | src/components/Admin/AvisosList.tsx:65-128 | edit updates the edited row; create with broadcast calls the procedure and inserts no row; create without it inserts one row; success resets the form and closes the dialog; failure changes nothing |
| AvisosList.AvisosPanel.HandleEdit | src/components/Admin/AvisosList.tsx:130-140 | remembers the row and loads it into the form, broadcast off |
| AvisosList.AvisosPanel.HandleDelete | src/components/Admin/AvisosList.tsx:157-171 | on success the row is gone and the confirmation closed; on failure nothing changes |
| AvisosList.HandleToggleActive | src/components/Admin/AvisosList.tsx:142-155 | on success the row's status is toggled; on failure nothing changes |
| ModuloTemporal.TitleAccepted | src/components/Admin/ModuloTemporal.tsx:98 | the save guard passes iff the title is not all white space |
| ModuloTemporal.SaveDisabled | src/components/Admin/ModuloTemporal.tsx:304 | the button is disabled iff saving or the title is all white space |
| ModuloTemporal.StoredDescripcion | src/components/Admin/ModuloTemporal.tsx:108 | never empty: the default text for a blank description, the trimmed text otherwise |
| ModuloTemporal.ConfigData | src/components/Admin/ModuloTemporal.tsx:105-111 | the stored title is the trimmed title, non-empty with non-space ends once accepted; the description is never empty |
| ModuloTemporal.StoredTitleIsTrimmed | src/components/Admin/ModuloTemporal.tsx:107 | every stored title is already trimmed |
| ModuloTemporal.ReloadAndSaveKeepsTitle | src/components/Admin/ModuloTemporal.tsx:82-86 | saving a just-loaded configuration keeps its title and state and writes the default description |
| ModuloTemporal.UpdateById | src/components/Admin/ModuloTemporal.tsx:113-118 | rows with the loaded id get the new data; every other row is unchanged; the row count is unchanged |
| ModuloTemporal.Latest | src/components/Admin/ModuloTemporal.tsx:69-74 | none for an empty table, else a stored row with the greatest creation date |
| ModuloTemporal.FormFor | src/components/Admin/ModuloTemporal.tsx:82-86 | the form loaded from a row: its state and title, an empty description |
| ModuloTemporal.ConfigPanel.constructor | src/components/Admin/ModuloTemporal.tsx:52-61 | no configuration loaded, default form |
| ModuloTemporal.ConfigPanel.FetchConfig | src/components/Admin/ModuloTemporal.tsx:67-93 | loads the newest row and its state and title into the form with an empty description; failure or an empty table changes nothing |
| ModuloTemporal.ConfigPanel.ToggleActivo | src/components/Admin/ModuloTemporal.tsx:224 | flips the form's `activo` and nothing else |
| ModuloTemporal.ConfigPanel.HandleSave | src/components/Admin/ModuloTemporal.tsx:95-140 | no admin or blank title: no write; otherwise the loaded row is updated by id, or one row is appended when none was loaded; failure writes nothing; after a successful write `fetchConfig` reloads the newest row into the panel and the form, so a save after an insert updates that row |

## Left out

- Unicode: `toLowerCase` and `trim` are modelled on ASCII only. Lowering maps `A`–`Z`; trimming removes space, tab, line feed, vertical tab, form feed and carriage return, not the non-ASCII spaces JavaScript also removes.
- Number precision: JavaScript floating point is modelled by exact reals. So are `Number(...)` on amounts and `toFixed(2)` on monthly sums.
- Parsing: `parseFloat` of the gains percentage is the parameter `pct`. `parseInt` of the deposit amount is a digit-string value, applied only to text the input filter accepts.
- Text output: notification `mensaje` bodies, currency formatting, chart colours other than the slice colours, loading spinners and success and alert messages are not modelled.
- Concurrency: overlapping handlers, the parents' refetch callbacks (`onStatsUpdate`, `onUpdate`) and the `saving`/`processing` flags are not modelled. The list reloads after a write (`fetchAvisos`, `fetchSolicitudes`, `fetchSolicitudesPendientes`) are not separate calls: the panels read the tables themselves, so a reloaded list is always the current table. The approval and rejection handlers look the request up in the component's loaded list; the model assumes that list is the table. The configuration reload `fetchConfig` after a save is modelled, in `ModuloTemporal.ConfigPanel.HandleSave`.
- TemporalAprobacionesList.HandleApprove: like `handleApprove`, it does not check that the request is still pending. Approving twice writes two ledger rows.
- The `enviar_aviso_a_todos_inversores` procedure: its body is not visible. A call is recorded in `Database.broadcasts` with its arguments.
- Generated ids and defaults: database-generated ids and column defaults are parameters (`newId`, `activoDefault`). So is the clock.
- Null types: a ledger row with a null `tipo` makes `toLowerCase` throw in the component. Types here are always strings.
- Month labels: the locale label (`toLocaleDateString('es-ES', …)`) is the abstract `MonthKey` given by `monthOf`. Two dates share a bar exactly when `monthOf` maps them to the same key.
- TemporalMonthlyChart.FetchMonthlyData: the query result is a parameter. It is any newest-first arrangement of the investor's `ganancia` rows, so the tie order among equal dates is left to the store.
- Row joins: the `inversores` and `admins` joins used only for display names are not modelled.
- Other tables: the counts of tables outside the temporal track are inputs to `Operaciones` only. So is the active-announcement count (src/components/Admin/Operaciones.tsx:86-89): `FetchStats` takes it as a parameter and does not derive it from `Database.avisos`.
- List order: the `fecha_creacion` order of `fetchAvisos` (src/components/Admin/AvisosList.tsx:44-53) and the `fecha_solicitud` order of `fetchSolicitudesPendientes` (src/components/Dashboard/TemporalSolicitudButtons.tsx:66-76) only arrange rows for display and are not modelled; `PendientesDe` models that query's filters.
