# ar-recon: a verified model of the payment reconciliation back end

The back end (`real_backend/`) keeps an accounts-receivable ledger with
three tables:
- `students`, the students and their outstanding balance (`total_tagihan`);
- `piutang_tagihan`, the invoices, with `total`, `jumlah_pembayaran` and `status`;
- `penerimaan_penjualan`, the receipts, keyed by payment method and receipt
  number.

Four programs work on these tables, and this project models each one:

- **The payment integrator** (`app.py`, class `PaymentIntegrator`). It
  reads the `payments` tables of two gateways, xendit and paperid. Each
  gateway row is keyed as `source:payment_id`, and rows whose key is already
  in the ledger are skipped. The rest are transformed into receipts and
  inserted in one transaction. After a commit, three SQL updates run:
  1. the paid total of each invoice updated today;
  2. the status of each invoice that has receipts ("Lunas", "Over Paid" or
     "Belum Lunas") with its latest payment date;
  3. each student's balance.

  Modules `Reconcile` (the keys, deduplication, transform, batch insert and
  the three updates, as functions on tables) and `Integrator` (the class,
  its statistics, and the whole run as the function `Integrate`).
- **The dashboard** (`ar_dashboard2.py`). It merges invoices with student
  names, computes outstanding and overpaid amounts, filters by student,
  dates and payment method, and shows:
  - the four KPIs;
  - the overpaid students;
  - the top ten customers by outstanding amount;
  - the aging buckets;
  - the status breakdown.

  Module `Dashboard`, with the generic grouping, ranking and counting in
  `Seqs`.
- **The Accurate CSV importer** (`data_accurate.py`). It imports students,
  invoices and whitelisted receipts row by row. Each insert first checks
  whether the row already exists, and a failing row is rolled back without
  stopping the import. Module `AccurateImport`.
- **The xendit CSV loader** (`payment_xendit.py`). It fills the xendit
  gateway's `payments` table the same way. Module `XenditImport`.

`Tables` holds the shared row types, the uniqueness constraints of the
tables, and the two mutable stores: `Ledger` for the Accurate database and
`GatewayStore` for the xendit database. The methods that change the stores
are each proved equal to a specification function. The properties are
proved about those functions:
- idempotence of the loaders, including a rerun at a later time;
- no uniqueness violation after deduplication against the ledger's keys;
- a rerun accepting nothing;
- the cascade producing the three-way status and the balance;
- the KPI identity;
- the ranking guarantees.

## Model

| member | source | states |
|---|---|---|
| Tables.TextCell | real_backend/data_accurate.py:18-21 | a column reads as text exactly when the row has it and it holds text |
| Tables.NumCell | real_backend/data_accurate.py:37-39 | a column reads as a number exactly when the row has it and it holds a number |
| Reconcile.Fetched | real_backend/app.py:46-52 | the gateway query yields one candidate per row, each tagged with the source name |
| Reconcile.KeyInjective | real_backend/app.py:34 | `method:number` keys are injective when the method has no colon |
| Reconcile.KeyColon | real_backend/app.py:55 | the first colon of a key sits right after the method |
| Reconcile.GatewayTagsHaveNoColon | real_backend/app.py:49-50 | the source tags `xendit` and `paperid` contain no colon |
| Reconcile.RefsOfSnoc | real_backend/app.py:60 | adding a candidate adds exactly its key to the key set |
| Reconcile.DedupCounts | real_backend/app.py:54-59 | every fetched row is either accepted or counted as skipped |
| Reconcile.DedupRefs | real_backend/app.py:56-60 | the reference set grows by exactly the keys of the fetched rows, which are those of the accepted rows |
| Reconcile.DedupFresh | real_backend/app.py:56-60 | accepted rows have keys that were not known before and are pairwise distinct |
| Reconcile.DedupSubsequence | real_backend/app.py:54-59 | accepted rows keep the order of the fetch |
| Reconcile.DedupAllKnown | real_backend/app.py:56-57 | when every fetched key is already known, nothing is accepted and every row is skipped |
| Reconcile.DedupAppend | real_backend/app.py:141-143 | two passes, the second from the first's reference set, are one pass over the concatenation |
| Reconcile.ToReceipt | real_backend/app.py:150-151 | a transformed receipt reloads as the candidate's key (source becomes method, payment id becomes receipt number) |
| Reconcile.Transform | real_backend/app.py:150-153 | one receipt per accepted candidate, in order: row i is candidate i reordered into the receipt columns, stamped with the same `now`, and keeps the candidate's `method:number` key |
| Reconcile.ReferencesAfterInsert | real_backend/app.py:29-37 | the ledger's keys after an insert are the old keys plus the inserted candidates' keys |
| Reconcile.InsertBatch | real_backend/app.py:155-163 | the batch commits iff keys stay unique and the store does not fail; a duplicate key is a unique violation; a commit appends the whole batch |
| Reconcile.DedupPreventsViolation | real_backend/app.py:155-161 | rows deduplicated against a reference set containing the ledger's keys never break the receipt key constraint |
| Reconcile.HasReceiptIff | real_backend/app.py:74-76 | an invoice has receipts iff some receipt carries its number |
| Reconcile.HasReceiptAt | real_backend/app.py:74-76 | the invoice of any receipt has receipts |
| Reconcile.PaidTotalOf | real_backend/app.py:72-78 | only an invoice updated today changes, only in its paid total, which becomes the receipts' sum, or NULL when it has none |
| Reconcile.PaidTotals | real_backend/app.py:72-78 | the update applied row by row, keeping the length |
| Reconcile.PaidTotalsAt | real_backend/app.py:72-78 | row i of the update is the single-invoice update of row i |
| Reconcile.SettlementStatus | real_backend/app.py:102-106 | "Lunas" iff paid equals total, "Over Paid" iff paid exceeds it, "Belum Lunas" iff paid is less |
| Reconcile.JoinedSumMultiplies | real_backend/app.py:91-98 | the joined SUM is the number of invoices sharing the number times the receipts' sum |
| Reconcile.LatestDate | real_backend/app.py:95 | the MAX date exists iff there are receipts; it is a receipt's date and no receipt of the invoice is later |
| Reconcile.StatusOf | real_backend/app.py:100-110 | the key, student, date and total are kept; an invoice without receipts is unchanged |
| Reconcile.StatusUpdate | real_backend/app.py:86-116 | the status update over the table, row by row |
| Reconcile.StatusRows | real_backend/app.py:100-110 | the status rows keep length and order |
| Reconcile.StatusRowsAt | real_backend/app.py:100-110 | row i of the status update is the update of row i |
| Reconcile.StatusUpdateUntouched | real_backend/app.py:109-110 | an invoice with no receipts is left as it was |
| Reconcile.StatusUpdateRow | real_backend/app.py:102-108 | an invoice with receipts gets the joined sum, the three-way status of that sum, and the latest receipt date |
| Reconcile.JoinedSumUnique | real_backend/app.py:91-98 | with unique invoice numbers the joined sum is exactly the receipts' sum |
| Reconcile.JoinedSumAbsent | real_backend/app.py:97 | a number absent from the invoices joins nothing |
| Reconcile.StatusUpdateUnique | real_backend/app.py:102-108 | with unique numbers: paid total is the receipts' sum, and "Lunas" and "Over Paid" hold exactly when the sum equals or exceeds the total |
| Reconcile.FirstInvoiceIndex | real_backend/app.py:127-128 | the first invoice of the student |
| Reconcile.BalanceOf | real_backend/app.py:123-128 | the student's id, name and email are kept; a student without invoices is unchanged |
| Reconcile.StudentBalances | real_backend/app.py:118-135 | the balance update over the table, keeping the ids |
| Reconcile.StudentBalancesAt | real_backend/app.py:123-128 | row i of the balance update is the update of student i |
| Reconcile.StudentBalanceUntouched | real_backend/app.py:127-128 | a student without invoices is unchanged |
| Reconcile.StudentBalanceRow | real_backend/app.py:125-126 | a student with invoices gets total minus paid of one of them and the timestamp |
| Reconcile.StudentBalanceOnly | real_backend/app.py:125-126 | with exactly one invoice, the balance is that invoice's total minus paid |
| Reconcile.CascadeKeepsKeys | real_backend/app.py:167-169 | the three updates keep invoice numbers and student ids unique |
| Integrator.Stats.AddSkipped | real_backend/app.py:57 | a skip adds to the source's own counter only |
| Integrator.GatherSpec | real_backend/app.py:141-143 | the two source passes are one deduplication of all rows: each row accepted or skipped, accepted keys new and distinct, reference set grows by the fetched keys |
| Integrator.TotalsStep | real_backend/app.py:67-84 | a failed total update is rolled back and leaves the invoices as they were; otherwise the result is exactly the paid-total statement; either way rows keep their key, student and total |
| Integrator.Cascade | real_backend/app.py:167-169 | the three updates run in order even after a failure; a failed status update leaves the invoices as the totals step left them, otherwise the status update applies to that result; a failed balance update leaves the students unchanged, otherwise balances are recomputed from the resulting invoices; the failure count is exactly the number of failed steps |
| Integrator.CascadeSettles | real_backend/app.py:167-169 | after the cascade, a student's only invoice that has receipts carries their sum as paid total, the three-way status of that sum, and the student's balance is total minus that sum, stamped now |
| Integrator.CascadeCommitted | real_backend/app.py:167-169 | with the status and balance updates committed, the cascade is the composition of the three updates |
| Integrator.SameKeysKeepOnlyInvoice | real_backend/app.py:72-78 | the totals update keeps unique numbers, a student's only invoice, and its total |
| Integrator.StatusThenBalance | real_backend/app.py:100-128 | the balance computed after the status update is the invoice's total minus the receipts' sum |
| Integrator.IntegrateSpec | real_backend/app.py:137-186 | the whole run (`Integrate`): the reference set grows by the fetched keys; each source's skip counter grows by exactly its rows not accepted; success iff some row is new and the batch commits; on failure the tables and the processed count are unchanged; on success the receipts grow by the processed count with the old rows as prefix and the invoices and students are what `Cascade` leaves; the errors grow by exactly the fetch failures plus, on success, the cascade failures (at most five) |
| Integrator.Commit | real_backend/app.py:145-182 | the commit phase: references and both skip counters are kept; success iff the batch is non-empty and commits; a failure changes nothing; a success appends the transformed batch, records its size, leaves the invoices and students as `Cascade` computes and adds exactly the cascade's failures to the errors |
| Integrator.PaymentIntegrator.constructor | real_backend/app.py:7-19 | the reference set is the ledger's keys, or empty when loading them fails; all counters zero |
| Integrator.PaymentIntegrator.ProcessPayments | real_backend/app.py:42-65 | a failed query gives no rows and one error; otherwise the result, the reference set and the skip counter are those of deduplication |
| Integrator.PaymentIntegrator.InsertPayments | real_backend/app.py:155-163 | the receipts grow by the batch iff it commits, else stay as they were |
| Integrator.PaymentIntegrator.CalculateTotalPayments | real_backend/app.py:67-84 | the invoices become the paid-total update, or on failure stay and one error is counted |
| Integrator.PaymentIntegrator.UpdatePiutangStatus | real_backend/app.py:86-116 | the invoices become the status update, or on failure stay and one error is counted |
| Integrator.PaymentIntegrator.UpdateStudentBalances | real_backend/app.py:118-135 | the students become the balance update, or on failure stay and one error is counted |
| Integrator.PaymentIntegrator.GatherPayments | real_backend/app.py:141-143 | the accepted rows, reference set and counters are those of `Gather` |
| Integrator.PaymentIntegrator.RunCascade | real_backend/app.py:167-169 | the invoices and students end as `Cascade` computes and each failure is one error |
| Integrator.PaymentIntegrator.IntegratePayments | real_backend/app.py:137-186 | result, reference set, counters and tables equal `Integrate` of the old state; the connections end closed |
| Integrator.PaymentIntegrator.CommitPayments | real_backend/app.py:145-182 | result, counters and tables equal `Commit` of the old state |
| Integrator.LoadedReferencesPreventViolation | real_backend/app.py:155-161 | with the reference set loaded from the ledger, the batch never violates the key constraint and commits unless the store fails |
| Integrator.RerunAcceptsNothing | real_backend/app.py:29-60 | a second run over the same gateway rows, with keys reloaded from the ledger the first run left, accepts nothing and skips every row |
| Integrator.IntegrateTracksLedger | real_backend/app.py:137-164 | starting from the ledger's keys, a successful run leaves the reference set equal to the ledger's keys with keys still unique; without a store fault the run succeeds iff some row is new |
| Seqs.Filter | real_backend/ar_dashboard2.py:50 | a boolean mask keeps exactly the matching elements, in order, each as many times as it occurs in the input |
| Seqs.Take | real_backend/ar_dashboard2.py:197 | `head(n)` keeps the first n elements |
| Seqs.GroupSum | real_backend/ar_dashboard2.py:178 | one entry per distinct key, each the sum of that key's values |
| Seqs.GroupSumEntry | real_backend/ar_dashboard2.py:178 | a key's group sum is the sum over all its rows |
| Seqs.SortDesc | real_backend/ar_dashboard2.py:179 | a descending sort that keeps the entries as a multiset |
| Seqs.Ranked | real_backend/ar_dashboard2.py:178-179 | grouped and sorted descending: distinct keys, the same key set as the input, each entry its key's sum |
| Seqs.TopN | real_backend/ar_dashboard2.py:196-197 | at most n entries, descending, distinct keys, each its key's sum; a key left out means the list is full and its sum is no larger than any listed |
| Seqs.PositiveGroups | real_backend/ar_dashboard2.py:178-179 | the grouped sums that are positive: keys distinct, each entry its key's sum, a key present iff its sum is positive |
| Seqs.PositiveRanked | real_backend/ar_dashboard2.py:178-179 | a key is listed iff its sum is positive; descending with distinct keys |
| Seqs.SumForPositive | real_backend/ar_dashboard2.py:179 | with non-negative values, a group sum is positive iff some entry is |
| Seqs.TallyCounts | real_backend/ar_dashboard2.py:215 | the tally of a label is its number of occurrences |
| Seqs.ValueCounts | real_backend/ar_dashboard2.py:215 | exactly the occurring labels, each with its number of occurrences, most frequent first |
| Seqs.CountAppend | real_backend/data_accurate.py:18-19 | appending a matching row raises `COUNT(*)` by one |
| Seqs.CountPrefix | real_backend/data_accurate.py:18-19 | a count can only grow as the table grows |
| Dashboard.Outstanding | real_backend/ar_dashboard2.py:36 | outstanding is defined iff the paid total is, and paid plus outstanding equals the total |
| Dashboard.Overpayment | real_backend/ar_dashboard2.py:42-43 | never negative; positive exactly when outstanding is negative, and then its magnitude |
| Dashboard.View | real_backend/ar_dashboard2.py:30-45 | a merged row carries the invoice, the derived columns, and the student's name and email when matched |
| Dashboard.Partners | real_backend/ar_dashboard2.py:39 | the merged rows of one invoice are exactly the invoice joined with each student carrying its id: every such student gives a row and every row comes from one |
| Dashboard.MergeRows | real_backend/ar_dashboard2.py:39 | a left merge yields at least one row per invoice |
| Dashboard.Preprocess | real_backend/ar_dashboard2.py:30-45 | every invoice appears in at least one row (a left merge); each row is an invoice of the table with consistent outstanding and overpayment columns |
| Dashboard.StudentOf | real_backend/ar_dashboard2.py:39 | the matched student has the invoice's id; none iff no student does |
| Dashboard.PartnersNone | real_backend/ar_dashboard2.py:39 | an invoice without a matching student has no matched rows |
| Dashboard.MergeRowsUnique | real_backend/ar_dashboard2.py:39 | with unique student ids the merge yields exactly one row per invoice |
| Dashboard.PreprocessUnique | real_backend/ar_dashboard2.py:30-45 | with unique student ids the frame has one row per invoice, in order, joined with its student |
| Dashboard.FilterWhen | real_backend/ar_dashboard2.py:49-65 | a switched filter keeps exactly the matching rows, each with its multiplicity and in order, when on and everything when off |
| Dashboard.FilterData | real_backend/ar_dashboard2.py:47-67 | fails iff a date range is not a pair; otherwise both frames are subsequences and a row survives, with all its copies, iff it passes every active filter (student, inclusive dates, payment method), and is dropped otherwise |
| Dashboard.InvoiceFilter | real_backend/ar_dashboard2.py:49-56 | the invoice frame after the student and date filters: exactly the passing rows, with their multiplicity, in order |
| Dashboard.PaymentFilter | real_backend/ar_dashboard2.py:49-65 | the payment frame after the student, date and method filters: exactly the passing payments, with their multiplicity, in order |
| Dashboard.TotalOutstanding | real_backend/ar_dashboard2.py:154 | the sum of positive outstanding amounts is never negative |
| Dashboard.SummaryKpis | real_backend/ar_dashboard2.py:152-155 | the four KPIs; outstanding is never negative |
| Dashboard.KpiBalance | real_backend/ar_dashboard2.py:152-155 | invoiced minus paid equals outstanding minus overpaid plus the totals of unpaid invoices; overpaid is never negative |
| Dashboard.NamedRows | real_backend/ar_dashboard2.py:178 | grouping drops exactly the rows without a student name and keeps every copy of the others |
| Dashboard.OverpaymentPairs | real_backend/ar_dashboard2.py:178 | one (student, name) pair and overpayment per row |
| Dashboard.OutstandingPairs | real_backend/ar_dashboard2.py:196 | one (student, name) pair per row with its outstanding amount, 0 when the amount is missing (pandas' `sum` skips NaN) |
| Dashboard.OverpaidStudents | real_backend/ar_dashboard2.py:178-179 | descending, distinct students, each with a positive summed overpayment; a student is listed iff its sum is positive |
| Dashboard.OverpaidStudentsIff | real_backend/ar_dashboard2.py:178-179 | a student is listed iff one of their named invoices is overpaid |
| Dashboard.PairsNonNegative | real_backend/ar_dashboard2.py:43 | every overpayment entry is non-negative |
| Dashboard.PairsWitness | real_backend/ar_dashboard2.py:178 | a grouped entry comes from a merged row of that student |
| Dashboard.TopCustomers | real_backend/ar_dashboard2.py:196-197 | at most ten grouped students, each a key of the named rows, descending, each with its summed outstanding; one left out means ten are listed, none smaller than it |
| Dashboard.AgingBucket | real_backend/ar_dashboard2.py:70-73 | a bucket exists iff 0 <= days < 9999, and it is the half-open bin containing the days |
| Dashboard.AgingFrame | real_backend/ar_dashboard2.py:188 | exactly the rows with positive outstanding, every copy of each |
| Dashboard.BucketTotal | real_backend/ar_dashboard2.py:74 | each bucket's total is never negative |
| Dashboard.AgingSummary | real_backend/ar_dashboard2.py:69-74 | one non-negative total per label |
| Dashboard.BucketsCover | real_backend/ar_dashboard2.py:70-74 | the five bucket totals add up to the outstanding of the rows that fall into a bucket |
| Dashboard.AgingFrameTotal | real_backend/ar_dashboard2.py:188 | restricting to owing rows keeps the total outstanding |
| Dashboard.AgingTotal | real_backend/ar_dashboard2.py:69-74 | the aging chart never shows more than the outstanding KPI, and shows all of it when every owing invoice is 0 to 9998 days old |
| Dashboard.StatusNoDue | real_backend/ar_dashboard2.py:203-211 | the status rule as written: "Paid", "Unpaid", "Partially Paid" each iff its condition; "Overpaid" otherwise, including a missing outstanding |
| Dashboard.PaidOrZero | real_backend/ar_dashboard2.py:153 | `sum` of the paid column skips a missing value: each row adds its paid total, or 0 when there is none |
| Dashboard.UnpaidShownOverpaid | real_backend/ar_dashboard2.py:203-211 | an invoice with no payments and a positive total is labelled "Overpaid", while the ledger calls it "Belum Lunas" |
| Dashboard.InvoiceStatus | real_backend/ar_dashboard2.py:203-211 | the corrected rule: an invoice with no payments and a positive total is "Unpaid"; the label is always one of the four |
| Dashboard.InvoiceStatusAgrees | real_backend/ar_dashboard2.py:203-211 | with non-negative amounts, the corrected label agrees with the ledger's three-way status |
| Dashboard.StatusBreakdown | real_backend/ar_dashboard2.py:213-216 | the breakdown as drawn: each label of the rule as written with its number of rows, most frequent first, labels distinct and each one of the four |
| Dashboard.Labels | real_backend/ar_dashboard2.py:213 | row i's label is the rule as written applied to row i's own outstanding column and total |
| Dashboard.CorrectedStatusBreakdown | real_backend/ar_dashboard2.py:213-216 | the breakdown with the corrected label: each label with its number of rows, most frequent first, labels distinct |
| Dashboard.CorrectedLabels | real_backend/ar_dashboard2.py:213 | row i's label is the corrected rule applied to row i's invoice |
| Dashboard.LabelDiffers | real_backend/ar_dashboard2.py:203-213 | on a derived row the label as written equals the corrected one iff the outstanding amount is present; when it is missing the first says "Overpaid" and the second "Unpaid" (or "Paid" for a zero total) |
| Dashboard.BreakdownsDiffer | real_backend/ar_dashboard2.py:203-216 | the two label columns agree at row i iff row i has an outstanding amount, and the two breakdowns coincide when every row has one |
| AccurateImport.StudentStep | real_backend/data_accurate.py:15-30 | "already exists" iff the id is present; inserted iff the id is new and the row is readable, appending exactly that student; otherwise the table is unchanged |
| AccurateImport.InvoiceStep | real_backend/data_accurate.py:32-48 | "already exists" iff the number is present; inserted iff new and readable, appending exactly that invoice; otherwise unchanged |
| AccurateImport.PaymentStep | real_backend/data_accurate.py:50-69 | "already exists" iff a receipt has the number and date; inserted iff new, readable and not a duplicate key; otherwise unchanged |
| AccurateImport.Step | real_backend/data_accurate.py:76-87 | the table is only extended; a receipt not from BCA 1111 or Kas Sementara and an unknown table are skipped |
| AccurateImport.Load | real_backend/data_accurate.py:71-87 | one outcome per row; the tables only grow |
| AccurateImport.UniqueAfterAppend | real_backend/data_accurate.py:18-21 | appending a row whose key counted zero keeps keys unique |
| AccurateImport.StepKeepsKeys | real_backend/data_accurate.py:15-69 | a row keeps the tables' unique keys, and keeps (receipt number, date) unique |
| AccurateImport.LoadKeepsKeys | real_backend/data_accurate.py:71-87 | a load keeps the same keys unique |
| AccurateImport.UniqueOfPrefix | real_backend/data_accurate.py:56-60 | a row that is a new key for a longer table is a new key for its prefix |
| AccurateImport.SettledStays | real_backend/data_accurate.py:18-19 | a row that would not insert still would not after the tables grow |
| AccurateImport.InsertSettles | real_backend/data_accurate.py:19-22 | once inserted, the same row would not insert again |
| AccurateImport.LoadSettles | real_backend/data_accurate.py:71-87 | after a load no row of the file would insert |
| AccurateImport.LoadSettledUnchanged | real_backend/data_accurate.py:71-87 | loading rows none of which would insert changes nothing |
| AccurateImport.LoadIdempotent | real_backend/data_accurate.py:71-87 | loading the same file a second time, at any later `NOW()`, leaves the tables as one load does |
| AccurateImport.SettledAnyClock | real_backend/data_accurate.py:53-58 | whether a payment row would insert does not depend on the `NOW()` stamp, which is neither in the looked-up key nor in the uniqueness constraint |
| AccurateImport.LoadSplits | real_backend/data_accurate.py:76-87 | loading a file is loading its rows one after another: a failing row does not stop the rest |
| AccurateImport.LoadIf | real_backend/data_accurate.py:103-108 | an absent file changes nothing; tables only grow |
| AccurateImport.Import | real_backend/data_accurate.py:97-108 | exit 1 iff no file is given, and then nothing changes; otherwise 0, students, then invoices, then payments |
| AccurateImport.LoadIfSettles | real_backend/data_accurate.py:103-108 | after loading a file none of its rows would insert |
| AccurateImport.LoadIfStays | real_backend/data_accurate.py:103-108 | settled rows stay settled as the tables grow, and reloading them changes nothing |
| AccurateImport.ExtendsTrans | real_backend/data_accurate.py:103-108 | table growth composes |
| AccurateImport.ImportIdempotent | real_backend/data_accurate.py:97-108 | running the import a second time with the same files, at any later moment, leaves the tables as one run does |
| AccurateImport.InsertStudent | real_backend/data_accurate.py:15-30 | the students table and the outcome are those of `StudentStep` |
| AccurateImport.InsertInvoice | real_backend/data_accurate.py:32-48 | the invoices table and the outcome are those of `InvoiceStep` |
| AccurateImport.InsertPayment | real_backend/data_accurate.py:50-69 | the receipts table and the outcome are those of `PaymentStep` |
| AccurateImport.ProcessCsv | real_backend/data_accurate.py:71-87 | the tables and outcomes are those of `Load` |
| AccurateImport.RunImport | real_backend/data_accurate.py:97-108 | exit code and tables are those of `Import` |
| XenditImport.NewPayment | real_backend/payment_xendit.py:25-28 | the inserted payment has exactly the row's five columns; none iff one is unreadable |
| XenditImport.Step | real_backend/payment_xendit.py:17-37 | "already exists" iff the id is present; inserted iff new and readable, appending that payment; otherwise unchanged |
| XenditImport.Load | real_backend/payment_xendit.py:40-52 | one outcome per row; the table only grows |
| XenditImport.LoadKeepsIdsUnique | real_backend/payment_xendit.py:40-52 | a load keeps `id_xendit_payment` unique |
| XenditImport.StepKeepsIdsUnique | real_backend/payment_xendit.py:21-28 | a row keeps `id_xendit_payment` unique |
| XenditImport.SettledStays | real_backend/payment_xendit.py:21-24 | a row that would not insert still would not after the table grows |
| XenditImport.LoadSettles | real_backend/payment_xendit.py:40-52 | after a load no row of the file would insert |
| XenditImport.LoadSettledUnchanged | real_backend/payment_xendit.py:40-52 | loading rows none of which would insert changes nothing |
| XenditImport.LoadIdempotent | real_backend/payment_xendit.py:40-52 | loading the same file twice leaves the table as one load does |
| XenditImport.LoadRecordsRows | real_backend/payment_xendit.py:40-52 | every readable row's id is in the table after the load |
| XenditImport.Run | real_backend/payment_xendit.py:55-68 | exit 1 iff the arguments are not exactly one file, and then nothing changes; otherwise 0 and the file is loaded |
| XenditImport.InsertPayment | real_backend/payment_xendit.py:17-37 | the table and the outcome are those of `Step` |
| XenditImport.ProcessCsv | real_backend/payment_xendit.py:40-52 | the table and outcomes are those of `Load` |
| XenditImport.RunLoader | real_backend/payment_xendit.py:55-68 | exit code and table are those of `Run` |

## Left out

- Database connections, cursors, the configuration and closing connections are not modelled. A query that fails (a lost connection, say) is an `Option` that is `None` or a fault flag passed in. Closing is the `closed` field.
- Printing, `_show_stats` and `__main__` of `app.py` are not modelled. The counters are modelled; their display is not.
- CSV parsing and file opening are not modelled. A file is the sequence of its rows, and a row is a map from column to a text or number cell. A missing column, or a cell of the wrong kind, stands for a row the script or the database rejects. A missing file is not modelled, and an empty path counts as absent.
- Clocks are parameters. `CURRENT_DATE` is `today` and `NOW()` / `datetime.now()` is `now`, the same for every row of a batch or file. Dates are integers (days).
- Integrator.PaymentIntegrator.IntegratePayments: a Python exception outside the modelled faults is not modelled.
- Reconcile.StudentBalanceRow: when a student has several invoices, PostgreSQL picks one of them without a defined order. The model takes the first one, so `StudentBalanceRow` only promises "one of them".
- Integrator.PaymentIntegrator and the `Ledger` class: their methods assume that `students.id_student` and `piutang_tagihan.nomor_invoice` are primary keys and require them unique (`Ledger.Valid`); the loaders keep both unique (`AccurateImport.LoadKeepsKeys`), and the functions `Cascade` and `Integrate` themselves also cover duplicate invoice numbers (`Reconcile.JoinedSumMultiplies`).
- XenditImport.InsertPayment, XenditImport.ProcessCsv, XenditImport.RunLoader: these methods assume that `id_xendit_payment` is already unique in the gateway's `payments` table (`GatewayStore.Valid`), which the script itself does not check; its COUNT lookup only keeps its own inserts unique (`XenditImport.StepKeepsIdsUnique`, `XenditImport.LoadKeepsIdsUnique`), and the functions `Step` and `Load` make no such assumption.
- AccurateImport.PaymentStep: the receipts table is assumed to carry a unique constraint on (method, receipt number). Inserting a row that breaks it fails that row. Foreign-key constraints are not modelled.
- Dashboard: the following are not modelled:
  - the Streamlit layout and the plots;
  - `format_currency_short`;
  - grouping payment methods under 3% into "Others";
  - `load_data`;
  - floating point and NaN arithmetic other than a missing paid total;
  - `NaT` dates;
  - the date pickers' defaults.
- Dashboard.OverpaidStudents, Dashboard.TopCustomers, Dashboard.StatusBreakdown: the order among equal sums is not specified, and neither is pandas' tie order. Rows without a student name are dropped from grouping, as pandas' `groupby` drops NaN keys.
- Dashboard: the status summary of line 147 reads the stored `status` column, which is the ledger's own status and is shown as it is stored; it is not modelled separately.
- `recon.py` is not part of this model.
- Concurrency between the programs is not modelled.

## Findings

| source | as written | input that shows it | evidently intended | confidence | as-written member | corrected member |
|---|---|---|---|---|---|---|
| real_backend/ar_dashboard2.py:203-211 | an invoice with no recorded payment has a missing outstanding value. None of the first three tests hold for it, so it falls through to "Overpaid", and the breakdown of line 213 counts it there (`StatusBreakdown`, `BreakdownsDiffer`) | an invoice with total 1000 and `jumlah_pembayaran` NULL | "Unpaid" (the ledger calls it "Belum Lunas") | high, not executed | Dashboard.UnpaidShownOverpaid | Dashboard.InvoiceStatus |
