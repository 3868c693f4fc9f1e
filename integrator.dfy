/** The payment integrator of `real_backend/app.py` as an object: its
    reference set and run statistics are fields the methods update, the
    ledger it writes is a `Ledger` object, and each gateway query's result
    (or its failure, `None`) is a parameter. */
module Integrator {
  import opened Tables
  import opened Reconcile
  import Seqs

  /** The run statistics (`stats`). */
  datatype Stats = Stats(totalProcessed: nat, xenditSkipped: nat, paperidSkipped: nat, errors: nat) {
    /** `stats[f'{source}_skipped'] += n` */
    function AddSkipped(src: Source, n: nat): (s: Stats)
      ensures s.totalProcessed == totalProcessed && s.errors == errors
      ensures s.xenditSkipped == xenditSkipped + (if src == Xendit then n else 0)
      ensures s.paperidSkipped == paperidSkipped + (if src == PaperId then n else 0)
    {
      match src
      case Xendit => this.(xenditSkipped := xenditSkipped + n)
      case PaperId => this.(paperidSkipped := paperidSkipped + n)
    }

    function AddError(): Stats {
      this.(errors := errors + 1)
    }
  }

  /** Which statements of the cascade fail when they run. */
  datatype CascadeFaults = CascadeFaults(totals: bool, status: bool, balances: bool)

  /** A gateway query's result as the integrator sees it: no rows when the
      connection is already closed or the query fails. */
  function FetchRows(src: Source, closed: bool, rows: Option<seq<GatewayPayment>>): Option<seq<Candidate>> {
    if closed || rows.None? then None else Some(Fetched(src, rows.value))
  }

  function RowsOf(o: Option<seq<Candidate>>): seq<Candidate> {
    match o
    case None => []
    case Some(cs) => cs
  }

  /** What the two `_process_payments` calls leave behind. */
  datatype Gathered = Gathered(
    xenditAccepted: seq<Candidate>,
    paperidAccepted: seq<Candidate>,
    refs: set<string>,
    xenditSkipped: nat,
    paperidSkipped: nat,
    fetchErrors: nat)
  {
    function Accepted(): seq<Candidate> {
      xenditAccepted + paperidAccepted
    }
  }

  /** The gateway xendit is deduplicated first, paperid second against the
      reference set the first left; a failed query contributes no rows and
      one error. */
  function Gather(refs: set<string>, xs: Option<seq<Candidate>>, ps: Option<seq<Candidate>>): Gathered {
    var dx := Dedup(refs, RowsOf(xs));
    var dp := Dedup(dx.refs, RowsOf(ps));
    Gathered(dx.accepted, dp.accepted, dp.refs, dx.skipped, dp.skipped,
             (if xs.None? then 1 else 0) + (if ps.None? then 1 else 0))
  }

  /** The two passes together are one deduplication of all fetched rows:
      per source every row is accepted or skipped, the accepted keys are
      pairwise distinct and new, and the reference set grows by exactly the
      fetched keys. */
  lemma GatherSpec(refs: set<string>, xs: Option<seq<Candidate>>, ps: Option<seq<Candidate>>)
    ensures var g := Gather(refs, xs, ps);
            && |g.xenditAccepted| + g.xenditSkipped == |RowsOf(xs)|
            && |g.paperidAccepted| + g.paperidSkipped == |RowsOf(ps)|
            && g.Accepted() == Dedup(refs, RowsOf(xs) + RowsOf(ps)).accepted
            && g.refs == refs + RefsOf(g.Accepted())
            && g.refs == refs + RefsOf(RowsOf(xs) + RowsOf(ps))
            && (forall i :: 0 <= i < |g.Accepted()| ==> CandidateRef(g.Accepted()[i]) !in refs)
            && (forall i, j :: 0 <= i < j < |g.Accepted()| ==> CandidateRef(g.Accepted()[i]) != CandidateRef(g.Accepted()[j]))
  {
    var a, b := RowsOf(xs), RowsOf(ps);
    DedupCounts(refs, a);
    DedupCounts(Dedup(refs, a).refs, b);
    DedupAppend(refs, a, b);
    DedupRefs(refs, a + b);
    DedupFresh(refs, a + b);
  }

  /** The derived state the cascade leaves, and how many of its statements
      failed. */
  datatype CascadeResult = CascadeResult(invoices: seq<Invoice>, students: seq<Student>, failures: nat)

  /** The paid-total statement, or the table as it was when it fails and
      is rolled back. It leaves the key, owner and total columns alone
      either way. */
  function TotalsStep(vs: seq<Invoice>, rs: seq<Receipt>, fails: bool, today: int): (r: seq<Invoice>)
    ensures |r| == |vs|
    ensures forall j :: 0 <= j < |vs| ==>
              r[j].nomorInvoice == vs[j].nomorInvoice && r[j].idStudent == vs[j].idStudent && r[j].total == vs[j].total
    ensures fails ==> r == vs
    ensures !fails ==> r == PaidTotals(vs, rs, today)
  {
    if fails then vs else PaidTotals(vs, rs, today)
  }

  /** The three statements in order, each committed on its own or rolled
      back on its own: a failed statement leaves its table as the previous
      one left it, the next statement still runs, and each failure counts
      one error. */
  function Cascade(vs: seq<Invoice>, ss: seq<Student>, rs: seq<Receipt>, faults: CascadeFaults, today: int, now: int): (c: CascadeResult)
    ensures |c.invoices| == |vs| && |c.students| == |ss|
    ensures c.failures == (if faults.totals then 1 else 0) + (if faults.status then 1 else 0) + (if faults.balances then 1 else 0)
    ensures c.failures <= 3
    ensures faults.status ==> c.invoices == TotalsStep(vs, rs, faults.totals, today)
    ensures !faults.status ==> c.invoices == StatusUpdate(TotalsStep(vs, rs, faults.totals, today), rs)
    ensures faults.balances ==> c.students == ss
    ensures !faults.balances ==> c.students == StudentBalances(ss, c.invoices, now)
  {
    var v1 := TotalsStep(vs, rs, faults.totals, today);
    var v2 := if faults.status then v1 else StatusUpdate(v1, rs);
    var s1 := if faults.balances then ss else StudentBalances(ss, v2, now);
    CascadeResult(v2, s1,
      (if faults.totals then 1 else 0) + (if faults.status then 1 else 0) + (if faults.balances then 1 else 0))
  }

  /** Once the status and balance statements commit, whatever happened to
      the paid-total statement: an invoice with payments carries their sum
      and the status of the three-way rule, and its student, if it is that
      student's only invoice, owes the total minus that sum. By
      `CascadeCommitted` this is what `Cascade` leaves when neither of the
      last two statements fails. */
  lemma CascadeSettles(vs: seq<Invoice>, ss: seq<Student>, rs: seq<Receipt>, totalsFail: bool,
                       today: int, now: int, i: nat, k: nat, j: nat)
    requires InvoiceNumbersUnique(vs)
    requires i < |ss| && OnlyInvoiceOf(vs, k, ss[i].idStudent)
    requires j < |rs| && rs[j].nomorInvoice == vs[k].nomorInvoice
    ensures var v2 := StatusUpdate(TotalsStep(vs, rs, totalsFail, today), rs);
            var paid := ReceiptSum(rs, vs[k].nomorInvoice);
            && v2[k].jumlahPembayaran == Some(paid)
            && v2[k].status == SettlementStatus(vs[k].total, paid)
            && StudentBalances(ss, v2, now)[i].totalTagihan == Some(vs[k].total - paid)
            && StudentBalances(ss, v2, now)[i].tanggalUpdate == Some(now)
  {
    var v1 := TotalsStep(vs, rs, totalsFail, today);
    SameKeysKeepOnlyInvoice(vs, v1, k, ss[i].idStudent);
    HasReceiptAt(rs, j);
    StatusThenBalance(v1, ss, rs, now, i, k, vs[k].total, vs[k].nomorInvoice);
  }

  /** With the status and balance statements committed, the cascade is the
      composition of the three updates. */
  lemma CascadeCommitted(vs: seq<Invoice>, ss: seq<Student>, rs: seq<Receipt>, faults: CascadeFaults,
                         today: int, now: int)
    requires !faults.status && !faults.balances
    ensures var v2 := StatusUpdate(TotalsStep(vs, rs, faults.totals, today), rs);
            && Cascade(vs, ss, rs, faults, today, now).invoices == v2
            && Cascade(vs, ss, rs, faults, today, now).students == StudentBalances(ss, v2, now)
  {
  }

  lemma SameKeysKeepOnlyInvoice(vs: seq<Invoice>, ws: seq<Invoice>, k: nat, id: string)
    requires |ws| == |vs|
    requires forall j :: 0 <= j < |vs| ==>
               ws[j].nomorInvoice == vs[j].nomorInvoice && ws[j].idStudent == vs[j].idStudent && ws[j].total == vs[j].total
    requires InvoiceNumbersUnique(vs) && OnlyInvoiceOf(vs, k, id)
    ensures InvoiceNumbersUnique(ws) && OnlyInvoiceOf(ws, k, id) && ws[k].total == vs[k].total
    ensures ws[k].nomorInvoice == vs[k].nomorInvoice
  {
  }

  lemma StatusThenBalance(vs: seq<Invoice>, ss: seq<Student>, rs: seq<Receipt>, now: int, i: nat, k: nat,
                          total: int, n: string)
    requires InvoiceNumbersUnique(vs)
    requires i < |ss| && OnlyInvoiceOf(vs, k, ss[i].idStudent)
    requires vs[k].total == total && vs[k].nomorInvoice == n && HasReceipt(rs, n)
    ensures StatusUpdate(vs, rs)[k].jumlahPembayaran == Some(ReceiptSum(rs, n))
    ensures StatusUpdate(vs, rs)[k].status == SettlementStatus(total, ReceiptSum(rs, n))
    ensures StudentBalances(ss, StatusUpdate(vs, rs), now)[i].totalTagihan == Some(total - ReceiptSum(rs, n))
    ensures StudentBalances(ss, StatusUpdate(vs, rs), now)[i].tanggalUpdate == Some(now)
  {
    var v2 := StatusUpdate(vs, rs);
    StatusUpdateUnique(vs, rs, k);
    assert OnlyInvoiceOf(v2, k, ss[i].idStudent);
    StudentBalanceOnly(ss, v2, now, i, k);
  }

  /** What one `integrate_payments` run leaves: its verdict, the reference
      set, the statistics and the three ledger tables. */
  datatype Run = Run(ok: bool, refs: set<string>, stats: Stats,
                     receipts: seq<Receipt>, invoices: seq<Invoice>, students: seq<Student>)

  /** One `integrate_payments` run over the given state. Both gateways are
      gathered; with nothing new the run reports failure and writes nothing.
      Otherwise the whole batch is inserted in one transaction; if that fails
      (a uniqueness violation or any other error) it is rolled back, nothing
      is written and no cascade runs. After a commit the batch size is
      recorded and the three cascade statements run. */
  function Integrate(refs: set<string>, stats: Stats, closed: bool,
                     rs: seq<Receipt>, vs: seq<Invoice>, ss: seq<Student>,
                     xenditRows: Option<seq<GatewayPayment>>, paperidRows: Option<seq<GatewayPayment>>,
                     insertFault: bool, faults: CascadeFaults, today: int, now: int): (r: Run)
  {
    var g := Gather(refs, FetchRows(Xendit, closed, xenditRows), FetchRows(PaperId, closed, paperidRows));
    Commit(g.refs,
           stats.(xenditSkipped := stats.xenditSkipped + g.xenditSkipped,
                  paperidSkipped := stats.paperidSkipped + g.paperidSkipped,
                  errors := stats.errors + g.fetchErrors),
           rs, vs, ss, g.Accepted(), insertFault, faults, today, now)
  }

  /** What a run guarantees: the reference set grows by the fetched keys,
      each source's skip count accounts for every row of it not accepted, the run
      succeeds exactly when something is new and the batch commits; a
      failed run writes nothing, a successful one appends the batch; the
      three cascade statements add at most three errors to the two fetch
      errors. */
  lemma IntegrateSpec(refs: set<string>, stats: Stats, closed: bool,
                      rs: seq<Receipt>, vs: seq<Invoice>, ss: seq<Student>,
                      xenditRows: Option<seq<GatewayPayment>>, paperidRows: Option<seq<GatewayPayment>>,
                      insertFault: bool, faults: CascadeFaults, today: int, now: int)
    ensures var r := Integrate(refs, stats, closed, rs, vs, ss, xenditRows, paperidRows, insertFault, faults, today, now);
            var xs := FetchRows(Xendit, closed, xenditRows);
            var ps := FetchRows(PaperId, closed, paperidRows);
            var g := Gather(refs, xs, ps);
            && r.refs == refs + RefsOf(RowsOf(xs) + RowsOf(ps))
            && r.stats.xenditSkipped + |Dedup(refs, RowsOf(xs)).accepted| == stats.xenditSkipped + |RowsOf(xs)|
            && r.stats.paperidSkipped + |g.paperidAccepted| == stats.paperidSkipped + |RowsOf(ps)|
            && (r.ok <==> g.Accepted() != [] && InsertBatch(rs, Transform(g.Accepted(), now), insertFault).Committed?)
            && (!r.ok ==> r.receipts == rs && r.invoices == vs && r.students == ss
                          && r.stats.totalProcessed == stats.totalProcessed)
            && (r.ok ==> |r.receipts| == |rs| + r.stats.totalProcessed && r.receipts[..|rs|] == rs
                         && r.stats.totalProcessed > 0)
            && |r.invoices| == |vs| && |r.students| == |ss|
            && (r.ok ==> var c := Cascade(vs, ss, r.receipts, faults, today, now);
                         r.invoices == c.invoices && r.students == c.students)
            && r.stats.errors == stats.errors + g.fetchErrors
                                 + (if r.ok then Cascade(vs, ss, r.receipts, faults, today, now).failures else 0)
            && stats.errors <= r.stats.errors <= stats.errors + 5
  {
    GatherSpec(refs, FetchRows(Xendit, closed, xenditRows), FetchRows(PaperId, closed, paperidRows));
  }

  /** The part of a run after gathering: the accepted rows are inserted as
      one batch and, once it commits, the cascade runs. */
  function Commit(refs: set<string>, stats: Stats, rs: seq<Receipt>, vs: seq<Invoice>, ss: seq<Student>,
                  accepted: seq<Candidate>, insertFault: bool, faults: CascadeFaults, today: int, now: int): (r: Run)
    ensures r.refs == refs && r.stats.xenditSkipped == stats.xenditSkipped
            && r.stats.paperidSkipped == stats.paperidSkipped
    ensures r.ok <==> accepted != [] && InsertBatch(rs, Transform(accepted, now), insertFault).Committed?
    ensures !r.ok ==> r == Run(false, refs, stats, rs, vs, ss)
    ensures r.ok ==> r.receipts == rs + Transform(accepted, now) && r.stats.totalProcessed == |accepted|
    ensures |r.invoices| == |vs| && |r.students| == |ss|
    ensures r.ok ==> var c := Cascade(vs, ss, r.receipts, faults, today, now);
                     && r.invoices == c.invoices && r.students == c.students
                     && r.stats.errors == stats.errors + c.failures
    ensures stats.errors <= r.stats.errors <= stats.errors + 3
  {
    if accepted == [] then Run(false, refs, stats, rs, vs, ss)
    else
      var batch := Transform(accepted, now);
      var o := InsertBatch(rs, batch, insertFault);
      if !o.Committed? then Run(false, refs, stats, rs, vs, ss)
      else
        var c := Cascade(vs, ss, o.receipts, faults, today, now);
        Run(true, refs, stats.(totalProcessed := |batch|, errors := stats.errors + c.failures),
            o.receipts, c.invoices, c.students)
  }

  class PaymentIntegrator {
    /** The connection to the ledger ("accurate"). */
    const ledger: Ledger
    /** Keys `method:number` of the payments already recorded. */
    var existingRefs: set<string>
    var stats: Stats
    /** Set once `integrate_payments` has closed the connections. */
    var closed: bool

    /** Opens the integrator: the reference set is loaded from the ledger's
        receipts, or left empty when that query fails. */
    constructor (ledger: Ledger, loadFails: bool)
      ensures this.ledger == ledger
      ensures existingRefs == if loadFails then {} else References(ledger.receipts)
      ensures stats == Stats(0, 0, 0, 0) && !closed
    {
      this.ledger := ledger;
      existingRefs := if loadFails then {} else References(ledger.receipts);
      stats := Stats(0, 0, 0, 0);
      closed := false;
    }

    /** `_process_payments(source)`: reads the gateway's rows and keeps
        those whose key is new, adding each kept key to the reference set
        and counting each other row as skipped. A failed query (or a closed
        connection) yields nothing and one error. */
    method ProcessPayments(src: Source, rows: Option<seq<GatewayPayment>>) returns (payments: seq<Candidate>)
      modifies this`existingRefs, this`stats
      ensures old(closed) || rows.None? ==>
                payments == [] && existingRefs == old(existingRefs) && stats == old(stats).AddError()
      ensures !old(closed) && rows.Some? ==>
                var d := Dedup(old(existingRefs), Fetched(src, rows.value));
                payments == d.accepted && existingRefs == d.refs && stats == old(stats).AddSkipped(src, d.skipped)
    {
      if closed || rows.None? {
        stats := stats.AddError();
        return [];
      }
      var fetched := Fetched(src, rows.value);
      payments := [];
      var i := 0;
      while i < |fetched|
        invariant 0 <= i <= |fetched|
        invariant var d := Dedup(old(existingRefs), fetched[..i]);
                  payments == d.accepted && existingRefs == d.refs && stats == old(stats).AddSkipped(src, d.skipped)
      {
        assert fetched[..i + 1][..i] == fetched[..i];
        var refId := Key(fetched[i].source, fetched[i].paymentId);
        if refId in existingRefs {
          stats := stats.AddSkipped(src, 1);
        } else {
          payments := payments + [fetched[i]];
          existingRefs := existingRefs + {refId};
        }
        i := i + 1;
      }
      assert fetched[..i] == fetched;
    }

    /** The `executemany` of the transformed batch and its `commit`; on a
        uniqueness violation or any other failure the transaction is rolled
        back and the receipts are as before. */
    method InsertPayments(transformed: seq<Receipt>, fault: bool) returns (committed: bool)
      requires ledger.Valid()
      modifies ledger`receipts
      ensures ledger.Valid()
      ensures committed == InsertBatch(old(ledger.receipts), transformed, fault).Committed?
      ensures ledger.receipts == if committed then old(ledger.receipts) + transformed else old(ledger.receipts)
    {
      var outcome := InsertBatch(ledger.receipts, transformed, fault);
      committed := outcome.Committed?;
      if committed {
        ledger.receipts := outcome.receipts;
      }
    }

    /** `_calculate_total_payments`: commits the paid-total statement, or on
        failure rolls it back and counts one error. */
    method CalculateTotalPayments(fault: bool, today: int)
      requires ledger.Valid()
      modifies this`stats, ledger`invoices
      ensures ledger.Valid()
      ensures ledger.invoices == if fault then old(ledger.invoices) else PaidTotals(old(ledger.invoices), ledger.receipts, today)
      ensures stats == if fault then old(stats).AddError() else old(stats)
    {
      if fault {
        stats := stats.AddError();
      } else {
        CascadeKeepsKeys(ledger.invoices, ledger.students, ledger.receipts, today, 0);
        ledger.invoices := PaidTotals(ledger.invoices, ledger.receipts, today);
      }
    }

    /** `_update_piutang_status`: commits the status statement, or on
        failure rolls it back and counts one error. */
    method UpdatePiutangStatus(fault: bool)
      requires ledger.Valid()
      modifies this`stats, ledger`invoices
      ensures ledger.Valid()
      ensures ledger.invoices == if fault then old(ledger.invoices) else StatusUpdate(old(ledger.invoices), ledger.receipts)
      ensures stats == if fault then old(stats).AddError() else old(stats)
    {
      if fault {
        stats := stats.AddError();
      } else {
        CascadeKeepsKeys(ledger.invoices, ledger.students, ledger.receipts, 0, 0);
        ledger.invoices := StatusUpdate(ledger.invoices, ledger.receipts);
      }
    }

    /** `_update_student_balances`: commits the balance statement, or on
        failure rolls it back and counts one error. */
    method UpdateStudentBalances(fault: bool, now: int)
      requires ledger.Valid()
      modifies this`stats, ledger`students
      ensures ledger.Valid()
      ensures ledger.students == if fault then old(ledger.students) else StudentBalances(old(ledger.students), ledger.invoices, now)
      ensures stats == if fault then old(stats).AddError() else old(stats)
    {
      if fault {
        stats := stats.AddError();
      } else {
        CascadeKeepsKeys(ledger.invoices, ledger.students, ledger.receipts, 0, now);
        ledger.students := StudentBalances(ledger.students, ledger.invoices, now);
      }
    }

    /** The two `_process_payments` calls of `integrate_payments`, xendit
        first: together they accept what `Gather` accepts, leave its
        reference set and add its skip and error counts. */
    method GatherPayments(xenditRows: Option<seq<GatewayPayment>>, paperidRows: Option<seq<GatewayPayment>>)
      returns (all: seq<Candidate>)
      modifies this`existingRefs, this`stats
      ensures var g := Gather(old(existingRefs), FetchRows(Xendit, closed, xenditRows),
                              FetchRows(PaperId, closed, paperidRows));
              && all == g.Accepted()
              && existingRefs == g.refs
              && stats == old(stats).(xenditSkipped := old(stats.xenditSkipped) + g.xenditSkipped,
                                      paperidSkipped := old(stats.paperidSkipped) + g.paperidSkipped,
                                      errors := old(stats.errors) + g.fetchErrors)
    {
      ghost var s0, r0 := stats, existingRefs;
      var xendit := ProcessPayments(Xendit, xenditRows);
      ghost var xs := FetchRows(Xendit, closed, xenditRows);
      ghost var dx := Dedup(r0, RowsOf(xs));
      assert xendit == dx.accepted && existingRefs == dx.refs;
      assert stats == s0.(xenditSkipped := s0.xenditSkipped + dx.skipped,
                          errors := s0.errors + (if xs.None? then 1 else 0));
      ghost var s1, r1 := stats, existingRefs;
      var paperid := ProcessPayments(PaperId, paperidRows);
      ghost var ps := FetchRows(PaperId, closed, paperidRows);
      ghost var dp := Dedup(r1, RowsOf(ps));
      assert paperid == dp.accepted && existingRefs == dp.refs;
      assert stats == s1.(paperidSkipped := s1.paperidSkipped + dp.skipped,
                          errors := s1.errors + (if ps.None? then 1 else 0));
      all := xendit + paperid;
    }

    /** The three cascade statements of `integrate_payments`, in order; the
        invoices and students end as `Cascade` computes them and every
        failed statement counts one error. */
    method RunCascade(faults: CascadeFaults, today: int, now: int)
      requires ledger.Valid()
      modifies this`stats, ledger`invoices, ledger`students
      ensures ledger.Valid()
      ensures var c := Cascade(old(ledger.invoices), old(ledger.students), ledger.receipts, faults, today, now);
              && ledger.invoices == c.invoices
              && ledger.students == c.students
              && stats == old(stats).(errors := old(stats.errors) + c.failures)
    {
      CalculateTotalPayments(faults.totals, today);
      UpdatePiutangStatus(faults.status);
      UpdateStudentBalances(faults.balances, now);
    }

    /** `integrate_payments`: its whole effect on the integrator and the
        ledger is the run `Integrate` describes. */
    method IntegratePayments(xenditRows: Option<seq<GatewayPayment>>, paperidRows: Option<seq<GatewayPayment>>,
                             insertFault: bool, faults: CascadeFaults, today: int, now: int)
      returns (ok: bool)
      requires ledger.Valid()
      modifies this`existingRefs, this`stats, this`closed, ledger
      ensures ledger.Valid() && closed
      ensures Run(ok, existingRefs, stats, ledger.receipts, ledger.invoices, ledger.students)
              == Integrate(old(existingRefs), old(stats), old(closed),
                           old(ledger.receipts), old(ledger.invoices), old(ledger.students),
                           xenditRows, paperidRows, insertFault, faults, today, now)
    {
      var all := GatherPayments(xenditRows, paperidRows);
      ok := CommitPayments(all, insertFault, faults, today, now);
    }

    /** The rest of `integrate_payments` once the rows are gathered: with
        nothing new it reports failure; otherwise it inserts the batch and,
        after a commit, records its size and runs the cascade. The
        connections are closed on every path. */
    method CommitPayments(all: seq<Candidate>, insertFault: bool, faults: CascadeFaults, today: int, now: int)
      returns (ok: bool)
      requires ledger.Valid()
      modifies this`stats, this`closed, ledger
      ensures ledger.Valid() && closed
      ensures Run(ok, existingRefs, stats, ledger.receipts, ledger.invoices, ledger.students)
              == Commit(existingRefs, old(stats), old(ledger.receipts), old(ledger.invoices), old(ledger.students),
                        all, insertFault, faults, today, now)
    {
      if all == [] {
        closed := true;
        return false;
      }
      var transformed := Transform(all, now);
      var committed := InsertPayments(transformed, insertFault);
      if !committed {
        closed := true;
        return false;
      }
      stats := stats.(totalProcessed := |transformed|);
      RunCascade(faults, today, now);
      closed := true;
      ok := true;
    }
  }

  /** An integrator whose reference set was loaded from the ledger never
      meets a uniqueness violation of its own making: the batch it builds
      keeps the receipt keys unique, so the insert can only fail through a
      store fault. */
  lemma LoadedReferencesPreventViolation(rs: seq<Receipt>, xs: Option<seq<Candidate>>, ps: Option<seq<Candidate>>, now: int)
    requires ReceiptKeysUnique(rs)
    ensures var g := Gather(References(rs), xs, ps);
            !InsertBatch(rs, Transform(g.Accepted(), now), false).UniqueViolation?
            && InsertBatch(rs, Transform(g.Accepted(), now), false).Committed?
  {
    GatherSpec(References(rs), xs, ps);
    DedupPreventsViolation(rs, References(rs), RowsOf(xs) + RowsOf(ps), now);
  }

  /** Running again over unchanged gateway rows, with the reference set
      reloaded from the ledger the first run committed to, accepts nothing:
      every fetched row is skipped. */
  lemma RerunAcceptsNothing(rs: seq<Receipt>, xs: Option<seq<Candidate>>, ps: Option<seq<Candidate>>, now: int)
    ensures var g := Gather(References(rs), xs, ps);
            var g2 := Gather(References(rs + Transform(g.Accepted(), now)), xs, ps);
            && g2.Accepted() == []
            && g2.xenditSkipped == |RowsOf(xs)|
            && g2.paperidSkipped == |RowsOf(ps)|
  {
    var refs := References(rs);
    var g := Gather(refs, xs, ps);
    GatherSpec(refs, xs, ps);
    ReferencesAfterInsert(rs, g.Accepted(), now);
    var refs2 := References(rs + Transform(g.Accepted(), now));
    assert refs2 == refs + RefsOf(RowsOf(xs) + RowsOf(ps));
    var a, b := RowsOf(xs), RowsOf(ps);
    RefsOfAppend(a, b);
    DedupAllKnown(refs2, a);
    DedupAllKnown(refs2, b);
  }

  /** A run whose reference set was loaded from the ledger keeps the two
      in step: after a commit the set holds exactly the keys of the
      receipts. Without a store fault the insert cannot fail, so the run
      commits exactly when some fetched row is new. After a failed insert
      the set still holds the rolled-back keys. */
  lemma IntegrateTracksLedger(stats: Stats, closed: bool, rs: seq<Receipt>, vs: seq<Invoice>, ss: seq<Student>,
                              xenditRows: Option<seq<GatewayPayment>>, paperidRows: Option<seq<GatewayPayment>>,
                              insertFault: bool, faults: CascadeFaults, today: int, now: int)
    requires ReceiptKeysUnique(rs)
    ensures var r := Integrate(References(rs), stats, closed, rs, vs, ss, xenditRows, paperidRows,
                               insertFault, faults, today, now);
            var g := Gather(References(rs), FetchRows(Xendit, closed, xenditRows), FetchRows(PaperId, closed, paperidRows));
            && References(rs) <= r.refs
            && (r.ok ==> r.refs == References(r.receipts) && ReceiptKeysUnique(r.receipts))
            && (!insertFault ==> (r.ok <==> g.Accepted() != []))
  {
    var xs := FetchRows(Xendit, closed, xenditRows);
    var ps := FetchRows(PaperId, closed, paperidRows);
    var g := Gather(References(rs), xs, ps);
    GatherSpec(References(rs), xs, ps);
    ReferencesAfterInsert(rs, g.Accepted(), now);
    LoadedReferencesPreventViolation(rs, xs, ps, now);
  }
}
