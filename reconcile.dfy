/** The pure parts of the payment integrator (`real_backend/app.py`): the
    reference-key format, the deduplication of gateway candidates against
    the reference set, the transform of accepted candidates into ledger
    rows, the all-or-nothing batch insert, and the three set-based SQL
    updates of the cascade, each a function from tables to tables. */
module Reconcile {
  import opened Tables
  import Seqs

  /** The two payment gateways the integrator reads. */
  datatype Source = Xendit | PaperId {
    /** The source tag selected with every row (`%s AS source`); the
        transform later stores it as the payment method. */
    function Tag(): string {
      match this
      case Xendit => "xendit"
      case PaperId => "paperid"
    }
  }

  /** A fetched candidate, in the column order of the gateway query:
      tanggal, jumlah, nomor_invoice, id_student, the gateway's payment id,
      source. */
  datatype Candidate = Candidate(
    tanggal: int,
    jumlah: int,
    nomorInvoice: string,
    idStudent: string,
    paymentId: string,
    source: string)

  /** The rows of a gateway's `payments` table as the integrator's query
      returns them, each tagged with the source. */
  function Fetched(src: Source, rows: seq<GatewayPayment>): (cs: seq<Candidate>)
    ensures |cs| == |rows|
    ensures forall i :: 0 <= i < |cs| ==> cs[i].source == src.Tag()
  {
    seq(|rows|, i requires 0 <= i < |rows| =>
      Candidate(rows[i].tanggal, rows[i].jumlah, rows[i].nomorInvoice, rows[i].idStudent, rows[i].paymentId, src.Tag()))
  }

  // ---------------------------------------------------------------------
  // Reference keys

  /** The reference key `method:number`. */
  function Key(payMethod: string, number: string): string {
    payMethod + ":" + number
  }

  /** The key of a ledger receipt: `CONCAT(metode_pembayaran, ':', nomor_penerimaan)`. */
  function ReceiptRef(r: Receipt): string {
    Key(r.metodePembayaran, r.nomorPenerimaan)
  }

  /** The key of a candidate: `f"{source}:{payment_id}"`. */
  function CandidateRef(c: Candidate): string {
    Key(c.source, c.paymentId)
  }

  /** The reference set built from a receipts table. */
  function References(rs: seq<Receipt>): set<string> {
    set i | 0 <= i < |rs| :: ReceiptRef(rs[i])
  }

  function RefsOf(cs: seq<Candidate>): set<string> {
    set i | 0 <= i < |cs| :: CandidateRef(cs[i])
  }

  /** The key format is unambiguous as long as the method part has no
      colon, which holds for both gateway tags: equal keys mean equal
      (method, number) pairs. */
  lemma KeyInjective(m1: string, n1: string, m2: string, n2: string)
    requires ':' !in m1 && ':' !in m2
    requires Key(m1, n1) == Key(m2, n2)
    ensures m1 == m2 && n1 == n2
  {
    var k1, k2 := Key(m1, n1), Key(m2, n2);
    KeyColon(m1, n1);
    KeyColon(m2, n2);
    assert |m1| == |m2|;
    assert m1 == k1[..|m1|] && m2 == k2[..|m2|];
    assert n1 == k1[|m1| + 1..] && n2 == k2[|m2| + 1..];
  }

  /** In a key whose method part has no colon, the first colon is the
      separator. */
  lemma KeyColon(m: string, n: string)
    requires ':' !in m
    ensures Key(m, n)[|m|] == ':'
    ensures forall i :: 0 <= i < |m| ==> Key(m, n)[i] != ':'
  {
    forall i | 0 <= i < |m| ensures Key(m, n)[i] != ':' {
      assert Key(m, n)[i] == m[i];
    }
  }

  lemma GatewayTagsHaveNoColon(src: Source)
    ensures ':' !in src.Tag()
  {
  }

  // ---------------------------------------------------------------------
  // Deduplication

  /** The state of the deduplication loop: the accepted rows, the reference
      set, and how many rows were skipped as duplicates. */
  datatype DedupState = DedupState(accepted: seq<Candidate>, refs: set<string>, skipped: nat)

  /** The deduplication loop of `_process_payments` run over `cs` from the
      reference set `refs`: a row whose key is already known is skipped,
      any other row is accepted and its key added. */
  function Dedup(refs: set<string>, cs: seq<Candidate>): DedupState
    decreases |cs|
  {
    if cs == [] then DedupState([], refs, 0)
    else
      var d := Dedup(refs, cs[..|cs| - 1]);
      var c := cs[|cs| - 1];
      if CandidateRef(c) in d.refs then d.(skipped := d.skipped + 1)
      else DedupState(d.accepted + [c], d.refs + {CandidateRef(c)}, d.skipped)
  }

  lemma RefsOfSnoc(cs: seq<Candidate>, c: Candidate)
    ensures RefsOf(cs + [c]) == RefsOf(cs) + {CandidateRef(c)}
  {
    var s := cs + [c];
    forall x ensures x in RefsOf(s) <==> x in RefsOf(cs) + {CandidateRef(c)} {
      if x in RefsOf(s) {
        var i :| 0 <= i < |s| && CandidateRef(s[i]) == x;
        if i < |cs| { assert s[i] == cs[i]; }
      }
      if x in RefsOf(cs) {
        var i :| 0 <= i < |cs| && CandidateRef(cs[i]) == x;
        assert s[i] == cs[i];
      }
      if x == CandidateRef(c) {
        assert s[|cs|] == c;
      }
    }
  }

  /** The keys of two fetches together are the keys of each. */
  lemma RefsOfAppend(a: seq<Candidate>, b: seq<Candidate>)
    ensures RefsOf(a + b) == RefsOf(a) + RefsOf(b)
  {
    var s := a + b;
    forall x ensures x in RefsOf(s) <==> x in RefsOf(a) + RefsOf(b) {
      if x in RefsOf(s) {
        var i :| 0 <= i < |s| && CandidateRef(s[i]) == x;
        if i < |a| { assert s[i] == a[i]; } else { assert s[i] == b[i - |a|]; }
      }
      if x in RefsOf(a) {
        var i :| 0 <= i < |a| && CandidateRef(a[i]) == x;
        assert s[i] == a[i];
      }
      if x in RefsOf(b) {
        var i :| 0 <= i < |b| && CandidateRef(b[i]) == x;
        assert s[|a| + i] == b[i];
      }
    }
  }

  /** Every fetched row is either skipped or accepted. */
  lemma {:induction false} DedupCounts(refs: set<string>, cs: seq<Candidate>)
    ensures |Dedup(refs, cs).accepted| + Dedup(refs, cs).skipped == |cs|
    decreases |cs|
  {
    if cs != [] {
      DedupCounts(refs, cs[..|cs| - 1]);
    }
  }

  /** The reference set only grows: it ends as the old set together with the
      accepted keys, which is also the old set together with every fetched
      key. */
  lemma {:induction false} DedupRefs(refs: set<string>, cs: seq<Candidate>)
    ensures Dedup(refs, cs).refs == refs + RefsOf(Dedup(refs, cs).accepted)
    ensures Dedup(refs, cs).refs == refs + RefsOf(cs)
    decreases |cs|
  {
    if cs == [] {
      assert RefsOf([]) == {};
    } else {
      var init, c := cs[..|cs| - 1], cs[|cs| - 1];
      DedupRefs(refs, init);
      assert cs == init + [c];
      RefsOfSnoc(init, c);
      var d := Dedup(refs, init);
      if CandidateRef(c) !in d.refs {
        RefsOfSnoc(d.accepted, c);
      }
    }
  }

  /** Each accepted key was absent from the reference set it started from,
      and the accepted rows have pairwise distinct keys, duplicates within
      one fetch included. */
  lemma {:induction false} DedupFresh(refs: set<string>, cs: seq<Candidate>)
    ensures forall i :: 0 <= i < |Dedup(refs, cs).accepted| ==> CandidateRef(Dedup(refs, cs).accepted[i]) !in refs
    ensures forall i, j :: 0 <= i < j < |Dedup(refs, cs).accepted| ==>
              CandidateRef(Dedup(refs, cs).accepted[i]) != CandidateRef(Dedup(refs, cs).accepted[j])
    decreases |cs|
  {
    if cs != [] {
      var init, c := cs[..|cs| - 1], cs[|cs| - 1];
      var d := Dedup(refs, init);
      DedupFresh(refs, init);
      DedupRefs(refs, init);
      if CandidateRef(c) !in d.refs {
        var a := d.accepted + [c];
        forall i | 0 <= i < |d.accepted| ensures CandidateRef(a[i]) != CandidateRef(c) {
          assert a[i] == d.accepted[i];
          assert CandidateRef(d.accepted[i]) in RefsOf(d.accepted);
        }
      }
    }
  }

  /** The accepted rows are the fetched rows with some left out, in fetch
      order. */
  lemma {:induction false} DedupSubsequence(refs: set<string>, cs: seq<Candidate>)
    ensures Seqs.IsSubsequence(Dedup(refs, cs).accepted, cs)
    decreases |cs|
  {
    if cs != [] {
      var init, c := cs[..|cs| - 1], cs[|cs| - 1];
      DedupSubsequence(refs, init);
      assert cs == init + [c];
      var d := Dedup(refs, init);
      if CandidateRef(c) in d.refs {
        SubsequenceExtend(d.accepted, init, c);
      } else {
        SubsequenceSnoc(d.accepted, init, c);
      }
    }
  }

  lemma {:induction false} SubsequenceExtend<T>(a: seq<T>, b: seq<T>, x: T)
    requires Seqs.IsSubsequence(a, b)
    ensures Seqs.IsSubsequence(a, b + [x])
    decreases |b|
  {
    if a != [] {
      assert (b + [x])[1..] == b[1..] + [x];
      if a[0] == b[0] && Seqs.IsSubsequence(a[1..], b[1..]) {
        SubsequenceExtend(a[1..], b[1..], x);
      } else {
        SubsequenceExtend(a, b[1..], x);
      }
    }
  }

  lemma {:induction false} SubsequenceSnoc<T>(a: seq<T>, b: seq<T>, x: T)
    requires Seqs.IsSubsequence(a, b)
    ensures Seqs.IsSubsequence(a + [x], b + [x])
    decreases |b|
  {
    if a == [] {
      if b == [] {
        assert Seqs.IsSubsequence([x][1..], [x][1..]);
      } else {
        assert (b + [x])[1..] == b[1..] + [x];
        Seqs.SubsequenceOfEmpty<T>([]);
        SubsequenceSnoc(a, b[1..], x);
      }
    } else {
      assert (a + [x])[1..] == a[1..] + [x];
      assert (b + [x])[1..] == b[1..] + [x];
      if a[0] == b[0] && Seqs.IsSubsequence(a[1..], b[1..]) {
        SubsequenceSnoc(a[1..], b[1..], x);
      } else {
        SubsequenceSnoc(a, b[1..], x);
      }
    }
  }

  /** When every fetched key is already known, nothing is accepted and
      every row counts as skipped. */
  lemma {:induction false} DedupAllKnown(refs: set<string>, cs: seq<Candidate>)
    requires RefsOf(cs) <= refs
    ensures Dedup(refs, cs).accepted == []
    ensures Dedup(refs, cs).refs == refs
    ensures Dedup(refs, cs).skipped == |cs|
    decreases |cs|
  {
    if cs != [] {
      var init, c := cs[..|cs| - 1], cs[|cs| - 1];
      assert cs == init + [c];
      RefsOfSnoc(init, c);
      DedupAllKnown(refs, init);
    }
  }

  /** Deduplicating two fetches one after the other, the second from the
      reference set the first left, is deduplicating their concatenation. */
  lemma {:induction false} DedupAppend(refs: set<string>, a: seq<Candidate>, b: seq<Candidate>)
    ensures var da := Dedup(refs, a);
            var db := Dedup(da.refs, b);
            Dedup(refs, a + b) == DedupState(da.accepted + db.accepted, db.refs, da.skipped + db.skipped)
    decreases |b|
  {
    if b == [] {
      assert a + b == a;
    } else {
      var init, c := b[..|b| - 1], b[|b| - 1];
      DedupAppend(refs, a, init);
      assert (a + b)[..|a + b| - 1] == a + init;
      assert (a + b)[|a + b| - 1] == c;
      var da := Dedup(refs, a);
      var di := Dedup(da.refs, init);
      assert (da.accepted + di.accepted) + [c] == da.accepted + (di.accepted + [c]);
    }
  }

  // ---------------------------------------------------------------------
  // Transform and batch insert

  /** One tuple of the transform, as the ledger row the INSERT writes: the
      source tag becomes the payment method and the gateway's payment id
      the receipt number, so the key reloaded from the row is the key the
      candidate was deduplicated under. */
  function ToReceipt(c: Candidate, now: int): (r: Receipt)
    ensures ReceiptRef(r) == CandidateRef(c)
  {
    Receipt(c.idStudent, c.tanggal, c.nomorInvoice, c.jumlah, c.paymentId, c.source, now)
  }

  function Transform(cs: seq<Candidate>, now: int): (rs: seq<Receipt>)
    ensures |rs| == |cs|
    ensures forall i :: 0 <= i < |cs| ==> rs[i] == ToReceipt(cs[i], now)
    ensures forall i :: 0 <= i < |cs| ==> ReceiptRef(rs[i]) == CandidateRef(cs[i])
  {
    seq(|cs|, i requires 0 <= i < |cs| => ToReceipt(cs[i], now))
  }

  /** Reloading the reference set after the batch is in the ledger gives the
      old set together with the accepted keys. */
  lemma ReferencesAfterInsert(rs: seq<Receipt>, cs: seq<Candidate>, now: int)
    ensures References(rs + Transform(cs, now)) == References(rs) + RefsOf(cs)
  {
    var t := rs + Transform(cs, now);
    forall x ensures x in References(t) <==> x in References(rs) + RefsOf(cs) {
      if x in References(t) {
        var i :| 0 <= i < |t| && ReceiptRef(t[i]) == x;
        if i < |rs| {
          assert t[i] == rs[i];
        } else {
          assert t[i] == ToReceipt(cs[i - |rs|], now);
        }
      }
      if x in References(rs) {
        var i :| 0 <= i < |rs| && ReceiptRef(rs[i]) == x;
        assert t[i] == rs[i];
      }
      if x in RefsOf(cs) {
        var i :| 0 <= i < |cs| && CandidateRef(cs[i]) == x;
        assert t[|rs| + i] == ToReceipt(cs[i], now);
      }
    }
  }

  /** The result of `executemany` followed by `commit`. */
  datatype InsertOutcome = Committed(receipts: seq<Receipt>) | UniqueViolation | StoreFailure

  /** The batch insert is all-or-nothing: either every row is added, or the
      transaction is rolled back because a row breaks the ledger's
      uniqueness constraint or the store fails otherwise. */
  function InsertBatch(rs: seq<Receipt>, batch: seq<Receipt>, fault: bool): (o: InsertOutcome)
    ensures o.Committed? ==> o.receipts == rs + batch && ReceiptKeysUnique(o.receipts)
    ensures o.Committed? <==> ReceiptKeysUnique(rs + batch) && !fault
    ensures o.UniqueViolation? <==> !ReceiptKeysUnique(rs + batch)
  {
    if !ReceiptKeysUnique(rs + batch) then UniqueViolation
    else if fault then StoreFailure
    else Committed(rs + batch)
  }

  /** Deduplication against a reference set that covers the ledger leaves
      nothing for the uniqueness constraint to reject: the batch built from
      the accepted rows keeps the receipt keys unique. */
  lemma DedupPreventsViolation(rs: seq<Receipt>, refs: set<string>, cs: seq<Candidate>, now: int)
    requires ReceiptKeysUnique(rs)
    requires References(rs) <= refs
    ensures ReceiptKeysUnique(rs + Transform(Dedup(refs, cs).accepted, now))
  {
    var acc := Dedup(refs, cs).accepted;
    var batch := Transform(acc, now);
    var t := rs + batch;
    DedupFresh(refs, cs);
    forall i, j | 0 <= i < j < |t| ensures CompositeKey(t[i]) != CompositeKey(t[j]) {
      if j < |rs| {
        assert t[i] == rs[i] && t[j] == rs[j];
      } else if i < |rs| {
        assert t[i] == rs[i];
        assert ReceiptRef(rs[i]) in References(rs);
        assert t[j] == ToReceipt(acc[j - |rs|], now);
        assert ReceiptRef(t[i]) != ReceiptRef(t[j]);
      } else {
        assert t[i] == ToReceipt(acc[i - |rs|], now);
        assert t[j] == ToReceipt(acc[j - |rs|], now);
        assert ReceiptRef(t[i]) != ReceiptRef(t[j]);
      }
    }
  }

  // ---------------------------------------------------------------------
  // Cascade step 1: paid totals

  /** `SUM(jumlah)` over the receipts of invoice `n`, counting none as 0. */
  function ReceiptSum(rs: seq<Receipt>, n: string): int
    decreases |rs|
  {
    if rs == [] then 0
    else (if rs[0].nomorInvoice == n then rs[0].jumlah else 0) + ReceiptSum(rs[1..], n)
  }

  /** Some receipt is recorded against invoice `n`. */
  predicate HasReceipt(rs: seq<Receipt>, n: string)
    decreases |rs|
  {
    rs != [] && (rs[0].nomorInvoice == n || HasReceipt(rs[1..], n))
  }

  /** `HasReceipt` holds exactly when some row of the table names the
      invoice. */
  lemma {:induction false} HasReceiptIff(rs: seq<Receipt>, n: string)
    ensures HasReceipt(rs, n) <==> exists i :: 0 <= i < |rs| && rs[i].nomorInvoice == n
    decreases |rs|
  {
    if rs != [] {
      HasReceiptIff(rs[1..], n);
      if exists i :: 0 <= i < |rs| && rs[i].nomorInvoice == n {
        var i :| 0 <= i < |rs| && rs[i].nomorInvoice == n;
        if i > 0 { assert rs[1..][i - 1].nomorInvoice == n; }
      }
      if exists i :: 0 <= i < |rs[1..]| && rs[1..][i].nomorInvoice == n {
        var i :| 0 <= i < |rs[1..]| && rs[1..][i].nomorInvoice == n;
        assert rs[i + 1].nomorInvoice == n;
      }
    }
  }

  lemma HasReceiptAt(rs: seq<Receipt>, j: nat)
    requires j < |rs|
    ensures HasReceipt(rs, rs[j].nomorInvoice)
  {
    HasReceiptIff(rs, rs[j].nomorInvoice);
  }

  /** `SUM(jumlah)` as SQL computes it: NULL over no rows. */
  function SqlSum(rs: seq<Receipt>, n: string): Option<int> {
    if HasReceipt(rs, n) then Some(ReceiptSum(rs, n)) else None
  }

  /** One invoice under `_calculate_total_payments`: an invoice last
      updated today gets its paid amount recomputed from the receipts (NULL
      when it has none); no other invoice and no other column changes. */
  function PaidTotalOf(v: Invoice, rs: seq<Receipt>, today: int): (r: Invoice)
    ensures r == v.(jumlahPembayaran := r.jumlahPembayaran)
    ensures v.tanggalUpdate != Some(today) ==> r == v
    ensures v.tanggalUpdate == Some(today) ==>
              && (r.jumlahPembayaran.None? <==> !HasReceipt(rs, v.nomorInvoice))
              && (r.jumlahPembayaran.Some? ==> r.jumlahPembayaran.value == ReceiptSum(rs, v.nomorInvoice))
  {
    if v.tanggalUpdate == Some(today) then v.(jumlahPembayaran := SqlSum(rs, v.nomorInvoice)) else v
  }

  /** `_calculate_total_payments` over the whole table: the rows keep their
      order and their key, owner and total columns. */
  function PaidTotals(vs: seq<Invoice>, rs: seq<Receipt>, today: int): (r: seq<Invoice>)
    ensures |r| == |vs|
    ensures forall i :: 0 <= i < |vs| ==>
              r[i].nomorInvoice == vs[i].nomorInvoice && r[i].idStudent == vs[i].idStudent && r[i].total == vs[i].total
    decreases |vs|
  {
    if vs == [] then [] else [PaidTotalOf(vs[0], rs, today)] + PaidTotals(vs[1..], rs, today)
  }

  /** Row `i` of the updated table is row `i` updated on its own. */
  lemma {:induction false} PaidTotalsAt(vs: seq<Invoice>, rs: seq<Receipt>, today: int, i: nat)
    requires i < |vs|
    ensures PaidTotals(vs, rs, today)[i] == PaidTotalOf(vs[i], rs, today)
    decreases |vs|
  {
    if i > 0 {
      PaidTotalsAt(vs[1..], rs, today, i - 1);
    }
  }

  // ---------------------------------------------------------------------
  // Cascade step 2: invoice status

  /** The three-way CASE rule on `total - total_bayar`. */
  function SettlementStatus(total: int, paid: int): (s: string)
    ensures s == "Lunas" <==> paid == total
    ensures s == "Over Paid" <==> paid > total
    ensures s == "Belum Lunas" <==> paid < total
  {
    if total - paid == 0 then "Lunas"
    else if total - paid < 0 then "Over Paid"
    else "Belum Lunas"
  }

  /** How many invoice rows carry number `n`: the multiplicity of the JOIN
      in `payment_data`. */
  function InvoiceCount(vs: seq<Invoice>, n: string): nat
    decreases |vs|
  {
    if vs == [] then 0
    else (if vs[0].nomorInvoice == n then 1 else 0) + InvoiceCount(vs[1..], n)
  }

  /** `SUM(pp.jumlah)` over the JOIN of the receipts with the invoice table
      on the invoice number: every receipt of `n` once per invoice row
      carrying `n`. */
  function JoinedSum(vs: seq<Invoice>, rs: seq<Receipt>, n: string): int
    decreases |vs|
  {
    if vs == [] then 0
    else (if vs[0].nomorInvoice == n then ReceiptSum(rs, n) else 0) + JoinedSum(vs[1..], rs, n)
  }

  /** The JOIN sum is the receipt sum times the multiplicity. */
  lemma {:induction false} JoinedSumMultiplies(vs: seq<Invoice>, rs: seq<Receipt>, n: string)
    ensures JoinedSum(vs, rs, n) == InvoiceCount(vs, n) * ReceiptSum(rs, n)
    decreases |vs|
  {
    if vs != [] {
      JoinedSumMultiplies(vs[1..], rs, n);
      var c, t := InvoiceCount(vs[1..], n), ReceiptSum(rs, n);
      assert (if vs[0].nomorInvoice == n then 1 else 0) * t + c * t
             == ((if vs[0].nomorInvoice == n then 1 else 0) + c) * t;
    }
  }

  /** `MAX(tanggal)` over the receipts of invoice `n`; NULL over none. */
  function LatestDate(rs: seq<Receipt>, n: string): (r: Option<int>)
    ensures r.None? <==> !HasReceipt(rs, n)
    ensures r.Some? ==> exists i :: 0 <= i < |rs| && rs[i].nomorInvoice == n && rs[i].tanggal == r.value
    ensures r.Some? ==> forall i :: 0 <= i < |rs| && rs[i].nomorInvoice == n ==> rs[i].tanggal <= r.value
    decreases |rs|
  {
    if rs == [] then None
    else
      var rest := LatestDate(rs[1..], n);
      assert forall i :: 1 <= i < |rs| ==> rs[i] == rs[1..][i - 1];
      HasReceiptIff(rs[1..], n);
      if rs[0].nomorInvoice != n then
        rest
      else if rest.Some? && rest.value > rs[0].tanggal then rest
      else Some(rs[0].tanggal)
  }

  /** One invoice under `_update_piutang_status`. */
  function StatusOf(v: Invoice, vs: seq<Invoice>, rs: seq<Receipt>): (r: Invoice)
    ensures r.nomorInvoice == v.nomorInvoice && r.idStudent == v.idStudent
    ensures r.tanggal == v.tanggal && r.total == v.total
    ensures !HasReceipt(rs, v.nomorInvoice) ==> r == v
  {
    if HasReceipt(rs, v.nomorInvoice) then
      var paid := JoinedSum(vs, rs, v.nomorInvoice);
      v.(status := SettlementStatus(v.total, paid),
         tanggalUpdate := LatestDate(rs, v.nomorInvoice),
         jumlahPembayaran := Some(paid))
    else v
  }

  /** `_update_piutang_status` over the whole table: the rows keep their
      order, their key and owner. */
  function StatusUpdate(vs: seq<Invoice>, rs: seq<Receipt>): (r: seq<Invoice>)
    ensures |r| == |vs|
    ensures forall i :: 0 <= i < |vs| ==>
              r[i].nomorInvoice == vs[i].nomorInvoice && r[i].idStudent == vs[i].idStudent && r[i].total == vs[i].total
  {
    StatusRows(vs, vs, rs)
  }

  /** The rows `ps` of the invoice table `vs` under the status update. */
  function StatusRows(ps: seq<Invoice>, vs: seq<Invoice>, rs: seq<Receipt>): (r: seq<Invoice>)
    ensures |r| == |ps|
    ensures forall i :: 0 <= i < |ps| ==>
              r[i].nomorInvoice == ps[i].nomorInvoice && r[i].idStudent == ps[i].idStudent && r[i].total == ps[i].total
    decreases |ps|
  {
    if ps == [] then [] else [StatusOf(ps[0], vs, rs)] + StatusRows(ps[1..], vs, rs)
  }

  lemma {:induction false} StatusRowsAt(ps: seq<Invoice>, vs: seq<Invoice>, rs: seq<Receipt>, i: nat)
    requires i < |ps|
    ensures StatusRows(ps, vs, rs)[i] == StatusOf(ps[i], vs, rs)
    decreases |ps|
  {
    if i > 0 {
      StatusRowsAt(ps[1..], vs, rs, i - 1);
    }
  }

  /** An invoice without receipts is left as it was. */
  lemma StatusUpdateUntouched(vs: seq<Invoice>, rs: seq<Receipt>, i: nat)
    requires i < |vs| && !HasReceipt(rs, vs[i].nomorInvoice)
    ensures StatusUpdate(vs, rs)[i] == vs[i]
  {
    StatusRowsAt(vs, vs, rs, i);
  }

  /** An invoice with at least one receipt after the status update: its
      other columns are as before, it carries the summed payment times the
      JOIN multiplicity, the status of the three-way rule for that amount,
      and the date of its latest receipt. */
  lemma StatusUpdateRow(vs: seq<Invoice>, rs: seq<Receipt>, i: nat)
    requires i < |vs| && HasReceipt(rs, vs[i].nomorInvoice)
    ensures var r := StatusUpdate(vs, rs)[i];
            var paid := JoinedSum(vs, rs, vs[i].nomorInvoice);
            && r == vs[i].(status := r.status, tanggalUpdate := r.tanggalUpdate, jumlahPembayaran := r.jumlahPembayaran)
            && r.jumlahPembayaran == Some(paid)
            && r.status == SettlementStatus(vs[i].total, paid)
            && r.tanggalUpdate.Some?
            && (forall j :: 0 <= j < |rs| && rs[j].nomorInvoice == vs[i].nomorInvoice ==> rs[j].tanggal <= r.tanggalUpdate.value)
            && (exists j :: 0 <= j < |rs| && rs[j].nomorInvoice == vs[i].nomorInvoice && rs[j].tanggal == r.tanggalUpdate.value)
  {
    StatusRowsAt(vs, vs, rs, i);
  }

  /** With unique invoice numbers the JOIN multiplicity of a present
      invoice is one, so `total_bayar` is exactly the summed payment. */
  lemma {:induction false} JoinedSumUnique(vs: seq<Invoice>, rs: seq<Receipt>, k: nat)
    requires InvoiceNumbersUnique(vs) && k < |vs|
    ensures JoinedSum(vs, rs, vs[k].nomorInvoice) == ReceiptSum(rs, vs[k].nomorInvoice)
    decreases |vs|
  {
    if k == 0 {
      JoinedSumAbsent(vs[1..], rs, vs[0].nomorInvoice);
    } else {
      assert vs[1..][k - 1] == vs[k];
      JoinedSumUnique(vs[1..], rs, k - 1);
    }
  }

  lemma {:induction false} JoinedSumAbsent(vs: seq<Invoice>, rs: seq<Receipt>, n: string)
    requires forall i :: 0 <= i < |vs| ==> vs[i].nomorInvoice != n
    ensures JoinedSum(vs, rs, n) == 0
    decreases |vs|
  {
    if vs != [] {
      JoinedSumAbsent(vs[1..], rs, n);
    }
  }

  /** The invoice status rule as it acts on a ledger with unique invoice
      numbers: an invoice with payments ends with the summed payment, and
      its status is 'Lunas' exactly when that sum equals the total, 'Over
      Paid' exactly when it exceeds it. */
  lemma StatusUpdateUnique(vs: seq<Invoice>, rs: seq<Receipt>, i: nat)
    requires InvoiceNumbersUnique(vs) && i < |vs|
    requires HasReceipt(rs, vs[i].nomorInvoice)
    ensures StatusUpdate(vs, rs)[i].jumlahPembayaran == Some(ReceiptSum(rs, vs[i].nomorInvoice))
    ensures StatusUpdate(vs, rs)[i].status == SettlementStatus(vs[i].total, ReceiptSum(rs, vs[i].nomorInvoice))
    ensures StatusUpdate(vs, rs)[i].status == "Lunas" <==> ReceiptSum(rs, vs[i].nomorInvoice) == vs[i].total
    ensures StatusUpdate(vs, rs)[i].status == "Over Paid" <==> ReceiptSum(rs, vs[i].nomorInvoice) > vs[i].total
  {
    JoinedSumUnique(vs, rs, i);
    StatusUpdateRow(vs, rs, i);
  }

  // ---------------------------------------------------------------------
  // Cascade step 3: student balances

  /** `pt.total - pt.jumlah_pembayaran`, NULL when the paid amount is. */
  function Balance(v: Invoice): Option<int> {
    match v.jumlahPembayaran
    case None => None
    case Some(p) => Some(v.total - p)
  }

  predicate HasInvoice(vs: seq<Invoice>, id: string) {
    exists k :: 0 <= k < |vs| && vs[k].idStudent == id
  }

  /** Invoice `k` is the only invoice of student `id`. */
  predicate OnlyInvoiceOf(vs: seq<Invoice>, k: int, id: string) {
    && 0 <= k < |vs|
    && vs[k].idStudent == id
    && forall j :: 0 <= j < |vs| && vs[j].idStudent == id ==> j == k
  }

  /** The matching invoice whose row the UPDATE takes; the store may pick
      any of them, this model picks the first. */
  function FirstInvoiceIndex(vs: seq<Invoice>, id: string): (k: nat)
    requires HasInvoice(vs, id)
    ensures k < |vs| && vs[k].idStudent == id
    ensures forall j :: 0 <= j < k ==> vs[j].idStudent != id
    decreases |vs|
  {
    if vs[0].idStudent == id then 0
    else
      assert HasInvoice(vs[1..], id) by {
        var k :| 0 <= k < |vs| && vs[k].idStudent == id;
        assert vs[1..][k - 1] == vs[k];
      }
      var k := FirstInvoiceIndex(vs[1..], id);
      assert vs[k + 1] == vs[1..][k];
      assert forall j :: 1 <= j < k + 1 ==> vs[j] == vs[1..][j - 1];
      k + 1
  }

  /** One student under `_update_student_balances`. */
  function BalanceOf(s: Student, vs: seq<Invoice>, now: int): (r: Student)
    ensures r.idStudent == s.idStudent && r.name == s.name && r.email == s.email
    ensures !HasInvoice(vs, s.idStudent) ==> r == s
  {
    if HasInvoice(vs, s.idStudent) then
      s.(totalTagihan := Balance(vs[FirstInvoiceIndex(vs, s.idStudent)]), tanggalUpdate := Some(now))
    else s
  }

  /** `_update_student_balances` over the whole table: the rows keep their
      order and their key. */
  function StudentBalances(ss: seq<Student>, vs: seq<Invoice>, now: int): (r: seq<Student>)
    ensures |r| == |ss|
    ensures forall i :: 0 <= i < |ss| ==> r[i].idStudent == ss[i].idStudent
    decreases |ss|
  {
    if ss == [] then [] else [BalanceOf(ss[0], vs, now)] + StudentBalances(ss[1..], vs, now)
  }

  lemma {:induction false} StudentBalancesAt(ss: seq<Student>, vs: seq<Invoice>, now: int, i: nat)
    requires i < |ss|
    ensures StudentBalances(ss, vs, now)[i] == BalanceOf(ss[i], vs, now)
    decreases |ss|
  {
    if i > 0 {
      StudentBalancesAt(ss[1..], vs, now, i - 1);
    }
  }

  /** A student with no invoice is left as they were. */
  lemma StudentBalanceUntouched(ss: seq<Student>, vs: seq<Invoice>, now: int, i: nat)
    requires i < |ss| && !HasInvoice(vs, ss[i].idStudent)
    ensures StudentBalances(ss, vs, now)[i] == ss[i]
  {
    StudentBalancesAt(ss, vs, now, i);
  }

  /** A student with invoices gets the balance of one of them and the
      update stamp; nothing else of the row changes. */
  lemma StudentBalanceRow(ss: seq<Student>, vs: seq<Invoice>, now: int, i: nat)
    requires i < |ss| && HasInvoice(vs, ss[i].idStudent)
    ensures exists k :: 0 <= k < |vs| && vs[k].idStudent == ss[i].idStudent &&
              StudentBalances(ss, vs, now)[i] == ss[i].(totalTagihan := Balance(vs[k]), tanggalUpdate := Some(now))
  {
    StudentBalancesAt(ss, vs, now, i);
    var k := FirstInvoiceIndex(vs, ss[i].idStudent);
    assert StudentBalances(ss, vs, now)[i] == ss[i].(totalTagihan := Balance(vs[k]), tanggalUpdate := Some(now));
  }

  /** With exactly one invoice, the balance is that invoice's. */
  lemma StudentBalanceOnly(ss: seq<Student>, vs: seq<Invoice>, now: int, i: nat, k: nat)
    requires i < |ss| && OnlyInvoiceOf(vs, k, ss[i].idStudent)
    ensures StudentBalances(ss, vs, now)[i] == ss[i].(totalTagihan := Balance(vs[k]), tanggalUpdate := Some(now))
  {
    StudentBalancesAt(ss, vs, now, i);
    var f := FirstInvoiceIndex(vs, ss[i].idStudent);
    assert f == k;
  }

  // ---------------------------------------------------------------------
  // Key columns survive the cascade

  lemma CascadeKeepsKeys(vs: seq<Invoice>, ss: seq<Student>, rs: seq<Receipt>, today: int, now: int)
    requires InvoiceNumbersUnique(vs) && StudentIdsUnique(ss)
    ensures InvoiceNumbersUnique(PaidTotals(vs, rs, today))
    ensures InvoiceNumbersUnique(StatusUpdate(vs, rs))
    ensures StudentIdsUnique(StudentBalances(ss, vs, now))
  {
  }
}
