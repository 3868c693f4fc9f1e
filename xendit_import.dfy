/** The CSV loader of the xendit gateway's store,
    `real_backend/payment_xendit.py`: each row is inserted into `payments`
    only when no row with its `id_xendit_payment` exists; a failing row is
    rolled back and the next row is processed. The rows of the file are
    given as a sequence of row maps. */
module XenditImport {
  import opened Tables
  import opened Seqs

  function PaymentsWithId(ps: seq<GatewayPayment>, id: string): nat {
    Count(ps, (p: GatewayPayment) => p.paymentId == id)
  }

  /** The gateway payment a row describes, with exactly its five columns. */
  function NewPayment(row: Row): (r: Option<GatewayPayment>)
    ensures r.Some? ==>
              && TextCell(row, "id_xendit_payment") == Some(r.value.paymentId)
              && TextCell(row, "nomor_invoice") == Some(r.value.nomorInvoice)
              && NumCell(row, "tanggal") == Some(r.value.tanggal)
              && NumCell(row, "jumlah") == Some(r.value.jumlah)
              && TextCell(row, "id_student") == Some(r.value.idStudent)
    ensures r.None? ==>
              || TextCell(row, "id_xendit_payment").None? || TextCell(row, "nomor_invoice").None?
              || NumCell(row, "tanggal").None? || NumCell(row, "jumlah").None? || TextCell(row, "id_student").None?
  {
    var id := TextCell(row, "id_xendit_payment");
    var inv := TextCell(row, "nomor_invoice");
    var t := NumCell(row, "tanggal");
    var amount := NumCell(row, "jumlah");
    var student := TextCell(row, "id_student");
    if id.None? || inv.None? || t.None? || amount.None? || student.None? then None
    else Some(GatewayPayment(id.value, inv.value, t.value, amount.value, student.value))
  }

  /** `insert_payment`: the count query reads `id_xendit_payment` first;
      with the id new the row is inserted, or fails when a column is
      missing or rejected. */
  function Step(ps: seq<GatewayPayment>, row: Row): (r: (seq<GatewayPayment>, RowOutcome))
    ensures r.1 != Skipped
    ensures r.1 != Inserted ==> r.0 == ps
    ensures r.1 == AlreadyExists <==>
              TextCell(row, "id_xendit_payment").Some? && PaymentsWithId(ps, TextCell(row, "id_xendit_payment").value) > 0
    ensures r.1 == Inserted <==>
              NewPayment(row).Some? && PaymentsWithId(ps, NewPayment(row).value.paymentId) == 0
    ensures r.1 == Inserted ==> r.0 == ps + [NewPayment(row).value]
  {
    var id := TextCell(row, "id_xendit_payment");
    if id.None? then (ps, Failed)
    else if PaymentsWithId(ps, id.value) != 0 then (ps, AlreadyExists)
    else
      var p := NewPayment(row);
      if p.None? then (ps, Failed) else (ps + [p.value], Inserted)
  }

  /** `process_csv`: every row in order, whatever happened to the rows
      before it. */
  function Load(ps: seq<GatewayPayment>, rows: seq<Row>): (r: (seq<GatewayPayment>, seq<RowOutcome>))
    ensures |r.1| == |rows|
    ensures ps <= r.0
    decreases |rows|
  {
    if rows == [] then (ps, [])
    else
      var before := Load(ps, rows[..|rows| - 1]);
      var s := Step(before.0, rows[|rows| - 1]);
      (s.0, before.1 + [s.1])
  }

  /** A load keeps `id_xendit_payment` unique. */
  lemma {:induction false} LoadKeepsIdsUnique(ps: seq<GatewayPayment>, rows: seq<Row>)
    requires GatewayIdsUnique(ps)
    ensures GatewayIdsUnique(Load(ps, rows).0)
    decreases |rows|
  {
    if rows != [] {
      var init := rows[..|rows| - 1];
      LoadKeepsIdsUnique(ps, init);
      StepKeepsIdsUnique(Load(ps, init).0, rows[|rows| - 1]);
    }
  }

  lemma StepKeepsIdsUnique(ps: seq<GatewayPayment>, row: Row)
    requires GatewayIdsUnique(ps)
    ensures GatewayIdsUnique(Step(ps, row).0)
  {
    var r := Step(ps, row);
    if r.1 == Inserted {
      var x := NewPayment(row).value;
      CountZero(ps, (p: GatewayPayment) => p.paymentId == x.paymentId);
      forall i, j | 0 <= i < j < |r.0| ensures r.0[i].paymentId != r.0[j].paymentId {
        if j == |ps| {
          assert r.0[i] == ps[i] && r.0[j] == x;
        } else {
          assert r.0[i] == ps[i] && r.0[j] == ps[j];
        }
      }
    }
  }

  /** Running a row again would insert nothing. */
  predicate Settled(ps: seq<GatewayPayment>, row: Row) {
    Step(ps, row).1 != Inserted
  }

  lemma SettledStays(ps: seq<GatewayPayment>, qs: seq<GatewayPayment>, row: Row)
    requires ps <= qs && Settled(ps, row)
    ensures Settled(qs, row)
  {
    if NewPayment(row).Some? {
      var id := NewPayment(row).value.paymentId;
      CountPrefix(ps, qs, (p: GatewayPayment) => p.paymentId == id);
    }
  }

  /** After a load every one of its rows is settled. */
  lemma {:induction false} LoadSettles(ps: seq<GatewayPayment>, rows: seq<Row>)
    ensures forall k :: 0 <= k < |rows| ==> Settled(Load(ps, rows).0, rows[k])
    decreases |rows|
  {
    if rows != [] {
      var init := rows[..|rows| - 1];
      var last := rows[|rows| - 1];
      var d := Load(ps, init).0;
      LoadSettles(ps, init);
      var d2 := Step(d, last).0;
      forall k | 0 <= k < |rows| ensures Settled(d2, rows[k]) {
        if k < |init| {
          assert rows[k] == init[k];
          SettledStays(d, d2, rows[k]);
        } else if Step(d, last).1 == Inserted {
          var x := NewPayment(last).value;
          CountAppend(d, x, (p: GatewayPayment) => p.paymentId == x.paymentId);
        }
      }
    }
  }

  lemma {:induction false} LoadSettledUnchanged(ps: seq<GatewayPayment>, rows: seq<Row>)
    requires forall k :: 0 <= k < |rows| ==> Settled(ps, rows[k])
    ensures Load(ps, rows).0 == ps
    decreases |rows|
  {
    if rows != [] {
      var init := rows[..|rows| - 1];
      assert forall k :: 0 <= k < |init| ==> init[k] == rows[k];
      LoadSettledUnchanged(ps, init);
    }
  }

  /** Loading the same file twice leaves the table as the first load did. */
  lemma LoadIdempotent(ps: seq<GatewayPayment>, rows: seq<Row>)
    ensures Load(Load(ps, rows).0, rows).0 == Load(ps, rows).0
  {
    LoadSettles(ps, rows);
    LoadSettledUnchanged(Load(ps, rows).0, rows);
  }

  /** Every row of the file whose columns are all readable is in the table
      after the load, with its own payment id; a row with a missing or
      rejected column adds nothing. */
  lemma LoadRecordsRows(ps: seq<GatewayPayment>, rows: seq<Row>, k: nat)
    requires k < |rows| && NewPayment(rows[k]).Some?
    ensures PaymentsWithId(Load(ps, rows).0, NewPayment(rows[k]).value.paymentId) > 0
  {
    LoadSettles(ps, rows);
  }

  /** The program: exit code 1 and nothing loaded unless exactly one
      argument follows the program name; otherwise the file's rows are
      loaded and the exit code is 0. */
  function Run(ps: seq<GatewayPayment>, argv: seq<string>, file: seq<Row>): (r: (int, seq<GatewayPayment>))
    ensures r.0 == 1 <==> |argv| != 2
    ensures |argv| != 2 ==> r.1 == ps
    ensures |argv| == 2 ==> r.0 == 0 && ps <= r.1
  {
    if |argv| != 2 then (1, ps) else (0, Load(ps, file).0)
  }

  // ---------------------------------------------------------------------
  // The loader over the gateway store

  /** `insert_payment` against the store. */
  method InsertPayment(store: GatewayStore, row: Row) returns (outcome: RowOutcome)
    requires store.Valid()
    modifies store
    ensures store.Valid()
    ensures (store.payments, outcome) == Step(old(store.payments), row)
  {
    var id := TextCell(row, "id_xendit_payment");
    if id.None? {
      return Failed;
    }
    if PaymentsWithId(store.payments, id.value) != 0 {
      return AlreadyExists;
    }
    var p := NewPayment(row);
    if p.None? {
      return Failed;
    }
    StepKeepsIdsUnique(store.payments, row);
    store.payments := store.payments + [p.value];
    outcome := Inserted;
  }

  /** `process_csv` against the store: the table ends as `Load` leaves
      it, with one outcome per row. */
  method ProcessCsv(store: GatewayStore, rows: seq<Row>) returns (outcomes: seq<RowOutcome>)
    requires store.Valid()
    modifies store
    ensures store.Valid()
    ensures (store.payments, outcomes) == Load(old(store.payments), rows)
  {
    outcomes := [];
    var i := 0;
    while i < |rows|
      invariant 0 <= i <= |rows|
      invariant store.Valid()
      invariant (store.payments, outcomes) == Load(old(store.payments), rows[..i])
    {
      assert rows[..i + 1][..i] == rows[..i];
      var o := InsertPayment(store, rows[i]);
      outcomes := outcomes + [o];
      i := i + 1;
    }
    assert rows[..i] == rows;
  }

  /** The program's `__main__` against the store; `file` is the content of
      the file named by `argv[1]`. */
  method RunLoader(store: GatewayStore, argv: seq<string>, file: seq<Row>) returns (exitCode: int)
    requires store.Valid()
    modifies store
    ensures store.Valid()
    ensures (exitCode, store.payments) == Run(old(store.payments), argv, file)
  {
    if |argv| != 2 {
      return 1;
    }
    var _ := ProcessCsv(store, file);
    exitCode := 0;
  }
}
