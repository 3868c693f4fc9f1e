/** The CSV loader of the accounting ledger, `real_backend/data_accurate.py`.
    Each row is inserted only when no row with its natural key exists
    (check, then insert, then commit); a failing row is rolled back and the
    next row is processed. The rows of a file are given as a sequence of
    row maps, and the database clock `NOW()` is a parameter. */
module AccurateImport {
  import opened Tables
  import opened Seqs

  /** The three ledger tables as values. */
  datatype Db = Db(students: seq<Student>, invoices: seq<Invoice>, receipts: seq<Receipt>)

  function DbOf(ledger: Ledger): Db
    reads ledger
  {
    Db(ledger.students, ledger.invoices, ledger.receipts)
  }

  /** The keys each ledger table is looked up by stay unique. */
  predicate ValidDb(db: Db) {
    StudentIdsUnique(db.students) && InvoiceNumbersUnique(db.invoices) && ReceiptKeysUnique(db.receipts)
  }

  /** Every table of `b` holds the rows of `a` first. */
  predicate Extends(a: Db, b: Db) {
    a.students <= b.students && a.invoices <= b.invoices && a.receipts <= b.receipts
  }

  const StudentsTable := "students"
  const InvoicesTable := "piutang_tagihan"
  const PaymentsTable := "penerimaan_penjualan"

  /** The payment methods whose rows the payment load inserts. */
  const Whitelist: seq<string> := ["BCA 1111", "Kas Sementara"]

  // ---------------------------------------------------------------------
  // One row

  function StudentsWithId(ss: seq<Student>, id: string): nat {
    Count(ss, (s: Student) => s.idStudent == id)
  }

  function InvoicesWithNumber(vs: seq<Invoice>, n: string): nat {
    Count(vs, (v: Invoice) => v.nomorInvoice == n)
  }

  /** Receipts with this receipt number on this date: the natural key the
      loader checks. */
  function ReceiptsWith(rs: seq<Receipt>, n: string, t: int): nat {
    Count(rs, (r: Receipt) => r.nomorPenerimaan == n && r.tanggal == t)
  }

  /** `insert_student`: the count query reads `id_student` first; with the
      id present the row is inserted with name and email, or fails when
      one of them is missing. */
  function StudentStep(ss: seq<Student>, row: Row): (r: (seq<Student>, RowOutcome))
    ensures r.1 != Skipped
    ensures r.1 != Inserted ==> r.0 == ss
    ensures r.1 == AlreadyExists <==>
              TextCell(row, "id_student").Some? && StudentsWithId(ss, TextCell(row, "id_student").value) > 0
    ensures r.1 == Inserted <==>
              && TextCell(row, "id_student").Some? && StudentsWithId(ss, TextCell(row, "id_student").value) == 0
              && TextCell(row, "name").Some? && TextCell(row, "email").Some?
    ensures r.1 == Inserted ==>
              r.0 == ss + [Student(TextCell(row, "id_student").value, TextCell(row, "name").value,
                                   TextCell(row, "email").value, None, None)]
  {
    var id := TextCell(row, "id_student");
    if id.None? then (ss, Failed)
    else if StudentsWithId(ss, id.value) != 0 then (ss, AlreadyExists)
    else
      var name := TextCell(row, "name");
      var email := TextCell(row, "email");
      if name.None? || email.None? then (ss, Failed)
      else (ss + [Student(id.value, name.value, email.value, None, None)], Inserted)
  }

  /** `insert_invoice`: keyed on `nomor_invoice`; the new row carries the
      five given columns and no paid total yet. */
  function InvoiceStep(vs: seq<Invoice>, row: Row): (r: (seq<Invoice>, RowOutcome))
    ensures r.1 != Skipped
    ensures r.1 != Inserted ==> r.0 == vs
    ensures r.1 == AlreadyExists <==>
              TextCell(row, "nomor_invoice").Some? && InvoicesWithNumber(vs, TextCell(row, "nomor_invoice").value) > 0
    ensures r.1 == Inserted <==>
              && TextCell(row, "nomor_invoice").Some? && InvoicesWithNumber(vs, TextCell(row, "nomor_invoice").value) == 0
              && TextCell(row, "id_student").Some? && NumCell(row, "tanggal").Some?
              && NumCell(row, "total").Some? && TextCell(row, "status").Some?
    ensures r.1 == Inserted ==>
              r.0 == vs + [Invoice(TextCell(row, "nomor_invoice").value, TextCell(row, "id_student").value,
                                   NumCell(row, "tanggal").value, NumCell(row, "total").value,
                                   TextCell(row, "status").value, None, None)]
  {
    var n := TextCell(row, "nomor_invoice");
    if n.None? then (vs, Failed)
    else if InvoicesWithNumber(vs, n.value) != 0 then (vs, AlreadyExists)
    else
      var id := TextCell(row, "id_student");
      var t := NumCell(row, "tanggal");
      var total := NumCell(row, "total");
      var status := TextCell(row, "status");
      if id.None? || t.None? || total.None? || status.None? then (vs, Failed)
      else (vs + [Invoice(n.value, id.value, t.value, total.value, status.value, None, None)], Inserted)
  }

  /** The receipt a payment row describes, stamped `now`. */
  function NewReceipt(row: Row, now: int): Option<Receipt> {
    var n := TextCell(row, "nomor_penerimaan");
    var t := NumCell(row, "tanggal");
    var id := TextCell(row, "id_student");
    var amount := NumCell(row, "jumlah");
    var m := TextCell(row, "metode_pembayaran");
    var inv := TextCell(row, "nomor_invoice");
    if n.None? || t.None? || id.None? || amount.None? || m.None? || inv.None? then None
    else Some(Receipt(id.value, t.value, inv.value, amount.value, n.value, m.value, now))
  }

  /** `insert_payment`: keyed on the receipt number and date, the method
      not being part of the key. A new row whose (method, number) pair is
      already taken breaks the ledger's uniqueness constraint and is rolled
      back. */
  function PaymentStep(rs: seq<Receipt>, row: Row, now: int): (r: (seq<Receipt>, RowOutcome))
    ensures r.1 != Skipped
    ensures r.1 != Inserted ==> r.0 == rs
    ensures r.1 == AlreadyExists <==>
              && TextCell(row, "nomor_penerimaan").Some? && NumCell(row, "tanggal").Some?
              && ReceiptsWith(rs, TextCell(row, "nomor_penerimaan").value, NumCell(row, "tanggal").value) > 0
    ensures r.1 == Inserted <==>
              && TextCell(row, "nomor_penerimaan").Some? && NumCell(row, "tanggal").Some?
              && ReceiptsWith(rs, TextCell(row, "nomor_penerimaan").value, NumCell(row, "tanggal").value) == 0
              && NewReceipt(row, now).Some? && ReceiptKeysUnique(rs + [NewReceipt(row, now).value])
    ensures r.1 == Inserted ==> r.0 == rs + [NewReceipt(row, now).value]
  {
    var n := TextCell(row, "nomor_penerimaan");
    var t := NumCell(row, "tanggal");
    if n.None? || t.None? then (rs, Failed)
    else if ReceiptsWith(rs, n.value, t.value) != 0 then (rs, AlreadyExists)
    else
      var x := NewReceipt(row, now);
      if x.None? || !ReceiptKeysUnique(rs + [x.value]) then (rs, Failed)
      else (rs + [x.value], Inserted)
  }

  /** `row.get('metode_pembayaran')` is one of the whitelisted methods. */
  predicate Whitelisted(row: Row) {
    "metode_pembayaran" in row && row["metode_pembayaran"].Text? && row["metode_pembayaran"].text in Whitelist
  }

  /** One iteration of `process_csv` for table `table`: a student or
      invoice row goes to its insert, a payment row only when its method is
      whitelisted, and any other row is passed over. */
  function Step(db: Db, table: string, row: Row, now: int): (r: (Db, RowOutcome))
    ensures r.1 != Inserted ==> r.0 == db
    ensures Extends(db, r.0)
    ensures table == PaymentsTable && !Whitelisted(row) ==> r.1 == Skipped
    ensures table != StudentsTable && table != InvoicesTable && table != PaymentsTable ==> r.1 == Skipped
  {
    if table == StudentsTable then
      var s := StudentStep(db.students, row);
      (db.(students := s.0), s.1)
    else if table == InvoicesTable then
      var s := InvoiceStep(db.invoices, row);
      (db.(invoices := s.0), s.1)
    else if table == PaymentsTable && Whitelisted(row) then
      var s := PaymentStep(db.receipts, row, now);
      (db.(receipts := s.0), s.1)
    else (db, Skipped)
  }

  /** `process_csv`: every row in order, whatever happened to the rows
      before it. */
  function Load(db: Db, table: string, rows: seq<Row>, now: int): (r: (Db, seq<RowOutcome>))
    ensures |r.1| == |rows|
    ensures Extends(db, r.0)
    decreases |rows|
  {
    if rows == [] then (db, [])
    else
      var before := Load(db, table, rows[..|rows| - 1], now);
      var s := Step(before.0, table, rows[|rows| - 1], now);
      (s.0, before.1 + [s.1])
  }

  // ---------------------------------------------------------------------
  // Properties of a load

  lemma UniqueAfterAppend<T, K>(s: seq<T>, x: T, key: T -> K, p: T -> bool)
    requires forall i, j :: 0 <= i < j < |s| ==> key(s[i]) != key(s[j])
    requires Count(s, p) == 0
    requires forall y :: key(y) == key(x) ==> p(y)
    ensures forall i, j :: 0 <= i < j < |s + [x]| ==> key((s + [x])[i]) != key((s + [x])[j])
  {
    CountZero(s, p);
  }

  /** A step keeps every table's key unique, and so does a payment step
      the receipt-number-and-date key. */
  lemma StepKeepsKeys(db: Db, table: string, row: Row, now: int)
    requires ValidDb(db)
    ensures ValidDb(Step(db, table, row, now).0)
    ensures NaturalKeysUnique(db.receipts) ==> NaturalKeysUnique(Step(db, table, row, now).0.receipts)
  {
    var r := Step(db, table, row, now);
    if r.1 == Inserted {
      if table == StudentsTable {
        var id := TextCell(row, "id_student").value;
        UniqueAfterAppend(db.students, r.0.students[|db.students|], (s: Student) => s.idStudent,
                          (s: Student) => s.idStudent == id);
      } else if table == InvoicesTable {
        var n := TextCell(row, "nomor_invoice").value;
        UniqueAfterAppend(db.invoices, r.0.invoices[|db.invoices|], (v: Invoice) => v.nomorInvoice,
                          (v: Invoice) => v.nomorInvoice == n);
      } else {
        var n := TextCell(row, "nomor_penerimaan").value;
        var t := NumCell(row, "tanggal").value;
        if NaturalKeysUnique(db.receipts) {
          UniqueAfterAppend(db.receipts, NewReceipt(row, now).value, NaturalKey,
                            (x: Receipt) => x.nomorPenerimaan == n && x.tanggal == t);
        }
      }
    }
  }

  /** The pair the payment loader looks receipts up by. */
  function NaturalKey(r: Receipt): (string, int) {
    (r.nomorPenerimaan, r.tanggal)
  }

  predicate NaturalKeysUnique(rs: seq<Receipt>) {
    forall i, j :: 0 <= i < j < |rs| ==> NaturalKey(rs[i]) != NaturalKey(rs[j])
  }

  /** A load keeps every table's key unique. */
  lemma {:induction false} LoadKeepsKeys(db: Db, table: string, rows: seq<Row>, now: int)
    requires ValidDb(db)
    ensures ValidDb(Load(db, table, rows, now).0)
    ensures NaturalKeysUnique(db.receipts) ==> NaturalKeysUnique(Load(db, table, rows, now).0.receipts)
    decreases |rows|
  {
    if rows != [] {
      var init := rows[..|rows| - 1];
      LoadKeepsKeys(db, table, init, now);
      StepKeepsKeys(Load(db, table, init, now).0, table, rows[|rows| - 1], now);
    }
  }

  /** Running a row again would insert nothing. */
  predicate Settled(db: Db, table: string, row: Row, now: int) {
    Step(db, table, row, now).1 != Inserted
  }

  lemma UniqueOfPrefix(rs: seq<Receipt>, rs2: seq<Receipt>, x: Receipt)
    requires rs <= rs2 && ReceiptKeysUnique(rs2 + [x])
    ensures ReceiptKeysUnique(rs + [x])
  {
    forall i, j | 0 <= i < j < |rs + [x]| ensures CompositeKey((rs + [x])[i]) != CompositeKey((rs + [x])[j]) {
      assert (rs + [x])[i] == (rs2 + [x])[i];
      if j < |rs| {
        assert (rs + [x])[j] == (rs2 + [x])[j];
      } else {
        assert (rs + [x])[j] == (rs2 + [x])[|rs2|];
      }
    }
  }

  /** A row that would insert nothing still inserts nothing once the
      tables have grown: its key can only have appeared, and a clash with
      the uniqueness constraint can only have stayed. */
  lemma SettledStays(db: Db, db2: Db, table: string, row: Row, now: int)
    requires Extends(db, db2) && Settled(db, table, row, now)
    ensures Settled(db2, table, row, now)
  {
    if table == StudentsTable {
      var id := TextCell(row, "id_student");
      if id.Some? {
        CountPrefix(db.students, db2.students, (s: Student) => s.idStudent == id.value);
      }
    } else if table == InvoicesTable {
      var n := TextCell(row, "nomor_invoice");
      if n.Some? {
        CountPrefix(db.invoices, db2.invoices, (v: Invoice) => v.nomorInvoice == n.value);
      }
    } else if table == PaymentsTable && Whitelisted(row) {
      var n := TextCell(row, "nomor_penerimaan");
      var t := NumCell(row, "tanggal");
      if n.Some? && t.Some? {
        CountPrefix(db.receipts, db2.receipts, (r: Receipt) => r.nomorPenerimaan == n.value && r.tanggal == t.value);
        var x := NewReceipt(row, now);
        if x.Some? && ReceiptKeysUnique(db2.receipts + [x.value]) {
          UniqueOfPrefix(db.receipts, db2.receipts, x.value);
        }
      }
    }
  }

  /** A row that was just inserted is settled: its key is now present. */
  lemma InsertSettles(db: Db, table: string, row: Row, now: int)
    requires Step(db, table, row, now).1 == Inserted
    ensures Settled(Step(db, table, row, now).0, table, row, now)
  {
    var db2 := Step(db, table, row, now).0;
    if table == StudentsTable {
      var id := TextCell(row, "id_student").value;
      CountAppend(db.students, db2.students[|db.students|], (s: Student) => s.idStudent == id);
    } else if table == InvoicesTable {
      var n := TextCell(row, "nomor_invoice").value;
      CountAppend(db.invoices, db2.invoices[|db.invoices|], (v: Invoice) => v.nomorInvoice == n);
    } else {
      var n := TextCell(row, "nomor_penerimaan").value;
      var t := NumCell(row, "tanggal").value;
      CountAppend(db.receipts, NewReceipt(row, now).value, (r: Receipt) => r.nomorPenerimaan == n && r.tanggal == t);
    }
  }

  /** One more step keeps settled rows settled and settles its own row. */
  lemma StepSettles(d: Db, table: string, rows: seq<Row>, last: Row, now: int)
    requires forall k :: 0 <= k < |rows| ==> Settled(d, table, rows[k], now)
    ensures forall k :: 0 <= k < |rows| ==> Settled(Step(d, table, last, now).0, table, rows[k], now)
    ensures Settled(Step(d, table, last, now).0, table, last, now)
  {
    var d2 := Step(d, table, last, now).0;
    forall k | 0 <= k < |rows| ensures Settled(d2, table, rows[k], now) {
      SettledStays(d, d2, table, rows[k], now);
    }
    if Step(d, table, last, now).1 == Inserted {
      InsertSettles(d, table, last, now);
    }
  }

  /** After a load every one of its rows is settled. */
  lemma {:induction false} LoadSettles(db: Db, table: string, rows: seq<Row>, now: int)
    ensures forall k :: 0 <= k < |rows| ==> Settled(Load(db, table, rows, now).0, table, rows[k], now)
    decreases |rows|
  {
    if rows != [] {
      var init := rows[..|rows| - 1];
      var last := rows[|rows| - 1];
      LoadSettles(db, table, init, now);
      StepSettles(Load(db, table, init, now).0, table, init, last, now);
      assert rows == init + [last];
    }
  }

  /** Rows that are all settled leave the tables as they are. */
  lemma {:induction false} LoadSettledUnchanged(db: Db, table: string, rows: seq<Row>, now: int)
    requires forall k :: 0 <= k < |rows| ==> Settled(db, table, rows[k], now)
    ensures Load(db, table, rows, now).0 == db
    decreases |rows|
  {
    if rows != [] {
      var init := rows[..|rows| - 1];
      assert forall k :: 0 <= k < |init| ==> init[k] == rows[k];
      LoadSettledUnchanged(db, table, init, now);
    }
  }

  /** Two receipts with the same (method, number) key clash with a table
      exactly alike. */
  lemma SameKeyUnique(rs: seq<Receipt>, a: Receipt, b: Receipt)
    requires CompositeKey(a) == CompositeKey(b)
    ensures ReceiptKeysUnique(rs + [a]) == ReceiptKeysUnique(rs + [b])
  {
    forall i | 0 <= i < |rs| ensures (rs + [a])[i] == (rs + [b])[i] == rs[i] { }
    assert (rs + [a])[|rs|] == a && (rs + [b])[|rs|] == b;
  }

  /** Whether a row is settled does not depend on the clock: the time
      stamp is neither part of a key nor of the uniqueness constraint. */
  lemma SettledAnyClock(db: Db, table: string, row: Row, now: int, now2: int)
    requires Settled(db, table, row, now)
    ensures Settled(db, table, row, now2)
  {
    if table == PaymentsTable && Whitelisted(row) && NewReceipt(row, now).Some? {
      SameKeyUnique(db.receipts, NewReceipt(row, now).value, NewReceipt(row, now2).value);
    }
  }

  /** Loading the same file a second time, at any later moment, leaves the
      tables as the first load did. */
  lemma LoadIdempotent(db: Db, table: string, rows: seq<Row>, now: int, now2: int)
    ensures var once := Load(db, table, rows, now).0;
            Load(once, table, rows, now2).0 == once
  {
    var once := Load(db, table, rows, now).0;
    LoadSettles(db, table, rows, now);
    forall k | 0 <= k < |rows| ensures Settled(once, table, rows[k], now2) {
      SettledAnyClock(once, table, rows[k], now, now2);
    }
    LoadSettledUnchanged(once, table, rows, now2);
  }

  /** A load of `rows` followed by one more row. */
  lemma LoadSnoc(db: Db, table: string, rows: seq<Row>, x: Row, now: int)
    ensures var before := Load(db, table, rows, now);
            var s := Step(before.0, table, x, now);
            Load(db, table, rows + [x], now) == (s.0, before.1 + [s.1])
  {
    assert (rows + [x])[..|rows|] == rows;
  }

  /** A failed or passed-over row changes nothing, and the rows after it
      are still processed: the load of a file is the load of its rows one
      after another. */
  lemma {:induction false} LoadSplits(db: Db, table: string, rows: seq<Row>, more: seq<Row>, now: int)
    ensures var first := Load(db, table, rows, now);
            var second := Load(first.0, table, more, now);
            Load(db, table, rows + more, now) == (second.0, first.1 + second.1)
    decreases |more|
  {
    var first := Load(db, table, rows, now);
    if more == [] {
      assert rows + more == rows;
      assert first.1 + [] == first.1;
    } else {
      var init := more[..|more| - 1];
      var last := more[|more| - 1];
      LoadSplits(db, table, rows, init, now);
      var mid := Load(first.0, table, init, now);
      var s := Step(mid.0, table, last, now);
      assert more == init + [last];
      assert rows + more == (rows + init) + [last];
      LoadSnoc(first.0, table, init, last, now);
      LoadSnoc(db, table, rows + init, last, now);
      assert (first.1 + mid.1) + [s.1] == first.1 + (mid.1 + [s.1]);
    }
  }

  // ---------------------------------------------------------------------
  // The entry point

  /** The three optional file arguments, each given as the rows of its
      file; an absent or empty path is `None`. */
  datatype Args = Args(students: Option<seq<Row>>, invoices: Option<seq<Row>>, payments: Option<seq<Row>>)

  function LoadIf(db: Db, table: string, file: Option<seq<Row>>, now: int): (r: Db)
    ensures Extends(db, r)
  {
    match file
    case None => db
    case Some(rows) => Load(db, table, rows, now).0
  }

  /** The program: exit code 1 and nothing loaded without any file;
      otherwise students, then invoices, then payments, and exit code 0. */
  function Import(db: Db, args: Args, now: int): (r: (int, Db))
    ensures r.0 == 1 <==> args.students.None? && args.invoices.None? && args.payments.None?
    ensures r.0 == 1 ==> r.1 == db
    ensures r.0 != 1 ==> r.0 == 0
    ensures Extends(db, r.1)
  {
    if args.students.None? && args.invoices.None? && args.payments.None? then (1, db)
    else
      var d1 := LoadIf(db, StudentsTable, args.students, now);
      var d2 := LoadIf(d1, InvoicesTable, args.invoices, now);
      (0, LoadIf(d2, PaymentsTable, args.payments, now))
  }

  lemma LoadIfSettles(db: Db, table: string, file: Option<seq<Row>>, now: int)
    ensures file.Some? ==> forall k :: 0 <= k < |file.value| ==> Settled(LoadIf(db, table, file, now), table, file.value[k], now)
  {
    if file.Some? {
      LoadSettles(db, table, file.value, now);
    }
  }

  lemma LoadIfStays(db: Db, db2: Db, table: string, file: Option<seq<Row>>, now: int)
    requires file.Some? ==> forall k :: 0 <= k < |file.value| ==> Settled(db, table, file.value[k], now)
    requires Extends(db, db2)
    ensures file.Some? ==> forall k :: 0 <= k < |file.value| ==> Settled(db2, table, file.value[k], now)
    ensures file.Some? && db2 == db ==> LoadIf(db2, table, file, now) == db2
  {
    if file.Some? {
      forall k | 0 <= k < |file.value| ensures Settled(db2, table, file.value[k], now) {
        SettledStays(db, db2, table, file.value[k], now);
      }
      if db2 == db {
        LoadSettledUnchanged(db, table, file.value, now);
      }
    }
  }

  lemma LoadIfAnyClock(db: Db, table: string, file: Option<seq<Row>>, now: int, now2: int)
    requires file.Some? ==> forall k :: 0 <= k < |file.value| ==> Settled(db, table, file.value[k], now)
    ensures file.Some? ==> forall k :: 0 <= k < |file.value| ==> Settled(db, table, file.value[k], now2)
  {
    if file.Some? {
      forall k | 0 <= k < |file.value| ensures Settled(db, table, file.value[k], now2) {
        SettledAnyClock(db, table, file.value[k], now, now2);
      }
    }
  }

  lemma ExtendsTrans(a: Db, b: Db, c: Db)
    requires Extends(a, b) && Extends(b, c)
    ensures Extends(a, c)
  {
  }

  /** Running the whole import a second time with the same files, at any
      later moment, changes no table. */
  lemma ImportIdempotent(db: Db, args: Args, now: int, now2: int)
    ensures var once := Import(db, args, now).1;
            Import(once, args, now2).1 == once
  {
    if !(args.students.None? && args.invoices.None? && args.payments.None?) {
      var d1 := LoadIf(db, StudentsTable, args.students, now);
      var d2 := LoadIf(d1, InvoicesTable, args.invoices, now);
      var d3 := LoadIf(d2, PaymentsTable, args.payments, now);
      LoadIfSettles(db, StudentsTable, args.students, now);
      LoadIfSettles(d1, InvoicesTable, args.invoices, now);
      LoadIfSettles(d2, PaymentsTable, args.payments, now);
      ExtendsTrans(d1, d2, d3);
      LoadIfStays(d1, d3, StudentsTable, args.students, now);
      LoadIfStays(d2, d3, InvoicesTable, args.invoices, now);
      LoadIfAnyClock(d3, StudentsTable, args.students, now, now2);
      LoadIfAnyClock(d3, InvoicesTable, args.invoices, now, now2);
      LoadIfAnyClock(d3, PaymentsTable, args.payments, now, now2);
      LoadIfStays(d3, d3, StudentsTable, args.students, now2);
      LoadIfStays(d3, d3, InvoicesTable, args.invoices, now2);
      LoadIfStays(d3, d3, PaymentsTable, args.payments, now2);
    }
  }

  // ---------------------------------------------------------------------
  // The loader over the ledger

  /** `insert_student` against the ledger. */
  method InsertStudent(ledger: Ledger, row: Row) returns (outcome: RowOutcome)
    requires ledger.Valid()
    modifies ledger`students
    ensures ledger.Valid()
    ensures (ledger.students, outcome) == StudentStep(old(ledger.students), row)
  {
    var id := TextCell(row, "id_student");
    if id.None? {
      return Failed;
    }
    if StudentsWithId(ledger.students, id.value) != 0 {
      return AlreadyExists;
    }
    var name := TextCell(row, "name");
    var email := TextCell(row, "email");
    if name.None? || email.None? {
      return Failed;
    }
    StepKeepsKeys(DbOf(ledger), StudentsTable, row, 0);
    ledger.students := ledger.students + [Student(id.value, name.value, email.value, None, None)];
    outcome := Inserted;
  }

  /** `insert_invoice` against the ledger. */
  method InsertInvoice(ledger: Ledger, row: Row) returns (outcome: RowOutcome)
    requires ledger.Valid()
    modifies ledger`invoices
    ensures ledger.Valid()
    ensures (ledger.invoices, outcome) == InvoiceStep(old(ledger.invoices), row)
  {
    var n := TextCell(row, "nomor_invoice");
    if n.None? {
      return Failed;
    }
    if InvoicesWithNumber(ledger.invoices, n.value) != 0 {
      return AlreadyExists;
    }
    var id := TextCell(row, "id_student");
    var t := NumCell(row, "tanggal");
    var total := NumCell(row, "total");
    var status := TextCell(row, "status");
    if id.None? || t.None? || total.None? || status.None? {
      return Failed;
    }
    StepKeepsKeys(DbOf(ledger), InvoicesTable, row, 0);
    ledger.invoices := ledger.invoices + [Invoice(n.value, id.value, t.value, total.value, status.value, None, None)];
    outcome := Inserted;
  }

  /** `insert_payment` against the ledger; a row the uniqueness constraint
      rejects is rolled back. */
  method InsertPayment(ledger: Ledger, row: Row, now: int) returns (outcome: RowOutcome)
    requires ledger.Valid()
    modifies ledger`receipts
    ensures ledger.Valid()
    ensures (ledger.receipts, outcome) == PaymentStep(old(ledger.receipts), row, now)
  {
    var n := TextCell(row, "nomor_penerimaan");
    var t := NumCell(row, "tanggal");
    if n.None? || t.None? {
      return Failed;
    }
    if ReceiptsWith(ledger.receipts, n.value, t.value) != 0 {
      return AlreadyExists;
    }
    var x := NewReceipt(row, now);
    if x.None? || !ReceiptKeysUnique(ledger.receipts + [x.value]) {
      return Failed;
    }
    ledger.receipts := ledger.receipts + [x.value];
    outcome := Inserted;
  }

  /** `process_csv` against the ledger: the tables end as `Load` leaves
      them, with one outcome per row. */
  method ProcessCsv(ledger: Ledger, table: string, rows: seq<Row>, now: int) returns (outcomes: seq<RowOutcome>)
    requires ledger.Valid()
    modifies ledger
    ensures ledger.Valid()
    ensures (DbOf(ledger), outcomes) == Load(old(DbOf(ledger)), table, rows, now)
  {
    outcomes := [];
    var i := 0;
    while i < |rows|
      invariant 0 <= i <= |rows|
      invariant ledger.Valid()
      invariant (DbOf(ledger), outcomes) == Load(old(DbOf(ledger)), table, rows[..i], now)
    {
      assert rows[..i + 1][..i] == rows[..i];
      var row := rows[i];
      var o: RowOutcome;
      if table == StudentsTable {
        o := InsertStudent(ledger, row);
      } else if table == InvoicesTable {
        o := InsertInvoice(ledger, row);
      } else if table == PaymentsTable && Whitelisted(row) {
        o := InsertPayment(ledger, row, now);
      } else {
        o := Skipped;
      }
      outcomes := outcomes + [o];
      i := i + 1;
    }
    assert rows[..i] == rows;
  }

  /** The program's `__main__` against the ledger. */
  method RunImport(ledger: Ledger, args: Args, now: int) returns (exitCode: int)
    requires ledger.Valid()
    modifies ledger
    ensures ledger.Valid()
    ensures (exitCode, DbOf(ledger)) == Import(old(DbOf(ledger)), args, now)
  {
    if args.students.None? && args.invoices.None? && args.payments.None? {
      return 1;
    }
    if args.students.Some? {
      var _ := ProcessCsv(ledger, StudentsTable, args.students.value, now);
    }
    if args.invoices.Some? {
      var _ := ProcessCsv(ledger, InvoicesTable, args.invoices.value, now);
    }
    if args.payments.Some? {
      var _ := ProcessCsv(ledger, PaymentsTable, args.payments.value, now);
    }
    exitCode := 0;
  }
}
