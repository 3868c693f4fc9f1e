/** The rows of the three stores the pipeline works on, as values:

    - the accounting ledger ("accurate"): the tables `students`,
      `piutang_tagihan` (receivables, one row per invoice) and
      `penerimaan_penjualan` (receipts, one row per recorded payment);
    - each payment gateway's store ("xendit", "paperid"): a `payments` table.

    Dates are day numbers and timestamps are plain integers; amounts are
    integers. A column that SQL may leave NULL is an `Option`. */
module Tables {

  datatype Option<T> = None | Some(value: T)

  /** One cell of a CSV row as the loaders receive it: text, or a number
      (an amount, or a date already read as a day number). */
  datatype Cell = Text(text: string) | Num(num: int)

  /** A CSV row: column name to cell. A column absent from the map is a
      missing column (a `KeyError` in the loaders). */
  type Row = map<string, Cell>

  /** The text of column `col`; none when the column is missing or holds a
      value a text column rejects. */
  function TextCell(row: Row, col: string): (r: Option<string>)
    ensures r.Some? <==> col in row && row[col].Text?
  {
    if col in row && row[col].Text? then Some(row[col].text) else None
  }

  /** The number in column `col`; none when the column is missing or holds
      a value a numeric or date column rejects. */
  function NumCell(row: Row, col: string): (r: Option<int>)
    ensures r.Some? <==> col in row && row[col].Num?
  {
    if col in row && row[col].Num? then Some(row[col].num) else None
  }

  /** What happened to one row (the message the loader prints). */
  datatype RowOutcome = Inserted | AlreadyExists | Failed | Skipped

  /** A row of `penerimaan_penjualan`. */
  datatype Receipt = Receipt(
    idStudent: string,
    tanggal: int,
    nomorInvoice: string,
    jumlah: int,
    nomorPenerimaan: string,
    metodePembayaran: string,
    tanggalUpdate: int)

  /** A row of `piutang_tagihan`. `jumlahPembayaran` and `tanggalUpdate` are
      NULL until the cascade of the payment integrator writes them. */
  datatype Invoice = Invoice(
    nomorInvoice: string,
    idStudent: string,
    tanggal: int,
    total: int,
    status: string,
    jumlahPembayaran: Option<int>,
    tanggalUpdate: Option<int>)

  /** A row of `students`. The balance and its stamp are NULL until the
      cascade writes them. */
  datatype Student = Student(
    idStudent: string,
    name: string,
    email: string,
    totalTagihan: Option<int>,
    tanggalUpdate: Option<int>)

  /** A row of a gateway's `payments` table; `paymentId` is the column
      `id_xendit_payment` or `id_paper_payment`. */
  datatype GatewayPayment = GatewayPayment(
    paymentId: string,
    nomorInvoice: string,
    tanggal: int,
    jumlah: int,
    idStudent: string)

  /** The ledger's uniqueness constraint on receipts is on this pair
      (payment method, receipt number). */
  function CompositeKey(r: Receipt): (string, string) {
    (r.metodePembayaran, r.nomorPenerimaan)
  }

  predicate StudentIdsUnique(ss: seq<Student>) {
    forall i, j :: 0 <= i < j < |ss| ==> ss[i].idStudent != ss[j].idStudent
  }

  predicate InvoiceNumbersUnique(vs: seq<Invoice>) {
    forall i, j :: 0 <= i < j < |vs| ==> vs[i].nomorInvoice != vs[j].nomorInvoice
  }

  predicate ReceiptKeysUnique(rs: seq<Receipt>) {
    forall i, j :: 0 <= i < j < |rs| ==> CompositeKey(rs[i]) != CompositeKey(rs[j])
  }

  predicate GatewayIdsUnique(ps: seq<GatewayPayment>) {
    forall i, j :: 0 <= i < j < |ps| ==> ps[i].paymentId != ps[j].paymentId
  }

  /** The accounting ledger. Every writer of the pipeline replaces whole
      tables: a committed statement assigns the new table, a rolled-back one
      leaves the field as it was. */
  class Ledger {
    var students: seq<Student>
    var invoices: seq<Invoice>
    var receipts: seq<Receipt>

    /** The keys each table is looked up by stay unique. */
    ghost predicate Valid()
      reads this
    {
      && StudentIdsUnique(students)
      && InvoiceNumbersUnique(invoices)
      && ReceiptKeysUnique(receipts)
    }
  }

  /** A payment gateway's store: its `payments` table. */
  class GatewayStore {
    var payments: seq<GatewayPayment>

    /** The gateway's payment id stays unique. */
    ghost predicate Valid()
      reads this
    {
      GatewayIdsUnique(payments)
    }
  }
}
