/** The receivables dashboard of `real_backend/ar_dashboard2.py` as pure
    functions over the three tables it loads: the merged invoice frame, the
    sidebar filters, the summary figures, the rankings, the aging buckets
    and the per-invoice status labels. Dates are day numbers; the current
    day is a parameter. */
module Dashboard {
  import opened Tables
  import opened Seqs
  import Reconcile

  // ---------------------------------------------------------------------
  // The merged invoice frame

  /** One row of `df_invoice`: an invoice with its student's name and email
      (absent when the left merge finds no student), its outstanding amount
      and its overpayment. */
  datatype InvoiceView = InvoiceView(
    invoice: Invoice,
    name: Option<string>,
    email: Option<string>,
    outstanding: Option<int>,
    overpayment: int)

  /** `total - jumlah_pembayaran`: missing while the invoice has no paid
      total. */
  function Outstanding(v: Invoice): (r: Option<int>)
    ensures r.Some? <==> v.jumlahPembayaran.Some?
    ensures r.Some? ==> v.jumlahPembayaran.value + r.value == v.total
  {
    match v.jumlahPembayaran
    case None => None
    case Some(paid) => Some(v.total - paid)
  }

  /** The amount paid beyond the total, clipped at 0; 0 as well when there
      is no paid total. */
  function Overpayment(v: Invoice): (r: int)
    ensures r >= 0
    ensures r > 0 <==> Outstanding(v).Some? && Outstanding(v).value < 0
    ensures r > 0 ==> r == -Outstanding(v).value
  {
    match v.jumlahPembayaran
    case None => 0
    case Some(paid) => if paid - v.total > 0 then paid - v.total else 0
  }

  /** A row whose derived columns are those of its invoice. */
  predicate Derived(x: InvoiceView) {
    x.outstanding == Outstanding(x.invoice) && x.overpayment == Overpayment(x.invoice)
  }

  function View(v: Invoice, s: Option<Student>): (x: InvoiceView)
    ensures Derived(x) && x.invoice == v
    ensures x.name.Some? <==> s.Some?
    ensures s.Some? ==> x.name == Some(s.value.name) && x.email == Some(s.value.email)
  {
    match s
    case None => InvoiceView(v, None, None, Outstanding(v), Overpayment(v))
    case Some(st) => InvoiceView(v, Some(st.name), Some(st.email), Outstanding(v), Overpayment(v))
  }

  /** One row per student carrying the invoice's student id, in the order
      of the students table. */
  function Partners(v: Invoice, ss: seq<Student>): (r: seq<InvoiceView>)
    ensures forall x :: x in r ==> x.invoice == v && Derived(x) && x.name.Some?
    ensures forall s :: s in ss && s.idStudent == v.idStudent ==> View(v, Some(s)) in r
    ensures forall x :: x in r ==> exists s :: s in ss && s.idStudent == v.idStudent && x == View(v, Some(s))
    decreases |ss|
  {
    if ss == [] then []
    else
      assert ss == [ss[0]] + ss[1..];
      var head := if ss[0].idStudent == v.idStudent then [View(v, Some(ss[0]))] else [];
      var rest := Partners(v, ss[1..]);
      assert forall x :: x in head ==> x == View(v, Some(ss[0])) && ss[0] in ss && ss[0].idStudent == v.idStudent;
      head + rest
  }

  /** What the left merge makes of one invoice: its partner rows, or one
      row without student data when it has none. */
  function MergeRows(v: Invoice, ss: seq<Student>): (r: seq<InvoiceView>)
    ensures r != []
    ensures forall x :: x in r ==> x.invoice == v && Derived(x)
  {
    var p := Partners(v, ss);
    if p == [] then [View(v, None)] else p
  }

  /** `preprocess_data`: every invoice is kept (a left merge), each derived
      row belongs to an invoice of the table and carries that invoice's
      outstanding amount and overpayment. */
  function Preprocess(vs: seq<Invoice>, ss: seq<Student>): (r: seq<InvoiceView>)
    ensures |r| >= |vs|
    ensures forall x :: x in r ==> x.invoice in vs && Derived(x)
    ensures forall v :: v in vs ==> exists x :: x in r && x.invoice == v
    decreases |vs|
  {
    if vs == [] then []
    else
      assert vs == [vs[0]] + vs[1..];
      var m := MergeRows(vs[0], ss);
      var rest := Preprocess(vs[1..], ss);
      assert m[0] in m + rest && m[0].invoice == vs[0];
      assert forall x :: x in rest ==> x in m + rest;
      m + rest
  }

  /** The student with id `id`, the first one when there are several. */
  function StudentOf(ss: seq<Student>, id: string): (r: Option<Student>)
    ensures r.Some? ==> r.value in ss && r.value.idStudent == id
    ensures r.None? <==> forall j :: 0 <= j < |ss| ==> ss[j].idStudent != id
    decreases |ss|
  {
    if ss == [] then None
    else if ss[0].idStudent == id then Some(ss[0])
    else StudentOf(ss[1..], id)
  }

  lemma {:induction false} PartnersNone(v: Invoice, ss: seq<Student>)
    requires forall j :: 0 <= j < |ss| ==> ss[j].idStudent != v.idStudent
    ensures Partners(v, ss) == []
    decreases |ss|
  {
    if ss != [] {
      assert forall j :: 0 <= j < |ss[1..]| ==> ss[1..][j].idStudent == ss[j + 1].idStudent;
      PartnersNone(v, ss[1..]);
    }
  }

  lemma {:induction false} MergeRowsUnique(v: Invoice, ss: seq<Student>)
    requires StudentIdsUnique(ss)
    ensures MergeRows(v, ss) == [View(v, StudentOf(ss, v.idStudent))]
    decreases |ss|
  {
    if ss != [] {
      var t := ss[1..];
      assert StudentIdsUnique(t) by {
        forall i, j | 0 <= i < j < |t| ensures t[i].idStudent != t[j].idStudent {
          assert t[i] == ss[i + 1] && t[j] == ss[j + 1];
        }
      }
      if ss[0].idStudent == v.idStudent {
        assert forall j :: 0 <= j < |t| ==> t[j].idStudent != v.idStudent by {
          forall j | 0 <= j < |t| ensures t[j].idStudent != v.idStudent {
            assert t[j] == ss[j + 1];
          }
        }
        PartnersNone(v, t);
      } else {
        MergeRowsUnique(v, t);
      }
    }
  }

  /** With unique student ids the merge is one row per invoice, in order,
      joined to that invoice's student when there is one. */
  lemma {:induction false} PreprocessUnique(vs: seq<Invoice>, ss: seq<Student>, i: nat)
    requires StudentIdsUnique(ss) && i < |vs|
    ensures |Preprocess(vs, ss)| == |vs|
    ensures Preprocess(vs, ss)[i] == View(vs[i], StudentOf(ss, vs[i].idStudent))
    decreases |vs|
  {
    MergeRowsUnique(vs[0], ss);
    if |vs| > 1 {
      PreprocessUnique(vs[1..], ss, if i == 0 then 0 else i - 1);
    }
  }

  // ---------------------------------------------------------------------
  // The sidebar filters

  /** The sidebar choices: a student id or "All", two date ranges (empty
      for none, a start and an end otherwise) and the payment methods. */
  datatype Selection = Selection(student: string, invoiceDates: seq<int>, paymentDates: seq<int>, methods: seq<string>)

  datatype Filtered = Filtered(invoices: seq<InvoiceView>, payments: seq<Receipt>)

  /** A range the unpacking into start and end accepts, or no range. */
  predicate RangeShape(range: seq<int>) {
    |range| == 0 || |range| == 2
  }

  predicate StudentSelected(sel: string, id: string) {
    sel == "All" || id == sel
  }

  /** Inclusive at both ends; no range selects every date. */
  predicate InRange(range: seq<int>, d: int) {
    |range| != 2 || range[0] <= d <= range[1]
  }

  predicate MethodSelected(methods: seq<string>, m: string) {
    methods == [] || "All" in methods || m in methods
  }

  /** Applies the mask only when the filter is switched on. */
  function FilterWhen<T(!new)>(on: bool, s: seq<T>, p: T -> bool): (r: seq<T>)
    ensures forall x :: x in r <==> x in s && (on ==> p(x))
    ensures forall x :: multiset(r)[x] == if on ==> p(x) then multiset(s)[x] else 0
    ensures IsSubsequence(r, s)
  {
    if on then Filter(s, p)
    else
      SubsequenceReflexive(s);
      s
  }

  /** An invoice row that passes the student and invoice-date filters. */
  predicate InvoiceKept(sel: Selection, x: InvoiceView) {
    StudentSelected(sel.student, x.invoice.idStudent) && InRange(sel.invoiceDates, x.invoice.tanggal)
  }

  /** A payment that passes the student, payment-date and method filters. */
  predicate PaymentKept(sel: Selection, p: Receipt) {
    StudentSelected(sel.student, p.idStudent) && InRange(sel.paymentDates, p.tanggal)
    && MethodSelected(sel.methods, p.metodePembayaran)
  }

  /** The invoice side of `filter_data`: by student, then by date. */
  function InvoiceFilter(rows: seq<InvoiceView>, sel: Selection): (r: seq<InvoiceView>)
    ensures IsSubsequence(r, rows)
    ensures forall x :: x in r <==> x in rows && InvoiceKept(sel, x)
    ensures forall x :: multiset(r)[x] == if InvoiceKept(sel, x) then multiset(rows)[x] else 0
  {
    var inv1 := FilterWhen(sel.student != "All", rows, (x: InvoiceView) => x.invoice.idStudent == sel.student);
    var inv2 := FilterWhen(|sel.invoiceDates| == 2, inv1, (x: InvoiceView) => InRange(sel.invoiceDates, x.invoice.tanggal));
    SubsequenceTransitive(inv2, inv1, rows);
    inv2
  }

  /** The payment side of `filter_data`: by student, by date, then by
      method. */
  function PaymentFilter(payments: seq<Receipt>, sel: Selection): (r: seq<Receipt>)
    ensures IsSubsequence(r, payments)
    ensures forall p :: p in r <==> p in payments && PaymentKept(sel, p)
    ensures forall p :: multiset(r)[p] == if PaymentKept(sel, p) then multiset(payments)[p] else 0
  {
    var pay1 := FilterWhen(sel.student != "All", payments, (p: Receipt) => p.idStudent == sel.student);
    var pay2 := FilterWhen(|sel.paymentDates| == 2, pay1, (p: Receipt) => InRange(sel.paymentDates, p.tanggal));
    var pay3 := FilterWhen(sel.methods != [] && "All" !in sel.methods, pay2,
                           (p: Receipt) => p.metodePembayaran in sel.methods);
    SubsequenceTransitive(pay3, pay2, pay1);
    SubsequenceTransitive(pay3, pay1, payments);
    pay3
  }

  /** `filter_data`: the student filter, the invoice date range, the
      payment date range and the payment methods, in that order. A date
      range of any length other than 0 or 2 cannot be unpacked and the call
      fails. What is kept keeps its order and each kept row appears as
      often as in the input. */
  function FilterData(rows: seq<InvoiceView>, payments: seq<Receipt>, sel: Selection): (r: Option<Filtered>)
    ensures r.None? <==> !RangeShape(sel.invoiceDates) || !RangeShape(sel.paymentDates)
    ensures r.Some? ==> IsSubsequence(r.value.invoices, rows) && IsSubsequence(r.value.payments, payments)
    ensures r.Some? ==> forall x :: x in r.value.invoices <==> x in rows && InvoiceKept(sel, x)
    ensures r.Some? ==> forall p :: p in r.value.payments <==> p in payments && PaymentKept(sel, p)
    ensures r.Some? ==> forall x :: multiset(r.value.invoices)[x] == (if InvoiceKept(sel, x) then multiset(rows)[x] else 0)
    ensures r.Some? ==> forall p :: multiset(r.value.payments)[p] == (if PaymentKept(sel, p) then multiset(payments)[p] else 0)
  {
    if !RangeShape(sel.invoiceDates) || !RangeShape(sel.paymentDates) then None
    else Some(Filtered(InvoiceFilter(rows, sel), PaymentFilter(payments, sel)))
  }

  // ---------------------------------------------------------------------
  // Summary figures

  /** Sum of the invoice totals. */
  function TotalInvoiced(rows: seq<InvoiceView>): int
    decreases |rows|
  {
    if rows == [] then 0 else rows[0].invoice.total + TotalInvoiced(rows[1..])
  }

  /** Sum of the paid totals; a missing one adds nothing. */
  function TotalPaid(rows: seq<InvoiceView>): int
    decreases |rows|
  {
    if rows == [] then 0 else PaidOrZero(rows[0].invoice) + TotalPaid(rows[1..])
  }

  /** Sum of the outstanding amounts that are positive. */
  function TotalOutstanding(rows: seq<InvoiceView>): (r: int)
    ensures r >= 0
    decreases |rows|
  {
    if rows == [] then 0
    else (if Owing(rows[0]) then rows[0].outstanding.value else 0) + TotalOutstanding(rows[1..])
  }

  /** Sum of the overpayment column. */
  function TotalOverpaid(rows: seq<InvoiceView>): int
    decreases |rows|
  {
    if rows == [] then 0 else rows[0].overpayment + TotalOverpaid(rows[1..])
  }

  /** Sum of the totals of the invoices that have no paid total. */
  function UnpaidInvoiced(rows: seq<InvoiceView>): int
    decreases |rows|
  {
    if rows == [] then 0
    else (if rows[0].invoice.jumlahPembayaran.None? then rows[0].invoice.total else 0) + UnpaidInvoiced(rows[1..])
  }

  predicate Owing(x: InvoiceView) {
    x.outstanding.Some? && x.outstanding.value > 0
  }

  /** The four KPI figures. */
  datatype Kpis = Kpis(invoiced: int, paid: int, outstanding: int, overpaid: int)

  function SummaryKpis(rows: seq<InvoiceView>): (k: Kpis)
    ensures k.outstanding >= 0
    ensures k.invoiced == TotalInvoiced(rows) && k.paid == TotalPaid(rows)
    ensures k.outstanding == TotalOutstanding(rows) && k.overpaid == TotalOverpaid(rows)
  {
    Kpis(TotalInvoiced(rows), TotalPaid(rows), TotalOutstanding(rows), TotalOverpaid(rows))
  }

  /** The figures balance: what was invoiced but not paid is what is still
      owed minus what was paid too much, plus the invoices with no paid
      total at all. */
  lemma {:induction false} KpiBalance(rows: seq<InvoiceView>)
    requires forall x :: x in rows ==> Derived(x)
    ensures var k := SummaryKpis(rows);
            && k.overpaid >= 0
            && k.invoiced - k.paid == k.outstanding - k.overpaid + UnpaidInvoiced(rows)
    decreases |rows|
  {
    if rows != [] {
      assert Derived(rows[0]) by { assert rows[0] in rows; }
      assert forall x :: x in rows[1..] ==> x in rows;
      KpiBalance(rows[1..]);
    }
  }

  // ---------------------------------------------------------------------
  // Rankings by student

  /** The grouping key `(id_student, name)`; rows without a name are
      dropped by the grouping. */
  function NamedRows(rows: seq<InvoiceView>): (r: seq<InvoiceView>)
    ensures forall x :: x in r <==> x in rows && x.name.Some?
    ensures forall x :: multiset(r)[x] == if x.name.Some? then multiset(rows)[x] else 0
  {
    Filter(rows, (x: InvoiceView) => x.name.Some?)
  }

  function GroupKey(x: InvoiceView): (string, string)
    requires x.name.Some?
  {
    (x.invoice.idStudent, x.name.value)
  }

  /** Each named row's key paired with its overpayment. */
  function OverpaymentPairs(rows: seq<InvoiceView>): (r: seq<((string, string), int)>)
    requires forall x :: x in rows ==> x.name.Some?
    ensures |r| == |rows|
    ensures forall i :: 0 <= i < |rows| ==> r[i] == (GroupKey(rows[i]), rows[i].overpayment)
    decreases |rows|
  {
    if rows == [] then []
    else [(GroupKey(rows[0]), rows[0].overpayment)] + OverpaymentPairs(rows[1..])
  }

  /** Each named row's key paired with its outstanding amount; a missing
      amount adds nothing to the sum. */
  function OutstandingPairs(rows: seq<InvoiceView>): (r: seq<((string, string), int)>)
    requires forall x :: x in rows ==> x.name.Some?
    ensures |r| == |rows|
    ensures forall i :: 0 <= i < |rows| ==>
              && r[i].0 == GroupKey(rows[i])
              && (rows[i].outstanding.Some? ==> r[i].1 == rows[i].outstanding.value)
              && (rows[i].outstanding.None? ==> r[i].1 == 0)
    decreases |rows|
  {
    if rows == [] then []
    else [(GroupKey(rows[0]), match rows[0].outstanding case None => 0 case Some(o) => o)] + OutstandingPairs(rows[1..])
  }

  /** The overpaid students table: the overpayment summed per student,
      only positive sums, largest first. */
  function OverpaidStudents(rows: seq<InvoiceView>): (r: seq<((string, string), int)>)
    ensures SortedDesc(r) && KeysDistinct(r)
    ensures forall i :: 0 <= i < |r| ==> r[i].1 > 0 && r[i].1 == SumFor(OverpaymentPairs(NamedRows(rows)), r[i].0)
    ensures forall k :: k in KeySet(r) <==> SumFor(OverpaymentPairs(NamedRows(rows)), k) > 0 && k in KeySet(OverpaymentPairs(NamedRows(rows)))
  {
    var ps := OverpaymentPairs(NamedRows(rows));
    var r := PositiveRanked(ps);
    assert forall i :: 0 <= i < |r| ==> r[i].0 in KeySet(r);
    r
  }

  /** A student is listed as overpaid exactly when one of their named
      invoice rows carries an overpayment. */
  lemma OverpaidStudentsIff(rows: seq<InvoiceView>, k: (string, string))
    requires forall x :: x in rows ==> Derived(x)
    ensures k in KeySet(OverpaidStudents(rows)) <==>
              exists x :: x in rows && x.name.Some? && GroupKey(x) == k && x.overpayment > 0
  {
    var named := NamedRows(rows);
    var ps := OverpaymentPairs(named);
    PairsNonNegative(rows);
    SumForPositive(ps, k);
    PairsWitness(rows, k);
  }

  lemma PairsNonNegative(rows: seq<InvoiceView>)
    requires forall x :: x in rows ==> Derived(x)
    ensures var ps := OverpaymentPairs(NamedRows(rows));
            forall i :: 0 <= i < |ps| ==> ps[i].1 >= 0
  {
    var named := NamedRows(rows);
    forall i | 0 <= i < |named| ensures named[i].overpayment >= 0 {
      assert named[i] in rows;
    }
  }

  /** Entry i of the overpayment pairs comes from named row i. */
  lemma PairAt(rows: seq<InvoiceView>, i: nat)
    requires i < |NamedRows(rows)|
    ensures var named := NamedRows(rows);
            && named[i] in rows && named[i].name.Some?
            && i < |OverpaymentPairs(named)|
            && OverpaymentPairs(named)[i] == (GroupKey(named[i]), named[i].overpayment)
  {
    assert NamedRows(rows)[i] in NamedRows(rows);
  }

  lemma PairsWitness(rows: seq<InvoiceView>, k: (string, string))
    ensures var ps := OverpaymentPairs(NamedRows(rows));
            (exists i :: 0 <= i < |ps| && ps[i].0 == k && ps[i].1 > 0) <==>
            (exists x :: x in rows && x.name.Some? && GroupKey(x) == k && x.overpayment > 0)
    ensures var ps := OverpaymentPairs(NamedRows(rows));
            (exists i :: 0 <= i < |ps| && ps[i].0 == k && ps[i].1 > 0) ==> k in KeySet(ps)
  {
    var named := NamedRows(rows);
    var ps := OverpaymentPairs(named);
    if exists x :: x in rows && x.name.Some? && GroupKey(x) == k && x.overpayment > 0 {
      var x :| x in rows && x.name.Some? && GroupKey(x) == k && x.overpayment > 0;
      assert x in named;
      var i :| 0 <= i < |named| && named[i] == x;
      PairAt(rows, i);
      assert ps[i].0 == k && ps[i].1 > 0;
    }
    if exists i :: 0 <= i < |ps| && ps[i].0 == k && ps[i].1 > 0 {
      var i :| 0 <= i < |ps| && ps[i].0 == k && ps[i].1 > 0;
      PairAt(rows, i);
      var x := named[i];
      assert x in rows && x.name.Some? && GroupKey(x) == k && x.overpayment > 0;
      assert k in KeySet(ps);
    }
  }

  /** The top-customers table: the outstanding amount summed per student,
      largest first, at most ten; a student left out has a sum no larger
      than any listed one. */
  function TopCustomers(rows: seq<InvoiceView>): (r: seq<((string, string), int)>)
    ensures |r| <= 10 && SortedDesc(r) && KeysDistinct(r)
    ensures KeySet(r) <= KeySet(OutstandingPairs(NamedRows(rows)))
    ensures forall i :: 0 <= i < |r| ==> r[i].1 == SumFor(OutstandingPairs(NamedRows(rows)), r[i].0)
    ensures forall k :: k in KeySet(OutstandingPairs(NamedRows(rows))) && k !in KeySet(r) ==>
              |r| == 10 && forall i :: 0 <= i < |r| ==> SumFor(OutstandingPairs(NamedRows(rows)), k) <= r[i].1
  {
    TopN(OutstandingPairs(NamedRows(rows)), 10)
  }

  // ---------------------------------------------------------------------
  // Aging

  /** The bucket edges; a bucket includes its left edge and excludes its
      right one. */
  const AgingEdges: seq<int> := [0, 30, 60, 90, 120, 9999]
  const AgingLabels: seq<string> := ["0-30", "31-60", "61-90", "91-120", "120+"]

  /** The bucket of a number of days overdue, or none outside the edges. */
  function AgingBucket(days: int): (b: Option<nat>)
    ensures b.Some? <==> AgingEdges[0] <= days < AgingEdges[5]
    ensures b.Some? ==> b.value < 5 && AgingEdges[b.value] <= days < AgingEdges[b.value + 1]
  {
    if days < 0 || days >= 9999 then None
    else if days < 30 then Some(0)
    else if days < 60 then Some(1)
    else if days < 90 then Some(2)
    else if days < 120 then Some(3)
    else Some(4)
  }

  /** `df_aging`: the rows with a positive outstanding amount. */
  function AgingFrame(rows: seq<InvoiceView>): (r: seq<InvoiceView>)
    ensures forall x :: x in r <==> x in rows && Owing(x)
    ensures forall x :: multiset(r)[x] == if Owing(x) then multiset(rows)[x] else 0
  {
    Filter(rows, (x: InvoiceView) => Owing(x))
  }

  /** Outstanding amount of the owing rows `today - tanggal` days old that
      fall in bucket `b`. */
  function BucketTotal(rows: seq<InvoiceView>, today: int, b: nat): (r: int)
    ensures r >= 0
    decreases |rows|
  {
    if rows == [] then 0
    else
      (if Owing(rows[0]) && AgingBucket(today - rows[0].invoice.tanggal) == Some(b) then rows[0].outstanding.value else 0)
      + BucketTotal(rows[1..], today, b)
  }

  /** The aging summary: one outstanding sum per bucket, in bucket order,
      over the aging frame. */
  function AgingSummary(rows: seq<InvoiceView>, today: int): (r: seq<int>)
    ensures |r| == |AgingLabels|
    ensures forall b :: 0 <= b < |r| ==> r[b] >= 0
  {
    var f := AgingFrame(rows);
    [BucketTotal(f, today, 0), BucketTotal(f, today, 1), BucketTotal(f, today, 2),
     BucketTotal(f, today, 3), BucketTotal(f, today, 4)]
  }

  function SumOf(xs: seq<int>): int
    decreases |xs|
  {
    if xs == [] then 0 else xs[0] + SumOf(xs[1..])
  }

  lemma {:induction false} BucketsCover(rows: seq<InvoiceView>, today: int)
    ensures var t := BucketTotal(rows, today, 0) + BucketTotal(rows, today, 1) + BucketTotal(rows, today, 2)
                   + BucketTotal(rows, today, 3) + BucketTotal(rows, today, 4);
            && t <= TotalOutstanding(rows)
            && ((forall x :: x in rows ==> 0 <= today - x.invoice.tanggal < 9999) ==> t == TotalOutstanding(rows))
    decreases |rows|
  {
    if rows != [] {
      assert forall x :: x in rows[1..] ==> x in rows;
      BucketsCover(rows[1..], today);
    }
  }

  lemma {:induction false} AgingFrameTotal(rows: seq<InvoiceView>)
    ensures TotalOutstanding(AgingFrame(rows)) == TotalOutstanding(rows)
    decreases |rows|
  {
    if rows != [] {
      AgingFrameTotal(rows[1..]);
    }
  }

  lemma SumOfFive(a: int, b: int, c: int, d: int, e: int)
    ensures SumOf([a, b, c, d, e]) == a + b + c + d + e
  {
    assert [a, b, c, d, e][1..] == [b, c, d, e];
    assert [b, c, d, e][1..] == [c, d, e];
    assert [c, d, e][1..] == [d, e];
    assert [d, e][1..] == [e];
    assert SumOf([e]) == e;
    assert SumOf([d, e]) == d + e;
    assert SumOf([c, d, e]) == c + d + e;
    assert SumOf([b, c, d, e]) == b + c + d + e;
  }

  /** The buckets never hold more than the total outstanding figure, and
      hold all of it when every owing invoice is between 0 and 9998 days
      old. */
  lemma AgingTotal(rows: seq<InvoiceView>, today: int)
    ensures SumOf(AgingSummary(rows, today)) <= TotalOutstanding(rows)
    ensures (forall x :: x in rows && Owing(x) ==> 0 <= today - x.invoice.tanggal < 9999) ==>
              SumOf(AgingSummary(rows, today)) == TotalOutstanding(rows)
  {
    var f := AgingFrame(rows);
    BucketsCover(f, today);
    AgingFrameTotal(rows);
    SumOfFive(BucketTotal(f, today, 0), BucketTotal(f, today, 1), BucketTotal(f, today, 2),
              BucketTotal(f, today, 3), BucketTotal(f, today, 4));
  }

  // ---------------------------------------------------------------------
  // Status labels

  /** `invoice_status_no_due` as written: a missing outstanding amount
      compares false everywhere and falls through to "Overpaid". */
  function StatusNoDue(outstanding: Option<int>, total: int): (s: string)
    ensures s == "Paid" <==> outstanding == Some(0)
    ensures s == "Unpaid" <==> outstanding.Some? && outstanding.value != 0 && outstanding.value == total
    ensures s == "Partially Paid" <==> outstanding.Some? && outstanding.value != total && 0 < outstanding.value < total
    ensures s == "Overpaid" <==>
              outstanding.None? || (outstanding.value != 0 && outstanding.value != total && !(0 < outstanding.value < total))
  {
    if outstanding.Some? && outstanding.value == 0 then "Paid"
    else if outstanding.Some? && outstanding.value == total then "Unpaid"
    else if outstanding.Some? && 0 < outstanding.value < total then "Partially Paid"
    else "Overpaid"
  }

  predicate IsStatusLabel(s: string) {
    s == "Paid" || s == "Unpaid" || s == "Partially Paid" || s == "Overpaid"
  }

  /** The paid total, 0 when there is none. */
  function PaidOrZero(v: Invoice): (p: int)
    ensures v.jumlahPembayaran.Some? ==> p == v.jumlahPembayaran.value
    ensures v.jumlahPembayaran.None? ==> p == 0
  {
    match v.jumlahPembayaran
    case None => 0
    case Some(paid) => paid
  }

  /** An invoice that has received nothing is labelled "Overpaid" by the
      rule as written, while the ledger calls it "Belum Lunas". */
  lemma UnpaidShownOverpaid(v: Invoice)
    requires v.jumlahPembayaran.None? && v.total > 0
    ensures StatusNoDue(Outstanding(v), v.total) == "Overpaid"
    ensures Reconcile.SettlementStatus(v.total, PaidOrZero(v)) == "Belum Lunas"
  {
  }

  /** The status label with a missing paid total read as nothing paid. */
  function InvoiceStatus(v: Invoice): (s: string)
    ensures v.jumlahPembayaran.None? && v.total > 0 ==> s == "Unpaid"
    ensures IsStatusLabel(s)
  {
    StatusNoDue(Some(v.total - PaidOrZero(v)), v.total)
  }

  /** For non-negative amounts the label agrees with the ledger's
      three-way status: "Paid" with "Lunas", "Overpaid" with "Over Paid",
      and "Unpaid" or "Partially Paid" with "Belum Lunas". */
  lemma InvoiceStatusAgrees(v: Invoice)
    requires v.total >= 0 && PaidOrZero(v) >= 0
    ensures var s := InvoiceStatus(v);
            var t := Reconcile.SettlementStatus(v.total, PaidOrZero(v));
            && (s == "Paid" <==> t == "Lunas")
            && (s == "Overpaid" <==> t == "Over Paid")
            && (s == "Unpaid" || s == "Partially Paid" <==> t == "Belum Lunas")
  {
  }

  /** The status breakdown as the dashboard draws it: the labels of
      `invoice_status_no_due` counted, most frequent first. */
  function StatusBreakdown(rows: seq<InvoiceView>): (r: seq<(string, int)>)
    ensures SortedDesc(r) && KeysDistinct(r)
    ensures forall i :: 0 <= i < |r| ==> IsStatusLabel(r[i].0)
    ensures forall i :: 0 <= i < |r| ==> r[i].1 == multiset(Labels(rows))[r[i].0] && r[i].1 > 0
  {
    var ls := Labels(rows);
    var r := ValueCounts(ls);
    forall i | 0 <= i < |r| ensures IsStatusLabel(r[i].0) && multiset(ls)[r[i].0] > 0 {
      assert r[i].0 in KeySet(r);
      var j :| 0 <= j < |ls| && ls[j] == r[i].0;
    }
    r
  }

  /** Each row's label, from its own outstanding column and total. */
  function Labels(rows: seq<InvoiceView>): (ls: seq<string>)
    ensures |ls| == |rows|
    ensures forall i :: 0 <= i < |rows| ==> ls[i] == StatusNoDue(rows[i].outstanding, rows[i].invoice.total)
    ensures forall i :: 0 <= i < |rows| ==> IsStatusLabel(ls[i])
    decreases |rows|
  {
    if rows == [] then [] else [StatusNoDue(rows[0].outstanding, rows[0].invoice.total)] + Labels(rows[1..])
  }

  /** The breakdown with the corrected label. */
  function CorrectedStatusBreakdown(rows: seq<InvoiceView>): (r: seq<(string, int)>)
    ensures SortedDesc(r) && KeysDistinct(r)
    ensures forall i :: 0 <= i < |r| ==> IsStatusLabel(r[i].0)
    ensures forall i :: 0 <= i < |r| ==> r[i].1 == multiset(CorrectedLabels(rows))[r[i].0] && r[i].1 > 0
  {
    var ls := CorrectedLabels(rows);
    var r := ValueCounts(ls);
    forall i | 0 <= i < |r| ensures IsStatusLabel(r[i].0) && multiset(ls)[r[i].0] > 0 {
      assert r[i].0 in KeySet(r);
      var j :| 0 <= j < |ls| && ls[j] == r[i].0;
    }
    r
  }

  function CorrectedLabels(rows: seq<InvoiceView>): (ls: seq<string>)
    ensures |ls| == |rows|
    ensures forall i :: 0 <= i < |rows| ==> ls[i] == InvoiceStatus(rows[i].invoice)
    decreases |rows|
  {
    if rows == [] then [] else [InvoiceStatus(rows[0].invoice)] + CorrectedLabels(rows[1..])
  }

  /** On a derived row the label as written and the corrected one differ
      exactly when the row has no outstanding amount; the one as written
      then says "Overpaid" where the corrected one says "Unpaid" (or
      "Paid" for an invoice of total 0). */
  lemma LabelDiffers(x: InvoiceView)
    requires Derived(x)
    ensures StatusNoDue(x.outstanding, x.invoice.total) == InvoiceStatus(x.invoice) <==> x.outstanding.Some?
    ensures x.outstanding.None? ==> StatusNoDue(x.outstanding, x.invoice.total) == "Overpaid"
    ensures x.outstanding.None? ==> InvoiceStatus(x.invoice) == (if x.invoice.total == 0 then "Paid" else "Unpaid")
  {
  }

  /** The two breakdowns count the same labels row for row except on the
      rows without an outstanding amount, and coincide when there are none. */
  lemma {:induction false} BreakdownsDiffer(rows: seq<InvoiceView>)
    requires forall x :: x in rows ==> Derived(x)
    ensures forall i :: 0 <= i < |rows| ==> (Labels(rows)[i] == CorrectedLabels(rows)[i] <==> rows[i].outstanding.Some?)
    ensures (forall x :: x in rows ==> x.outstanding.Some?) ==> StatusBreakdown(rows) == CorrectedStatusBreakdown(rows)
  {
    forall i | 0 <= i < |rows| ensures Labels(rows)[i] == CorrectedLabels(rows)[i] <==> rows[i].outstanding.Some? {
      assert rows[i] in rows;
      LabelDiffers(rows[i]);
    }
    if forall x :: x in rows ==> x.outstanding.Some? {
      forall i | 0 <= i < |rows| ensures Labels(rows)[i] == CorrectedLabels(rows)[i] {
        assert rows[i] in rows;
      }
      assert Labels(rows) == CorrectedLabels(rows);
    }
  }
}
