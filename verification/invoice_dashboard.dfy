/** The vendor's invoice table (`src/Pages/VendorInvoiceDashboard.js`): a list of
    monthly invoices, a "Pay Now" button on the pending ones, and the payment
    handler that marks invoices as paid. */
module InvoiceDashboard {

  datatype Invoice = Invoice(id: int, vendorName: string, month: string, redeemedCoupons: int, amount: int, status: string)

  const Paid: string := "Paid"
  const Pending: string := "Pending"

  const InitialInvoices: seq<Invoice> := [
    Invoice(1, "Vendor One", "April 2025", 30, 30, Pending),
    Invoice(2, "Vendor One", "March 2025", 25, 25, Paid)
  ]

  /** The row's action cell shows "Pay Now" only for a pending invoice. */
  predicate PayNowOffered(inv: Invoice) {
    inv.status == Pending
  }

  /** The status badge is green for a paid invoice, yellow for anything else. */
  predicate GreenBadge(inv: Invoice) {
    inv.status == Paid
  }

  /** Two invoices agree on every field except perhaps `status`. */
  predicate SameButStatus(a: Invoice, b: Invoice) {
    a.(status := b.status) == b
  }

  function MarkPaid(inv: Invoice, id: int): Invoice {
    if inv.id == id then inv.(status := Paid) else inv
  }

  /** `handlePayment(id)`: every invoice carrying `id` becomes paid; every other
      invoice, and every other field, is left as it was. */
  function HandlePayment(invoices: seq<Invoice>, id: int): (r: seq<Invoice>)
    ensures |r| == |invoices|
    ensures forall k :: 0 <= k < |r| ==> SameButStatus(r[k], invoices[k])
    ensures forall k :: 0 <= k < |r| ==> (r[k].status == if invoices[k].id == id then Paid else invoices[k].status)
  {
    seq(|invoices|, k requires 0 <= k < |invoices| => MarkPaid(invoices[k], id))
  }

  /** Paying twice for the same invoice changes nothing the second time. */
  lemma PaymentIdempotent(invoices: seq<Invoice>, id: int)
    ensures HandlePayment(HandlePayment(invoices, id), id) == HandlePayment(invoices, id)
  {
    var once := HandlePayment(invoices, id);
    var twice := HandlePayment(once, id);
    forall k | 0 <= k < |once| ensures twice[k] == once[k] {
      assert once[k].status == Paid || once[k].id != id;
    }
  }

  /** Payments for two invoices can be made in either order. */
  lemma PaymentsCommute(invoices: seq<Invoice>, a: int, b: int)
    ensures HandlePayment(HandlePayment(invoices, a), b) == HandlePayment(HandlePayment(invoices, b), a)
  {
    var ab := HandlePayment(HandlePayment(invoices, a), b);
    var ba := HandlePayment(HandlePayment(invoices, b), a);
    forall k | 0 <= k < |ab| ensures ab[k] == ba[k] {
      assert ab[k].status == ba[k].status;
    }
  }

  /** After paying `id`, "Pay Now" is offered on exactly the rows that offered it
      before and do not carry `id`; every paid row shows a green badge. */
  lemma PayNowAfterPayment(invoices: seq<Invoice>, id: int)
    ensures var r := HandlePayment(invoices, id);
      forall k :: 0 <= k < |r| ==> (PayNowOffered(r[k]) <==> PayNowOffered(invoices[k]) && invoices[k].id != id)
    ensures var r := HandlePayment(invoices, id);
      forall k :: 0 <= k < |r| && invoices[k].id == id ==> GreenBadge(r[k])
  {
  }

  /** On the initial list only the April invoice can be paid, and paying it leaves
      nothing to pay. */
  lemma InitialPayments()
    ensures PayNowOffered(InitialInvoices[0]) && !PayNowOffered(InitialInvoices[1])
    ensures forall k :: 0 <= k < |HandlePayment(InitialInvoices, 1)| ==> !PayNowOffered(HandlePayment(InitialInvoices, 1)[k])
  {
    var r := HandlePayment(InitialInvoices, 1);
    assert r[0].status == Paid && r[1].status == Paid;
  }
}
