/**
 * The `PaymentDetails` record both page variants build from the query
 * string: eight optional strings, the extraction that fills them, the
 * truthiness test that gates the sync, and the (name, value) entries that
 * the continue handoff forwards.
 */
module Payment {
  import opened Wrappers
  import FormUrlencoded

  type Tuples = FormUrlencoded.Tuples

  /** The record's fields, in the order the interface declares them. */
  datatype Field =
    | SubscriptionId | PlanName | InvoiceAmount | Email
    | RecurringCharges | TransactionId | PaymentId | InvoiceNumber

  const Fields: seq<Field> := [SubscriptionId, PlanName, InvoiceAmount, Email,
                               RecurringCharges, TransactionId, PaymentId, InvoiceNumber]

  /** Position of a field in declaration order. */
  function Rank(f: Field): (r: nat)
    ensures r < |Fields| && Fields[r] == f
  {
    match f
    case SubscriptionId => 0
    case PlanName => 1
    case InvoiceAmount => 2
    case Email => 3
    case RecurringCharges => 4
    case TransactionId => 5
    case PaymentId => 6
    case InvoiceNumber => 7
  }

  /** The property name the record uses, which is also the name the continue handoff sends. */
  function InternalName(f: Field): string {
    match f
    case SubscriptionId => "subscription_id"
    case PlanName => "plan_name"
    case InvoiceAmount => "invoice_amount"
    case Email => "email"
    case RecurringCharges => "recurring_charges"
    case TransactionId => "transaction_id"
    case PaymentId => "payment_id"
    case InvoiceNumber => "invoice_number"
  }

  /** The query key the extraction reads: the internal name, except for the two renamed fields. */
  function WireKey(f: Field): string {
    match f
    case PaymentId => "paymentnumber"
    case InvoiceNumber => "invoicenumber"
    case _ => InternalName(f)
  }

  predicate Renamed(f: Field) {
    f == PaymentId || f == InvoiceNumber
  }

  datatype PaymentDetails = PaymentDetails(
    subscriptionId: Option<string>,
    planName: Option<string>,
    invoiceAmount: Option<string>,
    email: Option<string>,
    recurringCharges: Option<string>,
    transactionId: Option<string>,
    paymentId: Option<string>,
    invoiceNumber: Option<string>)

  function Value(d: PaymentDetails, f: Field): Option<string> {
    match f
    case SubscriptionId => d.subscriptionId
    case PlanName => d.planName
    case InvoiceAmount => d.invoiceAmount
    case Email => d.email
    case RecurringCharges => d.recurringCharges
    case TransactionId => d.transactionId
    case PaymentId => d.paymentId
    case InvoiceNumber => d.invoiceNumber
  }

  /** The rank of the field a string names in declaration order, or |Fields| for a string that names no field. */
  function NameRank(k: string): (r: nat)
    ensures r <= |Fields|
    ensures r < |Fields| ==> InternalName(Fields[r]) == k
    ensures r == |Fields| ==> forall f :: InternalName(f) != k
  {
    if k == "subscription_id" then 0
    else if k == "plan_name" then 1
    else if k == "invoice_amount" then 2
    else if k == "email" then 3
    else if k == "recurring_charges" then 4
    else if k == "transaction_id" then 5
    else if k == "payment_id" then 6
    else if k == "invoice_number" then 7
    else 8
  }

  // ------------------------------------------------------------ extraction

  /** `v` is what `URLSearchParams.get(key)` returns: the first value under `key`, or null. */
  ghost predicate FirstValue(tuples: Tuples, key: string, v: Option<string>) {
    match v
    case None => forall i :: 0 <= i < |tuples| ==> tuples[i].0 != key
    case Some(s) => exists i :: 0 <= i < |tuples| && tuples[i] == (key, s)
                                && forall j :: 0 <= j < i ==> tuples[j].0 != key
  }

  /** The record built from the page's parameter list, one `get` per field under its wire key. */
  function Extract(params: Tuples): (d: PaymentDetails)
    ensures forall f :: FirstValue(params, WireKey(f), Value(d, f))
  {
    PaymentDetails(
      subscriptionId := FormUrlencoded.First(params, "subscription_id"),
      planName := FormUrlencoded.First(params, "plan_name"),
      invoiceAmount := FormUrlencoded.First(params, "invoice_amount"),
      email := FormUrlencoded.First(params, "email"),
      recurringCharges := FormUrlencoded.First(params, "recurring_charges"),
      transactionId := FormUrlencoded.First(params, "transaction_id"),
      paymentId := FormUrlencoded.First(params, "paymentnumber"),
      invoiceNumber := FormUrlencoded.First(params, "invoicenumber"))
  }

  /** The record for a page whose `window.location.search` is `search`. */
  function FromSearch(search: string): PaymentDetails {
    Extract(FormUrlencoded.Parse(search))
  }

  // ---------------------------------------------------------------- truthy

  /** JavaScript truthiness of a `string | null`: present and not the empty string. */
  predicate Truthy(v: Option<string>) {
    v.Some? && v.value != ""
  }

  /** A visit is valid when its `subscription_id` is truthy. */
  predicate IsValid(d: PaymentDetails) {
    Truthy(d.subscriptionId)
  }

  /** Validity depends on the `subscription_id` query key alone. */
  lemma ValidIffSubscriptionKey(params: Tuples)
    ensures IsValid(Extract(params)) <==>
      exists i :: 0 <= i < |params| && params[i].0 == "subscription_id" && params[i].1 != ""
                  && forall j :: 0 <= j < i ==> params[j].0 != "subscription_id"
  {
    assert FirstValue(params, WireKey(SubscriptionId), Value(Extract(params), SubscriptionId));
  }

  // --------------------------------------------------------------- entries

  /** `Object.entries(details)`: (property name, value) for every field, in declaration order. */
  function Entries(d: PaymentDetails): (r: seq<(string, Option<string>)>)
    ensures |r| == |Fields|
    ensures forall f :: r[Rank(f)] == (InternalName(f), Value(d, f))
    ensures forall i :: 0 <= i < |r| ==> NameRank(r[i].0) == i
  {
    var r := seq(|Fields|, i requires 0 <= i < |Fields| => (InternalName(Fields[i]), Value(d, Fields[i])));
    assert forall i :: 0 <= i < |r| ==> NameRank(r[i].0) == i by {
      forall i | 0 <= i < |r| ensures NameRank(r[i].0) == i {
        assert r[i].0 == InternalName(Fields[i]);
      }
    }
    r
  }

  /** The entries whose value is truthy, null and empty values dropped, order kept. */
  function TruthyPairs(entries: seq<(string, Option<string>)>): (r: Tuples)
    ensures |r| <= |entries|
    decreases |entries|
  {
    if entries == [] then []
    else
      var last := entries[|entries| - 1];
      TruthyPairs(entries[..|entries| - 1])
        + (if Truthy(last.1) then [(last.0, last.1.value)] else [])
  }

  /** Filtering one more entry keeps what was kept and adds that entry's pair when its value is truthy. */
  lemma TruthyPairsSnoc(entries: seq<(string, Option<string>)>, x: (string, Option<string>))
    ensures TruthyPairs(entries + [x]) == TruthyPairs(entries) + (if Truthy(x.1) then [(x.0, x.1.value)] else [])
  {
    assert (entries + [x])[..|entries|] == entries;
  }

  /** A pair is kept if and only if some entry carries it with a truthy value. */
  lemma {:induction false} TruthyPairsMembers(entries: seq<(string, Option<string>)>, k: string, v: string)
    ensures (k, v) in TruthyPairs(entries) <==>
      exists i :: 0 <= i < |entries| && entries[i] == (k, Some(v)) && v != ""
    decreases |entries|
  {
    if entries != [] {
      var init := entries[..|entries| - 1];
      TruthyPairsMembers(init, k, v);
      assert forall i :: 0 <= i < |init| ==> init[i] == entries[i];
    }
  }

  /** Every kept pair's name is the name of some entry. */
  lemma {:induction false} TruthyPairsNames(entries: seq<(string, Option<string>)>, m: nat)
    requires m < |TruthyPairs(entries)|
    ensures exists i :: 0 <= i < |entries| && entries[i].0 == TruthyPairs(entries)[m].0
    decreases |entries|
  {
    var init := entries[..|entries| - 1];
    if m < |TruthyPairs(init)| {
      TruthyPairsNames(init, m);
      var i :| 0 <= i < |init| && init[i].0 == TruthyPairs(init)[m].0;
      assert entries[i] == init[i];
    } else {
      assert TruthyPairs(entries)[m].0 == entries[|entries| - 1].0;
    }
  }

  /** Filtering keeps entries whose names are in strictly increasing rank in that order. */
  lemma {:induction false} TruthyPairsOrdered(entries: seq<(string, Option<string>)>)
    requires forall i, j :: 0 <= i < j < |entries| ==> NameRank(entries[i].0) < NameRank(entries[j].0)
    ensures forall i, j :: 0 <= i < j < |TruthyPairs(entries)| ==>
      NameRank(TruthyPairs(entries)[i].0) < NameRank(TruthyPairs(entries)[j].0)
    decreases |entries|
  {
    if entries != [] {
      var init := entries[..|entries| - 1];
      var last := entries[|entries| - 1];
      TruthyPairsOrdered(init);
      var r, p := TruthyPairs(entries), TruthyPairs(init);
      forall i, j | 0 <= i < j < |r| ensures NameRank(r[i].0) < NameRank(r[j].0) {
        if j < |p| {
          assert r[i] == p[i] && r[j] == p[j];
        } else {
          assert r[i] == p[i] && r[j].0 == last.0;
          TruthyPairsNames(init, i);
          var n :| 0 <= n < |init| && init[n].0 == p[i].0;
          assert entries[n] == init[n];
        }
      }
    }
  }

  /** The (name, value) pairs the continue handoff forwards. */
  function ContinuePairs(d: PaymentDetails): Tuples {
    TruthyPairs(Entries(d))
  }

  /** A field's pair is forwarded if and only if the field is truthy, and then with the field's value. */
  lemma ContinuePairsMembers(d: PaymentDetails, f: Field, v: string)
    ensures (InternalName(f), v) in ContinuePairs(d) <==> Truthy(Value(d, f)) && Value(d, f) == Some(v)
  {
    var e := Entries(d);
    TruthyPairsMembers(e, InternalName(f), v);
    if (InternalName(f), v) in TruthyPairs(e) {
      var i :| 0 <= i < |e| && e[i] == (InternalName(f), Some(v)) && v != "";
      assert NameRank(InternalName(f)) == i;
      assert Fields[Rank(f)] == f;
    } else {
      assert e[Rank(f)] == (InternalName(f), Value(d, f));
    }
  }

  /**
   * The forwarded pairs are exactly the truthy fields under their internal
   * names, each name once, in declaration order.
   */
  lemma ContinuePairsSpec(d: PaymentDetails)
    ensures forall f, v :: (InternalName(f), v) in ContinuePairs(d) <==> Truthy(Value(d, f)) && Value(d, f) == Some(v)
    ensures forall i :: 0 <= i < |ContinuePairs(d)| ==> NameRank(ContinuePairs(d)[i].0) < |Fields|
    ensures forall i, j :: 0 <= i < j < |ContinuePairs(d)| ==>
      NameRank(ContinuePairs(d)[i].0) < NameRank(ContinuePairs(d)[j].0)
  {
    var e := Entries(d);
    TruthyPairsOrdered(e);
    forall f, v ensures (InternalName(f), v) in ContinuePairs(d) <==> Truthy(Value(d, f)) && Value(d, f) == Some(v) {
      ContinuePairsMembers(d, f, v);
    }
    forall m | 0 <= m < |ContinuePairs(d)| ensures NameRank(ContinuePairs(d)[m].0) < |Fields| {
      TruthyPairsNames(e, m);
      var i :| 0 <= i < |e| && e[i].0 == TruthyPairs(e)[m].0;
    }
  }

  /** No wire key of a renamed field is the internal name of any field. */
  lemma RenamedKeysUnsent(f: Field, g: Field)
    requires Renamed(f)
    ensures WireKey(f) != InternalName(g)
  {
  }
}
