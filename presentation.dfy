/**
 * What both page variants show on their success screen and the buttons a
 * screen can offer. Only the conditions that decide what appears are
 * modelled, not the markup.
 */
module Presentation {
  import opened Wrappers
  import opened Payment

  /** The buttons, named by their labels. */
  datatype Action = ContinueToApp | RetrySync | ChoosePlan

  /** The amount card and the optional detail rows of the success screen. */
  datatype Receipt = Receipt(amount: string, rows: seq<(string, string)>)

  /** `details.invoice_amount || '0.00'`. */
  function AmountPaid(d: PaymentDetails): (s: string)
    ensures s != ""
    ensures Truthy(d.invoiceAmount) ==> s == d.invoiceAmount.value
    ensures !Truthy(d.invoiceAmount) ==> s == "0.00"
  {
    if Truthy(d.invoiceAmount) then d.invoiceAmount.value else "0.00"
  }

  /** The detail rows, each labelled, in the order the screen lists them. */
  function DetailEntries(d: PaymentDetails): seq<(string, Option<string>)> {
    [("Plan Name", d.planName), ("Transaction ID", d.transactionId),
     ("Recurring", d.recurringCharges), ("Email", d.email)]
  }

  function ReceiptOf(d: PaymentDetails): Receipt {
    Receipt(AmountPaid(d), TruthyPairs(DetailEntries(d)))
  }

  /** A detail row is listed exactly when its field is truthy, and it shows the field's value. */
  lemma ReceiptRows(d: PaymentDetails, title: string, v: string)
    ensures (title, v) in ReceiptOf(d).rows <==>
      (title == "Plan Name" && d.planName == Some(v) && v != "")
      || (title == "Transaction ID" && d.transactionId == Some(v) && v != "")
      || (title == "Recurring" && d.recurringCharges == Some(v) && v != "")
      || (title == "Email" && d.email == Some(v) && v != "")
  {
    var e := DetailEntries(d);
    TruthyPairsMembers(e, title, v);
    if (title, v) in ReceiptOf(d).rows {
      var i :| 0 <= i < |e| && e[i] == (title, Some(v)) && v != "";
      assert i == 0 || i == 1 || i == 2 || i == 3;
    } else {
      assert e[0].0 == "Plan Name" && e[1].0 == "Transaction ID";
      assert e[2].0 == "Recurring" && e[3].0 == "Email";
    }
  }
}
