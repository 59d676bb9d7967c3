/**
 * What a handler does to the outside world, recorded in order instead of
 * performed: a sync request posted with its body, or an assignment to
 * `window.location.href`, immediate or scheduled after a delay.
 */
module Effects {
  import Payment

  datatype Effect =
    | Post(url: string, body: Payment.PaymentDetails)
    | Navigate(url: string, delayMs: nat)
}
