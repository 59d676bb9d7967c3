/**
 * The earlier landing page (`App.tsx`): the same extraction, validity test
 * and automatic sync, but no retry, no web fallback, and a screen chosen
 * from `isValid` alone, so the sync status is written and never read.
 */
module EarlyLandingPage {
  import opened Wrappers
  import opened Payment
  import opened Sync
  import opened Effects
  import opened Handoff
  import opened Presentation

  datatype Screen =
    | Loading
    | PaymentSuccessful(receipt: Option<Receipt>)
    | SubscriptionFailed

  datatype View = View(screen: Screen, actions: seq<Action>)

  /** The screen and its buttons, from `isValid` and the record only. */
  function Render(details: Option<PaymentDetails>, isValid: Option<bool>): (v: View)
    ensures v.screen == Loading <==> isValid == None
    ensures v.screen.PaymentSuccessful? <==> isValid == Some(true)
    ensures v.screen == SubscriptionFailed <==> isValid == Some(false)
    ensures v.screen.PaymentSuccessful? ==>
      v.screen.receipt == (match details case None => None case Some(d) => Some(ReceiptOf(d)))
    ensures ContinueToApp in v.actions <==> isValid == Some(true)
    ensures ChoosePlan in v.actions <==> isValid == Some(false)
    ensures RetrySync !in v.actions
  {
    match isValid
    case None => View(Loading, [])
    case Some(valid) =>
      if valid then
        View(PaymentSuccessful(if details.Some? then Some(ReceiptOf(details.value)) else None), [ContinueToApp])
      else
        View(SubscriptionFailed, [ChoosePlan])
  }

  /** `handleContinue`'s one navigation: the app callback with the query, no fallback. */
  function ContinueNavigations(q: string): seq<Effect> {
    [Navigate(WithQuery(AppCallback, q), 0)]
  }

  /** `handleChoosePlan`'s one navigation: the bare app callback. */
  function ChoosePlanNavigations(): seq<Effect> {
    [Navigate(AppCallback, 0)]
  }

  /**
   * A valid visit shows "Payment Successful" whatever became of its sync,
   * where the later page shows its failure screen for every status but
   * `success` and `syncing`.
   */
  lemma SuccessShownDespiteSyncError(d: PaymentDetails)
    ensures Render(Some(d), Some(true)) == View(PaymentSuccessful(Some(ReceiptOf(d))), [ContinueToApp])
  {
  }

  /** The component's state and the effects it has issued so far. */
  class EarlyApp {
    var details: Option<PaymentDetails>
    var isValid: Option<bool>
    var syncStatus: SyncStatus
    var inFlight: bool
    var effects: seq<Effect>

    /**
     * As in the later page, and in addition: an invalid visit never leaves
     * `idle`, since nothing but the mount effect starts a sync.
     */
    ghost predicate Valid()
      reads this
    {
      && (isValid.Some? <==> details.Some?)
      && (details.Some? ==> isValid == Some(IsValid(details.value)))
      && (inFlight ==> syncStatus == Syncing)
      && (syncStatus != Idle ==> isValid == Some(true))
      && (forall e :: e in effects && e.Post? ==> e.url == SyncEndpoint && details == Some(e.body))
      && (isValid == Some(false) ==> forall e :: e in effects ==> !e.Post?)
    }

    function CurrentView(): View
      reads this
    {
      Render(details, isValid)
    }

    constructor ()
      ensures Valid()
      ensures details == None && isValid == None && syncStatus == Idle
      ensures !inFlight && effects == []
    {
      details := None;
      isValid := None;
      syncStatus := Idle;
      inFlight := false;
      effects := [];
    }

    /** The inner `syncSubscription`: `syncStatus := 'syncing'`, then the request with the record as its body. */
    method BeginSync()
      requires Valid() && details.Some? && isValid == Some(true)
      modifies this
      ensures Valid()
      ensures syncStatus == Syncing && inFlight
      ensures effects == old(effects) + [Post(SyncEndpoint, details.value)]
      ensures details == old(details) && isValid == old(isValid)
    {
      syncStatus := Syncing;
      effects := effects + [Post(SyncEndpoint, details.value)];
      inFlight := true;
    }

    /** The mount effect, as in the later page. */
    method Mount(search: string)
      requires Valid() && details == None
      modifies this
      ensures Valid()
      ensures details == Some(FromSearch(search))
      ensures isValid == Some(IsValid(FromSearch(search)))
      ensures IsValid(FromSearch(search)) ==>
        syncStatus == Syncing && inFlight
        && effects == old(effects) + [Post(SyncEndpoint, FromSearch(search))]
      ensures !IsValid(FromSearch(search)) ==>
        syncStatus == Idle && !inFlight && effects == old(effects)
    {
      var paymentDetails := FromSearch(search);
      assert forall e :: e in effects ==> !e.Post?;
      details := Some(paymentDetails);
      if Truthy(paymentDetails.subscriptionId) {
        isValid := Some(true);
        BeginSync();
      } else {
        isValid := Some(false);
      }
    }

    /** The automatic sync settles: success unless it threw. The body is never looked at. */
    method Complete(outcome: Outcome)
      requires Valid() && inFlight
      modifies this
      ensures Valid()
      ensures syncStatus == AutoSyncStatus(outcome) && !inFlight
      ensures details == old(details) && isValid == old(isValid) && effects == old(effects)
    {
      match outcome {
        case Throw => syncStatus := Error;
        case Resp(_) => syncStatus := Success;
      }
      inFlight := false;
    }

    /** `handleContinue`: without a record, nothing; with one, the single continue navigation. */
    method HandleContinue()
      requires Valid()
      modifies this`effects
      ensures Valid()
      ensures details.None? ==> effects == old(effects)
      ensures details.Some? ==> effects == old(effects) + ContinueNavigations(ContinueQuery(details.value))
    {
      if details.None? {
        return;
      }
      var q := BuildContinueQuery(details.value);
      effects := effects + [Navigate(WithQuery(AppCallback, q), 0)];
    }

    method HandleChoosePlan()
      requires Valid()
      modifies this`effects
      ensures Valid()
      ensures effects == old(effects) + ChoosePlanNavigations()
    {
      effects := effects + [Navigate(AppCallback, 0)];
    }

    /**
     * A click on a button the current screen shows. The only handlers
     * navigate; none touches the sync, so `success` and `error` are final.
     */
    method Click(a: Action)
      requires Valid()
      requires a in CurrentView().actions
      modifies this`effects
      ensures Valid()
      ensures syncStatus == old(syncStatus) && inFlight == old(inFlight)
      ensures a == ContinueToApp ==> effects == old(effects) + ContinueNavigations(ContinueQuery(details.value))
      ensures a == ChoosePlan ==> effects == old(effects) + ChoosePlanNavigations()
    {
      match a {
        case ContinueToApp => HandleContinue();
        case ChoosePlan => HandleChoosePlan();
      }
    }
  }
}
