/**
 * The later landing page (`src/App.tsx`): extraction and validity on mount,
 * an automatic sync that accepts any response, a retry that demands an
 * acknowledgement, continue and choose-plan handoffs with a web fallback,
 * and a screen chosen from `isValid` and `syncStatus`.
 */
module LandingPage {
  import opened Wrappers
  import opened Payment
  import opened Sync
  import opened Effects
  import opened Handoff
  import opened Presentation

  datatype FailureReason = CouldNotVerify | InvalidDetails

  datatype Screen =
    | Loading
    | Verifying
    | PaymentSuccessful(receipt: Option<Receipt>)
    | SyncFailed(reason: FailureReason)

  datatype View = View(screen: Screen, actions: seq<Action>)

  /**
   * The screen and its buttons. `isValid == None` is the parameter check
   * still pending; the receipt is shown only once the record is set.
   */
  function Render(details: Option<PaymentDetails>, isValid: Option<bool>, status: SyncStatus): (v: View)
    ensures v.screen == Loading <==> isValid == None
    ensures v.screen == Verifying <==> isValid == Some(true) && status == Syncing
    ensures v.screen.PaymentSuccessful? <==> isValid == Some(true) && status == Success
    ensures v.screen.SyncFailed? <==>
      isValid == Some(false) || (isValid == Some(true) && (status == Idle || status == Error))
    ensures v.screen.SyncFailed? ==> (v.screen.reason == CouldNotVerify <==> isValid == Some(true))
    ensures v.screen.PaymentSuccessful? ==>
      v.screen.receipt == (match details case None => None case Some(d) => Some(ReceiptOf(d)))
    ensures RetrySync in v.actions <==> v.screen.SyncFailed? && isValid == Some(true)
    ensures ChoosePlan in v.actions <==> v.screen.SyncFailed?
    ensures ContinueToApp in v.actions <==> v.screen.PaymentSuccessful?
  {
    match isValid
    case None => View(Loading, [])
    case Some(valid) =>
      if valid && status == Syncing then
        View(Verifying, [])
      else if valid && status == Success then
        View(PaymentSuccessful(if details.Some? then Some(ReceiptOf(details.value)) else None), [ContinueToApp])
      else if valid then
        assert status.Idle? || status.Error?;
        View(SyncFailed(CouldNotVerify), [RetrySync, ChoosePlan])
      else
        View(SyncFailed(InvalidDetails), [ChoosePlan])
  }

  /** `handleContinue`'s navigations: the app callback now, the web callback with the same query 500 ms later. */
  function ContinueNavigations(q: string): seq<Effect> {
    [Navigate(WithQuery(AppCallback, q), 0), Navigate(WithQuery(WebCallback, q), FallbackDelayMs)]
  }

  /** `handleChoosePlan`'s navigations: the same two routes, with no query and no `?`. */
  function ChoosePlanNavigations(): seq<Effect> {
    [Navigate(AppCallback, 0), Navigate(WebCallback, FallbackDelayMs)]
  }

  /**
   * Both continue navigations carry the record's query string, the `?`
   * included even when it is empty, and both read back as the same record.
   */
  lemma ContinueNavigationsAgree(d: PaymentDetails)
    ensures var navs := ContinueNavigations(ContinueQuery(d));
      && |navs| == 2
      && navs[0].delayMs == 0 && navs[1].delayMs == FallbackDelayMs
      && QueryOf(navs[0].url) == QueryOf(navs[1].url) == Some(ContinueQuery(d))
      && FromSearch(Search(navs[0].url)) == FromSearch(Search(navs[1].url))
  {
    CallbacksQueryFree();
    QueryOfWithQuery(AppCallback, ContinueQuery(d));
    QueryOfWithQuery(WebCallback, ContinueQuery(d));
  }

  /** The choose-plan navigations carry no query at all. */
  lemma ChoosePlanQueryFree()
    ensures forall e :: e in ChoosePlanNavigations() ==> QueryOf(e.url) == None
  {
    CallbacksQueryFree();
  }

  /** Which sync routine a pending response will be handled by. */
  datatype InFlight = NoRequest | AutoRequest | RetryRequest

  /** The component's state and the effects it has issued so far. */
  class App {
    var details: Option<PaymentDetails>
    var isValid: Option<bool>
    var syncStatus: SyncStatus
    var inFlight: InFlight
    var effects: seq<Effect>

    /**
     * `isValid` is set together with the record and agrees with it; a
     * request is only pending while the status is `syncing`; every request
     * went to the sync endpoint with the record as its body.
     */
    ghost predicate Valid()
      reads this
    {
      && (isValid.Some? <==> details.Some?)
      && (details.Some? ==> isValid == Some(IsValid(details.value)))
      && (inFlight != NoRequest ==> syncStatus == Syncing)
      && (syncStatus != Idle ==> details.Some?)
      && (forall e :: e in effects && e.Post? ==> e.url == SyncEndpoint && details == Some(e.body))
    }

    /** An invalid visit has never synced. */
    ghost predicate NoSyncWhenInvalid()
      reads this
    {
      isValid == Some(false) ==>
        syncStatus == Idle && inFlight == NoRequest && forall e :: e in effects ==> !e.Post?
    }

    function CurrentView(): View
      reads this
    {
      Render(details, isValid, syncStatus)
    }

    /** The first render: no record, parameters still being checked, status `idle`. */
    constructor ()
      ensures Valid() && NoSyncWhenInvalid()
      ensures details == None && isValid == None && syncStatus == Idle
      ensures inFlight == NoRequest && effects == []
    {
      details := None;
      isValid := None;
      syncStatus := Idle;
      inFlight := NoRequest;
      effects := [];
    }

    /** `syncStatus := 'syncing'`, then the request goes out with the record as its body. */
    method BeginSync(kind: InFlight)
      requires Valid() && details.Some? && kind != NoRequest
      modifies this
      ensures Valid()
      ensures syncStatus == Syncing && inFlight == kind
      ensures effects == old(effects) + [Post(SyncEndpoint, details.value)]
      ensures details == old(details) && isValid == old(isValid)
    {
      syncStatus := Syncing;
      effects := effects + [Post(SyncEndpoint, details.value)];
      inFlight := kind;
    }

    /**
     * The mount effect: build the record from `window.location.search`,
     * store it, then either mark the visit valid and start the automatic
     * sync, or mark it invalid and do nothing else.
     */
    method Mount(search: string)
      requires Valid() && details == None
      modifies this
      ensures Valid() && NoSyncWhenInvalid()
      ensures details == Some(FromSearch(search))
      ensures isValid == Some(IsValid(FromSearch(search)))
      ensures IsValid(FromSearch(search)) ==>
        syncStatus == Syncing && inFlight == AutoRequest
        && effects == old(effects) + [Post(SyncEndpoint, FromSearch(search))]
      ensures !IsValid(FromSearch(search)) ==>
        syncStatus == Idle && inFlight == NoRequest && effects == old(effects)
    {
      var paymentDetails := FromSearch(search);
      details := Some(paymentDetails);
      if Truthy(paymentDetails.subscriptionId) {
        isValid := Some(true);
        BeginSync(AutoRequest);
      } else {
        isValid := Some(false);
      }
    }

    /**
     * The pending request settles. The automatic routine counts any
     * response as success; the retry routine needs the body's `success`.
     */
    method Complete(outcome: Outcome)
      requires Valid() && inFlight != NoRequest
      modifies this
      ensures Valid()
      ensures old(NoSyncWhenInvalid()) ==> NoSyncWhenInvalid()
      ensures syncStatus == (if old(inFlight) == AutoRequest then AutoSyncStatus(outcome)
                                                              else RetrySyncStatus(outcome))
      ensures inFlight == NoRequest
      ensures details == old(details) && isValid == old(isValid) && effects == old(effects)
    {
      match outcome {
        case Throw =>
          syncStatus := Error;
        case Resp(data) =>
          if inFlight == AutoRequest {
            syncStatus := Success;
          } else if Acknowledged(data) {
            syncStatus := Success;
          } else {
            syncStatus := Error;
          }
      }
      inFlight := NoRequest;
    }

    /** `handleRetry`: with a record, start the acknowledging sync; without one, nothing. */
    method HandleRetry()
      requires Valid() && inFlight == NoRequest
      modifies this
      ensures Valid()
      ensures details == old(details) && isValid == old(isValid)
      ensures details.None? ==>
        syncStatus == old(syncStatus) && inFlight == NoRequest && effects == old(effects)
      ensures details.Some? ==>
        syncStatus == Syncing && inFlight == RetryRequest
        && effects == old(effects) + [Post(SyncEndpoint, details.value)]
    {
      if details.Some? {
        BeginSync(RetryRequest);
      }
    }

    /** `handleContinue`: without a record, nothing; with one, both continue navigations. */
    method HandleContinue()
      requires Valid()
      modifies this`effects
      ensures Valid()
      ensures details.None? ==> effects == old(effects)
      ensures details.Some? ==> effects == old(effects) + ContinueNavigations(ContinueQuery(details.value))
    {
      if details.None? {
        return;
      }
      var q := BuildContinueQuery(details.value);
      effects := effects + [Navigate(WithQuery(AppCallback, q), 0)];
      effects := effects + [Navigate(WithQuery(WebCallback, q), FallbackDelayMs)];
    }

    /** `handleChoosePlan`: the two query-free navigations. */
    method HandleChoosePlan()
      requires Valid()
      modifies this`effects
      ensures Valid()
      ensures effects == old(effects) + ChoosePlanNavigations()
    {
      effects := effects + [Navigate(AppCallback, 0)];
      effects := effects + [Navigate(WebCallback, FallbackDelayMs)];
    }

    /**
     * A click on a button the current screen shows. Retry is only offered
     * on the failure screen of a valid visit, so it never overlaps a
     * pending request and never starts from `success`; nothing a click
     * does lets an invalid visit sync.
     */
    method Click(a: Action)
      requires Valid() && NoSyncWhenInvalid()
      requires a in CurrentView().actions
      modifies this
      ensures Valid() && NoSyncWhenInvalid()
      ensures details == old(details) && isValid == old(isValid)
      ensures old(syncStatus) == Success ==> syncStatus == Success
      ensures a == RetrySync ==>
        old(isValid) == Some(true) && (old(syncStatus) == Idle || old(syncStatus) == Error)
        && syncStatus == Syncing && inFlight == RetryRequest
        && effects == old(effects) + [Post(SyncEndpoint, details.value)]
      ensures a == ContinueToApp ==>
        old(syncStatus) == Success && syncStatus == old(syncStatus) && inFlight == old(inFlight)
        && effects == old(effects) + ContinueNavigations(ContinueQuery(details.value))
      ensures a == ChoosePlan ==>
        syncStatus == old(syncStatus) && inFlight == old(inFlight)
        && effects == old(effects) + ChoosePlanNavigations()
    {
      match a
      case RetrySync => HandleRetry();
      case ContinueToApp => HandleContinue();
      case ChoosePlan => HandleChoosePlan();
    }
  }

  /** While a request is pending the spinner is shown and no button is offered. */
  lemma PendingShowsSpinner(details: Option<PaymentDetails>, isValid: Option<bool>, status: SyncStatus)
    requires isValid == Some(true) && status == Syncing
    ensures Render(details, isValid, status) == View(Verifying, [])
  {
  }
}
