/**
 * Visits driven through the later page from the first render, one handler
 * call per event, showing what callers can conclude from the contracts
 * alone.
 */
module Scenarios {
  import opened Wrappers
  import opened Payment
  import opened Sync
  import opened Effects
  import opened Presentation
  import opened LandingPage
  import opened Handoff
  import FormUrlencoded

  /** The first render followed by the mount effect of a valid visit: the automatic sync is pending. */
  method OpenValid(search: string) returns (app: App)
    requires IsValid(FromSearch(search))
    ensures fresh(app) && app.Valid() && app.NoSyncWhenInvalid()
    ensures app.details == Some(FromSearch(search)) && app.isValid == Some(true)
    ensures app.syncStatus == Syncing && app.inFlight == AutoRequest
    ensures app.effects == [Post(SyncEndpoint, FromSearch(search))]
  {
    app := new App();
    app.Mount(search);
  }

  /** A valid visit whose automatic sync threw: `syncing` after the mount, then the failure screen with Retry. */
  method OpenFailed(search: string) returns (app: App, pending: SyncStatus)
    requires IsValid(FromSearch(search))
    ensures pending == Syncing
    ensures fresh(app) && app.Valid() && app.NoSyncWhenInvalid()
    ensures app.details == Some(FromSearch(search)) && app.isValid == Some(true)
    ensures app.syncStatus == Error && app.inFlight == NoRequest
    ensures app.CurrentView() == View(SyncFailed(CouldNotVerify), [RetrySync, ChoosePlan])
  {
    app := OpenValid(search);
    pending := app.syncStatus;
    app.Complete(Throw);
  }

  /** A visit without a truthy `subscription_id`: no request, and only "Choose Plan" is offered. */
  method InvalidVisit(search: string) returns (view: View, requests: seq<Effect>)
    requires !IsValid(FromSearch(search))
    ensures view == View(SyncFailed(InvalidDetails), [ChoosePlan])
    ensures requests == []
  {
    var app := new App();
    app.Mount(search);
    view := app.CurrentView();
    requests := app.effects;
  }

  /**
   * A valid visit whose automatic sync gets `{"success": false}` back with a
   * 2xx status: the automatic routine does not read the body, so the visit
   * goes from `syncing` to the success screen.
   */
  method NegativeAckOnMount(search: string) returns (pending: SyncStatus, settled: SyncStatus, view: View)
    requires IsValid(FromSearch(search))
    ensures pending == Syncing && settled == Success
    ensures view.screen.PaymentSuccessful? && view.actions == [ContinueToApp]
  {
    var app := OpenValid(search);
    pending := app.syncStatus;
    app.Complete(Resp(AckBody(false)));
    settled := app.syncStatus;
    view := app.CurrentView();
  }

  /**
   * The automatic sync throws (`OpenFailed`: `syncing`, then `error`), the
   * user retries, and the retry is acknowledged: `syncing` again, then the
   * success screen.
   */
  method RetryAfterError(search: string) returns (retrying: SyncStatus, settled: SyncStatus, view: View)
    requires IsValid(FromSearch(search))
    ensures retrying == Syncing && settled == Success
    ensures view.screen.PaymentSuccessful? && view.actions == [ContinueToApp]
  {
    var app, _ := OpenFailed(search);
    app.Click(RetrySync);
    retrying := app.syncStatus;
    AckBodyStatus(true);
    app.Complete(Resp(AckBody(true)));
    settled := app.syncStatus;
    view := app.CurrentView();
  }

  /** A retry answered with `{"success": false}` ends on the failure screen, with Retry offered again. */
  method RetryNotAcknowledged(search: string) returns (settled: SyncStatus, view: View)
    requires IsValid(FromSearch(search))
    ensures settled == Error
    ensures view == View(SyncFailed(CouldNotVerify), [RetrySync, ChoosePlan])
  {
    var app, _ := OpenFailed(search);
    app.Click(RetrySync);
    AckBodyStatus(false);
    app.Complete(Resp(AckBody(false)));
    settled := app.syncStatus;
    view := app.CurrentView();
  }

  /** The record of a visit carrying only `subscription_id=abc123` and `invoice_amount=49.99`. */
  function PaidRecord(): PaymentDetails {
    PaymentDetails(Some("abc123"), None, Some("49.99"), None, None, None, None, None)
  }

  /** The query string of that visit. */
  const PaidQuery: string := "subscription_id=abc123&invoice_amount=49.99"

  /** Its continue pairs are exactly those two, in that order. */
  lemma PaidRecordPairs()
    ensures ContinuePairs(PaidRecord()) == [("subscription_id", "abc123"), ("invoice_amount", "49.99")]
  {
    var e1 := [("subscription_id", Some("abc123"))];
    var e2 := e1 + [("plan_name", None)];
    var e3 := e2 + [("invoice_amount", Some("49.99"))];
    var e4 := e3 + [("email", None)];
    var e5 := e4 + [("recurring_charges", None)];
    var e6 := e5 + [("transaction_id", None)];
    var e7 := e6 + [("payment_id", None)];
    var e8 := e7 + [("invoice_number", None)];
    assert Entries(PaidRecord()) == e8;
    TruthyPairsSnoc([], e1[0]);
    assert [] + e1 == e1;
    TruthyPairsSnoc(e1, ("plan_name", None));
    TruthyPairsSnoc(e2, ("invoice_amount", Some("49.99")));
    TruthyPairsSnoc(e3, ("email", None));
    TruthyPairsSnoc(e4, ("recurring_charges", None));
    TruthyPairsSnoc(e5, ("transaction_id", None));
    TruthyPairsSnoc(e6, ("payment_id", None));
    TruthyPairsSnoc(e7, ("invoice_number", None));
  }

  /** The four components are written verbatim by the serializer. */
  lemma PaidRecordPlain()
    ensures FormUrlencoded.Plain("subscription_id") && FormUrlencoded.Plain("abc123")
    ensures FormUrlencoded.Plain("invoice_amount") && FormUrlencoded.Plain("49.99")
  {
  }

  /** Its continue query is `subscription_id=abc123&invoice_amount=49.99`. */
  lemma PaidRecordQuery()
    ensures ContinueQuery(PaidRecord()) == PaidQuery
  {
    PaidRecordPairs();
    PaidRecordPlain();
    FormUrlencoded.SerializePlainPair("subscription_id", "abc123", "invoice_amount", "49.99");
    PaidRecordText();
  }

  lemma PaidRecordText()
    ensures "subscription_id" + "=" + "abc123" + "&" + "invoice_amount" + "=" + "49.99"
         == PaidQuery
  {
  }

  lemma PaidRecordExtract()
    ensures Extract([("subscription_id", "abc123"), ("invoice_amount", "49.99")]) == PaidRecord()
  {
  }

  /** A page opened with that query string builds exactly that record. */
  lemma PaidRecordFromSearch()
    ensures FromSearch("?" + PaidQuery) == PaidRecord()
    ensures IsValid(PaidRecord())
  {
    var pairs := [("subscription_id", "abc123"), ("invoice_amount", "49.99")];
    PaidRecordPairs();
    PaidRecordQuery();
    assert FormUrlencoded.Serialize(pairs) == PaidQuery;
    FormUrlencoded.ParseSerialize(pairs);
    PaidRecordExtract();
  }

  /**
   * A valid visit whose automatic sync is acknowledged, followed by a click
   * on "Continue to App": one request with the record, then both callback
   * routes with the record's continue query. For the URL above that query
   * is `PaidQuery` itself (`PaidRecordFromSearch`, `PaidRecordQuery`).
   */
  method AcknowledgedVisit(search: string) returns (settled: SyncStatus, effects: seq<Effect>)
    requires IsValid(FromSearch(search))
    ensures settled == Success
    ensures effects == [Post(SyncEndpoint, FromSearch(search)),
                        Navigate(WithQuery(AppCallback, ContinueQuery(FromSearch(search))), 0),
                        Navigate(WithQuery(WebCallback, ContinueQuery(FromSearch(search))), FallbackDelayMs)]
  {
    var app := OpenValid(search);
    app.Complete(Resp(AckBody(true)));
    settled := app.syncStatus;
    assert app.CurrentView().actions == [ContinueToApp];
    app.Click(ContinueToApp);
    effects := app.effects;
  }
}
