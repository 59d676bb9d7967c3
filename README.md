# VealthX payment landing page — a Dafny model

The landing page is where the hosted subscription checkout sends the browser
once a payment has gone through. It reads the payment's details from the
query string and decides from `subscription_id` whether the visit is valid.
For a valid visit it reports the payment to the subscription back end (a
"sync") and shows a receipt. "Continue to App" hands control back to the
native VealthX app through its `vealthx://app/callback` route, with the
details forwarded in the query string. An invalid visit or a failed sync
shows a failure screen with "Choose Plan", which goes back to the app with no
parameters.

The repository holds two versions of the page, and both are modelled:

- `src/App.tsx` (module `LandingPage`) is the later version. Its automatic
  sync accepts any response that does not throw. A "Retry Sync" button runs a
  second sync routine, which also demands `response.data.success`. The
  continue and choose-plan handoffs each schedule a web fallback,
  `https://zealous-glacier-0ff3bca00.4.azurestaticapps.net/app/callback`,
  500 ms after the app route. The screen depends on both `isValid` and
  `syncStatus`.
- `App.tsx` (module `EarlyLandingPage`) is the earlier version. It has the
  same extraction and automatic sync, no retry and no fallback. Its screen
  depends on `isValid` alone, so a valid visit shows "Payment Successful"
  whatever became of its sync.

The modules:

- `Utf8` models UTF-8 as the WHATWG Encoding Standard defines it: an encoder,
  and a decoder in replacement mode. It proves the round trip.
- `FormUrlencoded` models the `application/x-www-form-urlencoded` parser and
  serializer of sections 5.1 and 5.2 of the WHATWG URL Standard. It covers
  `URLSearchParams.get` (the first value under a name) and a `SearchParams`
  class whose `append` extends its list in place. It proves that parsing a
  serialization gives back the list, with or without a leading `?`.
- `Payment` models the `PaymentDetails` record, the extraction with its two
  renamed keys, JavaScript truthiness, the validity gate and the continue
  pairs (`Object.entries` filtered on truthiness).
- `Sync` models the server's reply as a JSON value or a throw, and the status
  each of the two sync routines leaves.
- `Effects` and `Handoff` model the request and navigation log, the callback
  URLs and the continue query. `Handoff` also checks what a page opened at a
  callback URL would read back.
- `Presentation` models the receipt rows and the buttons, by their labels.
- `LandingPage` and `EarlyLandingPage` each hold a pure `Render` and a class
  with the component's state. The class's methods stand for the mount effect,
  the settling of the pending request and the click handlers.
- `Scenarios` drives whole visits through the later page's class.

The server's reply is an input to `Complete`. The browser's location is an
input to `Mount`. Requests and navigations are appended to an `effects` log
and are not performed.

Three behaviours of the code are easy to misread, and the model states each
as the code has it:

- A 2xx reply with `{"success": false}` is not an error everywhere. The
  later page's automatic sync (`src/App.tsx:60-69`) never reads the body
  and reports success. Only the retry routine (`src/App.tsx:21-37`) checks
  `success`, and it reports an error. `Sync.NegativeAckDiverges` and
  `Scenarios.NegativeAckOnMount` state both outcomes.
- Nothing in `handleRetry` ignores a second sync while one is pending.
  Instead, the Retry button is only rendered on the failure screen, and the
  failure screen never shows while `syncing`. The model has `HandleRetry`
  require that no request be pending, and `Click` require that the button
  be on screen. `Click` then proves that a retry never overlaps a pending
  request and never starts from `success`.
- The continue handoff does not return all of the visit's details. The
  handler sends `payment_id` and `invoice_number` under those internal
  names, but the extractor reads them from `paymentnumber` and
  `invoicenumber`. `Handoff.ContinueRoundTrip` proves that the two renamed
  fields, and every empty field, come back null.

## Model

| member | source | states |
|---|---|---|
| Utf8.DecodeEncode | src/App.tsx:41 | Decoding the UTF-8 encoding of any string gives the string back. The page's parser decodes what `toString` encoded. |
| FormUrlencoded.First | src/App.tsx:44-51 | `get(name)` is null exactly when no tuple has that name. Otherwise it is the value of the first tuple with that name. |
| FormUrlencoded.PercentEncode | src/App.tsx:85 | Every byte the urlencoded serializer writes is unreserved, `+` or `%`. |
| FormUrlencoded.ParseSerializeBytes | src/App.tsx:85 | Parsing the serialized bytes of any tuple list gives back the same names, values and order. |
| FormUrlencoded.ParseSerialize | src/App.tsx:41 | `new URLSearchParams(s)` gives back the list that `s` came from, whether `s` is `toString()` or `"?" + toString()`. |
| FormUrlencoded.SerializePlainPair | src/App.tsx:85 | Two tuples made of unreserved ASCII serialize to `a=b&c=e`, character for character. |
| FormUrlencoded.SearchParams.constructor | src/App.tsx:80 | A fresh `URLSearchParams` is empty. |
| FormUrlencoded.SearchParams.Append | src/App.tsx:82 | `append` adds one pair at the end and changes nothing else. |
| Payment.Extract | src/App.tsx:41-52 | Each field is the first value of its query key, or null when the key is absent. `payment_id` is read from `paymentnumber` and `invoice_number` from `invoicenumber`. |
| Payment.ValidIffSubscriptionKey | src/App.tsx:56 | A visit is valid exactly when the first `subscription_id` in the query is non-empty. A missing key and `?subscription_id=` are both invalid. |
| Payment.Entries | src/App.tsx:5-14 | `Object.entries` lists all eight fields: each field's pair, its own name and its value, sits at that field's declaration rank, and the entry at position i carries the name of rank i. |
| Payment.TruthyPairsMembers | src/App.tsx:81-83 | A pair is appended exactly when some entry has that name and a non-empty value. |
| Payment.TruthyPairsOrdered | src/App.tsx:81-83 | The filter keeps the entries' order. |
| Payment.ContinuePairsSpec | src/App.tsx:80-83 | The forwarded pairs are exactly the truthy fields under their internal names, each name once, in declaration order. |
| Payment.RenamedKeysUnsent | src/App.tsx:50-51 | The wire keys `paymentnumber` and `invoicenumber` are never the name of any field. |
| Sync.AcknowledgedIff | src/App.tsx:27 | `response.data && response.data.success` holds exactly when the body is an object whose `success` member is truthy. |
| Sync.AutoSyncStatus | src/App.tsx:60-69 | The automatic sync ends in `success` for any response that did not throw, and in `error` for a throw. |
| Sync.RetrySyncStatus | src/App.tsx:21-37 | The retry sync ends in `success` only for an acknowledged body. A throw or any other body gives `error`. |
| Sync.RetryStricterThanAuto | src/App.tsx:27 | Every outcome the retry accepts, the automatic sync accepts too, and some outcome the automatic sync accepts the retry rejects. |
| Sync.AckBodyStatus | src/App.tsx:27-31 | The retry reads `{"success": b}` as `success` exactly when `b` holds. |
| Sync.NegativeAckDiverges | src/App.tsx:63-64 | For a reply of `{"success": false}`, the automatic sync gives `success` and the retry gives `error`. |
| Handoff.BuildContinueQuery | src/App.tsx:80-83 | The loop over `Object.entries` with `append` builds exactly the serialized truthy pairs. |
| Handoff.QueryOf | src/App.tsx:85 | A URL has a query exactly when it contains `?`. The query is the text after the first `?`. |
| Handoff.CallbacksQueryFree | src/App.tsx:94-98 | Neither callback route contains a `?`. |
| Handoff.QueryOfWithQuery | src/App.tsx:85 | Writing `base?q` for a `?`-free base gives back `q` as its query. |
| Handoff.SearchParsesToPairs | src/App.tsx:85-89 | A page opened at a continue URL parses exactly the forwarded pairs. |
| Handoff.ExtractRenamedField | src/App.tsx:50-51 | A page opened at a continue URL reads `payment_id` and `invoice_number` as null. |
| Handoff.ExtractDirectField | src/App.tsx:44-49 | Each other field comes back from a continue URL when it was truthy, and null otherwise. |
| Handoff.ContinueRoundTrip | src/App.tsx:77-91 | Extracting from either continue URL gives each field back exactly when it is truthy and not renamed. Every other field comes back null. |
| Presentation.AmountPaid | src/App.tsx:161 | The amount shown is `invoice_amount` when it is truthy, and `0.00` otherwise. It is never empty. |
| Presentation.ReceiptRows | src/App.tsx:168-206 | A labelled detail row is shown exactly when its field is truthy, and it shows that field's value. |
| LandingPage.Render | src/App.tsx:109-266 | Loading iff `isValid` is null. Spinner iff valid and `syncing`. Receipt iff valid and `success`. Otherwise the failure screen, including valid and `idle`, with the valid/invalid message. Retry iff the failure screen of a valid visit. Choose Plan iff the failure screen. Continue iff the receipt. |
| LandingPage.ContinueNavigationsAgree | src/App.tsx:85-90 | The app route and the 500 ms web fallback carry the same query, `?` included even when the query is empty. Both read back as the same record. |
| LandingPage.ChoosePlanQueryFree | src/App.tsx:93-100 | Neither choose-plan navigation carries a query. |
| LandingPage.PendingShowsSpinner | src/App.tsx:121-130 | While a valid visit is `syncing`, only the spinner is shown and no button is offered. |
| LandingPage.App.constructor | src/App.tsx:17-19 | The first render has no record, `isValid` null, status `idle`, and nothing sent. |
| LandingPage.App.BeginSync | src/App.tsx:22-25 | The status becomes `syncing`, and one request goes to the sync endpoint with the record as its body. |
| LandingPage.App.Mount | src/App.tsx:39-75 | The record is stored. A valid visit starts the automatic sync with one request. An invalid visit stays `idle` and sends nothing. |
| LandingPage.App.Complete | src/App.tsx:21-69 | The pending request settles with the status of whichever routine sent it. Nothing else changes, and an invalid visit still has never synced. |
| LandingPage.App.HandleRetry | src/App.tsx:102-106 | With a record, the acknowledging sync starts with one request. Without one, nothing happens. |
| LandingPage.App.HandleContinue | src/App.tsx:77-91 | Without a record, nothing happens. With one, the app route with the query is followed by the web route with the same query after 500 ms. |
| LandingPage.App.HandleChoosePlan | src/App.tsx:93-100 | The bare app route is followed by the bare web route after 500 ms. |
| LandingPage.App.Click | src/App.tsx:211-266 | A click on a button on screen keeps the invariants. Retry happens only on a valid visit in `idle` or `error`, and starts a retry sync. Continue happens only from `success`. `success` is never left. An invalid visit never syncs. |
| EarlyLandingPage.Render | App.tsx:76-93 | Loading iff `isValid` is null. Receipt with Continue iff valid. Failure with Choose Plan iff invalid. There is never a Retry. |
| EarlyLandingPage.SuccessShownDespiteSyncError | App.tsx:93 | A valid visit shows "Payment Successful" whatever the sync status. |
| EarlyLandingPage.EarlyApp.constructor | App.tsx:17-19 | The first render has no record, `isValid` null, status `idle`, and nothing sent. |
| EarlyLandingPage.EarlyApp.BeginSync | App.tsx:42-45 | The status becomes `syncing`, and one request goes out with the record as its body. |
| EarlyLandingPage.EarlyApp.Mount | App.tsx:21-57 | The record is stored. A valid visit starts the sync with one request. An invalid visit stays `idle` and never sends anything. |
| EarlyLandingPage.EarlyApp.Complete | App.tsx:42-50 | `success` for any response that did not throw, `error` for a throw. The body is not read. |
| EarlyLandingPage.EarlyApp.HandleContinue | App.tsx:59-69 | Without a record, nothing happens. With one, there is a single navigation to the app route with the query, and no fallback. |
| EarlyLandingPage.EarlyApp.HandleChoosePlan | App.tsx:71-74 | A single navigation to exactly `vealthx://app/callback`. |
| EarlyLandingPage.EarlyApp.Click | App.tsx:167-204 | The only handlers navigate. No click changes the sync status, so `success` and `error` are final. |
| Scenarios.OpenValid | src/App.tsx:39-75 | A valid visit, once mounted, has its automatic sync pending and exactly one request sent. |
| Scenarios.OpenFailed | src/App.tsx:62-68 | When the automatic sync throws, the visit goes from `syncing` to the failure screen with Retry and Choose Plan. |
| Scenarios.InvalidVisit | src/App.tsx:72-73 | A visit without a truthy `subscription_id` sends no request and offers only Choose Plan. |
| Scenarios.NegativeAckOnMount | src/App.tsx:60-69 | An automatic sync answered `{"success": false}` goes from `syncing` to the success screen. |
| Scenarios.RetryAfterError | src/App.tsx:102-106 | After a failed automatic sync, Retry is `syncing` again, and an acknowledged reply reaches the success screen. |
| Scenarios.RetryNotAcknowledged | src/App.tsx:27-31 | A retry answered `{"success": false}` returns to the failure screen with Retry offered. |
| Scenarios.PaidRecordPairs | src/App.tsx:81-83 | A visit with only `subscription_id=abc123` and `invoice_amount=49.99` forwards exactly those two pairs, in that order. |
| Scenarios.PaidRecordQuery | src/App.tsx:85 | Its continue query is `subscription_id=abc123&invoice_amount=49.99`. |
| Scenarios.PaidRecordFromSearch | src/App.tsx:41-52 | A page opened with `?subscription_id=abc123&invoice_amount=49.99` builds exactly that record, and the visit is valid. |
| Scenarios.AcknowledgedVisit | src/App.tsx:77-91 | An acknowledged visit followed by Continue sends one request, then both callback routes with the record's query. |

## Left out

- Markup, Tailwind classes and icons are not modelled. Only the conditions that choose a screen, a row or a button are.
- axios and the HTTP endpoint are not modelled. The reply is an input to `Complete`: a throw, or a 2xx response with a JSON body.
- HTTP status codes and transport details are left out, because axios turns a non-2xx status into a throw.
- `console.error` logging is left out.
- `window.location.href` assignments and `setTimeout` are recorded as navigation effects with a delay and are not executed.
- The model does not say whether the custom scheme opens the app, or whether the page survives long enough for the fallback to fire. Both navigations are always recorded.
- React's scheduling, batching and re-renders are not modelled; each state update takes effect at once.
- StrictMode's double run of the mount effect is not modelled. `Mount` requires a page with no record, so the effect runs once, as the `[syncSubscription]` and `[]` dependency lists mean in production.
- LandingPage.App.HandleRetry: requires that no request be pending. The handler has no such guard. Concurrent requests are a timing matter, and the button is not on screen while a request is pending (`Click`).
- The sync endpoint, the app route and the web host are constants. Their contents are not analysed beyond the absence of `?`.
- JavaScript strings are UTF-16 and may hold lone surrogates. The model's strings are sequences of Unicode scalar values, which is what the URL Standard's algorithms see once the argument is converted to a USVString.
- `Handoff.Search` assumes a URL with no fragment: a `#` would end the query in a real `location.search`.
- How the browser percent-encodes the URL it navigates to is not modelled. The query string is passed on as written.
- Utf8.Decode: only the round trip on well-formed input is proved. Its replacement behaviour on malformed bytes is written out, but no lemma states it.
- FormUrlencoded.PercentDecode: a `%` not followed by two hex digits is kept as written, as the standard says, but only the round trip on serialized input is proved.
- The early page's loading placeholder is modelled only as the `Loading` screen.
