/**
 * The sync status and how a finished request moves it. The request itself
 * is not modelled: what comes back is an input, either a thrown error
 * (transport failure, or a non-2xx status, which axios turns into a throw)
 * or a response whose parsed JSON body is `data`.
 */
module Sync {
  import opened Wrappers

  datatype SyncStatus = Idle | Syncing | Success | Error

  /** A parsed JSON response body. */
  datatype Json =
    | JNull
    | JBool(b: bool)
    | JNumber(n: real)
    | JString(s: string)
    | JArray(items: seq<Json>)
    | JObject(members: map<string, Json>)

  datatype Outcome = Throw | Resp(data: Json)

  const SyncEndpoint: string :=
    "https://vealthx-ollamavm2.centralindia.cloudapp.azure.com/zoho-subscription-test/api/hostedpage/sync-subscription"

  /** JavaScript truthiness of a JSON value: null, false, 0 and "" are falsy; arrays and objects are truthy. */
  predicate JsTruthy(j: Json) {
    match j
    case JNull => false
    case JBool(b) => b
    case JNumber(n) => n != 0.0
    case JString(s) => s != ""
    case JArray(_) => true
    case JObject(_) => true
  }

  /** Property access `j.key`: only an object has own properties; anything else gives undefined. */
  function Property(j: Json, key: string): Option<Json> {
    match j
    case JObject(m) => if key in m then Some(m[key]) else None
    case _ => None
  }

  /** `response.data && response.data.success`, read as a condition. */
  predicate Acknowledged(data: Json) {
    JsTruthy(data) && match Property(data, "success") case Some(s) => JsTruthy(s) case None => false
  }

  /** The body acknowledges the sync exactly when it is an object whose `success` member is truthy. */
  lemma AcknowledgedIff(data: Json)
    ensures Acknowledged(data) <==>
      data.JObject? && "success" in data.members && JsTruthy(data.members["success"])
  {
  }

  /**
   * The status the automatic sync leaves: any response that did not throw
   * is a success, whatever its body says; a throw is an error.
   */
  function AutoSyncStatus(o: Outcome): (s: SyncStatus)
    ensures s == Success || s == Error
    ensures s == Success <==> o.Resp?
  {
    match o
    case Throw => Error
    case Resp(_) => Success
  }

  /**
   * The status the retry sync leaves: success only for a response whose
   * body acknowledges it; a throw and an unacknowledged response are errors.
   */
  function RetrySyncStatus(o: Outcome): (s: SyncStatus)
    ensures s == Success || s == Error
    ensures s == Success <==>
      o.Resp? && o.data.JObject? && "success" in o.data.members && JsTruthy(o.data.members["success"])
  {
    match o
    case Throw => Error
    case Resp(data) => if Acknowledged(data) then Success else Error
  }

  /** The body `{"success": b}`. */
  function AckBody(b: bool): Json {
    JObject(map["success" := JBool(b)])
  }

  /** The retry reads `{"success": b}` as success exactly when `b` holds. */
  lemma AckBodyStatus(b: bool)
    ensures RetrySyncStatus(Resp(AckBody(b))) == if b then Success else Error
  {
  }

  /**
   * The retry's success condition is strictly stronger than the automatic
   * one's: every retry success is an automatic success, and some outcome is
   * an automatic success but a retry error.
   */
  lemma RetryStricterThanAuto(o: Outcome)
    ensures RetrySyncStatus(o) == Success ==> AutoSyncStatus(o) == Success
    ensures exists o' :: AutoSyncStatus(o') == Success && RetrySyncStatus(o') == Error
  {
    AckBodyStatus(false);
    assert AutoSyncStatus(Resp(AckBody(false))) == Success;
  }

  /** A 2xx response that says `{"success": false}` is a success for the automatic sync and an error for the retry. */
  lemma NegativeAckDiverges()
    ensures AutoSyncStatus(Resp(AckBody(false))) == Success
    ensures RetrySyncStatus(Resp(AckBody(false))) == Error
  {
    AckBodyStatus(false);
  }
}
