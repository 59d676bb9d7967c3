/**
 * Returning control to the native app: the query string the continue
 * handler forwards, the callback URLs it is attached to, and what a page
 * opened at such a URL would read back from it.
 */
module Handoff {
  import opened Wrappers
  import opened Payment
  import FormUrlencoded
  import Utf8

  /** The native app's callback route, reached through its custom scheme. */
  const AppCallback: string := "vealthx://app/callback"

  /** The web twin of the callback route, used when the custom scheme leaves the page where it was. */
  const WebCallback: string := "https://" + WebHost + "/app/callback"

  /**
   * The static web app's host, `zealous-glacier-0ff3bca00.4.azurestaticapps.net`.
   * It is joined from two literals so that the proof that the callbacks carry
   * no `?` inspects two short strings rather than one long one.
   */
  const WebHost: string := "zealous-glacier-0ff3bca00" + ".4.azurestaticapps.net"

  /** How long the later page waits before its fallback navigation. */
  const FallbackDelayMs: nat := 500

  /** Specification of the continue query: the serialized truthy pairs. */
  function ContinueQuery(d: PaymentDetails): string {
    FormUrlencoded.Serialize(ContinuePairs(d))
  }

  /**
   * `handleContinue`'s query: a fresh `URLSearchParams`, one `append` per
   * truthy entry of the record, in entry order, then `toString()`.
   */
  method BuildContinueQuery(d: PaymentDetails) returns (q: string)
    ensures q == ContinueQuery(d)
  {
    var params := new FormUrlencoded.SearchParams();
    var entries := Entries(d);
    var i := 0;
    while i < |entries|
      invariant 0 <= i <= |entries|
      invariant params.list == TruthyPairs(entries[..i])
    {
      var (key, value) := entries[i];
      assert entries[..i + 1][..i] == entries[..i];
      if Truthy(value) {
        params.Append(key, value.value);
      }
      i := i + 1;
    }
    assert entries[..i] == entries;
    q := params.ToString();
  }

  /** A callback URL with a query attached: the `?` is written even when the query is empty. */
  function WithQuery(base: string, q: string): string {
    base + "?" + q
  }

  /** The text after the first `?` of a URL, or None when it has none. */
  function QueryOf(url: string): (r: Option<string>)
    ensures r == None <==> '?' !in url
    ensures r.Some? ==> exists i :: 0 <= i < |url| && url[i] == '?' && '?' !in url[..i] && r.value == url[i + 1..]
    decreases |url|
  {
    if url == [] then None
    else if url[0] == '?' then Some(url[1..])
    else
      match QueryOf(url[1..])
      case None => None
      case Some(q) =>
        assert forall j :: 1 <= j <= |url| ==> url[..j] == [url[0]] + url[1..][..j - 1];
        Some(q)
  }

  /** `location.search` of a URL without a fragment: `"?" + query`, or "" when the query is absent or empty. */
  function Search(url: string): string {
    match QueryOf(url)
    case None => ""
    case Some(q) => if q == "" then "" else "?" + q
  }

  /** Neither callback route carries a query of its own. */
  lemma CallbacksQueryFree()
    ensures '?' !in AppCallback && '?' !in WebCallback
  {
    assert '?' !in "zealous-glacier-0ff3bca00";
    assert '?' !in ".4.azurestaticapps.net";
  }

  /** Attaching a query to a `?`-free base gives that query back. */
  lemma QueryOfWithQuery(base: string, q: string)
    requires '?' !in base
    ensures QueryOf(WithQuery(base, q)) == Some(q)
  {
    var url := WithQuery(base, q);
    assert url[|base|] == '?';
    assert url[..|base|] == base;
    var r := QueryOf(url);
    var i :| 0 <= i < |url| && url[i] == '?' && '?' !in url[..i] && r.value == url[i + 1..];
    assert forall k :: 0 <= k < |base| ==> url[k] == base[k];
    assert url[|base| + 1..] == q;
  }

  /** The page the native app receives reads the very record the handoff carries. */
  lemma SearchParsesToPairs(base: string, d: PaymentDetails)
    requires '?' !in base
    ensures FormUrlencoded.Parse(Search(WithQuery(base, ContinueQuery(d)))) == ContinuePairs(d)
  {
    QueryOfWithQuery(base, ContinueQuery(d));
    FormUrlencoded.ParseSerialize(ContinuePairs(d));
    if ContinueQuery(d) == "" {
      assert Utf8.Encode("") == [];
    }
  }

  /** A renamed field is never sent under the key the extractor reads it from. */
  lemma ExtractRenamedField(d: PaymentDetails, f: Field)
    requires Renamed(f)
    ensures Value(Extract(ContinuePairs(d)), f) == None
  {
    var p := ContinuePairs(d);
    ContinuePairsSpec(d);
    forall i | 0 <= i < |p| ensures p[i].0 != WireKey(f) {
      var r := NameRank(p[i].0);
      RenamedKeysUnsent(f, Fields[r]);
    }
    assert FirstValue(p, WireKey(f), Value(Extract(p), f));
  }

  /** A field read under its own name comes back when it was truthy, and null otherwise. */
  lemma ExtractDirectField(d: PaymentDetails, f: Field)
    requires !Renamed(f)
    ensures Value(Extract(ContinuePairs(d)), f) == if Truthy(Value(d, f)) then Value(d, f) else None
  {
    var p := ContinuePairs(d);
    var back := Extract(p);
    assert WireKey(f) == InternalName(f);
    assert FirstValue(p, InternalName(f), Value(back, f));
    match Value(back, f)
    case Some(s) =>
      var i :| 0 <= i < |p| && p[i] == (InternalName(f), s);
      assert (InternalName(f), s) in p;
      ContinuePairsMembers(d, f, s);
    case None =>
      if Truthy(Value(d, f)) {
        ContinuePairsMembers(d, f, Value(d, f).value);
      }
  }

  /**
   * Extracting a record from the continue URL gives back each truthy field
   * that is read under the name it is sent with; the two renamed fields,
   * and every null or empty field, come back null.
   */
  lemma ContinueRoundTrip(base: string, d: PaymentDetails, f: Field)
    requires '?' !in base
    ensures Value(FromSearch(Search(WithQuery(base, ContinueQuery(d)))), f)
         == if !Renamed(f) && Truthy(Value(d, f)) then Value(d, f) else None
  {
    SearchParsesToPairs(base, d);
    if Renamed(f) {
      ExtractRenamedField(d, f);
    } else {
      ExtractDirectField(d, f);
    }
  }
}
