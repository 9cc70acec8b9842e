/** The URL-stage rule (`handleOnBeforeRequest`): in `redirect` mode, a
    navigation whose query has no `disable_polymer` parameter is redirected to
    the same URL with `disable_polymer=1` appended. */
module Redirect {
  import opened Wrappers
  import opened JsText
  import opened GlobalState

  /** The substring whose presence in any query parameter stops the redirect. */
  const Marker := "disable_polymer"

  /** The parameter the redirect appends. */
  const MarkerParam := "disable_polymer=1"

  /** `details.url.split("?")[0]`: the longest prefix of the URL without a `?`,
      so it is followed by a `?` or is the whole URL. */
  function UrlBeforeQuery(url: string): (r: string)
    ensures '?' !in r && r <= url
    ensures |r| < |url| ==> url[|r|] == '?'
  {
    var pieces := Split(url, '?');
    JoinSplit(url, '?');
    assert |pieces| >= 2 ==> Join(pieces, '?') == pieces[0] + ['?'] + Join(pieces[1..], '?');
    pieces[0]
  }

  /** The query parameters: the text between the first and the second `?`, split
      on `&`, or none when that text is missing or empty. Text after a second `?`
      is dropped by the destructuring of `split("?")`. */
  function QueryParams(url: string): (r: seq<string>)
    ensures forall k :: 0 <= k < |r| ==> '&' !in r[k] && '?' !in r[k]
    ensures Join(r, '&') == if |Split(url, '?')| >= 2 then Split(url, '?')[1] else ""
    ensures r == [] <==> |Split(url, '?')| < 2 || Split(url, '?')[1] == ""
  {
    var pieces := Split(url, '?');
    if |pieces| >= 2 && pieces[1] != "" then
      var params := Split(pieces[1], '&');
      JoinSplit(pieces[1], '&');
      assert forall k :: 0 <= k < |params| ==> '?' !in params[k] by {
        forall k | 0 <= k < |params|
          ensures '?' !in params[k]
        {
          assert forall c :: c in params[k] ==> c in pieces[1];
        }
      }
      params
    else []
  }

  /** The three guards: a snapshot is loaded, rewriting is enabled, and the mode
      is `redirect`; the landing page plays no part. */
  function RedirectEnabled(globalState: Option<State>): (r: bool)
    ensures r <==> globalState.Some? && globalState.value == State("true", globalState.value.homepage, "redirect")
  {
    globalState.Some? && globalState.value.enable == "true" && globalState.value.mode == "redirect"
  }

  /** After a reload the redirect rule is active exactly when the stored method
      is `redirect` and the stored `enable` is `"true"`, empty or unset: an
      unset method defaults to `useragent`, an unset `enable` to `"true"`. */
  lemma RedirectEnabledStored(stored: StoredItems)
    ensures RedirectEnabled(Some(GetStoredState(stored))) <==>
      stored.mode == Some("redirect") &&
      (stored.enable.None? || stored.enable.value == "" || stored.enable.value == "true")
  {
  }

  /** What the flag loop computes: some parameter contains the marker
      (`param.indexOf("disable_polymer") !== -1`), that is, the marker starts at
      some position of some parameter. */
  function HasMarker(params: seq<string>): (r: bool)
    ensures r <==> exists i, j :: 0 <= i < |params| && 0 <= j <= |params[i]| - |Marker| && Marker <= params[i][j..]
  {
    exists i :: 0 <= i < |params| && Contains(params[i], Marker)
  }

  /** The redirect URL the rule asks for, or `None` for no redirect: there is
      one exactly when the guards hold and no parameter mentions the marker,
      and it starts with the text before the first `?`, a `?`, and the first
      original parameter, if any. */
  function RedirectTarget(globalState: Option<State>, url: string): (r: Option<string>)
    ensures r.Some? <==> RedirectEnabled(globalState) && !HasMarker(QueryParams(url))
    ensures r.Some? ==> UrlBeforeQuery(url) + "?" <= r.value
    ensures r.Some? && |QueryParams(url)| >= 1 ==> UrlBeforeQuery(url) + "?" + QueryParams(url)[0] <= r.value
  {
    if RedirectEnabled(globalState) && !HasMarker(QueryParams(url)) then
      Some(UrlBeforeQuery(url) + "?" + Join(QueryParams(url) + [MarkerParam], '&'))
    else None
  }

  /** `handleOnBeforeRequest`: the guards, the scan of the parameters for the
      marker, and the redirect to the base URL with the parameters and the
      marker parameter last. */
  method HandleOnBeforeRequest(globalState: Option<State>, url: string) returns (r: Option<string>)
    ensures r.Some? <==> RedirectEnabled(globalState) && !HasMarker(QueryParams(url))
    ensures r == RedirectTarget(globalState, url)
  {
    if globalState.None? { return None; }
    if globalState.value.enable != "true" { return None; }
    if globalState.value.mode != "redirect" { return None; }

    var pieces := Split(url, '?');
    var baseUrl := pieces[0];
    var queryParams := if |pieces| >= 2 && pieces[1] != "" then Split(pieces[1], '&') else [];

    var disablePolymerExists := false;
    for i := 0 to |queryParams|
      invariant disablePolymerExists <==> exists j :: 0 <= j < i && Contains(queryParams[j], Marker)
    {
      if Contains(queryParams[i], Marker) {
        disablePolymerExists := true;
      }
    }

    if !disablePolymerExists {
      queryParams := queryParams + [MarkerParam];
      return Some(baseUrl + "?" + Join(queryParams, '&'));
    }
    return None;
  }

  /** A URL built from a base and parameters free of separators, and possibly
      more `?`-separated text, splits back into the base and the parameters. */
  lemma UrlParts(url: string, base: string, params: seq<string>, rest: seq<string>)
    requires '?' !in base && |params| >= 1
    requires forall k :: 0 <= k < |params| ==> '?' !in params[k] && '&' !in params[k]
    requires forall k :: 0 <= k < |rest| ==> '?' !in rest[k]
    requires Join(params, '&') != ""
    requires url == Join([base, Join(params, '&')] + rest, '?')
    ensures UrlBeforeQuery(url) == base && QueryParams(url) == params
  {
    var query := Join(params, '&');
    JoinExcludes(params, '&', '?');
    var pieces := [base, query] + rest;
    forall k | 0 <= k < |pieces|
      ensures '?' !in pieces[k]
    {
      if k >= 2 { assert pieces[k] == rest[k - 2]; }
    }
    SplitJoin(pieces, '?');
    assert Split(url, '?') == pieces;
    assert pieces[0] == base && pieces[1] == query;
    SplitJoin(params, '&');
  }

  /** The same for `base?query` with nothing after the query. */
  lemma UrlWithQuery(url: string, base: string, params: seq<string>)
    requires '?' !in base && |params| >= 1
    requires forall k :: 0 <= k < |params| ==> '?' !in params[k] && '&' !in params[k]
    requires Join(params, '&') != ""
    requires url == base + "?" + Join(params, '&')
    ensures UrlBeforeQuery(url) == base && QueryParams(url) == params
  {
    var query := Join(params, '&');
    JoinPair(base, query, '?');
    assert [base, query] + [] == [base, query];
    UrlParts(url, base, params, []);
  }

  /** Whatever follows a second `?` in a URL is dropped: the URL redirects
      exactly as its first two `?`-pieces alone would. */
  lemma SecondQuestionMarkDropped(globalState: Option<State>, url: string)
    requires |Split(url, '?')| >= 3
    ensures RedirectTarget(globalState, url) == RedirectTarget(globalState, Split(url, '?')[0] + "?" + Split(url, '?')[1])
  {
    var p := Split(url, '?');
    var u := p[0] + "?" + p[1];
    JoinPair(p[0], p[1], '?');
    SplitJoin([p[0], p[1]], '?');
    assert Split(u, '?') == [p[0], p[1]];
  }

  /** The redirect URL keeps the base URL and the original parameters in order,
      with the marker parameter appended last. */
  lemma RedirectShape(globalState: Option<State>, url: string)
    requires RedirectTarget(globalState, url).Some?
    ensures UrlBeforeQuery(RedirectTarget(globalState, url).value) == UrlBeforeQuery(url)
    ensures QueryParams(RedirectTarget(globalState, url).value) == QueryParams(url) + [MarkerParam]
  {
    var params := QueryParams(url) + [MarkerParam];
    assert forall k :: 0 <= k < |params| ==> '&' !in params[k] && '?' !in params[k];
    assert Join(params, '&') != "" by {
      if |params| > 1 {
        assert Join(params, '&') == params[0] + ['&'] + Join(params[1..], '&');
      }
    }
    UrlWithQuery(RedirectTarget(globalState, url).value, UrlBeforeQuery(url), params);
  }

  /** No redirect loop: the URL a redirect goes to is never redirected again. */
  lemma NoRedirectLoop(globalState: Option<State>, url: string)
    requires RedirectTarget(globalState, url).Some?
    ensures RedirectTarget(globalState, RedirectTarget(globalState, url).value).None?
  {
    var u := RedirectTarget(globalState, url).value;
    RedirectShape(globalState, url);
    var params := QueryParams(u);
    assert params[|params| - 1] == MarkerParam;
    assert Marker <= MarkerParam;
    assert Contains(params[|params| - 1], Marker);
  }

  /** A URL whose query already mentions the marker is never redirected. */
  lemma MarkedUrlNotRedirected(globalState: Option<State>, url: string, k: nat)
    requires k < |QueryParams(url)| && Contains(QueryParams(url)[k], Marker)
    ensures RedirectTarget(globalState, url).None?
  {
  }
}
