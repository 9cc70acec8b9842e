/** How the three rewrite strategies relate to each other. */
module Policy {
  import opened Wrappers
  import opened GlobalState
  import opened Http
  import opened Redirect
  import opened RequestHeaders

  /** The modes exclude each other: a request the URL stage redirects passes the
      header stage untouched, and a header stage that rewrites or throws implies
      that the URL stage did not redirect. */
  lemma ModeExclusive(globalState: Option<State>, url: string, headers: seq<Header>, cookies: CookieCodec)
    ensures RedirectTarget(globalState, url).Some? ==>
              BeforeSendHeaders(globalState, headers, cookies) == Normal(Some(headers))
    ensures BeforeSendHeaders(globalState, headers, cookies).Thrown? ==> RedirectTarget(globalState, url).None?
    ensures BeforeSendHeaders(globalState, headers, cookies).Normal? &&
            BeforeSendHeaders(globalState, headers, cookies).value.Some? &&
            BeforeSendHeaders(globalState, headers, cookies).value.value != headers ==>
              RedirectTarget(globalState, url).None? &&
              (globalState.value.mode == "cookie" || globalState.value.mode == "useragent")
  {
  }
}
