/** The response-stage rule (`handleOnResponseStarted`): once the home page's
    response sets a cookie, the tab is sent to the subscriptions feed. */
module Navigation {
  import opened Wrappers
  import opened JsText
  import opened GlobalState
  import opened Http
  import Constants

  /** The URL the tab is navigated to, or `None` when the handler does nothing.
      The navigation is issued exactly when a snapshot is loaded, rewriting is
      enabled, the landing page is `subscriptions`, and some response header's
      lower-cased name is `set-cookie`. */
  function HandleOnResponseStarted(globalState: Option<State>, responseHeaders: seq<Header>): (r: Option<string>)
    ensures r.Some? <==>
      globalState.Some? && globalState.value.enable == "true" &&
      globalState.value.homepage == "subscriptions" &&
      exists k :: 0 <= k < |responseHeaders| && ToLower(responseHeaders[k].name) == "set-cookie"
    ensures r.Some? ==> r.value == Constants.SubscriptionsUrl
  {
    if globalState.None? then None
    else if globalState.value.enable != "true" then None
    else if globalState.value.homepage != "subscriptions" then None
    else if FindHeader(responseHeaders, "set-cookie").Some? then Some(Constants.SubscriptionsUrl)
    else None
  }
}
