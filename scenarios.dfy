/** Worked examples: the codec and the rules on concrete cookies, URLs and headers. */
module Scenarios {
  import opened Wrappers
  import opened JsText
  import opened GlobalState
  import opened Prefs
  import opened Http
  import opened Redirect
  import opened RequestHeaders
  import opened Navigation
  import Constants

  /** A string shorter than `sub` does not contain it. */
  lemma {:induction false} ShorterExcludes(s: string, sub: string)
    requires |s| < |sub|
    ensures !Contains(s, sub)
    decreases |s|
  {
    if |s| > 0 { ShorterExcludes(s[1..], sub); }
  }

  lemma JoinPrefsPair(a: Pref, b: Pref)
    ensures JoinPrefs([a, b]) == Join(a, '=') + "&" + Join(b, '=')
  {
    var prefs := [a, b];
    var joined := seq(|prefs|, i requires 0 <= i < |prefs| => Join(prefs[i], '='));
    assert joined == [Join(a, '='), Join(b, '=')];
    assert joined[1..] == [Join(b, '=')];
    assert JoinPrefs(prefs) == Join(joined, '&');
    assert Join(joined, '&') == joined[0] + ['&'] + Join(joined[1..], '&');
    assert "&" == ['&'];
  }

  lemma ParseTwoPrefs(s: string)
    requires s == "ID=1&f6=400"
    ensures ParsePrefs(s) == [["ID", "1"], ["f6", "400"]]
  {
    var p: seq<Pref> := [["ID", "1"], ["f6", "400"]];
    JoinPrefsPair(p[0], p[1]);
    assert Join(p[0], '=') == "ID=1";
    assert Join(p[1], '=') == "f6=400";
    assert JoinPrefs(p) == s;
    ParseJoinPrefs(p);
  }

  lemma ParseOnePref(s: string)
    requires s == "ID=1"
    ensures ParsePrefs(s) == [["ID", "1"]]
  {
    var p: seq<Pref> := [["ID", "1"]];
    var joined := seq(|p|, i requires 0 <= i < |p| => Join(p[i], '='));
    assert Join(p[0], '=') == "ID=1";
    assert joined == ["ID=1"];
    ParseJoinPrefs(p);
  }

  /** `"ID=1&f6=400"` with rewriting on: the trailing `0` of the `f6` value becomes `8`. */
  lemma CookieEnableExample(prefs: string, state: State)
    requires prefs == "ID=1&f6=400" && state.enable == "true"
    ensures RewritePrefValue(prefs, state) == Normal("ID=1&f6=408")
  {
    var p: seq<Pref> := [["ID", "1"], ["f6", "400"]];
    ParseTwoPrefs(prefs);
    assert EnsureRequiredPref(p) == p by { assert IsKey(p[1], RequiredKey); }
    assert ExtractPrefByKey(p, RequiredKey) == Some(1);
    assert ModifiedValue("400", "true") == "408" by {
      assert !MatchLastBit("400", ["8", "9"]);
    }
    var q: seq<Pref> := [["ID", "1"], ["f6", "408"]];
    assert p[1][1 := "408"] == ["f6", "408"];
    assert p[1 := p[1][1 := "408"]] == q;
    assert RewritePrefValue(prefs, state) == Normal(JoinPrefs(p[1 := p[1][1 := ModifiedValue(p[1][1], state.enable)]]));
    JoinPrefsPair(q[0], q[1]);
    assert Join(q[0], '=') == "ID=1";
    assert Join(q[1], '=') == "f6=408";
    assert JoinPrefs(q) == "ID=1&f6=408";
  }

  /** `"ID=1"` with rewriting off: an `f6` pref is synthesised and its empty value becomes `0`. */
  lemma CookieDisableExample(prefs: string, state: State)
    requires prefs == "ID=1" && state.enable == "false"
    ensures RewritePrefValue(prefs, state) == Normal("ID=1&f6=0")
  {
    var p: seq<Pref> := [["ID", "1"]];
    ParseOnePref(prefs);
    var e: seq<Pref> := [["ID", "1"], ["f6", ""]];
    assert EnsureRequiredPref(p) == e by { assert !IsKey(p[0], RequiredKey); }
    assert ExtractPrefByKey(e, RequiredKey) == Some(1) by { assert !IsKey(e[0], RequiredKey); }
    assert ModifiedValue("", "false") == "0" by {
      assert !MatchLastBit("", ["0", "1"]);
    }
    var q: seq<Pref> := [["ID", "1"], ["f6", "0"]];
    assert e[1][1 := "0"] == ["f6", "0"];
    assert e[1 := e[1][1 := "0"]] == q;
    assert RewritePrefValue(prefs, state) == Normal(JoinPrefs(e[1 := e[1][1 := ModifiedValue(e[1][1], state.enable)]]));
    JoinPrefsPair(q[0], q[1]);
    assert Join(q[0], '=') == "ID=1";
    assert Join(q[1], '=') == "f6=0";
    assert JoinPrefs(q) == "ID=1&f6=0";
  }

  lemma EmptyPrefJoin()
    ensures JoinPrefs([[""], ["f6", "8"]]) == "&f6=8"
  {
    JoinPrefsPair([""], ["f6", "8"]);
    JoinPair("f6", "8", '=');
    assert Join([""], '=') == "";
  }

  /** No `PREF` cookie with rewriting on: the empty value parses to one empty
      pref, an `f6` pref is appended after it, its empty value becomes `8`, and
      the joined value keeps a leading empty segment. */
  lemma EmptyPrefExample(state: State)
    requires state.enable == "true"
    ensures RewritePrefValue("", state) == Normal("&f6=8")
  {
    EmptyParse();
    var p: seq<Pref> := [[""]];
    var e: seq<Pref> := [[""], ["f6", ""]];
    assert EnsureRequiredPref(p) == e by { assert !IsKey(p[0], RequiredKey); }
    assert ExtractPrefByKey(e, RequiredKey) == Some(1) by { assert !IsKey(e[0], RequiredKey); }
    assert ModifiedValue("", state.enable) == "8" by {
      assert !MatchLastBit("", ["8", "9"]);
    }
    var q: seq<Pref> := [[""], ["f6", "8"]];
    assert e[1][1 := "8"] == ["f6", "8"];
    assert e[1 := e[1][1 := "8"]] == q;
    assert RewritePrefValue("", state) == Normal(JoinPrefs(e[1 := e[1][1 := ModifiedValue(e[1][1], state.enable)]]));
    EmptyPrefJoin();
  }

  const HomeUrl := "https://www.youtube.com/"

  lemma HomeWithParamText(url: string)
    requires url == "https://www.youtube.com/?foo=bar"
    ensures url == HomeUrl + "?" + "foo=bar"
  {
  }

  lemma HomeWithMarkerText(url: string)
    requires url == "https://www.youtube.com/?foo=bar&disable_polymer=1"
    ensures url == HomeUrl + "?" + ("foo=bar" + "&" + MarkerParam)
  {
  }

  lemma HomeWithTailText(url: string)
    requires url == "https://www.youtube.com/?foo=bar?b"
    ensures url == HomeUrl + "?" + ("foo=bar" + "?" + "b")
  {
  }

  /** `base?q`, with one parameter free of separators and of the marker,
      redirects to `base?q&disable_polymer=1`. */
  lemma OneParamRedirect(state: State, base: string, q: string)
    requires state.enable == "true" && state.mode == "redirect"
    requires '?' !in base && '?' !in q && '&' !in q && q != "" && !Contains(q, Marker)
    ensures RedirectTarget(Some(state), base + "?" + q) == Some(base + "?" + (q + "&" + MarkerParam))
  {
    UrlWithQuery(base + "?" + q, base, [q]);
    assert !HasMarker([q]);
    assert [q] + [MarkerParam] == [q, MarkerParam];
    JoinPair(q, MarkerParam, '&');
  }

  /** The home page with one unrelated parameter is redirected with the marker appended. */
  lemma RedirectExample(state: State, url: string)
    requires state.enable == "true" && state.mode == "redirect"
    requires url == "https://www.youtube.com/?foo=bar"
    ensures RedirectTarget(Some(state), url) == Some("https://www.youtube.com/?foo=bar&disable_polymer=1")
  {
    HomeWithParamText(url);
    HomeQueryClean("foo=bar");
    OneParamRedirect(state, HomeUrl, "foo=bar");
    MarkedTargetText(HomeUrl + "?" + ("foo=bar" + "&" + MarkerParam));
  }

  /** The same URL already carrying the marker is not redirected. */
  lemma MarkedExample(state: State, url: string)
    requires url == "https://www.youtube.com/?foo=bar&disable_polymer=1"
    ensures RedirectTarget(Some(state), url).None?
  {
    HomeWithMarkerText(url);
    JoinPair("foo=bar", MarkerParam, '&');
    UrlWithQuery(url, HomeUrl, ["foo=bar", MarkerParam]);
    assert Marker <= MarkerParam;
    assert Contains(QueryParams(url)[1], Marker);
  }

  lemma HomeQueryClean(query: string)
    requires query == "foo=bar"
    ensures '?' !in HomeUrl && '?' !in query && '&' !in query && query != "" && '?' !in "b"
    ensures !Contains(query, Marker)
  {
    ShorterExcludes(query, Marker);
  }

  /** A second `?` in the URL: the text after it is lost from the redirect URL. */
  lemma SecondQuestionMarkExample(state: State, url: string)
    requires state.enable == "true" && state.mode == "redirect"
    requires url == "https://www.youtube.com/?foo=bar?b"
    ensures RedirectTarget(Some(state), url) == Some("https://www.youtube.com/?foo=bar&disable_polymer=1")
  {
    HomeWithTailText(url);
    HomeQueryClean("foo=bar");
    JoinPair("foo=bar", "b", '?');
    assert [HomeUrl, "foo=bar", "b"][1..] == ["foo=bar", "b"];
    assert url == Join([HomeUrl, "foo=bar", "b"], '?');
    SplitJoin([HomeUrl, "foo=bar", "b"], '?');
    SecondQuestionMarkDropped(Some(state), url);
    OneParamRedirect(state, HomeUrl, "foo=bar");
    MarkedTargetText(HomeUrl + "?" + ("foo=bar" + "&" + MarkerParam));
  }

  lemma MarkedTargetText(target: string)
    requires target == HomeUrl + "?" + ("foo=bar" + "&" + MarkerParam)
    ensures target == "https://www.youtube.com/?foo=bar&disable_polymer=1"
  {
  }

  /** A `Set-Cookie` header on the home page's response, with the subscriptions
      landing page chosen, sends the tab to the feed; without it nothing happens. */
  lemma NavigationExample(state: State, value: string)
    requires state.enable == "true" && state.homepage == "subscriptions"
    ensures HandleOnResponseStarted(Some(state), [Header("Set-Cookie", value)]) == Some(Constants.SubscriptionsUrl)
    ensures HandleOnResponseStarted(Some(state), [Header("Content-Type", value)]).None?
  {
    var lower := ToLower("Set-Cookie");
    assert lower[0] == 's' && lower[3] == '-' && lower[4] == 'c' && lower[5] == 'o' && lower[9] == 'e';
    assert lower == "set-cookie";
    assert [Header("Set-Cookie", value)][0].name == "Set-Cookie";
    var other := ToLower("Content-Type");
    assert other[0] == 'c' && other != "set-cookie";
    assert [Header("Content-Type", value)][0].name == "Content-Type";
  }
}
