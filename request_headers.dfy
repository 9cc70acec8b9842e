/** The header-stage rule (`handleOnBeforeSendHeaders`): in `cookie` mode the
    `f6` entry of the `PREF` cookie is rewritten, in `useragent` mode the
    User-Agent header is replaced by the crawler's. */
module RequestHeaders {
  import opened Wrappers
  import opened JsText
  import opened GlobalState
  import opened Prefs
  import opened Http
  import Constants

  /** The cookie-pair codec behind `CookieStore`, which is not part of this model:
      `getItem(header, name, fallback)` is the value of cookie `name` in the
      Cookie header `header`, or `fallback`; `setItem(header, name, value)` is
      the Cookie header after setting cookie `name` to `value`. */
  datatype CookieCodec = CookieCodec(
    getItem: (string, string, string) -> string,
    setItem: (string, string, string) -> string)

  /** The error JavaScript raises when `pref[1]` is read on a missing pref, or
      `.substr` is called on a missing value. */
  const TypeError := "TypeError"

  lemma LowerCookie()
    ensures ToLower("Cookie") == "cookie"
  {
    var s := ToLower("Cookie");
    assert s[0] == 'c' && s[1] == 'o' && s[2] == 'o' && s[3] == 'k' && s[4] == 'i' && s[5] == 'e';
  }

  lemma LowerUserAgent()
    ensures ToLower("User-Agent") == "user-agent"
  {
    var s := ToLower("User-Agent");
    assert s[0] == 'u' && s[1] == 's' && s[2] == 'e' && s[3] == 'r' && s[4] == '-';
    assert s[5] == 'a' && s[6] == 'g' && s[7] == 'e' && s[8] == 'n' && s[9] == 't';
  }

  /** Lines 134-141 and 157-166: the first header whose lower-cased name is
      `lname`, or, when there is none, a new header named `name` pushed at the
      end. Gives the list and the position of that header; when `name`
      lower-cases to `lname`, it is then the first one in the list with that
      lower-cased name. */
  function FindOrAppend(headers: seq<Header>, lname: string, name: string): (r: (seq<Header>, nat))
    ensures r.1 < |r.0|
    ensures FindHeader(headers, lname).Some? ==> r == (headers, FindHeader(headers, lname).value)
    ensures FindHeader(headers, lname).None? ==> r == (headers + [Header(name, "")], |headers|)
    ensures ToLower(name) == lname ==> FindHeader(r.0, lname) == Some(r.1)
  {
    match FindHeader(headers, lname)
    case Some(i) => (headers, i)
    case None =>
      var hs := headers + [Header(name, "")];
      assert forall j :: 0 <= j < |headers| ==> hs[j] == headers[j];
      assert ToLower(name) == lname ==> FindHeader(hs, lname) == Some(|headers|) by {
        if ToLower(name) == lname {
          assert ToLower(hs[|headers|].name) == lname;
          var f := FindHeader(hs, lname);
          assert f.Some? && f.value >= |headers|;
        }
      }
      (hs, |headers|)
  }

  /** Lines 144-152 on the `PREF` value: parse it, make sure an `f6` pref
      exists, rewrite the value of the first `f6` pref and serialise again. A
      bare `f6` segment has no value, and `modifyPrefIfRequired` throws on it:
      the rewrite throws a `TypeError` exactly when the first `f6` segment of
      the value is a bare `f6` with no `=`. */
  function RewritePrefValue(prefs: string, state: State): (r: Completion<string>)
    ensures r.Thrown? ==> r.error == TypeError
    ensures r.Thrown? <==>
      var q := ParsePrefs(prefs);
      var f := ExtractPrefByKey(q, RequiredKey);
      f.Some? && q[f.value] == [RequiredKey]
  {
    var q := ParsePrefs(prefs);
    var parsedPrefs := EnsureRequiredPref(q);
    RequiredPrefFound(prefs);
    var found := ExtractPrefByKey(parsedPrefs, RequiredKey);
    assert found.Some? && (|parsedPrefs[found.value]| < 2 <==>
      var f := ExtractPrefByKey(q, RequiredKey); f.Some? && q[f.value] == [RequiredKey]) by {
      if ExtractPrefByKey(q, RequiredKey).None? {
        assert parsedPrefs == q + [[RequiredKey, ""]];
        assert ExtractPrefByKey(parsedPrefs, RequiredKey) == Some(|q|);
      } else {
        assert parsedPrefs == q;
      }
    }
    if found.None? || |parsedPrefs[found.value]| < 2 then Thrown(TypeError)
    else
      var pref := parsedPrefs[found.value];
      Normal(JoinPrefs(parsedPrefs[found.value := pref[1 := ModifiedValue(pref[1], state.enable)]]))
  }

  /** The `f6` pref always exists once the list has been normalised. */
  lemma RequiredPrefFound(prefs: string)
    ensures ExtractPrefByKey(EnsureRequiredPref(ParsePrefs(prefs)), RequiredKey).Some?
  {
    var q := EnsureRequiredPref(ParsePrefs(prefs));
    var i :| 0 <= i < |q| && IsKey(q[i], RequiredKey);
  }

  /** Normalising keeps a parsed list well formed. */
  lemma EnsuredWellFormed(prefs: string)
    ensures WellFormed(EnsureRequiredPref(ParsePrefs(prefs)))
  {
    var p := ParsePrefs(prefs);
    var q := EnsureRequiredPref(p);
    if q != p {
      assert q == p + [[RequiredKey, ""]];
      assert q[|p|] == [RequiredKey, ""];
    }
  }

  /** Replacing the value of one pref by a separator-free string keeps a list well formed. */
  lemma UpdateWellFormed(q: seq<Pref>, i: nat, v: string)
    requires WellFormed(q) && i < |q| && |q[i]| >= 2
    requires '&' !in v && '=' !in v
    ensures WellFormed(q[i := q[i][1 := v]])
  {
    var out := q[i := q[i][1 := v]];
    forall a, b | 0 <= a < |out| && 0 <= b < |out[a]|
      ensures '&' !in out[a][b] && '=' !in out[a][b]
    {
      if a == i && b == 1 { assert out[a][b] == v; } else { assert out[a][b] == q[a][b]; }
    }
  }

  /** The rewritten value of a separator-free value is separator-free. */
  lemma ModifiedValueClean(value: string, enable: string)
    requires '&' !in value && '=' !in value
    ensures '&' !in ModifiedValue(value, enable) && '=' !in ModifiedValue(value, enable)
  {
    var v := ModifiedValue(value, enable);
    if '&' in v { ModifiedValueChars(value, enable, '&'); }
    if '=' in v { ModifiedValueChars(value, enable, '='); }
  }

  /** Changing the value of the first pref with key `key` leaves it the first one. */
  lemma UpdateKeepsFirstKey(q: seq<Pref>, i: nat, v: string, key: string)
    requires i < |q| && |q[i]| >= 2 && ExtractPrefByKey(q, key) == Some(i)
    ensures ExtractPrefByKey(q[i := q[i][1 := v]], key) == Some(i)
  {
    var out := q[i := q[i][1 := v]];
    assert forall j :: 0 <= j < |out| ==> (IsKey(out[j], key) <==> IsKey(q[j], key));
  }

  /** A successful rewrite produces a `PREF` value that parses to the normalised
      list of the input with only the first `f6` pref's value changed, that pref
      still the first `f6` pref, and its value ending in the digit `enable` asks for. */
  lemma RewritePrefValueEffect(prefs: string, state: State)
    requires RewritePrefValue(prefs, state).Normal?
    ensures
      var q := EnsureRequiredPref(ParsePrefs(prefs));
      var i := ExtractPrefByKey(q, RequiredKey).value;
      var out := ParsePrefs(RewritePrefValue(prefs, state).value);
      |q[i]| >= 2 &&
      out == q[i := q[i][1 := ModifiedValue(q[i][1], state.enable)]] &&
      ExtractPrefByKey(out, RequiredKey) == Some(i) &&
      InTarget(out[i][1][|out[i][1]| - 1], state.enable)
  {
    var q := EnsureRequiredPref(ParsePrefs(prefs));
    EnsuredWellFormed(prefs);
    var i := ExtractPrefByKey(q, RequiredKey).value;
    assert |q[i]| >= 2;
    ModifiedValueClean(q[i][1], state.enable);
    var v := ModifiedValue(q[i][1], state.enable);
    var out := q[i := q[i][1 := v]];
    assert RewritePrefValue(prefs, state).value == JoinPrefs(out);
    UpdateWellFormed(q, i, v);
    ParseJoinPrefs(out);
    assert out[i][1] == v && InTarget(v[|v| - 1], state.enable);
    UpdateKeepsFirstKey(q, i, v, RequiredKey);
  }

  /** The cookie branch (lines 133-154) on the header list: the first Cookie
      header, or an empty one appended, has its `PREF` cookie rewritten. */
  function CookieStage(headers: seq<Header>, state: State, cookies: CookieCodec): (r: Completion<seq<Header>>)
    ensures
      var f := FindHeader(headers, "cookie");
      var before := if f.Some? then headers[f.value].value else "";
      var rewritten := RewritePrefValue(cookies.getItem(before, "PREF", ""), state);
      (r.Thrown? <==> rewritten.Thrown?) &&
      (r.Normal? ==>
        FindHeader(r.value, "cookie").Some? &&
        r.value[FindHeader(r.value, "cookie").value].value == cookies.setItem(before, "PREF", rewritten.value))
    ensures r.Normal? ==> |headers| <= |r.value| <= |headers| + 1
    ensures r.Normal? ==> (|r.value| == |headers| + 1 <==> FindHeader(headers, "cookie").None?)
    ensures r.Normal? && |r.value| == |headers| + 1 ==> r.value[|headers|].name == "Cookie"
    ensures r.Normal? ==> forall k :: 0 <= k < |headers| ==> r.value[k].name == headers[k].name
    ensures r.Normal? ==> forall k :: 0 <= k < |headers| && k != FindHeader(r.value, "cookie").value ==> r.value[k] == headers[k]
  {
    LowerCookie();
    var (hs, i) := FindOrAppend(headers, "cookie", "Cookie");
    match RewritePrefValue(cookies.getItem(hs[i].value, "PREF", ""), state)
    case Thrown(e) => Thrown(e)
    case Normal(p) => Normal(WithValue(hs, i, cookies.setItem(hs[i].value, "PREF", p)))
  }

  /** The user-agent branch (lines 156-169): the first User-Agent header, or one
      appended, gets the crawler's value. */
  function UserAgentStage(headers: seq<Header>): (r: seq<Header>)
    ensures |headers| <= |r| <= |headers| + 1
    ensures FindHeader(r, "user-agent").Some?
    ensures r[FindHeader(r, "user-agent").value].value == Constants.GooglebotUserAgent
    ensures forall k :: 0 <= k < |headers| ==> r[k].name == headers[k].name
    ensures forall k :: 0 <= k < |headers| && k != FindHeader(r, "user-agent").value ==> r[k] == headers[k]
    ensures |r| == |headers| + 1 <==> FindHeader(headers, "user-agent").None?
    ensures |r| == |headers| + 1 ==> r[|headers|].name == "User-Agent"
  {
    LowerUserAgent();
    var (hs, i) := FindOrAppend(headers, "user-agent", "User-Agent");
    WithValue(hs, i, Constants.GooglebotUserAgent)
  }

  /** What `handleOnBeforeSendHeaders` does with a request's header list: no
      blocking response (`Normal(None)`) when no snapshot is loaded or
      rewriting is off, otherwise the (possibly rewritten) header list, or the
      error thrown from the cookie branch. Only the cookie branch can throw, and
      it throws and succeeds as `CookieStage`; `useragent` mode gives
      `UserAgentStage`'s list, whose first User-Agent header has the crawler's
      value; any other mode returns the list untouched. */
  function BeforeSendHeaders(globalState: Option<State>, headers: seq<Header>, cookies: CookieCodec): (r: Completion<Option<seq<Header>>>)
    ensures r == Normal(None) <==> globalState.None? || globalState.value.enable != "true"
    ensures r.Thrown? ==> globalState.value.mode == "cookie"
    ensures globalState.Some? && globalState.value.enable == "true" &&
            globalState.value.mode != "cookie" && globalState.value.mode != "useragent" ==>
              r == Normal(Some(headers))
    ensures r.Normal? && r.value.Some? && globalState.value.mode == "useragent" ==>
              FindHeader(r.value.value, "user-agent").Some? &&
              r.value.value[FindHeader(r.value.value, "user-agent").value].value == Constants.GooglebotUserAgent
    ensures globalState.Some? && globalState.value.enable == "true" && globalState.value.mode == "cookie" ==>
              (r.Thrown? <==> CookieStage(headers, globalState.value, cookies).Thrown?) &&
              (r.Normal? ==> r.value == Some(CookieStage(headers, globalState.value, cookies).value))
    ensures globalState.Some? && globalState.value.enable == "true" && globalState.value.mode == "useragent" ==>
              r == Normal(Some(UserAgentStage(headers)))
  {
    if globalState.None? || globalState.value.enable != "true" then Normal(None)
    else
      var state := globalState.value;
      var afterCookie := if state.mode == "cookie" then CookieStage(headers, state, cookies) else Normal(headers);
      match afterCookie
      case Thrown(e) => Thrown(e)
      case Normal(hs) => Normal(Some(if state.mode == "useragent" then UserAgentStage(hs) else hs))
  }

  /** At most one header is appended, no header is renamed, and the only old
      header whose value may change is the first Cookie header in `cookie` mode
      or the first User-Agent header in `useragent` mode. */
  lemma HeaderStageFootprint(globalState: Option<State>, headers: seq<Header>, cookies: CookieCodec)
    requires BeforeSendHeaders(globalState, headers, cookies).Normal?
    requires BeforeSendHeaders(globalState, headers, cookies).value.Some?
    ensures
      var h := BeforeSendHeaders(globalState, headers, cookies).value.value;
      var mode := globalState.value.mode;
      |headers| <= |h| <= |headers| + 1 &&
      (forall k :: 0 <= k < |headers| ==> h[k].name == headers[k].name) &&
      (forall k :: 0 <= k < |headers| && h[k] != headers[k] ==>
         (mode == "cookie" && FindHeader(h, "cookie") == Some(k)) ||
         (mode == "useragent" && FindHeader(h, "user-agent") == Some(k)))
  {
    var state := globalState.value;
    if state.mode == "cookie" {
      var c := CookieStage(headers, state, cookies);
      assert c.Normal?;
    }
  }

  /** The handler's early return on `enable` means the cookie branch always
      runs with `enable == "true"`: the first Cookie header of the list the
      handler returns carries a `PREF` value whose first `f6` value ends in `8`
      or `9`, never in the `0` of the other branch of `modifyPrefIfRequired`. */
  lemma CookieBranchOnlyEnables(globalState: Option<State>, headers: seq<Header>, cookies: CookieCodec)
    requires globalState.Some? && globalState.value.mode == "cookie"
    ensures BeforeSendHeaders(globalState, headers, cookies) != Normal(None) ==> globalState.value.enable == "true"
    ensures
      var r := BeforeSendHeaders(globalState, headers, cookies);
      r.Normal? && r.value.Some? ==>
        var h := r.value.value;
        var f := FindHeader(headers, "cookie");
        var before := if f.Some? then headers[f.value].value else "";
        var v := RewritePrefValue(cookies.getItem(before, "PREF", ""), globalState.value);
        v.Normal? && FlagEndsOn(v.value) &&
        FindHeader(h, "cookie").Some? && h[FindHeader(h, "cookie").value].value == cookies.setItem(before, "PREF", v.value)
  {
    var r := BeforeSendHeaders(globalState, headers, cookies);
    if r.Normal? && r.value.Some? {
      var f := FindHeader(headers, "cookie");
      var before := if f.Some? then headers[f.value].value else "";
      var c := CookieStage(headers, globalState.value, cookies);
      assert c.Normal? && r.value.value == c.value;
      EnabledRewriteDigit(cookies.getItem(before, "PREF", ""), globalState.value);
    }
  }

  /** The first `f6` pref of the `PREF` value has a value, and it ends in `8` or `9`. */
  predicate FlagEndsOn(prefs: string)
  {
    var out := ParsePrefs(prefs);
    var i := ExtractPrefByKey(out, RequiredKey);
    i.Some? && |out[i.value]| >= 2 && |out[i.value][1]| >= 1 &&
    out[i.value][1][|out[i.value][1]| - 1] in "89"
  }

  /** With rewriting on, a successful rewrite leaves the first `f6` value ending in `8` or `9`. */
  lemma EnabledRewriteDigit(prefs: string, state: State)
    requires state.enable == "true"
    ensures RewritePrefValue(prefs, state).Normal? ==> FlagEndsOn(RewritePrefValue(prefs, state).value)
  {
    if RewritePrefValue(prefs, state).Normal? {
      RewritePrefValueEffect(prefs, state);
      var out := ParsePrefs(RewritePrefValue(prefs, state).value);
      var i := ExtractPrefByKey(out, RequiredKey).value;
      var c := out[i][1][|out[i][1]| - 1];
      assert InTarget(c, state.enable);
      assert c == '8' || c == '9';
    }
  }

  /** The request details whose header list the handler rewrites in place. */
  class RequestDetails {
    var requestHeaders: seq<Header>
  }

  /** The find-or-push of lines 134-141 and 157-166 on the list of `details`;
      gives the position of the header found or pushed. */
  method FindOrPushHeader(details: RequestDetails, lname: string, name: string) returns (i: nat)
    modifies details
    ensures (details.requestHeaders, i) == FindOrAppend(old(details.requestHeaders), lname, name)
  {
    var found := FindHeader(details.requestHeaders, lname);
    if found.None? {
      details.requestHeaders := details.requestHeaders + [Header(name, "")];
      i := |details.requestHeaders| - 1;
    } else {
      i := found.value;
    }
  }

  /** The cookie branch, lines 133-154, in place. */
  method RewriteCookieHeader(details: RequestDetails, state: State, cookies: CookieCodec) returns (r: Completion<()>)
    modifies details
    ensures r.Thrown? <==> CookieStage(old(details.requestHeaders), state, cookies).Thrown?
    ensures r.Normal? ==> details.requestHeaders == CookieStage(old(details.requestHeaders), state, cookies).value
    ensures r.Thrown? ==> details.requestHeaders == FindOrAppend(old(details.requestHeaders), "cookie", "Cookie").0
  {
    LowerCookie();
    var i := FindOrPushHeader(details, "cookie", "Cookie");
    var cookieValue := details.requestHeaders[i].value;
    var prefs := cookies.getItem(cookieValue, "PREF", "");
    var parsedPrefs := EnsureRequiredPref(ParsePrefs(prefs));
    var k := ExtractPrefByKey(parsedPrefs, RequiredKey);
    if k.None? || |parsedPrefs[k.value]| < 2 {
      return Thrown(TypeError);
    }
    var found := parsedPrefs[k.value];
    var pref := new string[|found|](j requires 0 <= j < |found| => found[j]);
    assert pref[..] == found;
    ModifyPrefIfRequired(pref, state);
    parsedPrefs := parsedPrefs[k.value := pref[..]];
    details.requestHeaders := WithValue(details.requestHeaders, i, cookies.setItem(cookieValue, "PREF", JoinPrefs(parsedPrefs)));
    return Normal(());
  }

  /** The user-agent branch, lines 156-169, in place. */
  method RewriteUserAgentHeader(details: RequestDetails)
    modifies details
    ensures details.requestHeaders == UserAgentStage(old(details.requestHeaders))
  {
    LowerUserAgent();
    var i := FindOrPushHeader(details, "user-agent", "User-Agent");
    details.requestHeaders := WithValue(details.requestHeaders, i, Constants.GooglebotUserAgent);
  }

  /** `handleOnBeforeSendHeaders`: the header list of `details` is updated in
      place (a pushed header, a new value) and returned. When the cookie branch
      throws, the Cookie header it pushed stays. */
  method HandleOnBeforeSendHeaders(globalState: Option<State>, details: RequestDetails, cookies: CookieCodec)
    returns (r: Completion<Option<seq<Header>>>)
    modifies details
    ensures r == BeforeSendHeaders(globalState, old(details.requestHeaders), cookies)
    ensures r.Normal? && r.value.Some? ==> details.requestHeaders == r.value.value
    ensures r.Normal? && r.value.None? ==> details.requestHeaders == old(details.requestHeaders)
    ensures r.Thrown? ==> details.requestHeaders == FindOrAppend(old(details.requestHeaders), "cookie", "Cookie").0
  {
    if globalState.None? { return Normal(None); }
    var state := globalState.value;
    if state.enable != "true" { return Normal(None); }
    // Lines 128-131: an `if` whose body is the empty statement; it has no effect.

    if state.mode == "cookie" {
      var outcome := RewriteCookieHeader(details, state, cookies);
      if outcome.Thrown? {
        LowerCookie();
        return Thrown(TypeError);
      }
    }

    if state.mode == "useragent" {
      RewriteUserAgentHeader(details);
    }

    return Normal(Some(details.requestHeaders));
  }
}
