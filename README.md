# YouTube Classic: the request-rewriting core

A Dafny model of the background script of the YouTube Classic browser
extension (`background.js`). The extension makes the site serve its legacy
rendering. Depending on the stored `method` setting, it does this in one of
three ways:

- **`redirect`**: adds the `disable_polymer=1` query parameter to page requests.
- **`cookie`**: sets the last character of the first `f6` value of the `PREF`
  cookie to `8`, unless it is already `8` or `9`.
- **`useragent`**: replaces the request's User-Agent header with the Googlebot
  crawler's.

Separately, when the chosen landing page is `subscriptions`, it sends a tab
whose home-page response sets a cookie to the subscriptions feed.

The model has these modules:

- `Wrappers`: `Option`, and `Completion`, which stands for a JavaScript call
  that either returns or throws.
- `JsText` and `JsArray`: the JavaScript string and array built-ins the script
  uses (`split`, `join`, `indexOf`, `substr(-1)`, `slice(0, -1)`,
  `toLowerCase`, `find`).
- `Constants`: the base URL and the crawler's User-Agent string.
- `Prefs`: the `PREF` value codec and the `f6` rewrite.
- `GlobalState`: the settings defaults and the cached snapshot. The snapshot
  is a class whose field `reloadGlobalState` replaces.
- `Http`: the header record and its case-insensitive lookup.
- `Redirect`: `handleOnBeforeRequest`, as a method with the source's loop.
- `RequestHeaders`: `handleOnBeforeSendHeaders`. A pure function describes
  the result, and methods update the header list of a `RequestDetails`
  object in place.
- `Navigation`: `handleOnResponseStarted`, as a function returning the
  target URL, if any.
- `Policy`: how the three modes exclude each other.
- `Scenarios`: worked examples on concrete cookies, URLs and headers.

Six behaviours of the code are easy to miss:

- A pref is the list of all parts of a segment split on *every* `=`, not a
  key/value pair split at the first `=`. This makes
  `joinPrefs(parsePrefs(s)) == s` hold for every string.
- Only the first two `?`-separated pieces of a URL are used, so any text
  after a second `?` is dropped from the redirect URL
  (`Redirect.SecondQuestionMarkDropped`).
- When the first `f6` segment of the `PREF` cookie is a bare `f6` with no
  `=`, the cookie branch throws a `TypeError`. A bare `f6` after an earlier
  `f6=…` segment does no harm. The model keeps that error path
  (`RequestHeaders.RewritePrefValue`).
- With no `PREF` cookie, or no Cookie header at all, the value read is `""`.
  It parses to `[[""]]` (`Prefs.EmptyParse`), so the `f6` pref is appended
  after an empty segment and the rewritten value is `&f6=8`, with a leading
  `&` (`Scenarios.EmptyPrefExample`).
- The `if (...);` at lines 128-131 has an empty body and no effect.
- Line 127 returns early, so the `0` branch of `modifyPrefIfRequired` is
  never reached from the header handler
  (`RequestHeaders.CookieBranchOnlyEnables`). The function itself keeps both
  branches.

## Model

| member | source | states |
|---|---|---|
| JsText.Split | background.js:10 | `split` on a one-character separator: at least one piece, no piece holds the separator, and every character of a piece comes from the input |
| JsText.JoinSplit | background.js:10-14 | joining the pieces of a split with the same separator gives back the original string |
| JsText.SplitJoin | background.js:105-106 | splitting the join of separator-free parts gives back those parts |
| JsText.Join | background.js:14 | `join`: no parts give `""`, and the result starts with the first part (its round trips with `Split` are `JoinSplit` and `SplitJoin`) |
| JsText.Contains | background.js:110 | `indexOf(sub) !== -1`: true exactly when `sub` occurs at some position of `s` |
| JsText.DropLast | background.js:53 | `slice(0, -1)`: all but the last character, and `""` stays `""` |
| JsText.LastChar | background.js:46 | `substr(-1)`: the last character as a string, and `""` for the empty string |
| JsText.ToLower | background.js:135 | `toLowerCase` on ASCII: the length is kept, no upper-case ASCII letter remains, each upper-case letter becomes its lower-case one and every other character is kept |
| JsArray.FindIndex | background.js:34 | `find` as a position: the first element satisfying the predicate, or none exactly when no element does |
| JsArray.Find | background.js:47 | an element is found exactly when one satisfies the predicate; the one found satisfies it and is the element at the first position satisfying it |
| Prefs.ParsePrefs | background.js:9-11 | `parsePrefs` gives a well-formed list: non-empty, every pref with at least one part, no part holding `&` or `=` |
| Prefs.JoinPrefs | background.js:13-15 | `joinPrefs`: no prefs give `""`, otherwise the value starts with the first pref's parts joined by `=` (the round trips are `JoinParsePrefs` and `ParseJoinPrefs`) |
| Prefs.EmptyParse | background.js:9-11 | `parsePrefs("")` is `[[""]]`: one pref holding one empty part |
| Prefs.JoinParsePrefs | background.js:9-15 | `joinPrefs(parsePrefs(s)) == s` for every string `s` |
| Prefs.ParseJoinPrefs | background.js:9-15 | parsing the join of a well-formed pref list gives back that list |
| Prefs.IsKey | background.js:34 | `pref[0] === key` (and `pref[0] === "f6"` at line 19): true exactly when the pref's parts start with `key`; an empty pref matches no key |
| Prefs.RequiredKeyFold | background.js:18-24 | the `reduce` yields true exactly when the seed is true or some pref has key `f6` |
| Prefs.EnsureRequiredPref | background.js:17-31 | the result always has an `f6` pref; a list that had one is returned unchanged; otherwise the result is the input followed by exactly `["f6", ""]` |
| Prefs.ExtractPrefByKey | background.js:33-35 | the position of the first pref whose key is `key`, or none exactly when no pref has that key |
| Prefs.MatchLastBit | background.js:45-50 | true exactly when the string is non-empty and its last character is one of `chars` |
| Prefs.ReplaceLastBit | background.js:52-54 | all but the last character are kept and `ch` follows them; the empty string becomes `ch` |
| Prefs.ModifiedValue | background.js:38-41 | the value keeps its length (an empty value becomes one digit) and all but its last character; the last character is `8`/`9` when `enable` is `"true"` and `0`/`1` otherwise; a value already in that set is unchanged, any other gets `8` or `0` |
| Prefs.ModifiedValueIdempotent | background.js:38-41 | rewriting twice with the same setting equals rewriting once |
| Prefs.ModifiedValueChars | background.js:37-54 | the rewrite introduces no character other than the digit it writes |
| Prefs.ModifyPrefIfRequired | background.js:37-43 | in place on the pref array: `pref[1]` becomes the rewritten value and the other parts are untouched |
| GlobalState.OrElse | background.js:59-61 | the or-default of JavaScript: a non-empty string is kept, and an unset or empty one gives the fallback |
| GlobalState.GetStoredState | background.js:56-64 | each setting is the stored value when it is non-empty and otherwise `"true"`, `"home"` or `"useragent"`; no field of the snapshot is empty |
| GlobalState.Cache.constructor | background.js:7 | the snapshot starts as null |
| GlobalState.Cache.ReloadGlobalState | background.js:70-74 | the snapshot is replaced wholesale by the defaulted stored settings |
| Http.FindHeader | background.js:134-136 | the first header whose lower-cased name is `lname`, or none exactly when no header has it |
| Http.FindHeaderByNames | background.js:134-136 | the header search depends on the names only |
| Http.WithValue | background.js:153 | assigning one header's value keeps its name, every other header, the length and every header search |
| Redirect.RedirectTarget | background.js:101-117 | a redirect URL exists exactly when the three guards hold and no query parameter contains `disable_polymer`; it starts with the text before the first `?`, then `?`, then the first original parameter if there is one |
| Redirect.HandleOnBeforeRequest | background.js:100-118 | a redirect happens exactly when a snapshot is loaded, `enable` is `"true"`, the method is `redirect` and no query parameter contains `disable_polymer`; its URL is the base URL, `?`, the original parameters and `disable_polymer=1` joined by `&` |
| Redirect.UrlBeforeQuery | background.js:105 | `baseUrl`: the longest prefix of the URL without a `?`, followed in the URL by a `?` or by nothing |
| Redirect.QueryParams | background.js:105-106 | the parameters hold no `?` or `&`; joined on `&` they give back the text between the first and the second `?` (empty without a `?`); there are none exactly when that text is missing or empty, the falsy `queryString`, so text after a second `?` never reaches them |
| Redirect.RedirectEnabled | background.js:101-103 | the guards pass exactly for a loaded snapshot with `enable` `"true"` and method `redirect`, whatever its landing page |
| Redirect.RedirectEnabledStored | background.js:59-61 | after a reload the guards pass exactly when the stored method is `redirect` and the stored `enable` is `"true"`, empty or unset |
| Redirect.HasMarker | background.js:108-113 | the loop's flag: true exactly when `disable_polymer` starts at some position of some parameter |
| Redirect.RedirectShape | background.js:115-117 | the redirect URL has the same base URL, and its parameters are the original ones in order followed by `disable_polymer=1` |
| Redirect.NoRedirectLoop | background.js:108-118 | the URL a redirect goes to is not redirected again |
| Redirect.MarkedUrlNotRedirected | background.js:108-115 | a URL with some parameter containing `disable_polymer` is never redirected |
| RequestHeaders.FindOrAppend | background.js:134-141 | the header list is unchanged when a header with that lower-cased name exists, and otherwise gains `{name, ""}` at the end; the position is that of the first header with the name |
| RequestHeaders.RequiredPrefFound | background.js:145-148 | after `ensureRequiredPref`, an `f6` pref is always found |
| RequestHeaders.RewritePrefValue | background.js:144-152 | the `PREF` rewrite throws, and then a `TypeError`, exactly when the first `f6` segment of the value is a bare `f6` with no `=` (what a successful rewrite gives is `RewritePrefValueEffect`) |
| RequestHeaders.EnsuredWellFormed | background.js:145 | the normalised pref list is well formed |
| RequestHeaders.UpdateWellFormed | background.js:147-152 | replacing one pref's value by a separator-free string keeps a list well formed |
| RequestHeaders.ModifiedValueClean | background.js:147-152 | the rewritten value of a separator-free value holds no `&` or `=` |
| RequestHeaders.RewritePrefValueEffect | background.js:144-152 | the new `PREF` value parses to the normalised list with only the first `f6` pref's value rewritten; that pref is still the first `f6` pref, and its value ends in the digit `enable` asks for |
| RequestHeaders.CookieStage | background.js:133-154 | the stage throws exactly when the rewrite does; otherwise the first Cookie header carries `setItem(old cookie, "PREF", rewritten value)`; one `Cookie` header is appended exactly when none existed; no name changes; every other header is untouched |
| RequestHeaders.UserAgentStage | background.js:156-169 | the first User-Agent header carries the Googlebot string; one header named `User-Agent` is appended exactly when none existed; no name changes; every other header is untouched |
| RequestHeaders.BeforeSendHeaders | background.js:126-173 | no blocking response exactly when no snapshot is loaded or `enable` is not `"true"`; only `cookie` mode can throw; with rewriting on, `cookie` mode throws exactly when `CookieStage` does and otherwise returns its list, `useragent` mode returns `UserAgentStage`'s list, with the Googlebot string on the first User-Agent header, and any other mode returns the list untouched |
| RequestHeaders.HeaderStageFootprint | background.js:133-169 | at most one header is appended and none renamed; the only old header whose value may change is the first Cookie header in `cookie` mode or the first User-Agent header in `useragent` mode |
| RequestHeaders.CookieBranchOnlyEnables | background.js:127-154 | in `cookie` mode the handler gets past its guards only when `enable` is `"true"`; when it returns a list, the first Cookie header of that list is `setItem(old cookie, "PREF", v)` for a `PREF` value `v` whose first `f6` value ends in `8` or `9` |
| RequestHeaders.EnabledRewriteDigit | background.js:38-39 | with `enable` `"true"`, a successful `PREF` rewrite leaves the first `f6` value ending in `8` or `9` |
| RequestHeaders.FindOrPushHeader | background.js:134-141 | in place: the header list and the position are those of `FindOrAppend` on the old list |
| RequestHeaders.RewriteCookieHeader | background.js:133-154 | in place: the header list becomes the cookie stage's result, or, when it throws, keeps the pushed Cookie header |
| RequestHeaders.RewriteUserAgentHeader | background.js:156-169 | in place: the header list becomes the user-agent stage's result |
| RequestHeaders.HandleOnBeforeSendHeaders | background.js:125-173 | in place: the result is `BeforeSendHeaders` of the old list; the list the handler returns is the new header list; with no blocking response the list is unchanged; after a throw only the pushed Cookie header remains |
| Navigation.HandleOnResponseStarted | background.js:180-193 | a navigation is issued exactly when a snapshot is loaded, `enable` is `"true"`, `homepage` is `"subscriptions"` and some response header's lower-cased name is `set-cookie`; its target is `https://www.youtube.com/feed/subscriptions` |
| Policy.ModeExclusive | background.js:101-169 | a redirected request passes the header stage untouched; a header stage that throws or changes the list implies no redirect, and the mode is `cookie` or `useragent` |
| Scenarios.CookieEnableExample | background.js:144-152 | `ID=1&f6=400` with rewriting on becomes `ID=1&f6=408` |
| Scenarios.EmptyPrefExample | background.js:143-152 | an empty `PREF` value with rewriting on becomes `&f6=8` |
| Scenarios.CookieDisableExample | background.js:144-152 | `ID=1` with rewriting off becomes `ID=1&f6=0` |
| Scenarios.RedirectExample | background.js:105-117 | `https://www.youtube.com/?foo=bar` redirects to `https://www.youtube.com/?foo=bar&disable_polymer=1` |
| Scenarios.MarkedExample | background.js:108-115 | `https://www.youtube.com/?foo=bar&disable_polymer=1` is not redirected |
| Redirect.SecondQuestionMarkDropped | background.js:105 | a URL with a second `?` redirects exactly as the text before that second `?` would: everything after it is lost |
| Scenarios.SecondQuestionMarkExample | background.js:105-117 | `https://www.youtube.com/?foo=bar?b` redirects to `https://www.youtube.com/?foo=bar&disable_polymer=1` |
| Scenarios.NavigationExample | background.js:185-192 | a `Set-Cookie` response header triggers the navigation, and a `Content-Type` one does not |

## Left out

- `CookieStore` (used at lines 143-153) is not part of this model. Its
  `getItem` and `setItem`/`stringify` are the two fields of a `CookieCodec`
  value passed in, and nothing is assumed about them.
- Listener registration, the URL filters and the `blocking`/`extraHeaders`
  option lists (lines 99-122, 175-177, 195-197) are host API plumbing and
  are not modelled.
- `detectChromeMajorVersion`, `onBeforeSendHeadersOptions` and
  `onResponseStartedOptions` (lines 76-97) are not modelled. They only sniff
  the browser version from the user agent to choose listener options.
- `browser.storage.local` reads and writes, `setState` and the asynchronous
  callback timing (lines 56-68) are not modelled. What storage returns is a
  `StoredItems` parameter, and the callback is `Cache.ReloadGlobalState`.
- `browser.tabs.update` (line 190) is not modelled. The navigation is the
  returned URL, and the tab id is omitted.
- The `runtime.onMessage` handler for `GET_STATE`/`SET_STATE`
  (lines 199-215) is message passing and is not modelled.
- `console.log` (line 171) is not modelled.
- What the browser does with a listener that throws is not modelled. The
  model returns `Thrown` and keeps the header list as mutated up to the
  throw.
- JsText.ToLower: only ASCII letters are folded. JavaScript's full Unicode
  case mapping is not modelled.
- Strings are sequences of Unicode scalar values, not of UTF-16 code units
  as in JavaScript. `substr(-1)` and `slice(0, -1)` (lines 46, 53) therefore
  differ from `JsText.LastChar` and `JsText.DropLast` on a value that ends in
  a character outside the Basic Multilingual Plane: JavaScript splits the
  surrogate pair, the model takes the whole character. Cookie values and
  header names are ASCII in practice.
- Http.Header: a header's `binaryValue` is not modelled.
- Prefs.ModifyPrefIfRequired: requires a pref with at least two parts. The
  source throws on a bare `f6` instead; that error path is modelled in
  `RequestHeaders.RewritePrefValue` and `RequestHeaders.RewriteCookieHeader`,
  which check before calling it.
- RequestHeaders.RewriteCookieHeader: the source mutates the pref through
  the list's shared reference. The model copies the pref into an array,
  updates it in place, and writes it back into the list.
