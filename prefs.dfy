/** The codec for the value of the `PREF` cookie: `&`-separated segments, each
    split on every `=`, and the rewrite of the trailing character of the `f6`
    entry's value. */
module Prefs {
  import opened Wrappers
  import opened JsText
  import JsArray
  import opened GlobalState

  /** One `&`-segment split on every `=`: `"f6=400"` is `["f6", "400"]`, a bare
      `"f6"` is `["f6"]`, and `"a=b=c"` is `["a", "b", "c"]`. Part 0 is the key,
      part 1 the value. */
  type Pref = seq<string>

  /** The key whose value carries the legacy-layout flag. */
  const RequiredKey := "f6"

  /** `parsePrefs`: split on `&`, then every segment on `=`. The result is
      well formed: at least one pref, none empty, no part holding a separator. */
  function ParsePrefs(s: string): (r: seq<Pref>)
    ensures WellFormed(r)
  {
    var segments := Split(s, '&');
    var r := seq(|segments|, i requires 0 <= i < |segments| => Split(segments[i], '='));
    assert forall i, j :: 0 <= i < |r| && 0 <= j < |r[i]| ==> '&' !in r[i][j] by {
      forall i, j | 0 <= i < |r| && 0 <= j < |r[i]|
        ensures '&' !in r[i][j]
      {
        assert '&' !in segments[i];
      }
    }
    r
  }

  /** The empty value, what a missing `PREF` cookie reads as, parses to one
      empty pref holding one empty part. */
  lemma EmptyParse()
    ensures ParsePrefs("") == [[""]]
  {
  }

  /** `joinPrefs`: join every pref's parts with `=`, then the prefs with `&`.
      No prefs give the empty string; otherwise the value starts with the
      first pref's parts joined by `=`. */
  function JoinPrefs(prefs: seq<Pref>): (r: string)
    ensures |prefs| == 0 ==> r == ""
    ensures |prefs| >= 1 ==> Join(prefs[0], '=') <= r
  {
    Join(seq(|prefs|, i requires 0 <= i < |prefs| => Join(prefs[i], '=')), '&')
  }

  /** The pref lists `ParsePrefs` can produce: at least one pref, every pref with
      at least one part, and no part holding a separator. */
  predicate WellFormed(prefs: seq<Pref>)
  {
    |prefs| >= 1 &&
    forall i :: 0 <= i < |prefs| ==>
      |prefs[i]| >= 1 &&
      forall j :: 0 <= j < |prefs[i]| ==> '&' !in prefs[i][j] && '=' !in prefs[i][j]
  }

  /** Every string is the serialisation of its parse: the codec loses nothing. */
  lemma JoinParsePrefs(s: string)
    ensures JoinPrefs(ParsePrefs(s)) == s
  {
    var segments := Split(s, '&');
    var prefs := ParsePrefs(s);
    var joined := seq(|prefs|, i requires 0 <= i < |prefs| => Join(prefs[i], '='));
    forall i | 0 <= i < |segments|
      ensures joined[i] == segments[i]
    {
      JoinSplit(segments[i], '=');
    }
    assert joined == segments;
    JoinSplit(s, '&');
  }

  /** On well-formed lists, parsing the serialisation gives the list back. */
  lemma ParseJoinPrefs(prefs: seq<Pref>)
    requires WellFormed(prefs)
    ensures ParsePrefs(JoinPrefs(prefs)) == prefs
  {
    var joined := seq(|prefs|, i requires 0 <= i < |prefs| => Join(prefs[i], '='));
    forall i | 0 <= i < |prefs|
      ensures '&' !in joined[i] && Split(joined[i], '=') == prefs[i]
    {
      JoinExcludes(prefs[i], '=', '&');
      SplitJoin(prefs[i], '=');
    }
    SplitJoin(joined, '&');
  }

  /** `pref[0] === key`: the pref's parts start with `key`. The key of an empty
      pref is `undefined`, which matches no key. */
  function IsKey(pref: Pref, key: string): (r: bool)
    ensures r <==> [key] <= pref
    ensures pref == [] ==> !r
  {
    |pref| > 0 && pref[0] == key
  }

  /** The `reduce` of `ensureRequiredPref`: the accumulator becomes `true` at a
      pref with the required key and otherwise is passed on. */
  function RequiredKeyFold(prefs: seq<Pref>, acc: bool): (r: bool)
    ensures r <==> acc || exists i :: 0 <= i < |prefs| && IsKey(prefs[i], RequiredKey)
    decreases |prefs|
  {
    if |prefs| == 0 then acc
    else RequiredKeyFold(prefs[1..], if IsKey(prefs[0], RequiredKey) then true else acc)
  }

  /** `ensureRequiredPref`: a list that already has an `f6` pref is returned as it
      is; otherwise `["f6", ""]` is appended. Either way the result has an `f6`
      pref and begins with the input, in order. */
  function EnsureRequiredPref(prefs: seq<Pref>): (r: seq<Pref>)
    ensures exists i :: 0 <= i < |r| && IsKey(r[i], RequiredKey)
    ensures (exists i :: 0 <= i < |prefs| && IsKey(prefs[i], RequiredKey)) ==> r == prefs
    ensures (forall i :: 0 <= i < |prefs| ==> !IsKey(prefs[i], RequiredKey)) ==>
              r == prefs + [[RequiredKey, ""]]
  {
    var found := RequiredKeyFold(prefs, false);
    if found then prefs
    else
      var r := prefs + [[RequiredKey, ""]];
      assert IsKey(r[|prefs|], RequiredKey);
      r
  }

  /** `extractPrefByKey`: `find` returns the first pref whose key is `key`, which
      the caller then updates in place; the model returns that pref's position. */
  function ExtractPrefByKey(prefs: seq<Pref>, key: string): (r: Option<nat>)
    ensures r.Some? ==> r.value < |prefs| && IsKey(prefs[r.value], key)
    ensures r.Some? ==> forall j :: 0 <= j < r.value ==> !IsKey(prefs[j], key)
    ensures r.None? <==> forall j :: 0 <= j < |prefs| ==> !IsKey(prefs[j], key)
  {
    JsArray.FindIndex(prefs, (pref: Pref) => IsKey(pref, key))
  }

  /** `matchLastBit`: the last character of `str` is one of `chars`. The empty
      string has no last character and matches nothing. */
  function MatchLastBit(str: string, chars: seq<string>): (r: bool)
    ensures r <==> |str| > 0 && [str[|str| - 1]] in chars
  {
    var lastBit := LastChar(str);
    var found := JsArray.Find(chars, (c: string) => c == lastBit);
    found.Some? && found.value != ""
  }

  /** `replaceLastBit`: the last character of `str` replaced by `ch`; on the empty
      string, just `ch`. */
  function ReplaceLastBit(str: string, ch: string): (r: string)
    ensures |str| > 0 ==> |r| == |str| - 1 + |ch|
    ensures |str| > 0 ==> r[..|str| - 1] == str[..|str| - 1] && r[|str| - 1..] == ch
    ensures |str| == 0 ==> r == ch
  {
    DropLast(str) + ch
  }

  /** The first trailing character of a value wanted for `enable`: `8`/`9` mean
      on, `0`/`1` mean off. */
  predicate InTarget(c: char, enable: string)
  {
    if enable == "true" then c == '8' || c == '9' else c == '0' || c == '1'
  }

  /** The value `modifyPrefIfRequired` leaves in `pref[1]`. Its last character is
      `8` or `9` when `enable` is `"true"` and `0` or `1` otherwise; it is the digit
      `8` or `0` unless the value already ended in the target set, in which case
      the value is unchanged; everything before the last character is kept; an
      empty value becomes the single digit. */
  function ModifiedValue(value: string, enable: string): (r: string)
    ensures |r| == if |value| == 0 then 1 else |value|
    ensures r[..|r| - 1] == value[..|r| - 1]
    ensures InTarget(r[|r| - 1], enable)
    ensures |value| > 0 && InTarget(value[|value| - 1], enable) ==> r == value
    ensures |value| == 0 || !InTarget(value[|value| - 1], enable) ==>
              r[|r| - 1] == if enable == "true" then '8' else '0'
  {
    if enable == "true" && !MatchLastBit(value, ["8", "9"]) then ReplaceLastBit(value, "8")
    else if enable != "true" && !MatchLastBit(value, ["0", "1"]) then ReplaceLastBit(value, "0")
    else value
  }

  /** Rewriting a value a second time with the same setting changes nothing. */
  lemma ModifiedValueIdempotent(value: string, enable: string)
    ensures ModifiedValue(ModifiedValue(value, enable), enable) == ModifiedValue(value, enable)
  {
  }

  /** The rewrite introduces no character other than the digit it writes. */
  lemma ModifiedValueChars(value: string, enable: string, c: char)
    requires c in ModifiedValue(value, enable)
    ensures c in value || c == '8' || c == '0'
  {
    var r := ModifiedValue(value, enable);
    var k :| 0 <= k < |r| && r[k] == c;
    if k < |r| - 1 {
      assert r[k] == value[..|r| - 1][k];
    } else if r != value {
      assert r[k] == if enable == "true" then '8' else '0';
    }
  }

  /** `modifyPrefIfRequired`: the pref's value, `pref[1]`, is rewritten in place;
      the other parts of the pref are untouched. The source reads `pref[1]` with
      `.substr`, so a pref without a value makes it throw; the handler checks
      this before calling. */
  method ModifyPrefIfRequired(pref: array<string>, state: State)
    requires pref.Length >= 2
    modifies pref
    ensures pref[..] == old(pref[..])[1 := ModifiedValue(old(pref[1]), state.enable)]
  {
    if state.enable == "true" && !MatchLastBit(pref[1], ["8", "9"]) {
      pref[1] := ReplaceLastBit(pref[1], "8");
    } else if state.enable != "true" && !MatchLastBit(pref[1], ["0", "1"]) {
      pref[1] := ReplaceLastBit(pref[1], "0");
    }
  }
}
