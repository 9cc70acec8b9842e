/** The settings snapshot every handler reads, and how it is refreshed from storage. */
module GlobalState {
  import opened Wrappers

  /** The settings as stored: three strings, compared verbatim by the handlers
      (`enable` is `"true"` or something else, `homepage` is e.g. `"home"` or
      `"subscriptions"`, `mode`, stored under the key `method`, is `"redirect"`, `"cookie"` or `"useragent"`). */
  datatype State = State(enable: string, homepage: string, mode: string)

  /** What storage returns for the three keys: a string, or nothing for an unset key. */
  datatype StoredItems = StoredItems(enable: Option<string>, homepage: Option<string>, mode: Option<string>)

  const DefaultEnable := "true"
  const DefaultHomepage := "home"
  const DefaultMethod := "useragent"

  /** JavaScript's `v || fallback` for a string-or-undefined `v`: both `undefined`
      and the empty string are falsy. */
  function OrElse(v: Option<string>, fallback: string): (r: string)
    ensures v.Some? && v.value != "" ==> r == v.value
    ensures v.None? || v.value == "" ==> r == fallback
  {
    if v.Some? && v.value != "" then v.value else fallback
  }

  /** The snapshot built from what storage returned: a stored non-empty value is
      kept, anything else takes its default, so no field of the result is empty. */
  function GetStoredState(stored: StoredItems): (s: State)
    ensures s.enable != "" && s.homepage != "" && s.mode != ""
    ensures stored.enable.Some? && stored.enable.value != "" ==> s.enable == stored.enable.value
    ensures stored.homepage.Some? && stored.homepage.value != "" ==> s.homepage == stored.homepage.value
    ensures stored.mode.Some? && stored.mode.value != "" ==> s.mode == stored.mode.value
    ensures stored.enable.None? || stored.enable.value == "" ==> s.enable == DefaultEnable
    ensures stored.homepage.None? || stored.homepage.value == "" ==> s.homepage == DefaultHomepage
    ensures stored.mode.None? || stored.mode.value == "" ==> s.mode == DefaultMethod
  {
    State(OrElse(stored.enable, DefaultEnable),
          OrElse(stored.homepage, DefaultHomepage),
          OrElse(stored.mode, DefaultMethod))
  }

  /** The process-wide `globalState`: `None` (JavaScript `null`) until the first
      read of storage completes. */
  class Cache {
    var globalState: Option<State>

    constructor ()
      ensures globalState == None
    {
      globalState := None;
    }

    /** The storage callback of `reloadGlobalState`: the snapshot is replaced
        wholesale by the defaulted copy of what storage returned, whatever it was before. */
    method ReloadGlobalState(stored: StoredItems)
      modifies this
      ensures globalState == Some(GetStoredState(stored))
    {
      globalState := Some(GetStoredState(stored));
    }
  }
}
