/** `ModeContextProvider`: the application mode, its persisted copy under the
    `appMode` storage key, and the value it provides to the views. */
module ModeContext {
  import opened Js
  import opened Types
  import Matcha

  /** The mode's name as stored and compared (`'coffee'`, `'matcha'`). */
  function Name(m: AppMode): (r: string)
    ensures r == "coffee" || r == "matcha"
    ensures r == "coffee" <==> m == Coffee
  {
    match m
    case Coffee => "coffee"
    case Matcha => "matcha"
  }

  const StorageKey: string := "appMode"

  /** The initial state: `'coffee'` without a window; otherwise the saved
      value when it names a mode, and `'coffee'` for anything else. */
  function InitialMode(hasWindow: bool, saved: Option<string>): (m: AppMode)
    ensures !hasWindow ==> m == Coffee
    ensures hasWindow ==> (m == Matcha <==> saved == Some("matcha"))
    ensures hasWindow && saved.Some? && saved.value in {"coffee", "matcha"} ==> Name(m) == saved.value
  {
    if !hasWindow then Coffee
    else if saved == Some("matcha") then Matcha
    else Coffee
  }

  /** The mode written to storage reads back as the same mode. */
  lemma StoredModeReadsBack(m: AppMode)
    ensures InitialMode(true, Some(Name(m))) == m
  {
  }

  /** `toggleMode`'s update. */
  function Toggle(m: AppMode): (r: AppMode)
    ensures r != m
  {
    if m == Coffee then Matcha else Coffee
  }

  lemma ToggleTwice(m: AppMode)
    ensures Toggle(Toggle(m)) == m
  {
  }

  datatype Theme = Theme(primary: string, text: string)

  /** The dataset a mode provides. */
  datatype Dataset = CoffeeData(roasteries: seq<Roastery>) | MatchaData(places: seq<Matcha.MatchaPlace>)

  /** The provided value (without `toggleMode`, which is `ModeProvider.ToggleMode`). */
  datatype ContextValue = ContextValue(mode: AppMode, appMode: AppMode, data: Dataset, theme: Theme)

  function ThemeOf(m: AppMode): (t: Theme)
    ensures m == Coffee ==> t.primary == "blue-600" && t.text == "text-blue-900"
    ensures m == Matcha ==> t.primary == "emerald-600" && t.text == "text-emerald-900"
  {
    if m == Coffee then Theme("blue-600", "text-blue-900") else Theme("emerald-600", "text-emerald-900")
  }

  /** `contextValue`: the coffee catalog exactly in coffee mode, the matcha
      catalog exactly in matcha mode, and `appMode` equal to `mode`. */
  function ValueOf(m: AppMode, roasteries: seq<Roastery>, matcha: seq<Matcha.MatchaPlace>): (v: ContextValue)
    ensures v.mode == m && v.appMode == m
    ensures v.data == CoffeeData(roasteries) <==> m == Coffee
    ensures v.data == MatchaData(matcha) <==> m == Matcha
    ensures v.theme == ThemeOf(m)
  {
    ContextValue(m, m, if m == Coffee then CoffeeData(roasteries) else MatchaData(matcha), ThemeOf(m))
  }

  const OutsideProvider: string := "useMode must be used within a ModeContextProvider"

  /** `useMode`: the provided value, or the error outside a provider. */
  function UseMode(context: Option<ContextValue>): (r: Result<ContextValue>)
    ensures r.Failure? <==> context.None?
    ensures r.Failure? ==> r.message == OutsideProvider
    ensures r.Ok? ==> r.value == context.value
  {
    if context.None? then Failure(OutsideProvider) else Ok(context.value)
  }

  /** The provider's state: the mode and the browser's storage. Mounting reads
      the stored mode, and the persist effect writes the mode back after
      every change. */
  class ModeProvider {
    var mode: AppMode
    var storage: map<string, string>

    /** The stored copy names the current mode. */
    predicate Persisted()
      reads this
    {
      StorageKey in storage && storage[StorageKey] == Name(mode)
    }

    /** Mounting in a browser: the initial parse, then the persist effect. */
    constructor Mount(stored: map<string, string>)
      ensures mode == InitialMode(true, if StorageKey in stored then Some(stored[StorageKey]) else None)
      ensures storage == stored[StorageKey := Name(mode)]
      ensures Persisted()
    {
      var m := InitialMode(true, if StorageKey in stored then Some(stored[StorageKey]) else None);
      mode := m;
      storage := stored[StorageKey := Name(m)];
    }

    /** `toggleMode`, followed by the persist effect. */
    method ToggleMode()
      modifies this
      ensures mode == Toggle(old(mode))
      ensures storage == old(storage)[StorageKey := Name(mode)]
      ensures Persisted()
    {
      mode := Toggle(mode);
      storage := storage[StorageKey := Name(mode)];
    }

    /** A reload re-runs the initial parse on the stored value: a persisted
        mode survives it. */
    method Reload()
      modifies this
      requires Persisted()
      ensures mode == old(mode) && storage == old(storage)
    {
      mode := InitialMode(true, Some(storage[StorageKey]));
      StoredModeReadsBack(old(mode));
    }
  }
}
