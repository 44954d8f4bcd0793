/**
 * The filter-persistence store: a flag saying whether page filters are remembered, the
 * remembered filters keyed by page, and the flag's copy in local storage.
 */
module FilterPersistence {
  import opened Wrappers

  /** A page's filters, `Record<string, string>`. */
  type PageFilters = map<string, string>

  /** The value of the store's two pieces of state. */
  datatype Store = Store(isPersistent: bool, filters: map<string, PageFilters>)

  /** The flag read back from the `filterPersistence` storage item; nothing stored means off. */
  function InitialPersistence(stored: Option<string>): (r: bool)
    ensures stored.None? ==> !r
    ensures stored == Some("false") ==> !r
    ensures stored == Some("true") ==> r
  {
    assert "false" != "true" by { assert "false"[0] != "true"[0]; }
    stored == Some("true")
  }

  /** `JSON.stringify(isPersistent)`. */
  function Stringify(b: bool): (r: string)
    ensures r == "true" <==> b
  {
    assert "false" != "true" by { assert "false"[0] != "true"[0]; }
    if b then "true" else "false"
  }

  /** `getFilters`: the stored entry for the key while persistence is on, otherwise `{}`. */
  function Get(s: Store, key: string): (r: PageFilters)
    ensures !s.isPersistent ==> r == map[]
    ensures s.isPersistent && key !in s.filters ==> r == map[]
    ensures s.isPersistent && key in s.filters ==> r == s.filters[key]
  {
    if s.isPersistent then (if key in s.filters then s.filters[key] else map[]) else map[]
  }

  /** `togglePersistence`: the flag flips, and switching it on starts from no stored filters. */
  function Toggle(s: Store): (r: Store)
    ensures r.isPersistent == !s.isPersistent
    ensures r.isPersistent ==> r.filters == map[]
    ensures !r.isPersistent ==> r.filters == s.filters
  {
    if !s.isPersistent then Store(true, map[]) else Store(false, s.filters)
  }

  /** `setFilters`: while persistence is on, the key's entry is replaced; otherwise nothing happens. */
  function SetPage(s: Store, key: string, pageFilters: PageFilters): (r: Store)
    ensures r.isPersistent == s.isPersistent
    ensures !s.isPersistent ==> r == s
    ensures s.isPersistent ==> key in r.filters && r.filters[key] == pageFilters
    ensures forall k :: k != key ==> (k in r.filters <==> k in s.filters)
    ensures forall k :: k != key && k in s.filters ==> r.filters[k] == s.filters[k]
  {
    if s.isPersistent then s.(filters := s.filters[key := pageFilters]) else s
  }

  /** The flag survives a round trip through local storage. */
  lemma StorageRoundTrip(b: bool)
    ensures InitialPersistence(Some(Stringify(b))) == b
  {
    assert "false" != "true" by { assert "false"[0] != "true"[0]; }
  }

  lemma ToggleFlips(s: Store)
    ensures Toggle(s).isPersistent == !s.isPersistent
    ensures Toggle(Toggle(s)).isPersistent == s.isPersistent
  {
  }

  /** Whichever way the flag goes, no page reads a stored entry right after a toggle. */
  lemma NothingReadAfterToggle(s: Store, key: string)
    ensures Get(Toggle(s), key) == map[]
  {
  }

  /** Switching persistence off and on again forgets every page's filters. */
  lemma OffAndOnForgets(s: Store)
    requires s.isPersistent
    ensures Toggle(Toggle(s)) == Store(true, map[])
  {
  }

  /** A page reads back what it stored while persistence is on, and nothing while it is off. */
  lemma GetAfterSet(s: Store, key: string, pageFilters: PageFilters)
    ensures Get(SetPage(s, key, pageFilters), key) == if s.isPersistent then pageFilters else map[]
  {
  }

  /** Storing one page's filters leaves what every other page reads unchanged. */
  lemma SetLeavesOthers(s: Store, key: string, other: string, pageFilters: PageFilters)
    requires other != key
    ensures Get(SetPage(s, key, pageFilters), other) == Get(s, other)
  {
  }

  /** While persistence is off, storing filters changes nothing. */
  lemma SetWhileOff(s: Store, key: string, pageFilters: PageFilters)
    requires !s.isPersistent
    ensures SetPage(s, key, pageFilters) == s
  {
  }

  /** The provider's state: the flag, the stored filters, and the flag's storage item. */
  class FilterPersistenceProvider {
    var isPersistent: bool
    var filters: map<string, PageFilters>
    var storedFlag: Option<string>

    function State(): (r: Store)
      reads this
    {
      Store(isPersistent, filters)
    }

    /** The initial state: the flag from storage, no filters, and the effect writing the flag back. */
    constructor (stored: Option<string>)
      ensures State() == Store(InitialPersistence(stored), map[])
      ensures storedFlag == Some(Stringify(isPersistent))
    {
      var persistent := stored.Some? && stored.value == "true";
      isPersistent := persistent;
      filters := map[];
      storedFlag := Some(if persistent then "true" else "false");
    }

    /** `getFilters`. */
    function GetFilters(key: string): (r: PageFilters)
      reads this
      ensures r == Get(State(), key)
    {
      if isPersistent && key in filters then filters[key] else map[]
    }

    /** `togglePersistence`, followed by the effect that stores the new flag. */
    method TogglePersistence()
      modifies this
      ensures State() == Toggle(old(State()))
      ensures storedFlag == Some(Stringify(isPersistent))
    {
      var wasPersistent := isPersistent;
      isPersistent := !isPersistent;
      if !wasPersistent {
        filters := map[];
      }
      storedFlag := Some(if isPersistent then "true" else "false");
    }

    /** `setPageFilters`, exposed as `setFilters`. */
    method SetPageFilters(key: string, pageFilters: PageFilters)
      modifies this
      ensures State() == SetPage(old(State()), key, pageFilters)
      ensures storedFlag == old(storedFlag)
    {
      if isPersistent {
        filters := filters[key := pageFilters];
      }
    }
  }
}
