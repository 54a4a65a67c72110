/** `PageManager` (src/gui.py): a registry of named pages with a current
    and a previous page. Showing and hiding a page is tracked as the set of
    visible pages; the packing itself is not modelled. */
module Pages {
  import opened Common

  /** A page widget, compared by identity. */
  datatype Page = Page(id: nat)

  /** Everything a PageManager holds. */
  datatype ManagerState = ManagerState(pages: map<string, Page>, current: Option<string>, previous: Option<string>, visible: set<Page>)

  /** The state after an operation, and whether it raised. */
  datatype Step = Step(view: ManagerState, outcome: Outcome)

  /** The name is registered. */
  predicate Registered(v: ManagerState, name: Option<string>)
  {
    name.Some? && name.value in v.pages
  }

  /** Hiding the current page; a current page that is unset or no longer
      registered is skipped (the setter swallows that error). */
  function HideCurrent(v: ManagerState): set<Page>
  {
    if Registered(v, v.current) then v.visible - {v.pages[v.current.value]} else v.visible
  }

  /** The `current_page` setter. The same value changes nothing. Otherwise
      the current page is hidden first; then a registered name is shown and
      becomes current, the old current page becoming the previous one, and
      an unregistered name raises KeyError with current and previous as they
      were (the old page stays hidden). */
  function Switch(v: ManagerState, value: Option<string>): (r: Step)
    ensures value == v.current ==> r == Step(v, Done)
    ensures r.view.pages == v.pages
    ensures value != v.current && Registered(v, value) ==>
      && r.outcome == Done
      && r.view.current == value && r.view.previous == v.current
      && v.pages[value.value] in r.view.visible
      && (Registered(v, v.current) && v.pages[v.current.value] != v.pages[value.value] ==>
            v.pages[v.current.value] !in r.view.visible)
    ensures value != v.current && !Registered(v, value) ==>
      && r.outcome == Raised(KeyError)
      && r.view.current == v.current && r.view.previous == v.previous
      && (Registered(v, v.current) ==> v.pages[v.current.value] !in r.view.visible)
    ensures forall q :: (
      || (q in v.visible <==> q in r.view.visible)
      || (Registered(v, v.current) && q == v.pages[v.current.value])
      || (Registered(v, value) && q == v.pages[value.value]))
  {
    if value == v.current then Step(v, Done)
    else
      var hidden := HideCurrent(v);
      if !Registered(v, value) then Step(v.(visible := hidden), Raised(KeyError))
      else
        Step(ManagerState(v.pages, value, v.current, hidden + {v.pages[value.value]}), Done)
  }

  /** `back`: switch to the previous page. When it succeeds, current and
      previous are exchanged. */
  function SwitchBack(v: ManagerState): (r: Step)
    ensures v.previous != v.current && Registered(v, v.previous) ==>
      r.outcome == Done && r.view.current == v.previous && r.view.previous == v.current
    ensures v.previous != v.current && !Registered(v, v.previous) ==> r.outcome == Raised(KeyError)
    ensures r.view.pages == v.pages
  {
    Switch(v, v.previous)
  }

  /** Going back twice returns to the page one started from, with the same
      previous page. */
  lemma BackTwice(v: ManagerState)
    requires v.previous != v.current && Registered(v, v.previous) && Registered(v, v.current)
    ensures var once := SwitchBack(v).view;
      var twice := SwitchBack(once);
      twice.outcome == Done && twice.view.current == v.current && twice.view.previous == v.previous
  {
  }

  /** `add_page`: with `overwrite` the name maps to the page whatever it
      mapped to; without it an existing name raises ValueError. */
  function WithPage(pages: map<string, Page>, name: string, page: Page, overwrite: bool): (r: Result<map<string, Page>>)
    ensures r.Err? <==> !overwrite && name in pages
    ensures r.Err? ==> r.error == ValueError
    ensures r.Ok? ==> r.value.Keys == pages.Keys + {name} && r.value[name] == page
    ensures r.Ok? ==> forall k :: k in pages && k != name ==> r.value[k] == pages[k]
  {
    if overwrite then Ok(pages[name := page])
    else if name in pages then Err(ValueError)
    else Ok(pages[name := page])
  }

  /** `del_page`: the name is removed; a name not registered raises KeyError. */
  function WithoutPage(pages: map<string, Page>, name: string): (r: Result<map<string, Page>>)
    ensures r.Err? <==> name !in pages
    ensures r.Err? ==> r.error == KeyError
    ensures r.Ok? ==> r.value.Keys == pages.Keys - {name}
    ensures r.Ok? ==> forall k :: k in r.value ==> r.value[k] == pages[k]
  {
    if name in pages then Ok(pages - {name}) else Err(KeyError)
  }

  /** Adding a page that was not registered and deleting it again leaves
      the registry as it was. */
  lemma AddThenDelPage(pages: map<string, Page>, name: string, page: Page, overwrite: bool)
    requires name !in pages
    ensures WithPage(pages, name, page, overwrite).Ok?
    ensures WithoutPage(WithPage(pages, name, page, overwrite).value, name) == Ok(pages)
  {
    var added := WithPage(pages, name, page, overwrite).value;
    assert added == pages[name := page];
    assert (added - {name}).Keys == pages.Keys;
    assert forall k :: k in pages ==> (added - {name})[k] == pages[k];
    assert added - {name} == pages;
  }

  class PageManager {
    var pages: map<string, Page>
    var current: Option<string>
    var previous: Option<string>
    var visible: set<Page>

    function State(): ManagerState
      reads this
    {
      ManagerState(pages, current, previous, visible)
    }

    /** A new PageManager: no pages, no current and no previous page. */
    constructor ()
      ensures State() == ManagerState(map[], None, None, {})
    {
      pages := map[];
      current := None;
      previous := None;
      visible := {};
    }

    /** The `current_page` setter. */
    method SetCurrentPage(value: Option<string>) returns (r: Outcome)
      modifies this
      ensures var s := Switch(old(State()), value); State() == s.view && r == s.outcome
    {
      if current != value {
        if current.Some? && current.value in pages {
          visible := visible - {pages[current.value]};
        }
        if value.None? || value.value !in pages {
          return Raised(KeyError);
        }
        visible := visible + {pages[value.value]};
        previous := current;
        current := value;
      }
      r := Done;
    }

    /** `back`. */
    method Back() returns (r: Outcome)
      modifies this
      ensures var s := SwitchBack(old(State())); State() == s.view && r == s.outcome
    {
      r := SetCurrentPage(previous);
    }

    /** `add_page`. */
    method AddPage(name: string, page: Page, overwrite: bool) returns (r: Outcome)
      modifies this
      ensures var a := WithPage(old(pages), name, page, overwrite);
        (a.Ok? ==> r == Done && pages == a.value) && (a.Err? ==> r == Raised(a.error) && pages == old(pages))
      ensures current == old(current) && previous == old(previous) && visible == old(visible)
    {
      if !overwrite && name in pages {
        return Raised(ValueError);
      }
      pages := pages[name := page];
      r := Done;
    }

    /** `del_page`. */
    method DelPage(name: string) returns (r: Outcome)
      modifies this
      ensures var a := WithoutPage(old(pages), name);
        (a.Ok? ==> r == Done && pages == a.value) && (a.Err? ==> r == Raised(a.error) && pages == old(pages))
      ensures current == old(current) && previous == old(previous) && visible == old(visible)
    {
      if name !in pages {
        return Raised(KeyError);
      }
      pages := pages - {name};
      r := Done;
    }
  }
}
