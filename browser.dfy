/** The browser services the pages use: `localStorage`, the router's `navigate`,
    `window.location.href`, `alert` and `window.open`. Storage is a map; the other
    services are recorded as events in the order they happen. */
module Browser {
  import opened Common

  datatype Navigation =
    | Route(path: string)   // `navigate(path)` from react-router
    | Load(path: string)    // `window.location.href = path`

  /** `localStorage.getItem(key)`: null when the key is absent. */
  function GetItem(storage: map<string, string>, key: string): (v: Option<string>)
    ensures v.Some? <==> key in storage
    ensures v.Some? ==> v.value == storage[key]
  {
    if key in storage then Some(storage[key]) else None
  }

  class Window {
    var storage: map<string, string>
    var navigations: seq<Navigation>
    var alerts: seq<string>
    var tabs: seq<string>

    constructor (initial: map<string, string>)
      ensures storage == initial
      ensures navigations == [] && alerts == [] && tabs == []
    {
      storage := initial;
      navigations := [];
      alerts := [];
      tabs := [];
    }

    method SetItem(key: string, value: string)
      modifies this
      ensures storage == old(storage)[key := value]
      ensures navigations == old(navigations) && alerts == old(alerts) && tabs == old(tabs)
    {
      storage := storage[key := value];
    }

    method RemoveItem(key: string)
      modifies this
      ensures storage == old(storage) - {key}
      ensures navigations == old(navigations) && alerts == old(alerts) && tabs == old(tabs)
    {
      storage := storage - {key};
    }

    method Navigate(to: Navigation)
      modifies this
      ensures navigations == old(navigations) + [to]
      ensures storage == old(storage) && alerts == old(alerts) && tabs == old(tabs)
    {
      navigations := navigations + [to];
    }

    method Alert(message: string)
      modifies this
      ensures alerts == old(alerts) + [message]
      ensures storage == old(storage) && navigations == old(navigations) && tabs == old(tabs)
    {
      alerts := alerts + [message];
    }

    method Open(url: string)
      modifies this
      ensures tabs == old(tabs) + [url]
      ensures storage == old(storage) && navigations == old(navigations) && alerts == old(alerts)
    {
      tabs := tabs + [url];
    }
  }
}
