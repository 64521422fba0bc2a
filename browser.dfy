/**
 * The two browser objects the core mutates: `window.localStorage` (string slots by key)
 * and `window.location` (the current path, and `href`, whose assignment starts a navigation).
 */
module Browser {
  import opened Wrappers

  class LocalStorage {
    var slots: map<string, string>

    constructor (initial: map<string, string>)
      ensures slots == initial
    {
      slots := initial;
    }

    /** `getItem(key)`: the stored string, or null. */
    function GetItem(key: string): (r: Option<string>)
      reads this
      ensures r.Some? <==> key in slots
      ensures r.Some? ==> r.value == slots[key]
    {
      if key in slots then Some(slots[key]) else None
    }

    /** `setItem(key, value)` */
    method SetItem(key: string, value: string)
      modifies this
      ensures slots == old(slots)[key := value]
    {
      slots := slots[key := value];
    }

    /** `removeItem(key)` */
    method RemoveItem(key: string)
      modifies this
      ensures slots == old(slots) - {key}
    {
      slots := slots - {key};
    }
  }

  class Location {
    var pathname: string
    var href: string

    constructor (path: string)
      ensures pathname == path && href == path
    {
      pathname := path;
      href := path;
    }
  }
}
