/**
  The browser's `localStorage`: a string-to-string store whose keys can also
  be enumerated by index (`length`, `key(i)`). Both the storage service and
  the app read and write it, so it is one shared object.
*/
module LocalStorage {
  import opened Wrappers
  import opened Lists

  /** `if (localStorage.getItem(k))`: a slot that exists and is not the empty string. */
  predicate Present(v: Option<string>) {
    v.Some? && v.value != ""
  }

  class Store {
    /** Key order as seen through `key(i)`. */
    var keys: seq<string>
    /** Slot contents. */
    var items: map<string, string>

    ghost predicate Valid()
      reads this
    {
      Distinct(keys) && forall k :: k in items <==> k in keys
    }

    constructor ()
      ensures Valid() && keys == [] && items == map[]
    {
      keys := [];
      items := map[];
    }

    function Length(): nat
      reads this
    {
      |keys|
    }

    /** `key(i)`: the i-th key, or null out of range. */
    function Key(i: int): (k: Option<string>)
      reads this
      requires Valid()
      ensures k.Some? <==> 0 <= i < |keys|
      ensures k.Some? ==> k.value in items
    {
      if 0 <= i < |keys| then Some(keys[i]) else None
    }

    /** `getItem(k)`: the stored string, or null. */
    function GetItem(k: string): (v: Option<string>)
      reads this
      ensures v.Some? <==> k in items
      ensures v.Some? ==> v.value == items[k]
    {
      if k in items then Some(items[k]) else None
    }

    /** `setItem(k, v)`: replaces the slot; a new key is enumerated last. */
    method SetItem(k: string, v: string)
      requires Valid()
      modifies this
      ensures Valid()
      ensures items == old(items)[k := v]
      ensures keys == if k in old(items) then old(keys) else old(keys) + [k]
    {
      if k !in items {
        keys := keys + [k];
      }
      items := items[k := v];
    }

    /** `removeItem(k)`: deletes the slot if present; nothing else changes. */
    method RemoveItem(k: string)
      requires Valid()
      modifies this
      ensures Valid()
      ensures items == old(items) - {k}
      ensures keys == Filter(old(keys), x => x != k)
    {
      FilterDistinct(keys, x => x != k);
      keys := Filter(keys, x => x != k);
      items := items - {k};
    }
  }
}
