/**
 * The schema value store: one flat map from node id to value, shared by
 * every node of a module view. Each operation replaces the map as a whole.
 */
module SchemaStore {
  import opened JsValues

  class Store {
    var values: map<string, JsValue>

    /** The store starts empty. */
    constructor()
      ensures values == map[]
    {
      values := map[];
    }

    /** Point update: `id` now holds `value`, every other key keeps its value. */
    method SetValue(id: string, value: JsValue)
      modifies this
      ensures values == old(values)[id := value]
      ensures forall k :: k in old(values) && k != id ==> k in values && values[k] == old(values)[k]
    {
      values := values[id := value];
    }

    /** Replaces the whole map; keys absent from `initial` are gone. */
    method InitValues(initial: map<string, JsValue>)
      modifies this
      ensures values == initial
    {
      values := initial;
    }

    /** Empties the store, whatever it held; so a second reset changes nothing. */
    method Reset()
      modifies this
      ensures values == map[]
    {
      values := map[];
    }
  }

  /** `initValues({a: 1})` then `setValue("b", 2)` leaves exactly `{a: 1, b: 2}`. */
  method InitThenSet() returns (result: map<string, JsValue>)
    ensures result == map["a" := Int(1), "b" := Int(2)]
  {
    var store := new Store();
    store.InitValues(map["a" := Int(1)]);
    store.SetValue("b", Int(2));
    result := store.values;
  }

  /** After a reset no key set before it is present; writes to one key are last-write-wins. */
  method ResetForgets(key: string, first: JsValue, second: JsValue) returns (afterWrites: JsValue, afterReset: bool)
    ensures afterWrites == second
    ensures !afterReset
  {
    var store := new Store();
    store.SetValue(key, first);
    store.SetValue(key, second);
    afterWrites := store.values[key];
    store.Reset();
    store.Reset();
    afterReset := key in store.values;
  }
}
