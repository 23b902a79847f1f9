/** The per-browser device identifier: read from local storage, created and
    stored on first use, with a fresh throw-away id whenever storage fails. */
module Device {
  import opened Wrappers

  /** The local-storage key under which the id is kept. */
  const DEVICE_ID_STORAGE_KEY: string := "clipboard_bridge_device_id"

  /** Fixed prefix of ids made without `crypto.randomUUID`. */
  const FALLBACK_PREFIX: string := "web-"

  /** `window.localStorage`: string items, whose accessors may throw (storage
      disabled by the browser, quota exceeded). Whether they throw is part of
      the environment and given by two flags. */
  class KeyValueStore {
    var items: map<string, string>
    var getThrows: bool
    var setThrows: bool

    constructor (items: map<string, string>, getThrows: bool, setThrows: bool)
      ensures this.items == items && this.getThrows == getThrows && this.setThrows == setThrows
    {
      this.items := items;
      this.getThrows := getThrows;
      this.setThrows := setThrows;
    }

    /** `getItem(key)`: the stored string, None when absent, Err when it throws. */
    method GetItem(key: string) returns (r: Result<Option<string>, ()>)
      ensures getThrows ==> r.Err?
      ensures !getThrows ==> r == Ok(if key in items then Some(items[key]) else None)
    {
      if getThrows {
        r := Err(());
      } else if key in items {
        r := Ok(Some(items[key]));
      } else {
        r := Ok(None);
      }
    }

    /** `setItem(key, value)`: stores the value, or throws and stores nothing. */
    method SetItem(key: string, value: string) returns (ok: bool)
      modifies this`items
      ensures ok == !setThrows
      ensures items == if ok then old(items)[key := value] else old(items)
    {
      ok := !setThrows;
      if ok {
        items := items[key := value];
      }
    }
  }

  /** `generateDeviceId`, as an oracle. With `crypto.randomUUID` the k-th call
      yields the k-th value of `uuid`; without it, "web-" followed by the k-th
      clock-and-random suffix. */
  class IdGenerator {
    const hasRandomUUID: bool
    const uuid: nat -> string
    const fallbackSuffix: nat -> string
    var draws: nat

    constructor (hasRandomUUID: bool, uuid: nat -> string, fallbackSuffix: nat -> string)
      ensures this.hasRandomUUID == hasRandomUUID && this.uuid == uuid
      ensures this.fallbackSuffix == fallbackSuffix && draws == 0
    {
      this.hasRandomUUID := hasRandomUUID;
      this.uuid := uuid;
      this.fallbackSuffix := fallbackSuffix;
      draws := 0;
    }

    /** The id the k-th call produces. */
    function IdAt(k: nat): (id: string)
      ensures !hasRandomUUID ==> |id| >= |FALLBACK_PREFIX| && id[..|FALLBACK_PREFIX|] == FALLBACK_PREFIX
    {
      if hasRandomUUID then uuid(k) else FALLBACK_PREFIX + fallbackSuffix(k)
    }

    method Generate() returns (id: string)
      modifies this`draws
      ensures draws == old(draws) + 1 && id == IdAt(old(draws))
    {
      id := IdAt(draws);
      draws := draws + 1;
    }
  }

  /** `getOrCreateDeviceId`. Without a `window` it returns a fresh id and
      leaves storage alone. Otherwise a non-empty stored id is returned as it
      is; an absent or empty one is replaced by a new id, which is stored and
      returned; if reading or writing storage throws, yet another fresh id is
      returned instead. */
  method GetOrCreateDeviceId(hasWindow: bool, storage: KeyValueStore, gen: IdGenerator) returns (id: string)
    modifies storage`items, gen`draws
    ensures var k := old(gen.draws);
      var stored := DEVICE_ID_STORAGE_KEY in old(storage.items) && old(storage.items)[DEVICE_ID_STORAGE_KEY] != "";
      if !hasWindow || storage.getThrows then
        id == gen.IdAt(k) && gen.draws == k + 1 && storage.items == old(storage.items)
      else if stored then
        id == old(storage.items)[DEVICE_ID_STORAGE_KEY] && gen.draws == k && storage.items == old(storage.items)
      else if !storage.setThrows then
        id == gen.IdAt(k) && gen.draws == k + 1 && storage.items == old(storage.items)[DEVICE_ID_STORAGE_KEY := id]
      else
        id == gen.IdAt(k + 1) && gen.draws == k + 2 && storage.items == old(storage.items)
  {
    if !hasWindow {
      id := gen.Generate();
      return;
    }
    var existing := storage.GetItem(DEVICE_ID_STORAGE_KEY);
    if existing.Err? {
      id := gen.Generate();
      return;
    }
    if existing.value.Some? && existing.value.value != "" {
      id := existing.value.value;
      return;
    }
    var created := gen.Generate();
    var ok := storage.SetItem(DEVICE_ID_STORAGE_KEY, created);
    if !ok {
      id := gen.Generate();
      return;
    }
    id := created;
  }

  /** With working storage, a second call returns the id the first returned
      and neither call after the first creation draws again. */
  method SecondCallReturnsSameId(storage: KeyValueStore, gen: IdGenerator) returns (first: string, second: string)
    requires !storage.getThrows && !storage.setThrows
    requires !gen.hasRandomUUID || forall k :: gen.uuid(k) != ""
    modifies storage`items, gen`draws
    ensures first == second
    ensures gen.draws <= old(gen.draws) + 1
  {
    first := GetOrCreateDeviceId(true, storage, gen);
    second := GetOrCreateDeviceId(true, storage, gen);
  }
}
