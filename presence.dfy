/** Device presence: each signed-in tab writes a record for its device under
    the user, refreshes it on a heartbeat and when the page becomes visible,
    and shows how many device records the user has (never fewer than one). */
module Presence {
  import opened Wrappers
  import opened Types

  /** Period of the heartbeat timer, in milliseconds. */
  const HEARTBEAT_INTERVAL_MS: nat := 60000

  /** The label every web client writes into its record. */
  const DEVICE_LABEL: string := "web"

  /** A device record. `lastSeenAt` stands for the server timestamp: the
      store's write counter at the time of the write. */
  datatype DeviceRecord = DeviceRecord(deviceId: string, deviceLabel: string, email: Option<string>, lastSeenAt: nat)

  /** The count shown for a snapshot of `size` device records. */
  function ShownCount(size: nat): (r: nat)
    ensures r >= 1 && r >= size
    ensures r == size || (size == 0 && r == 1)
  {
    if size > 1 then size else 1
  }

  /** The remote store of device records: per user, a map from device id to
      record. Every write takes the next slot of the fault oracle `fault` and
      fails when that slot says so. */
  class PresenceStore {
    var devices: map<string, map<string, DeviceRecord>>
    const fault: nat -> bool
    var calls: nat
    /** Server clock: advances with every successful write. */
    var clock: nat

    constructor (fault: nat -> bool)
      ensures devices == map[] && this.fault == fault && calls == 0 && clock == 0
    {
      devices := map[];
      this.fault := fault;
      calls := 0;
      clock := 0;
    }

    /** The device records of `uid`. */
    function Devices(uid: string): map<string, DeviceRecord>
      reads this
    {
      if uid in devices then devices[uid] else map[]
    }

    /** `setDoc(users/uid/devices/deviceId, {...}, { merge: true })`: the four
        fields are written over whatever the record held; on failure nothing
        is written. */
    method SetDevice(uid: string, deviceId: string, email: Option<string>) returns (ok: bool)
      modifies this
      ensures calls == old(calls) + 1 && ok == !old(fault(calls))
      ensures devices == if ok
        then old(devices)[uid := old(Devices(uid))[deviceId := DeviceRecord(deviceId, DEVICE_LABEL, email, old(clock))]]
        else old(devices)
      ensures clock == if ok then old(clock) + 1 else old(clock)
    {
      ok := !fault(calls);
      calls := calls + 1;
      if ok {
        devices := devices[uid := Devices(uid)[deviceId := DeviceRecord(deviceId, DEVICE_LABEL, email, clock)]];
        clock := clock + 1;
      }
    }
  }

  /** The `useDevicePresence` hook of one tab. `session` names the live run
      of its effect: the device-list listener, the heartbeat timer and the
      visibility listener, which are set up and torn down together. Events
      that carry another session belong to a torn-down run and are ignored. */
  class DevicePresence {
    const store: PresenceStore
    /** `deviceId.current`, read once when the hook mounts: the id
        `Device.GetOrCreateDeviceId` returned, passed in by the caller. */
    const deviceId: string
    var uid: Option<string>
    var email: Option<string>
    /** `connectedDeviceCount`. */
    var count: nat
    var session: Option<nat>
    var nextSession: nat
    /** Whether the component is still mounted. */
    var mounted: bool

    ghost predicate Valid()
      reads this
    {
      (session.Some? <==> mounted && SignedIn(uid)) &&
      (session.Some? ==> session.value < nextSession) &&
      count >= 1
    }

    /** Mounting the hook: the count starts at one and the effect runs. */
    constructor (store: PresenceStore, deviceId: string, uid: Option<string>, email: Option<string>)
      modifies store
      ensures Valid() && mounted && this.store == store && this.deviceId == deviceId
      ensures this.uid == uid && this.email == email && count == 1
      ensures !SignedIn(uid) ==> store.devices == old(store.devices) && store.calls == old(store.calls)
      ensures SignedIn(uid) ==> WroteOwnRecord(old(store.devices), old(store.calls), old(store.clock))
    {
      this.store := store;
      this.deviceId := deviceId;
      this.uid := uid;
      this.email := email;
      count := 1;
      session := None;
      nextSession := 0;
      mounted := true;
      new;
      RunEffect();
    }

    /** The state of the store after `syncPresence` was called once on a
        store whose records, call counter and clock were `before`, `calls0`
        and `clock0`: this device's record of the current user written with
        the current email and stamped `clock0`, the clock advanced past it;
        or nothing written and the clock unchanged when the call failed. */
    ghost predicate WroteOwnRecord(before: map<string, map<string, DeviceRecord>>, calls0: nat, clock0: nat)
      requires SignedIn(uid)
      reads this, store
    {
      var beforeUser := if uid.value in before then before[uid.value] else map[];
      store.calls == calls0 + 1 &&
      store.clock == (if store.fault(calls0) then clock0 else clock0 + 1) &&
      store.devices == if store.fault(calls0) then before
        else before[uid.value := beforeUser[deviceId := DeviceRecord(deviceId, DEVICE_LABEL, email, clock0)]]
    }

    /** `syncPresence()`: write this device's record; a failure is swallowed. */
    method SyncPresence()
      requires SignedIn(uid)
      modifies store
      ensures WroteOwnRecord(old(store.devices), old(store.calls), old(store.clock))
    {
      var _ := store.SetDevice(uid.value, deviceId, email);
    }

    /** The effect body: with no user the count goes back to one; otherwise
        the record is written once and a new session of listeners starts. */
    method RunEffect()
      requires mounted && session == None && count >= 1
      modifies this`count, this`session, this`nextSession, store
      ensures Valid()
      ensures count == if SignedIn(uid) then old(count) else 1
      ensures !SignedIn(uid) ==> session == None && nextSession == old(nextSession)
      ensures !SignedIn(uid) ==> store.devices == old(store.devices) && store.calls == old(store.calls)
      ensures SignedIn(uid) ==>
        session == Some(old(nextSession)) && nextSession == old(nextSession) + 1 &&
        WroteOwnRecord(old(store.devices), old(store.calls), old(store.clock))
    {
      if !SignedIn(uid) {
        count := 1;
        return;
      }
      SyncPresence();
      session := Some(nextSession);
      nextSession := nextSession + 1;
    }

    /** The cleanup of the effect: clear the timer, remove the visibility
        listener and detach the device-list listener. */
    method Teardown()
      requires Valid()
      modifies this`session
      ensures session == None && count == old(count)
    {
      session := None;
    }

    /** Unmounting the component runs the cleanup for the last time. */
    method Unmount()
      requires Valid() && mounted
      modifies this`session, this`mounted
      ensures Valid() && !mounted && session == None && count == old(count)
    {
      Teardown();
      mounted := false;
    }

    /** After unmounting, no event of the old session writes a record or
        changes the count. */
    method UnmountSilencesEvents(s: nat, size: nat, visible: bool)
      requires Valid() && mounted
      modifies this`session, this`mounted, this`count, store
      ensures !mounted && count == old(count)
      ensures store.devices == old(store.devices) && store.calls == old(store.calls) && store.clock == old(store.clock)
    {
      Unmount();
      OnSnapshot(s, size);
      OnSnapshotError(s);
      HeartbeatTick(s);
      VisibilityChange(s, visible);
    }

    /** A render with a different user or email: the old run is torn down
        and the effect runs again. The count is kept until a snapshot of the
        new run arrives, unless no user is signed in. */
    method Rerender(newUid: Option<string>, newEmail: Option<string>)
      requires Valid() && mounted && (newUid != uid || newEmail != email)
      modifies this, store
      ensures Valid() && mounted && uid == newUid && email == newEmail
      ensures count == if SignedIn(newUid) then old(count) else 1
      ensures session.Some? ==> session.value == old(nextSession)
      ensures !SignedIn(newUid) ==> store.devices == old(store.devices) && store.calls == old(store.calls)
      ensures SignedIn(newUid) ==> WroteOwnRecord(old(store.devices), old(store.calls), old(store.clock))
    {
      Teardown();
      uid := newUid;
      email := newEmail;
      RunEffect();
    }

    /** A device-list snapshot of `size` records: the count becomes
        `max(size, 1)` when it belongs to the live session. */
    method OnSnapshot(s: nat, size: nat)
      requires Valid()
      modifies this`count
      ensures Valid()
      ensures count == if session == Some(s) then ShownCount(size) else old(count)
    {
      if session == Some(s) {
        count := ShownCount(size);
      }
    }

    /** The device-list listener reports an error: the count falls back to
        one. The service ends a listener after an error, so no snapshot of
        that session follows; the heartbeat and visibility listeners of the
        session stay live, which is why the session itself is kept. */
    method OnSnapshotError(s: nat)
      requires Valid()
      modifies this`count
      ensures Valid()
      ensures count == if session == Some(s) then 1 else old(count)
    {
      if session == Some(s) {
        count := 1;
      }
    }

    /** The heartbeat timer fires (every HEARTBEAT_INTERVAL_MS). */
    method HeartbeatTick(s: nat)
      requires Valid()
      modifies store
      ensures session == Some(s) ==> WroteOwnRecord(old(store.devices), old(store.calls), old(store.clock))
      ensures session != Some(s) ==>
        store.devices == old(store.devices) && store.calls == old(store.calls) && store.clock == old(store.clock)
    {
      if session == Some(s) {
        SyncPresence();
      }
    }

    /** The page's visibility changes; only becoming visible writes. */
    method VisibilityChange(s: nat, visible: bool)
      requires Valid()
      modifies store
      ensures session == Some(s) && visible ==> WroteOwnRecord(old(store.devices), old(store.calls), old(store.clock))
      ensures !(session == Some(s) && visible) ==>
        store.devices == old(store.devices) && store.calls == old(store.calls) && store.clock == old(store.clock)
    {
      if session == Some(s) && visible {
        SyncPresence();
      }
    }
  }
}
