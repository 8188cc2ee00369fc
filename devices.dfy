/** The smart-home device record and the three repository queries the core
    issues against the device table. A repository is modelled as the sequence
    of rows in the order the database returns them. */
module Devices {
  import opened JavaLang

  /** One row of the device table. Every reference-typed column is nullable on
      the Java side, so it is an Option here; the database itself refuses a null
      `deviceId`, `room` or `enabled`. `deviceType` and `status` are informational
      and read by no operation of the core. */
  datatype Device = Device(
    id: int,
    deviceId: Option<string>,
    deviceName: Option<string>,
    room: Option<string>,
    roomId: Option<string>,
    deviceType: Option<string>,
    connectionUrl: Option<string>,
    controlMethod: Option<string>,
    controlOn: Option<string>,
    controlOff: Option<string>,
    status: Option<string>,
    enabled: Option<bool>)

  /** `Boolean.TRUE.equals(enabled)`, the test both `...EnabledTrue` queries and the
      vector sync apply. */
  predicate IsEnabled(d: Device) {
    d.enabled == Some(true)
  }

  /** `findByEnabledTrue()`: the enabled rows, in table order. */
  function FindByEnabledTrue(rows: seq<Device>): (r: seq<Device>)
    ensures |r| <= |rows|
    ensures forall d :: d in r <==> d in rows && IsEnabled(d)
  {
    if rows == [] then []
    else
      var init := FindByEnabledTrue(rows[..|rows| - 1]);
      var last := rows[|rows| - 1];
      assert rows == rows[..|rows| - 1] + [last];
      if IsEnabled(last) then init + [last] else init
  }

  /** `findByRoomAndEnabledTrue(room)`: the enabled rows whose room equals `room`. */
  function FindByRoomAndEnabledTrue(rows: seq<Device>, room: string): (r: seq<Device>)
    ensures |r| <= |rows|
    ensures forall d :: d in r <==> d in rows && IsEnabled(d) && d.room == Some(room)
  {
    if rows == [] then []
    else
      var init := FindByRoomAndEnabledTrue(rows[..|rows| - 1], room);
      var last := rows[|rows| - 1];
      assert rows == rows[..|rows| - 1] + [last];
      if IsEnabled(last) && last.room == Some(room) then init + [last] else init
  }

  /** `findByDeviceId(deviceId)`: the row carrying that device id, enabled or not.
      The column is unique, so the first match is the only one. */
  function FindByDeviceId(rows: seq<Device>, deviceId: string): (r: Option<Device>)
    ensures r.Some? ==> r.value in rows && r.value.deviceId == Some(deviceId)
    ensures r.None? ==> forall d | d in rows :: d.deviceId != Some(deviceId)
  {
    if rows == [] then None
    else if rows[0].deviceId == Some(deviceId) then Some(rows[0])
    else FindByDeviceId(rows[1..], deviceId)
  }

  /** Every room-filtered selection is part of the enabled selection, in the same order. */
  lemma {:induction false} RoomSelectionWithinEnabled(rows: seq<Device>, room: string)
    ensures FindByRoomAndEnabledTrue(rows, room) == FindByRoomAndEnabledTrue(FindByEnabledTrue(rows), room)
  {
    if rows != [] {
      var init := rows[..|rows| - 1];
      var last := rows[|rows| - 1];
      RoomSelectionWithinEnabled(init, room);
      var e := FindByEnabledTrue(init);
      if IsEnabled(last) {
        assert FindByEnabledTrue(rows) == e + [last];
        assert (e + [last])[..|e + [last]| - 1] == e;
      } else {
        assert FindByEnabledTrue(rows) == e;
      }
    }
  }
}
