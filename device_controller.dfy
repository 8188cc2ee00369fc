/** The device HTTP endpoints under `/api/device`: listing, reading, creating,
    updating and deleting devices, and switching them on or off by hand. The
    device table is the controller's state: a sequence of rows in table order
    and the next value of the auto-increment id. Every change to the table is
    followed by a rebuild of the device documents in the vector store. */
module DeviceApi {
  import opened JavaLang
  import opened Devices
  import opened DeviceControl
  import opened VectorService

  const ActionInvalid: string := "action 必须为 on 或 off"

  /** The answers of the endpoints. `ServerError` is an exception that leaves
      the controller (Spring answers 500), here a refused database write. */
  datatype Reply =
    | Ok(device: Device)
    | NotFound
    | NoContent
    | BadRequest(error: string)
    | Controlled(success: bool, count: nat)
    | ServerError

  /** The columns the table declares `nullable = false` hold a value. */
  predicate Storable(d: Device) {
    d.deviceId.Some? && d.room.Some? && d.enabled.Some?
  }

  /** No other row uses the device id of `d`, as the unique column demands. */
  predicate DeviceIdFree(rows: seq<Device>, d: Device) {
    forall e | e in rows && e.id != d.id :: e.deviceId != d.deviceId
  }

  /** What the table guarantees: ids and device ids are unique, the required
      columns are filled, and every id is below the next one to be assigned. */
  predicate TableInvariant(rows: seq<Device>, nextId: int) {
    && (forall i, j | 0 <= i < j < |rows| :: rows[i].id != rows[j].id && rows[i].deviceId != rows[j].deviceId)
    && (forall d | d in rows :: Storable(d) && d.id < nextId)
  }

  /** `findById(id)`. */
  function FindById(rows: seq<Device>, id: int): (r: Option<Device>)
    ensures r.Some? ==> r.value in rows && r.value.id == id
    ensures r.None? ==> forall d | d in rows :: d.id != id
  {
    if rows == [] then None
    else if rows[0].id == id then Some(rows[0])
    else FindById(rows[1..], id)
  }

  /** `existsById(id)`. */
  predicate ExistsById(rows: seq<Device>, id: int) {
    exists d | d in rows :: d.id == id
  }

  /** In a table with unique ids, the row found under an id is the only one. */
  lemma FindByIdUnique(rows: seq<Device>, nextId: int, d: Device)
    requires TableInvariant(rows, nextId) && d in rows
    ensures FindById(rows, d.id) == Some(d)
  {
    var i :| 0 <= i < |rows| && rows[i] == d;
    var r := FindById(rows, d.id);
    var j :| 0 <= j < |rows| && rows[j] == r.value;
    assert i == j;
  }

  /** `save` of a row whose id is present: that row is replaced. */
  function ReplaceRow(rows: seq<Device>, saved: Device): (r: seq<Device>)
    ensures |r| == |rows|
  {
    seq(|rows|, i requires 0 <= i < |rows| => if rows[i].id == saved.id then saved else rows[i])
  }

  /** `deleteById(id)`: the rows without that id, in table order. */
  function DeleteRow(rows: seq<Device>, id: int): (r: seq<Device>)
    ensures |r| <= |rows|
    ensures forall d :: d in r <==> d in rows && d.id != id
  {
    if rows == [] then []
    else
      var init := DeleteRow(rows[..|rows| - 1], id);
      var last := rows[|rows| - 1];
      assert rows == rows[..|rows| - 1] + [last];
      if last.id == id then init else init + [last]
  }

  /** An insert under the next id keeps the table invariant and finds the row. */
  lemma InsertKeepsInvariant(rows: seq<Device>, nextId: int, saved: Device)
    requires TableInvariant(rows, nextId)
    requires saved.id == nextId && Storable(saved) && DeviceIdFree(rows, saved)
    ensures TableInvariant(rows + [saved], nextId + 1)
    ensures FindById(rows + [saved], nextId) == Some(saved)
  {
    var r := rows + [saved];
    forall i, j | 0 <= i < j < |r| ensures r[i].id != r[j].id && r[i].deviceId != r[j].deviceId {
      if j == |rows| {
        assert r[i] in rows;
      }
    }
    FindByIdUnique(r, nextId + 1, saved);
  }

  /** Replacing a present row by a storable one whose device id is free keeps
      the table invariant; afterwards the id finds the new row. */
  lemma ReplaceKeepsInvariant(rows: seq<Device>, nextId: int, saved: Device)
    requires TableInvariant(rows, nextId) && ExistsById(rows, saved.id)
    requires Storable(saved) && DeviceIdFree(rows, saved)
    ensures TableInvariant(ReplaceRow(rows, saved), nextId)
    ensures FindById(ReplaceRow(rows, saved), saved.id) == Some(saved)
  {
    var r := ReplaceRow(rows, saved);
    forall d | d in r ensures Storable(d) && d.id < nextId {
      var i :| 0 <= i < |r| && r[i] == d;
      assert rows[i] in rows;
    }
    ReplacePairs(rows, nextId, saved);
    var k :| k in rows && k.id == saved.id;
    var i :| 0 <= i < |rows| && rows[i] == k;
    assert r[i] == saved;
    FindByIdUnique(r, nextId, saved);
  }

  /** After the replacement, ids and device ids are still pairwise distinct. */
  lemma ReplacePairs(rows: seq<Device>, nextId: int, saved: Device)
    requires TableInvariant(rows, nextId) && DeviceIdFree(rows, saved)
    ensures var r := ReplaceRow(rows, saved);
            forall i, j | 0 <= i < j < |r| :: r[i].id != r[j].id && r[i].deviceId != r[j].deviceId
  {
    var r := ReplaceRow(rows, saved);
    forall i, j | 0 <= i < j < |r| ensures r[i].id != r[j].id && r[i].deviceId != r[j].deviceId {
      assert rows[i] in rows && rows[j] in rows;
    }
  }

  /** Deleting by id keeps the table invariant; afterwards the id is gone. */
  lemma {:induction false} DeleteKeepsInvariant(rows: seq<Device>, nextId: int, id: int)
    requires TableInvariant(rows, nextId)
    ensures TableInvariant(DeleteRow(rows, id), nextId)
    ensures !ExistsById(DeleteRow(rows, id), id)
  {
    if rows != [] {
      var init := rows[..|rows| - 1];
      var last := rows[|rows| - 1];
      assert TableInvariant(init, nextId) by {
        forall d | d in init ensures d in rows { }
      }
      DeleteKeepsInvariant(init, nextId, id);
      var r := DeleteRow(rows, id);
      var ri := DeleteRow(init, id);
      if last.id != id {
        forall i, j | 0 <= i < j < |r| ensures r[i].id != r[j].id && r[i].deviceId != r[j].deviceId {
          if j == |ri| {
            assert r[i] in init;
            var k :| 0 <= k < |init| && init[k] == r[i];
          }
        }
      }
    }
  }

  /** The number of devices the `control` endpoint switches: by device id at
      most the one row carrying it (enabled or not); otherwise every device
      `executeByRoom` addresses for the room, "all" when the room is null. */
  function ControlCount(rows: seq<Device>, room: Option<string>, deviceId: Option<string>, turnOn: bool,
                        transport: ControlRequest -> bool): (n: nat)
    ensures !IsNullOrBlank(deviceId) ==>
              (n == 1 <==> FindByDeviceId(rows, deviceId.value).Some?
                           && SendControl(FindByDeviceId(rows, deviceId.value).value, turnOn, transport))
              && n <= 1
    ensures IsNullOrBlank(deviceId) ==> n <= |Targets(rows, room.GetOr("all"))|
  {
    if !IsNullOrBlank(deviceId) then
      var dev := FindByDeviceId(rows, deviceId.value);
      if dev.Some? && SendControl(dev.value, turnOn, transport) then 1 else 0
    else
      CountAccepted(Targets(rows, room.GetOr("all")), turnOn, transport)
  }

  /** A null room means every enabled device; a blank but non-null room does
      not: it addresses the enabled devices whose room is that very string. */
  lemma BlankRoomIsNotAll(rows: seq<Device>)
    ensures Targets(rows, "") == FindByRoomAndEnabledTrue(rows, "")
    ensures Targets(rows, "all") == FindByEnabledTrue(rows)
  {
    assert !EqualsIgnoreCaseAscii("all", "") by {
      assert |LowerAsciiString("all")| == 3;
    }
  }

  class DeviceController {
    /** The device table, in table order. */
    var rows: seq<Device>
    /** The id the table assigns to the next inserted row. */
    var nextId: int
    const vectors: VectorStoreService

    ghost predicate Valid()
      reads this, vectors, vectors.Backing()
    {
      vectors.Valid() && TableInvariant(rows, nextId)
    }

    constructor(vectors: VectorStoreService, rows: seq<Device>, nextId: int)
      requires vectors.Valid() && TableInvariant(rows, nextId)
      ensures Valid() && this.vectors == vectors && this.rows == rows && this.nextId == nextId
    {
      this.vectors := vectors;
      this.rows := rows;
      this.nextId := nextId;
    }

    /** `GET /list`: the enabled devices of a non-blank room, otherwise every
        enabled device; table order either way. */
    function List(room: Option<string>): (r: seq<Device>)
      reads this
      ensures forall d | d in r :: d in rows && IsEnabled(d)
      ensures !IsNullOrBlank(room) ==> forall d | d in rows :: d in r <==> IsEnabled(d) && d.room == room
      ensures IsNullOrBlank(room) ==> forall d | d in rows :: d in r <==> IsEnabled(d)
    {
      if room.Some? && !IsBlank(room.value) then FindByRoomAndEnabledTrue(rows, room.value) else FindByEnabledTrue(rows)
    }

    /** `GET /{id}`: the row, or 404. */
    function Get(id: int): (r: Reply)
      reads this
      ensures r.Ok? ==> r.device in rows && r.device.id == id
      ensures r.NotFound? <==> !ExistsById(rows, id)
      ensures r.Ok? || r.NotFound?
    {
      match FindById(rows, id)
      case Some(d) => Ok(d)
      case None => NotFound
    }

    /** The device documents after a table change: rebuilt from the new table,
        so at most one per enabled device plus the rule document remains, and
        every other document stays unless a freshly drawn id replaced it. */
    method Resync()
      requires Valid()
      modifies vectors, vectors.Backing()
      ensures Valid() && rows == old(rows) && nextId == old(nextId)
      ensures old(vectors.SourcesConsistent()) ==>
                |DeviceDocKeys(vectors.Docs())| <= |FindByEnabledTrue(rows)| + 1
      ensures old(vectors.drawn) <= vectors.drawn
      ensures old(vectors.SourcesConsistent()) ==>
                KeepsOutside(old(vectors.Docs()) - DeviceDocKeys(old(vectors.Docs())), vectors.Docs(),
                             vectors.IdsBetween(old(vectors.drawn), vectors.drawn))
      ensures vectors.Rebuilt(old(vectors.Docs()), old(vectors.drawn), old(vectors.SourcesConsistent()), rows)
    {
      var synced := vectors.SyncFromDevices(rows);
    }

    /** `POST`: the device is inserted under the next id and returned, then the
        device documents are rebuilt. A device the table refuses (a required
        column null, or a device id in use) raises, and nothing changes. */
    method Create(device: Device) returns (r: Reply)
      requires Valid()
      modifies this, vectors, vectors.Backing()
      ensures Valid()
      ensures !Storable(device) || !DeviceIdFree(old(rows), device.(id := old(nextId))) ==>
                r == ServerError && rows == old(rows) && nextId == old(nextId)
                && vectors.Docs() == old(vectors.Docs()) && vectors.drawn == old(vectors.drawn)
      ensures Storable(device) && DeviceIdFree(old(rows), device.(id := old(nextId))) ==>
                var saved := device.(id := old(nextId));
                && r == Ok(saved) && rows == old(rows) + [saved] && nextId == old(nextId) + 1
                && Get(saved.id) == Ok(saved)
                && (old(vectors.SourcesConsistent()) ==>
                      |DeviceDocKeys(vectors.Docs())| <= |FindByEnabledTrue(rows)| + 1)
                && vectors.Rebuilt(old(vectors.Docs()), old(vectors.drawn), old(vectors.SourcesConsistent()), rows)
    {
      var saved := device.(id := nextId);
      if !Storable(saved) || !DeviceIdFree(rows, saved) {
        return ServerError;
      }
      InsertKeepsInvariant(rows, nextId, saved);
      rows := rows + [saved];
      nextId := nextId + 1;
      assert unchanged(vectors.Backing()) && vectors.drawn == old(vectors.drawn);
      Resync();
      r := Ok(saved);
    }

    /** `PUT /{id}`: 404 for an unknown id; otherwise the device takes that id
        and replaces the row, then the device documents are rebuilt. */
    method Update(id: int, device: Device) returns (r: Reply)
      requires Valid()
      modifies this, vectors, vectors.Backing()
      ensures Valid() && nextId == old(nextId)
      ensures !ExistsById(old(rows), id) ==>
                r == NotFound && rows == old(rows)
                && vectors.Docs() == old(vectors.Docs()) && vectors.drawn == old(vectors.drawn)
      ensures ExistsById(old(rows), id) && (!Storable(device) || !DeviceIdFree(old(rows), device.(id := id))) ==>
                r == ServerError && rows == old(rows)
                && vectors.Docs() == old(vectors.Docs()) && vectors.drawn == old(vectors.drawn)
      ensures ExistsById(old(rows), id) && Storable(device) && DeviceIdFree(old(rows), device.(id := id)) ==>
                var saved := device.(id := id);
                && r == Ok(saved) && rows == ReplaceRow(old(rows), saved)
                && Get(id) == Ok(saved)
                && (old(vectors.SourcesConsistent()) ==>
                      |DeviceDocKeys(vectors.Docs())| <= |FindByEnabledTrue(rows)| + 1)
                && vectors.Rebuilt(old(vectors.Docs()), old(vectors.drawn), old(vectors.SourcesConsistent()), rows)
    {
      if !ExistsById(rows, id) {
        return NotFound;
      }
      var saved := device.(id := id);
      if !Storable(saved) || !DeviceIdFree(rows, saved) {
        return ServerError;
      }
      ReplaceKeepsInvariant(rows, nextId, saved);
      rows := ReplaceRow(rows, saved);
      assert unchanged(vectors.Backing()) && vectors.drawn == old(vectors.drawn);
      Resync();
      r := Ok(saved);
    }

    /** `DELETE /{id}`: 404 for an unknown id; otherwise the row goes, then the
        device documents are rebuilt. */
    method Delete(id: int) returns (r: Reply)
      requires Valid()
      modifies this, vectors, vectors.Backing()
      ensures Valid() && nextId == old(nextId)
      ensures !ExistsById(old(rows), id) ==>
                r == NotFound && rows == old(rows)
                && vectors.Docs() == old(vectors.Docs()) && vectors.drawn == old(vectors.drawn)
      ensures ExistsById(old(rows), id) ==>
                && r == NoContent && rows == DeleteRow(old(rows), id) && Get(id) == NotFound
                && (old(vectors.SourcesConsistent()) ==>
                      |DeviceDocKeys(vectors.Docs())| <= |FindByEnabledTrue(rows)| + 1)
                && vectors.Rebuilt(old(vectors.Docs()), old(vectors.drawn), old(vectors.SourcesConsistent()), rows)
    {
      if !ExistsById(rows, id) {
        return NotFound;
      }
      DeleteKeepsInvariant(rows, nextId, id);
      rows := DeleteRow(rows, id);
      assert unchanged(vectors.Backing()) && vectors.drawn == old(vectors.drawn);
      Resync();
      r := NoContent;
    }

    /** `POST /control`: an action other than "on" or "off" (any case) is
        refused with 400; otherwise the answer reports how many devices took
        the command and succeeds exactly when at least one did. */
    method Control(room: Option<string>, deviceId: Option<string>, action: Option<string>,
                   transport: ControlRequest -> bool) returns (r: Reply)
      ensures !NullableEqualsIgnoreCase("on", action) && !NullableEqualsIgnoreCase("off", action) ==>
                r == BadRequest(ActionInvalid)
      ensures NullableEqualsIgnoreCase("on", action) || NullableEqualsIgnoreCase("off", action) ==>
                var n := ControlCount(rows, room, deviceId, NullableEqualsIgnoreCase("on", action), transport);
                r == Controlled(n > 0, n)
    {
      if action.None? || (!EqualsIgnoreCaseAscii(action.value, "on") && !EqualsIgnoreCaseAscii(action.value, "off")) {
        return BadRequest(ActionInvalid);
      }
      var turnOn := EqualsIgnoreCaseAscii("on", action.value);
      var count := 0;
      if deviceId.Some? && !IsBlank(deviceId.value) {
        var dev := FindByDeviceId(rows, deviceId.value);
        if dev.Some? && SendControl(dev.value, turnOn, transport) {
          count := 1;
        }
      } else {
        count := ExecuteByRoom(rows, room.GetOr("all"), turnOn, transport);
      }
      r := Controlled(count > 0, count);
    }
  }
}
