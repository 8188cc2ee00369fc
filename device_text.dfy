/** The knowledge-base document generated for one smart-home device: a text
    describing how to switch its lights and a metadata map mirroring the
    device row. Both are fresh values built from the row alone. */
module DeviceText {
  import opened JavaLang
  import opened VectorTypes
  import opened Devices

  const ControlApi: string := "POST /api/device/control"

  /** The literal pieces of `buildText`'s format string, around its eight `%s`. */
  const T0: string := "关灯指令：说「关灯」或「关闭灯光」或「关"
  const T1: string := "灯」。开灯指令：说「开灯」或「打开灯光」或「开"
  const T2: string := "灯」。房间："
  const T3: string := "。操作步骤：1) 在 App 或语音助手中说出「开灯/关灯」或带房间名「开"
  const T4: string := "灯」；2) 系统根据房间名「"
  const T5: string := "」解析到设备 "
  const T6: string := "；3) 调用设备控制接口 "
  const T7: string := " 向 "
  const T8: string := " 发送 { \"action\": \"on\" } 或 { \"action\": \"off\" }。"

  /** The room the text names: "未知" for a null room. */
  function RoomOrUnknown(d: Device): string {
    d.room.GetOr("未知")
  }

  /** The format string with the room in its first five holes, then the id,
      the control endpoint and the id again. */
  function FormatText(room: string, id: string): string {
    T0 + room + T1 + room + T2 + room + T3 + room + T4 + room + T5 + id + T6 + ControlApi + T7 + id + T8
  }

  /** `buildText`. The display name it computes is never used. */
  function BuildText(d: Device): string {
    FormatText(RoomOrUnknown(d), d.deviceId.GetOr(""))
  }

  /** A null room reads as "未知" and a null device id as the empty string; the
      device name does not enter the text. */
  lemma BuildTextDefaults(d: Device, name: Option<string>)
    ensures BuildText(d) == BuildText(d.(room := Some(RoomOrUnknown(d)), deviceId := Some(d.deviceId.GetOr(""))))
    ensures BuildText(d) == BuildText(d.(deviceName := name))
  {
  }

  /** `s` holds `t` at every position of `ps`, in order and without overlap. */
  ghost predicate AllAt(s: string, t: string, ps: seq<int>) {
    && (forall k | 0 <= k < |ps| :: OccursAt(s, t, ps[k]))
    && (forall k | 0 <= k < |ps| - 1 :: ps[k] + |t| <= ps[k + 1])
  }

  lemma GrowAll(s: string, t: string, ps: seq<int>, x: string, y: string)
    requires AllAt(s, t, ps)
    ensures AllAt(s + x + y, t, ps)
  {
    forall k | 0 <= k < |ps| ensures OccursAt(s + x + y, t, ps[k]) {
      Grow(s, t, ps[k], x, y);
    }
  }

  lemma AddAt(s: string, ps: seq<int>, x: string, t: string)
    requires AllAt(s, t, ps)
    ensures AllAt(s + x + t, t, ps + [|s + x|])
  {
    GrowAll(s, t, ps, x, t);
    Last(s, x, t);
    if |ps| > 0 {
      assert ps[|ps| - 1] + |t| <= |s|;
    }
  }

  /** `text` names `room` at five places, and `id` at two places around the
      control endpoint, in that order and without overlap. */
  ghost predicate Mentions(text: string, room: string, id: string) {
    && (exists p1, p2, p3, p4, p5 ::
          && p1 + |room| <= p2 && p2 + |room| <= p3 && p3 + |room| <= p4 && p4 + |room| <= p5
          && OccursAt(text, room, p1) && OccursAt(text, room, p2) && OccursAt(text, room, p3)
          && OccursAt(text, room, p4) && OccursAt(text, room, p5))
    && (exists q1, q2, c ::
          q1 + |id| <= c && c + |ControlApi| <= q2
          && OccursAt(text, id, q1) && OccursAt(text, ControlApi, c) && OccursAt(text, id, q2))
  }

  /** The device text names the room five times and the device id twice. */
  lemma BuildTextMentions(d: Device)
    ensures Mentions(BuildText(d), RoomOrUnknown(d), d.deviceId.GetOr(""))
  {
    var room, id := RoomOrUnknown(d), d.deviceId.GetOr("");
    assert BuildText(d) == FormatText(room, id);
    FormatMentions(room, id);
  }

  lemma FormatMentions(room: string, id: string)
    ensures Mentions(FormatText(room, id), room, id)
  {
    var text := FormatText(room, id);
    var rs := RoomPositions(room, id);
    assert OccursAt(text, room, rs[0]) && OccursAt(text, room, rs[1]) && OccursAt(text, room, rs[2])
        && OccursAt(text, room, rs[3]) && OccursAt(text, room, rs[4]);
    assert rs[0] + |room| <= rs[1] && rs[1] + |room| <= rs[2] && rs[2] + |room| <= rs[3] && rs[3] + |room| <= rs[4];
    var q1, c, q2 := IdPositions(room, id);
  }

  /** Where the five room holes of the format string land. */
  lemma RoomPositions(room: string, id: string) returns (rs: seq<int>)
    ensures |rs| == 5 && AllAt(FormatText(room, id), room, rs)
  {
    var u := T0 + room;
    rs := [|T0|];
    Last("", T0, room);
    assert "" + T0 + room == u;
    AddAt(u, rs, T1, room);  u, rs := u + T1 + room, rs + [|u + T1|];
    AddAt(u, rs, T2, room);  u, rs := u + T2 + room, rs + [|u + T2|];
    AddAt(u, rs, T3, room);  u, rs := u + T3 + room, rs + [|u + T3|];
    AddAt(u, rs, T4, room);  u, rs := u + T4 + room, rs + [|u + T4|];
    GrowAll(u, room, rs, T5, id);          u := u + T5 + id;
    GrowAll(u, room, rs, T6, ControlApi);  u := u + T6 + ControlApi;
    GrowAll(u, room, rs, T7, id);          u := u + T7 + id;
    GrowAll(u, room, rs, T8, "");
    assert u + T8 + "" == FormatText(room, id);
  }

  /** Where the id, endpoint and id holes of the format string land. */
  lemma IdPositions(room: string, id: string) returns (q1: int, c: int, q2: int)
    ensures q1 + |id| <= c && c + |ControlApi| <= q2
    ensures OccursAt(FormatText(room, id), id, q1) && OccursAt(FormatText(room, id), ControlApi, c)
    ensures OccursAt(FormatText(room, id), id, q2)
  {
    var u := T0 + room + T1 + room + T2 + room + T3 + room + T4 + room;
    q1 := |u + T5|;
    Last(u, T5, id);
    u := u + T5 + id;
    Grow(u, id, q1, T6, ControlApi);
    c := |u + T6|;
    Last(u, T6, ControlApi);
    u := u + T6 + ControlApi;
    Grow(u, id, q1, T7, id);
    Grow(u, ControlApi, c, T7, id);
    q2 := |u + T7|;
    Last(u, T7, id);
    u := u + T7 + id;
    Grow(u, id, q1, T8, "");
    Grow(u, ControlApi, c, T8, "");
    Grow(u, id, q2, T8, "");
    assert u + T8 + "" == FormatText(room, id);
  }

  /** A nullable string as a metadata value. */
  function Nullable(s: Option<string>): (v: MetaValue)
    ensures s.None? <==> v == MNull
  {
    if s.None? then MNull else MStr(s.value)
  }

  /** The keys of the device metadata, in insertion order. */
  const DeviceMetaKeys: seq<string> :=
    ["category", "scene", "room", "roomId", "deviceId", "deviceName", "source", "description", "操作步骤", "调用方法"]

  const DescriptionHead: string := "如何找到设备：确保手机与设备在同一 WiFi，在「设备列表」或「添加设备」里会自动发现局域网内的灯光、插座等，按提示绑定即可。如何控制灯光：绑定后在 App 里可开关、调亮度；语音控制时说「开灯」「关灯」「打开"
  const DescriptionTail: string := "灯」「调亮一点」等，语音助手会识别并控制对应灯光。"

  /** The four operation steps; string concatenation renders a null room or id as "null". */
  function Steps(room: string, id: string): (steps: seq<string>)
    ensures |steps| == 4
  {
    ["用户说「开灯」或「关灯」（可带房间名，如「关" + room + "灯」）",
     "NLU/大模型解析出：意图=控制灯光，房间=" + room + "，动作=开/关",
     "根据房间名或 roomId 查表得到设备 " + id,
     "调用控制接口向 " + id + " 发送指令，" + ControlApi + " Body: {\"deviceId\":\"" + id + "\",\"action\":\"on\" 或 \"off\"}"]
  }

  function CallMethod(room: string, id: string): string {
    ControlApi + "，Body 示例：{\"deviceId\":\"" + id + "\",\"action\":\"on\"|\"off\"}，deviceId 由房间名映射得到（如 " + room + " -> " + id + "）。"
  }

  /** `buildMetadata`. */
  function BuildMetadata(d: Device): Metadata {
    var room := Str(d.room);
    var id := Str(d.deviceId);
    [("category", MStr("智能家居")),
     ("scene", Nullable(d.room)),
     ("room", Nullable(d.room)),
     ("roomId", MStr(d.roomId.GetOr(""))),
     ("deviceId", Nullable(d.deviceId)),
     ("deviceName", if d.deviceName.Some? then MStr(d.deviceName.value) else Nullable(d.deviceId)),
     ("source", MStr("device")),
     ("description", MStr(DescriptionHead + room + DescriptionTail)),
     ("操作步骤", MList(Steps(room, id))),
     ("调用方法", MStr(CallMethod(room, id)))]
  }

  /** The metadata keys, in insertion order; no key is put twice. */
  lemma DeviceMetadataKeys(d: Device)
    ensures Keys(BuildMetadata(d)) == DeviceMetaKeys
    ensures forall i, j | 0 <= i < j < |DeviceMetaKeys| :: DeviceMetaKeys[i] != DeviceMetaKeys[j]
  {
  }

  /** Each key of the device metadata reads back the value put under it. */
  lemma MetadataEntry(d: Device, i: nat)
    requires i < |DeviceMetaKeys|
    ensures Get(BuildMetadata(d), DeviceMetaKeys[i]) == BuildMetadata(d)[i].1
  {
    var m := BuildMetadata(d);
    DeviceMetadataKeys(d);
    forall j | 0 <= j < i ensures m[j].0 != m[i].0 {
      assert Keys(m)[j] == m[j].0 && Keys(m)[i] == m[i].0;
    }
    GetFirst(m, i);
  }

  /** The source of a device document is "device". */
  lemma DeviceMetadataSource(d: Device)
    ensures Get(BuildMetadata(d), "source") == MStr("device")
  {
    MetadataEntry(d, 6);
  }

  /** A null room id reads as "", and a null name falls back to the device id. */
  lemma DeviceMetadataDefaults(d: Device)
    ensures Get(BuildMetadata(d), "roomId") == MStr(d.roomId.GetOr(""))
    ensures Get(BuildMetadata(d), "deviceName") == if d.deviceName.Some? then MStr(d.deviceName.value) else Nullable(d.deviceId)
  {
    MetadataEntry(d, 3);
    MetadataEntry(d, 5);
  }

  /** Scene and room are the raw room, null included. */
  lemma DeviceMetadataRoom(d: Device)
    ensures Get(BuildMetadata(d), "scene") == Nullable(d.room)
    ensures Get(BuildMetadata(d), "room") == Nullable(d.room)
  {
    MetadataEntry(d, 1);
    MetadataEntry(d, 2);
  }

  /** The operation steps are a list of exactly four strings. */
  lemma DeviceMetadataSteps(d: Device)
    ensures Get(BuildMetadata(d), "操作步骤").MList? && |Get(BuildMetadata(d), "操作步骤").items| == 4
  {
    MetadataEntry(d, 8);
  }

  /** Every document built from a device is filed under source "device", so a
      removal by that source takes it away. */
  lemma DeviceDocFiledUnderDevice(d: Device, id: Option<string>, text: Option<string>, emb: Option<seq<real>>)
    ensures HasSource(VectorDocument(id, text, emb, Some(BuildMetadata(d))), "device")
  {
    DeviceMetadataSource(d);
  }
}
