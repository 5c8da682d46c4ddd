/**
 * The lookup of one camera stream's health record inside the RTSP health
 * payload, which nests it either directly under the camera, under a
 * `streams` map, or is the camera entry itself.
 */
module RtspHealth {
  import opened Js

  /** The entry of `camId` in the payload's `rtsp` map, when there is a truthy one. */
  function CameraEntry(payload: Option<Value>, camId: string): Option<Value>
  {
    var rtsp := Field(payload, "rtsp");
    if !Present(rtsp) || camId == "" then None
    else
      var entry := GetProp(rtsp.value, camId);
      if Present(entry) then entry else None
  }

  /** A truthy object-typed value directly under the camera entry. */
  predicate DirectStream(entry: Value, streamName: string)
  {
    var v := GetProp(entry, streamName);
    Present(v) && IsObjectType(v.value)
  }

  /** A truthy value under the camera entry's `streams`. */
  predicate NestedStream(entry: Value, streamName: string)
  {
    Present(Field(GetProp(entry, "streams"), streamName))
  }

  /**
   * `getStreamHealth(payload, camId, streamName)`; `Null` is the `null`
   * result. `payload` is `None` before the first poll answers.
   */
  function GetStreamHealth(payload: Option<Value>, camId: string, streamName: string): (r: Value)
    ensures CameraEntry(payload, camId).None? ==> r == Null
    ensures CameraEntry(payload, camId).Some? ==>
      var e := CameraEntry(payload, camId).value;
      (DirectStream(e, streamName) ==> r == GetProp(e, streamName).value) &&
      (!DirectStream(e, streamName) && NestedStream(e, streamName) ==>
        r == Field(GetProp(e, "streams"), streamName).value) &&
      (!DirectStream(e, streamName) && !NestedStream(e, streamName) ==>
        r == if IsObjectType(e) then e else Null)
  {
    var rtsp := Field(payload, "rtsp");
    if !Present(rtsp) || camId == "" then Null
    else
      var cameraEntry := GetProp(rtsp.value, camId);
      if !Present(cameraEntry) then Null
      else
        var direct := GetProp(cameraEntry.value, streamName);
        if Present(direct) && IsObjectType(direct.value) then direct.value
        else
          var nested := Field(GetProp(cameraEntry.value, "streams"), streamName);
          if Present(nested) then nested.value
          else if IsObjectType(cameraEntry.value) then cameraEntry.value
          else Null
  }

  /**
   * The result is `null` or a truthy value. It is `null` exactly when
   * there is no truthy camera entry, or the entry is neither an object nor
   * holds the stream under `streams`.
   */
  lemma NullOrTruthy(payload: Option<Value>, camId: string, streamName: string)
    ensures var r := GetStreamHealth(payload, camId, streamName);
      r == Null || Truthy(r)
    ensures GetStreamHealth(payload, camId, streamName) == Null <==>
      CameraEntry(payload, camId).None? ||
      (!NestedStream(CameraEntry(payload, camId).value, streamName) &&
       !IsObjectType(CameraEntry(payload, camId).value))
  {
  }

  /** A payload whose camera entry has both forms: the direct object wins over `streams`. */
  lemma DirectWins(health: map<string, Value>, other: Value)
    requires Truthy(other)
    ensures var entry := Obj(map["main" := Obj(health), "streams" := Obj(map["main" := other])]);
      var payload := Some(Obj(map["rtsp" := Obj(map["cam1" := entry])]));
      GetStreamHealth(payload, "cam1", "main") == Obj(health)
  {
  }

  /** A non-object truthy value under `streams` is returned as it is. */
  lemma NestedScalarReturned()
    ensures var entry := Obj(map["streams" := Obj(map["main" := Str("ok")])]);
      var payload := Some(Obj(map["rtsp" := Obj(map["cam1" := entry])]));
      GetStreamHealth(payload, "cam1", "main") == Str("ok")
  {
  }
}
