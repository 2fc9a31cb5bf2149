/**
 * The entity manager of entity_manager.py: it picks a device's entities out
 * of the host's entity registry, builds one flat record per entity from the
 * registry entry and the live state store, and attaches a base64 snapshot to
 * camera and image entities.
 */
module EntityManager {
  import opened Wrappers
  import opened Strings
  import Base64

  /** One entry of the host's entity registry. */
  datatype RegistryEntry = RegistryEntry(
    entityId: string,
    deviceId: Option<string>,
    originalName: Option<string>,
    platform: string,
    entityCategory: Option<string>)

  /** The flat record built for one entity; `snapshot` is the optional `"snapshot"` key. */
  datatype EntityRecord = EntityRecord(
    entityId: string,
    originalName: string,
    platform: string,
    entityCategory: Option<string>,
    state: string,
    snapshot: Option<string>)

  /**
   * What the manager reads from the host when it is called: the registry in
   * its iteration order, the live state of each entity that has one, and the
   * host's own base URL.
   */
  datatype Host = Host(registry: seq<RegistryEntry>, states: map<string, string>, baseUrl: string)

  /** An HTTP GET request and the response the host's web server gives to it. */
  datatype Request = Request(url: string, headers: seq<(string, string)>)
  datatype Response = Response(status: int, body: seq<Base64.byte>)

  /** An entity manager holds the access token it was created with (`None` when none is configured). */
  datatype Manager = Manager(accessToken: Option<string>)

  const CAMERA: string := "camera"
  const IMAGE: string := "image"
  const UNKNOWN_STATE: string := "unknown"
  const CAMERA_PROXY: string := "/api/camera_proxy/"
  const IMAGE_PROXY: string := "/api/image_proxy/"
  const HTTP_OK: int := 200

  /** Python's `entry.original_name or entry.entity_id`: an absent or empty name falls back to the id. */
  function DisplayName(e: RegistryEntry): (name: string)
    ensures name == e.entityId || (e.originalName == Some(name) && name != "")
    ensures e.originalName.Some? && e.originalName.value != "" ==> name == e.originalName.value
  {
    if e.originalName.Some? && e.originalName.value != "" then e.originalName.value else e.entityId
  }

  /** The live state of an entity, or `"unknown"` when the state store has none. */
  function StateOf(states: map<string, string>, entityId: string): string
  {
    if entityId in states then states[entityId] else UNKNOWN_STATE
  }

  /** An empty allowlist admits every entry; otherwise the name or the id must be listed. */
  predicate Allowed(e: RegistryEntry, names: seq<string>)
  {
    || names == []
    || (e.originalName.Some? && e.originalName.value in names)
    || e.entityId in names
  }

  /** The entry belongs to the device and passes the allowlist. */
  predicate Selected(e: RegistryEntry, deviceId: string, names: seq<string>)
  {
    e.deviceId == Some(deviceId) && Allowed(e, names)
  }

  /** The entity id marks a camera or an image entity. */
  predicate IsMedia(entityId: string)
  {
    Contains(entityId, CAMERA) || Contains(entityId, IMAGE)
  }

  /** The proxy URL a snapshot is fetched from: the camera proxy wins over the image proxy. */
  function SnapshotUrl(baseUrl: string, entityId: string): string
  {
    if Contains(entityId, CAMERA) then baseUrl + CAMERA_PROXY + entityId
    else if Contains(entityId, IMAGE) then baseUrl + IMAGE_PROXY + entityId
    else ""
  }

  /** Reads a snapshot URL back: which proxy it names and for which entity. */
  function ProxyTarget(baseUrl: string, url: string): Option<(string, string)>
  {
    var camera := baseUrl + CAMERA_PROXY;
    var image := baseUrl + IMAGE_PROXY;
    if |camera| <= |url| && url[..|camera|] == camera then Some((CAMERA_PROXY, url[|camera|..]))
    else if |image| <= |url| && url[..|image|] == image then Some((IMAGE_PROXY, url[|image|..]))
    else None
  }

  /**
   * The URL of a camera or image entity names the entity and its proxy, the
   * camera proxy whenever the id contains "camera"; any other id gets no URL.
   */
  lemma SnapshotUrlTarget(baseUrl: string, entityId: string)
    ensures Contains(entityId, CAMERA) ==>
      ProxyTarget(baseUrl, SnapshotUrl(baseUrl, entityId)) == Some((CAMERA_PROXY, entityId))
    ensures !Contains(entityId, CAMERA) && Contains(entityId, IMAGE) ==>
      ProxyTarget(baseUrl, SnapshotUrl(baseUrl, entityId)) == Some((IMAGE_PROXY, entityId))
    ensures !IsMedia(entityId) <==> SnapshotUrl(baseUrl, entityId) == ""
  {
    var url := SnapshotUrl(baseUrl, entityId);
    var camera := baseUrl + CAMERA_PROXY;
    var image := baseUrl + IMAGE_PROXY;
    if Contains(entityId, CAMERA) {
      assert url[..|camera|] == camera;
      assert url[|camera|..] == entityId;
    } else if Contains(entityId, IMAGE) {
      assert url[..|image|] == image;
      assert url[|image|..] == entityId;
      assert !(|camera| <= |url| && url[..|camera|] == camera) by {
        assert url[|baseUrl| + 5] == image[|baseUrl| + 5] == 'i';
        assert camera[|baseUrl| + 5] == 'c';
      }
    }
  }

  /** Python's `f"{token}"`: the text of the token, `"None"` when there is none. */
  function TokenText(token: Option<string>): string
  {
    if token.Some? then token.value else "None"
  }

  /** The GET request for an entity's snapshot, with the bearer token of the manager. */
  function SnapshotRequest(m: Manager, baseUrl: string, entityId: string): (req: Request)
    ensures req.url == SnapshotUrl(baseUrl, entityId)
    ensures ("Authorization", "Bearer " + TokenText(m.accessToken)) in req.headers
  {
    Request(SnapshotUrl(baseUrl, entityId),
            [("Authorization", "Bearer " + TokenText(m.accessToken)), ("Content-Type", "application/json")])
  }

  /** `fetch_entity_snapshot`: the response body on status 200, nothing on any other status. */
  function FetchEntitySnapshot(m: Manager, baseUrl: string, get: Request -> Response, entityId: string)
    : (data: Option<seq<Base64.byte>>)
    ensures data.Some? <==> get(SnapshotRequest(m, baseUrl, entityId)).status == HTTP_OK
    ensures data.Some? ==> data.value == get(SnapshotRequest(m, baseUrl, entityId)).body
  {
    var response := get(SnapshotRequest(m, baseUrl, entityId));
    if response.status == HTTP_OK then Some(response.body) else None
  }

  /**
   * `encode_snapshot_data`: the base64 text of the bytes. It decodes back to
   * exactly those bytes (by `Base64.EncodingUnique` it is the only text that
   * does), and it has the shape of an encoding of that many bytes.
   */
  function EncodeSnapshotData(data: seq<Base64.byte>): (text: string)
    ensures Base64.Decode(text) == Some(data)
    ensures Base64.WellPadded(text, |data|)
  {
    Base64.DecodeEncode(data);
    Base64.EncodeAlphabet(data);
    Base64.Encode(data)
  }

  /**
   * The record built for one registry entry. It carries a snapshot exactly
   * when the entity is a camera or image and the fetch returned a non-empty
   * body (Python treats empty bytes as false), and the snapshot then decodes
   * to that body.
   */
  function BuildRecord(m: Manager, host: Host, get: Request -> Response, e: RegistryEntry): (r: EntityRecord)
    ensures r.entityId == e.entityId && r.platform == e.platform && r.entityCategory == e.entityCategory
    ensures r.originalName == DisplayName(e)
    ensures r.state == StateOf(host.states, e.entityId)
    ensures r.snapshot.Some? <==>
      IsMedia(e.entityId) && FetchEntitySnapshot(m, host.baseUrl, get, e.entityId).Some? &&
      |FetchEntitySnapshot(m, host.baseUrl, get, e.entityId).value| > 0
    ensures r.snapshot.Some? ==>
      Base64.Decode(r.snapshot.value) == FetchEntitySnapshot(m, host.baseUrl, get, e.entityId)
  {
    var plain := EntityRecord(e.entityId, DisplayName(e), e.platform, e.entityCategory,
                              StateOf(host.states, e.entityId), None);
    if IsMedia(e.entityId) then
      var data := FetchEntitySnapshot(m, host.baseUrl, get, e.entityId);
      if data.Some? && |data.value| > 0 then plain.(snapshot := Some(EncodeSnapshotData(data.value)))
      else plain
    else plain
  }

  /** A record's snapshot is the one base64 text that decodes to the fetched body. */
  lemma SnapshotIsCanonical(m: Manager, host: Host, get: Request -> Response, e: RegistryEntry, t: string)
    requires BuildRecord(m, host, get, e).snapshot.Some?
    requires Base64.Decode(t) == FetchEntitySnapshot(m, host.baseUrl, get, e.entityId)
    ensures t == BuildRecord(m, host, get, e).snapshot.value
  {
    var data := FetchEntitySnapshot(m, host.baseUrl, get, e.entityId).value;
    assert BuildRecord(m, host, get, e).snapshot.value == EncodeSnapshotData(data) == Base64.Encode(data);
    Base64.EncodingUnique(data);
  }

  /** The records `get_entities_for_device` returns for the registry prefix `entries`. */
  function DeviceRecords(m: Manager, host: Host, get: Request -> Response,
                         entries: seq<RegistryEntry>, deviceId: string, names: seq<string>): seq<EntityRecord>
  {
    if entries == [] then []
    else
      var prior := DeviceRecords(m, host, get, entries[..|entries| - 1], deviceId, names);
      var e := entries[|entries| - 1];
      if Selected(e, deviceId, names) then prior + [BuildRecord(m, host, get, e)] else prior
  }

  /** One more entry adds its record exactly when it is selected. */
  lemma DeviceRecordsSnoc(m: Manager, host: Host, get: Request -> Response,
                          entries: seq<RegistryEntry>, e: RegistryEntry, deviceId: string, names: seq<string>)
    ensures DeviceRecords(m, host, get, entries + [e], deviceId, names)
      == if Selected(e, deviceId, names) then DeviceRecords(m, host, get, entries, deviceId, names) + [BuildRecord(m, host, get, e)]
         else DeviceRecords(m, host, get, entries, deviceId, names)
  {
    assert (entries + [e])[..|entries|] == entries;
  }

  /** The positions of the selected entries, in registry order. */
  function SelectedIndices(entries: seq<RegistryEntry>, deviceId: string, names: seq<string>): seq<nat>
  {
    if entries == [] then []
    else
      var prior := SelectedIndices(entries[..|entries| - 1], deviceId, names);
      if Selected(entries[|entries| - 1], deviceId, names) then prior + [|entries| - 1] else prior
  }

  /**
   * `idx` lists, in strictly increasing order, exactly the positions of the
   * selected entries.
   */
  predicate IsSelection(entries: seq<RegistryEntry>, idx: seq<nat>, deviceId: string, names: seq<string>)
  {
    && (forall k :: 0 <= k < |idx| ==> idx[k] < |entries|)
    && (forall k :: 0 <= k < |idx| ==> Selected(entries[idx[k]], deviceId, names))
    && (forall k, l :: 0 <= k < l < |idx| ==> idx[k] < idx[l])
    && (forall i :: 0 <= i < |entries| && Selected(entries[i], deviceId, names) ==> i in idx)
  }

  lemma {:induction false} SelectedIndicesSpec(entries: seq<RegistryEntry>, deviceId: string, names: seq<string>)
    ensures IsSelection(entries, SelectedIndices(entries, deviceId, names), deviceId, names)
  {
    if entries != [] {
      var front := entries[..|entries| - 1];
      SelectedIndicesSpec(front, deviceId, names);
      var idx := SelectedIndices(entries, deviceId, names);
      var prior := SelectedIndices(front, deviceId, names);
      forall k | 0 <= k < |prior| ensures entries[prior[k]] == front[prior[k]] { }
      forall i | 0 <= i < |entries| - 1 && Selected(entries[i], deviceId, names) ensures i in idx {
        assert entries[i] == front[i];
      }
    }
  }

  /** Record `k` of the output is built from the entry at the `k`-th selected position. */
  lemma {:induction false} DeviceRecordsAt(m: Manager, host: Host, get: Request -> Response,
                                           entries: seq<RegistryEntry>, deviceId: string, names: seq<string>)
    ensures |DeviceRecords(m, host, get, entries, deviceId, names)| == |SelectedIndices(entries, deviceId, names)|
    ensures forall k :: 0 <= k < |SelectedIndices(entries, deviceId, names)| ==>
      && SelectedIndices(entries, deviceId, names)[k] < |entries|
      && DeviceRecords(m, host, get, entries, deviceId, names)[k]
         == BuildRecord(m, host, get, entries[SelectedIndices(entries, deviceId, names)[k]])
  {
    if entries != [] {
      var front := entries[..|entries| - 1];
      DeviceRecordsAt(m, host, get, front, deviceId, names);
      var prior := SelectedIndices(front, deviceId, names);
      forall k | 0 <= k < |prior| ensures entries[prior[k]] == front[prior[k]] { }
    }
  }

  /** Every returned record comes from a registry entry of the requested device that passed the allowlist. */
  lemma RecordsComeFromDevice(m: Manager, host: Host, get: Request -> Response, deviceId: string, names: seq<string>)
    ensures forall r :: r in DeviceRecords(m, host, get, host.registry, deviceId, names) ==>
      (exists i :: 0 <= i < |host.registry| && Selected(host.registry[i], deviceId, names) &&
                   r == BuildRecord(m, host, get, host.registry[i]))
  {
    var out := DeviceRecords(m, host, get, host.registry, deviceId, names);
    var idx := SelectedIndices(host.registry, deviceId, names);
    SelectedIndicesSpec(host.registry, deviceId, names);
    DeviceRecordsAt(m, host, get, host.registry, deviceId, names);
    forall r | r in out
      ensures exists i :: 0 <= i < |host.registry| && Selected(host.registry[i], deviceId, names) &&
                          r == BuildRecord(m, host, get, host.registry[i])
    {
      var k :| 0 <= k < |out| && out[k] == r;
      assert Selected(host.registry[idx[k]], deviceId, names);
    }
  }

  /**
   * An entry yields a record exactly when it belongs to the device and, if
   * the allowlist is non-empty, its original name or its id is listed; with
   * no allowlist every entry of the device yields one.
   */
  lemma SelectionIff(entries: seq<RegistryEntry>, deviceId: string, names: seq<string>, i: int)
    requires 0 <= i < |entries|
    ensures i in SelectedIndices(entries, deviceId, names) <==>
      entries[i].deviceId == Some(deviceId) &&
      (|| names == []
       || (entries[i].originalName.Some? && entries[i].originalName.value in names)
       || entries[i].entityId in names)
  {
    SelectedIndicesSpec(entries, deviceId, names);
  }

  /** Ids unique in the registry (it is a dictionary keyed by entity id). */
  predicate UniqueIds(entries: seq<RegistryEntry>)
  {
    forall i, j :: 0 <= i < j < |entries| ==> entries[i].entityId != entries[j].entityId
  }

  /** No entity is reported twice. */
  lemma RecordsDistinct(m: Manager, host: Host, get: Request -> Response, deviceId: string, names: seq<string>)
    requires UniqueIds(host.registry)
    ensures forall k, l :: 0 <= k < l < |DeviceRecords(m, host, get, host.registry, deviceId, names)| ==>
      DeviceRecords(m, host, get, host.registry, deviceId, names)[k].entityId
      != DeviceRecords(m, host, get, host.registry, deviceId, names)[l].entityId
  {
    SelectedIndicesSpec(host.registry, deviceId, names);
    DeviceRecordsAt(m, host, get, host.registry, deviceId, names);
  }

  /**
   * The body of the loop of `get_entities_for_device` for one selected entry:
   * the record, with the snapshot key added when the fetch returned data.
   */
  method EntityData(m: Manager, host: Host, get: Request -> Response, entry: RegistryEntry)
    returns (entityData: EntityRecord)
    ensures entityData == BuildRecord(m, host, get, entry)
  {
    entityData := EntityRecord(entry.entityId, DisplayName(entry), entry.platform,
                               entry.entityCategory, StateOf(host.states, entry.entityId), None);
    if Contains(entry.entityId, CAMERA) || Contains(entry.entityId, IMAGE) {
      var snapshotData := FetchEntitySnapshot(m, host.baseUrl, get, entry.entityId);
      if snapshotData.Some? && |snapshotData.value| > 0 {
        entityData := entityData.(snapshot := Some(EncodeSnapshotData(snapshotData.value)));
      }
    }
  }

  /**
   * `get_entities_for_device`: walks the registry in order and appends a
   * record for each selected entry, adding the snapshot key to the record of
   * a camera or image entity when the fetch returned data.
   */
  method GetEntitiesForDevice(m: Manager, host: Host, get: Request -> Response,
                              deviceId: string, entityNames: seq<string>)
    returns (entities: seq<EntityRecord>)
    ensures entities == DeviceRecords(m, host, get, host.registry, deviceId, entityNames)
  {
    entities := [];
    var i := 0;
    while i < |host.registry|
      invariant 0 <= i <= |host.registry|
      invariant entities == DeviceRecords(m, host, get, host.registry[..i], deviceId, entityNames)
    {
      var entry := host.registry[i];
      if entry.deviceId == Some(deviceId) {
        if || entityNames == []
           || (entry.originalName.Some? && entry.originalName.value in entityNames)
           || entry.entityId in entityNames
        {
          var entityData := EntityData(m, host, get, entry);
          entities := entities + [entityData];
        }
      }
      assert host.registry[..i + 1] == host.registry[..i] + [entry];
      DeviceRecordsSnoc(m, host, get, host.registry[..i], entry, deviceId, entityNames);
      i := i + 1;
    }
    assert host.registry[..i] == host.registry;
  }
}
