/**
 * The integration entry point of the top-level __init__.py: on every state
 * change of an entity registered to the configured device it posts the whole
 * device's entity list to the bot's HTTP endpoint, and a service call posts
 * the list of any device named in the call.
 *
 * The HTTP post itself is not performed: the operations return the request
 * they would make.
 */
module Relay {
  import opened Wrappers
  import opened EntityManager

  const NOTIFY_PATH: string := "/hacs/notify"

  /** The record this variant builds: four fields, no state and no snapshot. */
  datatype DeviceEntity = DeviceEntity(
    entityId: string,
    originalName: string,
    platform: string,
    entityCategory: Option<string>)

  /** The JSON body `{"device_id": ..., "entities": ...}`; the device id is null when a call gave none. */
  datatype NotifyBody = NotifyBody(deviceId: Option<string>, entities: seq<DeviceEntity>)

  datatype Post = Post(endpoint: string, body: NotifyBody)

  /** `send_to_discord`: the body and the endpoint of the post. */
  function SendToDiscord(botUrl: string, deviceId: Option<string>, entities: seq<DeviceEntity>): (p: Post)
    ensures |p.endpoint| == |botUrl| + |NOTIFY_PATH|
    ensures p.endpoint[..|botUrl|] == botUrl && p.endpoint[|botUrl|..] == NOTIFY_PATH
    ensures p.body.deviceId == deviceId && p.body.entities == entities
  {
    Post(botUrl + NOTIFY_PATH, NotifyBody(deviceId, entities))
  }

  function Describe(e: RegistryEntry): DeviceEntity
  {
    DeviceEntity(e.entityId, DisplayName(e), e.platform, e.entityCategory)
  }

  /** The records of the entries of one device, in registry order. */
  function EntitiesOf(entries: seq<RegistryEntry>, deviceId: Option<string>): seq<DeviceEntity>
  {
    if entries == [] then []
    else
      var prior := EntitiesOf(entries[..|entries| - 1], deviceId);
      var e := entries[|entries| - 1];
      if e.deviceId == deviceId then prior + [Describe(e)] else prior
  }

  /** The number of entries that belong to the device. */
  function CountOf(entries: seq<RegistryEntry>, deviceId: Option<string>): nat
  {
    if entries == [] then 0
    else CountOf(entries[..|entries| - 1], deviceId) + if entries[|entries| - 1].deviceId == deviceId then 1 else 0
  }

  /**
   * One record per entry of the device and no other: a record is listed
   * exactly when an entry of the device describes it, and there are as many
   * records as entries of the device.
   */
  lemma {:induction false} EntitiesOfSpec(entries: seq<RegistryEntry>, deviceId: Option<string>)
    ensures |EntitiesOf(entries, deviceId)| == CountOf(entries, deviceId)
    ensures forall d :: d in EntitiesOf(entries, deviceId) <==>
      exists e :: e in entries && e.deviceId == deviceId && d == Describe(e)
  {
    if entries != [] {
      var front := entries[..|entries| - 1];
      EntitiesOfSpec(front, deviceId);
      assert entries == front + [entries[|entries| - 1]];
    }
  }

  /** `get_entities_for_device`: a loop appending one record per entry of the device. */
  method GetEntitiesForDevice(registry: seq<RegistryEntry>, deviceId: Option<string>)
    returns (entities: seq<DeviceEntity>)
    ensures entities == EntitiesOf(registry, deviceId)
  {
    entities := [];
    var i := 0;
    while i < |registry|
      invariant 0 <= i <= |registry|
      invariant entities == EntitiesOf(registry[..i], deviceId)
    {
      var entry := registry[i];
      if entry.deviceId == deviceId {
        entities := entities + [DeviceEntity(entry.entityId, DisplayName(entry), entry.platform, entry.entityCategory)];
      }
      assert registry[..i + 1][..i] == registry[..i];
      i := i + 1;
    }
    assert registry[..i] == registry;
  }

  /** The registry lookup by entity id: the first entry with that id, none for a missing id. */
  function LookupEntity(registry: seq<RegistryEntry>, entityId: Option<string>): (r: Option<RegistryEntry>)
    ensures r.Some? ==> r.value in registry && entityId == Some(r.value.entityId)
    ensures r.None? ==> forall e :: e in registry ==> entityId != Some(e.entityId)
  {
    if registry == [] then None
    else if entityId == Some(registry[0].entityId) then Some(registry[0])
    else LookupEntity(registry[1..], entityId)
  }

  /** The change is relayed when the changed entity is registered to the device of interest. */
  predicate ShouldRelay(registry: seq<RegistryEntry>, deviceOfInterest: string, changed: Option<string>)
  {
    var entry := LookupEntity(registry, changed);
    entry.Some? && entry.value.deviceId == Some(deviceOfInterest)
  }

  /**
   * With entity ids unique, a change is relayed exactly when some registry
   * entry with the changed id belongs to the device of interest.
   */
  lemma ShouldRelayIff(registry: seq<RegistryEntry>, deviceOfInterest: string, changed: Option<string>)
    requires UniqueIds(registry)
    ensures ShouldRelay(registry, deviceOfInterest, changed) <==>
      exists i :: 0 <= i < |registry| && changed == Some(registry[i].entityId) &&
                  registry[i].deviceId == Some(deviceOfInterest)
  {
    var entry := LookupEntity(registry, changed);
    if exists i :: 0 <= i < |registry| && changed == Some(registry[i].entityId) &&
                   registry[i].deviceId == Some(deviceOfInterest) {
      var i :| 0 <= i < |registry| && changed == Some(registry[i].entityId) &&
               registry[i].deviceId == Some(deviceOfInterest);
      assert registry[i] in registry;
      var j :| 0 <= j < |registry| && registry[j] == entry.value;
      assert i == j;
    }
  }

  /**
   * `state_change_listener`: a post of the whole device entity list when the
   * changed entity belongs to the device of interest, nothing otherwise.
   */
  method StateChangeListener(registry: seq<RegistryEntry>, botUrl: string, deviceOfInterest: string,
                             changed: Option<string>)
    returns (post: Option<Post>)
    ensures post.Some? <==> ShouldRelay(registry, deviceOfInterest, changed)
    ensures post.Some? ==>
      post.value == SendToDiscord(botUrl, Some(deviceOfInterest), EntitiesOf(registry, Some(deviceOfInterest)))
  {
    var entityEntry := LookupEntity(registry, changed);
    if entityEntry.Some? && entityEntry.value.deviceId == Some(deviceOfInterest) {
      var entities := GetEntitiesForDevice(registry, Some(deviceOfInterest));
      post := Some(SendToDiscord(botUrl, Some(deviceOfInterest), entities));
    } else {
      post := None;
    }
  }

  /** A relayed change carries the changed entity among the records of its device. */
  lemma RelayedChangeIncluded(registry: seq<RegistryEntry>, deviceOfInterest: string, changed: Option<string>)
    requires ShouldRelay(registry, deviceOfInterest, changed)
    ensures Describe(LookupEntity(registry, changed).value) in EntitiesOf(registry, Some(deviceOfInterest))
  {
    EntitiesOfSpec(registry, Some(deviceOfInterest));
  }

  /** The service: a post for the device named in the call, through the same send path. */
  method SendToDiscordService(registry: seq<RegistryEntry>, botUrl: string, callDeviceId: Option<string>)
    returns (post: Post)
    ensures post == SendToDiscord(botUrl, callDeviceId, EntitiesOf(registry, callDeviceId))
  {
    var entities := GetEntitiesForDevice(registry, callDeviceId);
    post := SendToDiscord(botUrl, callDeviceId, entities);
  }
}
