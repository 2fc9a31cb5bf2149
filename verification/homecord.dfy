/**
 * The integration entry point of custom_components/homecord/__init__.py: it
 * reads the configuration entry, parses the entity allowlist, and wires an
 * entity manager and a communicator into a periodic update and a state-change
 * listener.
 */
module Homecord {
  import opened Wrappers
  import opened Strings
  import EntityManager
  import Communication

  const BOT_URL_KEY: string := "discord_bot_url"
  const WS_URL_KEY: string := "discord_bot_ws_url"
  const DEVICE_ID_KEY: string := "device_id"
  const TOKEN_KEY: string := "long_lived_token"
  const ENTITY_NAMES_KEY: string := "entity_names"

  /** What setup takes from the configuration entry. */
  datatype Settings = Settings(
    botUrl: string,
    wsUrl: string,
    deviceOfInterest: string,
    accessToken: Option<string>,
    entityNamesList: seq<string>)

  /** Strips every piece. */
  function StripAll(parts: seq<string>): (names: seq<string>)
    ensures |names| == |parts|
    ensures forall k :: 0 <= k < |parts| ==> names[k] == Strip(parts[k])
  {
    if parts == [] then [] else [Strip(parts[0])] + StripAll(parts[1..])
  }

  lemma StrippedPieces(parts: seq<string>)
    requires forall k :: 0 <= k < |parts| ==> ',' !in parts[k]
    ensures forall k :: 0 <= k < |parts| ==>
      && ',' !in Strip(parts[k])
      && (Strip(parts[k]) == [] || (!IsSpace(Strip(parts[k])[0]) && !IsSpace(Strip(parts[k])[|Strip(parts[k])| - 1])))
  {
    forall k | 0 <= k < |parts|
      ensures ',' !in Strip(parts[k])
      ensures Strip(parts[k]) == [] || (!IsSpace(Strip(parts[k])[0]) && !IsSpace(Strip(parts[k])[|Strip(parts[k])| - 1]))
    {
      var i, j := StripSpec(parts[k]);
    }
  }

  /**
   * `entity_names_list`: an empty setting gives no names; any other gives
   * one name per comma-separated field, in order, with the surrounding
   * whitespace removed.
   */
  function ParseEntityNames(entityNames: string): (names: seq<string>)
    ensures entityNames == "" ==> names == []
    ensures entityNames != "" ==> |names| == |Split(entityNames, ',')| == Count(entityNames, ',') + 1
    ensures entityNames != "" ==> forall k :: 0 <= k < |names| ==> names[k] == Strip(Split(entityNames, ',')[k])
    ensures forall k :: 0 <= k < |names| ==> ',' !in names[k]
    ensures forall k :: 0 <= k < |names| ==>
      names[k] == [] || (!IsSpace(names[k][0]) && !IsSpace(names[k][|names[k]| - 1]))
  {
    if entityNames == "" then []
    else
      var parts := Split(entityNames, ',');
      SplitCount(entityNames, ',');
      SplitPiecesFree(entityNames, ',');
      StrippedPieces(parts);
      StripAll(parts)
  }

  /**
   * Setup's reading of the entry: the bot URL, the websocket URL and the
   * device id are required (a missing one aborts setup), the token and the
   * allowlist are optional.
   */
  function ReadSettings(data: map<string, string>): (s: Option<Settings>)
    ensures s.Some? <==> BOT_URL_KEY in data && WS_URL_KEY in data && DEVICE_ID_KEY in data
    ensures s.Some? ==> s.value.accessToken.Some? == (TOKEN_KEY in data)
    ensures s.Some? ==> && s.value.botUrl == data[BOT_URL_KEY]
                         && s.value.wsUrl == data[WS_URL_KEY]
                         && s.value.deviceOfInterest == data[DEVICE_ID_KEY]
    ensures s.Some? && TOKEN_KEY in data ==> s.value.accessToken == Some(data[TOKEN_KEY])
    ensures s.Some? && ENTITY_NAMES_KEY !in data ==> s.value.entityNamesList == []
    ensures s.Some? && ENTITY_NAMES_KEY in data ==>
      s.value.entityNamesList == ParseEntityNames(data[ENTITY_NAMES_KEY])
  {
    if BOT_URL_KEY in data && WS_URL_KEY in data && DEVICE_ID_KEY in data then
      var token := if TOKEN_KEY in data then Some(data[TOKEN_KEY]) else None;
      var entityNames := if ENTITY_NAMES_KEY in data then data[ENTITY_NAMES_KEY] else "";
      Some(Settings(data[BOT_URL_KEY], data[WS_URL_KEY], data[DEVICE_ID_KEY], token, ParseEntityNames(entityNames)))
    else None
  }

  /** One set-up integration: the values its callbacks close over. */
  class Integration {
    const settings: Settings
    const manager: EntityManager.Manager
    const communicator: Communication.Communicator

    ghost predicate Valid()
      reads this, communicator
    {
      && communicator.Valid()
      && communicator.botUrl == settings.botUrl
      && communicator.wsUrl == settings.wsUrl
      && manager == EntityManager.Manager(settings.accessToken)
    }

    /** The records both callbacks fetch: the configured device under the configured allowlist. */
    function Entities(host: EntityManager.Host, get: EntityManager.Request -> EntityManager.Response)
      : seq<EntityManager.EntityRecord>
    {
      EntityManager.DeviceRecords(manager, host, get, host.registry,
                                  settings.deviceOfInterest, settings.entityNamesList)
    }

    constructor(settings: Settings)
      ensures Valid() && fresh(communicator)
      ensures this.settings == settings
      ensures communicator.ws == None && communicator.trace == []
    {
      this.settings := settings;
      manager := EntityManager.Manager(settings.accessToken);
      communicator := new Communication.Communicator(settings.botUrl, settings.wsUrl);
    }

    /** `update_entities_periodically`: sends only when the device has records to send. */
    method UpdateEntitiesPeriodically(host: EntityManager.Host,
                                      get: EntityManager.Request -> EntityManager.Response,
                                      transportClosed: bool, send: Communication.SendOutcome,
                                      connect: Communication.ConnectOutcome)
      requires Valid()
      modifies communicator
      ensures Valid()
      ensures Entities(host, get) == [] ==> communicator.State() == old(communicator.State())
      ensures Entities(host, get) != [] ==>
        communicator.State() == Communication.Send(old(communicator.State()), settings.wsUrl,
                                                   settings.deviceOfInterest, Entities(host, get),
                                                   transportClosed, send, connect)
    {
      var entities := EntityManager.GetEntitiesForDevice(manager, host, get, settings.deviceOfInterest,
                                                         settings.entityNamesList);
      if entities != [] {
        communicator.SendToDiscord(settings.deviceOfInterest, entities, transportClosed, send, connect);
      }
    }

    /**
     * `state_change_listener`: whichever entity changed, sends the configured
     * device's records, even when there are none.
     */
    method StateChangeListener(changed: Option<string>, host: EntityManager.Host,
                               get: EntityManager.Request -> EntityManager.Response,
                               transportClosed: bool, send: Communication.SendOutcome,
                               connect: Communication.ConnectOutcome)
      requires Valid()
      modifies communicator
      ensures Valid()
      ensures communicator.State() == Communication.Send(old(communicator.State()), settings.wsUrl,
                                                         settings.deviceOfInterest, Entities(host, get),
                                                         transportClosed, send, connect)
    {
      var entities := EntityManager.GetEntitiesForDevice(manager, host, get, settings.deviceOfInterest,
                                                         settings.entityNamesList);
      communicator.SendToDiscord(settings.deviceOfInterest, entities, transportClosed, send, connect);
    }
  }
}
