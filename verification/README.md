# HomeCord outbound relay — a Dafny model

HomeCord is a Home Assistant integration that relays the entities of one
configured device to a Discord bot. This project models its outbound path:

- **Entity manager** (`entity_manager.dfy`, module `EntityManager`). It selects a
  device's entries from the entity registry and applies the optional allowlist.
  It builds one flat record per entry, with two fallbacks: the name falls back
  to the entity id, and the state falls back to `"unknown"`. Camera and image
  entities also get a base64 snapshot, fetched from the host's camera or image
  proxy.
- **Base64** (`base64.dfy`). The encoding of section 4 of RFC 4648, which is
  what Python's `base64.b64encode` produces. A reference decoder comes with
  it. The decoder accepts only canonical text: its pad bits must be zero, as
  section 3.5 of RFC 4648 describes. The encoder and decoder are proved
  inverse in both directions, so every byte string has exactly one encoding.
- **Communicator** (`communicator.dfy`, module `Communication`). A class with
  two fields:
  - `ws` is the source's `ws_connection`. It holds at most one websocket
    connection to the bot.
  - `trace` has no counterpart in the source. It records the wire events
    (opened, connect failed, closed, sent). It lets the contracts say exactly
    what went out, and it names each connection by the position of its
    `Opened` event.

  The class sends update messages over the connection, reconnects after a
  reset and closes on request. A pure function gives each step's effect on
  the state.
- **Top-level integration** (`relay.dfy`, module `Relay`). This is the
  top-level variant, which posts over HTTP. The model gives the behaviour its
  code evidently intends: a state change of an entity registered to the
  configured device posts that device's whole entity list to
  `<bot url>/hacs/notify`, and the service does the same for the device named
  in the call. As written, neither path gets that far (see "## Left out").
- **Packaged integration** (`homecord.dfy`, module `Homecord`). It reads the
  configuration and parses the comma-separated allowlist. An `Integration`
  object holds what the callbacks close over. The periodic update sends only a
  non-empty list. The state-change listener sends on every change.
- `strings.dfy` (module `Strings`) gives the Python string operations used
  above: `in`, `split(',')` and `strip()`. `wrappers.dfy` holds `Option`.

The host is given as values rather than queried. The registry is a sequence of
entries in iteration order. The live state store is a map. The host's HTTP
server is a total function from requests to responses. Websocket outcomes are
parameters: connect accepted or refused; send delivered, reset or failed
otherwise; transport reports the connection closed.

Behaviour of the code worth stating up front:

- The communicator has no HTTP fallback. A payload that meets an absent or
  closed connection is dropped, and the call only reconnects.
- After a reset the communicator reconnects once and does not resend.
- Both entry points send the device's whole entity list on a state change,
  not just the entity that changed.
- The allowlist applies to the state-change path of the packaged integration
  as well.

## Model

| member | source | states |
|---|---|---|
| `EntityManager.GetEntitiesForDevice` | entity_manager.py:20-41 | the loop over the registry returns exactly `DeviceRecords` of the whole registry: one record per selected entry, in registry order, snapshot added where fetched |
| `EntityManager.SelectedIndicesSpec` | entity_manager.py:24-26 | the selected positions are strictly increasing, each one is an entry of the device that passes the allowlist, and every such entry's position is among them |
| `EntityManager.DeviceRecordsAt` | entity_manager.py:23-41 | there are as many records as selected entries, and record k is built from the k-th selected entry (order kept, nothing invented) |
| `EntityManager.RecordsComeFromDevice` | entity_manager.py:24-25 | every returned record is built from a registry entry whose device id is the requested one and that passed the allowlist |
| `EntityManager.SelectionIff` | entity_manager.py:25-26 | an entry yields a record iff it belongs to the device and either the allowlist is empty or it lists the entry's original name or its entity id |
| `EntityManager.RecordsDistinct` | entity_manager.py:24-40 | with entity ids unique in the registry, no two records have the same entity id |
| `EntityManager.DisplayName` | entity_manager.py:30 | the name is the original name when that is present and non-empty, and the entity id otherwise |
| `EntityManager.BuildRecord` | entity_manager.py:27-39 | the record has the entry's id, platform and category, the fallback name and the live state or "unknown"; it has a snapshot iff the id contains "camera" or "image" and the fetch returned non-empty bytes, and that snapshot decodes back to those bytes |
| `EntityManager.SnapshotIsCanonical` | entity_manager.py:36-39 | a record's snapshot is the only text that decodes to the fetched body, so it is exactly the `b64encode` text of that body |
| `EntityManager.EntityData` | entity_manager.py:28-39 | the loop body's record for a selected entry is `BuildRecord` of that entry |
| `EntityManager.SnapshotUrlTarget` | entity_manager.py:45-50 | an id containing "camera" gets a camera-proxy URL for that id, even if it also contains "image"; otherwise an id containing "image" gets an image-proxy URL; any other id gets the empty URL |
| `EntityManager.SnapshotRequest` | entity_manager.py:47-53 | the GET goes to the snapshot URL and carries the header `Authorization: Bearer <token>` |
| `EntityManager.FetchEntitySnapshot` | entity_manager.py:55-61 | the result is present iff the response status is 200, and then it is the response body |
| `EntityManager.EncodeSnapshotData` | entity_manager.py:16-18 | the text decodes to exactly the given bytes and has the shape of an encoding of n bytes: 4 * ceil(n / 3) alphabet characters, the last (3 - n mod 3) mod 3 of them replaced by padding |
| `Base64.DecodeEncode` | entity_manager.py:18 | decoding the base64 encoding of any byte string gives back that byte string |
| `Base64.EncodeDecode` | entity_manager.py:18 | every text the canonical decoder accepts is the encoding of the bytes it decodes to |
| `Base64.EncodingUnique` | entity_manager.py:18 | the encoding of a byte string is the only text that decodes to it |
| `Base64.EncodeAlphabet` | entity_manager.py:18 | the encoding of n bytes has 4 * ceil(n / 3) characters: characters of the RFC 4648 alphabet followed by exactly (3 - n mod 3) mod 3 padding characters |
| `Base64.Encode` | entity_manager.py:18 | the encoding of n bytes has length 4 * ceil(n / 3) |
| `Base64.CharOfIsTable` | entity_manager.py:18 | the character chosen for each 6-bit value is the one in the alphabet table of RFC 4648, section 4 |
| `Strings.ContainsIff` | entity_manager.py:36 | Python's substring test holds iff the pattern occurs at some position of the string |
| `Communication.Communicator.constructor` | custom_components/homecord/communicator.py:9-14 | a new communicator has no connection and has done nothing on the wire |
| `Communication.Communicator.SendToDiscord` | custom_components/homecord/communicator.py:16-23 | the new state is `Send` of the old one, and the communicator stays consistent |
| `Communication.Communicator.SendDataViaWebsocket` | custom_components/homecord/communicator.py:25-35 | the new state is `SendData` of the old one: delivered, reconnect on reset, unchanged on any other error |
| `Communication.Communicator.EstablishWebsocketConnection` | custom_components/homecord/communicator.py:37-47 | the new state is `Establish` of the old one: close the current connection, then hold the new one or none |
| `Communication.Communicator.CloseWebsocketConnection` | custom_components/homecord/communicator.py:49-54 | the new state is `CloseConnection` of the old one |
| `Communication.EstablishSpec` | custom_components/homecord/communicator.py:37-47 | the current connection is closed before a new one is opened, so at most one connection is held; after a refused connect there is none, after an accepted one it is the new connection |
| `Communication.SendDeliversOnce` | custom_components/homecord/communicator.py:18-21 | over a usable connection a delivered send emits exactly one message, `{type: "update", device_id, entities}` with the arguments unchanged, and keeps the connection |
| `Communication.PayloadDroppedWhenUnusable` | custom_components/homecord/communicator.py:20-23 | when the connection is absent or reported closed, the call only (re)connects and sends nothing |
| `Communication.ResetReconnectsWithoutResend` | custom_components/homecord/communicator.py:27-33 | a reset during the send closes the connection, makes exactly one connection attempt and sends nothing |
| `Communication.OtherErrorLeavesChannel` | custom_components/homecord/communicator.py:34-35 | any other send error leaves the connection and the wire untouched |
| `Communication.SendPreservesConsistency` | custom_components/homecord/communicator.py:16-47 | every send keeps "the connections held are exactly the current one", only appends to the trace, and sends at most one message |
| `Communication.CloseIdempotent` | custom_components/homecord/communicator.py:49-53 | closing leaves no connection and none held, closing twice equals closing once, and closing without a connection changes nothing |
| `Relay.SendToDiscord` | __init__.py:14-19 | the post goes to the bot URL followed by "/hacs/notify", and its body holds exactly the given device id and entities |
| `Relay.GetEntitiesForDevice` | __init__.py:22-35 | the loop returns exactly `EntitiesOf` the registry for the device |
| `Relay.EntitiesOfSpec` | __init__.py:28-34 | one four-field record per entry of the device: a record is listed iff an entry of the device describes it, and there are as many records as entries of the device |
| `Relay.LookupEntity` | __init__.py:45 | the lookup finds a registry entry with the changed id, or reports that no entry has it |
| `Relay.ShouldRelayIff` | __init__.py:44-47 | with unique entity ids, a change is relayed iff some registry entry with the changed id belongs to the configured device |
| `Relay.StateChangeListener` | __init__.py:43-49 | a post is made iff the changed entity is registered to the configured device, and it carries the whole device entity list |
| `Relay.RelayedChangeIncluded` | __init__.py:47-49 | when a change is relayed, the changed entity's record is among those posted |
| `Relay.SendToDiscordService` | __init__.py:51-54 | the service posts, through the same send path, the entity list of the device named in the call |
| `Homecord.ParseEntityNames` | custom_components/homecord/__init__.py:24-25 | an empty setting parses to no names; otherwise there are (number of commas + 1) names, name k being field k stripped, none containing a comma or beginning or ending with whitespace |
| `Homecord.ReadSettings` | custom_components/homecord/__init__.py:20-25 | setup gets settings iff the bot URL, websocket URL and device id are all present, and then those three are the entry's values; the token is the entry's value when present and absent otherwise; the allowlist is the parse of the entry's value, and no names when the key is missing |
| `Homecord.StripAll` | custom_components/homecord/__init__.py:25 | the comprehension strips every field, keeping their number and order |
| `Strings.SplitCount` | custom_components/homecord/__init__.py:25 | `split(',')` yields one more field than there are commas |
| `Strings.SplitPiecesFree` | custom_components/homecord/__init__.py:25 | no field of `split(',')` contains a comma |
| `Strings.JoinSplit` | custom_components/homecord/__init__.py:25 | joining the fields with commas gives back the input |
| `Strings.StripSpec` | custom_components/homecord/__init__.py:25 | `strip()` returns a slice of its input: everything it removes is whitespace, and the result neither starts nor ends with whitespace |
| `Homecord.Integration.constructor` | custom_components/homecord/__init__.py:27-29 | a new integration holds a manager with the configured token and a fresh communicator with no connection |
| `Homecord.Integration.UpdateEntitiesPeriodically` | custom_components/homecord/__init__.py:37-42 | the periodic update leaves the communicator untouched when the device has no records, and otherwise sends those records |
| `Homecord.Integration.StateChangeListener` | custom_components/homecord/__init__.py:48-52 | whichever entity changed, the listener sends the configured device's records under the configured allowlist, even when the list is empty |

## Left out

- Network I/O is not modelled. This covers the aiohttp sessions, the HTTP GET and POST, and the websocket connect, send and close. Their outcomes are inputs, and a POST is returned as the request it would make.
- The JSON text is not modelled: `json.dumps` is replaced by the structured payload.
- Logging is left out.
- Host plumbing is left out: the event-bus subscription, the one-minute timer, service registration and the `hass.data` bookkeeping.
- async interleaving is left out. Every call is treated as atomic.
- Python truthiness is kept where the source relies on it. A `None` allowlist behaves as the empty list. An empty original name falls back to the entity id. An empty snapshot body gives no snapshot. A missing token is written into the header as the text `None`.
- EntityManager.FetchEntitySnapshot: models the GET that entity_manager.py:54-61 evidently intends. Line 54 `await`s `async_get_clientsession(self.hass)`, but communicator.py:14 calls the same helper synchronously to get the session. If the helper is synchronous, as communicator.py uses it, line 54 raises `TypeError` for every selected camera or image entity. Nothing catches it, so it aborts `get_entities_for_device`, and with it the periodic update and the state-change listener of custom_components/homecord/__init__.py:40 and :51. The helper is not part of this model, so this is not modelled.
- EntityManager.FetchEntitySnapshot: does not model an exception raised by the GET itself (a transport failure). In the source, such an exception is not caught and would abort the whole `get_entities_for_device` call.
- Relay.StateChangeListener: models the listener as registered for every state change, which is what __init__.py:42-49 evidently intends. As written, line 42 uses `hass.bus.async_listen(EVENT_STATE_CHANGED)` as a decorator with no listener argument, whereas custom_components/homecord/__init__.py:54 passes the listener. With Home Assistant's `async_listen(event_type, listener)` signature, that decorator call likely fails or registers nothing. The registration is not part of this model.
- Relay.GetEntitiesForDevice: models the registry query that __init__.py:28 evidently intends, Home Assistant's module function `er.async_entries_for_device(entity_registry, device_id)`. As written, line 28 calls `async_entries_for_device(device_registry, device_id)` as a method of the entity registry object, which offers no such method, so the line raises `AttributeError` on every call and `get_entities_for_device` never returns a list. The registry object is not part of this model.
- Relay.SendToDiscordService: models the service as registered and called, which is what __init__.py:51-57 evidently intends. As written, the decorator call at line 42 raises inside `async_setup_entry` (it gives `async_listen` no listener argument), before line 57 registers the service, so the service is never registered. Even when called, it would meet the `AttributeError` of line 28 described above.
- Relay.GetEntitiesForDevice: takes the host's "entries of a device" query to return the registry entries whose device id equals the given one, in registry order. The query itself, and any other filtering it does, are not part of this model.
- Home Assistant's client-session and registry helpers are not part of this model.
- custom_components/homecord/entity_manager.py is not part of this model. The package imports it; the model uses the top-level entity_manager.py in its place.
- config_flow.py is not part of this model. It only returns the user input as the entry data. Its form (config_flow.py:28-33) asks only for `discord_bot_url` and `device_id`, so an entry it creates has no `discord_bot_ws_url` and custom_components/homecord/__init__.py:21 raises `KeyError`: with the shipped config flow the packaged setup never gets settings, which `Homecord.ReadSettings` models by returning `None` when that key is missing.
