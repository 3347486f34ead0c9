# Samil inverter link, status decoding and Home Assistant discovery, in Dafny

This project models three parts of a bridge between Samil Power solar inverters and an MQTT broker
used by Home Assistant.

- **The inverter frame codec and link** (`inverter_codec.dfy`, `inverter_link.dfy`,
  `inverter_finder.dfy`). A frame is `55 aa`, a 3-octet identifier, a 2-octet big-endian payload
  length, the payload and a 2-octet big-endian checksum. The checksum is the sum of every earlier
  octet of the frame, modulo 2^16.
  - `InverterCodec` has the pure functions `calculate_checksum`, `construct_message` and
    `read_message`.
  - `InverterLink.Inverter` is the link to one inverter. It buffers arriving octets and consumes
    them one frame per `receive`. It also has `send`, and `disconnect`, which is idempotent.
  - `InverterDiscovery.InverterFinder` is the finder. Its `find_inverter` advertises at most
    `advertisements` times and returns the first inverter that connects back.
- **The older `solar.samil` codec and status fields** (`samil_status.dfy`). It covers
  `_samil_response`, the four status types `BytesStatusType`, `DecimalStatusType`,
  `OneOfStatusType` and `IfPresentStatusType`, and `_samil_string`. Its `_checksum` and
  `_samil_request` are modelled by the same definitions as `calculate_checksum` and
  `construct_message` (see the last section).
- **Home Assistant MQTT discovery** (`ha_discovery.dfy`, from samil/ha.py). It covers prefix
  normalisation, `expire_after`, the identifier slug, the topic, the discovery message with its
  falsy entries removed, and one publish per sensor-table entry. Every publish is appended to the
  ghost sequence `published`.

The shared modules are `Bytes` (octets, sums, big-endian values, Python slicing) and `Wrappers`
(`Option`).

The implementations of `calculate_checksum`, `construct_message`, `read_message`, `Inverter` and
`InverterFinder` live in samil/inverter.py. The implementations of the `solar.samil` functions
live in solar/samil.py. Neither file is part of this model. Their behaviour is taken from the
tests that pin it (tests/test_inverter.py, tests/test_samil.py), and the rows below cite those
tests. Where the tests leave a choice open, the model takes the choice recorded in the last
section.

## Model

| member | source | states |
|---|---|---|
| InverterCodec.Checksum | tests/test_inverter.py:16-20 | The checksum is two octets whose big-endian value is the octet sum of the message modulo 65536 |
| InverterCodec.ChecksumVector | tests/test_inverter.py:16-20 | The checksum of `55 aa 01 89 00 00 04 55 0c 00 00` is `01 ee` |
| InverterCodec.ChecksumIgnoresOrder | tests/test_inverter.py:16-20 | Two messages that are permutations of each other have the same checksum |
| InverterCodec.Construct | tests/test_inverter.py:22-27 | The frame is the magic, then the identifier, then the payload length as two big-endian octets, then the payload, then the checksum of everything before it; its length is 9 plus the payload length |
| InverterCodec.ConstructVector | tests/test_inverter.py:22-27 | `construct_message(06 01 02, 10 10)` is `55 aa 06 01 02 00 02 10 10 01 2a` |
| InverterCodec.EmptyPayloadVector | tests/test_inverter.py:37 | The frame for identifier `00 01 02` with an empty payload is the sample message `55 aa 00 01 02 00 00 01 02` |
| InverterCodec.ReadMessage | tests/test_inverter.py:29-34 | read_message on the buffered octets. It reports a bad start exactly when two octets are there and they are not `55 aa`. A parsed frame starts with the magic, and what is left is exactly what follows its 9 + payload-length octets. A bad checksum consumes a whole frame of at least 9 octets. ReadConstructed, ReadSound and ReadPrefix below characterise it fully |
| InverterCodec.ReadConstructed | tests/test_inverter.py:29-34 | Reading a constructed frame, whatever follows it, gives back the identifier and payload and leaves exactly what follows |
| InverterCodec.ReadSound | tests/test_inverter.py:29-34 | Whenever a frame is read, the stream is that frame's construction followed by the rest |
| InverterCodec.ReadPrefix | tests/test_inverter.py:87-104 | Every strict prefix of a frame reads as "need more", never as a frame or an error |
| InverterCodec.ReadVector | tests/test_inverter.py:29-34 | `read_message` on `55 aa 06 01 02 00 02 10 10 01 2a` gives identifier `06 01 02`, payload `10 10` and nothing left |
| InverterLink.ReceiveStep | tests/test_inverter.py:69-104 | One receive step on the buffered octets, given whether the peer is still open. It has no contract of its own; ReceiveStepConsumes states what it does, and Receive is proved against it |
| InverterLink.ReceiveStepConsumes | tests/test_inverter.py:75-104 | A receive step never adds to the buffer. A message is exactly the frame at the front of the buffer, with the rest left buffered. Blocking happens only while the peer is open and leaves the buffer as it was. A bad start drops the two octets |
| InverterLink.Inverter.constructor | tests/test_inverter.py:47-56 | A new link has an open socket, an open reader, a connected peer and empty buffers |
| InverterLink.Inverter.Arrive | tests/test_inverter.py:75-78 | Octets the inverter writes are appended to the buffered input while the peer is open; nothing else changes |
| InverterLink.Inverter.PeerClose | tests/test_inverter.py:63-73 | The inverter closing its end changes only the peer state |
| InverterLink.Inverter.Send | tests/test_inverter.py:63-67 | send fails with SocketClosed on a closed socket and with BrokenPipe when the peer has closed. Otherwise it appends exactly `Construct(identifier, payload)` to the output; nothing else changes |
| InverterLink.Inverter.Receive | tests/test_inverter.py:69-85 | On an open reader, the result and the remaining buffer are those of one read step on the old buffer. A whole frame is returned and taken off the front. An incomplete frame blocks while the peer is open; once the peer has closed it fails with InverterEOF (empty buffer) or Truncated. On a closed reader it fails with ReaderClosed |
| InverterLink.Inverter.ReceiveWhileArriving | tests/test_inverter.py:87-104 | A blocking receive while chunks arrive. Every buffer seen before the last chunk fed was incomplete, and the result is one read step on the buffer after the last chunk. A returned message is exactly the frame at the front of everything that arrived |
| InverterLink.Inverter.CloseSocket | tests/test_inverter.py:117-122 | Closing the socket changes nothing else |
| InverterLink.Inverter.CloseReader | tests/test_inverter.py:117-122 | Closing the buffered reader changes nothing else |
| InverterLink.Inverter.Disconnect | tests/test_inverter.py:112-122 | disconnect always ends with socket and reader closed and never fails. On an already closed link it changes nothing |
| InverterLink.MultipleMessagesReceivedAtOnce | tests/test_inverter.py:75-85 | Two sample frames that arrive together are received in order, one per call, and nothing is left over |
| InverterLink.SampleChunksRead | tests/test_inverter.py:87-104 | The sample frame cut into 1, 2, 4 and 2 octets is incomplete after each of the first three chunks and complete after the fourth |
| InverterLink.ChoppedMessage | tests/test_inverter.py:87-104 | A receive during those four arrivals returns the sample message after exactly four chunks |
| InverterLink.EofOnReceive | tests/test_inverter.py:69-73 | receive after the peer closed an idle connection fails with InverterEOF |
| InverterLink.EofOnSend | tests/test_inverter.py:63-67 | send after the peer closed fails with BrokenPipe and writes nothing |
| InverterLink.SendWritesFrame | tests/test_inverter.py:106-110 | send of `00 01 02` with an empty payload writes exactly the sample message |
| InverterLink.DisconnectIsIdempotent | tests/test_inverter.py:112-122 | disconnect twice, or after everything was already closed, leaves the link closed |
| InverterDiscovery.FirstAccept | tests/test_inverter.py:125-141 | The index of the first accepted wait among the first `advertisements` waits: a wait that accepted, with no earlier one that did. None exactly when none of them accepted |
| InverterDiscovery.FirstAcceptAt | tests/test_inverter.py:125-141 | A wait that accepted after an unbroken run of time-outs is the first accept |
| InverterDiscovery.InverterFinder.constructor | tests/test_inverter.py:144-146 | A new finder is not yet bound and has advertised nothing |
| InverterDiscovery.InverterFinder.Listen | tests/test_inverter.py:144-149 | listen binds once. Calling it again while listening does nothing and still succeeds. It fails only on a closed finder |
| InverterDiscovery.InverterFinder.Enter | tests/test_inverter.py:144-149 | Entering the context behaves as listen, so entering after listen does not fail or bind again |
| InverterDiscovery.InverterFinder.Exit | tests/test_inverter.py:128-130 | Leaving the context closes the finder and nothing else |
| InverterDiscovery.InverterFinder.FindInverter | tests/test_inverter.py:125-141 | On a listening finder it returns the address of the first accepted connection after that many advertisements. Otherwise it returns InverterNotFound after exactly `advertisements` advertisements. A finder that is not listening returns NotListening |
| InverterDiscovery.NotFoundScenario | tests/test_inverter.py:126-130 | With nobody answering, two advertisements end in InverterNotFound after two broadcasts |
| InverterDiscovery.NewConnectionScenario | tests/test_inverter.py:132-141 | An inverter connecting back during the first wait is returned after one advertisement |
| InverterDiscovery.EnterAfterListen | tests/test_inverter.py:144-149 | listen followed by entering the context succeeds both times, the finder is listening, and the socket was bound once |
| SamilStatus.Response | tests/test_samil.py:20-24 | The identifier is octets 2 to 4. The payload is the declared number of octets after the length field when the message holds them. The slicing is clamped, as in Python |
| SamilStatus.ResponseOfRequest | tests/test_samil.py:14-24 | `_samil_response` of `_samil_request(identifier, payload)` is `(identifier, payload)` |
| SamilStatus.ResponseVector | tests/test_samil.py:20-24 | `_samil_response(55 aa 01 89 00 00 04 55 0c 00 00 01 ee)` is `(01 89 00, 55 0c 00 00)` |
| SamilStatus.IndexOf | tests/test_samil.py:37-43 | The position of the first occurrence of an id in the format, and None exactly when the id is absent |
| SamilStatus.SlotBytes | tests/test_samil.py:33-43 | The slots of several ids are None exactly when some id is missing from the format |
| SamilStatus.SlotBytesLayout | tests/test_samil.py:37-43 | When all ids are present and the payload covers the format, the result has two octets per id. Pair k is payload octets [2i, 2i+2), where i is the position of id k |
| SamilStatus.GetValue | tests/test_samil.py:27-115 | get_value of the four status types. It has no contract of its own; SlotBytes, SlotBytesLayout, DecimalReadsSlots, OneOfIsFirstPresent and IfPresentGate characterise each case |
| SamilStatus.DecimalReadsSlots | tests/test_samil.py:52-58 | A decimal status is None exactly when some id is missing. Otherwise its exponent is the scale and its coefficient is the unsigned big-endian value of the ids' slots concatenated in argument order, below 256^(2·ids) |
| Bytes.BigEndianAppend | tests/test_samil.py:52-54 | The big-endian value of a concatenation is the value of the first part shifted by the length of the second, plus the value of the second; so a decimal can be computed slot by slot |
| SamilStatus.FirstSome | tests/test_samil.py:82-92 | The first Some of a list, and None exactly when every entry is None |
| SamilStatus.OneOfIsFirstPresent | tests/test_samil.py:82-92 | OneOfStatusType is None exactly when every option is. Otherwise it is the value of the first option that has one |
| SamilStatus.IfPresentGate | tests/test_samil.py:96-115 | IfPresentStatusType gives its inner value when the id's presence in the format equals `present`, and None otherwise |
| SamilStatus.Decode | tests/test_samil.py:61-65 | Decoding keeps the length and maps each octet to the character with that code |
| SamilStatus.StripStart | tests/test_samil.py:61-65 | Removing leading spaces and NULs never lengthens the text; StripStartSuffix characterises it |
| SamilStatus.StripStartSuffix | tests/test_samil.py:61-65 | Stripping the start keeps a suffix, removes only spaces and NULs, and leaves no padding first |
| SamilStatus.StripEnd | tests/test_samil.py:61-65 | Removing trailing spaces and NULs never lengthens the text; StripEndPrefix characterises it |
| SamilStatus.StripEndPrefix | tests/test_samil.py:61-65 | Stripping the end keeps a prefix, removes only spaces and NULs, and leaves no padding last |
| SamilStatus.TrimmedText | tests/test_samil.py:61-65 | Stripping both ends keeps one contiguous part of the text. All it drops is padding, and both ends of what it keeps are not padding |
| SamilStatus.SamilString | tests/test_samil.py:61-65 | `_samil_string` is never longer than the field; SamilStringIsTrimmed characterises it |
| SamilStatus.SamilStringIsTrimmed | tests/test_samil.py:61-65 | `_samil_string` keeps one contiguous part of the decoded field, drops only spaces and NULs around it, and neither end of it is padding |
| SamilStatus.SamilStringVector | tests/test_samil.py:62-65 | `_samil_string(b' V1 \x00 ')` is `"V1"` |
| SamilStatus.BytesMissingVector | tests/test_samil.py:33-35 | `BytesStatusType(0x03, 0x04)` is None on the test format |
| SamilStatus.BytesOneVector | tests/test_samil.py:37-39 | `BytesStatusType(0x01)` is `0b ac` |
| SamilStatus.BytesTwoReverseVector | tests/test_samil.py:41-43 | `BytesStatusType(0x02, 0x01)` is `0b e1 0b ac`: the slots come in argument order |
| SamilStatus.DecimalVector | tests/test_samil.py:52-54 | `DecimalStatusType(0x35, 0x36, scale=-1)` is the coefficient `0x0001b1cc` with exponent -1 |
| SamilStatus.DecimalRealVector | tests/test_samil.py:52-54 | That decimal is 11105.2 |
| SamilStatus.DecimalMissingVector | tests/test_samil.py:56-58 | `DecimalStatusType(0x37)` is None |
| SamilStatus.OneOfNoneVector | tests/test_samil.py:82-84 | OneOf of ids 03 and 06, neither in the format, is None |
| SamilStatus.OneOfSecondVector | tests/test_samil.py:86-88 | OneOf of ids 03 and 04 skips the missing 03 and gives 21 |
| SamilStatus.OneOfFirstVector | tests/test_samil.py:90-92 | OneOf of ids 04 and 00 gives 21, the value of the first option, although the second is present too |
| SamilStatus.IfPresentVector | tests/test_samil.py:96-115 | The four IfPresentStatusType cases over format `00` and payload `12 34` |
| HomeAssistant.Get | samil/ha.py:161-181 | A lookup of a key in a dict, the first entry with that key. It has no contract of its own; GetFound and GetEntry characterise it |
| HomeAssistant.GetFound | samil/ha.py:189-191 | A dict lookup finds an entry with that key, and finds nothing exactly when no entry has the key |
| HomeAssistant.GetEntry | samil/ha.py:189-191 | In a dict with unique keys, looking up an entry's key gives that entry's value |
| HomeAssistant.RemoveKeysWithNoValue | samil/ha.py:189-191 | `_removeKeysWithNoValue` never lengthens the dict; RemoveKeysMembers, RemoveKeysIdempotent, RemoveKeysUnique and GetRemoved characterise it |
| HomeAssistant.RemoveKeysMembers | samil/ha.py:189-191 | `_removeKeysWithNoValue` keeps exactly the entries whose value is truthy, with their values, and adds none |
| HomeAssistant.RemoveKeysIdempotent | samil/ha.py:189-191 | Removing the entries with no value twice is the same as once |
| HomeAssistant.RemoveKeysUnique | samil/ha.py:189-191 | The filtered dict still has unique keys |
| HomeAssistant.GetRemoved | samil/ha.py:189-191 | After filtering, a key has its old value exactly when that value is truthy, and is missing otherwise |
| HomeAssistant.FieldOf | samil/ha.py:189-191 | After filtering, the lookup of entry i's key is its value when that is truthy, and None otherwise |
| HomeAssistant.SensorTableSize | samil/ha.py:7-124 | The sensor table has fifteen entries |
| HomeAssistant.Slug | samil/ha.py:185-187 | `_getIdentifier` keeps the length. Every space becomes `_` and every upper-case letter becomes its lower-case letter, so no space or capital is left; every other character is unchanged |
| HomeAssistant.SlugIdempotent | samil/ha.py:185-187 | Slugging a slug changes nothing |
| HomeAssistant.SlugVector | samil/ha.py:22 | "PV1 Input Power" becomes "pv1_input_power" |
| HomeAssistant.TruncToInt | samil/ha.py:132 | Python's `int()` on a float truncates toward zero |
| HomeAssistant.ExpireAfter | samil/ha.py:131-132 | For a non-negative interval, `int(interval*2)+1` is at least 1, above twice the interval, and at most one more than it. For a negative interval the bounds mirror this |
| HomeAssistant.ExpireAfterVector | samil/ha.py:131-132 | An interval of 30 gives 61 and an interval of 2.5 gives 6 |
| HomeAssistant.NormalisePrefix | samil/ha.py:134-137 | An empty prefix leaves the field unset. A non-empty prefix is kept as a prefix of the stored value, which ends in `/` and is at most one character longer. A prefix already ending in `/` is stored unchanged |
| HomeAssistant.NormaliseIdempotent | samil/ha.py:134-137 | Normalising a stored prefix again changes nothing |
| HomeAssistant.Topic | samil/ha.py:155-160 | The configuration topic `prefix + type + "/" + inverterId + "/" + slug + "/config"`: it starts with the prefix and ends with `/config`. TopicDeterminesSlug states what else it determines |
| HomeAssistant.TopicDeterminesSlug | samil/ha.py:155-160 | For one prefix, sensor type and inverter, two sensors share a configuration topic only if their names have the same slug |
| HomeAssistant.DeviceTruthy | samil/ha.py:170-178 | The device block is never removed by the filter |
| HomeAssistant.RawMessage | samil/ha.py:161-181 | The discovery dict before filtering: eleven entries in source order, the optional table entries defaulting to `""`. It has no contract of its own; RawMessageUnique and the Message lemmas state what is published |
| HomeAssistant.DiscoveryMessage | samil/ha.py:161-181 | The published message: the raw dict with the entries with no value removed. MessageKeysUnique, MessageIdentity, MessageExpiry, MessageSensorFields and MessageTopics characterise it |
| HomeAssistant.RawMessageUnique | samil/ha.py:161-181 | The unfiltered discovery dict has eleven distinct keys |
| HomeAssistant.MessageKeysUnique | samil/ha.py:161-181 | The published message has no key twice |
| HomeAssistant.MessageIdentity | samil/ha.py:161-181 | `name` is the inverter id, a space and the sensor name. `unique_id` is the inverter id, `_` and the slug. `device` is the full device block. `force_update` is true. All four are always published |
| HomeAssistant.MessageExpiry | samil/ha.py:179 | `expire_after` is published with the stored value unless that value is 0 |
| HomeAssistant.MessageSensorFields | samil/ha.py:163-168 | `device_class`, `unit_of_measurement`, `icon` and `value_template` are published exactly when the table entry's value is non-empty. A missing optional entry means the key is absent |
| HomeAssistant.MessageTopics | samil/ha.py:164-165 | `state_topic` and `json_attributes_topic` both carry the inverter topic when it is non-empty |
| HomeAssistant.Announcement | samil/ha.py:152-183 | The (topic, message) pair `_publicizeInverterSensor` publishes for one sensor of one inverter: Topic and DiscoveryMessage with the inverter's serial number |
| HomeAssistant.Announcements | samil/ha.py:143-150 | publicizeInverter's publishes: one per table entry, in table order, each the topic and message of that entry for the same inverter |
| HomeAssistant.AllAnnouncements | samil/ha.py:139-141 | What publicize publishes: the announcements of each inverter, inverter after inverter. AllAnnouncementsLength and AllAnnouncementsStep characterise it |
| HomeAssistant.AllAnnouncementsLength | samil/ha.py:139-141 | publicize sends table size times inverter count messages |
| HomeAssistant.AllAnnouncementsStep | samil/ha.py:139-141 | One more inverter appends its announcements after those of the earlier inverters |
| HomeAssistant.HomeAssistantDiscovery.constructor | samil/ha.py:126-137 | The stored expiry is `int(interval*2)+1`, the stored prefix is the normalised one (unset when empty), the table is the fixed sensor table, and nothing is published yet |
| HomeAssistant.HomeAssistantDiscovery.PublicizeInverterSensor | samil/ha.py:152-183 | With a prefix, it publishes exactly one (topic, message) pair for the sensor. Without a prefix the source fails reading the unset field: ok is false and nothing is published |
| HomeAssistant.HomeAssistantDiscovery.PublicizeInverter | samil/ha.py:143-150 | It publishes exactly the announcements of every table entry, in table order. Without a prefix it fails before publishing |
| HomeAssistant.HomeAssistantDiscovery.Publicize | samil/ha.py:139-141 | It publishes the announcements of every inverter, inverter after inverter. Without a prefix it fails at the first inverter and publishes nothing; an empty inverter list succeeds |

## Left out

- Sockets, `socketpair`, threads, `sleep` and time-outs are not modelled. Octets that arrive are appended with `Arrive`. Thread interleaving is sequential feeding of chunks (`ReceiveWhileArriving`). A time-out is a wait past the end of the accept oracle.
- The finder's UDP broadcast content, its bind address and its TCP accept are not modelled, and neither are find_inverter's default arguments or its interval. Only the bounded advertise-then-wait loop over an oracle of accept outcomes remains, with the listen port 1200.
- The `sock` and `addr` objects that find_inverter returns are reduced to the peer address.
- The implementations in samil/inverter.py and solar/samil.py are not modelled. Their behaviour is taken from the tests cited above.
- InverterCodec.Payload: payloads of 65536 octets or more are excluded, because their length does not fit the two-octet field. What construct_message does with one is not modelled.
- The default `haDiscoveryPrefix='homeassistant'` (samil/ha.py:126) is not modelled; the prefix is always passed.
- The call `inverter.inverter.model()` (samil/ha.py:144) into the inverter is not modelled; its result is the ModelDetails datum of InverterEntry.
- OperationModeStatusType is not modelled, because its mapping table is not available.
- samil/mqttoutput.py is not part of this model: the MQTT client, JSON serialisation and the Decimal-to-float encoder. Logging (samil/ha.py:150, 183) is also left out. `publish` is recorded in the ghost sequence `published`.
- HomeAssistant.Slug: lower-cases ASCII letters only. Python's `str.lower` also lower-cases other Unicode letters.
- HomeAssistant.ExpireAfter: the interval is a real number, not an IEEE double, so rounding of `interval * 2` is not modelled.
- HomeAssistant.HomeAssistantDiscovery.PublicizeInverterSensor: the AttributeError raised when there is no prefix is modelled as ok = false. A KeyError for a model dict without `serial_number`, `manufacturer`, `model_name` or `firmware_version` cannot arise, because ModelDetails always has all four.
- HomeAssistant.HomeAssistantDiscovery.Publicize: the exception stops the loop in the source; the model returns false at the same point.
- SamilStatus.Response: as in the test, it does not check the magic or the checksum.
- Python dicts are sequences of (key, value) entries in insertion order. JSON values are a small datatype.
- Distinctness of the fifteen sensor topics of one inverter is not proved. TopicDeterminesSlug reduces it to the slugs of the table being distinct.

### Choices where the tests leave the behaviour open

- read_message checks the magic and the checksum; the tests exercise only valid frames. Bad magic is the error InvalidStart and drops the two octets. A checksum mismatch is the error ChecksumMismatch and drops the whole frame.
- When the peer has closed, an empty buffer gives InverterEOF and a partial frame gives Truncated.
- The checksum is a plain octet sum modulo 65536. It therefore does not depend on the order of the octets (InverterCodec.ChecksumIgnoresOrder).
- `_checksum` and `_samil_request` of solar.samil are modelled by the same definitions as `calculate_checksum` and `construct_message`. The tests show only that they agree on the same two vectors (tests/test_samil.py:9-18, tests/test_inverter.py:16-27). Sums of 65536 or more are pinned by no test.
- SamilStatus.Decode maps each octet to the character with that code (Latin-1). The test pins only ASCII text (tests/test_samil.py:64). An ASCII or UTF-8 `bytes.decode` would raise on octets of 0x80 or more, or combine them.
- InverterDiscovery.InverterFinder.Listen fails on a closed finder, and FindInverter returns NotListening on a finder that was never bound or was closed. No test pins either case.
