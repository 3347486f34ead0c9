/**
 * Home Assistant MQTT discovery (samil/ha.py): for every inverter, one retained configuration
 * message per entry of a fixed sensor table, published under
 * `<prefix><type>/<serial number>/<sensor slug>/config`.
 *
 * The MQTT client is not modelled; every publish is recorded, in order, in the ghost sequence
 * `published` of the discovery object.
 */
module HomeAssistant {
  import opened Wrappers

  /** The JSON values a discovery message is made of. */
  datatype Json =
    | JString(s: string)
    | JInt(i: int)
    | JBool(b: bool)
    | JArray(items: seq<Json>)
    | JObject(entries: seq<(string, Json)>)

  /** A Python dict, as its (key, value) entries in insertion order. */
  type Dict = seq<(string, Json)>

  /** Python truthiness: empty strings, zero, False and empty containers are false. */
  predicate Truthy(j: Json)
  {
    match j
    case JString(s) => s != ""
    case JInt(i) => i != 0
    case JBool(b) => b
    case JArray(items) => items != []
    case JObject(entries) => entries != []
  }

  /** No key occurs twice, as in every Python dict. */
  predicate UniqueKeys(d: Dict)
  {
    forall i, j :: 0 <= i < j < |d| ==> d[i].0 != d[j].0
  }

  /** A dict without its first entry is still a dict. */
  lemma UniqueTail(d: Dict)
    requires UniqueKeys(d) && d != []
    ensures UniqueKeys(d[1..])
  {
    forall i, j | 0 <= i < j < |d[1..]| ensures d[1..][i].0 != d[1..][j].0 {
      assert d[1..][i] == d[i + 1] && d[1..][j] == d[j + 1];
    }
  }

  /** d[key], or None when the key is missing (the first entry with that key). */
  function Get(d: Dict, key: string): Option<Json>
  {
    if d == [] then None
    else if d[0].0 == key then Some(d[0].1)
    else Get(d[1..], key)
  }

  /** A lookup finds an entry of the dict, and finds nothing only when no entry has the key. */
  lemma {:induction false} GetFound(d: Dict, key: string)
    ensures Get(d, key).Some? ==> (key, Get(d, key).value) in d
    ensures Get(d, key).None? <==> forall i :: 0 <= i < |d| ==> d[i].0 != key
  {
    if d != [] && d[0].0 != key {
      GetFound(d[1..], key);
      assert forall i :: 1 <= i < |d| ==> d[i] == d[1..][i - 1];
    }
  }

  /** In a dict, looking up the key of an entry gives that entry's value. */
  lemma {:induction false} GetEntry(d: Dict, i: nat)
    requires UniqueKeys(d) && i < |d|
    ensures Get(d, d[i].0) == Some(d[i].1)
  {
    if i > 0 {
      assert d[0].0 != d[i].0;
      UniqueTail(d);
      assert d[1..][i - 1] == d[i];
      GetEntry(d[1..], i - 1);
    }
  }

  /** _removeKeysWithNoValue: the entries whose value is truthy, in their original order. */
  function RemoveKeysWithNoValue(d: Dict): (r: Dict)
    ensures |r| <= |d|
  {
    if d == [] then []
    else if Truthy(d[0].1) then [d[0]] + RemoveKeysWithNoValue(d[1..])
    else RemoveKeysWithNoValue(d[1..])
  }

  /** _removeKeysWithNoValue keeps exactly the entries whose value is truthy; it adds none. */
  lemma {:induction false} RemoveKeysMembers(d: Dict)
    ensures forall e :: e in RemoveKeysWithNoValue(d) <==> e in d && Truthy(e.1)
  {
    if d != [] {
      RemoveKeysMembers(d[1..]);
      assert d == [d[0]] + d[1..];
    }
  }

  /** Removing the entries with no value a second time removes nothing more. */
  lemma {:induction false} RemoveKeysIdempotent(d: Dict)
    ensures RemoveKeysWithNoValue(RemoveKeysWithNoValue(d)) == RemoveKeysWithNoValue(d)
  {
    if d != [] {
      RemoveKeysIdempotent(d[1..]);
      var rest := RemoveKeysWithNoValue(d[1..]);
      if Truthy(d[0].1) {
        assert ([d[0]] + rest)[1..] == rest;
      }
    }
  }

  /** Removing entries keeps the keys unique. */
  lemma {:induction false} RemoveKeysUnique(d: Dict)
    requires UniqueKeys(d)
    ensures UniqueKeys(RemoveKeysWithNoValue(d))
  {
    if d != [] {
      UniqueTail(d);
      RemoveKeysUnique(d[1..]);
      RemoveKeysMembers(d[1..]);
      var rest := RemoveKeysWithNoValue(d[1..]);
      if Truthy(d[0].1) {
        var r := [d[0]] + rest;
        forall i, j | 0 <= i < j < |r| ensures r[i].0 != r[j].0 {
          if i == 0 {
            assert r[j] in d[1..];
            var m :| 0 <= m < |d[1..]| && d[1..][m] == r[j];
            assert d[m + 1] == r[j];
          } else {
            assert r[i] == rest[i - 1] && r[j] == rest[j - 1];
          }
        }
      }
    }
  }

  /**
   * In a dict, a key keeps its value through _removeKeysWithNoValue exactly when that value is
   * truthy; no key is added.
   */
  lemma {:induction false} GetRemoved(d: Dict, key: string)
    requires UniqueKeys(d)
    ensures Get(RemoveKeysWithNoValue(d), key)
         == if Get(d, key).Some? && Truthy(Get(d, key).value) then Get(d, key) else None
  {
    if d != [] {
      UniqueTail(d);
      GetRemoved(d[1..], key);
      var rest := RemoveKeysWithNoValue(d[1..]);
      if d[0].0 == key {
        GetFound(d[1..], key);
        forall i | 0 <= i < |d[1..]| ensures d[1..][i].0 != key {
          assert d[1..][i] == d[i + 1];
        }
      } else if Truthy(d[0].1) {
        assert ([d[0]] + rest)[1..] == rest;
      }
    }
  }

  /** The lookup of one key of a dict after entries with no value are removed. */
  lemma FieldOf(d: Dict, i: nat, key: string)
    requires UniqueKeys(d) && i < |d| && d[i].0 == key
    ensures Get(RemoveKeysWithNoValue(d), key) == if Truthy(d[i].1) then Some(d[i].1) else None
  {
    GetEntry(d, i);
    GetRemoved(d, key);
  }

  /** One entry of the sensor table; a missing optional entry is None. */
  datatype Sensor = Sensor(
    name: string,
    haSensorType: Option<string>,
    deviceClass: Option<string>,
    unitOfMeasurement: Option<string>,
    valueTemplate: string,
    icon: Option<string>)

  /** The table of sensors announced for every inverter, in publishing order. */
  const Sensors: seq<Sensor> := [
    Sensor("Operation Mode", Some("sensor"), None, None,
           "{{ value_json.operation_mode }}", Some("mdi:solar-panel")),
    Sensor("Total Operation Time", Some("sensor"), None, Some("h"),
           "{{ value_json.total_operation_time }}", Some("mdi:timer-outline")),
    Sensor("PV1 Input Power", Some("sensor"), Some("power"), Some("W"),
           "{{ value_json.pv1_input_power }}", Some("mdi:solar-panel")),
    Sensor("PV1 Voltage", Some("sensor"), Some("voltage"), Some("V"),
           "{{ value_json.pv1_voltage }}", Some("mdi:solar-panel")),
    Sensor("PV1 Current", Some("sensor"), Some("current"), Some("A"),
           "{{ value_json.pv1_current }}", Some("mdi:solar-panel")),
    Sensor("PV2 Input Power", Some("sensor"), Some("power"), Some("W"),
           "{{ value_json.pv2_input_power }}", Some("mdi:solar-panel")),
    Sensor("PV2 Voltage", Some("sensor"), Some("voltage"), Some("V"),
           "{{ value_json.pv2_voltage }}", Some("mdi:solar-panel")),
    Sensor("PV2 Current", Some("sensor"), Some("current"), Some("A"),
           "{{ value_json.pv2_current }}", Some("mdi:solar-panel")),
    Sensor("Output Power", Some("sensor"), Some("power"), Some("W"),
           "{{ value_json.output_power }}", Some("mdi:lightning-bolt")),
    Sensor("Energy Today", Some("sensor"), Some("energy"), Some("kWh"),
           "{{ value_json.energy_today }}", Some("mdi:lightning-bolt")),
    Sensor("Energy Total", Some("sensor"), Some("energy"), Some("kWh"),
           "{{ value_json.energy_total }}", Some("mdi:lightning-bolt")),
    Sensor("Grid Voltage", Some("sensor"), Some("voltage"), Some("V"),
           "{{ value_json.grid_voltage }}", Some("mdi:transmission-tower")),
    Sensor("Grid Current", Some("sensor"), Some("current"), Some("A"),
           "{{ value_json.grid_current }}", Some("mdi:transmission-tower")),
    Sensor("Grid Frequency", Some("sensor"), None, Some("Hz"),
           "{{ value_json.grid_frequency }}", Some("mdi:sine-wave")),
    // The unit is written in the source as the two characters U+00C2 U+00B0 followed by 'C'.
    Sensor("Inverter Temperature", Some("sensor"), Some("temperature"), Some("\U{00C2}\U{00B0}C"),
           "{{ value_json.internal_temperature }}", Some("mdi:thermometer"))
  ]

  /** The table has fifteen entries, so publicizeInverter publishes fifteen messages. */
  lemma SensorTableSize()
    ensures |Sensors| == 15
  {
  }

  /** What inverter.model() reports and the discovery message uses. */
  datatype ModelDetails = ModelDetails(
    serialNumber: string,
    manufacturer: string,
    modelName: string,
    firmwareVersion: string)

  /** One entry of the inverters list: the inverter's model details and its state topic. */
  datatype InverterEntry = InverterEntry(model: ModelDetails, topic: string)

  predicate IsUpper(c: char)
  {
    'A' <= c <= 'Z'
  }

  function ToLower(c: char): char
  {
    if IsUpper(c) then (c as int + 32) as char else c
  }

  /** _getIdentifier: spaces become underscores and letters become lower case. */
  function Slug(name: string): (r: string)
    ensures |r| == |name|
    ensures forall i :: 0 <= i < |r| ==> r[i] != ' ' && !IsUpper(r[i])
    ensures forall i :: 0 <= i < |r| && name[i] != ' ' && !IsUpper(name[i]) ==> r[i] == name[i]
    ensures forall i :: 0 <= i < |r| && name[i] == ' ' ==> r[i] == '_'
    ensures forall i :: 0 <= i < |r| && IsUpper(name[i]) ==> r[i] as int == name[i] as int + 32
  {
    seq(|name|, i requires 0 <= i < |name| => if name[i] == ' ' then '_' else ToLower(name[i]))
  }

  /** A slug is its own slug. */
  lemma SlugIdempotent(name: string)
    ensures Slug(Slug(name)) == Slug(name)
  {
    var s := Slug(name);
    assert forall i :: 0 <= i < |s| ==> Slug(s)[i] == s[i];
  }

  /** A sensor name from the table and the identifier used in its topic. */
  lemma SlugVector()
    ensures Slug("PV1 Input Power") == "pv1_input_power"
  {
  }

  /** Python's int() on a float: truncation toward zero. */
  function TruncToInt(x: real): (n: int)
    ensures 0.0 <= x ==> n as real <= x < n as real + 1.0
    ensures x < 0.0 ==> n as real - 1.0 < x <= n as real
  {
    if 0.0 <= x then x.Floor else -((-x).Floor)
  }

  /** expire_after: twice the publishing interval, rounded up by adding one. */
  function ExpireAfter(interval: real): (r: int)
    ensures 0.0 <= interval ==> 1 <= r && 2.0 * interval < r as real <= 2.0 * interval + 1.0
    ensures interval < 0.0 ==> 2.0 * interval + 1.0 <= r as real < 2.0 * interval + 2.0
  {
    TruncToInt(interval * 2.0) + 1
  }

  /** A 30-second interval expires after 61 seconds, a 2.5-second one after 6. */
  lemma ExpireAfterVector()
    ensures ExpireAfter(30.0) == 61 && ExpireAfter(2.5) == 6
  {
  }

  /**
   * The stored discovery prefix: a non-empty prefix gets a trailing '/' unless it has one. With an
   * empty prefix the source never sets the field (None).
   */
  function NormalisePrefix(prefix: string): (r: Option<string>)
    ensures r.None? <==> prefix == ""
    ensures r.Some? ==> && 0 < |r.value| <= |prefix| + 1
                        && r.value[|r.value| - 1] == '/'
                        && prefix <= r.value
    ensures r.Some? && prefix[|prefix| - 1] == '/' ==> r.value == prefix
  {
    if prefix == "" then None
    else if prefix[|prefix| - 1] == '/' then Some(prefix)
    else Some(prefix + "/")
  }

  /** Normalising a normalised prefix changes nothing. */
  lemma NormaliseIdempotent(prefix: string)
    requires prefix != ""
    ensures NormalisePrefix(NormalisePrefix(prefix).value) == NormalisePrefix(prefix)
  {
  }

  /** sensor.get('ha_sensor_type', 'sensor') */
  function SensorType(sensor: Sensor): string
  {
    sensor.haSensorType.GetOr("sensor")
  }

  /** The configuration topic of one sensor of one inverter. */
  function Topic(prefix: string, sensor: Sensor, inverterId: string): (r: string)
    ensures |prefix| + 7 <= |r| && r[..|prefix|] == prefix && r[|r| - 7..] == "/config"
  {
    prefix + SensorType(sensor) + "/" + inverterId + "/" + Slug(sensor.name) + "/config"
  }

  lemma Cancel(front: string, x: string, y: string, back: string)
    requires front + x + back == front + y + back
    ensures x == y
  {
    var s := front + x + back;
    assert |x| == |y|;
    assert s[|front|..|front| + |x|] == x;
    assert (front + y + back)[|front|..|front| + |y|] == y;
  }

  /**
   * Within one prefix, sensor type and inverter, the topic determines the sensor's slug: two
   * sensors share a topic only if their names slug alike.
   */
  lemma TopicDeterminesSlug(prefix: string, a: Sensor, b: Sensor, inverterId: string)
    requires SensorType(a) == SensorType(b)
    ensures Topic(prefix, a, inverterId) == Topic(prefix, b, inverterId) ==> Slug(a.name) == Slug(b.name)
  {
    if Topic(prefix, a, inverterId) == Topic(prefix, b, inverterId) {
      Cancel(prefix + SensorType(a) + "/" + inverterId + "/", Slug(a.name), Slug(b.name), "/config");
    }
  }

  /** The device block: not filtered, so always present and complete. */
  function Device(inverterId: string, model: ModelDetails): Json
  {
    JObject([
      ("identifiers", JArray([JString(inverterId)])),
      ("manufacturer", JString(model.manufacturer)),
      ("model", JString(model.modelName)),
      ("name", JString(inverterId)),
      ("sw_version", JString(model.firmwareVersion))
    ])
  }

  /** The device block is a non-empty dict, so it is never removed. */
  lemma DeviceTruthy(inverterId: string, model: ModelDetails)
    ensures Truthy(Device(inverterId, model))
  {
  }

  /** The discovery dict before the entries with no value are removed, in source order. */
  function RawMessage(expireAfter: int, inverterId: string, inverterTopic: string, model: ModelDetails,
                      sensor: Sensor): Dict
  {
    [
      ("name", JString(inverterId + " " + sensor.name)),
      ("device_class", JString(sensor.deviceClass.GetOr(""))),
      ("state_topic", JString(inverterTopic)),
      ("json_attributes_topic", JString(inverterTopic)),
      ("unit_of_measurement", JString(sensor.unitOfMeasurement.GetOr(""))),
      ("value_template", JString(sensor.valueTemplate)),
      ("icon", JString(sensor.icon.GetOr(""))),
      ("unique_id", JString(inverterId + "_" + Slug(sensor.name))),
      ("device", Device(inverterId, model)),
      ("expire_after", JInt(expireAfter)),
      ("force_update", JBool(true))
    ]
  }

  /** The message _publicizeInverterSensor publishes. */
  function DiscoveryMessage(expireAfter: int, inverterId: string, inverterTopic: string, model: ModelDetails,
                            sensor: Sensor): Dict
  {
    RemoveKeysWithNoValue(RawMessage(expireAfter, inverterId, inverterTopic, model, sensor))
  }

  lemma RawMessageUnique(expireAfter: int, inverterId: string, inverterTopic: string, model: ModelDetails,
                         sensor: Sensor)
    ensures UniqueKeys(RawMessage(expireAfter, inverterId, inverterTopic, model, sensor))
  {
  }

  /** A string-valued entry of the raw dict is published exactly when it is not empty. */
  function Kept(s: string): Option<Json>
  {
    if s != "" then Some(JString(s)) else None
  }

  /** The published message is a dict: no key occurs twice. */
  lemma MessageKeysUnique(expireAfter: int, inverterId: string, inverterTopic: string, model: ModelDetails,
        sensor: Sensor)
    ensures UniqueKeys(DiscoveryMessage(expireAfter, inverterId, inverterTopic, model, sensor))
  {
    RawMessageUnique(expireAfter, inverterId, inverterTopic, model, sensor);
    RemoveKeysUnique(RawMessage(expireAfter, inverterId, inverterTopic, model, sensor));
  }

  /** name, unique_id, device and force_update are always published. */
  lemma MessageIdentity(expireAfter: int, inverterId: string, inverterTopic: string, model: ModelDetails,
        sensor: Sensor)
    ensures var m := DiscoveryMessage(expireAfter, inverterId, inverterTopic, model, sensor);
            && Get(m, "name") == Some(JString(inverterId + " " + sensor.name))
            && Get(m, "unique_id") == Some(JString(inverterId + "_" + Slug(sensor.name)))
            && Get(m, "device") == Some(Device(inverterId, model))
            && Get(m, "force_update") == Some(JBool(true))
  {
    var raw := RawMessage(expireAfter, inverterId, inverterTopic, model, sensor);
    RawMessageUnique(expireAfter, inverterId, inverterTopic, model, sensor);
    FieldOf(raw, 0, "name");
    FieldOf(raw, 7, "unique_id");
    DeviceTruthy(inverterId, model);
    assert raw[8].1 == Device(inverterId, model);
    FieldOf(raw, 8, "device");
    FieldOf(raw, 10, "force_update");
  }

  /** expire_after is published unless it is 0. */
  lemma MessageExpiry(expireAfter: int, inverterId: string, inverterTopic: string, model: ModelDetails,
        sensor: Sensor)
    ensures var m := DiscoveryMessage(expireAfter, inverterId, inverterTopic, model, sensor);
            Get(m, "expire_after") == (if expireAfter != 0 then Some(JInt(expireAfter)) else None)
  {
    var raw := RawMessage(expireAfter, inverterId, inverterTopic, model, sensor);
    RawMessageUnique(expireAfter, inverterId, inverterTopic, model, sensor);
    FieldOf(raw, 9, "expire_after");
  }

  /** The optional entries of the sensor table are published exactly when they are not empty. */
  lemma MessageSensorFields(expireAfter: int, inverterId: string, inverterTopic: string, model: ModelDetails,
        sensor: Sensor)
    ensures var m := DiscoveryMessage(expireAfter, inverterId, inverterTopic, model, sensor);
            && Get(m, "device_class") == Kept(sensor.deviceClass.GetOr(""))
            && Get(m, "unit_of_measurement") == Kept(sensor.unitOfMeasurement.GetOr(""))
            && Get(m, "icon") == Kept(sensor.icon.GetOr(""))
            && Get(m, "value_template") == Kept(sensor.valueTemplate)
  {
    var raw := RawMessage(expireAfter, inverterId, inverterTopic, model, sensor);
    RawMessageUnique(expireAfter, inverterId, inverterTopic, model, sensor);
    FieldOf(raw, 1, "device_class");
    FieldOf(raw, 4, "unit_of_measurement");
    FieldOf(raw, 6, "icon");
    FieldOf(raw, 5, "value_template");
  }

  /** Both topic entries carry the inverter topic, when it is not empty. */
  lemma MessageTopics(expireAfter: int, inverterId: string, inverterTopic: string, model: ModelDetails,
        sensor: Sensor)
    ensures var m := DiscoveryMessage(expireAfter, inverterId, inverterTopic, model, sensor);
            && Get(m, "state_topic") == Kept(inverterTopic)
            && Get(m, "json_attributes_topic") == Kept(inverterTopic)
  {
    var raw := RawMessage(expireAfter, inverterId, inverterTopic, model, sensor);
    RawMessageUnique(expireAfter, inverterId, inverterTopic, model, sensor);
    FieldOf(raw, 2, "state_topic");
    FieldOf(raw, 3, "json_attributes_topic");
  }

  /** One publish: the topic and the message of one sensor of one inverter. */
  function Announcement(prefix: string, expireAfter: int, inverter: InverterEntry, sensor: Sensor): (string, Dict)
  {
    (Topic(prefix, sensor, inverter.model.serialNumber),
     DiscoveryMessage(expireAfter, inverter.model.serialNumber, inverter.topic, inverter.model, sensor))
  }

  /** What publicizeInverter publishes: one announcement per table entry, in table order. */
  function Announcements(prefix: string, expireAfter: int, inverter: InverterEntry, table: seq<Sensor>)
    : (r: seq<(string, Dict)>)
    ensures |r| == |table|
    ensures forall i :: 0 <= i < |table| ==> r[i] == Announcement(prefix, expireAfter, inverter, table[i])
  {
    seq(|table|, i requires 0 <= i < |table| => Announcement(prefix, expireAfter, inverter, table[i]))
  }

  /** What publicize publishes: the announcements of every inverter, inverter after inverter. */
  function AllAnnouncements(prefix: string, expireAfter: int, inverters: seq<InverterEntry>, table: seq<Sensor>)
    : (r: seq<(string, Dict)>)
  {
    if inverters == [] then []
    else AllAnnouncements(prefix, expireAfter, inverters[..|inverters| - 1], table)
         + Announcements(prefix, expireAfter, inverters[|inverters| - 1], table)
  }

  /** publicize sends every table entry once per inverter. */
  lemma {:induction false} AllAnnouncementsLength(prefix: string, expireAfter: int, inverters: seq<InverterEntry>,
                                                  table: seq<Sensor>)
    ensures |AllAnnouncements(prefix, expireAfter, inverters, table)| == |table| * |inverters|
    decreases |inverters|
  {
    if inverters != [] {
      var n := |inverters| - 1;
      AllAnnouncementsLength(prefix, expireAfter, inverters[..n], table);
      assert |table| * |inverters| == |table| * n + |table|;
    }
  }

  lemma AllAnnouncementsStep(prefix: string, expireAfter: int, inverters: seq<InverterEntry>, j: nat,
                             table: seq<Sensor>)
    requires j < |inverters|
    ensures AllAnnouncements(prefix, expireAfter, inverters[..j + 1], table)
         == AllAnnouncements(prefix, expireAfter, inverters[..j], table) + Announcements(prefix, expireAfter, inverters[j], table)
  {
    assert inverters[..j + 1][..j] == inverters[..j];
  }

  lemma AppendAssoc<T>(a: seq<T>, b: seq<T>, c: seq<T>)
    ensures a + (b + c) == (a + b) + c
  {
  }

  class HomeAssistantDiscovery {
    const expireAfter: int
    const discoveryPrefix: Option<string>
    /** The class's sensor table. */
    const sensors: seq<Sensor>
    /** Every (topic, message) handed to the MQTT output so far. */
    ghost var published: seq<(string, Dict)>

    /** HomeAssistantDiscovery(mqttOutput, interval, haDiscoveryPrefix) */
    constructor (interval: real, haDiscoveryPrefix: string)
      ensures expireAfter == ExpireAfter(interval)
      ensures discoveryPrefix == NormalisePrefix(haDiscoveryPrefix)
      ensures sensors == Sensors
      ensures published == []
    {
      sensors := Sensors;
      expireAfter := TruncToInt(interval * 2.0) + 1;
      if haDiscoveryPrefix != "" {
        var prefix := haDiscoveryPrefix;
        if prefix[|prefix| - 1] != '/' {
          prefix := prefix + "/";
        }
        discoveryPrefix := Some(prefix);
      } else {
        discoveryPrefix := None;
      }
      published := [];
    }

    /**
     * _publicizeInverterSensor: publishes one sensor's configuration. Without a prefix the source
     * fails reading the unset field before publishing anything; ok is then false.
     */
    method PublicizeInverterSensor(inverter: InverterEntry, sensor: Sensor) returns (ok: bool)
      modifies this
      ensures ok == discoveryPrefix.Some?
      ensures published == old(published) +
                (if ok then [Announcement(discoveryPrefix.value, expireAfter, inverter, sensor)] else [])
    {
      if discoveryPrefix.None? {
        return false;
      }
      var inverterId := inverter.model.serialNumber;
      var sensorName := Slug(sensor.name);
      var topic := discoveryPrefix.value + SensorType(sensor) + "/" + inverterId + "/" + sensorName + "/config";
      var message := RemoveKeysWithNoValue(RawMessage(expireAfter, inverterId, inverter.topic, inverter.model, sensor));
      published := published + [(topic, message)];
      ok := true;
    }

    /** publicizeInverter: one publish per table entry, in table order; stops at the first failure. */
    method PublicizeInverter(inverter: InverterEntry) returns (ok: bool)
      modifies this
      ensures ok == discoveryPrefix.Some?
      ensures published == old(published) +
                (if ok then Announcements(discoveryPrefix.value, expireAfter, inverter, sensors) else [])
    {
      if discoveryPrefix.None? {
        return false;
      }
      ghost var all := Announcements(discoveryPrefix.value, expireAfter, inverter, sensors);
      var i := 0;
      while i < |sensors|
        invariant 0 <= i <= |sensors|
        invariant published == old(published) + all[..i]
      {
        var sent := PublicizeInverterSensor(inverter, sensors[i]);
        assert all[..i + 1] == all[..i] + [all[i]];
        i := i + 1;
      }
      assert all[..|sensors|] == all;
      ok := true;
    }

    /** publicize: announces every inverter in turn; fails at the first inverter when there is no prefix. */
    method Publicize(inverters: seq<InverterEntry>) returns (ok: bool)
      modifies this
      ensures ok == (discoveryPrefix.Some? || inverters == [])
      ensures published == old(published) +
                (if discoveryPrefix.Some? then AllAnnouncements(discoveryPrefix.value, expireAfter, inverters, sensors) else [])
    {
      if discoveryPrefix.None? {
        if inverters == [] {
          return true;
        }
        ok := PublicizeInverter(inverters[0]);
        return;
      }
      var j := 0;
      while j < |inverters|
        invariant 0 <= j <= |inverters|
        invariant published == old(published) + AllAnnouncements(discoveryPrefix.value, expireAfter, inverters[..j], sensors)
      {
        var sent := PublicizeInverter(inverters[j]);
        AllAnnouncementsStep(discoveryPrefix.value, expireAfter, inverters, j, sensors);
        AppendAssoc(old(published), AllAnnouncements(discoveryPrefix.value, expireAfter, inverters[..j], sensors),
                    Announcements(discoveryPrefix.value, expireAfter, inverters[j], sensors));
        j := j + 1;
      }
      assert inverters[..|inverters|] == inverters;
      ok := true;
    }
  }
}
