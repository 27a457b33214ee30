/**
 * The sensor's configuration: the settings document read at boot and the
 * defaults each field keeps when its key is missing or the document cannot
 * be read (src/main.cpp:11-14, 19-43).
 *
 * The document is modelled after parsing, as a map from key to JSON value.
 * Reading a value as text yields "" unless it is a JSON string, and reading
 * it as an integer yields 0 unless it is a JSON integer, a simplification of
 * the JSON library's conversions.
 */
module Settings {
  import opened Wrappers

  datatype JsonValue = JString(text: string) | JInt(number: int) | JOther

  type Document = map<string, JsonValue>

  function AsText(v: JsonValue): string {
    if v.JString? then v.text else ""
  }

  function AsInt(v: JsonValue): int {
    if v.JInt? then v.number else 0
  }

  /** The value stored under `key`, converted by `cast`, or `initial` when the key is absent. */
  function Key<T>(key: string, initial: T, doc: Document, cast: JsonValue -> T): (r: T)
    ensures key in doc ==> r == cast(doc[key])
    ensures key !in doc ==> r == initial
  {
    if key in doc then cast(doc[key]) else initial
  }

  /** The settings the firmware holds in its globals. */
  datatype Config = Config(
    ssid: string,
    psk: string,
    mdnsName: string,
    ipAddress: string,
    port: int,
    dbName: string,
    measurement: string)

  const DefaultPort := 8086

  /** The values the globals are initialised with before any document is read. */
  const Defaults := Config("", "", "", "", DefaultPort, "", "")

  /** The keys the settings document is read for. */
  const RecognizedKeys := {"SSID", "PSK", "influx_mdns_addr", "influx_ip_addr", "influx_port", "db_name", "measurement"}

  /**
   * Loads the configuration. `None` stands for every way reading the document
   * fails (no file system, no file, an empty file, a parse error); in that case
   * every field keeps its default.
   */
  function Load(doc: Option<Document>): (c: Config)
    ensures doc.None? ==> c == Defaults
    ensures doc.Some? ==>
      && c.ssid == Key("SSID", "", doc.value, AsText)
      && c.psk == Key("PSK", "", doc.value, AsText)
      && c.mdnsName == Key("influx_mdns_addr", "", doc.value, AsText)
      && c.ipAddress == Key("influx_ip_addr", "", doc.value, AsText)
      && c.port == Key("influx_port", DefaultPort, doc.value, AsInt)
      && c.dbName == Key("db_name", "", doc.value, AsText)
      && c.measurement == Key("measurement", "", doc.value, AsText)
  {
    match doc
    case None => Defaults
    case Some(json) =>
      Config(
        Key("SSID", "", json, AsText),
        Key("PSK", "", json, AsText),
        Key("influx_mdns_addr", "", json, AsText),
        Key("influx_ip_addr", "", json, AsText),
        Key("influx_port", DefaultPort, json, AsInt),
        Key("db_name", "", json, AsText),
        Key("measurement", "", json, AsText))
  }

  /** A document without any recognised key configures nothing: the result is the defaults, as if it could not be read. */
  lemma LoadWithoutRecognizedKeysIsDefaults(doc: Document)
    requires doc.Keys !! RecognizedKeys
    ensures Load(Some(doc)) == Load(None) == Defaults
  {
  }

  /** Keys the firmware does not read have no effect on the configuration. */
  lemma LoadIgnoresUnrecognizedKeys(doc: Document, key: string, v: JsonValue)
    requires key !in RecognizedKeys
    ensures Load(Some(doc[key := v])) == Load(Some(doc))
  {
  }
}
