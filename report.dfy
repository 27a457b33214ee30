/**
 * The reporter: one attempt at writing the current occupancy to the
 * time-series database (src/main.cpp:45-96).
 *
 * The attempt checks the credentials, associates with the access point,
 * resolves the database address, rejects an empty or unspecified address,
 * and otherwise posts one InfluxDB line-protocol record and reports success
 * whatever the server answers. Address resolution by mDNS is an oracle: an
 * `Attempt` carries the answer of each of the two lookups one call makes.
 */
module Report {
  import opened Wrappers
  import opened Text
  import opened Settings

  /** The network actions one attempt performs, in order. */
  datatype NetStep =
    | Associate(ssid: string, psk: string)
    | MdnsQuery(host: string)
    | HttpPost(url: string, body: string)
    | Disconnect

  /** The answers the mDNS responder gives to the first and the second lookup of one attempt. */
  datatype Attempt = Attempt(firstAnswer: IPv4, secondAnswer: IPv4)

  /** Whether the attempt succeeded, and what it did on the network. */
  datatype PostResult = PostResult(ok: bool, trace: seq<NetStep>)

  /**
   * The credential guard of `connectWiFi`: association is only started when both
   * the network name and the password are set. Waiting for the association to
   * complete is not modelled; a started association is taken to succeed.
   */
  function ConnectWiFi(cfg: Config): (ok: bool)
    ensures ok <==> cfg.ssid != "" && cfg.psk != ""
  {
    !(cfg.ssid == "" || cfg.psk == "")
  }

  /**
   * The database address: the mDNS answer when a name is configured, else the
   * literal address, else "". `answer` is what the mDNS lookup returns.
   */
  function Address(cfg: Config, answer: IPv4): (addr: string)
    ensures cfg.mdnsName != "" ==> addr == Dotted(answer)
    ensures cfg.mdnsName == "" && cfg.ipAddress != "" ==> addr == cfg.ipAddress
    ensures addr == "" <==> cfg.mdnsName == "" && cfg.ipAddress == ""
  {
    if cfg.mdnsName != "" then Dotted(answer)
    else if cfg.ipAddress != "" then cfg.ipAddress
    else ""
  }

  /** The network steps one call of `address` performs: a query exactly when a name is configured. */
  function AddressLookup(cfg: Config): (steps: seq<NetStep>)
    ensures |steps| <= 1
    ensures steps != [] <==> cfg.mdnsName != ""
    ensures forall i :: 0 <= i < |steps| ==> steps[i] == MdnsQuery(cfg.mdnsName)
  {
    if cfg.mdnsName != "" then [MdnsQuery(cfg.mdnsName)] else []
  }

  /** An address the reporter accepts: neither empty nor the unspecified address. */
  predicate Usable(addr: string) {
    addr != "" && addr != "0.0.0.0"
  }

  /**
   * The address check of `post`: once associated, the firmware rejects the
   * first address when it is "" or "0.0.0.0", that is when it is not `Usable`,
   * and this happens exactly when the answers are not delivered.
   */
  lemma AddressCheckIsDelivers(cfg: Config, att: Attempt)
    requires ConnectWiFi(cfg)
    ensures Usable(Address(cfg, att.firstAnswer)) <==> Delivers(cfg, att)
  {
    DottedIsUnspecifiedIff(att.firstAnswer);
  }

  /**
   * When a call of `post` with these answers succeeds, stated on the answers
   * rather than on the address text: both credentials are set, and either a
   * name is configured and its first answer is not 0.0.0.0, or no name is
   * configured and the literal address is usable.
   */
  predicate Delivers(cfg: Config, att: Attempt) {
    && ConnectWiFi(cfg)
    && if cfg.mdnsName != "" then att.firstAnswer != Unspecified else Usable(cfg.ipAddress)
  }

  /** The line-protocol record: measurement, the device tag `id`, and the field `exist`. */
  function Payload(measurement: string, mac: string, exist: bool): (line: string)
    ensures measurement + ",id=" + mac <= line
    ensures |line| == |measurement| + |mac| + 12
    ensures line[|line| - 1] == (if exist then '1' else '0')
  {
    measurement + ",id=" + mac + " exist=" + (if exist then "1" else "0")
  }

  /** The write endpoint of an InfluxDB 1.x server. */
  function WriteUrl(host: string, port: int, db: string): (url: string)
    ensures "http://" + host + ":" <= url
    ensures |url| == 8 + |host| + |SignedDecimal(port)| + 10 + |db|
    ensures url[|url| - |db|..] == db
  {
    "http://" + host + ":" + SignedDecimal(port) + "/write?db=" + db
  }

  /**
   * One call of `post`. `mac` is the device's station MAC address, used as its
   * tag. The URL is built from a second call of `address`, whose mDNS answer
   * is `att.secondAnswer`; only the first call's answer is validated. The
   * check of the first address is written as `Delivers`, which
   * `AddressCheckIsDelivers` proves equal to the firmware's test of the text.
   */
  function Post(cfg: Config, mac: string, exist: bool, att: Attempt): (r: PostResult)
    ensures r.ok == Delivers(cfg, att)
  {
    if !ConnectWiFi(cfg) then
      PostResult(false, [])
    else if !Delivers(cfg, att) then
      PostResult(false, [Associate(cfg.ssid, cfg.psk)] + AddressLookup(cfg) + [Disconnect])
    else
      var url := WriteUrl(Address(cfg, att.secondAnswer), cfg.port, cfg.dbName);
      var body := Payload(cfg.measurement, mac, exist);
      PostResult(true, [Associate(cfg.ssid, cfg.psk)] + AddressLookup(cfg) + AddressLookup(cfg) + [HttpPost(url, body), Disconnect])
  }

  /**
   * What one call does on the network: nothing without credentials; otherwise
   * it associates first and disconnects last; a successful call posts the
   * record to the URL built from the second lookup just before disconnecting,
   * and a failed one posts nothing. With a name configured, a successful call
   * queries it twice (once per call of `address`) and a failed one once;
   * without a name no query is made.
   */
  lemma PostTrace(cfg: Config, mac: string, exist: bool, att: Attempt)
    ensures var r := Post(cfg, mac, exist, att);
      && (!ConnectWiFi(cfg) ==> r.trace == [])
      && (ConnectWiFi(cfg) ==>
            && |r.trace| >= 2
            && r.trace[0] == Associate(cfg.ssid, cfg.psk)
            && r.trace[|r.trace| - 1] == Disconnect)
      && (r.ok ==>
            r.trace[|r.trace| - 2] ==
              HttpPost(WriteUrl(Address(cfg, att.secondAnswer), cfg.port, cfg.dbName), Payload(cfg.measurement, mac, exist)))
      && (!r.ok ==> forall i :: 0 <= i < |r.trace| ==> !r.trace[i].HttpPost?)
      && (ConnectWiFi(cfg) && cfg.mdnsName != "" ==>
            if r.ok then |r.trace| == 5 && r.trace[1] == r.trace[2] == MdnsQuery(cfg.mdnsName)
            else |r.trace| == 3 && r.trace[1] == MdnsQuery(cfg.mdnsName))
      && (ConnectWiFi(cfg) && cfg.mdnsName == "" ==> |r.trace| == if r.ok then 3 else 2)
  {
  }

  /** The call's last two network steps post `body` and then disconnect. */
  predicate EndsPosting(r: PostResult, body: string) {
    && |r.trace| >= 2
    && r.trace[|r.trace| - 2].HttpPost?
    && r.trace[|r.trace| - 2].body == body
    && r.trace[|r.trace| - 1] == Disconnect
  }

  /** A successful attempt posts the record of the reading with the configured measurement and the device tag, then disconnects. */
  lemma DeliveredPostSendsReading(cfg: Config, mac: string, exist: bool, att: Attempt)
    requires Delivers(cfg, att)
    ensures EndsPosting(Post(cfg, mac, exist, att), Payload(cfg.measurement, mac, exist))
  {
  }

  /** With a configured mDNS name, the attempt fails exactly when the first lookup yields 0.0.0.0. */
  lemma MdnsAnswerRejectedIffUnspecified(cfg: Config, mac: string, exist: bool, att: Attempt)
    requires ConnectWiFi(cfg) && cfg.mdnsName != ""
    ensures !Post(cfg, mac, exist, att).ok <==> att.firstAnswer == Unspecified
  {
  }

  /**
   * With a literal address the two lookups agree: the mDNS answers play no part,
   * and a successful attempt posts to the address it validated.
   */
  lemma LiteralAddressIsDeterministic(cfg: Config, mac: string, exist: bool, att: Attempt, other: Attempt)
    requires cfg.mdnsName == ""
    ensures Post(cfg, mac, exist, att) == Post(cfg, mac, exist, other)
    ensures Post(cfg, mac, exist, att).ok ==>
      Usable(cfg.ipAddress) &&
      HttpPost(WriteUrl(cfg.ipAddress, cfg.port, cfg.dbName), Payload(cfg.measurement, mac, exist)) in Post(cfg, mac, exist, att).trace
  {
  }

  /**
   * With an mDNS name the second lookup is not validated: when the responder
   * answers the first query and not the second, the attempt still reports
   * success after posting to 0.0.0.0.
   */
  lemma SecondLookupIsNotValidated(cfg: Config, mac: string, exist: bool, att: Attempt)
    requires ConnectWiFi(cfg) && cfg.mdnsName != ""
    requires att.firstAnswer != Unspecified && att.secondAnswer == Unspecified
    ensures var r := Post(cfg, mac, exist, att);
      && r.ok
      && |r.trace| >= 2
      && r.trace[|r.trace| - 2].url == WriteUrl("0.0.0.0", cfg.port, cfg.dbName)
  {
    PostTrace(cfg, mac, exist, att);
    DottedIsUnspecifiedIff(Unspecified);
  }

  /** Without both credentials no attempt ever succeeds, and none touches the network. */
  lemma MissingCredentialsNeverSucceed(cfg: Config, mac: string, exist: bool, att: Attempt)
    requires cfg.ssid == "" || cfg.psk == ""
    ensures Post(cfg, mac, exist, att) == PostResult(false, [])
  {
  }

  /** The configuration left by an unreadable settings document never reports. */
  lemma DefaultsNeverSucceed(mac: string, exist: bool, att: Attempt)
    ensures !Post(Load(None), mac, exist, att).ok
  {
  }

  /** A record of the line protocol, as this model's reader takes it apart. */
  datatype Line = Line(measurement: string, id: string, exist: bool)

  /** Reads the field of a record: "exist=1" or "exist=0". */
  function ParseExist(field: string): Option<bool>
  {
    if field == "exist=1" then Some(true)
    else if field == "exist=0" then Some(false)
    else None
  }

  /**
   * This model's reader of a record: the measurement ends at the first ',' and
   * the tag value at the next ' '. It is not InfluxDB's reader, whose escaping
   * and comment rules it does not follow; the round trips below are stated on it.
   */
  function ParseLine(line: string): Option<Line>
  {
    match SplitAt(line, ',')
    case None => None
    case Some((measurement, tagged)) =>
      match ParseTag(tagged)
      case None => None
      case Some((id, exist)) => Some(Line(measurement, id, exist))
  }

  /** Reads the part after the measurement: the tag "id=<id>", a ' ', then the field. */
  function ParseTag(tagged: string): Option<(string, bool)>
  {
    match StripPrefix("id=", tagged)
    case None => None
    case Some(rest) =>
      match SplitAt(rest, ' ')
      case None => None
      case Some((id, field)) =>
        match ParseExist(field)
        case None => None
        case Some(exist) => Some((id, exist))
  }

  /** The tag and field of a record read back as the device tag and the reading. */
  lemma TagRoundTrip(mac: string, exist: bool)
    requires ' ' !in mac
    ensures ParseTag("id=" + mac + " exist=" + (if exist then "1" else "0")) == Some((mac, exist))
  {
    var field := if exist then "exist=1" else "exist=0";
    var rest := mac + [' '] + field;
    assert StripPrefix("id=", "id=" + mac + " exist=" + (if exist then "1" else "0")) == Some(rest) by {
      assert "id=" + mac + " exist=" + (if exist then "1" else "0") == "id=" + rest;
      StripPrefixOfConcat("id=", rest);
    }
    assert SplitAt(rest, ' ') == Some((mac, field)) by {
      SplitAtFirstSeparator(mac, ' ', field);
    }
  }

  /**
   * The record carries the measurement, the device tag and the reading, and reads
   * back as them when neither name holds a ',' or a ' ' (the firmware escapes
   * neither).
   */
  lemma PayloadRoundTrip(measurement: string, mac: string, exist: bool)
    requires ',' !in measurement && ' ' !in measurement && ',' !in mac && ' ' !in mac
    ensures ParseLine(Payload(measurement, mac, exist)) == Some(Line(measurement, mac, exist))
  {
    var tagged := "id=" + mac + " exist=" + (if exist then "1" else "0");
    assert SplitAt(Payload(measurement, mac, exist), ',') == Some((measurement, tagged)) by {
      assert Payload(measurement, mac, exist) == measurement + [','] + tagged;
      SplitAtFirstSeparator(measurement, ',', tagged);
    }
    TagRoundTrip(mac, exist);
  }

  /** The record for room / AA:BB:CC:DD:EE:FF / occupied, written out. */
  lemma PayloadExample()
    ensures Payload("room", "AA:BB:CC:DD:EE:FF", true) == "room,id=AA:BB:CC:DD:EE:FF exist=1"
  {
  }

  /** The parts of a write endpoint, as this model's reader takes them apart. */
  datatype WriteTarget = WriteTarget(host: string, port: int, db: string)

  function ParseWriteUrl(url: string): Option<WriteTarget>
  {
    match StripPrefix("http://", url)
    case None => None
    case Some(hostAndRest) =>
      match SplitAt(hostAndRest, ':')
      case None => None
      case Some((host, afterHost)) =>
        match SplitAt(afterHost, '/')
        case None => None
        case Some((port, path)) =>
          match StripPrefix("write?db=", path)
          case None => None
          case Some(db) => Some(WriteTarget(host, ParseSignedDecimal(port), db))
  }

  /** The endpoint grouped as its reader takes it apart. */
  lemma WriteUrlParts(host: string, port: int, db: string)
    ensures WriteUrl(host, port, db) == "http://" + (host + [':'] + (SignedDecimal(port) + ['/'] + ("write?db=" + db)))
  {
  }

  /** The endpoint determines host, port and database whenever the host holds no ':'. */
  lemma WriteUrlRoundTrip(host: string, port: int, db: string)
    requires ':' !in host
    ensures ParseWriteUrl(WriteUrl(host, port, db)) == Some(WriteTarget(host, port, db))
  {
    var digits := SignedDecimal(port);
    var path := "write?db=" + db;
    var afterHost := digits + ['/'] + path;
    var hostAndRest := host + [':'] + afterHost;
    assert StripPrefix("http://", WriteUrl(host, port, db)) == Some(hostAndRest) by {
      WriteUrlParts(host, port, db);
      StripPrefixOfConcat("http://", hostAndRest);
    }
    assert SplitAt(hostAndRest, ':') == Some((host, afterHost)) by {
      SplitAtFirstSeparator(host, ':', afterHost);
    }
    assert SplitAt(afterHost, '/') == Some((digits, path)) by {
      assert '/' !in digits;
      SplitAtFirstSeparator(digits, '/', path);
    }
    assert StripPrefix("write?db=", path) == Some(db) by {
      StripPrefixOfConcat("write?db=", db);
    }
    assert ParseSignedDecimal(digits) == port by {
      SignedDecimalRoundTrip(port);
    }
  }

  /** Every successful attempt posts to an endpoint that reads back as the configured port and database. */
  lemma PostedUrlNamesConfiguredTarget(cfg: Config, mac: string, exist: bool, att: Attempt)
    requires Post(cfg, mac, exist, att).ok
    requires cfg.mdnsName != "" || ':' !in cfg.ipAddress
    ensures var r := Post(cfg, mac, exist, att);
      ParseWriteUrl(r.trace[|r.trace| - 2].url) == Some(WriteTarget(Address(cfg, att.secondAnswer), cfg.port, cfg.dbName))
  {
    WriteUrlRoundTrip(Address(cfg, att.secondAnswer), cfg.port, cfg.dbName);
  }
}
