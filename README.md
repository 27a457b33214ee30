# home-iot-pir: a Dafny model of the presence sensor's decision core

The firmware (`src/main.cpp`) runs on an ESP32 with a PIR motion sensor on
GPIO 1. On every wake from deep sleep it reads the pin, arms the next wake
source, and compares the reading (as 0 or 1) with `l_exist`, a value kept in
RTC memory that survives deep sleep and is -1 after power-on. When the two
differ it calls `post` until a call succeeds, and only then stores the
reading. `post` checks the WiFi credentials, resolves the InfluxDB server
(by mDNS name, else by literal IP), rejects an empty or `0.0.0.0` address,
and sends one InfluxDB 1.x line-protocol record
`<measurement>,id=<mac> exist=<0|1>` to `http://<addr>:<port>/write?db=<db>`.
It counts as a success whatever the server answers. The settings come from a
JSON document, read at every boot; each missing key keeps its default.

The model:

- `wrappers.dfy` — `Option`.
- `text.dfy` (module `Text`) — the text the firmware produces: `String(int, 10)`
  as `SignedDecimal`, `IPAddress::toString` as `Dotted`. Each has an inverse
  parser, and round-trip lemmas prove that the text determines the value.
  `Dotted(ip) == "0.0.0.0"` holds exactly for the unspecified address.
- `settings.dfy` (module `Settings`) — `Key` and `load`. The parsed document is a
  `map<string, JsonValue>`. `Load(None)` stands for every way of failing to
  read it: no file system, no file, an empty file, or a parse error.
- `report.dfy` (module `Report`) — `connectWiFi`'s credential guard, `address`,
  and `post`. `Post` returns whether the call succeeded and the sequence of
  network steps it made: associate, mDNS query, HTTP POST, disconnect. The mDNS
  responder is an oracle: an `Attempt` holds the answers to the two lookups one
  call of `post` makes. The first answer is validated. The second is used to
  build the URL (`src/main.cpp:84` calls `address()` again). With a literal IP
  both lookups agree (`LiteralAddressIsDeterministic`). With an mDNS name, a
  call can report success after posting to `http://0.0.0.0:…`
  (`SecondLookupIsNotValidated`). Whether a call gets past its checks is
  stated on its answers, as `Delivers`; `AddressCheckIsDelivers` proves it
  equal to the firmware's test of the address text.
- `presence.dfy` (module `Presence`) — `loop` as the class `PresenceSensor`. Its
  field `lastExist` is `l_exist`. `Wake` takes the pin reading and a finite
  sequence of network answers, one per `post` call. It returns the armed wake
  source, the number of calls, and how the cycle ended. `Retrying` means the
  answers ran out while every call failed: the firmware is still inside its
  `while (!post(exist))` loop. `Wake` is proved equal to the function
  `WakeCycle`, and the lemmas about the wake cycle are stated on `WakeCycle`.
  The retry loop itself is the method `PostUntilDelivered`. `Wake` also
  returns the result of every call it made, each equal to `Post` on that
  call's answers (`PostEach`), so the last call of a reported cycle is known
  to post the new reading. `OccupiedTwice` is a client of the class: an occupied
  cold boot posts `exist=1` once, and a second occupied wake makes no call.
  `ReportingWakes` runs a series of wakes. The lemmas about it bound the number
  of reports by the number of pin changes, plus one for the first wake after
  power-on.

The firmware has no watchdog. Its retry loop waits a fixed 500 ms between
calls and has no bound. The result of the HTTP POST is never
examined. So a failed send is not retried: every call that gets past the
address check counts as a success. A call rejected by the credential guard
never associates, so it has nothing to disconnect.

## Model

| member | source | states |
|---|---|---|
| `Settings.Key` | src/main.cpp:19-22 | the converted stored value when the key is present, the given default when it is absent |
| `Settings.Load` | src/main.cpp:24-43 | an unreadable document leaves every field at its default; otherwise each field is read under its own key, with 8086 as the port's default and "" as every other field's |
| `Settings.LoadWithoutRecognizedKeysIsDefaults` | src/main.cpp:36-42 | a document with none of the seven keys yields the same configuration as an unreadable one, the defaults |
| `Settings.LoadIgnoresUnrecognizedKeys` | src/main.cpp:36-42 | adding or changing a key the firmware does not read leaves the configuration unchanged |
| `Report.ConnectWiFi` | src/main.cpp:45-48 | association is started exactly when both SSID and PSK are non-empty |
| `Report.Address` | src/main.cpp:62-73 | the mDNS answer when a name is configured, else the literal IP, else ""; the result is "" exactly when neither a name nor an IP is configured |
| `Report.AddressLookup` | src/main.cpp:63-67 | one call of `address` makes an mDNS query exactly when a name is configured, and that query is for the configured name |
| `Report.AddressCheckIsDelivers` | src/main.cpp:79-83 | once associated, the firmware's rejection of a first address that is "" or "0.0.0.0" happens exactly when the answers are not delivered: with a name, when the first answer is 0.0.0.0; without one, when the literal IP is "" or "0.0.0.0" |
| `Report.Post` | src/main.cpp:75-96 | a call succeeds exactly when the credentials are set and its answers are delivered |
| `Report.PostTrace` | src/main.cpp:75-96 | without credentials no network step at all; otherwise the call associates first and disconnects last; on success the step before disconnecting posts the record to the URL built from the second lookup; a failed call posts nothing; with a name configured a successful call queries it twice and a failed one once, and without a name no query is made |
| `Report.DeliveredPostSendsReading` | src/main.cpp:84-95 | a successful call's last two steps post the record with the configured measurement, the device tag and the reading, then disconnect |
| `Report.Payload` | src/main.cpp:90-91 | the record `<measurement>,id=<mac> exist=1` or `… exist=0`: it starts with the measurement, a ',' and the tag `id=<mac>`, is 12 characters longer than the two names, and ends in 1 exactly when occupied |
| `Report.WriteUrl` | src/main.cpp:84-85 | the URL `http://<host>:<port>/write?db=<db>` with the port in decimal: it starts with `http://<host>:`, ends with the database name, and its length is that of its parts |
| `Report.MdnsAnswerRejectedIffUnspecified` | src/main.cpp:79-83 | with credentials and an mDNS name, a call fails exactly when the first lookup answers 0.0.0.0 |
| `Report.LiteralAddressIsDeterministic` | src/main.cpp:79-85 | with no mDNS name the oracle answers play no part, and a successful call posts to the literal IP it validated |
| `Report.SecondLookupIsNotValidated` | src/main.cpp:84-85 | with credentials and a name configured, a call whose first lookup answers an address and whose second answers 0.0.0.0 reports success after posting to the URL for host 0.0.0.0 with the configured port and database |
| `Report.MissingCredentialsNeverSucceed` | src/main.cpp:76-78 | with SSID or PSK empty every call fails and makes no network step |
| `Report.DefaultsNeverSucceed` | src/main.cpp:11-14 | the configuration left by an unreadable document never reports |
| `Report.TagRoundTrip` | src/main.cpp:90-91 | the part of the record after the measurement reads back as the device tag and the reading whenever the tag holds no ' ' |
| `Report.PayloadRoundTrip` | src/main.cpp:90-91 | the record reads back as measurement, tag and reading whenever neither the measurement nor the tag holds a ',' or a ' ' |
| `Report.PayloadExample` | src/main.cpp:90-91 | room / AA:BB:CC:DD:EE:FF / occupied gives exactly `room,id=AA:BB:CC:DD:EE:FF exist=1` |
| `Report.WriteUrlRoundTrip` | src/main.cpp:84-85 | the URL reads back as host, port and database whenever the host has no ':' |
| `Report.PostedUrlNamesConfiguredTarget` | src/main.cpp:84-85 | when an mDNS name is configured or the literal IP has no ':', the URL of a successful call reads back as the second lookup's address, the configured port and the configured database |
| `Text.Decimal` | src/main.cpp:84 | at least one digit, only digits, and a leading '0' exactly for zero |
| `Text.ParseDecimalInvertsDecimal` | src/main.cpp:84 | the decimal text of a number reads back as that number |
| `Text.SignedDecimal` | src/main.cpp:84 | a leading '-' exactly for negative ports, then only digits |
| `Text.SignedDecimalRoundTrip` | src/main.cpp:84 | the port's text reads back as the port |
| `Text.Dotted` | src/main.cpp:67 | the text of an mDNS answer is at least 7 characters long and has no ':' and no '/' |
| `Text.DottedRoundTrip` | src/main.cpp:67 | the text of an mDNS answer reads back as that answer, so the text determines the address |
| `Text.DottedIsUnspecifiedIff` | src/main.cpp:67 | an answer's text is "0.0.0.0" exactly when the answer is the unspecified address |
| `Presence.Bit` | src/main.cpp:115 | the reading as 0 or 1, 1 exactly when occupied |
| `Presence.ArmWake` | src/main.cpp:108-114 | exactly one wake source: a 20 000 000 µs timer exactly when occupied, otherwise a high level on the PIR pin |
| `Presence.FirstDelivered` | src/main.cpp:121-123 | the index of the first call that succeeds, with every earlier call failing; none when every call fails |
| `Presence.WakeCycle` | src/main.cpp:107-125 | one pass of `loop`: the armed source is that of the reading; the cycle takes the Unchanged path exactly when the reading equals the retained value, and, given at least one answer, it makes no call exactly then; at most one call per answer; the retained value becomes the reading on a report and is kept otherwise |
| `Presence.PresenceSensor.ColdBoot` | src/main.cpp:17 | after power-on the retained value is -1 |
| `Presence.PresenceSensor.Wake` | src/main.cpp:107-125 | the armed source, the number of calls, the ending and the new retained value are those of `WakeCycle` from the old retained value; the returned results are, in order, those of `Post` with this wake's reading on each call's answers |
| `Presence.PostUntilDelivered` | src/main.cpp:121-123 | the retry loop calls the reporter on successive answers and stops exactly after the first call that succeeds, or fails on every answer it is given; its results are those of `Post` on each call's answers |
| `Presence.PostEachAt` | src/main.cpp:121-123 | the results of a run of calls are, one by one, the results of `Post` on each call's answers |
| `Presence.ReportIffChanged` | src/main.cpp:115-116 | a report is attempted exactly when the reading differs from the retained value; otherwise no call is made and the retained value is kept |
| `Presence.ColdBootAlwaysReports` | src/main.cpp:115-116 | from the power-on value -1 the first wake always reports |
| `Presence.RetainedOnlyAfterSuccess` | src/main.cpp:116-125 | the retained value changes only on a report, to the reading, when the last call succeeded and every earlier call failed; a cycle still retrying failed every call and kept the value |
| `Presence.ReportedCyclePostsReading` | src/main.cpp:116-125 | in a reported cycle the last call made posts the record of this wake's reading, with the configured measurement and the device tag, and then disconnects |
| `Presence.ArmedBeforeComparison` | src/main.cpp:108-116 | the armed source depends on the reading alone, not on the retained value or the network |
| `Presence.MissingCredentialsKeepRetrying` | src/main.cpp:121-123 | without credentials a changed reading never gets reported |
| `Presence.ThirdAttemptSucceeds` | src/main.cpp:121-124 | two failed calls and a successful third give three calls and the retained value 1; after only the two failures the value is still -1 |
| `Presence.CompletedCycleRetainsReading` | src/main.cpp:115-125 | every cycle that ends leaves the reading as the retained value |
| `Presence.ReportingWakesBoundedByChanges` | src/main.cpp:115-125 | over any series of wakes, reports are at most the changes of the reading, plus one if the first reading differs from the retained value |
| `Presence.ColdBootReportsAtMostChangesPlusOne` | src/main.cpp:17 | from power-on, reports are at most one plus the changes of the reading |
| `Presence.ReportingWakesMatchChanges` | src/main.cpp:115-125 | when every wake's network eventually accepts a call, the bound is met exactly |
| `Presence.OccupiedTwice` | src/main.cpp:107-125 | after power-on, an occupied wake whose first call gets through makes one successful call posting `<measurement>,id=<mac> exist=1`; a second occupied wake makes no call |

## Left out

- WiFi association and the wait for `WL_CONNECTED` (`src/main.cpp:49-53`) are radio I/O that can block forever. Only the credential guard is modelled, and a started association is taken to succeed.
- `MDNS.begin`, its retry loop and `MDNS.queryHost` (`src/main.cpp:64-67`) are network I/O. Each lookup's answer is an oracle `IPv4` in `Attempt`.
- The `HTTPClient` transport and the `http.POST` call (`src/main.cpp:87-93`) are foreign code whose result is discarded. Only the URL and body handed to them are modelled, as the `HttpPost` step.
- File system access and JSON parsing in `load` (`src/main.cpp:25-35`) are left out. The parsed document is a map, and any failure to read it is `None`.
- Settings.Key: the JSON library's conversions are simplified. A value read as text is "" unless it is a JSON string. A value read as an integer is 0 unless it is a JSON integer. The library also converts numeric strings, booleans and floats, and that is not modelled.
- The port is an unbounded `int`; the 32-bit range of `int` in the firmware is not modelled.
- Deep sleep (`esp_sleep_enable_timer_wakeup`, `esp_deep_sleep_enable_gpio_wakeup`, `esp_deep_sleep_start`) and the trailing `for (;;)` (`src/main.cpp:110-113, 127-128`) are power control. The armed wake source is returned as a value.
- The 500 ms delay between retries (`src/main.cpp:122`) is timing only.
- The NeoPixel LED and the serial log (`src/main.cpp:86, 92, 98-99, 102, 117-120, 126`) have no bearing on behaviour.
- `setup`'s `pinMode` (`src/main.cpp:104`) is hardware set-up. Each wake runs `setup` again, so `Wake` takes the configuration as a parameter.
- No watchdog: the firmware has none.
- The retry loop has no bound. It is modelled over a finite sequence of answers, and running out of answers is reported as `Retrying`.
- The multi-wake lemmas stop a run at a cycle that is still retrying, because no later wake follows it. A reset during the retry loop, which restores -1, is not modelled.
