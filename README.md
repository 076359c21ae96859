# mqtt-aquarium in Dafny

A model of the aquarium bridge daemon. The daemon reads a TEMPer2 dual-probe
USB thermometer over HID and republishes the two temperatures to an MQTT
broker. It also publishes the auto-discovery documents that let Home
Assistant show the two probes as "Room Temperature" and "Aquarium
Temperature".

The model has three modules:

- `Bits` (`bits.dfy`) defines bytes as `bv8`. It holds the bit-level facts the
  sample decoding needs: a big-endian byte pair and its integer value, and
  reading a 16-bit pattern as a signed `i16`.
- `Temper2` (`temper2.dfy`) models `src/temper2.rs`. It covers:
  - `convert_temp`, the decoding of one sample;
  - `read_temp`, the device scan, the firmware handshake, the discarded
    warm-up read, the two sample reads, the validity checks and the decoding.

  `read_temp` is an imperative method. It runs over a `HidApi` object (the
  enumeration, plus a log of the paths opened) and a `Sensor` object (the
  opened handle). The sensor's replies are a script, and it records every
  write and read it sees. The 8-byte buffers are arrays, and each read
  overwrites the prefix its reply fills. The method is proved equal to a
  reference function, `Acquire`, and the properties of one acquisition are
  lemmas about that function.
- `Bridge` (`main.dfy`) models the start-up and polling parts of
  `src/main.rs`:
  - the two auto-discovery descriptors, built once from the trimmed host name;
  - one polling round (`PollOnce`), which maps a reading and whether the MQTT
    client accepted each publish request to the publishes, the sleep and the
    logged verdict;
  - the polling loop, proved against `Run` over any finite prefix of
    readings.

Temperatures are integer centi-degrees: the raw signed 16-bit sample
before the division by 100.

## Model

| member | source | states |
|---|---|---|
| Temper2.ConvertTemp | src/temper2.rs:5-13 | the sample is in the i16 range; it agrees with the big-endian value `b2*256+b3` modulo 2^16; it is negative exactly when the top bit of `b2` is set |
| Temper2.ConvertTempRoundTrip | src/temper2.rs:5-13 | every i16 value is decoded back from its own two's-complement high and low bytes |
| Temper2.ConvertTempInjective | src/temper2.rs:5-13 | distinct byte pairs never decode to the same sample |
| Temper2.ConvertTempExamples | src/temper2.rs:5-13 | 0x0000 gives 0, 0x09C4 gives 2500, 0xFF9C gives -100, and the extremes are -32768 and 32767 |
| Temper2.FirstMatch | src/temper2.rs:26-38 | the index of the first enumerated device with vendor 0x1A86, product 0xE025 and interface 1; none exactly when no device matches; every earlier entry does not match |
| Temper2.FirmwareSpellsTag | src/temper2.rs:16 | the firmware byte constant spells "TEMPer2_" |
| Temper2.ScalarWidth | src/temper2.rs:46 | the length of the well-formed UTF-8 scalar at the front of the firmware reply is at most 4 and fits in the reply |
| Temper2.AsciiIsUtf8 | src/temper2.rs:46 | pure ASCII passes the UTF-8 test that `String::from_utf8` applies; a leading lone continuation byte fails it |
| Temper2.FirmwareIsUtf8 | src/temper2.rs:46-49 | the expected tag passes the UTF-8 test, so the `unwrap` never panics on a matching reply |
| Temper2.Overwrite | src/temper2.rs:42-44 | after a read the buffer keeps its length; the reply fills its prefix and the bytes past the reply keep their old values |
| Temper2.Validate | src/temper2.rs:71-83 | the inside buffer is checked first, then the outside one: each `Err` is returned exactly when its check rejects; `Ok` carries the two decoded samples, the first buffer's first |
| Temper2.NoMatchTouchesNothing | src/temper2.rs:26-87 | with no matching device nothing is opened, nothing is written or read, and the sensor is reported missing |
| Temper2.OpensFirstMatchOnly | src/temper2.rs:26-38 | only the first matching entry is opened, exactly once, whatever comes after it, and the call is the conversation with that device |
| Temper2.FirmwareGate | src/temper2.rs:40-51 | the outcome is a panic exactly when the firmware reply is not UTF-8; it is `UnsupportedFirmware(reply)` exactly when the reply is UTF-8 but not "TEMPer2_"; on a mismatch the device saw only the query and one read, and never a sample trigger |
| Temper2.OkMeansFullExchange | src/temper2.rs:40-66 | an `Ok` outcome means the firmware matched and the full query, trigger, read, trigger, read, read exchange took place, consuming four replies |
| Temper2.OnlyStatusAndSampleBytesMatter | src/temper2.rs:71-78 | the outcome depends only on bytes 0, 2 and 3 of each sample buffer |
| Temper2.DecodesSampleReplies | src/temper2.rs:52-83 | past a matching firmware reply, when both sample replies fill bytes 0 to 3, the outcome is the inside check, then the outside check, then the decoding of the first and second sample replies, in that order |
| Temper2.WarmUpDiscarded | src/temper2.rs:52-63 | the warm-up reply never reaches the outcome when the first sample reply fills bytes 0 to 3 |
| Temper2.WarmUpLeaksThroughEmptyRead | src/temper2.rs:52-63 | an empty first sample read leaves the warm-up bytes in the shared buffer, and they are decoded as the first sample |
| Temper2.EmptySecondReadRejected | src/temper2.rs:59-75 | the second buffer starts zeroed, so an empty second sample read is reported as the outside probe being unreadable |
| Temper2.SentinelRejected | src/temper2.rs:71-74 | the 0x4E20 disconnected-probe sentinel is rejected whatever the status byte |
| Temper2.Sensor.Write | src/temper2.rs:41 | a write is appended to the device's trace and consumes no reply |
| Temper2.Sensor.ReadTimeout | src/temper2.rs:42-44 | a read copies the next reply into the front of the buffer, returns min(reply length, buffer length) and consumes one reply |
| Temper2.HidApi.OpenPath | src/temper2.rs:38 | opening hands out the sensor handle and logs the enumeration index opened |
| Temper2.QueryFirmware | src/temper2.rs:40-44 | a fresh zeroed 8-byte buffer receives the firmware reply after the query frame is written |
| Temper2.DiscardWarmUp | src/temper2.rs:52-56 | a trigger and one read into the shared buffer, whose contents are not inspected |
| Temper2.ReadSamples | src/temper2.rs:58-66 | one trigger, then a read into the shared buffer and a read into a fresh zeroed second buffer |
| Temper2.Sample | src/temper2.rs:52-83 | the sample phase's outcome equals `SamplePhase` of the handshake buffer and the remaining replies; the shared buffer ends holding the warm-up reply overwritten by the first sample reply; exactly three replies are consumed |
| Temper2.Talk | src/temper2.rs:40-83 | the conversation's outcome, its trace and the replies it consumes equal the reference `Converse` |
| Temper2.ReadTemp | src/temper2.rs:15-88 | the result, the paths opened, the device's trace and the replies consumed equal the reference `Acquire` of the enumeration and the script |
| Bridge.LeadingWhitespace | src/main.rs:37-41 | the length of the maximal run of Unicode whitespace at the front of the string |
| Bridge.TrailingWhitespace | src/main.rs:37-41 | the length of the maximal run of Unicode whitespace at the end of the string |
| Bridge.Trim | src/main.rs:37-46 | the host identifier is the middle of the file's content; everything cut off is whitespace; the result neither starts nor ends with whitespace |
| Bridge.PrepareDescriptors | src/main.rs:81-94 | the room descriptor is "Room Temperature": state topic, class "measurement", device class "temperature", unit "°C", icon "mdi:thermometer", the outside-temperature template and unique id "aquarium_" + the trimmed host name; the aquarium descriptor is the same document named "Aquarium Temperature" with the inside-temperature template |
| Bridge.PollOnce | src/main.rs:101-155 | an error reading gives only the 10-second sleep; a panic ends the task with no action; a good reading gives four actions ending in the sleep; it is logged as published exactly when the client accepts all three publish requests |
| Bridge.PublishesAtLeastOnceUnretained | src/main.rs:113-140 | every publish asks for at-least-once delivery and is not retained |
| Bridge.FailedReadingPublishesNothing | src/main.rs:103-106 | a failed or panicked reading publishes nothing |
| Bridge.GoodReadingPublishesThree | src/main.rs:113-141 | the room descriptor and then the aquarium descriptor go to the config topic, then the state goes to the topic the descriptors name; all three are issued whether or not the client accepts the earlier ones |
| Bridge.StateCarriesPairInOrder | src/main.rs:107-111 | the pair's first component is published as `outside_temperature` and its second as `inside_temperature`, the values the room and aquarium templates render |
| Bridge.PollLoop | src/main.rs:100-156 | the loop's rounds over a finite stretch of readings equal `Run`: one round per reading, stopping after a panic |
| Bridge.RoundsIndependent | src/main.rs:100-156 | no state carries from one round to the next: two stretches of readings give the concatenation of their rounds |
| Bridge.EveryRoundSleeps | src/main.rs:155 | every round that does not panic ends with the same 10-second sleep |
| Bridge.PanicEndsPolling | src/main.rs:99-157 | a panicking reading is the last round the task performs |
| Bridge.FirstSampleShownAsRoomTemperature | src/main.rs:107-111 | across both files, for descriptors named and templated as `PrepareDescriptors` builds them: the value the "Room Temperature" template renders from the state document is the first sample read (the shared buffer, called inside in the sensor code), and the value the "Aquarium Temperature" template renders is the second |
| Bridge.EndToEnd | src/main.rs:101-141 | one sensor with tag "TEMPer2_", a warm-up reply, a first sample of 25.00 and a second of 0.00, all three publish requests accepted by the client: the round is logged as published and the state is outside 2500, inside 0 |

## Left out

- The float conversion: `convert_temp` divides the i16 sample by 100 into an `f32`. The model keeps the integer centi-degrees, so every temperature in it is 100 times the published value.
- `HidApi::new`, `open_path`, `write` and `read_timeout` can return errors that are `unwrap`ped into panics. The model assumes they succeed. Only the `from_utf8` panic on a malformed firmware reply is modelled, as `Panicked`. The read timeout of 1000 ms is a duration with no counterpart in the model: a read that times out is a read that returns no bytes.
- The sensor is a script of replies, one per read. A read past the end of the script returns no bytes. Real USB timing and the device's behaviour are not modelled.
- The text of the `Err` strings is not modelled. The daemon only logs them, so `ReadError` keeps one variant per return site. The same goes for every `debug!`, `info!` and `error!` line: the logged verdict of a round is `Verdict`.
- Reading `/etc/hostname`: `PrepareDescriptors` takes the file's content as a parameter. A missing file panics in the daemon, and the model does not capture that.
- The MQTT client: the connection options, the environment variables `RUST_LOG`, `MQTT_SERVER` and `MQTT_PORT`, the event-loop polling in `main`, and serde's JSON encoding. A publish is modelled as the topic, QoS, retain flag and structured payload it carries. Whether the client accepts each request into its queue is an input, `Accepted`. The broker's acknowledgements arrive only in the event loop, which is not modelled, and they never reach the polling task. `Rendered` stands in for Home Assistant reading a field of the JSON state document through a value template.
- The unused `MQTTPayload` struct and the `MQTT_CLIENT_NAME` constant.
- The polling loop never ends. `PollLoop` and `Run` cover any finite prefix of it. The sleep is an action with its duration, not a delay.
- Temper2.Talk: the source applies `from_utf8(..).unwrap()` before comparing the tag. The method compares with "TEMPer2_" first and checks UTF-8 only on a mismatch. The expected tag is well-formed UTF-8 (`FirmwareIsUtf8`), so both orders give the same outcome, and `FirmwareGate` states it in the source's order.
- Naming of the pair: `read_temp` returns `(inside_temp, outside_temp)`, the first buffer being called inside in its comments. `main` binds that pair as `(out_temp, in_temp)`, so the first sample is published as `outside_temperature`. A description of the daemon that expects the first sample under `inside_temperature` disagrees with this code. The model follows the code (`StateCarriesPairInOrder`, `FirstSampleShownAsRoomTemperature`, `EndToEnd`).
