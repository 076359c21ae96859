/**
 * The MQTT bridge: the two auto-discovery descriptors built at start-up and
 * the polling loop that turns each sensor reading into publishes.
 *
 * The MQTT client is reduced to the publishes the loop issues and whether
 * the client accepts each request; payloads are the structures that are
 * serialised, temperatures are integer centi-degrees.
 */
module Bridge {

  import opened Bits
  import opened Temper2

  const CONFIG_TOPIC: string := "homeassistant/sensor/aquariumTemp/config"
  const STATE_TOPIC: string := "homeassistant/sensor/aquariumTemp/state"
  /** The pause at the end of every polling round, in seconds. */
  const POLL_INTERVAL: nat := 10

  /** An auto-discovery document (MQTTADPayload). */
  datatype Descriptor = Descriptor(
    stateTopic: string,
    stateClass: string,
    deviceClass: string,
    unitOfMeasurement: string,
    name: string,
    icon: string,
    valueTemplate: string,
    uniqueId: string)

  /** The state document (MQTTTempPayload). */
  datatype StatePayload = StatePayload(outsideTemperature: int, insideTemperature: int)

  datatype Payload = Discovery(descriptor: Descriptor) | State(state: StatePayload)

  datatype QoS = AtMostOnce | AtLeastOnce | ExactlyOnce

  /** What one polling round does to the outside world, in order. */
  datatype Action =
    | Publish(topic: string, qos: QoS, retain: bool, payload: Payload)
    | Sleep(seconds: nat)

  /** What a round reports in the log. */
  datatype Verdict =
    | SensorFailed(error: ReadError) // the reading was an error; nothing published
    | Published                      // the client accepted all three publish requests
    | PublishFailed                  // the client refused at least one of them
    | TaskPanicked                   // the reading panicked; the polling task ends

  /**
   * Whether the MQTT client accepted each of the three publish requests of a
   * round into its request queue. The broker's acknowledgements arrive in the
   * separate event loop and never reach the polling task.
   */
  datatype Accepted = Accepted(room: bool, aquarium: bool, state: bool)

  datatype Round = Round(actions: seq<Action>, verdict: Verdict)

  // ---------------------------------------------------------------------------
  // The host identifier
  // ---------------------------------------------------------------------------

  /** Unicode White_Space, the class `char::is_whitespace` tests. */
  predicate IsWhitespace(c: char) {
    var n := c as int;
    (0x09 <= n <= 0x0D) || n == 0x20 || n == 0x85 || n == 0xA0 || n == 0x1680
    || (0x2000 <= n <= 0x200A) || n == 0x2028 || n == 0x2029 || n == 0x202F
    || n == 0x205F || n == 0x3000
  }

  /** The length of the whitespace run that starts `s`. */
  function LeadingWhitespace(s: string): (k: nat)
    ensures k <= |s|
    ensures forall i :: 0 <= i < k ==> IsWhitespace(s[i])
    ensures k < |s| ==> !IsWhitespace(s[k])
  {
    if s == [] || !IsWhitespace(s[0]) then 0 else 1 + LeadingWhitespace(s[1..])
  }

  /** The length of the whitespace run that ends `s`. */
  function TrailingWhitespace(s: string): (k: nat)
    ensures k <= |s|
    ensures forall i :: |s| - k <= i < |s| ==> IsWhitespace(s[i])
    ensures k < |s| ==> !IsWhitespace(s[|s| - 1 - k])
  {
    if s == [] || !IsWhitespace(s[|s| - 1]) then 0 else 1 + TrailingWhitespace(s[..|s| - 1])
  }

  /**
   * `str::trim`: `s` without its leading and trailing whitespace. The result
   * is the middle of `s`, everything cut off on either side is whitespace,
   * and the result neither starts nor ends with whitespace.
   */
  function Trim(s: string): (r: string)
    ensures var a := LeadingWhitespace(s);
      && a + |r| <= |s| && r == s[a..a + |r|]
      && (forall i :: 0 <= i < a ==> IsWhitespace(s[i]))
      && (forall i :: a + |r| <= i < |s| ==> IsWhitespace(s[i]))
    ensures r != [] ==> !IsWhitespace(r[0]) && !IsWhitespace(r[|r| - 1])
  {
    var rest := s[LeadingWhitespace(s)..];
    rest[..|rest| - TrailingWhitespace(rest)]
  }

  // ---------------------------------------------------------------------------
  // Auto-discovery descriptors
  // ---------------------------------------------------------------------------

  /** The Home Assistant templates that pick one field of the state document. */
  const OUTSIDE_TEMPLATE: string := "{{ value_json.outside_temperature }}"
  const INSIDE_TEMPLATE: string := "{{ value_json.inside_temperature }}"

  /** The value a value template reads from the serialised state document. */
  function Rendered(p: StatePayload, template: string): Option<int> {
    if template == OUTSIDE_TEMPLATE then Some(p.outsideTemperature)
    else if template == INSIDE_TEMPLATE then Some(p.insideTemperature)
    else None
  }

  /**
   * Start-up: the room descriptor, then a copy of it with its name and value
   * template overwritten for the aquarium. `hostnameFile` is the content of
   * the host-name file, trimmed into the unique id.
   */
  method PrepareDescriptors(hostnameFile: string) returns (room: Descriptor, aquarium: Descriptor)
    ensures room.stateTopic == STATE_TOPIC && room.uniqueId == "aquarium_" + Trim(hostnameFile)
    ensures aquarium.(name := room.name, valueTemplate := room.valueTemplate) == room
    ensures room.name == "Room Temperature" && aquarium.name == "Aquarium Temperature"
    ensures room.stateClass == "measurement" && room.deviceClass == "temperature"
    ensures room.unitOfMeasurement == "°C" && room.icon == "mdi:thermometer"
    ensures room.valueTemplate == OUTSIDE_TEMPLATE && aquarium.valueTemplate == INSIDE_TEMPLATE
  {
    room := Descriptor(
      stateTopic := STATE_TOPIC,
      stateClass := "measurement",
      deviceClass := "temperature",
      unitOfMeasurement := "°C",
      name := "Room Temperature",
      icon := "mdi:thermometer",
      valueTemplate := OUTSIDE_TEMPLATE,
      uniqueId := "aquarium_" + Trim(hostnameFile));
    aquarium := room;
    aquarium := aquarium.(name := "Aquarium Temperature");
    aquarium := aquarium.(valueTemplate := INSIDE_TEMPLATE);
  }

  // ---------------------------------------------------------------------------
  // One polling round
  // ---------------------------------------------------------------------------

  /**
   * One round of the polling loop, given what `read_temp` returned and what
   * the client did with each publish request. The pair is taken apart as
   * `(out_temp, in_temp)`: its first component becomes the outside
   * temperature.
   */
  function PollOnce(room: Descriptor, aquarium: Descriptor, reading: ReadOutcome, accepted: Accepted): (t: Round)
    ensures reading == Panicked <==> t.verdict == TaskPanicked
    ensures reading == Panicked ==> t.actions == []
    ensures reading.Err? ==> t == Round([Sleep(POLL_INTERVAL)], SensorFailed(reading.error))
    ensures reading.Ok? ==> |t.actions| == 4
    ensures reading.Ok? ==> (t.verdict == Published <==> accepted.room && accepted.aquarium && accepted.state)
    ensures reading.Ok? ==> (t.verdict == PublishFailed <==> !(accepted.room && accepted.aquarium && accepted.state))
    ensures reading != Panicked ==> t.actions[|t.actions| - 1] == Sleep(POLL_INTERVAL)
  {
    match reading
    case Panicked => Round([], TaskPanicked)
    case Err(e) => Round([Sleep(POLL_INTERVAL)], SensorFailed(e))
    case Ok(pair) =>
      var (outTemp, inTemp) := pair;
      var temperature := StatePayload(outsideTemperature := outTemp, insideTemperature := inTemp);
      var publishes := [
        Publish(CONFIG_TOPIC, AtLeastOnce, false, Discovery(room)),
        Publish(CONFIG_TOPIC, AtLeastOnce, false, Discovery(aquarium)),
        Publish(STATE_TOPIC, AtLeastOnce, false, State(temperature))
      ];
      var verdict := if accepted.room && accepted.aquarium && accepted.state then Published else PublishFailed;
      Round(publishes + [Sleep(POLL_INTERVAL)], verdict)
  }

  /** Every publish of a round asks for at-least-once delivery and is not retained. */
  lemma PublishesAtLeastOnceUnretained(room: Descriptor, aquarium: Descriptor, reading: ReadOutcome, accepted: Accepted)
    ensures forall a :: a in PollOnce(room, aquarium, reading, accepted).actions && a.Publish? ==>
      a.qos == AtLeastOnce && !a.retain
  {
  }

  /** A failed or panicked reading publishes nothing. */
  lemma FailedReadingPublishesNothing(room: Descriptor, aquarium: Descriptor, reading: ReadOutcome, accepted: Accepted)
    requires !reading.Ok?
    ensures forall a :: a in PollOnce(room, aquarium, reading, accepted).actions ==> !a.Publish?
  {
  }

  /**
   * A good reading publishes the room descriptor, the aquarium descriptor
   * (both to the config topic) and then the state document to the topic the
   * descriptors name; all three are issued whether or not the client accepts
   * the earlier ones, so the actions do not depend on `Accepted`.
   */
  lemma GoodReadingPublishesThree(room: Descriptor, aquarium: Descriptor, pair: (int, int), accepted: Accepted, other: Accepted)
    requires room.stateTopic == STATE_TOPIC && aquarium.stateTopic == room.stateTopic
    ensures var t := PollOnce(room, aquarium, Ok(pair), accepted);
      && t.actions == PollOnce(room, aquarium, Ok(pair), other).actions
      && t.actions[0] == Publish(CONFIG_TOPIC, AtLeastOnce, false, Discovery(room))
      && t.actions[1] == Publish(CONFIG_TOPIC, AtLeastOnce, false, Discovery(aquarium))
      && t.actions[2].Publish? && t.actions[2].payload.State?
      && t.actions[2].topic == room.stateTopic == aquarium.stateTopic
  {
  }

  /**
   * The state document carries the reading's first component as the outside
   * temperature and its second as the inside temperature, which is what the
   * room and aquarium value templates pick out respectively.
   */
  lemma StateCarriesPairInOrder(room: Descriptor, aquarium: Descriptor, pair: (int, int), accepted: Accepted)
    requires room.valueTemplate == OUTSIDE_TEMPLATE && aquarium.valueTemplate == INSIDE_TEMPLATE
    ensures var p := PollOnce(room, aquarium, Ok(pair), accepted).actions[2].payload;
      && p == State(StatePayload(pair.0, pair.1))
      && Rendered(p.state, room.valueTemplate) == Some(pair.0)
      && Rendered(p.state, aquarium.valueTemplate) == Some(pair.1)
  {
  }

  // ---------------------------------------------------------------------------
  // The polling loop
  // ---------------------------------------------------------------------------

  /**
   * The rounds the loop performs for a sequence of readings and
   * publish outcomes: one round per reading, stopping after a reading that
   * panicked (the spawned task dies with it).
   */
  function Run(room: Descriptor, aquarium: Descriptor, readings: seq<ReadOutcome>, accepted: seq<Accepted>): seq<Round>
    requires |accepted| == |readings|
    decreases |readings|
  {
    if readings == [] then []
    else
      [PollOnce(room, aquarium, readings[0], accepted[0])]
      + (if readings[0] == Panicked then [] else Run(room, aquarium, readings[1..], accepted[1..]))
  }

  /** The polling loop over the first `|readings|` rounds. */
  method PollLoop(room: Descriptor, aquarium: Descriptor, readings: seq<ReadOutcome>, accepted: seq<Accepted>)
    returns (rounds: seq<Round>)
    requires |accepted| == |readings|
    ensures rounds == Run(room, aquarium, readings, accepted)
  {
    rounds := [];
    var i := 0;
    while i < |readings|
      invariant 0 <= i <= |readings|
      invariant rounds + Run(room, aquarium, readings[i..], accepted[i..]) == Run(room, aquarium, readings, accepted)
    {
      var round := PollOnce(room, aquarium, readings[i], accepted[i]);
      assert readings[i..][1..] == readings[i + 1..] && accepted[i..][1..] == accepted[i + 1..];
      rounds := rounds + [round];
      if readings[i] == Panicked {
        return;
      }
      i := i + 1;
    }
  }

  /**
   * Nothing carries over from one round to the next: the rounds for two
   * stretches of readings, the first without a panic, are the rounds of
   * each stretch on its own.
   */
  lemma {:induction false} RoundsIndependent(
    room: Descriptor, aquarium: Descriptor,
    r1: seq<ReadOutcome>, a1: seq<Accepted>, r2: seq<ReadOutcome>, a2: seq<Accepted>)
    requires |a1| == |r1| && |a2| == |r2|
    requires Panicked !in r1
    ensures Run(room, aquarium, r1 + r2, a1 + a2) == Run(room, aquarium, r1, a1) + Run(room, aquarium, r2, a2)
    decreases |r1|
  {
    if r1 == [] {
      assert r1 + r2 == r2 && a1 + a2 == a2;
    } else {
      assert (r1 + r2)[0] == r1[0] && (a1 + a2)[0] == a1[0];
      assert (r1 + r2)[1..] == r1[1..] + r2 && (a1 + a2)[1..] == a1[1..] + a2;
      RoundsIndependent(room, aquarium, r1[1..], a1[1..], r2, a2);
    }
  }

  /** Every round that does not panic ends with the same ten-second sleep. */
  lemma {:induction false} EveryRoundSleeps(room: Descriptor, aquarium: Descriptor, readings: seq<ReadOutcome>, accepted: seq<Accepted>, k: nat)
    requires |accepted| == |readings|
    requires k < |Run(room, aquarium, readings, accepted)|
    ensures var t := Run(room, aquarium, readings, accepted)[k];
      t.verdict != TaskPanicked ==> t.actions != [] && t.actions[|t.actions| - 1] == Sleep(POLL_INTERVAL)
    decreases |readings|
  {
    if k > 0 {
      EveryRoundSleeps(room, aquarium, readings[1..], accepted[1..], k - 1);
    }
  }

  /** A panicking reading is the last round: polling stops there. */
  lemma PanicEndsPolling(
    room: Descriptor, aquarium: Descriptor,
    r1: seq<ReadOutcome>, a1: seq<Accepted>, r2: seq<ReadOutcome>, a2: seq<Accepted>, accepted: Accepted)
    requires |a1| == |r1| && |a2| == |r2|
    requires Panicked !in r1
    ensures Run(room, aquarium, r1 + [Panicked] + r2, a1 + [accepted] + a2)
      == Run(room, aquarium, r1, a1) + [Round([], TaskPanicked)]
  {
    assert r1 + [Panicked] + r2 == r1 + ([Panicked] + r2);
    assert a1 + [accepted] + a2 == a1 + ([accepted] + a2);
    RoundsIndependent(room, aquarium, r1, a1, [Panicked] + r2, [accepted] + a2);
    var tail, tailAccepted := [Panicked] + r2, [accepted] + a2;
    assert tail[0] == Panicked && tailAccepted[0] == accepted;
    assert Run(room, aquarium, tail, tailAccepted) == [Round([], TaskPanicked)];
  }

  // ---------------------------------------------------------------------------
  // Sensor and bridge together
  // ---------------------------------------------------------------------------

  /**
   * Across the two files: the first sample read (the one the sensor code
   * keeps in `buffer` and calls inside) is published as the outside
   * temperature, the value the "Room Temperature" descriptor displays; the
   * second sample is what "Aquarium Temperature" displays.
   */
  lemma FirstSampleShownAsRoomTemperature(
    devices: seq<DeviceInfo>, replies: seq<seq<Byte>>,
    room: Descriptor, aquarium: Descriptor, accepted: Accepted)
    requires room.name == "Room Temperature" && room.valueTemplate == OUTSIDE_TEMPLATE
    requires aquarium.name == "Aquarium Temperature" && aquarium.valueTemplate == INSIDE_TEMPLATE
    requires FirmwareReply(replies) == FIRMWARE
    requires |Reply(replies, 2)| >= 4 && |Reply(replies, 3)| >= 4
    requires Acquire(devices, replies).session.outcome.Ok?
    ensures var first, second := Reply(replies, 2), Reply(replies, 3);
      var p := PollOnce(room, aquarium, Acquire(devices, replies).session.outcome, accepted).actions[2].payload;
      && p.State?
      && Rendered(p.state, room.valueTemplate) == Some(ConvertTemp(first[2], first[3]))
      && Rendered(p.state, aquarium.valueTemplate) == Some(ConvertTemp(second[2], second[3]))
  {
    match FirstMatch(devices)
    case Some(k) =>
      DecodesSampleReplies(replies);
  }

  /**
   * End to end: one sensor, firmware "TEMPer2_", a warm-up reply, a first
   * sample of 25.00 degrees and a second of 0.00, all three publishes
   * accepted by the client. The state published has outside 25.00 and inside 0.00.
   */
  lemma EndToEnd(room: Descriptor, aquarium: Descriptor)
    ensures var devices := [DeviceInfo(0x1A86, 0xE025, 1)];
      var replies: seq<seq<Byte>> := [FIRMWARE, [0x80, 0, 0, 0, 0, 0, 0, 0], [0x80, 0, 0x09, 0xC4, 0, 0, 0, 0], [0x80, 0, 0, 0, 0, 0, 0, 0]];
      var t := PollOnce(room, aquarium, Acquire(devices, replies).session.outcome, Accepted(true, true, true));
      && t.verdict == Published
      && t.actions[2].payload == State(StatePayload(outsideTemperature := 2500, insideTemperature := 0))
  {
    var devices := [DeviceInfo(0x1A86, 0xE025, 1)];
    var replies: seq<seq<Byte>> := [FIRMWARE, [0x80, 0, 0, 0, 0, 0, 0, 0], [0x80, 0, 0x09, 0xC4, 0, 0, 0, 0], [0x80, 0, 0, 0, 0, 0, 0, 0]];
    assert FirstMatch(devices) == Some(0);
    assert FirmwareReply(replies) == FIRMWARE;
    DecodesSampleReplies(replies);
    ConvertTempExamples();
  }
}
