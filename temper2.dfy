/**
 * The TEMPer2 USB sensor: device selection, the command/response handshake
 * over HID, and the decoding of the two temperature samples.
 *
 * Temperatures are kept as integer centi-degrees Celsius (the raw signed
 * 16-bit sample); the final division by 100 into a 32-bit float is not modelled.
 */
module Temper2 {

  import opened Bits

  // ---------------------------------------------------------------------------
  // Decoding one sample
  // ---------------------------------------------------------------------------

  /**
   * The sample carried by bytes 2 and 3 of a reply: the high byte shifted
   * left by eight, or-ed with the low byte, read as a signed 16-bit value.
   * The result is the value in the i16 range that agrees with the unsigned
   * big-endian value `b2 * 256 + b3` modulo 2^16; it is negative exactly
   * when the sign bit (top bit of `b2`) is set.
   */
  function ConvertTemp(b2: Byte, b3: Byte): (t: int)
    ensures -0x8000 <= t < 0x8000
    ensures var u := b2 as int * 0x100 + b3 as int; t == u || t == u - 0x10000
    ensures t < 0 <==> b2 >= 0x80
  {
    var bits := ((b2 as bv16) << 8) | (b3 as bv16);
    BigEndianBits(b2, b3);
    AsInt16(bits)
  }

  /** High byte of the two's-complement encoding of an i16 value. */
  function HighByte(t: int): Byte
    requires -0x8000 <= t < 0x8000
  {
    ByteOf((t % 0x10000) / 0x100)
  }

  /** Low byte of the two's-complement encoding of an i16 value. */
  function LowByte(t: int): Byte
    requires -0x8000 <= t < 0x8000
  {
    ByteOf(t % 0x100)
  }

  /** Every i16 value is decoded back from its own big-endian bytes. */
  lemma ConvertTempRoundTrip(t: int)
    requires -0x8000 <= t < 0x8000
    ensures ConvertTemp(HighByte(t), LowByte(t)) == t
  {
    var u := if t < 0 then t + 0x10000 else t;
    assert u == t % 0x10000;
    var hi, lo := HighByte(t), LowByte(t);
    assert hi as int * 0x100 + lo as int == u by {
      assert hi as int == u / 0x100;
      assert lo as int == u % 0x100 by {
        assert lo as int == t % 0x100;
      }
    }
  }

  /** The quotient and remainder by 256 of `hi * 256 + lo`. */
  lemma SplitBigEndian(x: int, hi: int, lo: int)
    requires 0 <= lo < 0x100 && x == hi * 0x100 + lo
    ensures x / 0x100 == hi && x % 0x100 == lo
  {
  }

  /** Distinct byte pairs decode to distinct samples. */
  lemma ConvertTempInjective(a2: Byte, a3: Byte, b2: Byte, b3: Byte)
    requires ConvertTemp(a2, a3) == ConvertTemp(b2, b3)
    ensures a2 == b2 && a3 == b3
  {
    var ua, ub := a2 as int * 0x100 + a3 as int, b2 as int * 0x100 + b3 as int;
    assert ua == ub by {
      assert (a2 >= 0x80) == (b2 >= 0x80);
    }
    assert a2 as int == b2 as int && a3 as int == b3 as int by {
      SplitBigEndian(ua, a2 as int, a3 as int);
      SplitBigEndian(ub, b2 as int, b3 as int);
    }
    ValueDeterminesByte(a2, b2);
    ValueDeterminesByte(a3, b3);
  }

  /** Boundary samples: 0.00, 25.00, -1.00 and -327.68 degrees. */
  lemma ConvertTempExamples()
    ensures ConvertTemp(0x00, 0x00) == 0
    ensures ConvertTemp(0x09, 0xC4) == 2500
    ensures ConvertTemp(0xFF, 0x9C) == -100
    ensures ConvertTemp(0x80, 0x00) == -32768
    ensures ConvertTemp(0x7F, 0xFF) == 32767
  {
  }

  // ---------------------------------------------------------------------------
  // Device identity, command frames and replies
  // ---------------------------------------------------------------------------

  /** One entry of the HID enumeration. */
  datatype DeviceInfo = DeviceInfo(vendorId: int, productId: int, interfaceNumber: int)

  const VID := 0x1A86
  const PID := 0xE025
  const INTERFACE_NUMBER := 1

  predicate Matches(d: DeviceInfo) {
    d.vendorId == VID && d.productId == PID && d.interfaceNumber == INTERFACE_NUMBER
  }

  datatype Option<T> = None | Some(value: T)

  /** Index of the first enumerated device with the sensor's identity, if any. */
  function FirstMatch(devices: seq<DeviceInfo>): (r: Option<nat>)
    ensures r.None? <==> forall j :: 0 <= j < |devices| ==> !Matches(devices[j])
    ensures r.Some? ==> r.value < |devices| && Matches(devices[r.value])
    ensures r.Some? ==> forall j :: 0 <= j < r.value ==> !Matches(devices[j])
  {
    if devices == [] then None
    else if Matches(devices[0]) then Some(0)
    else match FirstMatch(devices[1..])
      case None => None
      case Some(k) => Some(k + 1)
  }

  /** Firmware query frame. */
  const FIRMWARE_QUERY: seq<Byte> := [0x01, 0x86, 0xFF, 0x01, 0, 0, 0, 0]
  /** Sample trigger frame. */
  const SAMPLE_TRIGGER: seq<Byte> := [0x01, 0x80, 0x33, 0x01, 0, 0, 0, 0]
  /** The ASCII bytes of the expected firmware tag "TEMPer2_". */
  const FIRMWARE: seq<Byte> := [0x54, 0x45, 0x4D, 0x50, 0x65, 0x72, 0x32, 0x5F]
  /** A freshly declared `[0u8; 8]` buffer. */
  const ZEROES: seq<Byte> := [0, 0, 0, 0, 0, 0, 0, 0]

  function Ascii(s: seq<Byte>): string
    requires forall i :: 0 <= i < |s| ==> s[i] < 0x80
  {
    seq(|s|, i requires 0 <= i < |s| => s[i] as int as char)
  }

  /** The firmware constant spells the expected tag. */
  lemma FirmwareSpellsTag()
    ensures Ascii(FIRMWARE) == "TEMPer2_"
  {
  }

  predicate IsContinuation(b: Byte) {
    0x80 <= b < 0xC0
  }

  /**
   * The length of the well-formed UTF-8 encoding of one scalar value at the
   * front of `s` (the table of well-formed byte sequences of the Unicode
   * standard), or 0 when `s` does not start with one.
   */
  function ScalarWidth(s: seq<Byte>): (n: nat)
    requires s != []
    ensures n <= |s| && n <= 4
  {
    var b := s[0];
    if b < 0x80 then 1
    else if |s| < 2 || !IsContinuation(s[1]) then 0
    else if 0xC2 <= b <= 0xDF then 2
    else if |s| < 3 || !IsContinuation(s[2]) then 0
    else if b == 0xE0 then (if 0xA0 <= s[1] then 3 else 0)
    else if 0xE1 <= b <= 0xEC || 0xEE <= b <= 0xEF then 3
    else if b == 0xED then (if s[1] <= 0x9F then 3 else 0)
    else if |s| < 4 || !IsContinuation(s[3]) then 0
    else if b == 0xF0 then (if 0x90 <= s[1] then 4 else 0)
    else if 0xF1 <= b <= 0xF3 then 4
    else if b == 0xF4 then (if s[1] <= 0x8F then 4 else 0)
    else 0
  }

  /** Well-formed UTF-8, the test `String::from_utf8` applies. */
  predicate IsUtf8(s: seq<Byte>)
    decreases |s|
  {
    s == [] || (ScalarWidth(s) > 0 && IsUtf8(s[ScalarWidth(s)..]))
  }

  /** The expected firmware tag passes the UTF-8 test. */
  lemma FirmwareIsUtf8()
    ensures IsUtf8(FIRMWARE)
  {
    assert forall i :: 0 <= i < |FIRMWARE| ==> FIRMWARE[i] < 0x80;
    AsciiIsUtf8(FIRMWARE);
  }

  /** Pure ASCII is well-formed UTF-8; a lone continuation byte is not. */
  lemma {:induction false} AsciiIsUtf8(s: seq<Byte>)
    requires forall i :: 0 <= i < |s| ==> s[i] < 0x80
    ensures IsUtf8(s)
    ensures !IsUtf8([0x80] + s)
    decreases |s|
  {
    if s != [] {
      AsciiIsUtf8(s[1..]);
    }
    assert ([0x80] + s)[0] == 0x80;
  }

  /**
   * The bytes of a read buffer after one `read_timeout`: the reply overwrites
   * the prefix it fills and the rest keeps its previous contents (the byte
   * count the read returns is ignored by the caller).
   */
  function Overwrite(buf: seq<Byte>, reply: seq<Byte>): (r: seq<Byte>)
    ensures |r| == |buf|
    ensures forall i :: 0 <= i < |buf| && i < |reply| ==> r[i] == reply[i]
    ensures forall i :: |reply| <= i < |buf| ==> r[i] == buf[i]
  {
    if |reply| >= |buf| then reply[..|buf|] else reply + buf[|reply|..]
  }

  /** The next scripted reply; a read past the end of the script times out with no data. */
  function Head(replies: seq<seq<Byte>>): seq<Byte> {
    if replies == [] then [] else replies[0]
  }

  /** The script after `n` reads. */
  function Drop(replies: seq<seq<Byte>>, n: nat): (r: seq<seq<Byte>>)
    ensures |r| == if n <= |replies| then |replies| - n else 0
  {
    if n <= |replies| then replies[n..] else []
  }

  /** The `i`-th reply of the script (empty past its end). */
  function Reply(replies: seq<seq<Byte>>, i: nat): seq<Byte> {
    Head(Drop(replies, i))
  }

  // ---------------------------------------------------------------------------
  // Outcome of one acquisition
  // ---------------------------------------------------------------------------

  /** The four `Err` returns of `read_temp`. */
  datatype ReadError =
    | SensorMissing                       // no matching device enumerated
    | UnsupportedFirmware(tag: seq<Byte>) // firmware reply is not "TEMPer2_"
    | InsideUnreadable                    // first sample buffer rejected
    | OutsideUnreadable                   // second sample buffer rejected

  /**
   * `Ok((first, second))` holds the samples of the first and second sample
   * reads in that order; `Panicked` is the `unwrap` of a non-UTF-8 firmware reply.
   */
  datatype ReadOutcome = Ok(pair: (int, int)) | Err(error: ReadError) | Panicked

  /** The validity check of one sample buffer: bad status byte or disconnected-probe sentinel. */
  predicate Rejected(buf: seq<Byte>)
    requires |buf| >= 4
  {
    buf[0] != 0x80 || (buf[2] == 0x4E && buf[3] == 0x20)
  }

  /** The checks of both buffers, inside first, then the decoding of both. */
  function Validate(inside: seq<Byte>, outside: seq<Byte>): (r: ReadOutcome)
    requires |inside| >= 4 && |outside| >= 4
    ensures r != Panicked && (r.Err? ==> r.error == InsideUnreadable || r.error == OutsideUnreadable)
    ensures r == Err(InsideUnreadable) <==> Rejected(inside)
    ensures r == Err(OutsideUnreadable) <==> !Rejected(inside) && Rejected(outside)
    ensures r.Ok? ==> r.pair.0 == ConvertTemp(inside[2], inside[3]) && r.pair.1 == ConvertTemp(outside[2], outside[3])
  {
    if Rejected(inside) then Err(InsideUnreadable)
    else if Rejected(outside) then Err(OutsideUnreadable)
    else Ok((ConvertTemp(inside[2], inside[3]), ConvertTemp(outside[2], outside[3])))
  }

  /** What the host does to the opened device, in order. */
  datatype Io = Write(frame: seq<Byte>) | Read

  /** The exchange of a call that stops at the firmware check. */
  const FIRMWARE_EXCHANGE: seq<Io> := [Write(FIRMWARE_QUERY), Read]

  /** The full exchange of a call that gets past the firmware check. */
  const SAMPLE_EXCHANGE: seq<Io> :=
    FIRMWARE_EXCHANGE + [Write(SAMPLE_TRIGGER), Read, Write(SAMPLE_TRIGGER), Read, Read]

  /**
   * The conversation with the opened device: its outcome, the writes and
   * reads the device sees and how many scripted replies it consumes.
   */
  datatype Session = Session(outcome: ReadOutcome, io: seq<Io>, consumed: nat)

  /**
   * The sample phase, given the buffer left by the handshake and the replies
   * still to come: the warm-up read and the first sample read share that
   * buffer, the second sample read fills a fresh zeroed one.
   */
  function SamplePhase(buffer: seq<Byte>, replies: seq<seq<Byte>>): ReadOutcome
    requires |buffer| == 8
  {
    var warmUp := Overwrite(buffer, Reply(replies, 0));
    var inside := Overwrite(warmUp, Reply(replies, 1));
    var outside := Overwrite(ZEROES, Reply(replies, 2));
    Validate(inside, outside)
  }

  /** Reference definition of the conversation, given the device's scripted replies. */
  function Converse(replies: seq<seq<Byte>>): Session {
    var tag := FirmwareReply(replies);
    if tag == FIRMWARE then
      Session(SamplePhase(tag, Drop(replies, 1)), SAMPLE_EXCHANGE, 4)
    else if !IsUtf8(tag) then
      Session(Panicked, FIRMWARE_EXCHANGE, 1)
    else
      Session(Err(UnsupportedFirmware(tag)), FIRMWARE_EXCHANGE, 1)
  }

  /**
   * One call of `read_temp` on values: the enumeration indices it opens and
   * the conversation with the opened device (an empty one when none is opened).
   */
  datatype Acquisition = Acquisition(openLog: seq<nat>, session: Session)

  /** Reference definition of `read_temp` over a device list and the opened device's script. */
  function Acquire(devices: seq<DeviceInfo>, replies: seq<seq<Byte>>): Acquisition {
    match FirstMatch(devices)
    case None => Acquisition([], Session(Err(SensorMissing), [], 0))
    case Some(k) => Acquisition([k], Converse(replies))
  }

  // ---------------------------------------------------------------------------
  // Properties of one acquisition
  // ---------------------------------------------------------------------------

  /** The firmware reply as it sits in the zeroed buffer. */
  function FirmwareReply(replies: seq<seq<Byte>>): seq<Byte> {
    Overwrite(ZEROES, Reply(replies, 0))
  }

  /** With no matching device nothing is opened, nothing is exchanged and the sensor is reported missing. */
  lemma NoMatchTouchesNothing(devices: seq<DeviceInfo>, replies: seq<seq<Byte>>)
    requires forall j :: 0 <= j < |devices| ==> !Matches(devices[j])
    ensures Acquire(devices, replies) == Acquisition([], Session(Err(SensorMissing), [], 0))
  {
  }

  /**
   * Only the first matching entry is opened, exactly once, whatever follows
   * it in the enumeration (duplicates included), and the call is the
   * conversation with that device.
   */
  lemma OpensFirstMatchOnly(devices: seq<DeviceInfo>, replies: seq<seq<Byte>>, k: nat)
    requires k < |devices| && Matches(devices[k])
    requires forall j :: 0 <= j < k ==> !Matches(devices[j])
    ensures Acquire(devices, replies) == Acquisition([k], Converse(replies))
  {
    assert FirstMatch(devices) == Some(k);
  }

  /**
   * The firmware check, in the order of the source: a reply that is not
   * well-formed UTF-8 panics; a well-formed one that is not "TEMPer2_" is
   * reported with its bytes; in both cases the device has seen exactly one
   * write (the query) and one read, and no sample trigger.
   */
  lemma FirmwareGate(replies: seq<seq<Byte>>)
    ensures var tag := FirmwareReply(replies);
      && (Converse(replies).outcome == Panicked <==> !IsUtf8(tag))
      && (Converse(replies).outcome == Err(UnsupportedFirmware(tag)) <==> IsUtf8(tag) && tag != FIRMWARE)
      && (tag != FIRMWARE ==> Converse(replies).io == FIRMWARE_EXCHANGE && Write(SAMPLE_TRIGGER) !in Converse(replies).io)
      && (tag == FIRMWARE ==> Converse(replies).io == SAMPLE_EXCHANGE)
  {
    var tag := FirmwareReply(replies);
    if tag == FIRMWARE {
      FirmwareIsUtf8();
    }
  }

  /** A call that returns `Ok` has gone through the full exchange, in order. */
  lemma OkMeansFullExchange(replies: seq<seq<Byte>>)
    requires Converse(replies).outcome.Ok?
    ensures Converse(replies).io == SAMPLE_EXCHANGE && Converse(replies).consumed == 4
    ensures FirmwareReply(replies) == FIRMWARE
  {
    FirmwareGate(replies);
  }

  /** Only bytes 0, 2 and 3 of each sample buffer take part in the checks and the decoding. */
  lemma OnlyStatusAndSampleBytesMatter(in1: seq<Byte>, out1: seq<Byte>, in2: seq<Byte>, out2: seq<Byte>)
    requires |in1| >= 4 && |out1| >= 4 && |in2| >= 4 && |out2| >= 4
    requires in1[0] == in2[0] && in1[2] == in2[2] && in1[3] == in2[3]
    requires out1[0] == out2[0] && out1[2] == out2[2] && out1[3] == out2[3]
    ensures Validate(in1, out1) == Validate(in2, out2)
  {
  }

  /**
   * Past a matching firmware reply, with sample replies of at least four
   * bytes: the inside check comes first, then the outside check, and an `Ok`
   * pair is the decoding of bytes 2 and 3 of the first and second sample
   * replies, in that order.
   */
  lemma DecodesSampleReplies(replies: seq<seq<Byte>>)
    requires FirmwareReply(replies) == FIRMWARE
    requires |Reply(replies, 2)| >= 4 && |Reply(replies, 3)| >= 4
    ensures var first, second := Reply(replies, 2), Reply(replies, 3);
      Converse(replies).outcome ==
        if Rejected(first) then Err(InsideUnreadable)
        else if Rejected(second) then Err(OutsideUnreadable)
        else Ok((ConvertTemp(first[2], first[3]), ConvertTemp(second[2], second[3])))
  {
    var first, second := Reply(replies, 2), Reply(replies, 3);
    assert Reply(Drop(replies, 1), 1) == first && Reply(Drop(replies, 1), 2) == second;
    var warmUp := Overwrite(FIRMWARE, Reply(replies, 1));
    var inside := Overwrite(warmUp, first);
    var outside := Overwrite(ZEROES, second);
    OnlyStatusAndSampleBytesMatter(inside, outside, first, second);
  }

  /**
   * The warm-up reply never reaches the outcome as long as the first sample
   * reply fills at least bytes 0 to 3: two scripts that differ only in their
   * warm-up reply give the same outcome.
   */
  lemma WarmUpDiscarded(r1: seq<seq<Byte>>, r2: seq<seq<Byte>>)
    requires |r1| == |r2| >= 3
    requires forall i :: 0 <= i < |r1| && i != 1 ==> r1[i] == r2[i]
    requires |r1[2]| >= 4
    ensures Converse(r1).outcome == Converse(r2).outcome
  {
    assert Reply(r1, 0) == Reply(r2, 0) && Reply(r1, 2) == Reply(r2, 2) && Reply(r1, 3) == Reply(r2, 3);
    var tag := FirmwareReply(r1);
    if tag == FIRMWARE {
      var d1, d2 := Drop(r1, 1), Drop(r2, 1);
      var in1 := Overwrite(Overwrite(tag, Reply(d1, 0)), Reply(d1, 1));
      var in2 := Overwrite(Overwrite(tag, Reply(d2, 0)), Reply(d2, 1));
      var out := Overwrite(ZEROES, Reply(d1, 2));
      assert Reply(d1, 1) == Reply(d2, 1) == r1[2];
      assert Reply(d1, 2) == Reply(d2, 2);
      OnlyStatusAndSampleBytesMatter(in1, out, in2, out);
    }
  }

  /**
   * The discard needs that condition: when the first sample read returns no
   * data, the warm-up reply left in the shared buffer is decoded as the
   * first sample (here 25.00 degrees).
   */
  lemma WarmUpLeaksThroughEmptyRead()
    ensures Converse([FIRMWARE, [0x80, 0, 0x09, 0xC4, 0, 0, 0, 0], [], [0x80, 0, 0, 0, 0, 0, 0, 0]]).outcome
      == Ok((2500, 0))
  {
    var replies: seq<seq<Byte>> := [FIRMWARE, [0x80, 0, 0x09, 0xC4, 0, 0, 0, 0], [], [0x80, 0, 0, 0, 0, 0, 0, 0]];
    assert FirmwareReply(replies) == FIRMWARE;
    var inside := Overwrite(Overwrite(FIRMWARE, Reply(Drop(replies, 1), 0)), Reply(Drop(replies, 1), 1));
    assert inside == [0x80, 0, 0x09, 0xC4, 0, 0, 0, 0];
    var outside := Overwrite(ZEROES, Reply(Drop(replies, 1), 2));
    assert outside == [0x80, 0, 0, 0, 0, 0, 0, 0];
    ConvertTempExamples();
  }

  /**
   * The second sample buffer starts zeroed, so a second sample read that
   * returns no data (or a script that runs out) fails the status check.
   */
  lemma EmptySecondReadRejected(replies: seq<seq<Byte>>)
    requires FirmwareReply(replies) == FIRMWARE
    requires |Reply(replies, 2)| >= 4 && !Rejected(Reply(replies, 2))
    requires Reply(replies, 3) == []
    ensures Converse(replies).outcome == Err(OutsideUnreadable)
  {
    assert Reply(Drop(replies, 1), 1) == Reply(replies, 2) && Reply(Drop(replies, 1), 2) == [];
    assert Overwrite(ZEROES, []) == ZEROES;
  }

  /** A reading with the disconnected-probe sentinel is rejected whatever its status byte. */
  lemma SentinelRejected(buf: seq<Byte>)
    requires |buf| >= 4 && buf[2] == 0x4E && buf[3] == 0x20
    ensures Rejected(buf)
  {
  }

  // ---------------------------------------------------------------------------
  // The device, as the host sees it
  // ---------------------------------------------------------------------------

  /** An opened HID handle whose replies are scripted. */
  class Sensor {
    /** Replies still to come, one per read. */
    var replies: seq<seq<Byte>>
    /** Every write and read the host has issued, in order. */
    var trace: seq<Io>

    constructor (script: seq<seq<Byte>>)
      ensures replies == script && trace == []
    {
      replies := script;
      trace := [];
    }

    method Write(frame: seq<Byte>)
      modifies this
      ensures trace == old(trace) + [Io.Write(frame)]
      ensures replies == old(replies)
    {
      trace := trace + [Io.Write(frame)];
    }

    /** `read_timeout`: copies the next reply into the front of `buf` and returns its length. */
    method ReadTimeout(buf: array<Byte>) returns (n: nat)
      modifies this, buf
      ensures buf[..] == Overwrite(old(buf[..]), Head(old(replies)))
      ensures n == if |Head(old(replies))| < buf.Length then |Head(old(replies))| else buf.Length
      ensures replies == Drop(old(replies), 1)
      ensures trace == old(trace) + [Read]
    {
      var reply := Head(replies);
      n := if |reply| < buf.Length then |reply| else buf.Length;
      forall i | 0 <= i < n {
        buf[i] := reply[i];
      }
      replies := Drop(replies, 1);
      trace := trace + [Read];
    }
  }

  /** The HID library: the enumeration and a log of the paths it was asked to open. */
  class HidApi {
    const devices: seq<DeviceInfo>
    /** The handle `open_path` hands out (the scripted sensor). */
    const sensor: Sensor
    /** Enumeration indices passed to `open_path`, in order. */
    var openLog: seq<nat>

    constructor (devices: seq<DeviceInfo>, sensor: Sensor)
      ensures this.devices == devices && this.sensor == sensor && openLog == []
    {
      this.devices := devices;
      this.sensor := sensor;
      openLog := [];
    }

    method OpenPath(i: nat) returns (s: Sensor)
      requires i < |devices|
      modifies this
      ensures s == sensor && openLog == old(openLog) + [i]
    {
      s := sensor;
      openLog := openLog + [i];
    }
  }

  /** The warm-up exchange: a sample trigger and one read whose contents are never checked. */
  method DiscardWarmUp(sensor: Sensor, buffer: array<Byte>)
    modifies sensor, buffer
    ensures buffer[..] == Overwrite(old(buffer[..]), Reply(old(sensor.replies), 0))
    ensures sensor.trace == old(sensor.trace) + [Write(SAMPLE_TRIGGER), Read]
    ensures sensor.replies == Drop(old(sensor.replies), 1)
  {
    sensor.Write(SAMPLE_TRIGGER);
    var _ := sensor.ReadTimeout(buffer);
  }

  /**
   * The sample exchange: a sample trigger, then one read into `buffer`
   * (inside) and one into a fresh zeroed buffer (outside).
   */
  method ReadSamples(sensor: Sensor, buffer: array<Byte>) returns (buffer2: array<Byte>)
    requires buffer.Length == 8
    modifies sensor, buffer
    ensures fresh(buffer2) && buffer2.Length == 8
    ensures buffer[..] == Overwrite(old(buffer[..]), Reply(old(sensor.replies), 0))
    ensures buffer2[..] == Overwrite(ZEROES, Reply(old(sensor.replies), 1))
    ensures sensor.trace == old(sensor.trace) + [Write(SAMPLE_TRIGGER), Read, Read]
    ensures sensor.replies == Drop(old(sensor.replies), 2)
  {
    ghost var script := sensor.replies;
    buffer2 := new Byte[8](_ => 0);
    assert buffer2[..] == ZEROES;
    sensor.Write(SAMPLE_TRIGGER);
    var _ := sensor.ReadTimeout(buffer);
    var _ := sensor.ReadTimeout(buffer2);
    assert Drop(Drop(script, 1), 1) == Drop(script, 2);
  }

  /** Warm-up discard, dual sample read and the validity checks. */
  method Sample(sensor: Sensor, buffer: array<Byte>) returns (r: ReadOutcome)
    requires buffer.Length == 8
    modifies sensor, buffer
    ensures r == SamplePhase(old(buffer[..]), old(sensor.replies))
    ensures buffer[..] == Overwrite(Overwrite(old(buffer[..]), Reply(old(sensor.replies), 0)), Reply(old(sensor.replies), 1))
    ensures sensor.trace == old(sensor.trace) + [Write(SAMPLE_TRIGGER), Read, Write(SAMPLE_TRIGGER), Read, Read]
    ensures sensor.replies == Drop(old(sensor.replies), 3)
  {
    ghost var script, handshake := sensor.replies, buffer[..];
    // the first sample after the handshake is garbage
    DiscardWarmUp(sensor, buffer);
    var buffer2 := ReadSamples(sensor, buffer);
    assert Drop(Drop(script, 1), 2) == Drop(script, 3);
    ghost var inside, outside := buffer[..], buffer2[..];
    assert SamplePhase(handshake, script) == Validate(inside, outside) by {
      assert Reply(Drop(script, 1), 0) == Reply(script, 1) && Reply(Drop(script, 1), 1) == Reply(script, 2);
    }
    if buffer[0] != 0x80 || (buffer[2] == 0x4E && buffer[3] == 0x20) {
      assert Rejected(inside);
      return Err(InsideUnreadable);
    } else if buffer2[0] != 0x80 || (buffer2[2] == 0x4E && buffer2[3] == 0x20) {
      assert Rejected(outside);
      return Err(OutsideUnreadable);
    }
    var insideTemp := ConvertTemp(buffer[2], buffer[3]);
    var outsideTemp := ConvertTemp(buffer2[2], buffer2[3]);
    return Ok((insideTemp, outsideTemp));
  }

  /** The firmware query: a fresh zeroed buffer, the query frame, one read into the buffer. */
  method QueryFirmware(sensor: Sensor) returns (buffer: array<Byte>)
    modifies sensor
    ensures fresh(buffer) && buffer.Length == 8
    ensures buffer[..] == Overwrite(ZEROES, Reply(old(sensor.replies), 0))
    ensures sensor.trace == old(sensor.trace) + FIRMWARE_EXCHANGE
    ensures sensor.replies == Drop(old(sensor.replies), 1)
  {
    buffer := new Byte[8](_ => 0);
    assert buffer[..] == ZEROES;
    sensor.Write(FIRMWARE_QUERY);
    var _ := sensor.ReadTimeout(buffer);
  }

  /** The conversation with the opened sensor: firmware handshake, then the sample phase. */
  method Talk(sensor: Sensor) returns (r: ReadOutcome)
    modifies sensor
    ensures r == Converse(old(sensor.replies)).outcome
    ensures sensor.trace == old(sensor.trace) + Converse(old(sensor.replies)).io
    ensures sensor.replies == Drop(old(sensor.replies), Converse(old(sensor.replies)).consumed)
  {
    ghost var script := sensor.replies;
    var buffer := QueryFirmware(sensor);
    var firmware := buffer[..];
    // `from_utf8(..).unwrap()` precedes the comparison; the expected tag is
    // well-formed UTF-8 (FirmwareIsUtf8), so only a reply that differs from it panics
    if firmware == FIRMWARE {
      r := Sample(sensor, buffer);
      assert Drop(Drop(script, 1), 3) == Drop(script, 4);
    } else if !IsUtf8(firmware) {
      r := Panicked;
    } else {
      r := Err(UnsupportedFirmware(firmware));
    }
  }

  /**
   * `read_temp`: scan the enumeration, open the first match and talk to it;
   * with no match, report the sensor missing without touching any device.
   */
  method ReadTemp(api: HidApi) returns (r: ReadOutcome)
    modifies api, api.sensor
    ensures var a := Acquire(api.devices, old(api.sensor.replies));
      && r == a.session.outcome
      && api.openLog == old(api.openLog) + a.openLog
      && api.sensor.trace == old(api.sensor.trace) + a.session.io
      && api.sensor.replies == Drop(old(api.sensor.replies), a.session.consumed)
  {
    for i := 0 to |api.devices|
      invariant forall j :: 0 <= j < i ==> !Matches(api.devices[j])
      invariant api.openLog == old(api.openLog)
      invariant api.sensor.trace == old(api.sensor.trace) && api.sensor.replies == old(api.sensor.replies)
    {
      var device := api.devices[i];
      if device.vendorId == VID && device.productId == PID && device.interfaceNumber == INTERFACE_NUMBER {
        assert FirstMatch(api.devices) == Some(i);
        var sensor := api.OpenPath(i);
        r := Talk(sensor);
        return;
      }
    }
    return Err(SensorMissing);
  }
}
