/**
  Encoder for the Gigabyte TRX40 Aorus Master (RGB Fusion 2 protocol).

  One configuration becomes exactly one 54-byte buffer: a 31-byte
  configuration report followed, in the same buffer, by the 23-byte apply
  sequence that makes the chip latch it.
 */
module GigabyteTrx40 {
  import opened Types

  const VendorId: U16 := 0x048d
  const ProductId: U16 := 0x8297

  /** Total length of the single buffer `ConfigBytes` returns. */
  const PacketLength: nat := 54

  /** `cc 28 ff` followed by 20 zeros: makes the chip latch the configuration. */
  const ApplySequence: Packet := [0xcc, 0x28, 0xff] + Zeros(20)

  // ---------------------------------------------------------------------
  // Reference decoders: what the chip reads back out of each field.
  // ---------------------------------------------------------------------

  /** The zone a 16-bit RGB Fusion address selects, if any. */
  function DecodeZone(address: U16): Option<Zone> {
    match address
    case 0x2001 => Some(Io)
    case 0x2102 => Some(Cpu)
    case 0x2308 => Some(Audio)
    case 0x2410 => Some(Chipset)
    case 0x2520 => Some(Header0)
    case 0x2640 => Some(Header1)
    case _ => None
  }

  /** The effect an RGB Fusion effect code selects, if any. */
  function DecodeEffect(code: Byte): Option<Effect> {
    match code
    case 0 => Some(Off)
    case 1 => Some(Static)
    case 2 => Some(Pulse)
    case 3 => Some(Flash)
    case 4 => Some(Cycle)
    case _ => None
  }

  /** The effects this chip can represent. */
  predicate SupportsEffect(e: Effect) {
    e.Off? || e.Static? || e.Pulse? || e.Flash? || e.Cycle?
  }

  /** `scaled` is `b` mapped linearly from 0..=255 onto 0..=90, rounded toward zero. */
  predicate ScaledBrightness(scaled: int, b: Brightness) {
    scaled * 255 <= 90 * b.level < (scaled + 1) * 255
  }

  /** The big-endian pair `hi, lo` counts the whole quarter seconds in `d`. */
  predicate QuarterSeconds(hi: Byte, lo: Byte, d: Duration) {
    var ticks := ValueOfBigEndian(hi, lo);
    ticks * 250 <= d.ms < (ticks + 1) * 250
  }

  /** The layout of the buffer, offset by offset, for configuration `c`. */
  predicate PacketLayout(p: Packet, c: Config) {
    && |p| == PacketLength
    && p[0] == 0xcc
    && DecodeZone(ValueOfBigEndian(p[1], p[2])) == Some(c.zone)
    && (forall i :: 3 <= i < 11 ==> p[i] == 0)
    && DecodeEffect(p[11]) == Some(c.effect)
    && ScaledBrightness(p[12], c.maxBrightness)
    && ScaledBrightness(p[13], c.minBrightness)
    && p[14] == c.color.b && p[15] == c.color.g && p[16] == c.color.r
    && (forall i :: 17 <= i < 22 ==> p[i] == 0)
    && QuarterSeconds(p[22], p[23], c.fadeIn)
    && QuarterSeconds(p[24], p[25], c.fadeOut)
    && QuarterSeconds(p[26], p[27], c.hold)
    && (forall i :: 28 <= i < 31 ==> p[i] == 0)
    && p[31..] == ApplySequence
  }

  // ---------------------------------------------------------------------
  // Field encoders.
  // ---------------------------------------------------------------------

  /** `zone_bytes`: the zone's 16-bit address; every zone has one. */
  function ZoneBytes(z: Zone): (r: U16)
    ensures DecodeZone(r) == Some(z)
  {
    match z
    case Io => 0x2001
    case Cpu => 0x2102
    case Audio => 0x2308
    case Chipset => 0x2410
    case Header0 => 0x2520
    case Header1 => 0x2640
  }

  /** `effect_bytes`: effect code, or an error for the effects the chip lacks. */
  function EffectBytes(e: Effect): (r: Result<Byte>)
    ensures r.Ok? <==> SupportsEffect(e)
    ensures r.Ok? ==> DecodeEffect(r.value) == Some(e) && r.value <= 4
    ensures r.Err? ==> r.error == UnsupportedEffect(e)
  {
    match e
    case Off => Ok(0)
    case Static => Ok(1)
    case Pulse => Ok(2)
    case Flash => Ok(3)
    case Cycle => Ok(4)
    case _ => Err(UnsupportedEffect(e))
  }

  /** `brightness_bytes`: one byte, `0x5a * b / 255` in u16 arithmetic, cast to u8. */
  function BrightnessBytes(b: Brightness): (r: Packet)
    ensures |r| == 1
    ensures ScaledBrightness(r[0], b)
    ensures r[0] <= 90
  {
    // The u16 product cannot overflow: 90 * 255 < 0x1_0000.
    var product: U16 := 0x5a * b.level;
    var quotient: U16 := product / 0xff;
    // `as u8` truncates; the quotient is at most 90, so nothing is lost.
    [quotient % 0x100]
  }

  /** `duration_bytes`: whole quarter seconds as a big-endian u16. */
  function DurationBytes(d: Duration): (r: Packet)
    ensures |r| == 2
    ensures QuarterSeconds(r[0], r[1], d)
    ensures ValueOfBigEndian(r[0], r[1]) <= 262
  {
    BigEndian16(d.ms / 250)
  }

  /** The buffer built field by field for a configuration whose effect code is `effect`. */
  function ConfigPacket(c: Config, effect: Byte): Packet {
    [0xcc]
    + BigEndian16(ZoneBytes(c.zone))
    + Zeros(8)
    + [effect]
    + BrightnessBytes(c.maxBrightness)
    + BrightnessBytes(c.minBrightness)
    + [c.color.b, c.color.g, c.color.r]
    + [0]
    + Zeros(3)          // secondary colour, never populated
    + [0]
    + DurationBytes(c.fadeIn)
    + DurationBytes(c.fadeOut)
    + DurationBytes(c.hold)
    + Zeros(3)          // padding to the minimum report size
    + ApplySequence
  }

  /** `config_bytes`: one buffer holding the configuration and the apply
      sequence, or an error when the effect is not representable. */
  function ConfigBytes(c: Config): (r: Result<seq<Packet>>)
    ensures r.Ok? <==> SupportsEffect(c.effect)
    ensures r.Err? ==> r.error == UnsupportedEffect(c.effect)
    ensures r.Ok? ==> |r.value| == 1 && PacketLayout(r.value[0], c)
  {
    var effect :- EffectBytes(c.effect);
    ConfigPacketLayout(c, effect);
    Ok([ConfigPacket(c, effect)])
  }

  // ---------------------------------------------------------------------
  // Lemmas.
  // ---------------------------------------------------------------------

  /** The concatenated buffer puts every field at its offset. */
  lemma ConfigPacketLayout(c: Config, effect: Byte)
    requires DecodeEffect(effect) == Some(c.effect)
    ensures PacketLayout(ConfigPacket(c, effect), c)
  {
    var zone := BigEndian16(ZoneBytes(c.zone));
    var maxB := BrightnessBytes(c.maxBrightness);
    var minB := BrightnessBytes(c.minBrightness);
    var fadeIn := DurationBytes(c.fadeIn);
    var fadeOut := DurationBytes(c.fadeOut);
    var hold := DurationBytes(c.hold);
    var header := [0xcc] + zone + Zeros(8);
    assert header == [0xcc, zone[0], zone[1], 0, 0, 0, 0, 0, 0, 0, 0];
    var settings := [effect] + maxB + minB + [c.color.b, c.color.g, c.color.r];
    assert settings == [effect, maxB[0], minB[0], c.color.b, c.color.g, c.color.r];
    var reserved := [0] + Zeros(3) + [0];
    assert reserved == [0, 0, 0, 0, 0];
    var timings := fadeIn + fadeOut + hold;
    assert timings == [fadeIn[0], fadeIn[1], fadeOut[0], fadeOut[1], hold[0], hold[1]];
    var head := header + settings + reserved + timings + Zeros(3);
    assert ConfigPacket(c, effect) == head + ApplySequence;
    assert |head| == 31;
    assert forall i :: 0 <= i < 11 ==> head[i] == header[i];
    assert forall i :: 11 <= i < 17 ==> head[i] == settings[i - 11];
    assert forall i :: 17 <= i < 22 ==> head[i] == reserved[i - 17];
    assert forall i :: 22 <= i < 28 ==> head[i] == timings[i - 22];
    assert forall i :: 28 <= i < 31 ==> head[i] == 0;
  }

  /** Every zone has an address and every valid address names exactly one zone. */
  lemma ZoneAddressBijective(z: Zone, address: U16)
    ensures DecodeZone(address) == Some(z) <==> ZoneBytes(z) == address
  {
  }

  /** Distinct zones are sent to distinct addresses. */
  lemma ZoneBytesInjective(z: Zone, w: Zone)
    ensures ZoneBytes(z) == ZoneBytes(w) ==> z == w
  {
    assert DecodeZone(ZoneBytes(z)) == Some(z);
  }

  /** The effect code table read in both directions. */
  lemma EffectCodeBijective(e: Effect, code: Byte)
    ensures EffectBytes(e) == Ok(code) <==> DecodeEffect(code) == Some(e)
  {
  }

  /** Scaling never leaves 0..=90 and hits both ends. */
  lemma BrightnessEndpoints()
    ensures BrightnessBytes(Brightness(0)) == [0]
    ensures BrightnessBytes(Brightness(255)) == [90]
  {
  }

  /** A brighter input never encodes to a dimmer byte. */
  lemma BrightnessMonotone(a: Brightness, b: Brightness)
    requires a.level <= b.level
    ensures BrightnessBytes(a)[0] <= BrightnessBytes(b)[0]
  {
  }

  /** Anything shorter than a quarter second encodes as zero ticks. */
  lemma DurationBelowOneTick(d: Duration)
    requires d.ms < 250
    ensures DurationBytes(d) == [0, 0]
  {
  }

  /** The trailing 23 bytes are `cc 28 ff` and 20 zeros whatever the
      configuration: any two encodable configurations end alike. */
  lemma ApplySequenceConstant(c: Config, d: Config)
    requires SupportsEffect(c.effect) && SupportsEffect(d.effect)
    ensures ConfigBytes(c).value[0][31..] == ConfigBytes(d).value[0][31..]
    ensures ConfigBytes(c).value[0][31..34] == [0xcc, 0x28, 0xff]
  {
  }

  /** The packet pins the discrete fields: configurations with equal packets
      agree on zone, effect and colour. */
  lemma PacketDeterminesFields(c: Config, d: Config)
    requires SupportsEffect(c.effect) && SupportsEffect(d.effect)
    ensures ConfigBytes(c) == ConfigBytes(d) ==> c.zone == d.zone && c.effect == d.effect && c.color == d.color
  {
    if ConfigBytes(c) == ConfigBytes(d) {
      var p := ConfigBytes(c).value[0];
      assert DecodeZone(ValueOfBigEndian(p[1], p[2])) == Some(c.zone);
      assert DecodeEffect(p[11]) == Some(c.effect);
    }
  }
}
