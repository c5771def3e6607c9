/**
  Encoder for the ASUS ROG Strix X670E-F (Aura protocol).

  One configuration becomes three packets written in order: the effect
  packet, the colour packet and the commit packet. The chip has no
  brightness or timing fields, so those parts of the configuration are
  ignored.
 */
module AsusX670EF {
  import opened Types

  const VendorId: U16 := 0x0B05
  const ProductId: U16 := 0x19AF

  /** LED groups of the I/O zone (three on-board groups). */
  const IoMask: bv8 := 0x04 | 0x02 | 0x01
  /** LED group fed by the CPU header. */
  const CpuMask: bv8 := 0x20
  /** LED group fed by the GPU header. */
  const GpuMask: bv8 := 0x40

  /** Persists the just-applied settings across power cycles. */
  const CommitPacket: Packet := [0xec, 0x3f, 0x55]

  // ---------------------------------------------------------------------
  // Reference decoders.
  // ---------------------------------------------------------------------

  /** The effect an Aura effect code selects, if any. */
  function DecodeEffect(code: Byte): Option<Effect> {
    match code
    case 0 => Some(Off)
    case 1 => Some(Static)
    case 2 => Some(Pulse)
    case 3 => Some(Flash)
    case 4 => Some(Cycle)
    case 5 => Some(Rainbow)
    case 7 => Some(ChaseFade)
    case 9 => Some(Chase)
    case _ => None
  }

  /** The zone an Aura zone index selects, if any. */
  function DecodeZone(code: Byte): Option<Zone> {
    match code
    case 0 => Some(Io)
    case 1 => Some(Header0)
    case _ => None
  }

  /** The zones this chip can address. */
  predicate SupportsZone(z: Zone) {
    z.Io? || z.Header0?
  }

  /** The LED groups a colour packet can address: three on the board, and
      the groups fed by the CPU and GPU headers. */
  datatype LedGroup = Board0 | Board1 | Board2 | CpuHeader | GpuHeader

  /** The mask bit of each group. */
  function GroupBit(g: LedGroup): bv8 {
    match g
    case Board0 => 0x01
    case Board1 => 0x02
    case Board2 => 0x04
    case CpuHeader => 0x20
    case GpuHeader => 0x40
  }

  /** Whether the bit pattern `bits` sends the colour to group `g`. */
  predicate SelectsBits(bits: bv8, g: LedGroup) {
    bits & GroupBit(g) != 0
  }

  /** `bits` sets no bit outside the five group bits. */
  predicate NoStrayBits(bits: bv8) {
    bits & !(0x01 | 0x02 | 0x04 | 0x20 | 0x40) == 0
  }

  /** Whether `mask` sends the colour to group `g`. */
  predicate Selects(mask: Byte, g: LedGroup) {
    SelectsBits(mask as bv8, g)
  }

  /** `mask` sets no bit outside the five group bits. */
  predicate OnlyGroupBits(mask: Byte) {
    NoStrayBits(mask as bv8)
  }

  /** The groups a zone stands for: the I/O zone is the three on-board
      groups, header 0 is the CPU and GPU header groups. */
  function ZoneGroups(z: Zone): set<LedGroup> {
    match z
    case Io => {Board0, Board1, Board2}
    case Header0 => {CpuHeader, GpuHeader}
    case _ => {}
  }

  /** The colour channel at position `k` of a repeated R,G,B run. */
  function ChannelAt(color: Rgb, k: int): Byte {
    if k == 0 then color.r else if k == 1 then color.g else color.b
  }

  /** One colour in the chip's channel order. */
  function RgbTriple(color: Rgb): Packet {
    [color.r, color.g, color.b]
  }

  /** The effect packet for configuration `c`. */
  predicate EffectPacketLayout(p: Packet, c: Config) {
    && |p| == 6
    && p[0] == 0xec && p[1] == 0x35
    && DecodeZone(p[2]) == Some(c.zone)
    && p[3] == 0 && p[4] == 0
    && DecodeEffect(p[5]) == Some(c.effect)
  }

  /** The colour packet for `color` sent to `zone`, offset by offset. */
  predicate ColorPacketLayout(p: Packet, zone: Zone, color: Rgb) {
    && |p| == 26
    && p[0] == 0xec && p[1] == 0x36 && p[2] == 0
    && OnlyGroupBits(p[3]) && (forall g :: Selects(p[3], g) <==> g in ZoneGroups(zone))
    && p[4] == 0
    && (forall i :: 5 <= i < 14 ==> p[i] == ChannelAt(color, (i - 5) % 3))
    && (forall i :: 14 <= i < 20 ==> p[i] == 0)
    && p[20..23] == RgbTriple(color)
    && p[23..26] == RgbTriple(color)
  }

  // ---------------------------------------------------------------------
  // Field encoders.
  // ---------------------------------------------------------------------

  /** `effect_bytes`: every effect has an Aura code. */
  function EffectBytes(e: Effect): (r: Byte)
    ensures DecodeEffect(r) == Some(e)
  {
    match e
    case Off => 0
    case Static => 1
    case Pulse => 2
    case Flash => 3
    case Cycle => 4
    case Rainbow => 5
    case ChaseFade => 7
    case Chase => 9
  }

  /** `zone_bytes`: the zone index, only for the I/O zone and header 0. */
  function ZoneBytes(z: Zone): (r: Result<Byte>)
    ensures r.Ok? <==> SupportsZone(z)
    ensures r.Ok? ==> DecodeZone(r.value) == Some(z)
    ensures r.Err? ==> r.error == UnsupportedZone(z)
  {
    match z
    case Io => Ok(0x00)
    case Header0 => Ok(0x01)
    case _ => Err(UnsupportedZone(z))
  }

  /** `zone_mask`: which LED groups take the colour. The mask selects exactly
      the zone's groups and sets no other bit. */
  function ZoneMask(z: Zone): (r: Result<Byte>)
    ensures r.Ok? <==> SupportsZone(z)
    ensures r.Ok? ==> OnlyGroupBits(r.value)
    ensures r.Ok? ==> forall g :: Selects(r.value, g) <==> g in ZoneGroups(z)
    ensures r.Err? ==> r.error == UnsupportedZone(z)
  {
    match z
    case Io => Ok(IoMask as int)
    case Header0 => Ok((CpuMask | GpuMask) as int)
    case _ => Err(UnsupportedZone(z))
  }

  /** `n` copies of the colour in R,G,B order (the loop over the on-board groups). */
  function Broadcast(color: Rgb, n: nat): (r: Packet)
    ensures |r| == 3 * n
    ensures forall i :: 0 <= i < |r| ==> r[i] == ChannelAt(color, i % 3)
  {
    if n == 0 then [] else Broadcast(color, n - 1) + RgbTriple(color)
  }

  /** `color_bytes`: header with the zone's mask, the colour for the three
      on-board groups, six bytes of padding, then the CPU and GPU slots. */
  function ColorBytes(zone: Zone, color: Rgb): (r: Result<Packet>)
    ensures r.Ok? <==> SupportsZone(zone)
    ensures r.Err? ==> r.error == UnsupportedZone(zone)
    ensures r.Ok? ==> ColorPacketLayout(r.value, zone, color)
  {
    var mask :- ZoneMask(zone);
    var header: Packet := [0xec, 0x36, 0x00, mask, 0x00];
    var board := Broadcast(color, 3);
    var p := header + board + Zeros(6) + RgbTriple(color) + RgbTriple(color);
    assert forall i :: 5 <= i < 14 ==> p[i] == board[i - 5];
    Ok(p)
  }

  /** `config_bytes`: effect, colour and commit packets, or an error when the
      zone is not addressable. The effect code is always available. */
  function ConfigBytes(c: Config): (r: Result<seq<Packet>>)
    ensures r.Ok? <==> SupportsZone(c.zone)
    ensures r.Err? ==> r.error == UnsupportedZone(c.zone)
    ensures r.Ok? ==> && |r.value| == 3
                      && EffectPacketLayout(r.value[0], c)
                      && ColorPacketLayout(r.value[1], c.zone, c.color)
                      && r.value[2] == CommitPacket
  {
    var effect := EffectBytes(c.effect);
    var zone :- ZoneBytes(c.zone);
    var effectPacket: Packet := [0xec, 0x35, zone, 0x00, 0x00, effect];
    // `color_bytes` checks the zone again; that second check cannot fail here.
    match ColorBytes(c.zone, c.color)
    case Ok(colorPacket) => Ok([effectPacket, colorPacket, CommitPacket])
    case Err(e) => Err(e)
  }

  // ---------------------------------------------------------------------
  // Lemmas.
  // ---------------------------------------------------------------------

  /** The effect table read in both directions: total, and injective since
      each code decodes to one effect. */
  lemma EffectCodeBijective(e: Effect, code: Byte)
    ensures EffectBytes(e) == code <==> DecodeEffect(code) == Some(e)
  {
  }

  /** The zone table read in both directions. */
  lemma ZoneCodeBijective(z: Zone, code: Byte)
    ensures ZoneBytes(z) == Ok(code) <==> DecodeZone(code) == Some(z)
  {
  }

  /** The I/O mask and the header mask select disjoint LED groups. */
  lemma MasksDisjoint()
    ensures IoMask & (CpuMask | GpuMask) == 0
    ensures IoMask != 0 && CpuMask | GpuMask != 0
  {
  }

  /** A mask with no stray bits is fixed by the groups it selects, so the
      contract of `ZoneMask` pins its bit pattern. */
  lemma MaskDeterminedByGroups(a: bv8, b: bv8)
    requires NoStrayBits(a) && NoStrayBits(b)
    requires forall g :: SelectsBits(a, g) <==> SelectsBits(b, g)
    ensures a == b
  {
    assert (a & 0x01 != 0) == (b & 0x01 != 0) by { assert SelectsBits(a, Board0) <==> SelectsBits(b, Board0); }
    assert (a & 0x02 != 0) == (b & 0x02 != 0) by { assert SelectsBits(a, Board1) <==> SelectsBits(b, Board1); }
    assert (a & 0x04 != 0) == (b & 0x04 != 0) by { assert SelectsBits(a, Board2) <==> SelectsBits(b, Board2); }
    assert (a & 0x20 != 0) == (b & 0x20 != 0) by { assert SelectsBits(a, CpuHeader) <==> SelectsBits(b, CpuHeader); }
    assert (a & 0x40 != 0) == (b & 0x40 != 0) by { assert SelectsBits(a, GpuHeader) <==> SelectsBits(b, GpuHeader); }
    SameBits(a, b);
  }

  lemma SameBits(a: bv8, b: bv8)
    requires NoStrayBits(a) && NoStrayBits(b)
    requires (a & 0x01 != 0) == (b & 0x01 != 0) && (a & 0x02 != 0) == (b & 0x02 != 0)
    requires (a & 0x04 != 0) == (b & 0x04 != 0) && (a & 0x20 != 0) == (b & 0x20 != 0)
    requires (a & 0x40 != 0) == (b & 0x40 != 0)
    ensures a == b
  {
  }

  /** The colour packet carries the colour in R,G,B order in all five slots:
      the three on-board groups at 5, 8 and 11, the CPU slot at 20 and the
      GPU slot at 23. */
  lemma ColorInEverySlot(zone: Zone, color: Rgb, k: nat)
    requires SupportsZone(zone)
    requires k < 5
    ensures var p := ColorBytes(zone, color).value;
            var offset := if k < 3 then 5 + 3 * k else 20 + 3 * (k - 3);
            p[offset..offset + 3] == RgbTriple(color)
  {
    var p := ColorBytes(zone, color).value;
    assert ColorPacketLayout(p, zone, color);
    SlotsHoldColor(p, color, k);
  }

  lemma SlotsHoldColor(p: Packet, color: Rgb, k: nat)
    requires |p| == 26 && k < 5
    requires forall i :: 5 <= i < 14 ==> p[i] == ChannelAt(color, (i - 5) % 3)
    requires p[20..23] == RgbTriple(color) && p[23..26] == RgbTriple(color)
    ensures var offset := if k < 3 then 5 + 3 * k else 20 + 3 * (k - 3);
            p[offset..offset + 3] == RgbTriple(color)
  {
    if k < 3 {
      var offset := 5 + 3 * k;
      assert (offset - 5) % 3 == 0 && (offset + 1 - 5) % 3 == 1 && (offset + 2 - 5) % 3 == 2;
      assert p[offset..offset + 3] == [p[offset], p[offset + 1], p[offset + 2]];
    }
  }

  /** Brightness and durations never reach the wire: configurations that agree
      on zone, effect and colour encode to the same packets. */
  lemma IgnoresBrightnessAndDurations(c: Config, d: Config)
    requires c.zone == d.zone && c.effect == d.effect && c.color == d.color
    ensures ConfigBytes(c) == ConfigBytes(d)
  {
  }

  /** The packets pin the request: equal packets mean equal zone, effect and colour. */
  lemma PacketsDetermineRequest(c: Config, d: Config)
    requires SupportsZone(c.zone) && SupportsZone(d.zone)
    requires ConfigBytes(c) == ConfigBytes(d)
    ensures c.zone == d.zone && c.effect == d.effect && c.color == d.color
  {
    var ps := ConfigBytes(c).value;
    assert DecodeZone(ps[0][2]) == Some(c.zone);
    assert DecodeEffect(ps[0][5]) == Some(c.effect);
    assert ps[1][20..23] == RgbTriple(c.color);
  }
}
