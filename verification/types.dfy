/**
  Value types shared by every encoder: the closed enumerations for zones,
  effects and devices, the colour triple, brightness and duration, the
  aggregate configuration, byte packets and the encoders' error type.
 */
module Types {

  /** An unsigned 8-bit value (Rust `u8`). */
  type Byte = x: int | 0 <= x < 0x100

  /** An unsigned 16-bit value (Rust `u16`). */
  type U16 = x: int | 0 <= x < 0x1_0000

  /** One buffer handed to the HID endpoint in a single write. */
  type Packet = seq<Byte>

  /** Physical LED group of the motherboard. */
  datatype Zone = Io | Cpu | Audio | Chipset | Header0 | Header1

  /** Hardware-driven lighting animation. */
  datatype Effect = Off | Static | Pulse | Flash | Cycle | Rainbow | ChaseFade | Chase

  /** The boards an encoder exists for. */
  datatype RgbDevice = X670EF | Trx40

  /** Raw 8-bit colour channels, no alpha and no gamma. */
  datatype Rgb = Rgb(r: Byte, g: Byte, b: Byte)

  /** Intended intensity in the abstract range 0..=255. */
  datatype Brightness = Brightness(level: Byte)

  /** A time span in milliseconds. */
  datatype Duration = Duration(ms: U16)

  /** A complete lighting request for one zone of one device. */
  datatype Config = Config(
    device: RgbDevice,
    zone: Zone,
    effect: Effect,
    maxBrightness: Brightness,
    minBrightness: Brightness,
    color: Rgb,
    fadeIn: Duration,
    fadeOut: Duration,
    hold: Duration)

  /** An optional value (decoders and parsers). */
  datatype Option<+T> = None | Some(value: T) {

    predicate IsFailure() {
      None?
    }

    function PropagateFailure<U>(): Option<U>
      requires None?
    {
      None
    }

    function Extract(): T
      requires Some?
    {
      value
    }
  }

  /** Why an encoder refused a configuration. */
  datatype Error = UnsupportedEffect(effect: Effect) | UnsupportedZone(zone: Zone)

  /** Either a value or the reason the encoder could not produce one. */
  datatype Result<+T> = Ok(value: T) | Err(error: Error) {

    predicate IsFailure() {
      Err?
    }

    function PropagateFailure<U>(): Result<U>
      requires Err?
    {
      Err(error)
    }

    function Extract(): T
      requires Ok?
    {
      value
    }
  }

  // Default values of the Rust `Default` implementations.

  const DefaultDevice: RgbDevice := X670EF
  const DefaultZone: Zone := Io
  const DefaultEffect: Effect := Static
  /** `Brightness::max_value()`, the default maximum brightness. */
  const MaxBrightness: Brightness := Brightness(0xff)
  /** `Brightness::default()`, the default minimum brightness. */
  const DefaultBrightness: Brightness := Brightness(0)
  /** `Duration::default()`: 100 ms. */
  const DefaultDuration: Duration := Duration(100)
  const DefaultColor: Rgb := Rgb(0, 0, 0)

  /** `Config::default()`. */
  const DefaultConfig: Config := Config(
    device := DefaultDevice,
    zone := DefaultZone,
    effect := DefaultEffect,
    maxBrightness := MaxBrightness,
    minBrightness := DefaultBrightness,
    color := DefaultColor,
    fadeIn := DefaultDuration,
    fadeOut := DefaultDuration,
    hold := DefaultDuration)

  /** The value of a big-endian byte pair. */
  function ValueOfBigEndian(hi: Byte, lo: Byte): U16 {
    hi * 0x100 + lo
  }

  /** `BufMut::put_u16`: the two bytes of `v`, most significant first. */
  function BigEndian16(v: U16): (r: Packet)
    ensures |r| == 2
    ensures ValueOfBigEndian(r[0], r[1]) == v
  {
    [v / 0x100, v % 0x100]
  }

  /** A run of `n` zero bytes (`put_slice(&[0; n])`). */
  function Zeros(n: nat): (r: Packet)
    ensures |r| == n
    ensures forall i :: 0 <= i < n ==> r[i] == 0
  {
    seq(n, _ => 0)
  }

  /** Decoding the two bytes `BigEndian16` writes gives back the value, and
      only that value encodes to those bytes. */
  lemma BigEndian16Injective(v: U16, w: U16)
    ensures BigEndian16(v) == BigEndian16(w) <==> v == w
  {
    if BigEndian16(v) == BigEndian16(w) {
      assert ValueOfBigEndian(BigEndian16(v)[0], BigEndian16(v)[1]) == w;
    }
  }
}
