# rgbfusion packet encoders in Dafny

A model of the core of `rgbfusion`, a command-line tool that sets the
motherboard LEDs of two boards over HID:

- **Gigabyte TRX40 Aorus Master** (RGB Fusion 2 protocol), module `GigabyteTrx40`.
  A configuration becomes one 54-byte buffer. The buffer holds a 31-byte
  configuration report and then the 23-byte apply sequence `cc 28 ff` plus
  twenty zeros.
- **ASUS ROG Strix X670E-F** (Aura protocol), module `AsusX670EF`.
  A configuration becomes three packets: effect, colour and commit.
  Brightness and durations do not reach the wire.

Around the encoders sit these modules:

- `Types`: the shared value types and `Config::default()`.
- `RgbText`: the `0xRRGGBB` colour parser and printer.
- `Controller`: the controller interface and the closed dispatch from device to controller. It also holds `write_config`, which opens the device, encodes, then writes the packets in order and stops at the first failed write.
- `ConfigText`: `Display for Config`, the command line printed so that a configuration can be reapplied.
- `CliValues`: the spellings of devices, zones and effects on that command line.

The zone and effect codes have reference decoders next to them: the zone
an address or index selects, and the effect a code selects. Those tables
are proved bijective. The ASUS zone mask has no decoder. It is described
by the LED groups it selects: the three on-board groups, the CPU header
group and the GPU header group. A mask with no other bits set is fixed by
its groups. Each packet has a layout predicate stated offset by offset,
and the encoders are proved against these.

The colour text is proved in three ways:

- printing and then parsing gives back the colour;
- parsing and then printing gives back the text, lowercased;
- the parser accepts exactly one described set of texts.

For the printed command, the model proves these things:

- Which optional flags appear, and in which order.
- Replaying them on top of the defaults restores every field the effect uses.
- How the text reads back. `ConfigText.ReadCommand` is a reader for the
  printed text. It splits off the program name and the `--device`, `--zone` and
  `--effect` arguments, then the `--name value` flags. It maps each long
  name back to a flag through the table of options the command line declares.
  The printed text reads back as the configuration's device, zone, effect and
  flag list, in order, for every effect except `ChaseFade` (see Findings).

Representation:

- bytes are `Byte` (an `int` in 0..=255);
- 16-bit values are `U16`;
- packets are `seq<Byte>`;
- an encoder error is `UnsupportedEffect(e)` or `UnsupportedZone(z)`, without message text.

Facts of the code that the model keeps:

- The ASUS colour packet is 26 bytes: a 5-byte header, 9 colour bytes, 6 padding bytes, then 3 bytes for the CPU slot and 3 for the GPU slot.
- The ASUS effect codes are 0–5 and 7, and `Chase` is 9.
- The Gigabyte apply sequence is part of the same buffer as the configuration report, not a second packet.
- A failed write reports no packet index. The model returns the packets whose write was attempted, so the failing index is the last one of those.

## Model

| member | source | states |
|---|---|---|
| Types.BigEndian16 | src/gigabyte_trx40_aorus_master.rs:28 | `put_u16` writes two bytes that read back, most significant first, as the value |
| Types.BigEndian16Injective | src/gigabyte_trx40_aorus_master.rs:79 | distinct 16-bit values are written as distinct byte pairs, and equal values as equal pairs |
| GigabyteTrx40.ZoneBytes | src/gigabyte_trx40_aorus_master.rs:104-113 | every zone has an address, and that address decodes back to the zone |
| GigabyteTrx40.ZoneAddressBijective | src/gigabyte_trx40_aorus_master.rs:104-113 | a zone encodes to an address exactly when that address decodes to the zone |
| GigabyteTrx40.ZoneBytesInjective | src/gigabyte_trx40_aorus_master.rs:104-113 | distinct zones get distinct addresses |
| GigabyteTrx40.EffectBytes | src/gigabyte_trx40_aorus_master.rs:92-101 | the code exists exactly for Off, Static, Pulse, Flash and Cycle, decodes back to the effect and is at most 4; any other effect is an unsupported-effect error naming that effect |
| GigabyteTrx40.EffectCodeBijective | src/gigabyte_trx40_aorus_master.rs:92-101 | an effect encodes to a code exactly when that code decodes to the effect |
| GigabyteTrx40.BrightnessBytes | src/gigabyte_trx40_aorus_master.rs:84-89 | one byte holding the brightness scaled from 0..=255 onto 0..=90, rounded toward zero, never above 90; the u16 product cannot overflow |
| GigabyteTrx40.BrightnessEndpoints | src/gigabyte_trx40_aorus_master.rs:86-87 | brightness 0 scales to 0 and 255 scales to 90 |
| GigabyteTrx40.BrightnessMonotone | src/gigabyte_trx40_aorus_master.rs:87 | a brighter input never encodes to a smaller byte |
| GigabyteTrx40.DurationBytes | src/gigabyte_trx40_aorus_master.rs:74-82 | two big-endian bytes counting the whole quarter seconds in the duration, at most 262 |
| GigabyteTrx40.DurationBelowOneTick | src/gigabyte_trx40_aorus_master.rs:78-79 | any duration under 250 ms encodes as two zero bytes |
| GigabyteTrx40.ConfigPacketLayout | src/gigabyte_trx40_aorus_master.rs:22-68 | the field-by-field buffer puts every field at its offset: marker, zone address, zero runs, effect, both brightnesses, B,G,R colour, three durations, then the apply sequence |
| GigabyteTrx40.ConfigBytes | src/gigabyte_trx40_aorus_master.rs:21-71 | succeeds exactly when the effect is supported; on success one 54-byte buffer with the full layout; otherwise the unsupported-effect error and no packet |
| GigabyteTrx40.ApplySequenceConstant | src/gigabyte_trx40_aorus_master.rs:64-68 | the last 23 bytes are the same for every encodable configuration and begin `cc 28 ff` |
| GigabyteTrx40.PacketDeterminesFields | src/gigabyte_trx40_aorus_master.rs:21-71 | configurations with equal buffers agree on zone, effect and colour |
| AsusX670EF.EffectBytes | src/asus_strix_x670e_f.rs:42-54 | every effect has an Aura code, and the code decodes back to the effect |
| AsusX670EF.EffectCodeBijective | src/asus_strix_x670e_f.rs:43-54 | an effect encodes to a code exactly when that code decodes to the effect (codes 0-5, 7, 9) |
| AsusX670EF.ZoneBytes | src/asus_strix_x670e_f.rs:56-63 | succeeds exactly for Io and Header0, with an index that decodes back to the zone; any other zone is an unsupported-zone error naming it |
| AsusX670EF.ZoneCodeBijective | src/asus_strix_x670e_f.rs:57-63 | a zone encodes to an index exactly when that index decodes to the zone |
| AsusX670EF.ZoneMask | src/asus_strix_x670e_f.rs:65-72 | succeeds exactly for Io and Header0, otherwise the unsupported-zone error. The mask sets no bit outside the five group bits. For Io it selects exactly the three on-board groups (bits 0x01, 0x02, 0x04). For Header0 it selects exactly the CPU and GPU header groups (0x20, 0x40) |
| AsusX670EF.MaskDeterminedByGroups | src/asus_strix_x670e_f.rs:10-12 | two masks with no stray bits that select the same LED groups are the same bit pattern, so the contract of `ZoneMask` fixes the mask value |
| AsusX670EF.MasksDisjoint | src/asus_strix_x670e_f.rs:10-12 | the I/O mask and the CPU-or-GPU mask are non-zero and share no bit |
| AsusX670EF.Broadcast | src/asus_strix_x670e_f.rs:83-87 | n repetitions of the colour: length 3n, with R, G, B cycling at every position |
| AsusX670EF.ColorBytes | src/asus_strix_x670e_f.rs:74-103 | succeeds exactly for the supported zones; the 26-byte colour packet has header `ec 36 00 mask 00`, R,G,B three times, six zeros, then R,G,B for the CPU and for the GPU |
| AsusX670EF.ColorInEverySlot | src/asus_strix_x670e_f.rs:82-100 | each of the five slots, at offsets 5, 8, 11, 20 and 23, holds the colour in R,G,B order |
| AsusX670EF.ConfigBytes | src/asus_strix_x670e_f.rs:25-39 | succeeds exactly when the zone is supported; on success the effect packet, the colour packet and the commit packet `ec 3f 55`, in that order; otherwise the unsupported-zone error and no packet |
| AsusX670EF.IgnoresBrightnessAndDurations | src/asus_strix_x670e_f.rs:25-39 | configurations that agree on zone, effect and colour encode to the same packets |
| AsusX670EF.PacketsDetermineRequest | src/asus_strix_x670e_f.rs:26-38 | equal packets mean equal zone, effect and colour |
| RgbText.LowerHexDigit | src/main.rs:112 | `{:x}` of a value below 16 is a lowercase digit that reads back as the value |
| RgbText.AccumulateHex | src/main.rs:98 | the digit loop of `from_str_radix` never yields a value above `u32::MAX` |
| RgbText.AccumulateAllHex | src/main.rs:98 | on at most eight hex digits the digit loop cannot overflow and yields exactly their value |
| RgbText.AccumulateRejectsNonHex | src/main.rs:98 | the digit loop fails on any string that contains a non-digit |
| RgbText.AccumulateExact | src/main.rs:98 | the digit loop succeeds exactly on strings of hex digits whose value fits in a u32, and then yields that value |
| RgbText.FromStrRadix16 | src/main.rs:96 | `u32::from_str_radix(_, 16)` succeeds exactly when, after one optional leading `+`, the text is a non-empty string of hex digits whose value is at most `u32::MAX`; it then yields that value. So empty text, a lone sign and a leading `-` are rejected |
| RgbText.Utf8LenOfAscii | src/main.rs:90 | on ASCII text, the byte length `str::len` checks equals the character count |
| RgbText.ParseRgb | src/main.rs:86-108 | the parser accepts nothing that lacks the `0x` prefix or is not 8 bytes long |
| RgbText.ParseAcceptsExactly | src/main.rs:86-108 | a text parses exactly when it is `0x` then six hex digits of either case, or `0x+` then five |
| RgbText.ParseSixDigits | src/main.rs:96-103 | for `0x` and six hex digits, red is the value of digits 1-2, green of 3-4, blue of 5-6 |
| RgbText.PlusSignAccepted | src/main.rs:98 | `0x+12345` parses, to red 0x01, green 0x23, blue 0x45 |
| RgbText.Hex2 | src/main.rs:112 | `{:02x}`: two lowercase digits whose value is the byte |
| RgbText.ShowRgb | src/main.rs:110-114 | the printed colour is `0x` and six lowercase hex digits, 8 characters |
| RgbText.ParseShowRoundTrip | src/main.rs:86-114 | parsing the printed colour gives back the colour |
| RgbText.ShowParseRoundTrip | src/main.rs:86-114 | printing a parsed `0x` plus six digits gives back the text with its digits lowercased |
| Controller.HidController.ConfigBytes | src/controller.rs:9-19 | a result holds packets or an error, never both. Gigabyte: one 54-byte packet or the unsupported-effect error. ASUS: three packets or the unsupported-zone error. No packet is empty |
| Controller.HidController.VendorId | src/controller.rs:11-12 | the vendor id is 0x048d exactly for the Gigabyte controller (gigabyte_trx40_aorus_master.rs line 14) and 0x0B05 exactly for the ASUS one (asus_strix_x670e_f.rs line 18) |
| Controller.HidController.ProductId | src/controller.rs:14-15 | the product id is 0x8297 exactly for the Gigabyte controller (gigabyte_trx40_aorus_master.rs line 18) and 0x19AF exactly for the ASUS one (asus_strix_x670e_f.rs line 22) |
| Controller.ControllerFor | src/main.rs:70-75 | Trx40 maps to the Gigabyte controller and X670EF to the ASUS one, each exactly |
| Controller.DispatchSelectsEncoder | src/main.rs:68-76 | Trx40 is encoded by the Gigabyte encoder, X670EF by the ASUS encoder |
| Controller.DispatchIdsDistinct | src/main.rs:68-76 | two devices dispatch to the same HID id pair exactly when they are the same device |
| Controller.WriteConfig | src/main.rs:332-354 | covers every outcome. An unopenable device fails with nothing written. An encoding error fails with its error and nothing written. Otherwise the packets are written in order and every write before the last one attempted succeeded. It ends applied, with all packets written, or failed at the first write that failed |
| ConfigText.Decimal | src/main.rs:134-137 | `{}` of a number is a non-empty string of digits without a leading zero |
| ConfigText.DecimalRoundTrip | src/main.rs:126-137 | reading the printed number back gives the number |
| ConfigText.Flags | src/main.rs:243-274 | the optional flags are empty exactly when the effect is `Off`; otherwise the first one is `--color` with the printed colour |
| ConfigText.Render | src/main.rs:226-276 | the command starts with the program name and the device, zone and effect arguments, all in `{:?}` form; for `Off` nothing follows them |
| ConfigText.CorrectedRender | src/main.rs:226-276 | the command with the effect spelled as the command line accepts it; it starts with that header and, unless the effect is `ChaseFade`, equals the printed command up to letter case |
| ConfigText.LongNameDeclared | src/main.rs:371-400 | every long option name the printer writes is one the command line declares, for the same setting |
| ConfigText.FlagValuesAreWords | src/main.rs:245-272 | no printed flag value contains a space: colours are `0x` and hex digits, numbers are decimal digits |
| ConfigText.ReadRenderedFlags | src/main.rs:243-274 | the printed optional arguments read back as the same flag list, same kinds and values in the same order, whenever no value contains a space |
| ConfigText.ReadCommandOf | src/main.rs:226-276 | a printed command reads back as its device, zone and flags, and as whatever effect its effect word names |
| ConfigText.RenderReadsBack | src/main.rs:226-276 | the command as printed reads back as the configuration's device, zone, effect and flags for every effect except `ChaseFade`; for `ChaseFade` it is rejected |
| ConfigText.CorrectedRenderReadsBack | src/main.rs:226-276 | the corrected command reads back as the configuration's device, zone, effect and flags for every effect |
| ConfigText.RenderReapplies | src/main.rs:179-276 | running the command as printed restores every field the effect uses, except that a `ChaseFade` command is rejected |
| ConfigText.CorrectedRenderReapplies | src/main.rs:179-276 | running the corrected command restores every field the effect uses, for every configuration |
| ConfigText.FlagsPrinted | src/main.rs:243-274 | the optional flags printed are exactly those whose setting the effect uses and whose value differs from the default, in the order colour, max brightness, min brightness, fade-in, fade-out, hold, each at most once |
| ConfigText.FlagsForOffAndStatic | src/main.rs:243-256 | the colour is printed exactly when the effect is not `Off`; `Off` prints nothing after the effect; `Static` prints at most the colour and the maximum brightness |
| ConfigText.ApplyFlag | src/main.rs:424-428 | reading one flag changes at most the field that flag sets. A colour flag sets the colour to the parsed value, or leaves it when the text does not parse. A number flag changes its field only when its value is a non-empty string of digits |
| ConfigText.ApplyNumberFlag | src/main.rs:198-202 | reading a printed brightness or duration flag sets that field to the printed value |
| ConfigText.ReplayRestoresConfig | src/main.rs:179-276 | reading the printed flags on top of `Config::default()` restores every field the effect uses; the unused fields stay at their defaults |
| ConfigText.DefaultConfigPrintsColorOnly | src/main.rs:209-224 | `Config::default()` prints only `--color 0x000000` after the effect |
| CliValues.Lookup | src/main.rs:363-369 | the parser returns a listed variant whose value matches ignoring ASCII case, or nothing when no listed value matches |
| CliValues.EffectValueRoundTrip | src/main.rs:371-378 | the accepted spelling of every effect, in any letter case, reads back as that effect |
| CliValues.ZoneValueRoundTrip | src/main.rs:402-409 | the accepted spelling of every zone, in any letter case, reads back as that zone |
| CliValues.DeviceValueRoundTrip | src/main.rs:362-369 | the accepted spelling of every device, in any letter case, reads back as that device |
| CliValues.DebugNamesAccepted | src/main.rs:230-240 | the printed device and zone words read back as the printed device and zone |
| CliValues.EffectNameMatchesValue | src/main.rs:230-240 | the `{:?}` effect word matches the accepted spelling, ignoring case, exactly when the effect is not `ChaseFade` |
| CliValues.DebugEffectNameAccepted | src/main.rs:230-240 | the printed `{:?}` effect word reads back as that effect exactly when it is not `ChaseFade`; `ChaseFade` reads back as nothing |

## Left out

- HID I/O (`HidApi::new`, `api.open`, `device.write`): foreign code. `Controller.WriteConfig` takes a `Transport` parameter instead: the set of id pairs that open, and the outcome of each successive write. The `expect` panic of `HidApi::new` is not modelled.
- Command-line handling in general is left out as user-interface plumbing. This covers `cli`, the prompting in `required_enum` and `required_color`, and `stdin_nextline`. The parts that read the printed command back are kept: the enumerated values in `CliValues`, and `replace_from_str` as `ConfigText.ApplyFlag`.
- `ConfigText.ApplyFlag` reads numbers as plain decimal digits, which is all the printer emits. It does not cover the `+` sign or the other inputs that `u8::from_str`/`u16::from_str` also accept.
- `ConfigText.ApplyFlag` reads a colour flag whatever the effect, and an unparsable colour leaves the colour unchanged. `Config::from_cli` reads the colour only when the effect is not `Off` and prompts on standard input when it does not parse. The printed command never shows either case.
- `ConfigText.ReadCommand` reads the printed layout only: arguments separated by the printed line breaks, `--name value` pairs, values without spaces. It is not a model of shell word splitting or of every form clap accepts, such as `--name=value` or short options.
- The `interactive` field of `Config`: it only decides whether the command is printed.
- The `zonetest` and `rgbfusion` commands and the `TESTCOLORS` table: terminal I/O and confirmation prompts.
- Error message strings: errors carry the offending zone or effect, with no text.
- `crate_name!()` is the constant `"rgbfusion"`.
- The `bytes` crate: buffers are sequences, and `put_u16` is `Types.BigEndian16`.
- `Controller.WriteConfig` does not report the failing packet's index, because the code's error carries none. The index is the length of the returned `attempted` sequence minus one.
- `RgbText.ParseRgb` states only the necessary direction in its own contract. The full characterisation is `RgbText.ParseAcceptsExactly`.

## Findings

| source | as written | input that shows it | evidently intended | confidence | as-written member | corrected member |
|---|---|---|---|---|---|---|
| src/main.rs:230-240 | the reapply command prints the effect with `{:?}`, the variant name | a configuration whose effect is `ChaseFade` prints `--effect ChaseFade`. The parser accepts only `chase-fade` for it, ignoring case, so the command is rejected | the printed command reapplies the configuration, so the effect is printed in the spelling the parser accepts | medium, not executed; relies on clap's `ValueEnum` deriving kebab-case value names | ConfigText.RenderReapplies | ConfigText.CorrectedRenderReapplies |

`ConfigText.Render` prints the effect with `CliValues.EffectName`, as the code
does. `ConfigText.RenderReadsBack` and `ConfigText.RenderReapplies` prove that
this command is rejected exactly when the effect is `ChaseFade`.
`ConfigText.CorrectedRender` prints `CliValues.EffectValue` instead, and
`ConfigText.CorrectedRenderReapplies` proves that it reapplies every
configuration. `CliValues.EffectNameMatchesValue` proves the two spellings
agree, ignoring case, for every effect except `ChaseFade`.
