/**
  The words that name a device, zone or effect on the command line.

  Two spellings meet here. The reapply command prints each value with its
  `Debug` form, the variant name as written in the enumeration (`ChaseFade`).
  The command line reads the value back through clap's `ValueEnum` parser,
  which accepts the variant name in kebab case (`chase-fade`), compared
  ignoring ASCII case because every enumerated option sets `ignore_case`.
 */
module CliValues {
  import opened Types
  import RgbText

  // ---------------------------------------------------------------------
  // `{:?}`: the variant names.
  // ---------------------------------------------------------------------

  function DeviceName(d: RgbDevice): string {
    match d
    case X670EF => "X670EF"
    case Trx40 => "Trx40"
  }

  function ZoneName(z: Zone): string {
    match z
    case Io => "Io"
    case Cpu => "Cpu"
    case Audio => "Audio"
    case Chipset => "Chipset"
    case Header0 => "Header0"
    case Header1 => "Header1"
  }

  function EffectName(e: Effect): string {
    match e
    case Off => "Off"
    case Static => "Static"
    case Pulse => "Pulse"
    case Flash => "Flash"
    case Cycle => "Cycle"
    case Rainbow => "Rainbow"
    case ChaseFade => "ChaseFade"
    case Chase => "Chase"
  }

  // ---------------------------------------------------------------------
  // `ValueEnum`: the accepted values, in declaration order.
  // ---------------------------------------------------------------------

  const Devices: seq<RgbDevice> := [X670EF, Trx40]
  const Zones: seq<Zone> := [Io, Cpu, Audio, Chipset, Header0, Header1]
  const Effects: seq<Effect> := [Off, Static, Pulse, Flash, Cycle, Rainbow, ChaseFade, Chase]

  function DeviceValue(d: RgbDevice): string {
    match d
    case X670EF => "x670ef"
    case Trx40 => "trx40"
  }

  function ZoneValue(z: Zone): string {
    match z
    case Io => "io"
    case Cpu => "cpu"
    case Audio => "audio"
    case Chipset => "chipset"
    case Header0 => "header0"
    case Header1 => "header1"
  }

  function EffectValue(e: Effect): string {
    match e
    case Off => "off"
    case Static => "static"
    case Pulse => "pulse"
    case Flash => "flash"
    case Cycle => "cycle"
    case Rainbow => "rainbow"
    case ChaseFade => "chase-fade"
    case Chase => "chase"
  }

  /** `eq_ignore_ascii_case`. */
  predicate SameIgnoringCase(a: string, b: string) {
    RgbText.ToLowerString(a) == RgbText.ToLowerString(b)
  }

  /** No ASCII capital letters. */
  predicate IsLowerCase(s: string) {
    forall i :: 0 <= i < |s| ==> !('A' <= s[i] <= 'Z')
  }

  /** The first variant whose value matches `s` ignoring case, as the parser
      scans the possible values; `None` when no value matches. */
  function Lookup<T>(s: string, variants: seq<T>, value: T -> string): (r: Option<T>)
    ensures r.Some? ==> r.value in variants && SameIgnoringCase(s, value(r.value))
    ensures r.None? ==> forall i :: 0 <= i < |variants| ==> !SameIgnoringCase(s, value(variants[i]))
  {
    if variants == [] then None
    else if SameIgnoringCase(s, value(variants[0])) then Some(variants[0])
    else Lookup(s, variants[1..], value)
  }

  function ParseDevice(s: string): Option<RgbDevice> {
    Lookup(s, Devices, DeviceValue)
  }

  function ParseZone(s: string): Option<Zone> {
    Lookup(s, Zones, ZoneValue)
  }

  function ParseEffect(s: string): Option<Effect> {
    Lookup(s, Effects, EffectValue)
  }

  // ---------------------------------------------------------------------
  // Lemmas.
  // ---------------------------------------------------------------------

  lemma LowerCaseFixed(s: string)
    requires IsLowerCase(s)
    ensures RgbText.ToLowerString(s) == s
  {
  }

  /** The parser returns `x` when `x` is listed and is the only listed
      variant whose value matches. */
  lemma LookupFinds<T>(s: string, variants: seq<T>, value: T -> string, x: T)
    requires x in variants && SameIgnoringCase(s, value(x))
    requires forall y :: y in variants && SameIgnoringCase(s, value(y)) ==> y == x
    ensures Lookup(s, variants, value) == Some(x)
  {
    var i :| 0 <= i < |variants| && variants[i] == x;
    assert SameIgnoringCase(s, value(variants[i]));
  }

  /** Two accepted values that match ignoring case are the same value. */
  lemma SameLowerCase(a: string, b: string)
    requires IsLowerCase(a) && IsLowerCase(b)
    ensures SameIgnoringCase(a, b) <==> a == b
  {
    LowerCaseFixed(a);
    LowerCaseFixed(b);
  }

  /** Every device, zone and effect is listed among the possible values. */
  lemma AllListed(d: RgbDevice, z: Zone, e: Effect)
    ensures d in Devices && z in Zones && e in Effects
  {
  }

  /** With distinct lower-case values, a listed variant's value, in any
      letter case, reads back as that variant. */
  lemma LookupRoundTrip<T>(s: string, variants: seq<T>, value: T -> string, x: T)
    requires forall a :: IsLowerCase(value(a))
    requires forall a, b :: value(a) == value(b) ==> a == b
    requires x in variants && SameIgnoringCase(s, value(x))
    ensures Lookup(s, variants, value) == Some(x)
  {
    forall y | y in variants && SameIgnoringCase(s, value(y))
      ensures y == x
    {
      SameLowerCase(value(y), value(x));
    }
    LookupFinds(s, variants, value, x);
  }

  lemma EffectValuesDistinct()
    ensures forall a :: IsLowerCase(EffectValue(a))
    ensures forall a, b :: EffectValue(a) == EffectValue(b) ==> a == b
  {
    forall a, b | EffectValue(a) == EffectValue(b)
      ensures a == b
    {
      assert EffectValue(a)[..2] == EffectValue(b)[..2] && |EffectValue(a)| == |EffectValue(b)|;
    }
  }

  lemma ZoneValuesDistinct()
    ensures forall a :: IsLowerCase(ZoneValue(a))
    ensures forall a, b :: ZoneValue(a) == ZoneValue(b) ==> a == b
  {
    forall a, b | ZoneValue(a) == ZoneValue(b)
      ensures a == b
    {
      assert ZoneValue(a)[..1] == ZoneValue(b)[..1] && |ZoneValue(a)| == |ZoneValue(b)|;
      assert ZoneValue(a)[|ZoneValue(a)| - 1] == ZoneValue(b)[|ZoneValue(b)| - 1];
    }
  }

  lemma DeviceValuesDistinct()
    ensures forall a :: IsLowerCase(DeviceValue(a))
    ensures forall a, b :: DeviceValue(a) == DeviceValue(b) ==> a == b
  {
    forall a, b | DeviceValue(a) == DeviceValue(b)
      ensures a == b
    {
      assert |DeviceValue(a)| == |DeviceValue(b)|;
    }
  }

  /** Every effect's value reads back as that effect, in any letter case. */
  lemma EffectValueRoundTrip(e: Effect, s: string)
    requires SameIgnoringCase(s, EffectValue(e))
    ensures ParseEffect(s) == Some(e)
  {
    AllListed(X670EF, Io, e);
    EffectValuesDistinct();
    LookupRoundTrip(s, Effects, EffectValue, e);
  }

  lemma ZoneValueRoundTrip(z: Zone, s: string)
    requires SameIgnoringCase(s, ZoneValue(z))
    ensures ParseZone(s) == Some(z)
  {
    AllListed(X670EF, z, Off);
    ZoneValuesDistinct();
    LookupRoundTrip(s, Zones, ZoneValue, z);
  }

  lemma DeviceValueRoundTrip(d: RgbDevice, s: string)
    requires SameIgnoringCase(s, DeviceValue(d))
    ensures ParseDevice(s) == Some(d)
  {
    AllListed(d, Io, Off);
    DeviceValuesDistinct();
    LookupRoundTrip(s, Devices, DeviceValue, d);
  }

  /** The printed device and zone words read back as what was printed. */
  lemma DebugNamesAccepted(d: RgbDevice, z: Zone)
    ensures ParseDevice(DeviceName(d)) == Some(d)
    ensures ParseZone(ZoneName(z)) == Some(z)
  {
    assert SameIgnoringCase(DeviceName(d), DeviceValue(d));
    DeviceValueRoundTrip(d, DeviceName(d));
    assert SameIgnoringCase(ZoneName(z), ZoneValue(z));
    ZoneValueRoundTrip(z, ZoneName(z));
  }

  /** The `{:?}` form of an effect is its accepted spelling up to letter case,
      except for `ChaseFade`, whose accepted spelling has a hyphen. */
  lemma EffectNameMatchesValue(e: Effect)
    ensures SameIgnoringCase(EffectName(e), EffectValue(e)) <==> e != ChaseFade
  {
    if e == ChaseFade {
      assert |EffectName(e)| != |EffectValue(e)|;
    } else {
      assert RgbText.ToLowerString(EffectName(e)) == EffectValue(e);
    }
  }

  /** The printed effect word reads back for every effect except `ChaseFade`,
      whose `Debug` form lacks the hyphen of its accepted value. */
  lemma DebugEffectNameAccepted(e: Effect)
    ensures ParseEffect(EffectName(e)) == Some(e) <==> e != ChaseFade
    ensures ParseEffect(EffectName(ChaseFade)) == None
  {
    if e != ChaseFade {
      EffectNameMatchesValue(e);
      EffectValueRoundTrip(e, EffectName(e));
    }
    var lower := RgbText.ToLowerString(EffectName(ChaseFade));
    forall i | 0 <= i < |Effects|
      ensures !SameIgnoringCase(EffectName(ChaseFade), EffectValue(Effects[i]))
    {
      LowerCaseFixed(EffectValue(Effects[i]));
      assert |lower| != |EffectValue(Effects[i])|;
    }
  }
}
