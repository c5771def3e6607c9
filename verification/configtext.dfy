/**
  `Display for Config`: the command line that reapplies a configuration.

  The device, zone and effect are always printed. Everything else is printed
  as an optional flag, and only when the effect uses it and its value differs
  from the default: nothing after the effect when it is `Off`, and nothing
  after the colour and maximum brightness when it is `Static`.
 */
module ConfigText {
  import opened Types
  import RgbText
  import CliValues

  /** The program name `crate_name!()` expands to at build time. */
  const CrateName: string := "rgbfusion"

  /** Line break between arguments: a backslash, then a newline. */
  const Continue: string := " \\\n"

  // ---------------------------------------------------------------------
  // `{}` of the integers.
  // ---------------------------------------------------------------------

  predicate IsDigit(ch: char) {
    '0' <= ch <= '9'
  }

  predicate AllDigits(s: string) {
    forall i :: 0 <= i < |s| ==> IsDigit(s[i])
  }

  /** The value of a string of decimal digits. */
  function DecimalValue(s: string): nat
    requires AllDigits(s)
  {
    if s == [] then 0 else DecimalValue(s[..|s| - 1]) * 10 + (s[|s| - 1] as int - '0' as int)
  }

  /** Decimal text of a number, without leading zeros. */
  function Decimal(n: nat): (s: string)
    ensures |s| >= 1 && AllDigits(s)
    ensures |s| > 1 ==> s[0] != '0'
  {
    var digit := ('0' as int + n % 10) as char;
    if n < 10 then [digit] else Decimal(n / 10) + [digit]
  }

  /** Reading the printed number back gives the number. */
  lemma {:induction false} DecimalRoundTrip(n: nat)
    ensures DecimalValue(Decimal(n)) == n
  {
    var s := Decimal(n);
    if n < 10 {
      assert s[..0] == [];
    } else {
      assert s[..|s| - 1] == Decimal(n / 10);
      DecimalRoundTrip(n / 10);
    }
  }

  // ---------------------------------------------------------------------
  // The printed command.
  // ---------------------------------------------------------------------

  /** The optional arguments, in the order they are printed. */
  datatype FlagKind = ColorFlag | MaxBrightnessFlag | MinBrightnessFlag | FadeInFlag | FadeOutFlag | HoldFlag

  /** The long option name of each flag. */
  function LongName(k: FlagKind): string {
    match k
    case ColorFlag => "color"
    case MaxBrightnessFlag => "max-brightness"
    case MinBrightnessFlag => "min-brightness"
    case FadeInFlag => "fade-in-time"
    case FadeOutFlag => "fade-out-time"
    case HoldFlag => "hold-time"
  }

  /** One optional `--name value` argument. */
  datatype Flag = Flag(kind: FlagKind, value: string)

  /** `[f]` when `cond` holds, nothing otherwise. */
  function When(cond: bool, f: Flag): seq<Flag> {
    if cond then [f] else []
  }

  /** The colour and, unless it is the default, the maximum brightness. */
  function ColorFlags(c: Config): seq<Flag> {
    [Flag(ColorFlag, RgbText.ShowRgb(c.color))]
    + When(c.maxBrightness != MaxBrightness, Flag(MaxBrightnessFlag, Decimal(c.maxBrightness.level)))
  }

  /** The settings of animated effects that differ from their defaults. */
  function EffectFlags(c: Config): seq<Flag> {
    When(c.minBrightness != DefaultBrightness, Flag(MinBrightnessFlag, Decimal(c.minBrightness.level)))
    + When(c.fadeIn != DefaultDuration, Flag(FadeInFlag, Decimal(c.fadeIn.ms)))
    + When(c.fadeOut != DefaultDuration, Flag(FadeOutFlag, Decimal(c.fadeOut.ms)))
    + When(c.hold != DefaultDuration, Flag(HoldFlag, Decimal(c.hold.ms)))
  }

  /** The optional arguments, in the order they are printed: none for `Off`,
      no effect settings for `Static`. The colour always comes first. */
  function Flags(c: Config): (fs: seq<Flag>)
    ensures fs == [] <==> c.effect == Off
    ensures fs != [] ==> fs[0] == Flag(ColorFlag, RgbText.ShowRgb(c.color))
  {
    if c.effect == Off then []
    else if c.effect == Static then ColorFlags(c)
    else ColorFlags(c) + EffectFlags(c)
  }

  /** The text before a required argument's value. */
  function RequiredLead(name: string): string {
    Continue + " --" + name + " "
  }

  /** The required arguments, with the effect spelled `effectWord`. */
  function HeaderWith(c: Config, effectWord: string): string {
    CrateName
    + RequiredLead("device") + CliValues.DeviceName(c.device)
    + RequiredLead("zone") + CliValues.ZoneName(c.zone)
    + RequiredLead("effect") + effectWord
  }

  /** The required arguments as printed: device, zone and effect all in
      their `{:?}` form. */
  function Header(c: Config): string {
    HeaderWith(c, CliValues.EffectName(c.effect))
  }

  /** The text before an optional argument's long name. */
  const FlagLead: string := Continue + "  --"

  function RenderFlag(f: Flag): string {
    FlagLead + LongName(f.kind) + " " + f.value
  }

  function RenderFlags(fs: seq<Flag>): string {
    if fs == [] then "" else RenderFlag(fs[0]) + RenderFlags(fs[1..])
  }

  /** `Display for Config`: the required arguments, then the optional ones. */
  function Render(c: Config): (s: string)
    ensures Header(c) <= s
    ensures c.effect == Off ==> s == Header(c)
  {
    Header(c) + RenderFlags(Flags(c))
  }

  /** `Display for Config` with the effect spelled as the command line
      accepts it (`chase-fade` rather than `ChaseFade`). */
  function CorrectedRender(c: Config): (s: string)
    ensures HeaderWith(c, CliValues.EffectValue(c.effect)) <= s
    ensures c.effect != ChaseFade ==> CliValues.SameIgnoringCase(s, Render(c))
  {
    CorrectedHeaderMatches(c);
    HeaderWith(c, CliValues.EffectValue(c.effect)) + RenderFlags(Flags(c))
  }

  /** The corrected command differs from the printed one only in the letter
      case of the effect word, unless the effect is `ChaseFade`. */
  lemma CorrectedHeaderMatches(c: Config)
    ensures c.effect != ChaseFade ==>
      CliValues.SameIgnoringCase(HeaderWith(c, CliValues.EffectValue(c.effect)) + RenderFlags(Flags(c)), Render(c))
  {
    if c.effect != ChaseFade {
      CliValues.EffectNameMatchesValue(c.effect);
      var lead := CrateName
        + RequiredLead("device") + CliValues.DeviceName(c.device)
        + RequiredLead("zone") + CliValues.ZoneName(c.zone)
        + RequiredLead("effect");
      var tail := RenderFlags(Flags(c));
      LowerOfConcat(lead, CliValues.EffectValue(c.effect), tail);
      LowerOfConcat(lead, CliValues.EffectName(c.effect), tail);
    }
  }

  lemma LowerOfConcat(a: string, b: string, d: string)
    ensures RgbText.ToLowerString(a + b + d)
         == RgbText.ToLowerString(a) + RgbText.ToLowerString(b) + RgbText.ToLowerString(d)
  {
  }

  // ---------------------------------------------------------------------
  // Which flags appear.
  // ---------------------------------------------------------------------

  /** Every optional flag, in printing order. */
  const PrintOrder: seq<FlagKind> :=
    [ColorFlag, MaxBrightnessFlag, MinBrightnessFlag, FadeInFlag, FadeOutFlag, HoldFlag]

  /** Whether the effect has settings beyond colour and maximum brightness. */
  predicate Animated(e: Effect) {
    e != Off && e != Static
  }

  /** Whether flag `k` belongs in the command for `c`: the effect uses the
      setting and its value differs from the default. */
  predicate Printed(c: Config, k: FlagKind) {
    match k
    case ColorFlag => c.effect != Off
    case MaxBrightnessFlag => c.effect != Off && c.maxBrightness != MaxBrightness
    case MinBrightnessFlag => Animated(c.effect) && c.minBrightness != DefaultBrightness
    case FadeInFlag => Animated(c.effect) && c.fadeIn != DefaultDuration
    case FadeOutFlag => Animated(c.effect) && c.fadeOut != DefaultDuration
    case HoldFlag => Animated(c.effect) && c.hold != DefaultDuration
  }

  /** `[k]` when `k` is printed for `c`. */
  function Pick(c: Config, k: FlagKind): seq<FlagKind> {
    if Printed(c, k) then [k] else []
  }

  /** The kinds in `ks` that are printed for `c`, in order. */
  function Select(c: Config, ks: seq<FlagKind>): seq<FlagKind> {
    if ks == [] then [] else Pick(c, ks[0]) + Select(c, ks[1..])
  }

  /** The kinds of a list of flags, in order. */
  function KindsOf(fs: seq<Flag>): (ks: seq<FlagKind>)
    ensures |ks| == |fs|
  {
    if fs == [] then [] else [fs[0].kind] + KindsOf(fs[1..])
  }

  lemma {:induction false} KindsOfAppend(a: seq<Flag>, b: seq<Flag>)
    ensures KindsOf(a + b) == KindsOf(a) + KindsOf(b)
    decreases a
  {
    if a == [] {
      assert a + b == b;
    } else {
      assert (a + b)[0] == a[0] && (a + b)[1..] == a[1..] + b;
      KindsOfAppend(a[1..], b);
    }
  }

  lemma KindsOfWhen(cond: bool, f: Flag)
    ensures KindsOf(When(cond, f)) == if cond then [f.kind] else []
  {
  }

  lemma SelectCons(c: Config, k: FlagKind, ks: seq<FlagKind>)
    ensures Select(c, [k] + ks) == Pick(c, k) + Select(c, ks)
  {
    assert ([k] + ks)[1..] == ks;
  }

  lemma SelectPrintOrder(c: Config)
    ensures Select(c, PrintOrder)
         == Pick(c, ColorFlag) + (Pick(c, MaxBrightnessFlag) + (Pick(c, MinBrightnessFlag)
          + (Pick(c, FadeInFlag) + (Pick(c, FadeOutFlag) + Pick(c, HoldFlag)))))
  {
    var o5: seq<FlagKind> := [HoldFlag];
    var o4 := [FadeOutFlag] + o5;
    var o3 := [FadeInFlag] + o4;
    var o2 := [MinBrightnessFlag] + o3;
    var o1 := [MaxBrightnessFlag] + o2;
    var o0 := [ColorFlag] + o1;
    assert o0 == PrintOrder;
    SelectCons(c, HoldFlag, []);
    assert o5 == [HoldFlag] + [];
    assert Select(c, o5) == Pick(c, HoldFlag);
    SelectCons(c, FadeOutFlag, o5);
    SelectCons(c, FadeInFlag, o4);
    SelectCons(c, MinBrightnessFlag, o3);
    SelectCons(c, MaxBrightnessFlag, o2);
    SelectCons(c, ColorFlag, o1);
  }

  lemma ColorFlagKinds(c: Config)
    requires c.effect != Off
    ensures KindsOf(ColorFlags(c)) == Pick(c, ColorFlag) + Pick(c, MaxBrightnessFlag)
  {
    var head := [Flag(ColorFlag, RgbText.ShowRgb(c.color))];
    var max := Flag(MaxBrightnessFlag, Decimal(c.maxBrightness.level));
    KindsOfAppend(head, When(c.maxBrightness != MaxBrightness, max));
    KindsOfWhen(c.maxBrightness != MaxBrightness, max);
  }

  lemma KindsOfAppend4(a: seq<Flag>, b: seq<Flag>, c: seq<Flag>, d: seq<Flag>)
    ensures KindsOf(a + b + c + d) == KindsOf(a) + (KindsOf(b) + (KindsOf(c) + KindsOf(d)))
  {
    KindsOfAppend(a, b);
    KindsOfAppend(a + b, c);
    KindsOfAppend(a + b + c, d);
  }

  lemma EffectFlagKinds(c: Config)
    requires Animated(c.effect)
    ensures KindsOf(EffectFlags(c))
         == Pick(c, MinBrightnessFlag) + (Pick(c, FadeInFlag) + (Pick(c, FadeOutFlag) + Pick(c, HoldFlag)))
  {
    var min := Flag(MinBrightnessFlag, Decimal(c.minBrightness.level));
    var fadeIn := Flag(FadeInFlag, Decimal(c.fadeIn.ms));
    var fadeOut := Flag(FadeOutFlag, Decimal(c.fadeOut.ms));
    var hold := Flag(HoldFlag, Decimal(c.hold.ms));
    KindsOfWhen(c.minBrightness != DefaultBrightness, min);
    KindsOfWhen(c.fadeIn != DefaultDuration, fadeIn);
    KindsOfWhen(c.fadeOut != DefaultDuration, fadeOut);
    KindsOfWhen(c.hold != DefaultDuration, hold);
    KindsOfAppend4(When(c.minBrightness != DefaultBrightness, min), When(c.fadeIn != DefaultDuration, fadeIn),
                   When(c.fadeOut != DefaultDuration, fadeOut), When(c.hold != DefaultDuration, hold));
  }

  lemma StaticFlagKinds(c: Config)
    requires c.effect == Static
    ensures KindsOf(Flags(c))
         == Pick(c, ColorFlag) + (Pick(c, MaxBrightnessFlag) + (Pick(c, MinBrightnessFlag)
          + (Pick(c, FadeInFlag) + (Pick(c, FadeOutFlag) + Pick(c, HoldFlag)))))
  {
    ColorFlagKinds(c);
    var rest := Pick(c, MinBrightnessFlag) + (Pick(c, FadeInFlag) + (Pick(c, FadeOutFlag) + Pick(c, HoldFlag)));
    assert rest == [];
    assert Pick(c, ColorFlag) + (Pick(c, MaxBrightnessFlag) + rest) == Pick(c, ColorFlag) + Pick(c, MaxBrightnessFlag);
  }

  lemma AnimatedFlagKinds(c: Config)
    requires Animated(c.effect)
    ensures KindsOf(Flags(c))
         == Pick(c, ColorFlag) + (Pick(c, MaxBrightnessFlag) + (Pick(c, MinBrightnessFlag)
          + (Pick(c, FadeInFlag) + (Pick(c, FadeOutFlag) + Pick(c, HoldFlag)))))
  {
    assert Flags(c) == ColorFlags(c) + EffectFlags(c);
    KindsOfAppend(ColorFlags(c), EffectFlags(c));
    ColorFlagKinds(c);
    EffectFlagKinds(c);
    Regroup(Pick(c, ColorFlag), Pick(c, MaxBrightnessFlag),
            Pick(c, MinBrightnessFlag) + (Pick(c, FadeInFlag) + (Pick(c, FadeOutFlag) + Pick(c, HoldFlag))));
  }

  lemma Regroup(x: seq<FlagKind>, y: seq<FlagKind>, z: seq<FlagKind>)
    ensures (x + y) + z == x + (y + z)
  {
  }

  /** The optional flags printed for `c` are exactly the ones `Printed`
      selects, in the fixed printing order, each at most once. */
  lemma FlagsPrinted(c: Config)
    ensures KindsOf(Flags(c)) == Select(c, PrintOrder)
  {
    SelectPrintOrder(c);
    if c.effect == Off {
      assert Pick(c, ColorFlag) == [] && Pick(c, MaxBrightnessFlag) == [] && Pick(c, MinBrightnessFlag) == [];
      assert Pick(c, FadeInFlag) == [] && Pick(c, FadeOutFlag) == [] && Pick(c, HoldFlag) == [];
    } else if c.effect == Static {
      StaticFlagKinds(c);
    } else {
      AnimatedFlagKinds(c);
    }
  }

  /** Corollary: the colour is printed unless the effect is `Off`; nothing
      at all follows the effect when it is `Off`; only the colour and the
      maximum brightness can follow it when it is `Static`. */
  lemma FlagsForOffAndStatic(c: Config)
    ensures ColorFlag in KindsOf(Flags(c)) <==> c.effect != Off
    ensures c.effect == Off ==> Render(c) == Header(c)
    ensures c.effect == Static ==> forall k :: k in KindsOf(Flags(c)) ==> k == ColorFlag || k == MaxBrightnessFlag
  {
    FlagsPrinted(c);
    SelectPrintOrder(c);
  }

  /** The configuration every optional flag is measured against: `Config::default()`
      with the required arguments filled in. */
  function Base(c: Config): Config {
    DefaultConfig.(device := c.device, zone := c.zone, effect := c.effect)
  }

  /** Whether `a` and `b` agree on every field except the one flag `k` sets. */
  predicate SameExcept(a: Config, b: Config, k: FlagKind) {
    && a.device == b.device && a.zone == b.zone && a.effect == b.effect
    && (k == ColorFlag || a.color == b.color)
    && (k == MaxBrightnessFlag || a.maxBrightness == b.maxBrightness)
    && (k == MinBrightnessFlag || a.minBrightness == b.minBrightness)
    && (k == FadeInFlag || a.fadeIn == b.fadeIn)
    && (k == FadeOutFlag || a.fadeOut == b.fadeOut)
    && (k == HoldFlag || a.hold == b.hold)
  }

  /** Reads one printed flag into a configuration, as the command line does:
      a value that does not parse leaves the field unchanged. */
  function ApplyFlag(c: Config, f: Flag): (r: Config)
    ensures SameExcept(c, r, f.kind)
    ensures f.kind == ColorFlag ==>
      r.color == match RgbText.ParseRgb(f.value) case Some(color) => color case None => c.color
    ensures f.kind != ColorFlag && r != c ==> |f.value| > 0 && AllDigits(f.value)
  {
    if f.kind == ColorFlag then
      match RgbText.ParseRgb(f.value)
      case Some(color) => c.(color := color)
      case None => c
    else if !(|f.value| > 0 && AllDigits(f.value)) then c
    else
      var n := DecimalValue(f.value);
      if f.kind == MaxBrightnessFlag && n < 0x100 then c.(maxBrightness := Brightness(n))
      else if f.kind == MinBrightnessFlag && n < 0x100 then c.(minBrightness := Brightness(n))
      else if f.kind == FadeInFlag && n < 0x1_0000 then c.(fadeIn := Duration(n))
      else if f.kind == FadeOutFlag && n < 0x1_0000 then c.(fadeOut := Duration(n))
      else if f.kind == HoldFlag && n < 0x1_0000 then c.(hold := Duration(n))
      else c
  }

  function ApplyFlags(c: Config, fs: seq<Flag>): Config
    decreases fs
  {
    if fs == [] then c else ApplyFlags(ApplyFlag(c, fs[0]), fs[1..])
  }

  /** What the printed command can carry: the fields the effect uses, with
      every field it does not use at its default. */
  function Relevant(c: Config): Config {
    if c.effect == Off then Base(c)
    else if c.effect == Static then
      Base(c).(color := c.color, maxBrightness := c.maxBrightness)
    else
      c
  }

  lemma {:induction false} ApplyFlagsAppend(c: Config, a: seq<Flag>, b: seq<Flag>)
    ensures ApplyFlags(c, a + b) == ApplyFlags(ApplyFlags(c, a), b)
    decreases a
  {
    if a != [] {
      assert (a + b)[0] == a[0];
      assert (a + b)[1..] == a[1..] + b;
      ApplyFlagsAppend(ApplyFlag(c, a[0]), a[1..], b);
    } else {
      assert a + b == b;
    }
  }

  /** Reading a printed number flag restores the number. */
  lemma ApplyNumberFlag(c: Config, kind: FlagKind, n: nat)
    ensures kind == MaxBrightnessFlag && n < 0x100 ==>
      ApplyFlag(c, Flag(kind, Decimal(n))) == c.(maxBrightness := Brightness(n))
    ensures kind == MinBrightnessFlag && n < 0x100 ==>
      ApplyFlag(c, Flag(kind, Decimal(n))) == c.(minBrightness := Brightness(n))
    ensures kind == FadeInFlag && n < 0x1_0000 ==>
      ApplyFlag(c, Flag(kind, Decimal(n))) == c.(fadeIn := Duration(n))
    ensures kind == FadeOutFlag && n < 0x1_0000 ==>
      ApplyFlag(c, Flag(kind, Decimal(n))) == c.(fadeOut := Duration(n))
    ensures kind == HoldFlag && n < 0x1_0000 ==>
      ApplyFlag(c, Flag(kind, Decimal(n))) == c.(hold := Duration(n))
  {
    DecimalRoundTrip(n);
  }

  /** Reading a flag that may be absent: either way the field ends up at `c`'s value. */
  lemma ApplyWhen(b: Config, cond: bool, f: Flag)
    ensures ApplyFlags(b, When(cond, f)) == if cond then ApplyFlag(b, f) else b
  {
    if cond {
      assert When(cond, f)[1..] == [];
    }
  }

  lemma ReplayColorFlags(b: Config, c: Config)
    requires b.maxBrightness == MaxBrightness
    ensures ApplyFlags(b, ColorFlags(c)) == b.(color := c.color, maxBrightness := c.maxBrightness)
  {
    RgbText.ParseShowRoundTrip(c.color);
    var head := [Flag(ColorFlag, RgbText.ShowRgb(c.color))];
    var b1 := b.(color := c.color);
    assert ApplyFlags(b, head) == b1 by {
      assert head[1..] == [];
    }
    ApplyFlagsAppend(b, head, ColorFlags(c)[1..]);
    assert ColorFlags(c) == head + ColorFlags(c)[1..];
    ApplyWhen(b1, c.maxBrightness != MaxBrightness, Flag(MaxBrightnessFlag, Decimal(c.maxBrightness.level)));
    ApplyNumberFlag(b1, MaxBrightnessFlag, c.maxBrightness.level);
  }

  lemma ReplayEffectFlags(b: Config, c: Config)
    requires b.minBrightness == DefaultBrightness
    requires b.fadeIn == DefaultDuration && b.fadeOut == DefaultDuration && b.hold == DefaultDuration
    ensures ApplyFlags(b, EffectFlags(c))
         == b.(minBrightness := c.minBrightness, fadeIn := c.fadeIn, fadeOut := c.fadeOut, hold := c.hold)
  {
    var min := When(c.minBrightness != DefaultBrightness, Flag(MinBrightnessFlag, Decimal(c.minBrightness.level)));
    var fadeIn := When(c.fadeIn != DefaultDuration, Flag(FadeInFlag, Decimal(c.fadeIn.ms)));
    var fadeOut := When(c.fadeOut != DefaultDuration, Flag(FadeOutFlag, Decimal(c.fadeOut.ms)));
    var hold := When(c.hold != DefaultDuration, Flag(HoldFlag, Decimal(c.hold.ms)));
    var b1 := b.(minBrightness := c.minBrightness);
    var b2 := b1.(fadeIn := c.fadeIn);
    var b3 := b2.(fadeOut := c.fadeOut);
    var b4 := b3.(hold := c.hold);
    ApplyWhen(b, c.minBrightness != DefaultBrightness, Flag(MinBrightnessFlag, Decimal(c.minBrightness.level)));
    ApplyNumberFlag(b, MinBrightnessFlag, c.minBrightness.level);
    ApplyWhen(b1, c.fadeIn != DefaultDuration, Flag(FadeInFlag, Decimal(c.fadeIn.ms)));
    ApplyNumberFlag(b1, FadeInFlag, c.fadeIn.ms);
    ApplyWhen(b2, c.fadeOut != DefaultDuration, Flag(FadeOutFlag, Decimal(c.fadeOut.ms)));
    ApplyNumberFlag(b2, FadeOutFlag, c.fadeOut.ms);
    ApplyWhen(b3, c.hold != DefaultDuration, Flag(HoldFlag, Decimal(c.hold.ms)));
    ApplyNumberFlag(b3, HoldFlag, c.hold.ms);
    ApplyFlagsAppend(b, min, fadeIn);
    ApplyFlagsAppend(b, min + fadeIn, fadeOut);
    ApplyFlagsAppend(b, min + fadeIn + fadeOut, hold);
  }

  /** The printed command reapplies the configuration: reading its flags on
      top of the defaults restores every field the effect uses. */
  lemma ReplayRestoresConfig(c: Config)
    ensures ApplyFlags(Base(c), Flags(c)) == Relevant(c)
  {
    if c.effect == Static {
      ReplayColorFlags(Base(c), c);
    } else if c.effect != Off {
      ReplayColorFlags(Base(c), c);
      var b := Base(c).(color := c.color, maxBrightness := c.maxBrightness);
      ApplyFlagsAppend(Base(c), ColorFlags(c), EffectFlags(c));
      ReplayEffectFlags(b, c);
    }
  }

  /** The default configuration prints no optional flag except its colour. */
  lemma DefaultConfigPrintsColorOnly()
    ensures Flags(DefaultConfig) == [Flag(ColorFlag, "0x000000")]
  {
    assert RgbText.ShowRgb(DefaultColor) == "0x000000";
  }

  // ---------------------------------------------------------------------
  // Reading the printed command back.
  // ---------------------------------------------------------------------

  /** Whether `w` has no space, so that it stays one argument. */
  predicate IsWord(w: string) {
    forall i :: 0 <= i < |w| ==> w[i] != ' '
  }

  predicate PlainValues(fs: seq<Flag>) {
    forall f :: f in fs ==> IsWord(f.value)
  }

  /** The length of the longest prefix of `s` without a space. */
  function WordEnd(s: string): (n: nat)
    ensures n <= |s| && IsWord(s[..n])
    ensures n < |s| ==> s[n] == ' '
  {
    if s == [] || s[0] == ' ' then 0 else 1 + WordEnd(s[1..])
  }

  /** A word and the text after it. */
  datatype Split = Split(word: string, rest: string)

  /** Reads `lead`, then one word up to the next space or the end. */
  function ReadAfter(s: string, lead: string): (r: Option<Split>)
    ensures r.Some? <==> lead <= s
    ensures r.Some? ==> s == lead + r.value.word + r.value.rest && IsWord(r.value.word)
    ensures r.Some? ==> r.value.rest == [] || r.value.rest[0] == ' '
  {
    if lead <= s then
      var t := s[|lead|..];
      var n := WordEnd(t);
      assert t == t[..n] + t[n..];
      Some(Split(t[..n], t[n..]))
    else None
  }

  /** The optional long options the command line declares, with the flag
      each one sets. */
  function DeclaredFlag(name: string): Option<FlagKind> {
    if name == "color" then Some(ColorFlag)
    else if name == "max-brightness" then Some(MaxBrightnessFlag)
    else if name == "min-brightness" then Some(MinBrightnessFlag)
    else if name == "fade-in-time" then Some(FadeInFlag)
    else if name == "fade-out-time" then Some(FadeOutFlag)
    else if name == "hold-time" then Some(HoldFlag)
    else None
  }

  /** Reads optional arguments, `--name value` each, to the end of the text. */
  function ReadFlags(s: string): Option<seq<Flag>>
    decreases |s|
  {
    if s == [] then Some([])
    else
      var name :- ReadAfter(s, FlagLead);
      var kind :- DeclaredFlag(name.word);
      var value :- ReadAfter(name.rest, " ");
      var rest :- ReadFlags(value.rest);
      Some([Flag(kind, value.word)] + rest)
  }

  /** The arguments a printed command carries. */
  datatype Invocation = Invocation(device: RgbDevice, zone: Zone, effect: Effect, flags: seq<Flag>)

  /** Reads a printed command: the program name, the three required
      arguments in their accepted spellings, then the optional arguments. */
  function ReadCommand(s: string): Option<Invocation> {
    var program :- ReadAfter(s, "");
    if program.word != CrateName then None
    else
      var device :- ReadAfter(program.rest, RequiredLead("device"));
      var zone :- ReadAfter(device.rest, RequiredLead("zone"));
      var effect :- ReadAfter(zone.rest, RequiredLead("effect"));
      var d :- CliValues.ParseDevice(device.word);
      var z :- CliValues.ParseZone(zone.word);
      var e :- CliValues.ParseEffect(effect.word);
      var flags :- ReadFlags(effect.rest);
      Some(Invocation(d, z, e, flags))
  }

  /** Runs a printed command: its flags read on top of `Config::default()`. */
  function Reapply(s: string): Option<Config> {
    var inv :- ReadCommand(s);
    Some(ApplyFlags(DefaultConfig.(device := inv.device, zone := inv.zone, effect := inv.effect), inv.flags))
  }

  /** A word followed by nothing or by a space reads back as that word. */
  lemma ReadAfterOf(lead: string, w: string, rest: string)
    requires IsWord(w) && (rest == [] || rest[0] == ' ')
    ensures ReadAfter(lead + w + rest, lead) == Some(Split(w, rest))
  {
    var s := lead + w + rest;
    assert s[|lead|..] == w + rest;
    var r := ReadAfter(s, lead).value;
    assert lead + r.word + r.rest == lead + w + rest;
    assert r.word + r.rest == w + rest;
    assert r.word == (w + rest)[..|w|];
  }

  /** Every long name the printer uses is a declared option, for the flag it
      was printed for. */
  lemma LongNameDeclared(k: FlagKind)
    ensures DeclaredFlag(LongName(k)) == Some(k) && IsWord(LongName(k))
  {
  }

  lemma RenderFlagsStart(fs: seq<Flag>)
    ensures RenderFlags(fs) == [] || RenderFlags(fs)[0] == ' '
  {
    if fs != [] {
      assert RenderFlags(fs)[0] == FlagLead[0];
    }
  }

  /** The printed optional arguments read back as the same flags, in order,
      when no value contains a space. */
  lemma {:induction false} ReadRenderedFlags(fs: seq<Flag>)
    requires PlainValues(fs)
    ensures ReadFlags(RenderFlags(fs)) == Some(fs)
    decreases |fs|
  {
    if fs != [] {
      var f, rest := fs[0], fs[1..];
      var r := RenderFlags(rest);
      assert PlainValues(rest) && IsWord(f.value) by {
        assert f in fs;
        forall g | g in rest ensures IsWord(g.value) {
          assert g in fs;
        }
      }
      ReadRenderedFlags(rest);
      assert RenderFlags(fs) == FlagLead + LongName(f.kind) + (" " + f.value + r) by {
        assert RenderFlags(fs) == RenderFlag(f) + r;
        RegroupText(FlagLead, LongName(f.kind), " ", f.value, r);
      }
      assert ReadFlags(RenderFlags(fs)) == Some([f] + rest) by {
        RenderFlagsStart(rest);
        LongNameDeclared(f.kind);
        ReadOneFlag(LongName(f.kind), f.value, r);
      }
      assert [f] + rest == fs;
    }
  }

  /** One `--name value` argument, then whatever follows it. */
  lemma ReadOneFlag(name: string, value: string, r: string)
    requires IsWord(name) && IsWord(value) && (r == [] || r[0] == ' ')
    requires DeclaredFlag(name).Some? && ReadFlags(r).Some?
    ensures ReadFlags(FlagLead + name + (" " + value + r))
         == Some([Flag(DeclaredFlag(name).value, value)] + ReadFlags(r).value)
  {
    var tail := " " + value + r;
    ReadAfterOf(FlagLead, name, tail);
    ReadAfterOf(" ", value, r);
  }

  lemma RegroupText(a: string, b: string, c: string, d: string, e: string)
    ensures a + b + c + d + e == a + b + (c + d + e)
  {
  }

  lemma NamesAreWords(c: Config)
    ensures IsWord(CrateName)
    ensures IsWord(CliValues.DeviceName(c.device)) && IsWord(CliValues.ZoneName(c.zone))
    ensures IsWord(CliValues.EffectName(c.effect)) && IsWord(CliValues.EffectValue(c.effect))
  {
  }

  /** No printed flag value contains a space: colours are `0x` and hex
      digits, numbers are decimal digits. */
  lemma FlagValuesAreWords(c: Config)
    ensures PlainValues(Flags(c))
  {
    ColorValuesAreWords(c);
    EffectValuesAreWords(c);
    PlainAppend(ColorFlags(c), EffectFlags(c));
  }

  lemma ColorValuesAreWords(c: Config)
    ensures PlainValues(ColorFlags(c))
  {
    var color := RgbText.ShowRgb(c.color);
    assert IsWord(color) by {
      forall i | 0 <= i < |color| ensures color[i] != ' ' {
        if i < 2 {
          assert color[i] == color[..2][i];
        }
      }
    }
    DecimalIsWord(c.maxBrightness.level);
  }

  lemma EffectValuesAreWords(c: Config)
    ensures PlainValues(EffectFlags(c))
  {
    var min := When(c.minBrightness != DefaultBrightness, Flag(MinBrightnessFlag, Decimal(c.minBrightness.level)));
    var fadeIn := When(c.fadeIn != DefaultDuration, Flag(FadeInFlag, Decimal(c.fadeIn.ms)));
    var fadeOut := When(c.fadeOut != DefaultDuration, Flag(FadeOutFlag, Decimal(c.fadeOut.ms)));
    var hold := When(c.hold != DefaultDuration, Flag(HoldFlag, Decimal(c.hold.ms)));
    DecimalIsWord(c.minBrightness.level);
    DecimalIsWord(c.fadeIn.ms);
    DecimalIsWord(c.fadeOut.ms);
    DecimalIsWord(c.hold.ms);
    PlainAppend(min, fadeIn);
    PlainAppend(min + fadeIn, fadeOut);
    PlainAppend(min + fadeIn + fadeOut, hold);
  }

  lemma PlainAppend(a: seq<Flag>, b: seq<Flag>)
    requires PlainValues(a) && PlainValues(b)
    ensures PlainValues(a + b)
  {
  }

  lemma DecimalIsWord(n: nat)
    ensures IsWord(Decimal(n))
  {
    var s := Decimal(n);
    assert forall i :: 0 <= i < |s| ==> IsDigit(s[i]);
  }

  /** A command with plain words in every argument reads back as its
      device, zone and flags, and as whatever effect its effect word names. */
  lemma ReadCommandOf(c: Config, w: string, fs: seq<Flag>)
    requires IsWord(w) && PlainValues(fs)
    ensures ReadCommand(HeaderWith(c, w) + RenderFlags(fs))
         == match CliValues.ParseEffect(w)
            case Some(e) => Some(Invocation(c.device, c.zone, e, fs))
            case None => None
  {
    var dn := CliValues.DeviceName(c.device);
    var zn := CliValues.ZoneName(c.zone);
    NamesAreWords(c);
    HeaderShape(c, w, RenderFlags(fs));
    ReadArguments(dn, zn, w, RenderFlags(fs));
    CliValues.DebugNamesAccepted(c.device, c.zone);
    RenderFlagsStart(fs);
    ReadRenderedFlags(fs);
  }

  /** The printed text, nested to the right argument by argument. */
  lemma HeaderShape(c: Config, w: string, r: string)
    ensures HeaderWith(c, w) + r
         == CrateName + (RequiredLead("device") + (CliValues.DeviceName(c.device)
          + (RequiredLead("zone") + (CliValues.ZoneName(c.zone) + (RequiredLead("effect") + (w + r))))))
  {
  }

  /** Reading the program name and the three required arguments. */
  lemma ReadArguments(dn: string, zn: string, w: string, r: string)
    requires IsWord(CrateName) && IsWord(dn) && IsWord(zn) && IsWord(w)
    requires r == [] || r[0] == ' '
    ensures var s3 := RequiredLead("effect") + (w + r);
            var s2 := RequiredLead("zone") + (zn + s3);
            var s1 := RequiredLead("device") + (dn + s2);
            && ReadAfter(CrateName + s1, "") == Some(Split(CrateName, s1))
            && ReadAfter(s1, RequiredLead("device")) == Some(Split(dn, s2))
            && ReadAfter(s2, RequiredLead("zone")) == Some(Split(zn, s3))
            && ReadAfter(s3, RequiredLead("effect")) == Some(Split(w, r))
  {
    var s3 := RequiredLead("effect") + (w + r);
    var s2 := RequiredLead("zone") + (zn + s3);
    var s1 := RequiredLead("device") + (dn + s2);
    ReadRequiredOf("effect", w, r);
    ReadRequiredOf("zone", zn, s3);
    ReadRequiredOf("device", dn, s2);
    ReadFirstWord(CrateName, s1);
  }

  lemma ReadFirstWord(w: string, rest: string)
    requires IsWord(w) && (rest == [] || rest[0] == ' ')
    ensures ReadAfter(w + rest, "") == Some(Split(w, rest))
  {
    assert "" + w + rest == w + rest;
    ReadAfterOf("", w, rest);
  }

  /** One required argument reads back as its value; the text it starts
      with begins with a space. */
  lemma ReadRequiredOf(name: string, w: string, rest: string)
    requires IsWord(w) && (rest == [] || rest[0] == ' ')
    ensures ReadAfter(RequiredLead(name) + (w + rest), RequiredLead(name)) == Some(Split(w, rest))
    ensures (RequiredLead(name) + (w + rest))[0] == ' '
  {
    assert RequiredLead(name) + w + rest == RequiredLead(name) + (w + rest);
    ReadAfterOf(RequiredLead(name), w, rest);
  }

  /** As printed, the command reads back as the configuration's device,
      zone, effect and flags for every effect except `ChaseFade`, whose
      printed word the command line rejects. */
  lemma RenderReadsBack(c: Config)
    ensures ReadCommand(Render(c))
         == if c.effect == ChaseFade then None else Some(Invocation(c.device, c.zone, c.effect, Flags(c)))
  {
    NamesAreWords(c);
    FlagValuesAreWords(c);
    ReadCommandOf(c, CliValues.EffectName(c.effect), Flags(c));
    CliValues.DebugEffectNameAccepted(c.effect);
  }

  /** With the effect spelled as the command line accepts it, the command
      reads back as the configuration's device, zone, effect and flags. */
  lemma CorrectedRenderReadsBack(c: Config)
    ensures ReadCommand(CorrectedRender(c)) == Some(Invocation(c.device, c.zone, c.effect, Flags(c)))
  {
    NamesAreWords(c);
    FlagValuesAreWords(c);
    ReadCommandOf(c, CliValues.EffectValue(c.effect), Flags(c));
    CliValues.EffectValueRoundTrip(c.effect, CliValues.EffectValue(c.effect));
  }

  /** Running the printed command restores every field the effect uses,
      except that a `ChaseFade` command is rejected. */
  lemma RenderReapplies(c: Config)
    ensures Reapply(Render(c)) == if c.effect == ChaseFade then None else Some(Relevant(c))
  {
    RenderReadsBack(c);
    ReplayRestoresConfig(c);
  }

  /** Running the corrected command restores every field the effect uses. */
  lemma CorrectedRenderReapplies(c: Config)
    ensures Reapply(CorrectedRender(c)) == Some(Relevant(c))
  {
    CorrectedRenderReadsBack(c);
    ReplayRestoresConfig(c);
  }
}
