/** The molecule colour-palette engine of `useMoleculeColorPalettes`: six
    palettes, five of them fixed tables and one (monochromatic) derived from a
    base colour by a naive brightness shift; a high-contrast table that
    overrides whichever palette is active; and the palette, contrast flag and
    base colour kept in localStorage and read back on mount. */
module Palettes {
  import opened Wrappers
  import opened Text
  import opened Storage

  datatype Palette = Cpk | Rainbow | Monochromatic | Protanopia | Deuteranopia | Tritanopia

  /** A colour for the viewer background and for each element group. */
  datatype ColorScheme = ColorScheme(
    background: string,
    carbon: string,
    hydrogen: string,
    oxygen: string,
    nitrogen: string,
    sulfur: string,
    phosphorus: string,
    halogen: string,
    other: string)

  /** The identifier a palette is stored under (the keys of `colorSchemes`). */
  function PaletteId(p: Palette): string
  {
    match p
    case Cpk => "cpk"
    case Rainbow => "rainbow"
    case Monochromatic => "monochromatic"
    case Protanopia => "protanopia"
    case Deuteranopia => "deuteranopia"
    case Tritanopia => "tritanopia"
  }

  /** `Object.keys(colorSchemes).includes(s)`: the palette `s` names, if any. */
  function ParsePaletteId(s: string): (r: Option<Palette>)
    ensures r.Some? ==> PaletteId(r.value) == s
    ensures forall p :: PaletteId(p) == s ==> r == Some(p)
  {
    if s == "cpk" then Some(Cpk)
    else if s == "rainbow" then Some(Rainbow)
    else if s == "monochromatic" then Some(Monochromatic)
    else if s == "protanopia" then Some(Protanopia)
    else if s == "deuteranopia" then Some(Deuteranopia)
    else if s == "tritanopia" then Some(Tritanopia)
    else None
  }

  // ---------------------------------------------------------------------------
  // Fixed tables

  const Background := "#f8f9fa"

  const CpkScheme := ColorScheme(Background, "#808080", "#FFFFFF", "#FF0000", "#0000FF",
                                 "#FFFF00", "#FFA500", "#00FF00", "#FF69B4")
  const RainbowScheme := ColorScheme(Background, "#FF0000", "#FF7F00", "#FFFF00", "#00FF00",
                                     "#0000FF", "#4B0082", "#9400D3", "#FF1493")
  const ProtanopiaScheme := ColorScheme(Background, "#0072B2", "#F0E442", "#E69F00", "#56B4E9",
                                        "#CC79A7", "#009E73", "#D55E00", "#999999")
  const DeuteranopiaScheme := ColorScheme(Background, "#0072B2", "#F0E442", "#E69F00", "#56B4E9",
                                          "#CC79A7", "#009E73", "#D55E00", "#999999")
  const TritanopiaScheme := ColorScheme(Background, "#E69F00", "#56B4E9", "#009E73", "#F0E442",
                                        "#0072B2", "#D55E00", "#CC79A7", "#999999")
  const HighContrastScheme := ColorScheme("#000000", "#FFFFFF", "#F0E442", "#0072B2", "#E69F00",
                                          "#CC79A7", "#009E73", "#D55E00", "#56B4E9")

  const DefaultMonochromaticBase := "#0072B2"

  /** `Math.round(2.55 * factor * 100)` for the factors 0.8, 0.6, 0.4, 0.2,
      -0.2, -0.4 and -0.6 the monochromatic slots use, hydrogen to other. */
  const HydrogenShift := 204
  const OxygenShift := 153
  const NitrogenShift := 102
  const SulfurShift := 51
  const PhosphorusShift := -51
  const HalogenShift := -102
  const OtherShift := -153

  // ---------------------------------------------------------------------------
  // Brightness shift

  datatype Rgb = Rgb(r: int, g: int, b: int)

  /** `#` followed by six hexadecimal digits. */
  predicate IsHexColor(s: string)
  {
    |s| == 7 && s[0] == '#' && AllDigits(s[1..], 16)
  }

  /** A hex colour written with lower-case digits only, as toString(16) writes it. */
  predicate IsLowerHexColor(s: string)
  {
    IsHexColor(s) && forall i :: 1 <= i < 7 ==> !('A' <= s[i] <= 'Z')
  }

  /** The ECMAScript ToInt32 conversion the bitwise operators apply. */
  function ToInt32(n: int): (r: int)
    ensures -0x8000_0000 <= r < 0x8000_0000
    ensures (n - r) % 0x1_0000_0000 == 0
  {
    var m := n % 0x1_0000_0000;
    if m >= 0x8000_0000 then m - 0x1_0000_0000 else m
  }

  /** `num = parseInt(hex.replace('#', ''), 16)` split into `num >> 16`,
      `num >> 8 & 0xFF` and `num & 0xFF`; a NaN parse reads as 0. */
  function Channels(hex: string): (c: Rgb)
    ensures -0x8000 <= c.r < 0x8000
    ensures 0 <= c.g < 0x100 && 0 <= c.b < 0x100
    ensures ParseInt(RemoveFirst(hex, '#'), 16).None? ==> c == Rgb(0, 0, 0)
  {
    var num := match ParseInt(RemoveFirst(hex, '#'), 16)
               case None => 0
               case Some(v) => ToInt32(v);
    Rgb(num / 0x10000, (num / 0x100) % 0x100, num % 0x100)
  }

  /** The channel clamp of `adjustBrightness`: below 1 gives 0, 255 or more gives 255. */
  function Clamp(c: int): (r: int)
    ensures 0 <= r <= 255
    ensures 0 <= c <= 255 ==> r == c
    ensures c < 0 ==> r == 0
    ensures c > 255 ==> r == 255
  {
    if c < 255 then (if c < 1 then 0 else c) else 255
  }

  function Pack(c: Rgb): int
  {
    c.r * 0x10000 + c.g * 0x100 + c.b
  }

  predicate InByteRange(c: Rgb)
  {
    0 <= c.r <= 255 && 0 <= c.g <= 255 && 0 <= c.b <= 255
  }

  function Shift(c: Rgb, amount: int): (r: Rgb)
    ensures InByteRange(r)
  {
    Rgb(Clamp(c.r + amount), Clamp(c.g + amount), Clamp(c.b + amount))
  }

  /** `(0x1000000 + v).toString(16).slice(1)` for a 24-bit value `v` is six
      lower-case hex digits whose value is `v`. */
  lemma SixHexDigits(v: int)
    requires 0 <= v < 0x100_0000
    ensures |NatToString(0x100_0000 + v, 16)| == 7
    ensures DigitsValue(NatToString(0x100_0000 + v, 16)[1..], 16) == v
  {
    var n := 0x100_0000 + v;
    var s := NatToString(n, 16);
    assert Pow(16, 1) == 16;
    assert Pow(16, 2) == 256;
    assert Pow(16, 3) == 4096;
    assert Pow(16, 4) == 65536;
    assert Pow(16, 5) == 1048576;
    assert Pow(16, 6) == 16777216;
    assert Pow(16, 7) == 268435456;
    NatToStringLength(n, 16, 6);
    NatToStringRoundTrip(n, 16);
    DigitsValueLeading(s, 16);
    DigitsValueBound(s[1..], 16);
  }

  /** adjustBrightness(hex, factor) with `amount = Math.round(2.55 * factor * 100)`:
      every channel of the input moves by `amount`, is clamped into [0, 255],
      and the three are written back as `#rrggbb` in lower case. */
  function AdjustBrightness(hex: string, amount: int): (r: string)
    ensures IsLowerHexColor(r)
    ensures DigitsValue(r[1..], 16) == Pack(Shift(Channels(hex), amount))
  {
    var c := Shift(Channels(hex), amount);
    var packed := 0x100_0000 + Pack(c);
    SixHexDigits(Pack(c));
    "#" + NatToString(packed, 16)[1..]
  }

  /** Splitting a packed 24-bit colour with `>>` and `&` gives its channels back. */
  lemma UnpackPacked(c: Rgb)
    requires InByteRange(c)
    ensures Pack(c) / 0x10000 == c.r
    ensures (Pack(c) / 0x100) % 0x100 == c.g
    ensures Pack(c) % 0x100 == c.b
  {
    var low := c.g * 0x100 + c.b;
    assert 0 <= low < 0x10000;
    assert Pack(c) == c.r * 0x10000 + low;
    assert Pack(c) / 0x100 == c.r * 0x100 + c.g;
  }

  /** parseInt reads the six digits after the '#' of a hex colour as their value. */
  lemma ParseHexDigits(s: string)
    requires IsHexColor(s)
    ensures ParseInt(RemoveFirst(s, '#'), 16) == Some(DigitsValue(s[1..], 16) as int)
  {
    var h := s[1..];
    assert s == [s[0]] + h;
    assert RemoveFirst(s, '#') == h;
    assert DigitValue(h[0]) < 16 && DigitValue(h[1]) < 16;
    assert SignAndRest(h) == (false, h);
    assert RadixAndDigits(h, 16) == (16, h);
    DigitPrefixWhole(h, 16);
    assert h[..|h|] == h;
  }

  /** Six hex digits denote a value below 2^24. */
  lemma SixDigitsBelow(h: string)
    requires |h| == 6 && AllDigits(h, 16)
    ensures DigitsValue(h, 16) < 0x100_0000
  {
    DigitsValueBound(h, 16);
    assert Pow(16, 6) == 16777216 by {
      assert Pow(16, 2) == 256;
      assert Pow(16, 4) == 65536;
    }
  }

  /** Reading a hex colour back gives the number its digits denote. */
  lemma ChannelsOfHexColor(s: string)
    requires IsHexColor(s)
    ensures Channels(s) == Rgb(DigitsValue(s[1..], 16) / 0x10000,
                               (DigitsValue(s[1..], 16) / 0x100) % 0x100,
                               DigitsValue(s[1..], 16) % 0x100)
  {
    ParseHexDigits(s);
    SixDigitsBelow(s[1..]);
    var v := DigitsValue(s[1..], 16);
    assert ToInt32(v) == v;
  }

  /** Decoding the output of adjustBrightness yields exactly the shifted and
      clamped channels of its input: the encoding loses nothing. */
  lemma AdjustBrightnessChannels(hex: string, amount: int)
    ensures Channels(AdjustBrightness(hex, amount)) == Shift(Channels(hex), amount)
  {
    var c := Shift(Channels(hex), amount);
    ChannelsOfHexColor(AdjustBrightness(hex, amount));
    UnpackPacked(c);
  }

  /** A larger offset never darkens any channel. */
  lemma AdjustBrightnessMonotone(hex: string, a1: int, a2: int)
    requires a1 <= a2
    ensures Channels(AdjustBrightness(hex, a1)).r <= Channels(AdjustBrightness(hex, a2)).r
    ensures Channels(AdjustBrightness(hex, a1)).g <= Channels(AdjustBrightness(hex, a2)).g
    ensures Channels(AdjustBrightness(hex, a1)).b <= Channels(AdjustBrightness(hex, a2)).b
  {
    AdjustBrightnessChannels(hex, a1);
    AdjustBrightnessChannels(hex, a2);
  }

  /** Shifting an already adjusted colour by 0 reproduces it exactly. */
  lemma AdjustBrightnessZeroIsIdentity(hex: string, amount: int)
    ensures AdjustBrightness(AdjustBrightness(hex, amount), 0) == AdjustBrightness(hex, amount)
  {
    var c := Shift(Channels(hex), amount);
    AdjustBrightnessChannels(hex, amount);
    assert Shift(c, 0) == c;
    SameShiftSameOutput(AdjustBrightness(hex, amount), 0, hex, amount);
  }

  /** The output depends on the input only through its shifted channels. */
  lemma SameShiftSameOutput(x: string, a: int, y: string, b: int)
    requires Shift(Channels(x), a) == Shift(Channels(y), b)
    ensures AdjustBrightness(x, a) == AdjustBrightness(y, b)
  {
  }

  // ---------------------------------------------------------------------------
  // Schemes

  /** The monochromatic table: carbon is the base colour itself, the other
      element groups are the base shifted by decreasing offsets. */
  function MonochromaticScheme(base: string): (r: ColorScheme)
    ensures r.background == Background && r.carbon == base
    ensures IsLowerHexColor(r.hydrogen) && IsLowerHexColor(r.oxygen) && IsLowerHexColor(r.nitrogen)
    ensures IsLowerHexColor(r.sulfur) && IsLowerHexColor(r.phosphorus) && IsLowerHexColor(r.halogen)
    ensures IsLowerHexColor(r.other)
  {
    ColorScheme(
      Background,
      base,
      AdjustBrightness(base, HydrogenShift),
      AdjustBrightness(base, OxygenShift),
      AdjustBrightness(base, NitrogenShift),
      AdjustBrightness(base, SulfurShift),
      AdjustBrightness(base, PhosphorusShift),
      AdjustBrightness(base, HalogenShift),
      AdjustBrightness(base, OtherShift))
  }

  /** The monochromatic slots: the background is fixed, carbon is the base
      verbatim, and every other slot decodes to the base's channels shifted by
      its offset and clamped. Each offset is 2.55 * factor * 100 for the
      factors 0.8, 0.6, 0.4, 0.2, -0.2, -0.4, -0.6, written as 255 * percent / 100. */
  lemma MonochromaticSlots(base: string)
    ensures var s := MonochromaticScheme(base);
      && s.background == Background && s.carbon == base
      && Channels(s.hydrogen) == Shift(Channels(base), HydrogenShift)
      && Channels(s.oxygen) == Shift(Channels(base), OxygenShift)
      && Channels(s.nitrogen) == Shift(Channels(base), NitrogenShift)
      && Channels(s.sulfur) == Shift(Channels(base), SulfurShift)
      && Channels(s.phosphorus) == Shift(Channels(base), PhosphorusShift)
      && Channels(s.halogen) == Shift(Channels(base), HalogenShift)
      && Channels(s.other) == Shift(Channels(base), OtherShift)
    ensures HydrogenShift * 100 == 255 * 80 && OxygenShift * 100 == 255 * 60
    ensures NitrogenShift * 100 == 255 * 40 && SulfurShift * 100 == 255 * 20
    ensures PhosphorusShift * 100 == 255 * -20 && HalogenShift * 100 == 255 * -40
    ensures OtherShift * 100 == 255 * -60
  {
    AdjustBrightnessChannels(base, HydrogenShift);
    AdjustBrightnessChannels(base, OxygenShift);
    AdjustBrightnessChannels(base, NitrogenShift);
    AdjustBrightnessChannels(base, SulfurShift);
    AdjustBrightnessChannels(base, PhosphorusShift);
    AdjustBrightnessChannels(base, HalogenShift);
    AdjustBrightnessChannels(base, OtherShift);
  }

  /** `colorSchemes[p]` for the current monochromatic base. */
  function PaletteScheme(p: Palette, base: string): ColorScheme
  {
    match p
    case Cpk => CpkScheme
    case Rainbow => RainbowScheme
    case Monochromatic => MonochromaticScheme(base)
    case Protanopia => ProtanopiaScheme
    case Deuteranopia => DeuteranopiaScheme
    case Tritanopia => TritanopiaScheme
  }

  /** The channel-wise order "a is at least as bright as b". */
  predicate NoDarker(a: string, b: string)
  {
    var x := Channels(a);
    var y := Channels(b);
    x.r >= y.r && x.g >= y.g && x.b >= y.b
  }

  /** The seven derived monochromatic shades go from lightest (hydrogen) to
      darkest (other), and each is the base's channels shifted and clamped. */
  lemma MonochromaticShadesOrdered(base: string)
    ensures var s := MonochromaticScheme(base);
      && NoDarker(s.hydrogen, s.oxygen) && NoDarker(s.oxygen, s.nitrogen)
      && NoDarker(s.nitrogen, s.sulfur) && NoDarker(s.sulfur, s.phosphorus)
      && NoDarker(s.phosphorus, s.halogen) && NoDarker(s.halogen, s.other)
  {
    AdjustBrightnessMonotone(base, OxygenShift, HydrogenShift);
    AdjustBrightnessMonotone(base, NitrogenShift, OxygenShift);
    AdjustBrightnessMonotone(base, SulfurShift, NitrogenShift);
    AdjustBrightnessMonotone(base, PhosphorusShift, SulfurShift);
    AdjustBrightnessMonotone(base, HalogenShift, PhosphorusShift);
    AdjustBrightnessMonotone(base, OtherShift, HalogenShift);
  }

  predicate AllSlotsHexColors(s: ColorScheme)
  {
    && IsHexColor(s.background) && IsHexColor(s.carbon) && IsHexColor(s.hydrogen)
    && IsHexColor(s.oxygen) && IsHexColor(s.nitrogen) && IsHexColor(s.sulfur)
    && IsHexColor(s.phosphorus) && IsHexColor(s.halogen) && IsHexColor(s.other)
  }

  /** `#` and six hex digits, spelled out position by position. */
  predicate HexByChars(c: string)
  {
    |c| == 7 && c[0] == '#' && DigitValue(c[1]) < 16 && DigitValue(c[2]) < 16 && DigitValue(c[3]) < 16
    && DigitValue(c[4]) < 16 && DigitValue(c[5]) < 16 && DigitValue(c[6]) < 16
  }

  /** The position-by-position check implies the quantified one. */
  lemma HexColorByChars(c: string)
    requires HexByChars(c)
    ensures IsHexColor(c)
  {
    assert forall i :: 0 <= i < 6 ==> c[1..][i] == c[i + 1];
  }

  /** Every slot of a scheme checked character by character. */
  lemma SchemeByChars(s: ColorScheme)
    requires HexByChars(s.background) && HexByChars(s.carbon) && HexByChars(s.hydrogen)
    requires HexByChars(s.oxygen) && HexByChars(s.nitrogen) && HexByChars(s.sulfur)
    requires HexByChars(s.phosphorus) && HexByChars(s.halogen) && HexByChars(s.other)
    ensures AllSlotsHexColors(s)
  {
    HexColorByChars(s.background);
    HexColorByChars(s.carbon);
    HexColorByChars(s.hydrogen);
    HexColorByChars(s.oxygen);
    HexColorByChars(s.nitrogen);
    HexColorByChars(s.sulfur);
    HexColorByChars(s.phosphorus);
    HexColorByChars(s.halogen);
    HexColorByChars(s.other);
  }

  lemma CpkWellFormed() ensures AllSlotsHexColors(CpkScheme) { SchemeByChars(CpkScheme); }
  lemma RainbowWellFormed() ensures AllSlotsHexColors(RainbowScheme) { SchemeByChars(RainbowScheme); }
  lemma ProtanopiaWellFormed() ensures AllSlotsHexColors(ProtanopiaScheme) { SchemeByChars(ProtanopiaScheme); }
  lemma DeuteranopiaWellFormed() ensures AllSlotsHexColors(DeuteranopiaScheme) { SchemeByChars(DeuteranopiaScheme); }
  lemma TritanopiaWellFormed() ensures AllSlotsHexColors(TritanopiaScheme) { SchemeByChars(TritanopiaScheme); }
  lemma HighContrastWellFormed() ensures AllSlotsHexColors(HighContrastScheme) { SchemeByChars(HighContrastScheme); }

  lemma MonochromaticWellFormed(base: string)
    requires IsHexColor(base)
    ensures AllSlotsHexColors(MonochromaticScheme(base))
  {
    assert IsHexColor(Background);
  }

  /** Every slot of the scheme in effect is a `#RRGGBB` colour, provided the
      monochromatic base is one. */
  lemma CurrentSchemeWellFormed(p: Prefs)
    requires IsHexColor(p.monoBase)
    ensures AllSlotsHexColors(CurrentScheme(p))
  {
    if p.highContrast {
      HighContrastWellFormed();
    } else {
      match p.palette
      case Cpk => CpkWellFormed();
      case Rainbow => RainbowWellFormed();
      case Monochromatic => MonochromaticWellFormed(p.monoBase);
      case Protanopia => ProtanopiaWellFormed();
      case Deuteranopia => DeuteranopiaWellFormed();
      case Tritanopia => TritanopiaWellFormed();
    }
  }

  /** The protanopia and deuteranopia tables agree slot for slot. */
  lemma ProtanopiaIsDeuteranopia(base: string)
    ensures PaletteScheme(Protanopia, base) == PaletteScheme(Deuteranopia, base)
  {
  }

  /** Only the monochromatic table depends on the base colour. */
  lemma FixedPalettesIgnoreBase(p: Palette, b1: string, b2: string)
    requires p != Monochromatic
    ensures PaletteScheme(p, b1) == PaletteScheme(p, b2)
  {
  }

  // ---------------------------------------------------------------------------
  // Preference state and persistence

  datatype Prefs = Prefs(palette: Palette, highContrast: bool, monoBase: string)

  /** The hook's state together with localStorage. */
  datatype Session = Session(prefs: Prefs, store: Store)

  const InitialPrefs := Prefs(Cpk, false, DefaultMonochromaticBase)

  const PaletteKey := "biolente-molecule-palette"
  const HighContrastKey := "biolente-high-contrast"
  const MonoBaseKey := "biolente-mono-base"

  /** getCurrentScheme: the high-contrast table while high contrast is on,
      the active palette's table otherwise. */
  function CurrentScheme(p: Prefs): (r: ColorScheme)
    ensures p.highContrast ==> r == HighContrastScheme
    ensures !p.highContrast && p.palette == Monochromatic ==> r.carbon == p.monoBase && r.background == Background
  {
    if p.highContrast then HighContrastScheme else PaletteScheme(p.palette, p.monoBase)
  }

  /** changePalette: sets the active palette and stores its id. */
  function ChangePalette(s: Session, p: Palette): (r: Session)
    ensures r.prefs.palette == p
    ensures r.prefs.highContrast == s.prefs.highContrast && r.prefs.monoBase == s.prefs.monoBase
    ensures Get(r.store, PaletteKey) == Some(PaletteId(p))
    ensures forall k :: k != PaletteKey ==> Get(r.store, k) == Get(s.store, k)
  {
    Session(s.prefs.(palette := p), s.store[PaletteKey := PaletteId(p)])
  }

  /** toggleHighContrast: flips the flag and stores "true" or "false". */
  function ToggleHighContrast(s: Session): (r: Session)
    ensures r.prefs.highContrast != s.prefs.highContrast
    ensures r.prefs.palette == s.prefs.palette && r.prefs.monoBase == s.prefs.monoBase
    ensures Get(r.store, HighContrastKey) == Some(if r.prefs.highContrast then "true" else "false")
    ensures forall k :: k != HighContrastKey ==> Get(r.store, k) == Get(s.store, k)
  {
    var on := !s.prefs.highContrast;
    Session(s.prefs.(highContrast := on), s.store[HighContrastKey := BoolString(on)])
  }

  /** changeMonochromaticBase: stores whatever colour it is given, unchecked. */
  function ChangeMonochromaticBase(s: Session, color: string): (r: Session)
    ensures r.prefs.monoBase == color
    ensures r.prefs.palette == s.prefs.palette && r.prefs.highContrast == s.prefs.highContrast
    ensures Get(r.store, MonoBaseKey) == Some(color)
    ensures forall k :: k != MonoBaseKey ==> Get(r.store, k) == Get(s.store, k)
  {
    Session(s.prefs.(monoBase := color), s.store[MonoBaseKey := color])
  }

  /** The mount effect: starting from the initial preferences, adopt a stored
      palette only if it names one of the six palettes, turn high contrast on
      only for the exact string "true", and copy a non-empty stored base
      colour without checking it. */
  function Restore(store: Store): (r: Prefs)
    ensures forall p :: Get(store, PaletteKey) == Some(PaletteId(p)) ==> r.palette == p
    ensures (forall p :: Get(store, PaletteKey) != Some(PaletteId(p))) ==> r.palette == Cpk
    ensures r.highContrast <==> Get(store, HighContrastKey) == Some("true")
    ensures Truthy(Get(store, MonoBaseKey)) ==> r.monoBase == Get(store, MonoBaseKey).value
    ensures !Truthy(Get(store, MonoBaseKey)) ==> r.monoBase == DefaultMonochromaticBase
  {
    var savedPalette := Get(store, PaletteKey);
    var savedHighContrast := Get(store, HighContrastKey);
    var savedMonoBase := Get(store, MonoBaseKey);
    var palette :=
      if Truthy(savedPalette) && ParsePaletteId(savedPalette.value).Some?
      then ParsePaletteId(savedPalette.value).value
      else InitialPrefs.palette;
    var highContrast := if savedHighContrast == Some("true") then true else InitialPrefs.highContrast;
    var monoBase := if Truthy(savedMonoBase) then savedMonoBase.value else InitialPrefs.monoBase;
    Prefs(palette, highContrast, monoBase)
  }

  /** Reloading the page now would give back the current preferences. */
  predicate Synced(s: Session)
  {
    Restore(s.store) == s.prefs
  }

  /** High contrast comes back on exactly when the stored string is "true". */
  lemma RestoreHighContrastOnlyFromTrue(store: Store)
    ensures Restore(store).highContrast <==> Get(store, HighContrastKey) == Some("true")
  {
  }

  /** A stored palette that is not one of the six ids leaves the default palette. */
  lemma RestoreIgnoresUnknownPalette(store: Store)
    requires forall p :: Get(store, PaletteKey) != Some(PaletteId(p))
    ensures Restore(store).palette == Cpk
  {
  }

  /** A fresh page with nothing stored is in sync with its initial preferences. */
  lemma FreshSessionSynced()
    ensures Synced(Session(InitialPrefs, map[]))
  {
  }

  /** changePalette(p) followed by a reload yields p. */
  lemma ChangePaletteSurvivesReload(s: Session, p: Palette)
    ensures Restore(ChangePalette(s, p).store).palette == p
  {
    assert Get(ChangePalette(s, p).store, PaletteKey) == Some(PaletteId(p));
  }

  /** Every operation keeps the store in sync with the state (a base colour
      must be non-empty to survive a reload, since "" is falsy). */
  lemma OperationsKeepSync(s: Session, p: Palette, color: string)
    requires Synced(s)
    ensures Synced(ChangePalette(s, p))
    ensures Synced(ToggleHighContrast(s))
    ensures color != "" ==> Synced(ChangeMonochromaticBase(s, color))
  {
    var a := ChangePalette(s, p);
    assert Get(a.store, PaletteKey) == Some(PaletteId(p));
    assert Get(a.store, HighContrastKey) == Get(s.store, HighContrastKey);
    assert Get(a.store, MonoBaseKey) == Get(s.store, MonoBaseKey);
    var b := ToggleHighContrast(s);
    assert Get(b.store, PaletteKey) == Get(s.store, PaletteKey);
    assert Get(b.store, MonoBaseKey) == Get(s.store, MonoBaseKey);
    var c := ChangeMonochromaticBase(s, color);
    assert Get(c.store, PaletteKey) == Get(s.store, PaletteKey);
    assert Get(c.store, HighContrastKey) == Get(s.store, HighContrastKey);
  }

  /** An empty base colour is stored but not restored: a reload falls back to the default base. */
  lemma EmptyBaseNotRestored(s: Session)
    ensures Restore(ChangeMonochromaticBase(s, "").store).monoBase == DefaultMonochromaticBase
  {
  }

  /** While high contrast is on, the scheme is the high-contrast table
      whatever the palette and base colour. */
  lemma HighContrastOverridesPalette(a: Prefs, b: Prefs)
    requires a.highContrast && b.highContrast
    ensures CurrentScheme(a) == CurrentScheme(b) == HighContrastScheme
  {
  }

  /** Toggling high contrast twice restores the state, and so the scheme. */
  lemma ToggleTwiceRestoresScheme(s: Session)
    ensures ToggleHighContrast(ToggleHighContrast(s)).prefs == s.prefs
    ensures CurrentScheme(ToggleHighContrast(ToggleHighContrast(s)).prefs) == CurrentScheme(s.prefs)
  {
  }

  /** Selecting protanopia, turning high contrast on and off again leaves the
      protanopia table in effect, not a blend. */
  lemma ProtanopiaContrastRoundTrip(s: Session)
    requires !s.prefs.highContrast
    ensures var on := ToggleHighContrast(ChangePalette(s, Protanopia));
      && CurrentScheme(on.prefs) == HighContrastScheme
      && CurrentScheme(ToggleHighContrast(on).prefs) == ProtanopiaScheme
  {
  }
}
