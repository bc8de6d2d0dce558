/** The molecule-import page: classifying an uploaded file as a molecule
    file, an image or unsupported by its extension; the atom colouring rule
    of its stand-in viewer; and the reset and animation controls. */
module Importar {
  import opened Wrappers
  import opened Text

  const MoleculeFormats := [".pdb", ".sdf", ".mol", ".xyz", ".cif"]
  const ImageFormats := [".jpg", ".jpeg", ".png", ".gif", ".bmp", ".webp", ".svg"]

  /** `name.toLowerCase().slice(name.lastIndexOf('.'))`: from the last dot
      on; with no dot, lastIndexOf is -1 and the slice is the last character. */
  function Extension(name: string): (r: string)
    ensures '.' in name ==> |r| >= 1 && r[0] == '.' && '.' !in r[1..]
    ensures '.' !in name ==> |r| <= 1
  {
    var dot := LastIndexOf(name, '.');
    var r := SliceFrom(Lower(name), dot);
    assert '.' in name ==> Lower(name)[dot] == '.';
    assert forall j :: dot < j < |name| ==> Lower(name)[j] != '.';
    r
  }

  datatype FileKind = MoleculeFile | ImageFile | Unsupported

  /** The branch handleFileUpload takes for a file name. */
  function Classify(name: string): (r: FileKind)
    ensures r == MoleculeFile <==> Extension(name) in MoleculeFormats
    ensures r == ImageFile <==> Extension(name) in ImageFormats
  {
    var ext := Extension(name);
    FormatsDisjoint();
    if ext in MoleculeFormats then MoleculeFile
    else if ext in ImageFormats then ImageFile
    else Unsupported
  }

  /** The viewer settings the reset button restores; the three sliders are
      kept in hundredths (0.3, 0.1 and 1 at the start). */
  datatype ViewSettings = ViewSettings(
    visualizationMode: string,
    colorScheme: string,
    backgroundColor: string,
    atomSize: int,
    bondSize: int,
    opacity: int,
    highContrast: bool,
    colorBlindMode: string)

  const DefaultSettings := ViewSettings("ballstick", "cpk", "#ffffff", 30, 10, 100, false, "none")

  /** The page state; `file` holds the uploaded file's name. */
  datatype ImportState = ImportState(
    file: Option<string>,
    imageUrl: Option<string>,
    isImage: bool,
    settings: ViewSettings,
    isAnimating: bool,
    isFullscreen: bool)

  const InitialImport := ImportState(None, None, false, DefaultSettings, false, false)

  /** handleFileUpload. `picked` is the chosen file's name (None when the
      dialog was cancelled) and `url` the object URL the browser would create
      for it. */
  function Upload(s: ImportState, picked: Option<string>, url: string): (r: ImportState)
    ensures picked.None? ==> r == s
    ensures picked.Some? && Classify(picked.value) == MoleculeFile ==>
      r == s.(file := picked, isImage := false, imageUrl := None)
    ensures picked.Some? && Classify(picked.value) == ImageFile ==>
      r == s.(file := picked, isImage := true, imageUrl := Some(url))
    ensures picked.Some? && Classify(picked.value) == Unsupported ==> r == s
  {
    match picked
    case None => s
    case Some(name) =>
      match Classify(name)
      case MoleculeFile => s.(file := picked, isImage := false, imageUrl := None)
      case ImageFile => s.(file := picked, imageUrl := Some(url), isImage := true)
      case Unsupported => s
  }

  /** handleReset: every setting back to its start value, the file and the
      image flag cleared, and a (truthy) object URL revoked and dropped;
      animation and full-screen are left alone. */
  function Reset(s: ImportState): (r: ImportState)
    ensures r.settings == DefaultSettings
    ensures r.file.None? && !r.isImage
    ensures r.imageUrl.None? || r.imageUrl == Some("")
    ensures r.isAnimating == s.isAnimating && r.isFullscreen == s.isFullscreen
  {
    var url := if s.imageUrl.Some? && s.imageUrl.value != "" then None else s.imageUrl;
    ImportState(None, url, false, DefaultSettings, s.isAnimating, s.isFullscreen)
  }

  /** toggleAnimation: flips the flag and reports what happened. */
  function ToggleAnimation(s: ImportState): (r: (ImportState, string))
    ensures r.0.isAnimating != s.isAnimating
    ensures r.0 == s.(isAnimating := r.0.isAnimating)
    ensures r.1 == (if r.0.isAnimating then "Animação iniciada" else "Animação pausada")
  {
    (s.(isAnimating := !s.isAnimating), if s.isAnimating then "Animação pausada" else "Animação iniciada")
  }

  /** getAtomColor: high contrast first, then the protanopia and
      deuteranopia modes, then the colour scheme; every branch but the last
      tells carbon apart from all other elements. */
  function AtomColor(highContrast: bool, colorBlindMode: string, colorScheme: string, element: string): (r: string)
    ensures |r| == 7 && r[0] == '#'
    ensures r == "#606060" <==>
      !highContrast && colorBlindMode != "protanopia" && colorBlindMode != "deuteranopia"
      && colorScheme != "cpk" && colorScheme != "element" && colorScheme != "rainbow"
  {
    var carbon := element == "C";
    if highContrast then (if carbon then "#FFFFFF" else "#000000")
    else if colorBlindMode == "protanopia" then (if carbon then "#FFD700" else "#0000FF")
    else if colorBlindMode == "deuteranopia" then (if carbon then "#FF6347" else "#4169E1")
    else if colorScheme == "cpk" then (if carbon then "#909090" else "#FF1493")
    else if colorScheme == "element" then (if carbon then "#404040" else "#FF0000")
    else if colorScheme == "rainbow" then (if carbon then "#FF0000" else "#00FF00")
    else "#606060"
  }

  // ---------------------------------------------------------------------------
  // Lemmas

  /** No extension is both a molecule format and an image format. */
  lemma FormatsDisjoint()
    ensures forall e :: e in MoleculeFormats ==> e !in ImageFormats
  {
  }

  /** A name without a dot is never accepted: its "extension" is at most one
      character long. */
  lemma NoDotRejected(name: string)
    requires '.' !in name
    ensures Classify(name) == Unsupported
  {
    ShortExtensionNotListed(Extension(name));
  }

  /** Every listed extension has at least four characters. */
  lemma ShortExtensionNotListed(ext: string)
    requires |ext| <= 1
    ensures ext !in MoleculeFormats && ext !in ImageFormats
  {
    assert forall i :: 0 <= i < |MoleculeFormats| ==> |MoleculeFormats[i]| >= 4;
    assert forall i :: 0 <= i < |ImageFormats| ==> |ImageFormats[i]| >= 4;
  }

  /** A name ending in a dot-led, otherwise dot-free tail has that tail,
      lower-cased, as its extension. */
  lemma ExtensionOfAppend(stem: string, tail: string)
    requires |tail| > 0 && tail[0] == '.' && '.' !in tail[1..]
    ensures Extension(stem + tail) == Lower(tail)
  {
    LastIndexOfAppend(stem, tail, '.');
    assert Lower(stem + tail)[|stem|..] == Lower(tail);
  }

  /** Each listed extension is a dot followed by lower-case letters only. */
  lemma ListedExtensionShape(ext: string)
    requires ext in MoleculeFormats || ext in ImageFormats
    ensures |ext| > 0 && ext[0] == '.' && '.' !in ext[1..] && Lower(ext) == ext
  {
  }

  /** No listed extension holds a sharp s or a micro sign, the two
      characters whose upper-casing lower-casing does not undo. */
  lemma ListedExtensionReversible(ext: string)
    requires ext in MoleculeFormats || ext in ImageFormats
    ensures SharpS !in ext && MicroSign !in ext
  {
  }

  /** Upper-casing leaves the dots where they were. */
  lemma UpperKeepsDots(t: string)
    requires |t| > 0 && t[0] == '.' && '.' !in t[1..]
    ensures |Upper(t)| > 0 && Upper(t)[0] == '.' && '.' !in Upper(t)[1..]
  {
    UpperKeepsAbsent(t[1..], '.');
  }

  /** Any stem followed by a listed extension, written in lower or in upper
      case, is classified by that extension. */
  lemma ListedExtensionAccepted(stem: string, ext: string, upper: bool)
    requires ext in MoleculeFormats || ext in ImageFormats
    ensures var name := stem + (if upper then Upper(ext) else ext);
      Classify(name) == if ext in MoleculeFormats then MoleculeFile else ImageFile
  {
    ListedExtensionShape(ext);
    if upper {
      ListedExtensionReversible(ext);
      UpperKeepsDots(ext);
      ExtensionOfAppend(stem, Upper(ext));
      LowerOfUpper(ext);
    } else {
      ExtensionOfAppend(stem, ext);
    }
  }

  /** An unsupported file leaves the page exactly as it was, whatever it held. */
  lemma UnsupportedLeavesStateAlone(s: ImportState, name: string, url: string)
    requires Classify(name) == Unsupported
    ensures Upload(s, Some(name), url) == s
  {
  }

  /** Resetting twice is resetting once. */
  lemma ResetIdempotent(s: ImportState)
    ensures Reset(Reset(s)) == Reset(s)
  {
  }

  /** From the initial page, uploading and then resetting gets back to the start. */
  lemma UploadThenResetIsInitial(name: string, url: string)
    requires url != ""
    ensures Reset(Upload(InitialImport, Some(name), url)) == InitialImport
  {
  }

  /** Toggling the animation twice changes nothing. */
  lemma ToggleAnimationTwice(s: ImportState)
    ensures ToggleAnimation(ToggleAnimation(s).0).0 == s
  {
  }

  /** High contrast decides the colour whatever the other two selects say. */
  lemma HighContrastWins(m1: string, m2: string, c1: string, c2: string, element: string)
    ensures AtomColor(true, m1, c1, element) == AtomColor(true, m2, c2, element)
  {
  }

  /** Protanopia and deuteranopia override the colour scheme. */
  lemma ColorBlindModesOverrideScheme(mode: string, c1: string, c2: string, element: string)
    requires mode == "protanopia" || mode == "deuteranopia"
    ensures AtomColor(false, mode, c1, element) == AtomColor(false, mode, c2, element)
  {
  }

  /** Tritanopia, "none" and any other mode fall through to the scheme. */
  lemma OtherModesFallThrough(mode: string, scheme: string, element: string)
    requires mode != "protanopia" && mode != "deuteranopia"
    ensures AtomColor(false, mode, scheme, element) == AtomColor(false, "none", scheme, element)
    ensures AtomColor(false, "tritanopia", scheme, element) == AtomColor(false, "none", scheme, element)
  {
  }

  /** An unknown scheme paints every element the same grey. */
  lemma UnknownSchemeIsGrey(mode: string, scheme: string, element: string)
    requires mode != "protanopia" && mode != "deuteranopia"
    requires scheme != "cpk" && scheme != "element" && scheme != "rainbow"
    ensures AtomColor(false, mode, scheme, element) == "#606060"
  {
  }

  /** In every other branch carbon gets a colour no other element gets. */
  lemma CarbonStandsOut(highContrast: bool, mode: string, scheme: string, element: string)
    requires element != "C"
    requires highContrast || mode == "protanopia" || mode == "deuteranopia"
      || scheme == "cpk" || scheme == "element" || scheme == "rainbow"
    ensures AtomColor(highContrast, mode, scheme, "C") != AtomColor(highContrast, mode, scheme, element)
  {
  }
}
