/** The "view a molecule" page: the upload check, the name and format shown
    once the simulated processing finishes, and the reset button. */
module Visualizar {
  import opened Wrappers
  import opened Text

  const SupportedFormats := [".pdb", ".sdf", ".mol", ".xyz"]

  /** `file.name.toLowerCase().split('.').pop()`: the lower-cased text after
      the last dot, or the whole lower-cased name when it has no dot. */
  function FileExtension(name: string): (r: string)
    ensures '.' !in r
    ensures Lower(r) == r
  {
    var r := LastSegment(Lower(name), '.');
    LowerSuffixIsLower(name, |Lower(name)| - |r|);
    r
  }

  /** `supportedFormats.some(f => f.ext.includes(fileExt))`: the extension
      only has to occur somewhere inside one of the four listed ones. */
  predicate IsSupported(name: string): (r: bool)
    ensures FileExtension(name) in ["pdb", "sdf", "mol", "xyz"] ==> r
    ensures r ==> |FileExtension(name)| <= 4
  {
    var ext := FileExtension(name);
    ExtensionSupportedBounds(ext);
    ExtensionSupported(ext)
  }

  /** The four real extensions are supported, and nothing longer than four characters is. */
  lemma ExtensionSupportedBounds(ext: string)
    ensures ext in ["pdb", "sdf", "mol", "xyz"] ==> ExtensionSupported(ext)
    ensures ExtensionSupported(ext) ==> |ext| <= 4
  {
    if ext in ["pdb", "sdf", "mol", "xyz"] {
      PlainExtensionOccurs(ext);
    }
    if ExtensionSupported(ext) {
      AcceptedExtensionIsShort(ext);
    }
  }

  predicate ExtensionSupported(ext: string)
  {
    exists i | 0 <= i < |SupportedFormats| :: Contains(SupportedFormats[i], ext)
  }

  /** `name.replace(/\.[^/.]+$/, "")`: drops a final dot and the non-empty
      run after it when that run holds neither '.' nor '/'. */
  function DisplayName(name: string): (r: string)
    ensures |r| <= |name| && name[..|r|] == r
  {
    var d := LastIndexOf(name, '.');
    if d >= 0 && d + 1 < |name| && '/' !in name[d + 1..] then name[..d] else name
  }

  /** What the page shows once processing is done (the random atom and bond
      counts and weight are not modelled). */
  datatype MoleculeData = MoleculeData(name: string, format: string)

  datatype ViewState = ViewState(uploadedFile: Option<string>, isProcessing: bool, moleculeData: Option<MoleculeData>)

  const InitialView := ViewState(None, false, None)

  /** handleFileUpload up to the timer: an unsupported file changes nothing;
      a supported one is kept and processing starts. */
  function Upload(s: ViewState, picked: Option<string>): (r: ViewState)
    ensures picked.None? || !IsSupported(picked.value) ==> r == s
    ensures picked.Some? && IsSupported(picked.value) ==>
      r.uploadedFile == picked && r.isProcessing && r.moleculeData == s.moleculeData
  {
    match picked
    case None => s
    case Some(name) => if !IsSupported(name) then s else s.(uploadedFile := picked, isProcessing := true)
  }

  /** The timer's callback for the file `name`: shows its data and ends
      processing. It does not look at the current state. */
  function FinishProcessing(s: ViewState, name: string): (r: ViewState)
    ensures r.moleculeData == Some(MoleculeData(DisplayName(name), Upper(FileExtension(name))))
    ensures !r.isProcessing
    ensures r.uploadedFile == s.uploadedFile
  {
    s.(moleculeData := Some(MoleculeData(DisplayName(name), Upper(FileExtension(name)))), isProcessing := false)
  }

  /** resetVisualization: forgets the file and the data; processing is left as it is. */
  function Reset(s: ViewState): (r: ViewState)
    ensures r.uploadedFile.None? && r.moleculeData.None?
    ensures r.isProcessing == s.isProcessing
  {
    s.(uploadedFile := None, moleculeData := None)
  }

  // ---------------------------------------------------------------------------
  // Lemmas

  /** A suffix of a lower-cased string is itself lower-case. */
  lemma LowerSuffixIsLower(name: string, k: nat)
    requires k <= |Lower(name)|
    ensures Lower(Lower(name)[k..]) == Lower(name)[k..]
  {
  }

  /** The extension of a stem, a dot and a dot-free tail is the tail, lower-cased. */
  lemma ExtensionOfAppend(stem: string, tail: string)
    requires '.' !in tail
    ensures FileExtension(stem + "." + tail) == Lower(tail)
  {
    LowerAppend(stem + ".", tail);
    LowerAppend(stem, ".");
    assert Lower(".") == ".";
    LowerKeepsUncased(tail, '.');
    LastSegmentAppend(Lower(stem), Lower(tail), '.');
  }

  /** Each real extension, without its dot, occurs in the list. */
  lemma PlainExtensionOccurs(ext: string)
    requires ext in ["pdb", "sdf", "mol", "xyz"]
    ensures ExtensionSupported(ext)
  {
    var k := if ext == "pdb" then 0 else if ext == "sdf" then 1 else if ext == "mol" then 2 else 3;
    assert SupportedFormats[k][1..] == ext;
    assert OccursAt(SupportedFormats[k], ext, 1);
  }

  /** The four real extensions are accepted after any stem, in any case. */
  lemma RealExtensionsAccepted(stem: string, tail: string)
    requires Lower(tail) in ["pdb", "sdf", "mol", "xyz"]
    ensures IsSupported(stem + "." + tail)
  {
    var ext := Lower(tail);
    assert |tail| == 3;
    assert forall i :: 0 <= i < 3 ==> ext[i] == LowerChar(tail[i]) && ext[i] != '.';
    assert '.' !in tail;
    ExtensionOfAppend(stem, tail);
    PlainExtensionOccurs(ext);
  }

  /** The substring test also lets through a fragment of a real extension:
      "file.db" has extension "db", which occurs inside ".pdb". */
  lemma TailFragmentAccepted()
    ensures FileExtension("file.db") == "db" && IsSupported("file.db")
  {
    ExtensionOfAppend("file", "db");
    assert "file.db" == "file" + "." + "db";
    assert Lower("db") == "db";
    assert SupportedFormats[0][2..4] == "db";
    assert OccursAt(SupportedFormats[0], "db", 2);
  }

  /** A name ending in a dot has the empty extension, which occurs everywhere. */
  lemma EmptyExtensionAccepted(stem: string)
    ensures FileExtension(stem + ".") == "" && IsSupported(stem + ".")
  {
    ExtensionOfAppend(stem, "");
    assert stem + "." == stem + "." + "";
    assert Lower("") == "";
    assert OccursAt(SupportedFormats[0], "", 0);
  }

  /** A bare "x", with no dot at all, is its own extension and occurs inside ".xyz". */
  lemma UndottedFragmentAccepted()
    ensures FileExtension("x") == "x" && IsSupported("x")
  {
    assert Lower("x") == "x";
    assert LastIndexOf("x", '.') == -1;
    assert SupportedFormats[3][1..2] == "x";
    assert OccursAt(SupportedFormats[3], "x", 1);
  }

  /** Whatever is accepted has an extension of at most four characters. */
  lemma AcceptedExtensionIsShort(ext: string)
    requires ExtensionSupported(ext)
    ensures |ext| <= 4
  {
    var i :| 0 <= i < |SupportedFormats| && Contains(SupportedFormats[i], ext);
    ContainsShorter(SupportedFormats[i], ext);
    assert |SupportedFormats[i]| == 4;
  }

  /** The display name drops exactly a final ".ext" whose ext is non-empty
      and free of '.' and '/'. */
  lemma DisplayNameDropsExtension(stem: string, tail: string)
    requires |tail| > 0 && '.' !in tail && '/' !in tail
    ensures DisplayName(stem + "." + tail) == stem
  {
    assert stem + "." + tail == stem + ("." + tail);
    assert ("." + tail)[1..] == tail;
    LastIndexOfAppend(stem, "." + tail, '.');
    assert (stem + "." + tail)[|stem| + 1..] == tail;
    assert (stem + "." + tail)[..|stem|] == stem;
  }

  /** A name without a dot, or ending in a dot, is shown unchanged. */
  lemma DisplayNameKeepsUndotted(name: string)
    requires '.' !in name || name[|name| - 1] == '.'
    ensures DisplayName(name) == name
  {
    var d := LastIndexOf(name, '.');
    if d >= 0 {
      assert name[d] in name;
    }
  }

  /** The format shown is the extension upper-cased: lower-casing it gives
      the extension's folded form, which is the extension itself unless it
      holds a sharp s or a micro sign. */
  lemma FormatRoundTrip(s: ViewState, name: string)
    ensures Lower(FinishProcessing(s, name).moleculeData.value.format) == Fold(FileExtension(name))
    ensures var ext := FileExtension(name);
      SharpS !in ext && MicroSign !in ext ==>
        Lower(FinishProcessing(s, name).moleculeData.value.format) == ext
  {
    LowerOfUpper(FileExtension(name));
  }

  /** A supported upload followed by its timer shows the file's data and
      ends processing; a reset then clears the page, apart from processing. */
  lemma UploadFinishReset(name: string)
    requires IsSupported(name)
    ensures var s := FinishProcessing(Upload(InitialView, Some(name)), name);
      && s.uploadedFile == Some(name) && !s.isProcessing && s.moleculeData.Some?
      && Reset(s) == InitialView
  {
  }

  /** The timer does not check for a reset in between: resetting while the
      file is processing still ends with its data on screen but no file. */
  lemma ResetDuringProcessingStillShowsData(name: string)
    requires IsSupported(name)
    ensures var s := FinishProcessing(Reset(Upload(InitialView, Some(name))), name);
      s.uploadedFile.None? && s.moleculeData.Some?
  {
  }
}
