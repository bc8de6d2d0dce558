/** The pure part of `MoleculeViewer3D`: the structure analysis computed from
    the atom records the viewer library returns (atom count, bond count,
    molecular weight, distinct elements), the choice of styling branch for
    the current palette preferences, and the guard that skips loading. */
module Viewer {
  import opened Wrappers
  import opened Palettes
  import Seqs

  /** An atom record as the viewer library hands it back. An absent or empty
      `element`/`elem` field is "", an absent bond list is None. */
  datatype Atom = Atom(element: string, elem: string, bonds: Option<seq<int>>)

  /** `atom.element || atom.elem`. */
  function Symbol(a: Atom): string
  {
    if a.element != "" then a.element else a.elem
  }

  /** `atom.bonds?.length || 0`. */
  function BondEnds(a: Atom): nat
  {
    match a.bonds
    case None => 0
    case Some(b) => |b|
  }

  /** The sum of the bond-list lengths of all atoms. */
  function TotalBondEnds(atoms: seq<Atom>): nat
  {
    if |atoms| == 0 then 0 else TotalBondEnds(atoms[..|atoms| - 1]) + BondEnds(atoms[|atoms| - 1])
  }

  /** countBonds: every bond appears in the lists of both its atoms, so the
      total is halved and rounded down. */
  method CountBonds(atoms: seq<Atom>) returns (n: nat)
    ensures 2 * n <= TotalBondEnds(atoms) < 2 * n + 2
  {
    var bondCount := 0;
    var i := 0;
    while i < |atoms|
      invariant 0 <= i <= |atoms|
      invariant bondCount == TotalBondEnds(atoms[..i])
    {
      assert atoms[..i + 1][..i] == atoms[..i];
      bondCount := bondCount + BondEnds(atoms[i]);
      i := i + 1;
    }
    assert atoms[..i] == atoms;
    n := bondCount / 2;
  }

  /** The atomic-weight table of calculateMolecularWeight, in thousandths of
      a unit; a symbol not in the table weighs 0. */
  function AtomicWeight(symbol: string): nat
  {
    if symbol == "H" then 1008
    else if symbol == "C" then 12011
    else if symbol == "N" then 14007
    else if symbol == "O" then 15999
    else if symbol == "P" then 30974
    else if symbol == "S" then 32065
    else if symbol == "F" then 18998
    else if symbol == "Cl" then 35453
    else if symbol == "Br" then 79904
    else if symbol == "I" then 126900
    else 0
  }

  function TotalWeight(atoms: seq<Atom>): nat
  {
    if |atoms| == 0 then 0 else TotalWeight(atoms[..|atoms| - 1]) + AtomicWeight(Symbol(atoms[|atoms| - 1]))
  }

  /** calculateMolecularWeight before rounding: the sum of each atom's table weight. */
  method MolecularWeight(atoms: seq<Atom>) returns (w: nat)
    ensures w == TotalWeight(atoms)
  {
    w := 0;
    var i := 0;
    while i < |atoms|
      invariant 0 <= i <= |atoms|
      invariant w == TotalWeight(atoms[..i])
    {
      assert atoms[..i + 1][..i] == atoms[..i];
      w := w + AtomicWeight(Symbol(atoms[i]));
      i := i + 1;
    }
    assert atoms[..i] == atoms;
  }

  /** The weight of two atom lists together is the sum of their weights. */
  lemma {:induction false} TotalWeightAppend(a: seq<Atom>, b: seq<Atom>)
    ensures TotalWeight(a + b) == TotalWeight(a) + TotalWeight(b)
    decreases |b|
  {
    if |b| > 0 {
      var b' := b[..|b| - 1];
      assert (a + b)[..|a + b| - 1] == a + b';
      TotalWeightAppend(a, b');
    } else {
      assert a + b == a;
    }
  }

  /** One atom weighs its table weight, whether its symbol is in `element` or
      only in `elem`; a single oxygen weighs 15.999. */
  lemma SingleAtomWeight(a: Atom)
    ensures TotalWeight([a]) == AtomicWeight(Symbol(a))
    ensures a.element == "O" || (a.element == "" && a.elem == "O") ==> TotalWeight([a]) == 15999
  {
    assert [a][..0] == [];
  }

  /** The non-empty symbols of the atoms, in order. */
  function Symbols(atoms: seq<Atom>): seq<string>
  {
    if |atoms| == 0 then []
    else
      var e := Symbol(atoms[|atoms| - 1]);
      Symbols(atoms[..|atoms| - 1]) + (if e != "" then [e] else [])
  }

  /** The symbol list holds exactly the non-empty symbols of the atoms. */
  lemma {:induction false} SymbolsContents(atoms: seq<Atom>)
    ensures var r := Symbols(atoms);
      && (forall i :: 0 <= i < |r| ==> r[i] != "" && exists j :: 0 <= j < |atoms| && Symbol(atoms[j]) == r[i])
      && (forall j :: 0 <= j < |atoms| && Symbol(atoms[j]) != "" ==> Symbol(atoms[j]) in r)
  {
    if |atoms| > 0 {
      var pre := atoms[..|atoms| - 1];
      SymbolsContents(pre);
      assert forall j :: 0 <= j < |pre| ==> pre[j] == atoms[j];
    }
  }

  lemma DistinctAppend(xs: seq<string>, e: string)
    ensures Seqs.Distinct(xs + [e]) == if e in Seqs.Distinct(xs) then Seqs.Distinct(xs) else Seqs.Distinct(xs) + [e]
  {
    assert (xs + [e])[..|xs|] == xs;
  }

  lemma SymbolsStep(atoms: seq<Atom>, i: nat)
    requires i < |atoms|
    ensures var e := Symbol(atoms[i]);
      Symbols(atoms[..i + 1]) == Symbols(atoms[..i]) + (if e != "" then [e] else [])
  {
    assert atoms[..i + 1][..i] == atoms[..i];
  }

  /** The distinct symbols are exactly the non-empty symbols of the atoms. */
  lemma DistinctSymbolsContents(atoms: seq<Atom>)
    ensures var r := Seqs.Distinct(Symbols(atoms));
      && (forall i :: 0 <= i < |r| ==> r[i] != "" && exists j :: 0 <= j < |atoms| && Symbol(atoms[j]) == r[i])
      && (forall j :: 0 <= j < |atoms| && Symbol(atoms[j]) != "" ==> Symbol(atoms[j]) in r)
  {
    var all := Symbols(atoms);
    var r := Seqs.Distinct(all);
    SymbolsContents(atoms);
    forall j | 0 <= j < |atoms| && Symbol(atoms[j]) != ""
      ensures Symbol(atoms[j]) in r
    {
      var k :| 0 <= k < |all| && all[k] == Symbol(atoms[j]);
    }
  }

  /** One step of the element scan: a new non-empty symbol is appended,
      anything else leaves the list as it was. */
  lemma UniqueStep(atoms: seq<Atom>, i: nat, r: seq<string>)
    requires i < |atoms|
    requires r == Seqs.Distinct(Symbols(atoms[..i]))
    ensures var e := Symbol(atoms[i]);
      Seqs.Distinct(Symbols(atoms[..i + 1])) == if e != "" && e !in r then r + [e] else r
  {
    SymbolsStep(atoms, i);
    var e := Symbol(atoms[i]);
    if e != "" {
      assert Symbols(atoms[..i + 1]) == Symbols(atoms[..i]) + [e];
      DistinctAppend(Symbols(atoms[..i]), e);
    } else {
      assert Symbols(atoms[..i + 1]) == Symbols(atoms[..i]);
    }
  }

  /** Adding the same element to the seen set and to the list keeps them in step. */
  lemma SeenStep(seen: set<string>, r: seq<string>, e: string)
    requires forall x :: x in seen <==> x in r
    ensures forall x :: x in seen + {e} <==> x in r + [e]
  {
  }

  /** getUniqueElements: the distinct non-empty symbols in order of first
      appearance, collected through a set of those already seen. */
  method UniqueElements(atoms: seq<Atom>) returns (r: seq<string>)
    ensures r == Seqs.Distinct(Symbols(atoms))
  {
    r := [];
    var seen: set<string> := {};
    var i := 0;
    while i < |atoms|
      invariant 0 <= i <= |atoms|
      invariant r == Seqs.Distinct(Symbols(atoms[..i]))
      invariant forall x :: x in seen <==> x in r
    {
      var e := Symbol(atoms[i]);
      UniqueStep(atoms, i, r);
      if e != "" && e !in seen {
        SeenStep(seen, r, e);
        r := r + [e];
        seen := seen + {e};
      }
      i := i + 1;
    }
    assert atoms[..i] == atoms;
  }

  /** The elements list is in order of first appearance among the symbols. */
  lemma UniqueElementsOrder(atoms: seq<Atom>)
    ensures var r := Seqs.Distinct(Symbols(atoms));
      forall i, j :: 0 <= i < j < |r| ==>
        Seqs.FirstIndex(Symbols(atoms), r[i]) < Seqs.FirstIndex(Symbols(atoms), r[j])
  {
    Seqs.DistinctFirstAppearanceOrder(Symbols(atoms));
  }

  // ---------------------------------------------------------------------------
  // Styling

  /** The styling applyMoleculeStyle sets on the model. */
  datatype Style =
    | ContrastStyle(colors: map<string, string>)  // stick and sphere colour schemes keyed by element
    | CpkStyle(colors: map<string, string>)       // default style plus setColorByElement
    | UniformStyle(color: string)                 // every atom and bond in one colour
    | DefaultStyle                                // no colour override

  /** The element colours of the high-contrast branch. */
  function CoreElementColors(s: ColorScheme): map<string, string>
  {
    map["C" := s.carbon, "H" := s.hydrogen, "O" := s.oxygen,
        "N" := s.nitrogen, "S" := s.sulfur, "P" := s.phosphorus]
  }

  /** The element colours of the CPK branch: the six above and the halogens. */
  function CpkElementColors(s: ColorScheme): map<string, string>
  {
    CoreElementColors(s)["F" := s.halogen]["Cl" := s.halogen]["Br" := s.halogen]["I" := s.halogen]
  }

  /** applyMoleculeStyle's branch for the current preferences. */
  function StyleFor(p: Prefs): (r: Style)
    ensures r.ContrastStyle? <==> p.highContrast
    ensures r.CpkStyle? <==> !p.highContrast && p.palette == Cpk
    ensures r.UniformStyle? <==> !p.highContrast && p.palette == Monochromatic
    ensures r.UniformStyle? ==> ColorOverride(r, "C") == Some(p.monoBase)
  {
    var scheme := CurrentScheme(p);
    if p.highContrast then ContrastStyle(CoreElementColors(scheme))
    else if p.palette == Cpk then CpkStyle(CpkElementColors(scheme))
    else if p.palette == Monochromatic then UniformStyle(scheme.carbon)
    else DefaultStyle
  }

  /** The colour a style forces on atoms of an element, if any. */
  function ColorOverride(style: Style, element: string): Option<string>
  {
    match style
    case ContrastStyle(m) => if element in m then Some(m[element]) else None
    case CpkStyle(m) => if element in m then Some(m[element]) else None
    case UniformStyle(c) => Some(c)
    case DefaultStyle => None
  }

  /** With high contrast on, the style is the same whatever the palette and
      base, and colours the six core elements from the high-contrast table. */
  lemma HighContrastStyleWins(p: Prefs, q: Prefs)
    requires p.highContrast && q.highContrast
    ensures StyleFor(p) == StyleFor(q)
    ensures ColorOverride(StyleFor(p), "C") == Some(HighContrastScheme.carbon)
    ensures ColorOverride(StyleFor(p), "O") == Some(HighContrastScheme.oxygen)
    ensures ColorOverride(StyleFor(p), "F") == None
  {
  }

  /** Under CPK, the four halogens take the halogen slot and the six core
      elements their own slots. */
  lemma CpkStyleColors(p: Prefs)
    requires !p.highContrast && p.palette == Cpk
    ensures forall e :: e in ["F", "Cl", "Br", "I"] ==> ColorOverride(StyleFor(p), e) == Some(CpkScheme.halogen)
    ensures ColorOverride(StyleFor(p), "C") == Some(CpkScheme.carbon)
    ensures ColorOverride(StyleFor(p), "H") == Some(CpkScheme.hydrogen)
    ensures ColorOverride(StyleFor(p), "O") == Some(CpkScheme.oxygen)
    ensures ColorOverride(StyleFor(p), "N") == Some(CpkScheme.nitrogen)
    ensures ColorOverride(StyleFor(p), "S") == Some(CpkScheme.sulfur)
    ensures ColorOverride(StyleFor(p), "P") == Some(CpkScheme.phosphorus)
  {
  }

  /** The monochromatic palette paints every element in the base colour itself. */
  lemma MonochromaticStyleIsUniform(p: Prefs, element: string)
    requires !p.highContrast && p.palette == Monochromatic
    ensures ColorOverride(StyleFor(p), element) == Some(p.monoBase)
  {
  }

  /** Rainbow and the colour-blind palettes override no colour at all. */
  lemma OtherPalettesKeepDefaultColors(p: Prefs, element: string)
    requires !p.highContrast && p.palette in {Rainbow, Protanopia, Deuteranopia, Tritanopia}
    ensures ColorOverride(StyleFor(p), element) == None
  {
  }

  // ---------------------------------------------------------------------------
  // Loading

  datatype Analysis = Analysis(atoms: nat, bonds: nat, molecularWeight: nat, elements: seq<string>)

  /** What loadMolecule does: nothing (no viewer or no content), fail (the
      library threw while building the model), or style the model and report
      its analysis. */
  datatype LoadOutcome = Skipped | Failed | Loaded(style: Style, analysis: Analysis)

  /** loadMolecule. `parsed` is what the viewer library made of the content:
      the model's atom records, or None when it threw. */
  method LoadMolecule(viewerReady: bool, content: string, parsed: Option<seq<Atom>>, prefs: Prefs)
    returns (r: LoadOutcome)
    ensures r.Skipped? <==> !viewerReady || content == ""
    ensures r.Failed? <==> viewerReady && content != "" && parsed.None?
    ensures r.Loaded? ==> parsed.Some? && r.style == StyleFor(prefs)
    ensures r.Loaded? ==> r.analysis.atoms == |parsed.value|
    ensures r.Loaded? ==> 2 * r.analysis.bonds <= TotalBondEnds(parsed.value) < 2 * r.analysis.bonds + 2
    ensures r.Loaded? ==> r.analysis.molecularWeight == TotalWeight(parsed.value)
    ensures r.Loaded? ==> r.analysis.elements == Seqs.Distinct(Symbols(parsed.value))
  {
    if !viewerReady || content == "" {
      return Skipped;
    }
    if parsed.None? {
      return Failed;
    }
    var atoms := parsed.value;
    var bonds := CountBonds(atoms);
    var weight := MolecularWeight(atoms);
    var elements := UniqueElements(atoms);
    r := Loaded(StyleFor(prefs), Analysis(|atoms|, bonds, weight, elements));
  }
}
