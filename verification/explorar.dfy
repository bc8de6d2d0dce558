/** The molecule catalogue page: a free-text search on name and formula,
    combined with a type filter and a function filter, each of which the
    value "all" switches off. */
module Explorar {
  import opened Text
  import Seqs

  /** A catalogue entry; `kind` is the molecule's type and `role` its
      biological function. */
  datatype Molecule = Molecule(id: string, name: string, formula: string, kind: string, role: string)

  datatype Filters = Filters(query: string, selectedType: string, selectedFunction: string)

  const All := "all"

  const InitialFilters := Filters("", All, All)

  /** The query, lower-cased, occurs in the lower-cased name or formula. */
  predicate MatchesSearch(m: Molecule, query: string): (r: bool)
    ensures query == "" ==> r
    ensures Contains(m.name, query) || Contains(m.formula, query) ==> r
  {
    assert Lower("") == "";
    ContainsEmpty(Lower(m.name));
    ContainsLower(m.name, query);
    ContainsLower(m.formula, query);
    Contains(Lower(m.name), Lower(query)) || Contains(Lower(m.formula), Lower(query))
  }

  predicate MatchesType(m: Molecule, selectedType: string)
  {
    selectedType == All || m.kind == selectedType
  }

  predicate MatchesFunction(m: Molecule, selectedFunction: string)
  {
    selectedFunction == All || m.role == selectedFunction
  }

  predicate Matches(m: Molecule, f: Filters): (r: bool)
    ensures r ==> MatchesSearch(m, f.query)
    ensures f.selectedType == All && f.selectedFunction == All ==> (r <==> MatchesSearch(m, f.query))
  {
    MatchesSearch(m, f.query) && MatchesType(m, f.selectedType) && MatchesFunction(m, f.selectedFunction)
  }

  /** filteredMolecules. */
  function FilteredMolecules(catalogue: seq<Molecule>, f: Filters): (r: seq<Molecule>)
    ensures |r| <= |catalogue|
    ensures forall i :: 0 <= i < |r| ==> r[i] in catalogue && Matches(r[i], f)
    ensures forall i :: 0 <= i < |catalogue| && Matches(catalogue[i], f) ==> catalogue[i] in r
  {
    Seqs.Filter(catalogue, m => Matches(m, f))
  }

  /** Each matching entry is kept as many times as the input holds it, and no other entry at all. */
  lemma FilteredMoleculesMultiplicity(catalogue: seq<Molecule>, f: Filters)
    ensures forall m :: multiset(FilteredMolecules(catalogue, f))[m] == if Matches(m, f) then multiset(catalogue)[m] else 0
  {
    Seqs.FilterMultiset(catalogue, m => Matches(m, f));
  }

  /** The "no molecule found" message. */
  predicate ShowNoResults(catalogue: seq<Molecule>, f: Filters)
  {
    |FilteredMolecules(catalogue, f)| == 0
  }

  // ---------------------------------------------------------------------------
  // Lemmas

  /** A molecule is shown exactly when it is in the catalogue and passes the
      search, the type filter and the function filter. */
  lemma ShownIff(catalogue: seq<Molecule>, f: Filters, m: Molecule)
    ensures m in FilteredMolecules(catalogue, f) <==>
      m in catalogue && MatchesSearch(m, f.query) && MatchesType(m, f.selectedType) && MatchesFunction(m, f.selectedFunction)
  {
    var r := FilteredMolecules(catalogue, f);
    if m in r {
      var i :| 0 <= i < |r| && r[i] == m;
    }
    if m in catalogue && Matches(m, f) {
      var i :| 0 <= i < |catalogue| && catalogue[i] == m;
    }
  }

  /** The result keeps the catalogue's order, and "x de y moléculas" never
      shows x above y. */
  lemma ResultIsSubsequence(catalogue: seq<Molecule>, f: Filters)
    ensures Seqs.IsSubsequence(FilteredMolecules(catalogue, f), catalogue)
    ensures |FilteredMolecules(catalogue, f)| <= |catalogue|
  {
    Seqs.FilterIsSubsequence(catalogue, m => Matches(m, f));
  }

  /** With an empty query and both selects on "all", the whole catalogue shows. */
  lemma InitialFiltersShowAll(catalogue: seq<Molecule>)
    ensures FilteredMolecules(catalogue, InitialFilters) == catalogue
  {
    forall i | 0 <= i < |catalogue|
      ensures Matches(catalogue[i], InitialFilters)
    {
      assert Lower(InitialFilters.query) == "";
      ContainsEmpty(Lower(catalogue[i].name));
    }
    Seqs.FilterKeepsAll(catalogue, m => Matches(m, InitialFilters));
  }

  /** Searching with the upper-cased query looks for the query's folded
      form; when the query holds no sharp s and no micro sign, that is the
      lower-cased query, so the query and its upper-cased form select the
      same molecules, and a name containing the query literally matches. */
  lemma SearchIgnoresCase(m: Molecule, query: string)
    ensures MatchesSearch(m, Upper(query)) <==>
      Contains(Lower(m.name), Fold(query)) || Contains(Lower(m.formula), Fold(query))
    ensures SharpS !in query && MicroSign !in query ==>
      MatchesSearch(m, Upper(query)) == MatchesSearch(m, query)
    ensures SharpS !in query && MicroSign !in query && Contains(m.name, query) ==>
      MatchesSearch(m, Upper(query))
  {
    LowerOfUpper(query);
    if Contains(m.name, query) {
      ContainsLower(m.name, query);
    }
  }

  /** With a sharp s the search is not case-blind: a molecule named "ß"
      matches the query "ß" but not its upper-cased form "SS". */
  lemma SharpSQueryIsCaseSensitive()
    ensures var m := Molecule("1", [SharpS], "", "", "");
      MatchesSearch(m, [SharpS]) && !MatchesSearch(m, Upper([SharpS]))
  {
    var m := Molecule("1", [SharpS], "", "", "");
    SharpSIsNotReversible();
    assert OccursAt(Lower(m.name), Lower([SharpS]), 0);
    if Contains(Lower(m.name), "ss") {
      ContainsShorter(Lower(m.name), "ss");
    }
    if Contains(Lower(m.formula), "ss") {
      ContainsShorter(Lower(m.formula), "ss");
    }
  }

  /** The message shows exactly when no catalogue entry passes the filters. */
  lemma NoResultsIff(catalogue: seq<Molecule>, f: Filters)
    ensures ShowNoResults(catalogue, f) <==> forall i :: 0 <= i < |catalogue| ==> !Matches(catalogue[i], f)
  {
    var r := FilteredMolecules(catalogue, f);
    if |r| > 0 {
      assert r[0] in catalogue;
      var i :| 0 <= i < |catalogue| && catalogue[i] == r[0];
      assert Matches(catalogue[i], f);
    }
  }

  /** Choosing a type instead of "all" can only narrow the result. */
  lemma TypeFilterNarrows(catalogue: seq<Molecule>, f: Filters, t: string)
    requires f.selectedType == All
    ensures forall m :: m in FilteredMolecules(catalogue, f.(selectedType := t)) ==> m in FilteredMolecules(catalogue, f)
  {
    forall m | m in FilteredMolecules(catalogue, f.(selectedType := t))
      ensures m in FilteredMolecules(catalogue, f)
    {
      ShownIff(catalogue, f.(selectedType := t), m);
      ShownIff(catalogue, f, m);
    }
  }
}
