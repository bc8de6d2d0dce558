/** The lesson-plan page: lessons filtered by category, level and access
    (free or premium), where the empty string switches a filter off, and the
    category options taken from the lessons themselves. */
module PlanoAulas {
  import Seqs

  datatype Lesson = Lesson(id: int, title: string, summary: string, level: string, category: string, premium: bool)

  /** The three selects; "" means no filter. */
  datatype LessonFilters = LessonFilters(category: string, level: string, access: string)

  const NoFilters := LessonFilters("", "", "")

  const Free := "gratuito"
  const Premium := "premium"

  /** The access test: "" keeps everything, "gratuito" the free lessons,
      "premium" the premium ones, and any other value nothing. */
  predicate MatchesAccess(l: Lesson, access: string): (r: bool)
    ensures access == "" ==> r
    ensures access == Free ==> (r <==> !l.premium)
    ensures access == Premium ==> (r <==> l.premium)
    ensures access != "" && access != Free && access != Premium ==> !r
  {
    access == "" || (access == Free && !l.premium) || (access == Premium && l.premium)
  }

  predicate Matches(l: Lesson, f: LessonFilters): (r: bool)
    ensures f == NoFilters ==> r
    ensures r ==> MatchesAccess(l, f.access)
  {
    (f.category == "" || l.category == f.category)
    && (f.level == "" || l.level == f.level)
    && MatchesAccess(l, f.access)
  }

  /** aulasFiltradas. */
  function FilteredLessons(lessons: seq<Lesson>, f: LessonFilters): (r: seq<Lesson>)
    ensures |r| <= |lessons|
    ensures forall i :: 0 <= i < |r| ==> r[i] in lessons && Matches(r[i], f)
    ensures forall i :: 0 <= i < |lessons| && Matches(lessons[i], f) ==> lessons[i] in r
  {
    Seqs.Filter(lessons, l => Matches(l, f))
  }

  /** Each matching entry is kept as many times as the input holds it, and no other entry at all. */
  lemma FilteredLessonsMultiplicity(lessons: seq<Lesson>, f: LessonFilters)
    ensures forall l :: multiset(FilteredLessons(lessons, f))[l] == if Matches(l, f) then multiset(lessons)[l] else 0
  {
    Seqs.FilterMultiset(lessons, l => Matches(l, f));
  }

  function CategoryColumn(lessons: seq<Lesson>): (r: seq<string>)
    ensures |r| == |lessons|
    ensures forall i :: 0 <= i < |r| ==> r[i] == lessons[i].category
  {
    seq(|lessons|, i requires 0 <= i < |lessons| => lessons[i].category)
  }

  /** categorias: the distinct categories in order of first appearance. */
  function Categories(lessons: seq<Lesson>): (r: seq<string>)
    ensures Seqs.NoDuplicates(r)
    ensures forall i :: 0 <= i < |r| ==> exists j :: 0 <= j < |lessons| && lessons[j].category == r[i]
    ensures forall j :: 0 <= j < |lessons| ==> lessons[j].category in r
  {
    var column := CategoryColumn(lessons);
    var r := Seqs.Distinct(column);
    assert forall i :: 0 <= i < |r| ==> r[i] in column;
    r
  }

  /** The "no lesson found" message. */
  predicate ShowNoneFound(lessons: seq<Lesson>, f: LessonFilters)
  {
    |FilteredLessons(lessons, f)| == 0
  }

  // ---------------------------------------------------------------------------
  // Lemmas

  /** A lesson is listed exactly when it is one of the lessons and passes all three filters. */
  lemma ListedIff(lessons: seq<Lesson>, f: LessonFilters, l: Lesson)
    ensures l in FilteredLessons(lessons, f) <==> l in lessons && Matches(l, f)
  {
    var r := FilteredLessons(lessons, f);
    if l in r {
      var i :| 0 <= i < |r| && r[i] == l;
    }
    if l in lessons && Matches(l, f) {
      var i :| 0 <= i < |lessons| && lessons[i] == l;
    }
  }

  /** The result keeps the lessons' order. */
  lemma ResultIsSubsequence(lessons: seq<Lesson>, f: LessonFilters)
    ensures Seqs.IsSubsequence(FilteredLessons(lessons, f), lessons)
  {
    Seqs.FilterIsSubsequence(lessons, l => Matches(l, f));
  }

  /** With every select empty, all lessons are listed. */
  lemma NoFiltersListAll(lessons: seq<Lesson>)
    ensures FilteredLessons(lessons, NoFilters) == lessons
  {
    Seqs.FilterKeepsAll(lessons, l => Matches(l, NoFilters));
  }

  /** An access value other than "", "gratuito" and "premium" lists nothing. */
  lemma UnknownAccessListsNothing(lessons: seq<Lesson>, f: LessonFilters)
    requires f.access != "" && f.access != Free && f.access != Premium
    ensures FilteredLessons(lessons, f) == []
  {
    NoneFoundIff(lessons, f);
  }

  /** "gratuito" lists only free lessons and "premium" only premium ones. */
  lemma AccessSelectsKind(lessons: seq<Lesson>, f: LessonFilters)
    ensures f.access == Free ==> forall i :: 0 <= i < |FilteredLessons(lessons, f)| ==> !FilteredLessons(lessons, f)[i].premium
    ensures f.access == Premium ==> forall i :: 0 <= i < |FilteredLessons(lessons, f)| ==> FilteredLessons(lessons, f)[i].premium
  {
  }

  /** The free and the premium listings split the unrestricted listing
      between them: their sizes add up to its size. */
  lemma {:induction false} AccessPartition(lessons: seq<Lesson>, f: LessonFilters)
    ensures |FilteredLessons(lessons, f.(access := Free))| + |FilteredLessons(lessons, f.(access := Premium))|
         == |FilteredLessons(lessons, f.(access := ""))|
  {
    if |lessons| > 0 {
      AccessPartition(lessons[1..], f);
      FilteredLessonsStep(lessons, f.(access := Free));
      FilteredLessonsStep(lessons, f.(access := Premium));
      FilteredLessonsStep(lessons, f.(access := ""));
    }
  }

  /** The first lesson adds one to the filtered count exactly when it matches. */
  lemma FilteredLessonsStep(lessons: seq<Lesson>, f: LessonFilters)
    requires |lessons| > 0
    ensures |FilteredLessons(lessons, f)| == (if Matches(lessons[0], f) then 1 else 0) + |FilteredLessons(lessons[1..], f)|
  {
  }

  /** Each category option lists at least one lesson when the other selects are empty. */
  lemma EveryCategoryListsSomething(lessons: seq<Lesson>, c: string)
    requires c in Categories(lessons)
    ensures |FilteredLessons(lessons, LessonFilters(c, "", ""))| > 0
  {
    var r := Categories(lessons);
    var i :| 0 <= i < |r| && r[i] == c;
    var j :| 0 <= j < |lessons| && lessons[j].category == c;
    assert lessons[j] in FilteredLessons(lessons, LessonFilters(c, "", ""));
  }

  /** The category options appear in the order the lessons first use them. */
  lemma CategoriesInFirstAppearanceOrder(lessons: seq<Lesson>)
    ensures var r := Categories(lessons);
      forall i, j :: 0 <= i < j < |r| ==>
        Seqs.FirstIndex(CategoryColumn(lessons), r[i]) < Seqs.FirstIndex(CategoryColumn(lessons), r[j])
  {
    Seqs.DistinctFirstAppearanceOrder(CategoryColumn(lessons));
  }

  /** The message shows exactly when no lesson passes the filters. */
  lemma NoneFoundIff(lessons: seq<Lesson>, f: LessonFilters)
    ensures ShowNoneFound(lessons, f) <==> forall i :: 0 <= i < |lessons| ==> !Matches(lessons[i], f)
  {
    var r := FilteredLessons(lessons, f);
    if |r| > 0 {
      assert r[0] in lessons;
      var i :| 0 <= i < |lessons| && lessons[i] == r[0];
      assert Matches(lessons[i], f);
    }
  }
}
