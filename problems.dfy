/**
 * The personal problem list: the add-problem form and its validation, the tag list of
 * the form, the list of all tags, deleting, filtering and sorting the problems.
 */
module Problems {
  import opened Wrappers
  import opened Seqs
  import Sorting
  import Text

  /** A saved problem; `fetchedAt` is a timestamp in milliseconds. */
  datatype Problem = Problem(
    id: string,
    questionName: string,
    platform: string,
    difficulty: string,
    questionLink: string,
    notes: string,
    tags: seq<string>,
    fetchedAt: int)

  /** The add-problem form. */
  datatype Form = Form(
    questionName: string,
    platform: string,
    difficulty: string,
    questionLink: string,
    notes: string,
    tags: seq<string>)

  /** The form as first shown and as reset after a successful add. */
  function DefaultForm(): Form {
    Form("", "LeetCode", "Medium", "https://", "", [])
  }

  /** The form fields that can carry an error. */
  datatype Field = QuestionName | Platform | Difficulty | QuestionLink | Notes

  const NameRequired: string := "Question name is required"
  const PlatformRequired: string := "Platform is required"
  const DifficultyRequired: string := "Difficulty is required"
  const LinkRequired: string := "Question link is required"
  const LinkScheme: string := "Link must start with http:// or https://"
  const NotesRequired: string := "Notes are required"

  /** `s.startsWith('http')`. */
  predicate StartsWithHttp(s: string) {
    "http" <= s
  }

  /** `!s.trim()`: the trimmed text is empty exactly when `s` is nothing but white space. */
  method TrimsToEmpty(s: string) returns (empty: bool)
    ensures empty <==> Text.IsBlank(s)
  {
    Text.TrimEmptyIff(s);
    empty := Text.Trim(s) == "";
  }

  /** A blank link does not start with "http", so its "required" message is always overwritten. */
  lemma BlankNotHttp(link: string)
    requires Text.IsBlank(link)
    ensures !StartsWithHttp(link)
  {
    if |link| >= 4 {
      assert Text.IsSpace(link[0]);
      assert link[..4][0] == link[0];
    }
  }

  /** The form passes validation: every required field filled and the link starting with "http". */
  predicate Valid(form: Form) {
    && !Text.IsBlank(form.questionName)
    && form.platform != ""
    && form.difficulty != ""
    && StartsWithHttp(form.questionLink)
    && !Text.IsBlank(form.notes)
  }

  /**
   * The error map `validateForm` builds for `form`: a field has an entry exactly when
   * it fails its test, and the entry is that field's message (for the link, the
   * scheme message, which overwrites "Question link is required").
   */
  predicate Reports(form: Form, errors: map<Field, string>) {
    && (QuestionName in errors <==> Text.IsBlank(form.questionName))
    && (Platform in errors <==> form.platform == "")
    && (Difficulty in errors <==> form.difficulty == "")
    && (QuestionLink in errors <==> !StartsWithHttp(form.questionLink))
    && (Notes in errors <==> Text.IsBlank(form.notes))
    && (QuestionName in errors ==> errors[QuestionName] == NameRequired)
    && (Platform in errors ==> errors[Platform] == PlatformRequired)
    && (Difficulty in errors ==> errors[Difficulty] == DifficultyRequired)
    && (QuestionLink in errors ==> errors[QuestionLink] == LinkScheme)
    && (Notes in errors ==> errors[Notes] == NotesRequired)
  }

  /**
   * The validation of `handleAddProblem`: one error per failing field, the link's second
   * check overwriting its first.
   */
  method ValidateForm(form: Form) returns (errors: map<Field, string>)
    ensures Reports(form, errors)
    ensures errors == map[] <==> Valid(form)
  {
    var nameBlank := TrimsToEmpty(form.questionName);
    var linkBlank := TrimsToEmpty(form.questionLink);
    var notesBlank := TrimsToEmpty(form.notes);
    var noScheme := !StartsWithHttp(form.questionLink);
    if linkBlank {
      BlankNotHttp(form.questionLink);
    }
    errors := map[];
    if nameBlank {
      errors := errors[QuestionName := NameRequired];
    }
    if form.platform == "" {
      errors := errors[Platform := PlatformRequired];
    }
    if form.difficulty == "" {
      errors := errors[Difficulty := DifficultyRequired];
    }
    if linkBlank {
      errors := errors[QuestionLink := LinkRequired];
    }
    if noScheme {
      errors := errors[QuestionLink := LinkScheme];
    }
    if notesBlank {
      errors := errors[Notes := NotesRequired];
    }
    if errors != map[] {
      var k :| k in errors;
      assert k.QuestionName? || k.Platform? || k.Difficulty? || k.QuestionLink? || k.Notes?;
    }
  }

  /** Every tag of every problem, one problem after another. */
  function AllTags(problems: seq<Problem>): seq<string> {
    if problems == [] then []
    else AllTags(problems[..|problems| - 1]) + problems[|problems| - 1].tags
  }

  /** `xs.forEach(x => set.add(x))` on the Set of `before`. */
  method AddAll(set_: seq<string>, ghost before: seq<string>, xs: seq<string>) returns (r: seq<string>)
    requires set_ == Dedupe(before)
    ensures r == Dedupe(before + xs)
  {
    r := set_;
    var j := 0;
    assert before + xs[..0] == before;
    while j < |xs|
      invariant 0 <= j <= |xs|
      invariant r == Dedupe(before + xs[..j])
    {
      assert before + xs[..j + 1] == (before + xs[..j]) + [xs[j]];
      DedupeSnoc(before + xs[..j], xs[j]);
      if xs[j] !in r {
        r := r + [xs[j]];
      }
      j := j + 1;
    }
    assert xs[..|xs|] == xs;
  }

  /** The tag extraction after loading: every tag of every problem, once, in first-seen order. */
  method ExtractTags(problems: seq<Problem>) returns (tags: seq<string>)
    ensures tags == Dedupe(AllTags(problems))
  {
    tags := [];
    var i := 0;
    while i < |problems|
      invariant 0 <= i <= |problems|
      invariant tags == Dedupe(AllTags(problems[..i]))
    {
      assert problems[..i + 1][..i] == problems[..i];
      tags := AddAll(tags, AllTags(problems[..i]), problems[i].tags);
      i := i + 1;
    }
    assert problems[..|problems|] == problems;
  }

  /** The extracted tag list is duplicate-free and holds every tag of every problem, and nothing else. */
  lemma {:induction false} AllTagsMember(problems: seq<Problem>, t: string)
    ensures Distinct(Dedupe(AllTags(problems)))
    ensures t in Dedupe(AllTags(problems)) <==> exists i :: 0 <= i < |problems| && t in problems[i].tags
  {
    if problems != [] {
      var p := problems[..|problems| - 1];
      AllTagsMember(p, t);
      if exists i :: 0 <= i < |problems| && t in problems[i].tags {
        var i :| 0 <= i < |problems| && t in problems[i].tags;
        if i < |p| {
          assert t in p[i].tags;
        }
      }
      if t in AllTags(p) {
        var i :| 0 <= i < |p| && t in p[i].tags;
        assert t in problems[i].tags;
      }
    }
  }

  /** What the page holds between events. */
  datatype Page = Page(
    problems: seq<Problem>,
    allTags: seq<string>,
    form: Form,
    tagInput: string,
    formErrors: map<Field, string>)

  /**
   * `handleAddProblem` with the server's answer passed in (`None` for a failed or
   * refused request). It submits only when no field has an error; on success the new
   * problem goes in front, the form is reset and its tags join the tag list.
   */
  method HandleAddProblem(page: Page, response: Option<Problem>) returns (next: Page, submitted: bool)
    ensures submitted <==> Valid(page.form)
    ensures submitted <==> next.formErrors == map[]
    ensures Reports(page.form, next.formErrors)
    ensures !submitted || response.None? ==>
      next == page.(formErrors := next.formErrors)
    ensures submitted && response.Some? ==>
      && next.problems == [response.value] + page.problems
      && next.form == DefaultForm()
      && next.tagInput == ""
      && next.allTags == Dedupe(page.allTags + page.form.tags)
  {
    var errors := ValidateForm(page.form);
    next := page.(formErrors := errors);
    submitted := |errors| == 0;
    if submitted && response.Some? {
      var newTags := AddAll([], [], page.allTags);
      assert [] + page.allTags == page.allTags;
      newTags := AddAll(newTags, page.allTags, page.form.tags);
      next := Page([response.value] + page.problems, newTags, DefaultForm(), "", errors);
    }
  }

  /** `handleAddTag`: the new tag list and the new input box. */
  function AddTag(tags: seq<string>, tagInput: string): (r: (seq<string>, string))
    ensures tagInput != "" && tagInput !in tags ==> r == (tags + [tagInput], "")
    ensures tagInput == "" || tagInput in tags ==> r == (tags, tagInput)
  {
    if tagInput != "" && tagInput !in tags then (tags + [tagInput], "") else (tags, tagInput)
  }

  /** Adding keeps the tag list duplicate-free, keeps every old tag and holds the input afterwards. */
  lemma AddTagSpec(tags: seq<string>, tagInput: string)
    requires Distinct(tags)
    ensures Distinct(AddTag(tags, tagInput).0)
    ensures AddTag(tags, tagInput).0[..|tags|] == tags
    ensures tagInput != "" ==> tagInput in AddTag(tags, tagInput).0
    ensures forall t :: t in AddTag(tags, tagInput).0 ==> t in tags || t == tagInput
  {
    var r := AddTag(tags, tagInput).0;
    if tagInput != "" && tagInput !in tags {
      assert r == tags + [tagInput];
      assert r[..|tags|] == tags;
    }
  }

  /** `handleRemoveTag`: every other tag, in order. */
  function RemoveTag(tags: seq<string>, tagToRemove: string): (r: seq<string>)
    ensures tagToRemove !in r
    ensures forall t :: t in tags && t != tagToRemove ==> t in r
    ensures forall t :: t in r ==> t in tags
  {
    Filter(tags, (t: string) => t != tagToRemove)
  }

  /** Removing keeps the order of the tags left and keeps the list duplicate-free. */
  lemma RemoveTagSpec(tags: seq<string>, tagToRemove: string)
    ensures IsSubsequence(RemoveTag(tags, tagToRemove), tags)
    ensures Distinct(tags) ==> Distinct(RemoveTag(tags, tagToRemove))
    ensures forall t :: t != tagToRemove ==> multiset(RemoveTag(tags, tagToRemove))[t] == multiset(tags)[t]
  {
    FilterSubsequence(tags, (t: string) => t != tagToRemove);
    forall t | t != tagToRemove
      ensures multiset(RemoveTag(tags, tagToRemove))[t] == multiset(tags)[t]
    {
      FilterMultiplicity(tags, (t: string) => t != tagToRemove, t);
    }
    if Distinct(tags) {
      FilterDistinct(tags, (t: string) => t != tagToRemove);
    }
  }

  /** Removing a tag just added gives back the old list. */
  lemma AddThenRemove(tags: seq<string>, tagInput: string)
    requires tagInput != "" && tagInput !in tags
    ensures RemoveTag(AddTag(tags, tagInput).0, tagInput) == tags
  {
    FilterSnoc(tags, tagInput, t => t != tagInput);
    FilterAll(tags, (t: string) => t != tagInput);
  }

  /** The delete filter: every problem whose id differs. */
  function DeleteProblem(problems: seq<Problem>, problemId: string): (r: seq<Problem>)
    ensures forall p :: p in r ==> p.id != problemId
    ensures forall p :: p in problems && p.id != problemId ==> p in r
  {
    Filter(problems, (p: Problem) => p.id != problemId)
  }

  /** Deleting keeps the order of the problems left. */
  lemma DeleteKeepsOrder(problems: seq<Problem>, problemId: string)
    ensures IsSubsequence(DeleteProblem(problems, problemId), problems)
    ensures forall p: Problem :: p.id != problemId ==>
      multiset(DeleteProblem(problems, problemId))[p] == multiset(problems)[p]
  {
    FilterSubsequence(problems, (p: Problem) => p.id != problemId);
    forall p: Problem | p.id != problemId
      ensures multiset(DeleteProblem(problems, problemId))[p] == multiset(problems)[p]
    {
      FilterMultiplicity(problems, (q: Problem) => q.id != problemId, p);
    }
  }

  /** The four list filters of the page. */
  datatype Filters = Filters(searchQuery: string, platform: string, difficulty: string, tag: string)

  /** The filters as first shown. */
  function NoFilters(): Filters {
    Filters("", "All", "All", "")
  }

  /** A problem passes `filteredProblems`' four tests. */
  predicate Matches(f: Filters, p: Problem) {
    var q := Text.ToLower(f.searchQuery);
    && (Text.Contains(Text.ToLower(p.questionName), q) || Text.Contains(Text.ToLower(p.notes), q))
    && (f.platform == "All" || p.platform == f.platform)
    && (f.difficulty == "All" || p.difficulty == f.difficulty)
    && (f.tag == "" || exists i :: 0 <= i < |p.tags| && Text.Contains(Text.ToLower(p.tags[i]), Text.ToLower(f.tag)))
  }

  /** `filteredProblems`. */
  function FilterProblems(problems: seq<Problem>, f: Filters): seq<Problem> {
    Filter(problems, (p: Problem) => Matches(f, p))
  }

  /** The filtered list is an order-preserving selection of exactly the matching problems. */
  lemma FilterProblemsSpec(problems: seq<Problem>, f: Filters)
    ensures IsSubsequence(FilterProblems(problems, f), problems)
    ensures forall p :: p in FilterProblems(problems, f) <==> p in problems && Matches(f, p)
    ensures forall p :: multiset(FilterProblems(problems, f))[p] == if Matches(f, p) then multiset(problems)[p] else 0
  {
    FilterSubsequence(problems, (p: Problem) => Matches(f, p));
    forall p
      ensures multiset(FilterProblems(problems, f))[p] == if Matches(f, p) then multiset(problems)[p] else 0
    {
      FilterMultiplicity(problems, (p: Problem) => Matches(f, p), p);
    }
  }

  /** With the initial filters nothing is filtered out. */
  lemma NoFiltersKeepAll(problems: seq<Problem>)
    ensures FilterProblems(problems, NoFilters()) == problems
  {
    forall i | 0 <= i < |problems|
      ensures Matches(NoFilters(), problems[i])
    {
      Text.ContainsEmpty(Text.ToLower(problems[i].questionName));
    }
    FilterAll(problems, (p: Problem) => Matches(NoFilters(), p));
  }

  /** The columns the table sorts by. */
  datatype SortKey = FetchedAt | ByName | ByPlatform | ByDifficulty

  /** `sortConfig`. */
  datatype SortConfig = SortConfig(key: SortKey, ascending: bool)

  /** The order first shown: newest first. */
  function DefaultSort(): SortConfig {
    SortConfig(FetchedAt, false)
  }

  /** `requestSort(key)`. */
  function RequestSort(cfg: SortConfig, key: SortKey): (r: SortConfig)
    ensures r.key == key
    ensures !r.ascending <==> cfg.key == key && cfg.ascending
  {
    if cfg.key == key && cfg.ascending then SortConfig(key, false) else SortConfig(key, true)
  }

  /** Asking twice for the same column flips the direction. */
  lemma RequestSortToggles(cfg: SortConfig, key: SortKey)
    ensures RequestSort(RequestSort(cfg, key), key).ascending != RequestSort(cfg, key).ascending
  {
  }

  /** The text a column sorts on. */
  function Column(key: SortKey, p: Problem): string {
    match key
    case ByName => p.questionName
    case ByPlatform => p.platform
    case ByDifficulty => p.difficulty
    case FetchedAt => ""
  }

  /** The comparator of `sortedProblems`, as "comes first". */
  function Before(cfg: SortConfig): (Problem, Problem) -> bool {
    if cfg.key == FetchedAt then
      (if cfg.ascending then (a: Problem, b: Problem) => a.fetchedAt < b.fetchedAt
       else (a: Problem, b: Problem) => b.fetchedAt < a.fetchedAt)
    else
      (if cfg.ascending then (a: Problem, b: Problem) => Text.LexLess(Column(cfg.key, a), Column(cfg.key, b))
       else (a: Problem, b: Problem) => Text.LexLess(Column(cfg.key, b), Column(cfg.key, a)))
  }

  /** The comparator is consistent: a strict weak order for every configuration. */
  lemma BeforeWeak(cfg: SortConfig)
    ensures Sorting.WeakOrder(Before(cfg))
  {
    var lt := Before(cfg);
    if cfg.key != FetchedAt {
      forall a, b | lt(a, b)
        ensures !lt(b, a)
      {
        var x, y := Column(cfg.key, a), Column(cfg.key, b);
        if Text.LexLess(x, y) && Text.LexLess(y, x) {
          Text.LexTransitive(x, y, x);
          Text.LexIrreflexive(x);
        }
      }
      forall a, b, c | !lt(a, b) && !lt(b, c)
        ensures !lt(a, c)
      {
        var x, y, z := Column(cfg.key, a), Column(cfg.key, b), Column(cfg.key, c);
        Text.LexTrichotomy(x, y);
        Text.LexTrichotomy(y, z);
        Text.LexTrichotomy(x, z);
        Text.LexIrreflexive(x);
        if Text.LexLess(x, z) && Text.LexLess(z, x) {
          Text.LexTransitive(x, z, x);
        }
        if Text.LexLess(y, x) && Text.LexLess(z, y) {
          Text.LexTransitive(z, y, x);
        }
        if Text.LexLess(x, y) && Text.LexLess(y, z) {
          Text.LexTransitive(x, y, z);
        }
      }
    }
  }

  /** `sortedProblems`. */
  function SortProblems(filtered: seq<Problem>, cfg: SortConfig): seq<Problem> {
    Sorting.Sort(filtered, Before(cfg))
  }

  /**
   * The sorted list is a rearrangement of the filtered list in the chosen order, and
   * rows that compare equal keep their filtered order.
   */
  lemma SortProblemsSpec(filtered: seq<Problem>, cfg: SortConfig, z: Problem)
    ensures multiset(SortProblems(filtered, cfg)) == multiset(filtered)
    ensures Sorting.Sorted(SortProblems(filtered, cfg), Before(cfg))
    ensures Filter(SortProblems(filtered, cfg), Sorting.TiedWith(Before(cfg), z))
      == Filter(filtered, Sorting.TiedWith(Before(cfg), z))
  {
    BeforeWeak(cfg);
    Sorting.SortSorted(filtered, Before(cfg));
    Sorting.SortStable(filtered, Before(cfg), z);
  }

  /** Difficulty sorts as text: ascending puts "Easy", then "Hard", then "Medium". */
  lemma DifficultyOrder()
    ensures Text.LexLess("Easy", "Hard") && Text.LexLess("Hard", "Medium")
  {
  }
}
