/**
 * The list filters: the category filter (`currentFilter`) and the theme filter
 * (`currentThemeFilter`), both 'all' when inactive, the visibility of each
 * category section and of each quiz card, the handlers that change them, and
 * the count the "Clear Filters" button shows.
 */
module Filters {
  import opened Wrappers
  import opened JsText
  import opened QuizData
  import opened Router

  const All := "all"

  /** A category section, or a quiz's category, passes the category filter. */
  predicate CategoryPasses(filter: string, category: string)
  {
    filter == All || category == filter
  }

  /** The theme of the first question of a quiz file, when it has questions and that one has a theme. */
  function FirstTheme(files: map<string, seq<Question>>, quiz: QuizMeta): Option<string>
  {
    var questions := Fetch(files, quiz.filename);
    if |questions| > 0 then questions[0].theme else None
  }

  /**
   * A card's visibility after filterQuizzesByTheme(theme) under category filter
   * `filter`, given its visibility `was` before. The card's `data-id` is looked up in
   * the manifest; a card whose id finds no quiz is skipped. Under theme 'all' a card
   * whose quiz passes the category filter is shown and any other keeps its
   * visibility; under any other theme a card is shown exactly when its quiz's first
   * question has that theme and the quiz passes the category filter.
   */
  function CardShownAfterThemeFilter(filter: string, theme: string, catalog: seq<QuizMeta>,
                                     files: map<string, seq<Question>>, cardId: string, was: bool): (shown: bool)
    ensures FindQuiz(catalog, ParseInt(cardId)).None? ==> shown == was
    ensures theme == All && was ==> shown
    ensures shown && !was ==>
      FindQuiz(catalog, ParseInt(cardId)).Some? && CategoryPasses(filter, FindQuiz(catalog, ParseInt(cardId)).value.category)
  {
    match FindQuiz(catalog, ParseInt(cardId))
    case None => was
    case Some(quiz) =>
      if theme == All then
        CategoryPasses(filter, quiz.category) || was
      else
        FirstTheme(files, quiz) == Some(theme) && CategoryPasses(filter, quiz.category)
  }

  /** Under a theme other than 'all', a card's earlier visibility plays no part. */
  lemma ThemeFilterForgetsVisibility(filter: string, theme: string, catalog: seq<QuizMeta>,
                                     files: map<string, seq<Question>>, cardId: string)
    requires theme != All && FindQuiz(catalog, ParseInt(cardId)).Some?
    ensures CardShownAfterThemeFilter(filter, theme, catalog, files, cardId, true)
      == CardShownAfterThemeFilter(filter, theme, catalog, files, cardId, false)
  {
  }

  /** The number updateFilterIndicator shows: how many of the two filters are not 'all'. */
  function ActiveFilterCount(filter: string, theme: string): (n: nat)
    ensures n <= 2
    ensures n == 0 <==> filter == All && theme == All
    ensures n == 2 <==> filter != All && theme != All
  {
    (if filter != All then 1 else 0) + (if theme != All then 1 else 0)
  }

  /**
   * The card createQuizCard renders for a manifest entry carries that entry's id, and
   * when manifest ids are unique the theme filter judges the card by that very entry.
   */
  lemma CardOfManifestEntry(filter: string, theme: string, catalog: seq<QuizMeta>,
                            files: map<string, seq<Question>>, k: nat, was: bool)
    requires k < |catalog|
    requires forall i, j :: 0 <= i < j < |catalog| ==> catalog[i].id != catalog[j].id
    ensures CardShownAfterThemeFilter(filter, theme, catalog, files, NumberToString(catalog[k].id), was)
      <==> (if theme == All then CategoryPasses(filter, catalog[k].category) || was
            else FirstTheme(files, catalog[k]) == Some(theme) && CategoryPasses(filter, catalog[k].category))
  {
    ParseIntOfNumberToString(catalog[k].id);
    FindQuizOwnId(catalog, k);
  }

  /** The filter state of the rendered quiz list. */
  class FilterPanel {
    var filter: string                         // currentFilter
    var theme: string                          // currentThemeFilter
    const catalog: seq<QuizMeta>               // quizzesMetadata
    const files: map<string, seq<Question>>    // what fetchQuizData can fetch
    const sections: seq<string>                // each section's `data-theme`, in page order
    const cardIds: seq<string>                 // each card's `data-id`, in page order
    var sectionShown: seq<bool>
    var cardShown: seq<bool>

    ghost predicate Valid()
      reads this
    {
      |sectionShown| == |sections| && |cardShown| == |cardIds|
    }

    /** The list as first rendered: no filter active and everything shown. */
    constructor (catalog: seq<QuizMeta>, files: map<string, seq<Question>>,
                 sections: seq<string>, cardIds: seq<string>)
      ensures Valid()
      ensures filter == All && theme == All
      ensures this.catalog == catalog && this.files == files
      ensures this.sections == sections && this.cardIds == cardIds
      ensures forall k :: 0 <= k < |sections| ==> sectionShown[k]
      ensures forall k :: 0 <= k < |cardIds| ==> cardShown[k]
    {
      filter := All;
      theme := All;
      this.catalog := catalog;
      this.files := files;
      this.sections := sections;
      this.cardIds := cardIds;
      sectionShown := seq(|sections|, _ => true);
      cardShown := seq(|cardIds|, _ => true);
    }

    /**
     * filterQuizzesByTheme: records the theme filter and, card by card, recomputes the
     * card's visibility from the theme filter and the category filter.
     */
    method FilterByTheme(t: string)
      requires Valid()
      modifies this
      ensures Valid() && theme == t && filter == old(filter)
      ensures sectionShown == old(sectionShown)
      ensures forall k :: 0 <= k < |cardIds| ==>
                cardShown[k] == CardShownAfterThemeFilter(filter, t, catalog, files, cardIds[k], old(cardShown[k]))
    {
      theme := t;
      var i := 0;
      while i < |cardIds|
        invariant 0 <= i <= |cardIds| && |cardShown| == |cardIds|
        invariant sectionShown == old(sectionShown) && theme == t && filter == old(filter)
        invariant forall k :: 0 <= k < i ==>
                    cardShown[k] == CardShownAfterThemeFilter(filter, t, catalog, files, cardIds[k], old(cardShown[k]))
        invariant forall k :: i <= k < |cardIds| ==> cardShown[k] == old(cardShown[k])
      {
        var found := FindQuiz(catalog, ParseInt(cardIds[i]));
        if found.Some? {
          var quiz := found.value;
          if t == All {
            if CategoryPasses(filter, quiz.category) {
              cardShown := cardShown[i := true];
            }
          } else {
            cardShown := cardShown[i := false];
            var questions := Fetch(files, quiz.filename);
            if |questions| > 0 && questions[0].theme == Some(t) {
              if CategoryPasses(filter, quiz.category) {
                cardShown := cardShown[i := true];
              }
            }
          }
        }
        i := i + 1;
      }
    }

    /**
     * filterQuizzesByCategory: records the category filter, shows exactly the sections
     * of that category (all of them for 'all'), then re-applies an active theme filter.
     */
    method FilterByCategory(c: string)
      requires Valid()
      modifies this
      ensures Valid() && filter == c && theme == old(theme)
      ensures forall k :: 0 <= k < |sections| ==> sectionShown[k] == CategoryPasses(c, sections[k])
      ensures theme == All ==> cardShown == old(cardShown)
      ensures theme != All ==> forall k :: 0 <= k < |cardIds| ==>
                cardShown[k] == CardShownAfterThemeFilter(c, theme, catalog, files, cardIds[k], old(cardShown[k]))
    {
      filter := c;
      var i := 0;
      while i < |sections|
        invariant 0 <= i <= |sections| && |sectionShown| == |sections|
        invariant cardShown == old(cardShown) && filter == c && theme == old(theme)
        invariant forall k :: 0 <= k < i ==> sectionShown[k] == CategoryPasses(c, sections[k])
      {
        sectionShown := sectionShown[i := CategoryPasses(c, sections[i])];
        i := i + 1;
      }
      if theme != All {
        FilterByTheme(theme);
      }
    }

    /**
     * The "All Categories" button: filterQuizzesByCategory('all'), then the theme filter
     * is reset to 'all'. The cards are still those the old theme filter shows.
     */
    method SelectAllCategories()
      requires Valid()
      modifies this
      ensures Valid() && filter == All && theme == All
      ensures forall k :: 0 <= k < |sections| ==> sectionShown[k]
      ensures old(theme) == All ==> cardShown == old(cardShown)
      ensures old(theme) != All ==> forall k :: 0 <= k < |cardIds| ==>
                cardShown[k] == CardShownAfterThemeFilter(All, old(theme), catalog, files, cardIds[k], old(cardShown[k]))
    {
      FilterByCategory(All);
      theme := All;
    }

    /** The "Clear Filters" button: both filters back to 'all', every section and card shown. */
    method ClearFilters()
      requires Valid()
      modifies this
      ensures Valid() && filter == All && theme == All
      ensures forall k :: 0 <= k < |sections| ==> sectionShown[k]
      ensures forall k :: 0 <= k < |cardIds| ==> cardShown[k]
    {
      filter := All;
      theme := All;
      sectionShown := seq(|sections|, _ => true);
      cardShown := seq(|cardIds|, _ => true);
    }
  }

  /**
   * With a theme filter active, "All Categories" leaves the indicator at zero active
   * filters while a card whose first question has another theme stays hidden; "Clear
   * Filters" shows it again.
   */
  method AllCategoriesKeepsThemeFilterScenario(quiz: QuizMeta, t: string, questions: seq<Question>)
    returns (count: nat, hiddenAfterAll: bool, shownAfterClear: bool)
    requires t != All
    requires |questions| > 0 && questions[0].theme != Some(t)
    ensures count == 0 && hiddenAfterAll && shownAfterClear
  {
    var files := map[quiz.filename := questions];
    CardOfManifestEntry(All, t, [quiz], files, 0, true);
    var panel := new FilterPanel([quiz], files, [quiz.category], [NumberToString(quiz.id)]);
    panel.FilterByTheme(t);
    panel.SelectAllCategories();
    count := ActiveFilterCount(panel.filter, panel.theme);
    hiddenAfterAll := !panel.cardShown[0];
    panel.ClearFilters();
    shownAfterClear := panel.cardShown[0];
  }
}
