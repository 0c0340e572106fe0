/**
 * The category helpers of the quiz list: the distinct categories of the manifest in
 * order of first appearance (getUniqueCategories), the quizzes grouped by category
 * (groupQuizzesByCategory), and the icon and display name shown for a category.
 */
module Categories {
  import opened JsText
  import opened QuizData

  // ---------------------------------------------------------------------------
  // Distinct categories
  // ---------------------------------------------------------------------------

  /** The categories of `quizzes`, each once, in the order in which they first appear. */
  function FirstAppearances(quizzes: seq<QuizMeta>): seq<string>
  {
    if quizzes == [] then []
    else
      var earlier := FirstAppearances(quizzes[..|quizzes| - 1]);
      var c := quizzes[|quizzes| - 1].category;
      if c in earlier then earlier else earlier + [c]
  }

  /** Some quiz among `quizzes` has category `c`. */
  predicate HasCategory(quizzes: seq<QuizMeta>, c: string)
  {
    exists k :: 0 <= k < |quizzes| && quizzes[k].category == c
  }

  /**
   * getUniqueCategories: adds every quiz's category to a set, in order, and returns
   * the set's elements in insertion order.
   */
  method UniqueCategories(quizzes: seq<QuizMeta>) returns (categories: seq<string>)
    ensures categories == FirstAppearances(quizzes)
  {
    var seen: set<string> := {};
    categories := [];
    var i := 0;
    while i < |quizzes|
      invariant 0 <= i <= |quizzes|
      invariant categories == FirstAppearances(quizzes[..i])
      invariant seen == set c | c in categories
    {
      assert quizzes[..i + 1][..i] == quizzes[..i];
      var c := quizzes[i].category;
      if c !in seen {
        seen := seen + {c};
        categories := categories + [c];
      }
      i := i + 1;
    }
    assert quizzes[..i] == quizzes;
  }

  /** A category is listed exactly when some quiz has it. */
  lemma {:induction false} FirstAppearancesElements(quizzes: seq<QuizMeta>, c: string)
    ensures c in FirstAppearances(quizzes) <==> HasCategory(quizzes, c)
  {
    if quizzes != [] {
      var n := |quizzes| - 1;
      var prefix := quizzes[..n];
      FirstAppearancesElements(prefix, c);
      if HasCategory(prefix, c) {
        var k :| 0 <= k < |prefix| && prefix[k].category == c;
        assert quizzes[k].category == c;
      }
      if HasCategory(quizzes, c) && quizzes[n].category != c {
        var k :| 0 <= k < |quizzes| && quizzes[k].category == c;
        assert prefix[k].category == c;
      }
    }
  }

  /** No category is listed twice. */
  lemma {:induction false} FirstAppearancesDistinct(quizzes: seq<QuizMeta>)
    ensures forall i, j :: 0 <= i < j < |FirstAppearances(quizzes)| ==>
      FirstAppearances(quizzes)[i] != FirstAppearances(quizzes)[j]
  {
    if quizzes != [] {
      FirstAppearancesDistinct(quizzes[..|quizzes| - 1]);
    }
  }

  /**
   * The listing follows first appearance: every quiz of a later-listed category comes
   * after some quiz of each earlier-listed category.
   */
  lemma {:induction false} FirstAppearancesOrder(quizzes: seq<QuizMeta>, i: nat, j: nat, m: nat)
    requires i < j < |FirstAppearances(quizzes)|
    requires m < |quizzes| && quizzes[m].category == FirstAppearances(quizzes)[j]
    ensures exists k :: 0 <= k < m && quizzes[k].category == FirstAppearances(quizzes)[i]
  {
    var n := |quizzes| - 1;
    var prefix := quizzes[..n];
    var earlier := FirstAppearances(prefix);
    var r := FirstAppearances(quizzes);
    assert r[i] == earlier[i];
    FirstAppearancesElements(prefix, r[i]);
    if j < |earlier| {
      assert r[j] == earlier[j];
      if m < n {
        FirstAppearancesOrder(prefix, i, j, m);
        var k :| 0 <= k < m && prefix[k].category == earlier[i];
        assert quizzes[k].category == r[i];
      } else {
        FirstAppearancesElements(prefix, r[j]);
        var m' :| 0 <= m' < |prefix| && prefix[m'].category == earlier[j];
        FirstAppearancesOrder(prefix, i, j, m');
        var k :| 0 <= k < m' && prefix[k].category == earlier[i];
        assert quizzes[k].category == r[i];
      }
    } else {
      // r[j] is the last quiz's category, seen for the first time there
      FirstAppearancesElements(prefix, r[j]);
      assert !HasCategory(prefix, r[j]);
      assert m == n;
      var k :| 0 <= k < |prefix| && prefix[k].category == r[i];
      assert quizzes[k].category == r[i];
    }
  }

  // ---------------------------------------------------------------------------
  // Grouping
  // ---------------------------------------------------------------------------

  /** The quizzes of category `c`, in input order. */
  function OfCategory(quizzes: seq<QuizMeta>, c: string): seq<QuizMeta>
  {
    if quizzes == [] then []
    else
      var earlier := OfCategory(quizzes[..|quizzes| - 1], c);
      var q := quizzes[|quizzes| - 1];
      if q.category == c then earlier + [q] else earlier
  }

  /**
   * groupQuizzesByCategory: for each quiz in turn, creates its category's list when
   * missing and appends the quiz to it.
   */
  method GroupByCategory(quizzes: seq<QuizMeta>) returns (groups: map<string, seq<QuizMeta>>)
    ensures forall c :: c in groups <==> HasCategory(quizzes, c)
    ensures forall c :: c in groups ==> groups[c] == OfCategory(quizzes, c)
  {
    groups := map[];
    var i := 0;
    while i < |quizzes|
      invariant 0 <= i <= |quizzes|
      invariant forall c :: c in groups <==> HasCategory(quizzes[..i], c)
      invariant forall c :: c in groups ==> groups[c] == OfCategory(quizzes[..i], c)
    {
      var prefix := quizzes[..i + 1];
      assert prefix[..i] == quizzes[..i];
      forall c
        ensures HasCategory(prefix, c) <==> HasCategory(quizzes[..i], c) || quizzes[i].category == c
      {
        if HasCategory(quizzes[..i], c) {
          var k :| 0 <= k < i && quizzes[..i][k].category == c;
          assert prefix[k].category == c;
        }
        if HasCategory(prefix, c) && quizzes[i].category != c {
          var k :| 0 <= k < i + 1 && prefix[k].category == c;
          assert quizzes[..i][k].category == c;
        }
      }
      forall c
        ensures OfCategory(prefix, c)
          == if quizzes[i].category == c then OfCategory(quizzes[..i], c) + [quizzes[i]] else OfCategory(quizzes[..i], c)
      {
      }
      var c := quizzes[i].category;
      if c !in groups {
        OfCategoryOfAbsent(quizzes[..i], c);
        groups := groups[c := []];
      }
      groups := groups[c := groups[c] + [quizzes[i]]];
      i := i + 1;
    }
    assert quizzes[..i] == quizzes;
  }

  /** A category no quiz has groups nothing. */
  lemma {:induction false} OfCategoryOfAbsent(quizzes: seq<QuizMeta>, c: string)
    requires !HasCategory(quizzes, c)
    ensures OfCategory(quizzes, c) == []
  {
    if quizzes != [] {
      var n := |quizzes| - 1;
      assert quizzes[n].category != c;
      assert !HasCategory(quizzes[..n], c);
      OfCategoryOfAbsent(quizzes[..n], c);
    }
  }

  /** The groups are keyed by exactly the distinct categories. */
  lemma GroupKeysAreTheCategories(quizzes: seq<QuizMeta>, groups: map<string, seq<QuizMeta>>)
    requires forall c :: c in groups <==> HasCategory(quizzes, c)
    ensures groups.Keys == set c | c in FirstAppearances(quizzes)
  {
    forall c | c in FirstAppearances(quizzes) || c in groups
      ensures c in groups <==> c in FirstAppearances(quizzes)
    {
      FirstAppearancesElements(quizzes, c);
    }
  }

  /**
   * Every quiz lands in its own category's list, as many times as it occurs in the
   * input, and in no other list.
   */
  lemma {:induction false} OfCategoryMultiplicity(quizzes: seq<QuizMeta>, c: string, q: QuizMeta)
    ensures multiset(OfCategory(quizzes, c))[q] == if q.category == c then multiset(quizzes)[q] else 0
  {
    if quizzes != [] {
      var n := |quizzes| - 1;
      OfCategoryMultiplicity(quizzes[..n], c, q);
      assert quizzes == quizzes[..n] + [quizzes[n]];
    }
  }

  /** Grouping keeps input order: the group of a concatenation is the concatenation of the groups. */
  lemma {:induction false} OfCategoryAppend(front: seq<QuizMeta>, back: seq<QuizMeta>, c: string)
    ensures OfCategory(front + back, c) == OfCategory(front, c) + OfCategory(back, c)
  {
    if back == [] {
      assert front + back == front;
    } else {
      var n := |back| - 1;
      OfCategoryAppend(front, back[..n], c);
      assert (front + back)[..|front + back| - 1] == front + back[..n];
    }
  }

  // ---------------------------------------------------------------------------
  // Icons and display names
  // ---------------------------------------------------------------------------

  /** The icon class of each known category. */
  const CategoryIcons: map<string, string> := map[
    "francais" := "fa-flag",
    "villes_france" := "fa-city",
    "english" := "fa-coffee",
    "spanish" := "fa-sun",
    "italian" := "fa-pizza-slice",
    "german" := "fa-beer"
  ]

  /** The display name of each known category. */
  const CategoryNames: map<string, string> := map[
    "francais" := "French",
    "villes_france" := "French Cities",
    "english" := "English",
    "spanish" := "Spanish",
    "italian" := "Italian",
    "german" := "German"
  ]

  const DefaultIcon := "fa-bookmark"

  /** The icon shown for a category: its own, or the bookmark for unknown categories. */
  function Icon(category: string): (icon: string)
    ensures icon == DefaultIcon <==> category !in CategoryIcons
  {
    if category in CategoryIcons then CategoryIcons[category] else DefaultIcon
  }

  /**
   * The name shown on a category button and section header: the known name, or the
   * category with its first character upper-cased and the first `_` after it turned
   * into a space.
   */
  function DisplayName(category: string): (name: string)
    ensures name == "" <==> category == ""
    ensures category !in CategoryNames ==> |name| == |category|
  {
    if category in CategoryNames then CategoryNames[category]
    else
      FallbackNameShape(category);
      FallbackName(category)
  }

  /** The name made from an unknown category: `category.charAt(0).toUpperCase() + category.slice(1).replace('_', ' ')`. */
  function FallbackName(category: string): string
  {
    if category == "" then "" else [ToUpperAscii(category[0])] + ReplaceFirst(category[1..], '_', ' ')
  }

  /** The name shown in a card's category tag: the known name, or the category itself. */
  function CardCategoryLabel(category: string): string
  {
    if category in CategoryNames then CategoryNames[category] else category
  }

  /**
   * A card's tag and the category's button agree on known categories; for an unknown
   * category the tag shows the category as it is, so it differs from the button's
   * name whenever the category starts with a lower-case letter.
   */
  lemma CardLabelAgainstDisplayName(category: string)
    ensures category in CategoryNames ==> CardCategoryLabel(category) == DisplayName(category)
    ensures category !in CategoryNames ==> |CardCategoryLabel(category)| == |DisplayName(category)|
    ensures category !in CategoryNames && category != "" && 'a' <= category[0] <= 'z' ==>
      CardCategoryLabel(category) != DisplayName(category)
  {
    if category !in CategoryNames && category != "" {
      FallbackNameShape(category);
      assert DisplayName(category)[0] == ToUpperAscii(category[0]);
    }
  }

  /** Both tables know the same categories, and the bookmark marks exactly the unknown ones. */
  lemma KnownCategories(category: string)
    ensures CategoryIcons.Keys == CategoryNames.Keys
    ensures Icon(category) == DefaultIcon <==> category !in CategoryNames
  {
  }

  /**
   * The fallback name has the category's length; its first character is upper-cased;
   * of the rest, only the first `_` after position 0 becomes a space.
   */
  lemma FallbackNameShape(category: string)
    ensures |FallbackName(category)| == |category|
    ensures category != "" ==> FallbackName(category)[0] == ToUpperAscii(category[0])
    ensures forall k :: 1 <= k < |category| ==>
      FallbackName(category)[k] == if k == 1 + IndexOf(category[1..], '_') then ' ' else category[k]
  {
    if category != "" {
      var rest := category[1..];
      ReplaceFirstAt(rest, '_', ' ');
      forall k | 1 <= k < |category|
        ensures FallbackName(category)[k] == if k == 1 + IndexOf(rest, '_') then ' ' else category[k]
      {
        FallbackNameAt(category, k);
      }
    }
  }

  /** Past the first character, the fallback name is the rest with its first `_` replaced. */
  lemma FallbackNameAt(category: string, k: nat)
    requires 1 <= k < |category|
    ensures |ReplaceFirst(category[1..], '_', ' ')| == |category| - 1
    ensures FallbackName(category)[k] == ReplaceFirst(category[1..], '_', ' ')[k - 1]
    ensures category[1..][k - 1] == category[k]
  {
    ReplaceFirstAt(category[1..], '_', ' ');
  }
}
