/**
 * data/add_property_to_json.py: reads a quiz file (a JSON array of question
 * objects), gives every question without a `theme` the theme "Nice", writes the
 * result next to the working directory under a derived name, and reports a count.
 */
module AddThemeScript {
  import opened JsText

  /** A JSON value as `json.load` produces it (numbers are integers here). */
  datatype JsonValue =
    | JNull
    | JBool(b: bool)
    | JNumber(n: int)
    | JString(s: string)
    | JArray(elements: seq<JsonValue>)
    | JObject(members: map<string, JsonValue>)

  /** One question object of the quiz file. */
  type Item = map<string, JsonValue>

  const ThemeKey := "theme"
  const DefaultTheme := JString("Nice")
  const CountedTheme := JString("francais_familier")

  // ---------------------------------------------------------------------------
  // The default-theme loop
  // ---------------------------------------------------------------------------

  /** One question after the loop body: a missing `theme` becomes "Nice". */
  function WithTheme(item: Item): Item
  {
    if ThemeKey in item then item else item[ThemeKey := DefaultTheme]
  }

  /** The whole file after the loop, question by question. */
  function WithDefaultTheme(items: seq<Item>): (updated: seq<Item>)
    ensures |updated| == |items|
  {
    if items == [] then [] else [WithTheme(items[0])] + WithDefaultTheme(items[1..])
  }

  /** WithDefaultTheme keeps the length and order and treats each question on its own. */
  lemma {:induction false} WithDefaultThemeAt(items: seq<Item>)
    ensures |WithDefaultTheme(items)| == |items|
    ensures forall k :: 0 <= k < |items| ==> WithDefaultTheme(items)[k] == WithTheme(items[k])
  {
    if items != [] {
      WithDefaultThemeAt(items[1..]);
      assert forall k :: 1 <= k < |items| ==> items[1..][k - 1] == items[k];
    }
  }

  /** `for item in quiz_data: if 'theme' not in item: item['theme'] = 'Nice'`, in place. */
  method AddDefaultTheme(items: array<Item>)
    modifies items
    ensures items[..] == WithDefaultTheme(old(items[..]))
  {
    var i := 0;
    while i < items.Length
      invariant 0 <= i <= items.Length
      invariant forall k :: 0 <= k < i ==> items[k] == WithTheme(old(items[k]))
      invariant forall k :: i <= k < items.Length ==> items[k] == old(items[k])
    {
      if ThemeKey !in items[i] {
        items[i] := items[i][ThemeKey := DefaultTheme];
      }
      i := i + 1;
    }
    WithDefaultThemeAt(old(items[..]));
  }

  /** After the loop every question has a theme. */
  lemma EveryItemHasTheme(items: seq<Item>)
    ensures forall k :: 0 <= k < |WithDefaultTheme(items)| ==> ThemeKey in WithDefaultTheme(items)[k]
  {
    WithDefaultThemeAt(items);
  }

  /**
   * A question keeps the theme it had and gets "Nice" when it had none; every other
   * key keeps its value, and no key is removed.
   */
  lemma ThemesKeptOrDefaulted(items: seq<Item>, k: nat)
    requires k < |items|
    ensures k < |WithDefaultTheme(items)|
    ensures WithDefaultTheme(items)[k].Keys == items[k].Keys + {ThemeKey}
    ensures WithDefaultTheme(items)[k][ThemeKey]
      == if ThemeKey in items[k] then items[k][ThemeKey] else DefaultTheme
    ensures forall key :: key in items[k] && key != ThemeKey ==> WithDefaultTheme(items)[k][key] == items[k][key]
  {
    WithDefaultThemeAt(items);
  }

  /** Running the script's loop on its own output changes nothing. */
  lemma WithDefaultThemeIdempotent(items: seq<Item>)
    ensures WithDefaultTheme(WithDefaultTheme(items)) == WithDefaultTheme(items)
  {
    var once := WithDefaultTheme(items);
    WithDefaultThemeAt(items);
    WithDefaultThemeAt(once);
  }

  // ---------------------------------------------------------------------------
  // The output file name
  // ---------------------------------------------------------------------------

  /** `file_path.split('/')[-1].replace('.json', '_updated.json')`. */
  function OutputName(path: string): (name: string)
    ensures '/' !in name  // the output is written in the working directory
  {
    var segments := Split(path, '/');
    ReplaceAllAvoids(segments[|segments| - 1], ".json", "_updated.json", '/');
    ReplaceAll(segments[|segments| - 1], ".json", "_updated.json")
  }

  /** A name without `/` is its own last segment. */
  lemma OutputNameOfPlainName(name: string)
    requires '/' !in name
    ensures OutputName(name) == ReplaceAll(name, ".json", "_updated.json")
  {
    SplitPrefix(name, "", '/');
    assert name + "" == name;
  }

  /** Only the part of the path after its last `/` is used. */
  lemma OutputNameOfLastSegment(directory: string, name: string)
    requires '/' !in name
    ensures OutputName(directory + "/" + name) == OutputName(name)
  {
    SplitAppend(directory, '/', name);
    OutputNameOfPlainName(name);
  }

  /**
   * Every `.json` is replaced, not only the suffix: in a name whose first `.` starts
   * a `.json`, that one becomes `_updated.json` and the rest is scanned on.
   */
  lemma OutputNameReplacesEachOccurrence(stem: string, rest: string)
    requires '.' !in stem && '/' !in stem + ".json" + rest
    ensures OutputName(stem + ".json" + rest) == stem + "_updated.json" + ReplaceAll(rest, ".json", "_updated.json")
  {
    OutputNameOfPlainName(stem + ".json" + rest);
    assert ".json"[0] == '.';
    ReplaceAllAfterStem(stem, ".json", rest, "_updated.json");
  }

  /** The script's own input `quiz_nice_15.json` is written back as `quiz_nice_15_updated.json`. */
  lemma OutputNameOfScriptInput()
    ensures OutputName("quiz_nice_15.json") == "quiz_nice_15_updated.json"
  {
    ScriptInputName();
    OutputNameReplacesEachOccurrence("quiz_nice_15", "");
    ScriptOutputName();
  }

  lemma ScriptInputName()
    ensures "quiz_nice_15.json" == "quiz_nice_15" + ".json" + ""
    ensures '.' !in "quiz_nice_15" && '/' !in "quiz_nice_15" + ".json" + ""
  {
  }

  lemma ScriptOutputName()
    ensures "quiz_nice_15" + "_updated.json" + ReplaceAll("", ".json", "_updated.json") == "quiz_nice_15_updated.json"
  {
    assert ReplaceAll("", ".json", "_updated.json") == "";
  }

  // ---------------------------------------------------------------------------
  // The reported count
  // ---------------------------------------------------------------------------

  /**
   * The number the closing message reports: how many questions have the theme
   * "francais_familier". `item['theme']` would fail on a question without a theme;
   * the script evaluates it after the loop, where every question has one.
   */
  function ReportedCount(items: seq<Item>): (n: nat)
    requires forall k :: 0 <= k < |items| ==> ThemeKey in items[k]
    ensures n <= |items|
  {
    if items == [] then 0
    else (if items[0][ThemeKey] == CountedTheme then 1 else 0) + ReportedCount(items[1..])
  }

  /** How many questions the loop gave a theme to. */
  function UpdatedCount(items: seq<Item>): nat
  {
    if items == [] then 0 else (if ThemeKey in items[0] then 0 else 1) + UpdatedCount(items[1..])
  }

  /** How many questions of the input file already had the theme "francais_familier". */
  function FamilierCount(items: seq<Item>): nat
  {
    if items == [] then 0
    else (if ThemeKey in items[0] && items[0][ThemeKey] == CountedTheme then 1 else 0) + FamilierCount(items[1..])
  }

  /**
   * The message counts the questions that already had the theme "francais_familier":
   * a question the loop updated has the theme "Nice" and is never counted.
   */
  lemma {:induction false} ReportedCountIgnoresUpdates(items: seq<Item>)
    ensures forall k :: 0 <= k < |WithDefaultTheme(items)| ==> ThemeKey in WithDefaultTheme(items)[k]
    ensures ReportedCount(WithDefaultTheme(items)) == FamilierCount(items)
  {
    EveryItemHasTheme(items);
    if items != [] {
      ReportedCountIgnoresUpdates(items[1..]);
      assert WithDefaultTheme(items)[1..] == WithDefaultTheme(items[1..]);
    }
  }

  /** A file of one question without a theme: the loop updates one question, the message says 0. */
  lemma ReportedCountIsNotUpdatedCount()
    ensures UpdatedCount([map[]]) == 1
    ensures ReportedCount(WithDefaultTheme([map[]])) == 0
  {
    var items: seq<Item> := [map[]];
    ReportedCountIgnoresUpdates(items);
    assert items[1..] == [];
  }
}
