/** The meal-plan adapter: the prompt built from a request, the cleaning of the
    model's reply, and the scraping of dishes out of the tagged reply. The chat
    completion itself is a call to a remote model; here its reply is an input. */
module AiService {
  import opened Wrappers
  import opened Text
  import opened AiPatterns

  datatype NutritionalInfo = NutritionalInfo(protein: string, carbs: string, fat: string, calories: string)

  datatype MealData = MealData(
    dishName: string,
    ingredients: string,
    instructions: string,
    nutritionalInfo: NutritionalInfo,
    cookingTime: string)

  /** The request as the server declares it. `restrictions` is None when the client
      did not send the field (the client form sends `customRestrictions` instead);
      a string field the client left out reads as "". */
  datatype MealPlanRequest = MealPlanRequest(
    dietaryPreference: string,
    activityLevel: string,
    goal: string,
    mealFrequency: string,
    restrictions: Option<seq<string>>,
    quickRecipe: bool,
    language: Option<string>)

  datatype Usage = Usage(promptTokens: nat, completionTokens: nat, totalTokens: nat)

  datatype MealPlanResponse = MealPlanResponse(
    content: string,
    rawContent: string,
    model: string,
    meals: seq<MealData>,
    usage: Option<Usage>)

  /** What the completion service answered: the first choice's message content
      (None when there is no choice or no content), the model name and the usage. */
  datatype Completion = Completion(content: Option<string>, model: string, usage: Option<Usage>)

  /** A thrown JavaScript value: an `Error` with its message, or anything else. */
  datatype Thrown = ErrorValue(message: string) | OtherValue

  /** Literals longer than a few dozen characters are written in two pieces, which
      keeps their single characters visible to the verifier. */
  const GenerationFailed: string := "Failed to generate meal plan. " + "Please try again."
  const UndefinedLength: string := "Cannot read properties of undefined " + "(reading 'length')"

  // ---------------------------------------------------------------------------
  // The prompt

  const PromptIntro: string := "I need a meal plan " + "with the following preferences:"
  const LanguagePrefix: string := "- Website language: "
  const PlanTypePrefix: string := "- Plan Type: "
  const DietTypePrefix: string := "- Diet Type: "
  const GoalPrefix: string := "- Nutritional Value: "
  const MealTypePrefix: string := "- Meal Type: "
  const QuickRecipesLine: string := "- Quick Recipes: Yes (20 minutes or less)"
  const RestrictionsPrefix: string := "- Dietary Restrictions: "
  const PromptClosing: string := "\nPlease provide a detailed meal plan " + "based on these preferences."

  /** The plan-type option for a single dish, in English and in German. */
  const SingleDish: string := "1 Dish"
  const GermanSingleDish: string := "1 Gericht"

  function LanguageCode(language: Option<string>): string {
    if language == Some("de") then "de" else "en"
  }

  /** The five lines every prompt opens with. */
  function OpeningLines(request: MealPlanRequest): seq<string> {
    [ PromptIntro,
      LanguagePrefix + LanguageCode(request.language),
      PlanTypePrefix + request.dietaryPreference,
      DietTypePrefix + request.activityLevel,
      GoalPrefix + request.goal ]
  }

  /** The lines of the prompt, for a request whose restriction list is `rs`. */
  function PromptLines(request: MealPlanRequest, rs: seq<string>): seq<string> {
    OpeningLines(request) + TrailingLines(request, rs)
  }

  /** The optional lines, in order, and the closing request. */
  function TrailingLines(request: MealPlanRequest, rs: seq<string>): seq<string> {
    (if request.dietaryPreference == SingleDish && request.mealFrequency != ""
       then [MealTypePrefix + request.mealFrequency] else [])
    + (if request.quickRecipe then [QuickRecipesLine] else [])
    + (if |rs| > 0 then [RestrictionsPrefix + Join(rs, ", ")] else [])
    + [PromptClosing]
  }

  /** Builds the user message line by line. Reading the length of a missing
      restriction list throws a TypeError. */
  method BuildUserMessage(request: MealPlanRequest) returns (r: Result<string, Thrown>)
    ensures r.Failure? <==> request.restrictions.None?
    ensures r.Success? ==> r.value == Join(PromptLines(request, request.restrictions.value), "\n")
  {
    var parts := OpeningLines(request);
    if request.dietaryPreference == SingleDish && request.mealFrequency != "" {
      parts := parts + [MealTypePrefix + request.mealFrequency];
    }
    if request.quickRecipe {
      parts := parts + [QuickRecipesLine];
    }
    if request.restrictions.None? {
      return Failure(ErrorValue(UndefinedLength));
    }
    var rs := request.restrictions.value;
    if |rs| > 0 {
      parts := parts + [RestrictionsPrefix + Join(rs, ", ")];
    }
    parts := parts + [PromptClosing];
    assert parts == PromptLines(request, rs);
    return Success(Join(parts, "\n"));
  }

  /** Some line of the prompt starts with `prefix`. */
  ghost predicate HasLine(lines: seq<string>, prefix: string) {
    exists k :: 0 <= k < |lines| && StartsWith(lines[k], prefix)
  }

  /** The five fixed lines open the prompt: the language is "de" exactly when the
      request asks for "de", and plan type, diet type and goal appear verbatim. The
      closing request is the last line. */
  lemma PromptFixedLines(request: MealPlanRequest, rs: seq<string>)
    ensures var lines := PromptLines(request, rs);
      && 6 <= |lines| <= 9
      && lines[0] == PromptIntro
      && (lines[1] == LanguagePrefix + "de" <==> request.language == Some("de"))
      && (lines[1] == LanguagePrefix + "en" <==> request.language != Some("de"))
      && lines[2] == PlanTypePrefix + request.dietaryPreference
      && lines[3] == DietTypePrefix + request.activityLevel
      && lines[4] == GoalPrefix + request.goal
      && lines[|lines| - 1] == PromptClosing
  {
    var lines := PromptLines(request, rs);
    assert lines[1] == LanguagePrefix + LanguageCode(request.language);
    assert (LanguagePrefix + "de")[|LanguagePrefix|] == 'd';
    assert (LanguagePrefix + "en")[|LanguagePrefix|] == 'e';
  }

  /** No opening line looks like an optional one by its third and seventh characters. */
  lemma OpeningLineKind(request: MealPlanRequest, k: nat)
    requires k < 5
    ensures var line := OpeningLines(request)[k];
      7 <= |line| && line[2] != 'M' && line[2] != 'Q' && (line[2] == 'D' ==> line[6] == ' ')
  {
    var line := OpeningLines(request)[k];
    if k == 0 {
      assert PromptIntro[2] == 'n';
    } else if k == 1 {
      assert line[2] == LanguagePrefix[2] == 'W';
    } else if k == 2 {
      assert line[2] == PlanTypePrefix[2] == 'P';
    } else if k == 3 {
      assert line[2] == DietTypePrefix[2] == 'D' && line[6] == DietTypePrefix[6] == ' ';
    } else {
      assert line[2] == GoalPrefix[2] == 'N';
    }
  }

  /** Each trailing line is told apart by its third and seventh characters. */
  lemma {:induction false} TrailingLineKind(request: MealPlanRequest, rs: seq<string>, k: nat)
    requires k < |TrailingLines(request, rs)|
    ensures var line := TrailingLines(request, rs)[k];
      && 7 <= |line|
      && (line[2] == 'M' ==> line == MealTypePrefix + request.mealFrequency
                             && request.dietaryPreference == SingleDish && request.mealFrequency != "")
      && (line[2] == 'Q' ==> line == QuickRecipesLine && request.quickRecipe)
      && (line[2] == 'D' ==> line[6] == 'a' && line == RestrictionsPrefix + Join(rs, ", ") && |rs| > 0)
  {
    var meal := if request.dietaryPreference == SingleDish && request.mealFrequency != ""
                then [MealTypePrefix + request.mealFrequency] else [];
    var quick := if request.quickRecipe then [QuickRecipesLine] else [];
    var restr := if |rs| > 0 then [RestrictionsPrefix + Join(rs, ", ")] else [];
    var line := TrailingLines(request, rs)[k];
    assert TrailingLines(request, rs) == meal + quick + restr + [PromptClosing];
    if k < |meal| {
      assert line == MealTypePrefix + request.mealFrequency;
      assert line[2] == 'M';
    } else if k < |meal| + |quick| {
      assert line == QuickRecipesLine;
    } else if k < |meal| + |quick| + |restr| {
      assert line == RestrictionsPrefix + Join(rs, ", ");
      assert line[2] == 'D' && line[6] == 'a';
    } else {
      assert line == PromptClosing;
      assert PromptClosing[2] == 'l';
    }
  }

  /** Which optional line a prompt line is, told by its third character. */
  lemma {:induction false} PromptLineKinds(request: MealPlanRequest, rs: seq<string>, k: nat)
    requires k < |PromptLines(request, rs)|
    ensures var line := PromptLines(request, rs)[k];
      && 7 <= |line|
      && (line[2] == 'M' ==> line == MealTypePrefix + request.mealFrequency
                             && request.dietaryPreference == SingleDish && request.mealFrequency != "")
      && (line[2] == 'Q' ==> line == QuickRecipesLine && request.quickRecipe)
      && (line[2] == 'D' && line[6] == 'a' ==> line == RestrictionsPrefix + Join(rs, ", ") && |rs| > 0)
  {
    if k < 5 {
      assert PromptLines(request, rs)[k] == OpeningLines(request)[k];
      OpeningLineKind(request, k);
    } else {
      assert PromptLines(request, rs)[k] == TrailingLines(request, rs)[k - 5];
      TrailingLineKind(request, rs, k - 5);
    }
  }

  /** The meal-type line appears exactly when the plan type is the English
      single-dish option and a meal frequency was given. */
  lemma MealTypeLineIff(request: MealPlanRequest, rs: seq<string>)
    ensures HasLine(PromptLines(request, rs), MealTypePrefix)
        <==> request.dietaryPreference == SingleDish && request.mealFrequency != ""
  {
    var lines := PromptLines(request, rs);
    if HasLine(lines, MealTypePrefix) {
      var k :| 0 <= k < |lines| && StartsWith(lines[k], MealTypePrefix);
      assert lines[k][2] == MealTypePrefix[2] == 'M';
      PromptLineKinds(request, rs, k);
    }
    if request.dietaryPreference == SingleDish && request.mealFrequency != "" {
      var k := 5;
      assert lines[k] == MealTypePrefix + request.mealFrequency;
      assert StartsWith(lines[k], MealTypePrefix);
    }
  }

  /** The German single-dish option never produces a meal-type line. */
  lemma GermanSingleDishHasNoMealType(request: MealPlanRequest, rs: seq<string>)
    requires request.dietaryPreference == GermanSingleDish
    ensures !HasLine(PromptLines(request, rs), MealTypePrefix)
  {
    assert GermanSingleDish[2] != SingleDish[2];
    MealTypeLineIff(request, rs);
  }

  /** The quick-recipe line sits where the optional lines are, after the meal-type line. */
  lemma QuickLineAt(request: MealPlanRequest, rs: seq<string>)
    requires request.quickRecipe
    ensures QuickRecipesLine in TrailingLines(request, rs)
  {
    var meal := if request.dietaryPreference == SingleDish && request.mealFrequency != ""
                then [MealTypePrefix + request.mealFrequency] else [];
    assert TrailingLines(request, rs)[|meal|] == QuickRecipesLine;
  }

  /** The quick-recipe line appears exactly when quick recipes were asked for. */
  lemma {:induction false} QuickLineIff(request: MealPlanRequest, rs: seq<string>)
    ensures QuickRecipesLine in PromptLines(request, rs) <==> request.quickRecipe
  {
    var lines := PromptLines(request, rs);
    forall k | 0 <= k < |lines| && lines[k] == QuickRecipesLine ensures request.quickRecipe {
      assert lines[k][2] == QuickRecipesLine[2] == 'Q';
      PromptLineKinds(request, rs, k);
    }
    if request.quickRecipe {
      QuickLineAt(request, rs);
    }
  }

  /** With a non-empty list, the line before the closing request lists the
      restrictions in order, separated by ", ". */
  lemma RestrictionsLineListed(request: MealPlanRequest, rs: seq<string>)
    requires |rs| > 0
    ensures var lines := PromptLines(request, rs);
      |lines| >= 2 && lines[|lines| - 2] == RestrictionsPrefix + Join(rs, ", ")
  {
    var lines := PromptLines(request, rs);
    var front := lines[..|lines| - 2];
    assert lines == front + [RestrictionsPrefix + Join(rs, ", "), PromptClosing];
  }

  /** The restrictions line appears exactly when the list is non-empty. */
  lemma RestrictionsLineIff(request: MealPlanRequest, rs: seq<string>)
    ensures HasLine(PromptLines(request, rs), RestrictionsPrefix) <==> |rs| > 0
  {
    var lines := PromptLines(request, rs);
    if HasLine(lines, RestrictionsPrefix) {
      var k :| 0 <= k < |lines| && StartsWith(lines[k], RestrictionsPrefix);
      assert lines[k][2] == RestrictionsPrefix[2] == 'D';
      assert lines[k][6] == RestrictionsPrefix[6] == 'a';
      PromptLineKinds(request, rs, k);
    }
    if |rs| > 0 {
      RestrictionsLineListed(request, rs);
      assert StartsWith(lines[|lines| - 2], RestrictionsPrefix);
    }
  }

  /** The message opens with the introduction line and ends with the closing request,
      which starts with an empty line of its own. */
  lemma MessageFrame(request: MealPlanRequest, rs: seq<string>)
    ensures var m := Join(PromptLines(request, rs), "\n");
      && StartsWith(m, PromptIntro + "\n")
      && |"\n" + PromptClosing| <= |m| && m[|m| - |"\n" + PromptClosing|..] == "\n" + PromptClosing
  {
    var lines := PromptLines(request, rs);
    PromptFixedLines(request, rs);
    JoinFirst(lines, "\n");
    JoinLast(lines, "\n");
  }

  // ---------------------------------------------------------------------------
  // Cleaning the reply

  /** The cleaned reply: think sections removed, leftover markers removed, runs of
      three or more line breaks collapsed to two, ends trimmed. */
  function CleanedText(content: string): string {
    Trim(CollapseBlankLines(RemoveThinkMarkers(StripThinkSections(content))))
  }

  /** The cleaned reply has no white space at either end and no white-space run
      holding three or more line breaks. */
  lemma CleanedTextShape(content: string)
    ensures IsTrimmed(CleanedText(content)) && NoTripleBreak(CleanedText(content))
  {
    var unmarked := RemoveThinkMarkers(StripThinkSections(content));
    CollapseKeepsRunBound(unmarked);
    TrimKeepsNoTripleBreak(CollapseBlankLines(unmarked));
  }

  /** Trimming cannot create a long white-space run. */
  lemma {:induction false} TrimKeepsNoTripleBreak(s: string)
    requires NoTripleBreak(s)
    ensures NoTripleBreak(Trim(s))
  {
    var i := TrimSlice(s);
    SliceKeepsNoTripleBreak(s, i, i + |Trim(s)|, Trim(s));
  }

  /** Rewrites the reply step by step, as the adapter does. */
  method CleanResponseContent(content: string) returns (cleaned: string)
    ensures cleaned == CleanedText(content)
    ensures IsTrimmed(cleaned) && NoTripleBreak(cleaned)
  {
    cleaned := StripThinkSections(content);
    cleaned := RemoveThinkMarkers(cleaned);
    cleaned := CollapseBlankLines(cleaned);
    cleaned := Trim(cleaned);
    CleanedTextShape(content);
  }

  /** Text without line feeds has no blank lines to collapse. */
  lemma {:induction false} CollapseWithoutBreaks(s: string)
    requires '\n' !in s
    ensures CollapseBlankLines(s) == s
    decreases |s|
  {
    if s != [] {
      CollapseWithoutBreaks(s[1..]);
      assert s == [s[0]] + s[1..];
    }
  }

  /** A think section is dropped with everything inside it, wherever it stands: the
      reply cleans as the text before it followed by the rest with its own sections
      removed. The section is the first `<think>` and the first `</think>` after it. */
  lemma ThinkSectionDropped(a: string, b: string, c: string)
    requires !Contains(a, Think) && !Contains(b, ThinkEnd)
    ensures CleanedText(a + Think + b + ThinkEnd + c)
         == Trim(CollapseBlankLines(RemoveThinkMarkers(a + StripThinkSections(c))))
    ensures !Contains(c, ThinkEnd) ==>
      CleanedText(a + Think + b + ThinkEnd + c) == Trim(CollapseBlankLines(RemoveThinkMarkers(a + c)))
  {
    ThinkSectionRemoved(a, b, c);
    if !Contains(c, ThinkEnd) {
      UnclosedThinkKept(c);
    }
  }

  /** The single marker pass can splice a new marker together, which then stays in
      the cleaned reply. */
  lemma {:induction false} SplicedMarkerStays(head: string, tail: string)
    requires head == "<thi" && tail == "nk>"
    ensures CleanedText(head + Think + tail) == Think
  {
    var s := head + Think + tail;
    calc {
      CleanedText(s);
      Trim(CollapseBlankLines(RemoveThinkMarkers(StripThinkSections(s))));
      { assert '/' !in s;
        NotContainsWithout(s, ThinkEnd, 1);
        UnclosedThinkKept(s); }
      Trim(CollapseBlankLines(RemoveThinkMarkers(s)));
      { SplicedMarkerSurvives(head, tail); }
      Trim(CollapseBlankLines(Think));
      { assert '\n' !in Think;
        CollapseWithoutBreaks(Think); }
      Trim(Think);
      { assert IsTrimmed(Think); }
      Think;
    }
  }

  // ---------------------------------------------------------------------------
  // Tag extraction

  /** The trimmed content of the first, shortest `<tagName>…</tagName>` pair, whose
      content may span lines, or "" when there is none. */
  function ExtractTagContent(content: string, tagName: string): (r: string)
    ensures IsTrimmed(r)
    ensures r != "" ==> exists m :: IsMatch(content, tagName, m, true, false)
  {
    match FirstTagMatch(content, tagName, 0, true, false)
    case None => ""
    case Some(m) => Trim(Captured(content, m))
  }

  /** The first tag pair yields its trimmed content, whatever markup comes before the
      opening tag or after the closing tag, provided no opening tag of that name comes
      before it and no closing tag of that name occurs inside it. */
  lemma {:induction false} ExtractFromTaggedText(s: string, a: string, b: string, rest: string, tagName: string)
    requires s == a + OpenTag(tagName) + b + CloseTag(tagName) + rest
    requires '<' !in tagName && !Contains(a, OpenTag(tagName)) && !Contains(b, CloseTag(tagName))
    ensures ExtractTagContent(s, tagName) == Trim(b)
  {
    var o, cl := OpenTag(tagName), CloseTag(tagName);
    var m := TagMatch(|a|, |a| + |o|, |a| + |o| + |b|, |a| + |o| + |b| + |cl|);
    LacksIsNotContains(a, o);
    LacksIsNotContains(b, cl);
    assert forall k :: 0 <= k < |o| ==> SameChar(o[k], o[k], false);
    assert forall k :: 0 <= k < |cl| ==> SameChar(cl[k], cl[k], false);
    FirstTagCaptures(s, a, o, b, cl, rest, tagName, true, false);
    assert ExtractTagContent(s, tagName) == Trim(Captured(s, m));
  }

  /** No pair can match where the opening tag does not occur. */
  lemma NoTagMatchWithoutOpenTag(s: string, name: string, dotAll: bool)
    requires !Contains(s, OpenTag(name))
    ensures FirstTagMatch(s, name, 0, dotAll, false).None?
  {
    assert forall i :: 0 <= i <= |s| ==> !MatchesAt(s, OpenTag(name), i, false);
  }

  /** Without the opening tag there is nothing to extract. */
  lemma ExtractWithoutTag(s: string, tagName: string)
    requires !Contains(s, OpenTag(tagName))
    ensures ExtractTagContent(s, tagName) == ""
  {
    NoTagMatchWithoutOpenTag(s, tagName, true);
  }

  // ---------------------------------------------------------------------------
  // Nutritional information

  const DefaultNutrition: NutritionalInfo := NutritionalInfo("0g", "0g", "0g", "0kcal")
  const ProteinTag: string := "protine"
  const CarbsTag: string := "carbs"
  const FatTag: string := "fat"
  const CaloriesTag: string := "calories"

  /** One nutrient: the trimmed content of the first case-insensitive, single-line
      tag pair, or the default when there is none. */
  function NutrientField(text: string, name: string, default: string): (r: string)
    ensures r == default || IsTrimmed(r)
  {
    match FirstTagMatch(text, name, 0, false, true)
    case None => default
    case Some(m) => Trim(Captured(text, m))
  }

  /** Empty text gives the defaults; otherwise each nutrient is read on its own. */
  function ParseNutritionalInfo(text: string): (r: NutritionalInfo)
    ensures text == "" ==> r == DefaultNutrition
  {
    if text == "" then DefaultNutrition
    else NutritionalInfo(
      NutrientField(text, ProteinTag, DefaultNutrition.protein),
      NutrientField(text, CarbsTag, DefaultNutrition.carbs),
      NutrientField(text, FatTag, DefaultNutrition.fat),
      NutrientField(text, CaloriesTag, DefaultNutrition.calories))
  }

  /** A nutrient tag pair in any letter case yields its trimmed content when no
      opening tag of that name, in any letter case, comes before it, and its content
      is one line holding no closing tag of that name. */
  lemma {:induction false} NutrientFromTag(text: string, a: string, o: string, b: string, cl: string, rest: string,
                        name: string, default: string)
    requires text == a + o + b + cl + rest
    requires '<' !in name && Lacks(a, OpenTag(name), true) && Lacks(b, CloseTag(name), true)
    requires forall k :: 0 <= k < |b| ==> !IsLineTerminator(b[k])
    requires |o| == |OpenTag(name)| && forall k :: 0 <= k < |o| ==> SameChar(o[k], OpenTag(name)[k], true)
    requires |cl| == |CloseTag(name)| && forall k :: 0 <= k < |cl| ==> SameChar(cl[k], CloseTag(name)[k], true)
    ensures NutrientField(text, name, default) == Trim(b)
  {
    var m := TagMatch(|a|, |a| + |o|, |a| + |o| + |b|, |a| + |o| + |b| + |cl|);
    FirstTagCaptures(text, a, o, b, cl, rest, name, false, true);
    assert NutrientField(text, name, default) == Trim(Captured(text, m));
  }

  /** Text without markup yields the default for every nutrient. */
  lemma NutrientsWithoutMarkup(text: string)
    requires '<' !in text
    ensures ParseNutritionalInfo(text) == DefaultNutrition
  {
    forall name | name in [ProteinTag, CarbsTag, FatTag, CaloriesTag]
      ensures FirstTagMatch(text, name, 0, false, true).None?
    {
      assert text[..|text|] == text;
      NoTagMatchBefore(text, name, |text|, false, true);
      assert !MatchesAt(text, OpenTag(name), |text|, true);
    }
  }

  /** A nutrient whose opening tag occurs nowhere in the text, in any letter case,
      takes its default, whatever other markup the text holds. */
  lemma NutrientMissing(text: string, name: string, default: string)
    requires Lacks(text, OpenTag(name), true)
    ensures NutrientField(text, name, default) == default
  {
    assert forall i :: 0 <= i <= |text| ==> TagMatchAt(text, name, i, false, true).None?;
  }

  /** A protein element lacks the opening tag of every name that starts neither
      with 'p' nor with '/', in either letter case. */
  lemma ProteinElementLacks(b: string, name: string)
    requires '<' !in b && '<' !in name && |name| > 0 && Upper(name[0]) != 'P' && Upper(name[0]) != '/'
    ensures Lacks(OpenTag(ProteinTag) + b + CloseTag(ProteinTag), OpenTag(name), true)
  {
    var o, cl, lit := OpenTag(ProteinTag), CloseTag(ProteinTag), OpenTag(name);
    TagsAreAngleFirst(ProteinTag);
    assert lit[1] == name[0];
    assert !SameChar(o[1], lit[1], true) && !SameChar(cl[1], lit[1], true);
    assert Lacks([], lit, true);
    LacksPrepend(cl, [], lit, true);
    assert cl + [] == cl;
    LacksPrepend(b, cl, lit, true);
    LacksPrepend(o, b + cl, lit, true);
    assert o + (b + cl) == o + b + cl;
  }

  /** Nutrition text holding only a one-line protein element gives that protein
      amount, and the three other nutrients take their defaults. */
  lemma OnlyProteinGiven(b: string)
    requires '<' !in b && forall k :: 0 <= k < |b| ==> !IsLineTerminator(b[k])
    ensures ParseNutritionalInfo(OpenTag(ProteinTag) + b + CloseTag(ProteinTag))
         == NutritionalInfo(Trim(b), "0g", "0g", "0kcal")
  {
    var o, cl := OpenTag(ProteinTag), CloseTag(ProteinTag);
    var text := o + b + cl;
    assert Lacks([], o, true);
    PlainLacks(b, cl, true);
    assert text == [] + o + b + cl + [];
    NutrientFromTag(text, [], o, b, cl, [], ProteinTag, "0g");
    ProteinElementLacks(b, CarbsTag);
    ProteinElementLacks(b, FatTag);
    ProteinElementLacks(b, CaloriesTag);
    NutrientMissing(text, CarbsTag, "0g");
    NutrientMissing(text, FatTag, "0g");
    NutrientMissing(text, CaloriesTag, "0kcal");
  }

  // ---------------------------------------------------------------------------
  // Dishes

  const DishNameTag: string := "dish_name"
  const IngredientsTag: string := "dish_ingredients"
  const InstructionsTag: string := "dish_instructions"
  const CookingTimeTag: string := "dish_estimated_cooking_time"
  const NutritionTag: string := "dish_nutritional_information"
  const DishesEnd: string := "</dishes>"
  const NotSpecified: string := "Not specified"

  /** The text the dish scraper works on: the raw reply with think sections and
      leftover markers removed, but blank lines and surrounding space kept. */
  function ScanText(content: string): string {
    RemoveThinkMarkers(StripThinkSections(content))
  }

  /** Matches lying inside s, in text order and without overlap. */
  predicate Ordered(s: string, ms: seq<TagMatch>) {
    && (forall k :: 0 <= k < |ms| ==>
          ms[k].start <= ms[k].contentStart <= ms[k].contentEnd <= ms[k].end <= |s|)
    && (forall k :: 0 <= k < |ms| - 1 ==> ms[k].end <= ms[k + 1].start)
  }

  lemma {:induction false} OrderedStarts(s: string, ms: seq<TagMatch>, i: nat, j: nat)
    requires Ordered(s, ms) && i <= j < |ms|
    ensures ms[i].start <= ms[j].start
    decreases j - i
  {
    if i < j {
      OrderedStarts(s, ms, i + 1, j);
    }
  }

  /** Every single-line `<dish_name>…</dish_name>` match, left to right. */
  function DishNameMatches(s: string): (ms: seq<TagMatch>)
    ensures Ordered(s, ms)
    ensures forall k :: 0 <= k < |ms| ==> IsMatch(s, DishNameTag, ms[k], false, false)
  {
    AllTagMatches(s, DishNameTag, 0, false, false)
  }

  /** No dish name is missed: every position where a dish-name element starts is the
      start of a reported match or lies inside one. */
  lemma DishNameMatchesComplete(s: string)
    ensures var ms := DishNameMatches(s);
      forall i: nat :: MatchStarts(s, DishNameTag, i, false, false) ==>
        exists k :: 0 <= k < |ms| && ms[k].start <= i < ms[k].end
  {
    var ms := DishNameMatches(s);
    AllTagMatchesComplete(s, DishNameTag, 0, false, false);
    assert ms == AllTagMatches(s, DishNameTag, 0, false, false);
    forall i: nat | MatchStarts(s, DishNameTag, i, false, false)
      ensures exists k :: 0 <= k < |ms| && ms[k].start <= i < ms[k].end
    {
      assert 0 <= i;
    }
  }

  /** Where the block of the i-th dish ends: at the next dish's name, or for the last
      dish at the first `</dishes>` at or after its start, or at the end of the text.
      No later dish name starts inside the block. */
  function BlockEnd(s: string, ms: seq<TagMatch>, i: nat): (e: nat)
    requires Ordered(s, ms) && i < |ms|
    ensures ms[i].start <= e <= |s|
    ensures forall k :: i < k < |ms| ==> e <= ms[k].start
  {
    if i + 1 < |ms| then
      assert forall k :: i + 1 <= k < |ms| ==> ms[i + 1].start <= ms[k].start by {
        forall k | i + 1 <= k < |ms| ensures ms[i + 1].start <= ms[k].start {
          OrderedStarts(s, ms, i + 1, k);
        }
      }
      ms[i + 1].start
    else
      match IndexOf(s, DishesEnd, ms[i].start)
      case Some(e) => e
      case None => |s|
  }

  function Block(s: string, ms: seq<TagMatch>, i: nat): string
    requires Ordered(s, ms) && i < |ms|
  {
    s[ms[i].start..BlockEnd(s, ms, i)]
  }

  /** A dish worth showing: name, ingredients and instructions are non-empty and
      trimmed, and there is a cooking time. */
  predicate Complete(m: MealData) {
    && m.dishName != "" && IsTrimmed(m.dishName)
    && m.ingredients != "" && IsTrimmed(m.ingredients)
    && m.instructions != "" && IsTrimmed(m.instructions)
    && m.cookingTime != "" && IsTrimmed(m.cookingTime)
  }

  /** The dish a block describes, or None when it lacks a name, ingredients or
      instructions; an empty cooking time reads "Not specified". */
  function DishFromBlock(dishName: string, block: string): (r: Option<MealData>)
    requires IsTrimmed(dishName)
    ensures r.Some? <==> dishName != "" && ExtractTagContent(block, IngredientsTag) != ""
                         && ExtractTagContent(block, InstructionsTag) != ""
    ensures r.Some? ==> Complete(r.value)
    ensures r.Some? ==> && r.value.dishName == dishName
                        && r.value.ingredients == ExtractTagContent(block, IngredientsTag)
                        && r.value.instructions == ExtractTagContent(block, InstructionsTag)
  {
    var ingredients := ExtractTagContent(block, IngredientsTag);
    var instructions := ExtractTagContent(block, InstructionsTag);
    var cookingTime := ExtractTagContent(block, CookingTimeTag);
    var nutritionalText := ExtractTagContent(block, NutritionTag);
    if dishName != "" && ingredients != "" && instructions != "" then
      assert IsTrimmed(NotSpecified) by {
        assert NotSpecified[0] == 'N' && NotSpecified[|NotSpecified| - 1] == 'd';
      }
      Some(MealData(dishName, ingredients, instructions, ParseNutritionalInfo(nutritionalText),
                    if cookingTime == "" then NotSpecified else cookingTime))
    else None
  }

  /** A kept dish's ingredients and instructions come from tag pairs inside its own
      block. */
  lemma DishFieldsFromItsBlock(dishName: string, block: string)
    requires IsTrimmed(dishName)
    ensures DishFromBlock(dishName, block).Some? ==>
      && (exists m :: IsMatch(block, IngredientsTag, m, true, false))
      && (exists m :: IsMatch(block, InstructionsTag, m, true, false))
  {
    if DishFromBlock(dishName, block).Some? {
      assert ExtractTagContent(block, IngredientsTag) != "";
      assert ExtractTagContent(block, InstructionsTag) != "";
    }
  }

  /** The dish of the i-th block, named by the i-th dish-name match. */
  function DishAt(s: string, ms: seq<TagMatch>, i: nat): Option<MealData>
    requires Ordered(s, ms) && i < |ms|
  {
    DishFromBlock(Trim(Captured(s, ms[i])), Block(s, ms, i))
  }

  /** The values of the present options, in order. */
  function Present<T>(opts: seq<Option<T>>): (r: seq<T>)
    ensures |r| <= |opts|
  {
    if |opts| == 0 then []
    else
      var last := opts[|opts| - 1];
      Present(opts[..|opts| - 1]) + (if last.Some? then [last.value] else [])
  }

  lemma PresentSnoc<T>(opts: seq<Option<T>>, x: Option<T>)
    ensures Present(opts + [x]) == Present(opts) + (if x.Some? then [x.value] else [])
  {
    assert (opts + [x])[..|opts|] == opts;
  }

  /** The positions of the present options. */
  ghost function PresentPositions<T>(opts: seq<Option<T>>): seq<nat> {
    if |opts| == 0 then []
    else
      PresentPositions(opts[..|opts| - 1]) + (if opts[|opts| - 1].Some? then [|opts| - 1] else [])
  }

  /** Present keeps exactly the present options, in their order: none is lost,
      duplicated or reordered. */
  lemma {:induction false} PresentInOrder<T>(opts: seq<Option<T>>)
    ensures var r := Present(opts); var p := PresentPositions(opts);
      && |p| == |r|
      && (forall k :: 0 <= k < |p| ==> p[k] < |opts| && opts[p[k]] == Some(r[k]))
      && (forall k, l :: 0 <= k < l < |p| ==> p[k] < p[l])
      && (forall i :: 0 <= i < |opts| && opts[i].Some? ==> i in p)
  {
    if |opts| > 0 {
      var front := opts[..|opts| - 1];
      PresentInOrder(front);
      var r := Present(opts);
      var p := PresentPositions(opts);
      var last := opts[|opts| - 1];
      assert forall i :: 0 <= i < |front| ==> front[i] == opts[i];
      if last.Some? {
        assert r == Present(front) + [last.value];
        assert p == PresentPositions(front) + [|opts| - 1];
      } else {
        assert r == Present(front) && p == PresentPositions(front);
      }
    }
  }

  /** The dishes of the first n blocks, kept or not. */
  function DishOptions(s: string, ms: seq<TagMatch>, n: nat): (r: seq<Option<MealData>>)
    requires Ordered(s, ms) && n <= |ms|
    ensures |r| == n
  {
    seq(n, i requires 0 <= i < n => DishAt(s, ms, i))
  }

  /** The dishes kept from the first n blocks, in block order. */
  function KeptDishes(s: string, ms: seq<TagMatch>, n: nat): seq<MealData>
    requires Ordered(s, ms) && n <= |ms|
  {
    Present(DishOptions(s, ms, n))
  }

  /** The kept dishes are exactly the complete dishes of the first n blocks, in the
      order of their blocks, and there are at most n of them. */
  lemma KeptInDocumentOrder(s: string, ms: seq<TagMatch>, n: nat)
    requires Ordered(s, ms) && n <= |ms|
    ensures var r := KeptDishes(s, ms, n); var p := PresentPositions(DishOptions(s, ms, n));
      && |r| <= n && |p| == |r|
      && (forall k :: 0 <= k < |p| ==> p[k] < n && DishAt(s, ms, p[k]) == Some(r[k]))
      && (forall k, l :: 0 <= k < l < |p| ==> p[k] < p[l])
      && (forall i :: 0 <= i < n && DishAt(s, ms, i).Some? ==> i in p)
      && (forall k :: 0 <= k < |r| ==> Complete(r[k]))
  {
    var opts := DishOptions(s, ms, n);
    PresentInOrder(opts);
  }

  /** The dishes the adapter reports for a raw reply. */
  function Meals(content: string): seq<MealData> {
    var s := ScanText(content);
    var ms := DishNameMatches(s);
    KeptDishes(s, ms, |ms|)
  }

  /** Every reported dish is complete, and there are no more dishes than dish-name
      matches. */
  lemma MealsAreComplete(content: string)
    ensures |Meals(content)| <= |DishNameMatches(ScanText(content))|
    ensures forall k :: 0 <= k < |Meals(content)| ==> Complete(Meals(content)[k])
  {
    var s := ScanText(content);
    KeptInDocumentOrder(s, DishNameMatches(s), |DishNameMatches(s)|);
  }

  /** A dish name never spans a line terminator. */
  lemma DishNamesOnOneLine(s: string)
    ensures var ms := DishNameMatches(s);
      forall k, q :: 0 <= k < |ms| && ms[k].contentStart <= q < ms[k].contentEnd ==>
        !IsLineTerminator(s[q])
  {
    var ms := DishNameMatches(s);
    forall k | 0 <= k < |ms|
      ensures forall q :: ms[k].contentStart <= q < ms[k].contentEnd ==> !IsLineTerminator(s[q])
    {
      assert IsMatch(s, DishNameTag, ms[k], false, false);
      assert CloseAfter(s, CloseTag(DishNameTag), ms[k].contentStart, false, false) == Some(ms[k].contentEnd);
    }
  }

  /** A reply describing one dish: its name, ingredients and instructions elements,
      each followed by free text. */
  function DishReply(name: string, x: string, ingredients: string, y: string,
                     instructions: string, z: string): string
  {
    Element(DishNameTag, name) + (x + (Element(IngredientsTag, ingredients) + (y
      + (Element(InstructionsTag, instructions) + z))))
  }

  /** The parts of such a reply hold no markup. */
  predicate PlainParts(name: string, x: string, ingredients: string, y: string,
                       instructions: string, z: string)
  {
    && '<' !in name && '<' !in x && '<' !in ingredients
    && '<' !in y && '<' !in instructions && '<' !in z
  }

  /** The reply lacks `lit` when each of its opening tags differs from `lit` at the
      given position, and each closing tag at dc. */
  lemma DishReplyLacks(name: string, x: string, ingredients: string, y: string,
                       instructions: string, z: string, lit: string, d1: nat, d2: nat, d3: nat, dc: nat)
    requires PlainParts(name, x, ingredients, y, instructions, z) && |lit| > 0 && lit[0] == '<'
    requires d1 < |OpenTag(DishNameTag)| && d1 < |lit| && OpenTag(DishNameTag)[d1] != lit[d1]
    requires d2 < |OpenTag(IngredientsTag)| && d2 < |lit| && OpenTag(IngredientsTag)[d2] != lit[d2]
    requires d3 < |OpenTag(InstructionsTag)| && d3 < |lit| && OpenTag(InstructionsTag)[d3] != lit[d3]
    requires dc < |CloseTag(DishNameTag)| && dc < |lit| && CloseTag(DishNameTag)[dc] != lit[dc]
    requires CloseTag(IngredientsTag)[dc] != lit[dc] && CloseTag(InstructionsTag)[dc] != lit[dc]
    ensures Lacks(DishReply(name, x, ingredients, y, instructions, z), lit, false)
  {
    ElementLacks(InstructionsTag, instructions, z, [], lit, d3, dc);
    assert z + [] == z;
    var e3 := Element(InstructionsTag, instructions) + z;
    ElementLacks(IngredientsTag, ingredients, y, e3, lit, d2, dc);
    var e2 := Element(IngredientsTag, ingredients) + (y + e3);
    ElementLacks(DishNameTag, name, x, e2, lit, d1, dc);
  }

  /** Neither think sections nor markers: the scan sees the reply as it is. */
  lemma DishReplyScanned(name: string, x: string, ingredients: string, y: string,
                         instructions: string, z: string)
    requires PlainParts(name, x, ingredients, y, instructions, z)
    ensures ScanText(DishReply(name, x, ingredients, y, instructions, z)) == DishReply(name, x, ingredients, y, instructions, z)
  {
    var r := DishReply(name, x, ingredients, y, instructions, z);
    DishReplyLacks(name, x, ingredients, y, instructions, z, Think, 1, 1, 1, 1);
    DishReplyLacks(name, x, ingredients, y, instructions, z, ThinkEnd, 1, 1, 1, 2);
    LacksIsNotContains(r, ThinkEnd);
    UnclosedThinkKept(r);
    MarkerFreeKept(r);
  }

  /** The dish-name element is the one dish-name match, capturing the name. */
  lemma DishReplyNameMatch(name: string, x: string, ingredients: string, y: string,
                           instructions: string, z: string)
    requires PlainParts(name, x, ingredients, y, instructions, z)
    requires forall k :: 0 <= k < |name| ==> !IsLineTerminator(name[k])
    ensures var r := DishReply(name, x, ingredients, y, instructions, z); var ms := DishNameMatches(r);
      |ms| == 1 && ms[0].start == 0 && Captured(r, ms[0]) == name
  {
    var r := DishReply(name, x, ingredients, y, instructions, z);
    var o, cl := OpenTag(DishNameTag), CloseTag(DishNameTag);
    var e1 := Element(DishNameTag, name);
    ElementLacks(InstructionsTag, instructions, z, [], o, 6, 1);
    assert z + [] == z;
    var e3 := Element(InstructionsTag, instructions) + z;
    ElementLacks(IngredientsTag, ingredients, y, e3, o, 6, 1);
    var rest := x + (Element(IngredientsTag, ingredients) + (y + e3));
    LacksPrepend(x, Element(IngredientsTag, ingredients) + (y + e3), o, false);
    var m := TagMatch(0, |o|, |o| + |name|, |o| + |name| + |cl|);
    assert r == [] + o + name + cl + rest;
    PlainLacks(name, cl, false);
    assert forall k :: 0 <= k < |o| ==> SameChar(o[k], o[k], false);
    assert forall k :: 0 <= k < |cl| ==> SameChar(cl[k], cl[k], false);
    FirstTagCaptures(r, [], o, name, cl, rest, DishNameTag, false, false);
    NoMatchAfter(r, e1, rest, DishNameTag, false, false);
    assert |e1| == m.end;
    assert AllTagMatches(r, DishNameTag, m.end, false, false) == [];
    assert DishNameMatches(r) == [m] + [];
  }

  /** Regrouping a text around one of its elements. */
  lemma RegroupAround(p: string, x: string, o: string, b: string, c: string, rest: string)
    ensures p + (x + ((o + b + c) + rest)) == (p + x) + o + b + c + rest
  {
  }

  /** Regrouping a text around the second of its elements. */
  lemma RegroupAroundSecond(p: string, x: string, q: string, y: string, o: string, b: string,
                            c: string, rest: string)
    ensures p + (x + (q + (y + ((o + b + c) + rest)))) == (p + (x + (q + y))) + o + b + c + rest
  {
  }

  /** The reply's ingredients element is the first, and yields its trimmed content. */
  lemma DishReplyIngredients(name: string, x: string, ingredients: string, y: string,
                             instructions: string, z: string)
    requires PlainParts(name, x, ingredients, y, instructions, z)
    ensures ExtractTagContent(DishReply(name, x, ingredients, y, instructions, z), IngredientsTag) == Trim(ingredients)
  {
    var e1, e3 := Element(DishNameTag, name), Element(InstructionsTag, instructions);
    var oi, ci := OpenTag(IngredientsTag), CloseTag(IngredientsTag);
    ElementLacks(DishNameTag, name, x, [], oi, 6, 1);
    assert x + [] == x;
    LacksIsNotContains(e1 + x, oi);
    PlainLacks(ingredients, ci, false);
    LacksIsNotContains(ingredients, ci);
    RegroupAround(e1, x, oi, ingredients, ci, y + (e3 + z));
    ExtractFromTaggedText(DishReply(name, x, ingredients, y, instructions, z), e1 + x, ingredients, y + (e3 + z), IngredientsTag);
  }

  /** The reply's instructions element is the first, and yields its trimmed content. */
  lemma DishReplyInstructions(name: string, x: string, ingredients: string, y: string,
                              instructions: string, z: string)
    requires PlainParts(name, x, ingredients, y, instructions, z)
    ensures ExtractTagContent(DishReply(name, x, ingredients, y, instructions, z), InstructionsTag) == Trim(instructions)
  {
    var e1, e2 := Element(DishNameTag, name), Element(IngredientsTag, ingredients);
    var os, cs := OpenTag(InstructionsTag), CloseTag(InstructionsTag);
    ElementLacks(IngredientsTag, ingredients, y, [], os, 8, 1);
    assert y + [] == y;
    ElementLacks(DishNameTag, name, x, e2 + y, os, 6, 1);
    LacksIsNotContains(e1 + (x + (e2 + y)), os);
    PlainLacks(instructions, cs, false);
    LacksIsNotContains(instructions, cs);
    RegroupAroundSecond(e1, x, e2, y, os, instructions, cs, z);
    ExtractFromTaggedText(DishReply(name, x, ingredients, y, instructions, z), e1 + (x + (e2 + y)), instructions, z, InstructionsTag);
  }

  /** The reply has no cooking-time and no nutrition element. */
  lemma DishReplyNoExtras(name: string, x: string, ingredients: string, y: string,
                          instructions: string, z: string)
    requires PlainParts(name, x, ingredients, y, instructions, z)
    ensures ExtractTagContent(DishReply(name, x, ingredients, y, instructions, z), CookingTimeTag) == ""
    ensures ExtractTagContent(DishReply(name, x, ingredients, y, instructions, z), NutritionTag) == ""
  {
    var r := DishReply(name, x, ingredients, y, instructions, z);
    DishReplyLacks(name, x, ingredients, y, instructions, z, OpenTag(CookingTimeTag), 6, 6, 6, 1);
    LacksIsNotContains(r, OpenTag(CookingTimeTag));
    ExtractWithoutTag(r, CookingTimeTag);
    DishReplyLacks(name, x, ingredients, y, instructions, z, OpenTag(NutritionTag), 7, 6, 6, 1);
    LacksIsNotContains(r, OpenTag(NutritionTag));
    ExtractWithoutTag(r, NutritionTag);
  }

  /** The whole reply, read as the dish's block, gives the trimmed fields, with
      default nutrition and an unspecified cooking time. */
  lemma DishReplyBlock(name: string, x: string, ingredients: string, y: string,
                       instructions: string, z: string)
    requires PlainParts(name, x, ingredients, y, instructions, z)
    requires !AllSpace(name) && !AllSpace(ingredients) && !AllSpace(instructions)
    ensures DishFromBlock(Trim(name), DishReply(name, x, ingredients, y, instructions, z))
      == Some(MealData(Trim(name), Trim(ingredients), Trim(instructions), DefaultNutrition, NotSpecified))
  {
    DishReplyIngredients(name, x, ingredients, y, instructions, z);
    DishReplyInstructions(name, x, ingredients, y, instructions, z);
    DishReplyNoExtras(name, x, ingredients, y, instructions, z);
  }

  /** The reply has no `</dishes>`. */
  lemma DishReplyUnclosed(name: string, x: string, ingredients: string, y: string,
                          instructions: string, z: string)
    requires PlainParts(name, x, ingredients, y, instructions, z)
    ensures !Contains(DishReply(name, x, ingredients, y, instructions, z), DishesEnd)
  {
    DishReplyLacks(name, x, ingredients, y, instructions, z, DishesEnd, 1, 1, 1, 6);
    LacksIsNotContains(DishReply(name, x, ingredients, y, instructions, z), DishesEnd);
  }

  /** Without `</dishes>`, the only block of a text whose one match starts it is the
      whole text. */
  lemma LoneBlockIsText(s: string, ms: seq<TagMatch>)
    requires Ordered(s, ms) && |ms| == 1 && ms[0].start == 0 && !Contains(s, DishesEnd)
    ensures Block(s, ms, 0) == s
  {
    assert IndexOf(s, DishesEnd, 0).None?;
  }

  lemma LoneBlockOptions(s: string, ms: seq<TagMatch>, d: MealData)
    requires Ordered(s, ms) && |ms| == 1 && DishAt(s, ms, 0) == Some(d)
    ensures DishOptions(s, ms, 1) == [Some(d)]
  {
  }

  lemma PresentOne<T>(x: T)
    ensures Present([Some(x)]) == [x]
  {
    assert [Some(x)][..0] == [];
  }

  /** A text the scan leaves as it is, whose one dish-name match starts it and that has
      no `</dishes>`, is one block: its dishes are that block's dish, if kept. */
  lemma LoneBlockMeals(content: string, d: MealData)
    requires ScanText(content) == content && !Contains(content, DishesEnd)
    requires var ms := DishNameMatches(content); |ms| == 1 && ms[0].start == 0
    requires DishFromBlock(Trim(Captured(content, DishNameMatches(content)[0])), content) == Some(d)
    ensures Meals(content) == [d]
  {
    var ms := DishNameMatches(content);
    LoneBlockIsText(content, ms);
    LoneBlockOptions(content, ms, d);
    PresentOne(d);
    assert Meals(content) == Present(DishOptions(content, ms, 1));
  }

  /** A well-formed reply with one dish (a dish-name element on one line, then the
      ingredients and instructions elements, with markup-free contents and free text
      between them) yields exactly that dish, its fields trimmed, with the default
      nutrition and "Not specified" as its cooking time. */
  lemma WellFormedReplyGivesDish(name: string, x: string, ingredients: string, y: string,
                                 instructions: string, z: string)
    requires PlainParts(name, x, ingredients, y, instructions, z)
    requires forall k :: 0 <= k < |name| ==> !IsLineTerminator(name[k])
    requires !AllSpace(name) && !AllSpace(ingredients) && !AllSpace(instructions)
    ensures Meals(DishReply(name, x, ingredients, y, instructions, z))
      == [MealData(Trim(name), Trim(ingredients), Trim(instructions), DefaultNutrition, NotSpecified)]
  {
    DishReplyScanned(name, x, ingredients, y, instructions, z);
    DishReplyNameMatch(name, x, ingredients, y, instructions, z);
    DishReplyUnclosed(name, x, ingredients, y, instructions, z);
    DishReplyBlock(name, x, ingredients, y, instructions, z);
    LoneBlockMeals(DishReply(name, x, ingredients, y, instructions, z),
                   MealData(Trim(name), Trim(ingredients), Trim(instructions), DefaultNutrition, NotSpecified));
  }

  /** The per-dish step of the scan: the dish of the index-th name match, when it is
      complete. */
  method ParseDish(cleanedContent: string, dishNameMatches: seq<TagMatch>, index: nat)
    returns (dish: Option<MealData>)
    requires Ordered(cleanedContent, dishNameMatches) && index < |dishNameMatches|
    ensures dish == DishAt(cleanedContent, dishNameMatches, index)
    ensures dish.Some? ==> Complete(dish.value)
  {
    var match_ := dishNameMatches[index];
    var dishName := Trim(Captured(cleanedContent, match_));
    var startIndex := match_.start;
    var endIndex := |cleanedContent|;
    if index + 1 < |dishNameMatches| {
      endIndex := dishNameMatches[index + 1].start;
    } else {
      var dishesEndMatch := IndexOf(cleanedContent, DishesEnd, startIndex);
      if dishesEndMatch.Some? {
        endIndex := dishesEndMatch.value;
      }
    }
    assert endIndex == BlockEnd(cleanedContent, dishNameMatches, index);
    var dishBlock := cleanedContent[startIndex..endIndex];
    var ingredients := ExtractTagContent(dishBlock, IngredientsTag);
    var instructions := ExtractTagContent(dishBlock, InstructionsTag);
    var cookingTime := ExtractTagContent(dishBlock, CookingTimeTag);
    var nutritionalText := ExtractTagContent(dishBlock, NutritionTag);
    var nutritionalInfo := ParseNutritionalInfo(nutritionalText);
    assert DishAt(cleanedContent, dishNameMatches, index) == DishFromBlock(dishName, dishBlock);
    if dishName != "" && ingredients != "" && instructions != "" {
      dish := Some(MealData(dishName, ingredients, instructions, nutritionalInfo,
                            if cookingTime == "" then NotSpecified else cookingTime));
    } else {
      dish := None;
    }
  }

  /** The options collected block by block are the dishes of the blocks. */
  lemma DishOptionsAre(s: string, ms: seq<TagMatch>, dishes: seq<Option<MealData>>)
    requires Ordered(s, ms) && |dishes| == |ms|
    requires forall i :: 0 <= i < |ms| ==> dishes[i] == DishAt(s, ms, i)
    ensures dishes == DishOptions(s, ms, |ms|)
  {
  }

  /** The walk over the dish-name matches: each block's dish is kept when it is
      complete, in block order. */
  method ParseDishes(cleanedContent: string, dishNameMatches: seq<TagMatch>) returns (meals: seq<MealData>)
    requires Ordered(cleanedContent, dishNameMatches)
    ensures meals == KeptDishes(cleanedContent, dishNameMatches, |dishNameMatches|)
  {
    meals := [];
    ghost var dishes: seq<Option<MealData>> := [];
    var index := 0;
    while index < |dishNameMatches|
      invariant index <= |dishNameMatches| && |dishes| == index
      invariant forall i :: 0 <= i < index ==> dishes[i] == DishAt(cleanedContent, dishNameMatches, i)
      invariant meals == Present(dishes)
    {
      var dish := ParseDish(cleanedContent, dishNameMatches, index);
      PresentSnoc(dishes, dish);
      dishes := dishes + [dish];
      if dish.Some? {
        meals := meals + [dish.value];
      }
      index := index + 1;
    }
    DishOptionsAre(cleanedContent, dishNameMatches, dishes);
  }

  /** Scrapes the dishes out of a raw reply: markers removed, dish names found, then
      one block per name. */
  method ParseMealData(content: string) returns (meals: seq<MealData>)
    ensures meals == Meals(content)
  {
    var cleanedContent := StripThinkSections(content);
    cleanedContent := RemoveThinkMarkers(cleanedContent);
    var dishNameMatches := DishNameMatches(cleanedContent);
    meals := ParseDishes(cleanedContent, dishNameMatches);
  }

  // ---------------------------------------------------------------------------
  // Generation

  /** The plan for a request, given what the completion service answered (or threw)
      when sent the system prompt and the user message. Every failure is rethrown as
      one fixed error. */
  method GenerateMealPlan(request: MealPlanRequest, reply: Result<Completion, Thrown>)
    returns (r: Result<MealPlanResponse, Thrown>)
    ensures r.Failure? ==> r.error == ErrorValue(GenerationFailed)
    ensures r.Success? <==> && request.restrictions.Some? && reply.Success?
                            && reply.value.content.Some? && reply.value.content.value != ""
    ensures r.Success? ==>
      var c := reply.value.content.value;
      r.value == MealPlanResponse(CleanedText(c), c, reply.value.model, Meals(c), reply.value.usage)
  {
    var userMessage := BuildUserMessage(request);
    if userMessage.Failure? {
      return Failure(ErrorValue(GenerationFailed));
    }
    if reply.Failure? || reply.value.content.None? || reply.value.content.value == "" {
      return Failure(ErrorValue(GenerationFailed));
    }
    var content := reply.value.content.value;
    var cleanedContent := CleanResponseContent(content);
    var meals := ParseMealData(content);
    return Success(MealPlanResponse(cleanedContent, content, reply.value.model, meals, reply.value.usage));
  }
}
