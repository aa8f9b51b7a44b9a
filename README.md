# Nutrition meal planner: a verified model of its core

The application asks a hosted language model for a meal plan and shows the
dishes it returns. Users also keep an inventory of fridge items. This project
models and proves properties of the parts of the application that make decisions:

- **The meal-plan text adapter** (`ai_patterns.dfy`, `ai_service.dfy`). It has four parts:
  - the prompt built from a request;
  - the cleaning of the model's reply: `<think>` sections are dropped, blank-line runs are collapsed and the result is trimmed;
  - the tag scraper that cuts the reply into dish blocks at `<dish_name>` elements and pulls fields out of each block;
  - the nutrition sub-parser with its defaults.

  The few fixed regular expressions the adapter uses are written as dedicated
  matchers over `seq<char>`. Each keeps JavaScript's leftmost, shortest-match
  behaviour, its dot-all flag and its ASCII case folding.
- **The display-side splitters** (`meal_card.dfy`). These split ingredient and instruction text into list items, with their fallbacks.
- **The inventory store** (`store.dfy`). It is a `Database` class holding two tables updated in place: users keyed by the sign-in provider's id, and fridge items keyed by their own id. Its methods are:
  - get-or-create of the caller's record;
  - the current-user lookup;
  - listing, adding, updating and deleting items, all scoped to the owner.

  Who is asking is an `Option<Principal>` parameter.
- **The two API routes** (`fridge_route.dfy`, `meal_plan_route.dfy`). These are ordered guard chains from a request to a status code and body (`http.dfy`), plus the classification of failures by keywords in their message.
- **Supporting modules:**
  - `text.dfy` models the JavaScript string built-ins used: `trim`, `indexOf`, `includes` and `join`, with JavaScript's white-space set.
  - `decimal.dfy` reads a quantity sent as text.
  - `wrappers.dfy` defines `Option` and `Result`.

The model follows the server code where it differs from the chat page that sends the request (src/app/chat/page.tsx:17 and :90, with the client request type at src/types/meal-plan.ts:14) and from the request type the server declares (src/lib/services/ai-service-server.tsx:12):

- The server's request type declares `restrictions` as a list. The client sends a field with another name instead, so on the server `request.restrictions` is undefined. Reading its length throws, and generation fails with the fixed message. `MealPlanRequest.restrictions` is therefore an `Option`, and `None` leads to that failure.
- The prompt contains no fridge items.
- Restrictions are joined with ", " and are not trimmed.
- The dish scraper runs on the raw completion. It strips `<think>` sections itself and does not collapse white space.

## Model

| member | source | states |
|---|---|---|
| AiService.BuildUserMessage | src/lib/services/ai-service-server.tsx:112-137 | fails exactly when the request has no restrictions list (reading its length throws); otherwise the prompt is the prompt lines joined with "\n" |
| AiService.PromptFixedLines | src/lib/services/ai-service-server.tsx:113-119 | the prompt opens with the intro line, the language line ("de" exactly when the language is "de", otherwise "en"), the plan type, diet type and goal verbatim, and ends with the closing request line |
| AiService.MessageFrame | src/lib/services/ai-service-server.tsx:133-137 | the joined message starts with the intro line and a newline, and ends with "\n" and the closing line |
| AiService.PromptLineKinds | src/lib/services/ai-service-server.tsx:121-131 | every optional line present in the prompt is there because its condition holds, and has the content that condition prescribes |
| AiService.MealTypeLineIff | src/lib/services/ai-service-server.tsx:121-123 | the meal-type line appears iff the plan type is exactly "1 Dish" and the meal frequency is non-empty |
| AiService.GermanSingleDishHasNoMealType | src/lib/services/ai-service-server.tsx:121 | the German label "1 Gericht" never produces the meal-type line |
| AiService.QuickLineIff | src/lib/services/ai-service-server.tsx:125-127 | the quick-recipes line appears iff quickRecipe is true |
| AiService.RestrictionsLineIff | src/lib/services/ai-service-server.tsx:129-131 | the restrictions line appears iff the list is non-empty |
| AiService.RestrictionsLineListed | src/lib/services/ai-service-server.tsx:129-131 | with a non-empty list, the prompt holds the restrictions line listing the items joined with ", " in order |
| AiService.CleanResponseContent | src/lib/services/ai-service-server.tsx:140-151 | the result is the composition of the four cleaning steps; it is trimmed and contains no white-space run with three or more newlines |
| AiService.CleanedTextShape | src/lib/services/ai-service-server.tsx:148-149 | the cleaned text of any reply is trimmed and has no run with three line breaks |
| AiService.ThinkSectionDropped | src/lib/services/ai-service-server.tsx:142 | in `a<think>b</think>c` with no `<think>` in a and no `</think>` in b, the section vanishes: the cleaned text is that of a followed by c with its own sections stripped, and of a + c itself when c has no closing marker |
| AiService.SplicedMarkerStays | src/lib/services/ai-service-server.tsx:145 | the marker pass is single: `<thi<think>nk>` cleans to `<think>` |
| AiPatterns.ThinkSectionRemoved | src/lib/services/ai-service-server.tsx:142 | for any a without `<think>`, b without `</think>` and any c, the shortest `<think>…</think>` span is removed and the scan goes on after it |
| AiPatterns.PlainTextKept | src/lib/services/ai-service-server.tsx:142-145 | text without '<' passes both think passes unchanged |
| AiPatterns.SplicedMarkerSurvives | src/lib/services/ai-service-server.tsx:145 | removing markers from `<thi<think>nk>` leaves a marker |
| AiPatterns.UnclosedThinkKept | src/lib/services/ai-service-server.tsx:142 | a text with no closing marker loses no section |
| AiPatterns.MarkerFreeKept | src/lib/services/ai-service-server.tsx:145 | text with neither `<think>` nor `</think>` passes the marker pass unchanged |
| AiPatterns.MarkerPassKeepsOpening | src/lib/services/ai-service-server.tsx:145 | an unfinished `<thi` not followed by `n` is kept as it is |
| AiPatterns.CollapseKeepsRunBound | src/lib/services/ai-service-server.tsx:148 | after the collapse no white-space run holds three newlines, and no run grows |
| AiPatterns.CollapseKeepsTidyText | src/lib/services/ai-service-server.tsx:148 | text with no run of three line breaks is left exactly as it is |
| AiPatterns.CollapseIdempotent | src/lib/services/ai-service-server.tsx:148 | collapsing twice is collapsing once |
| AiPatterns.CollapseKeepsNonSpace | src/lib/services/ai-service-server.tsx:148 | the collapse keeps every non-white-space character, in order, and adds none |
| AiPatterns.CollapseRunBetween | src/lib/services/ai-service-server.tsx:148 | a white-space run from a line feed to a line feed holding three or more of them, between tidy text that ends and starts with other characters, becomes exactly "\n\n" and nothing else changes |
| AiPatterns.CloseAfter | src/lib/services/ai-service-server.tsx:233 | finds the first closing tag after a position; without dot-all, it is not found past a line terminator |
| AiPatterns.FirstTagMatch | src/lib/services/ai-service-server.tsx:233-234 | the result is a tag match at or after the start, and no match starts before it |
| AiPatterns.AllTagMatches | src/lib/services/ai-service-server.tsx:163-164 | matchAll: every element is a match, and each match starts at or after the end of the previous one |
| AiPatterns.AllTagMatchesComplete | src/lib/services/ai-service-server.tsx:163-164 | matchAll misses nothing: every position where a match starts is the start of a reported match or lies inside one |
| AiPatterns.FirstTagCaptures | src/lib/services/ai-service-server.tsx:233-235 | in text a + open tag + body + close tag + rest, where a holds no opening tag and the body no closing tag (and no line terminator without dot-all), the first match is that element and it captures exactly the body, whatever other markup a and rest hold |
| AiService.ExtractTagContent | src/lib/services/ai-service-server.tsx:232-236 | the result is trimmed, and it is non-empty only when the tag occurs (newlines allowed) |
| AiService.ExtractFromTaggedText | src/lib/services/ai-service-server.tsx:232-236 | when no opening tag precedes the element and its body holds no closing tag, the extracted field is the element's trimmed body, whatever other markup surrounds it |
| AiService.ExtractWithoutTag | src/lib/services/ai-service-server.tsx:235 | without an opening tag the result is "" |
| AiService.NutrientField | src/lib/services/ai-service-server.tsx:252-265 | a nutrient is its default or a trimmed value |
| AiService.ParseNutritionalInfo | src/lib/services/ai-service-server.tsx:241-248 | an empty nutrition text gives 0g, 0g, 0g, 0kcal |
| AiService.NutrientFromTag | src/lib/services/ai-service-server.tsx:252-260 | a nutrient element in any letter case, with no opening tag of that name before it and a body on one line without its closing tag, yields its trimmed body |
| AiService.NutrientsWithoutMarkup | src/lib/services/ai-service-server.tsx:241-266 | nutrition text without tags yields the four defaults |
| AiService.NutrientMissing | src/lib/services/ai-service-server.tsx:252-265 | a nutrient whose opening tag occurs nowhere in the text, in any letter case, takes its default, whatever other markup the text holds |
| AiService.OnlyProteinGiven | src/lib/services/ai-service-server.tsx:252-265 | nutrition text holding only a one-line protein element gives its trimmed content as protein, and 0g, 0g, 0kcal for carbs, fat and calories |
| AiService.DishNameMatches | src/lib/services/ai-service-server.tsx:163-164 | the dish-name matches are matches without dot-all and are in document order |
| AiService.DishNameMatchesComplete | src/lib/services/ai-service-server.tsx:163-164 | no dish-name element is missed: each one's start is a reported match's start or lies inside a reported match |
| AiService.DishNamesOnOneLine | src/lib/services/ai-service-server.tsx:163 | a captured dish name contains no line terminator |
| AiService.BlockEnd | src/lib/services/ai-service-server.tsx:171-185 | a block ends no earlier than its own start and no later than the start of every later dish name |
| AiService.DishFromBlock | src/lib/services/ai-service-server.tsx:191-219 | a dish is kept iff its name, ingredients and instructions are all non-blank; a kept dish carries that name and the block's extracted ingredients and instructions, and is complete (cooking time "Not specified" when empty) |
| AiService.DishFieldsFromItsBlock | src/lib/services/ai-service-server.tsx:188-198 | a kept dish's ingredients and instructions come from elements inside its own block |
| AiService.KeptInDocumentOrder | src/lib/services/ai-service-server.tsx:166-224 | the kept dishes are the complete candidates, each once, in document order, at most one per dish-name match |
| AiService.MealsAreComplete | src/lib/services/ai-service-server.tsx:154-230 | every returned meal is complete, and there are no more meals than dish-name matches |
| AiService.ParseDish | src/lib/services/ai-service-server.tsx:167-220 | the per-match step yields the dish of that match's block, and only a complete one |
| AiService.ParseDishes | src/lib/services/ai-service-server.tsx:166-224 | the walk over the dish-name matches returns exactly the complete dishes of their blocks, in block order |
| AiService.WellFormedReplyGivesDish | src/lib/services/ai-service-server.tsx:154-230 | a reply `<dish_name>N</dish_name>` x `<dish_ingredients>I</dish_ingredients>` y `<dish_instructions>S</dish_instructions>` z with non-blank N, I, S, N on one line and no markup in the parts yields exactly one dish: the trimmed N, I and S, default nutrition and "Not specified" |
| AiService.ParseMealData | src/lib/services/ai-service-server.tsx:154-230 | returns exactly the specified meals of the reply |
| AiService.PresentInOrder | src/lib/services/ai-service-server.tsx:212-219 | filtering keeps the present entries, in order, and drops nothing present |
| AiService.GenerateMealPlan | src/lib/services/ai-service-server.tsx:72-110 | succeeds iff restrictions are given and the reply has non-empty content; the plan holds the cleaned text, the raw text, the model, the meals parsed from the raw text and the usage; every failure carries the one fixed message |
| MealCard.SplitIngredients | src/components/MealCard.tsx:9-17 | the empty text gives the empty list, and only the empty text does |
| MealCard.IngredientSplitConcat | src/components/MealCard.tsx:12-13 | the pieces, concatenated in order, are the text with the delimiters removed |
| MealCard.IngredientSplitAtRuns | src/components/MealCard.tsx:12-13 | the text is the pieces with a non-empty run of delimiters between each two, and no piece holds a delimiter: the cuts are exactly the maximal delimiter runs |
| MealCard.IngredientsAreClean | src/components/MealCard.tsx:12-16 | outside the fallback, every item is non-empty, trimmed and free of ',', ';' and '\n' |
| MealCard.IngredientsFallbackIff | src/components/MealCard.tsx:16 | nothing survives the split exactly when the text is only delimiters and white space, and then the text itself is the one item |
| MealCard.SplitInstructions | src/components/MealCard.tsx:19-32 | the empty text gives the empty list; the result is the text itself or non-empty trimmed steps |
| MealCard.SentencesEndWithPeriod | src/components/MealCard.tsx:27-30 | in the sentence split every piece but the last ends with '.' |
| MealCard.SentenceSplitAtBreaks | src/components/MealCard.tsx:27-28 | the text is the pieces with a non-empty white-space run between each two; each piece before a run ends with '.', each piece after one starts with other text, and no piece holds a '.' followed by white space: the cuts are exactly the maximal white-space runs after a full stop |
| MealCard.InstructionsBySentences | src/components/MealCard.tsx:26-31 | when the marker split gives at most one step, the steps are the trimmed non-empty pieces of the sentence split, or the whole text when there are none; every step but the last ends with '.' |
| MealCard.TwoNumberedSteps | src/components/MealCard.tsx:22-26 | "1. a 2. b" is listed as the two steps a and b |
| Store.ApplyPatch | src/lib/services/fridge-service.ts:64-70 | an update writes exactly the fields present in the patch and the modification time; id, owner and creation time stay |
| Store.PatchIdempotent | src/lib/services/fridge-service.ts:64-70 | applying the same update twice is applying it once |
| Store.InsertionPoint | src/lib/services/fridge-service.ts:24 | every item before the insertion point is newer than the new item, and the item at it is not |
| Store.InsertKeepsOrder | src/lib/services/fridge-service.ts:24 | inserting keeps a listing newest first |
| Store.InsertMembers | src/lib/services/fridge-service.ts:22-25 | inserting adds exactly the new item |
| Store.InsertKeepsDistinct | src/lib/services/fridge-service.ts:22-25 | inserting an item with a new id keeps ids distinct |
| Store.ListingsAreDisjoint | src/lib/services/fridge-service.ts:22-23 | listings of two users share no item |
| Store.ListingIds | src/lib/services/fridge-service.ts:22-23 | an item id appears in a user's listing iff that user owns the item |
| Store.Database.OwnedItems | src/lib/services/fridge-service.ts:22-25 | exactly the owner's items, each once, newest first |
| Store.Database.GetUserByClerkId | src/lib/services/user-service.ts:38-47 | the record stored under the external id or None, with its items newest first |
| Store.Database.GetCurrentUser | src/lib/services/user-service.ts:52-60 | None without a signed-in caller or without a record; otherwise the caller's record and items; creates nothing |
| Store.Database.GetOrCreateUser | src/lib/services/user-service.ts:8-33 | fails with "User not authenticated" and changes nothing without a caller; returns the existing record without inserting; otherwise inserts exactly one record with the caller's id and email (null when missing or empty) |
| Store.Database.GetOrCreateUserTwice | src/lib/services/user-service.ts:16-30 | two calls return the same record and add at most the caller's one key |
| Store.Database.GetFridgeItems | src/lib/services/fridge-service.ts:15-26 | fails with "User not authenticated" iff there is no current user; otherwise exactly the user's items, newest first |
| Store.Database.AddFridgeItem | src/lib/services/fridge-service.ts:31-40 | stores one new item with the given fields, owned by the record get-or-create returns (which may have just been created) |
| Store.Database.UpdateFridgeItem | src/lib/services/fridge-service.ts:45-71 | "User not authenticated" without a current user; one shared error when the item is missing or not the caller's, with the table unchanged; otherwise only that item changes, by the patch |
| Store.Database.DeleteFridgeItem | src/lib/services/fridge-service.ts:76-98 | the same two errors, table unchanged on failure; on success exactly that item is removed and returned |
| Store.Database.GetFridgeItemsForMealPlan | src/lib/services/fridge-service.ts:103-130 | [] without a current user; otherwise the projection of each of the user's items, each once |
| Decimal.ParseUnsigned | src/app/api/fridge/route.ts:44 | a numeral read as a quantity is never negative and starts with a digit or '.' |
| Decimal.NatRoundTrip | src/app/api/fridge/route.ts:44 | a whole number written in decimal reads back as itself |
| Decimal.MinusIsNotPositive | src/app/api/fridge/route.ts:44-45 | a numeral with a minus sign never reads as a positive quantity |
| FridgeRoute.ValidatePost | src/app/api/fridge/route.ts:33-65 | presence, then quantity, then category; the first failing check gives its 400 reply; an accepted body carries the trimmed name, the parsed positive quantity, the unit and the category |
| FridgeRoute.ZeroQuantityIsNotMissing | src/app/api/fridge/route.ts:33-50 | a quantity of 0 passes the presence check and is refused by the quantity check |
| FridgeRoute.BlankNameIsStoredEmpty | src/app/api/fridge/route.ts:33-61 | a blank name passes the presence check and is stored as "" |
| FridgeRoute.TextQuantityAccepted | src/app/api/fridge/route.ts:44-62 | a positive whole quantity sent as text is stored with its value |
| FridgeRoute.ErrorResponse | src/app/api/fridge/route.ts:68-81 | 401 iff the thrown value is an Error whose message contains "not authenticated", otherwise 500 |
| FridgeRoute.StoreErrorStatuses | src/app/api/fridge/route.ts:12-22 | the store's "User not authenticated" failure is answered 401 "Authentication required" |
| FridgeRoute.Get | src/app/api/fridge/route.ts:5-24 | 401 without a current user; otherwise 200 with exactly the user's items, newest first |
| FridgeRoute.Post | src/app/api/fridge/route.ts:27-83 | 400 exactly when a check fails, and then nothing changes; 401 when nobody is signed in, with both tables unchanged; 201 with the item stored for the caller; past validation the users table gains exactly the caller's new record when the caller had none, and is otherwise unchanged |
| MealPlanRoute.ErrorResponse | src/app/api/meal-plan/route.ts:32-72 | the status is 401, 429, 408 or 500; a thrown value that is not an Error gives 500 |
| MealPlanRoute.ErrorResponseFollowsRules | src/app/api/meal-plan/route.ts:36-66 | the status is that of the first rule with a keyword in the message (case-sensitive), else 500 |
| MealPlanRoute.FirstRule | src/app/api/meal-plan/route.ts:36-66 | the chosen rule has a keyword in the message; none is chosen iff no rule has one |
| MealPlanRoute.GenerationFailureIs500 | src/app/api/meal-plan/route.ts:29-71 | the fixed generation-failure message contains no keyword, so it gives 500 |
| MealPlanRoute.Post | src/app/api/meal-plan/route.ts:4-73 | 503 without an API key; then 400 without a required field; past both checks the status is 200 or 500, 200 with the plan iff generation succeeds |
| Text.Trim | src/lib/services/ai-service-server.tsx:235 | the result has no white space at either end, is the text with only white space cut from its ends, and is empty iff the text is all white space |
| Text.IndexOf | src/lib/services/ai-service-server.tsx:178-181 | the first occurrence at or after the start, or none at all |
| Text.NotContainsWithout | src/app/api/meal-plan/route.ts:36-43 | a keyword with a character missing from the message does not occur in it |
| Text.JoinLast | src/lib/services/ai-service-server.tsx:137 | a join of several parts ends with the separator and the last part |

## Left out

- The chat-completion call is a network call to a hosted model; its reply is a parameter. This covers the model name, temperature, system prompt and API key. The "no content" case is part of that parameter.
- The regular-expression engine is not modelled in general. Only the fixed patterns are written as matchers, with a fixed white-space set.
- The database library, the sign-in provider and the clock are not modelled. The tables are maps, the caller is a parameter and timestamps are supplied by the caller.
- The race between two concurrent first requests of one user is not modelled, because it is concurrency guarded by a database uniqueness constraint.
- Store.Database.OwnedItems: the order among items created at the same instant is unspecified in the database query, so the model fixes one order.
- Store.Database.GetFridgeItemsForMealPlan: the query has no ordering, so the model states only the items, not their order.
- Store.Database: item and user ids are numbers issued by counters, not generated strings.
- Decimal.ParseDecimal: `parseFloat` reads floating point with exponents, "Infinity" and numeric prefixes such as "3abc". The model reads plain decimal numerals over the reals, and an array quantity counts as not a number.
- FridgeRoute.Post: for a unit that is not text, the model assumes the database refuses the insert after get-or-create. The thrown message is taken not to mention authentication, so the reply is 500.
- A body that is not valid JSON is not modelled, because the body arrives as a parsed value.
- FridgeRoute.Post: the body is taken as an object. A JSON `null` body makes the destructuring at src/app/api/fridge/route.ts:30 throw a TypeError, and the route answers 500 "Failed to add fridge item"; the model has no such input.
- MealCard.TwoNumberedSteps: the numbered-step split is proved for two steps only; a list of n numbered steps is not stated in general.
- The update and delete endpoints under `src/app/api/fridge/[id]/route.ts` are not part of this model. The store operations they call are.
- The user sync endpoint, the browser service wrapper, the localisation tables and the user-interface components are not modelled. They are rendering and plumbing. Only the labels "1 Dish" and "1 Gericht" are inlined.
- Logging to the console is not modelled.
- The `try`/`catch` blocks in the scraper never fire in the model, because no step can throw.
