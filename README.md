# Voice command shopping assistant — a Dafny model of its backend core

The backend of the voice shopping assistant turns a spoken command (already
transcribed to text) into a structured request. It files the items the command
names on a per-user shopping list held in memory, and it suggests items to buy.
This project models four parts of that backend and proves properties of the model:

- **The command interpreter** (`NlpProcessor`, with the regular-expression
  scanners in `Patterns`). It lower-cases and trims the text, then works out:
  - the intent, from an ordered table of patterns where the first match wins;
  - the items: it deletes verbs, amounts and "to/from my list", splits on
    commas, trims each piece and drops stopwords and one-letter pieces;
  - the quantity: the first number and the letter run after it;
  - the category of the first item: the first category with a keyword inside it.

  It also finds alternatives for an item.
- **The recommendation engine** (`Recommendations`, class
  `RecommendationEngine`). It collects "often bought with" partners of the
  current items, the season's items and items the user is due to restock.
  It keeps the first entry per item name and returns at most five. It also
  records purchases, and looks up substitutes and price ranges.
- **The shopping list** (`ShoppingLists`, class `ShoppingList`). Adding an
  item merges it into an existing entry with the same name, ignoring case,
  by adding the quantities; otherwise the item is appended. Removing drops
  every entry with the given id. Selection by category ignores case.
- **The shopping routes** (`ShoppingRoutes`, class `ShoppingStore`). The
  handlers for fetching, adding to, removing from, clearing and filtering a
  user's list. Every error reply and its status code is modelled.

Shared helpers:
- `Text` holds ASCII `lower`, `strip`, `split`, substring search and decimal rendering.
- `Lists` holds the first-match lookup over an ordered table, plus the
  "subsequence of" relation.
- `Wrappers` holds `Option` and `Result`.

The environment becomes parameters:
- The current month (`month`) and the current instant (`now`, integer
  microseconds) are parameters. So are the ids `uuid4` would generate
  (`newListId`, and `newItemId(k)` for the `k`-th item of a command).
- Confidences are whole percentages (0.8 is 80). Prices are whole cents.
- A request field that may be missing is an `Option` (`user`, `itemId`).
  A missing user is `"default_user"`. A missing command is passed as the
  empty string, which is what `data.get('command', '')` yields.

The model follows the code in these details:
- `QUANTITY` is a fifth intent that `_extract_intent` can return, for example
  for "2 kg" (`nlp_processor.py:22-24`).
- The unit is the whole letter run after the number: "2 bottles" gives
  `(2, "bottles")`, not `(2, "bottle")`. See `NlpExamples.TwoBottles`.
- The count is not forced to be positive: "0 eggs" gives `(0, "eggs")`. See `NlpExamples.ZeroEggs`.
- The price range lookup is an exact dictionary lookup on the lower-cased
  item, not a substring match. See `Recommendations.ApplesGetDefault`.

## Model

| member | source | states |
|---|---|---|
| Text.Lower | backend/app/services/nlp_processor.py:50 | `lower()` keeps the length and lower-cases exactly the letters A-Z, character by character |
| Text.Strip | backend/app/services/nlp_processor.py:50 | `strip()` gives the slice between the leading and the trailing whitespace, and that slice is trimmed |
| Text.StripIdempotent | backend/app/services/nlp_processor.py:84 | stripping twice is stripping once |
| Text.Split | backend/app/services/nlp_processor.py:84 | `split(',')` gives one piece more than there are commas, and no piece holds a comma |
| Text.JoinSplit | backend/app/services/nlp_processor.py:84 | joining the pieces with the separator gives the text back |
| Text.SplitJoin | backend/app/services/nlp_processor.py:84 | splitting a join of separator-free pieces gives the pieces back |
| Text.ContainsAt | backend/app/services/nlp_processor.py:102 | the `in` substring test holds exactly when the word occurs at some position |
| Text.NatToDecimal | backend/app/services/recommendation_engine.py:108 | `str(n)` is a canonical digit string whose value is `n` |
| Text.DecimalOfDigits | backend/app/services/recommendation_engine.py:108 | rendering the value of a canonical digit string gives that string back |
| Lists.First | backend/app/services/nlp_processor.py:100-105 | a loop over an ordered table with an early return: `None` exactly when no key hits, otherwise the value of the first key that hits |
| Lists.FilterDetermined | backend/app/services/nlp_processor.py:84-85 | a list comprehension's result is pinned down by three facts: it is a subsequence of its input, its elements pass the test, and it has as many elements as pass the test |
| Lists.FirstHitAtOrBefore | backend/app/services/nlp_processor.py:100-103 | when entry `k` hits, the first hit is at `k` or before it |
| Patterns.WordsSpan | backend/app/services/nlp_processor.py:10 | a group of alternative words matches at the start exactly when one of the words is a case-insensitive prefix, and the match is the length of the first listed word that is |
| Patterns.NeedToBuySpan | backend/app/services/nlp_processor.py:11 | when the "i need to buy" pattern matches, one of buy, get or purchase starts at a later position of the text |
| Patterns.AltSpan | backend/app/services/nlp_processor.py:69 | an alternation matches exactly when one of its alternatives does, and it takes the match of the first alternative that matches, none before it matching |
| Patterns.FoundAt | backend/app/services/nlp_processor.py:69 | `re.search` succeeds exactly when a match starts at some position of the text |
| Patterns.FoundInside | backend/app/services/nlp_processor.py:69 | a literal alternative is found wherever it occurs, even inside a longer word, since the patterns have no word boundaries |
| Patterns.Erase | backend/app/services/nlp_processor.py:79-81 | `re.sub(..., '', ...)` never lengthens the text; `EraseLeftmost` and `FoundShortens` state what it deletes |
| Patterns.EraseLeftmost | backend/app/services/nlp_processor.py:79-81 | `re.sub` keeps the text before the leftmost match, deletes that match and goes on after it |
| Patterns.EraseKeepsUnmatched | backend/app/services/nlp_processor.py:79-81 | characters where no match starts are kept, in order |
| Patterns.FoundShortens | backend/app/services/nlp_processor.py:69-81 | whenever `re.search` finds the pattern, `re.sub` deletes at least one character |
| Patterns.CannotStartSpan | backend/app/services/nlp_processor.py:10-24 | a pattern never matches at a character that cannot begin it: a letter none of its words starts with, a non-digit for an amount |
| Patterns.WordsMismatch | backend/app/services/nlp_processor.py:10 | a group of words does not match where each word differs from the text at some index |
| Patterns.NotFoundNowhere | backend/app/services/nlp_processor.py:69 | `re.search` fails on a text where no match starts at any position |
| Patterns.EraseNowhere | backend/app/services/nlp_processor.py:79-81 | `re.sub` leaves a text unchanged when no match starts at any position |
| Patterns.EraseSubsequence | backend/app/services/nlp_processor.py:79-81 | `re.sub(..., '', ...)` only deletes characters, so what is left keeps its order |
| Patterns.EraseKeepsChar | backend/app/services/nlp_processor.py:79-81 | deleting matches that never cover a character keeps every occurrence of that character |
| NlpProcessor.ExtractIntent | backend/app/services/nlp_processor.py:65-71 | the intent is the first, in declaration order, one of whose patterns is found; `Unknown` exactly when none is; each of the six results holds in both directions |
| NlpProcessor.AddVerbInside | backend/app/services/nlp_processor.py:10 | any text holding an ADD verb, even inside a word, is an ADD command |
| NlpProcessor.AddPhraseImpliesVerb | backend/app/services/nlp_processor.py:11 | wherever the "i need to buy" pattern is found, the ADD verb pattern is found too |
| NlpProcessor.AddPhraseRedundant | backend/app/services/nlp_processor.py:9-12 | the ADD patterns are found exactly when the verb pattern alone is |
| NlpProcessor.QuantityWhenOnlyAmount | backend/app/services/nlp_processor.py:8-24 | QUANTITY is a reachable intent: a text where no ADD, REMOVE, LIST or SEARCH match starts anywhere, but an amount with a listed unit is found, is a QUANTITY command |
| NlpProcessor.Segments | backend/app/services/nlp_processor.py:79-84 | piece `k` is the `k`-th comma-separated piece of the cleaned text (`Clean`: verbs, amounts and list phrases deleted), stripped; one piece per comma plus one, each trimmed and comma-free |
| NlpProcessor.Candidates | backend/app/services/nlp_processor.py:84 | the first comprehension keeps the non-empty, non-stopword pieces in order, as many as there are, so a repeated piece is kept each time |
| NlpProcessor.LongEnough | backend/app/services/nlp_processor.py:85 | the second comprehension keeps the items longer than one character in order, as many as there are, so a repeated item is kept each time |
| NlpProcessor.ExtractItems | backend/app/services/nlp_processor.py:73-85 | the items are the stripped pieces that are not stopwords and longer than one character, in text order and as many as there are, so `FilterDetermined` leaves one possible result; each is trimmed and comma-free |
| NlpProcessor.CountKept | backend/app/services/nlp_processor.py:84-85 | the two comprehensions one after the other keep as many pieces as the combined test |
| NlpProcessor.SegmentPerComma | backend/app/services/nlp_processor.py:79-84 | cleaning never deletes a comma, so there is one piece per comma-separated part of the command |
| NlpProcessor.ReadAmount | backend/app/services/nlp_processor.py:89-93 | the unit read after a number is never empty and holds letters only |
| NlpProcessor.QuantityFrom | backend/app/services/nlp_processor.py:89-94 | the scan from a position gives the default (1, "piece") when no digit follows |
| NlpProcessor.ExtractQuantity | backend/app/services/nlp_processor.py:87-94 | a text without digits gives (1, "piece"); the unit is always a non-empty run of letters |
| NlpProcessor.QuantityOfFirstNumber | backend/app/services/nlp_processor.py:89-93 | the quantity is the value of the whole first digit run, and the unit the whole letter run after the whitespace that follows it, or "piece" |
| NlpProcessor.Categorize | backend/app/services/nlp_processor.py:96-105 | the category is that of the first table entry with a keyword inside the lower-cased item |
| NlpProcessor.UncategorizedIffNoKeyword | backend/app/services/nlp_processor.py:100-105 | "uncategorized" exactly when no category has a keyword inside the item |
| NlpProcessor.CategoryNotEmpty | backend/app/services/nlp_processor.py:96-105 | the category is never the empty string |
| NlpProcessor.MilkIsDairy | backend/app/services/nlp_processor.py:29-33 | an item holding "milk" is dairy, never beverages, since dairy comes first |
| NlpProcessor.SoapIsNotHousehold | backend/app/services/nlp_processor.py:37-38 | an item holding "soap" is never household, since personal care comes first |
| NlpProcessor.FindAlternatives | backend/app/services/nlp_processor.py:107-123 | the alternatives of the first key inside the lower-cased item; empty exactly when no key is inside |
| NlpProcessor.MilkAlternatives | backend/app/services/nlp_processor.py:112-121 | any item holding "milk" gets the milk alternatives |
| NlpProcessor.ProcessCommand | backend/app/services/nlp_processor.py:48-63 | the stored text is the input lower-cased and stripped; intent, items and quantity are those of the stored text; a category is present exactly when there are items, and it is that of the first item |
| NlpProcessor.NormalizeIdempotent | backend/app/services/nlp_processor.py:50 | lower-casing and stripping a normalised text (`Normalize`) changes nothing |
| NlpProcessor.ReprocessOriginal | backend/app/services/nlp_processor.py:48-63 | interpreting the stored text again gives the same result |
| NlpExamples.BudgetIsAdd | backend/app/services/nlp_processor.py:10 | "budget" is an ADD command, because it contains "get" |
| NlpExamples.TwoBottles | backend/app/services/nlp_processor.py:89-93 | "remove 2 bottles of milk" has quantity (2, "bottles") |
| NlpExamples.ZeroEggs | backend/app/services/nlp_processor.py:89-93 | "0 eggs" has quantity (0, "eggs") |
| NlpExamples.AddMilkBread | backend/app/services/nlp_processor.py:48-63 | "add milk, bread" is an ADD command for ["milk", "bread"] with quantity (1, "piece") and category dairy |
| NlpExamples.CleanMilkBread | backend/app/services/nlp_processor.py:79-81 | cleaning "add milk, bread" deletes "add" and nothing else |
| NlpExamples.TwoKgIsQuantity | backend/app/services/nlp_processor.py:22-24 | "2 kg" is a QUANTITY command |
| Recommendations.Partners | backend/app/services/recommendation_engine.py:43-50 | exactly the partners absent from the current items, each with reason "Often bought with" the item, confidence 80; `PartnersInTableOrder` adds their table order |
| Recommendations.PartnersInTableOrder | backend/app/services/recommendation_engine.py:43-44 | the partners come in table order |
| Recommendations.TogetherEntries | backend/app/services/recommendation_engine.py:40-50 | every entry of the "frequently together" source (`TogetherRecs`) is a partner of a current item, is not itself current, and carries confidence 80 and that item in its reason |
| Recommendations.TogetherComplete | backend/app/services/recommendation_engine.py:40-50 | every partner of a current table key that is not itself current has an entry with that key in its reason |
| Recommendations.Season | backend/app/services/recommendation_engine.py:74-81 | every month maps to a season that has a list |
| Recommendations.SeasonalFor | backend/app/services/recommendation_engine.py:84-89 | one entry per item, in order, with "In season this" the season and confidence 60 |
| Recommendations.SeasonalFirstThree | backend/app/services/recommendation_engine.py:70-89 | the seasonal source (`SeasonalRecs`) is exactly the first three items of the season's list |
| Recommendations.Due | backend/app/services/recommendation_engine.py:101-111 | an entry is due exactly when its item has a restock interval and more whole days than that have passed; a due entry has confidence 90 and the reason "Time to restock (last bought n days ago)" with the day count in decimal |
| Recommendations.RestockInHistoryOrder | backend/app/services/recommendation_engine.py:100 | the restock entries (`RestockRecs`) follow the order of the history |
| Recommendations.RestockOnlyDue | backend/app/services/recommendation_engine.py:100-111 | each restock entry comes from a due history entry |
| Recommendations.RestockComplete | backend/app/services/recommendation_engine.py:100-111 | every due history entry yields its restock entry |
| Recommendations.LowStock | backend/app/services/recommendation_engine.py:95-113 | a user without a history gets no restock entries; otherwise the restock entries of the user's history |
| Recommendations.MilkDueAfterEightDays | backend/app/services/recommendation_engine.py:91-121 | milk bought by a new user is due for restock eight days later |
| Recommendations.Dedup | backend/app/services/recommendation_engine.py:61-66 | the `seen` loop keeps an order-preserving selection of the candidates with no item twice; `DedupPositions` pins it down |
| Recommendations.DedupPositions | backend/app/services/recommendation_engine.py:61-66 | the kept entries are exactly those at the first position of their item name, in increasing position order |
| Recommendations.DedupKeepsEveryItem | backend/app/services/recommendation_engine.py:61-66 | every item name among the candidates keeps an entry |
| Recommendations.DedupKeepsFirst | backend/app/services/recommendation_engine.py:63-66 | the entry kept for an item is its first candidate |
| Recommendations.DedupHead | backend/app/services/recommendation_engine.py:63-66 | the first candidate is always kept, in first place |
| Recommendations.Top | backend/app/services/recommendation_engine.py:68 | `[:5]`: the first five entries, or all of them when there are fewer |
| Recommendations.RecommendShape | backend/app/services/recommendation_engine.py:36-68 | the result (`Recommend`) is the first five of the deduplicated candidates, or all when fewer: no item twice, in candidate order, each the first candidate for its item |
| Recommendations.MilkSuggestsBread | backend/app/services/recommendation_engine.py:17-50 | with "milk" the only current item, the first recommendation is "bread" |
| Recommendations.IndexOf | backend/app/services/recommendation_engine.py:121 | the position of the first entry with that name, or the length when there is none |
| Recommendations.Stamp | backend/app/services/recommendation_engine.py:121 | `history[item] = now`: the item then reads `now`, every other item reads as before, an existing key keeps its position and a new key goes last |
| Recommendations.StampDistinct | backend/app/services/recommendation_engine.py:121 | stamping keeps the history a dictionary, with no name twice |
| Recommendations.StampAllEffect | backend/app/services/recommendation_engine.py:115-121 | after recording (`StampAll`), every bought item reads `now` and every other item is unchanged; the old keys keep their order, only bought items are new, and no name is doubled |
| Recommendations.SubstitutesFor | backend/app/services/recommendation_engine.py:137 | one substitute per listed name, in order, with reason "Substitute for" the item as asked |
| Recommendations.SubstituteProducts | backend/app/services/recommendation_engine.py:123-139 | the substitutes of the first key inside the lower-cased item; empty exactly when no key is inside |
| Recommendations.MilkBeforeButter | backend/app/services/recommendation_engine.py:126-136 | "buttermilk" and any other item holding "milk" gets the milk substitutes |
| Recommendations.PriceRangeOf | backend/app/services/recommendation_engine.py:141-154 | the table's range for an exact lower-cased key, and the default otherwise; the range always has min ≤ avg ≤ max |
| Recommendations.PricesOrdered | backend/app/services/recommendation_engine.py:144-154 | every listed range and the default have min ≤ avg ≤ max |
| Recommendations.ApplesGetDefault | backend/app/services/recommendation_engine.py:152-154 | "apples" is not the key "apple" and gets the default range |
| Recommendations.RecommendationEngine.constructor | backend/app/services/recommendation_engine.py:33-34 | starts with an empty history |
| Recommendations.RecommendationEngine.GetRecommendations | backend/app/services/recommendation_engine.py:36-68 | the method's loops compute `Recommend` of the current state, whose shape `RecommendShape` gives |
| Recommendations.RecommendationEngine.CompanionsOf | backend/app/services/recommendation_engine.py:42-50 | the inner loop yields the item's partners missing from the current items |
| Recommendations.RecommendationEngine.Unique | backend/app/services/recommendation_engine.py:60-66 | the `seen` loop yields `Dedup` of the candidates: the first entry per item name, in order |
| Recommendations.RecommendationEngine.LowStockRecommendations | backend/app/services/recommendation_engine.py:91-113 | the loop yields the due entries of the user's history, in order |
| Recommendations.RecommendationEngine.RecordPurchase | backend/app/services/recommendation_engine.py:115-121 | the user's history becomes `StampAll` of the old one; the histories stay dictionaries |
| ShoppingLists.FindName | backend/app/models/shopping_list.py:30 | `next(...)`: none exactly when no entry has the name, ignoring case, otherwise the first such entry |
| ShoppingLists.AddedTo | backend/app/models/shopping_list.py:27-34 | the length grows by one exactly when the name is new, and the name is on the list afterwards |
| ShoppingLists.AddedToEntries | backend/app/models/shopping_list.py:30-34 | only the first entry with the name changes, and only by the added quantity; a new name is appended as given |
| ShoppingLists.AddedToKeepsDistinct | backend/app/models/shopping_list.py:27-34 | adding keeps at most one entry per name |
| ShoppingLists.AddedToKeepsNames | backend/app/models/shopping_list.py:27-34 | names on the list stay on it |
| ShoppingLists.AddSameNameTwice | backend/app/models/shopping_list.py:30-32 | a second item with the same name, ignoring case, never lengthens the list |
| ShoppingLists.AddedToTotal | backend/app/models/shopping_list.py:27-34 | the total quantity grows by exactly the item's quantity, merged or appended |
| ShoppingLists.Without | backend/app/models/shopping_list.py:36-38 | exactly the entries with another id remain, in their order; `WithoutCount` adds that each is kept once per occurrence |
| ShoppingLists.WithoutCount | backend/app/models/shopping_list.py:36-38 | the comprehension keeps as many entries as have another id, so a record listed twice is kept twice |
| ShoppingLists.WithoutUnknown | backend/app/models/shopping_list.py:36-38 | removing an id no entry carries changes nothing |
| ShoppingLists.RemoveIdempotent | backend/app/models/shopping_list.py:36-38 | removing twice is removing once |
| ShoppingLists.WithoutKeepsDistinct | backend/app/models/shopping_list.py:36-38 | removal keeps at most one entry per name |
| ShoppingLists.AddThenRemove | backend/app/models/shopping_list.py:27-38 | adding an item with a new name and a fresh id, then removing that id, restores the list |
| ShoppingLists.InCategory | backend/app/models/shopping_list.py:40-42 | exactly the entries whose category equals the given one ignoring case, in their order, as many as there are |
| ShoppingLists.InCategoryIgnoresCase | backend/app/models/shopping_list.py:42 | only the lower-cased category matters |
| ShoppingLists.ShoppingList.constructor | backend/app/models/shopping_list.py:19-24 | a new list has the given ids and no items |
| ShoppingLists.ShoppingList.AddItem | backend/app/models/shopping_list.py:27-34 | the search loop and the merge or append leave `AddedTo` of the old items, keeping one entry per name |
| ShoppingLists.ShoppingList.RemoveItem | backend/app/models/shopping_list.py:36-38 | the items become `Without` of the old items, keeping one entry per name |
| ShoppingLists.ShoppingList.GetByCategory | backend/app/models/shopping_list.py:40-42 | exactly the entries of that category, ignoring case, in list order, as many as there are |
| ShoppingRoutes.UserKey | backend/app/routes/shopping_routes.py:30 | the given user id, or "default_user" when the field is absent |
| ShoppingRoutes.OrUncategorized | backend/app/routes/shopping_routes.py:60 | a missing or empty category becomes "uncategorized"; the result is never empty |
| ShoppingRoutes.PlanAdd | backend/app/routes/shopping_routes.py:26-60 | in order, each in both directions: 400 "Command is required" for an empty command, "Invalid command for adding items" for an intent other than ADD or UNKNOWN, "No items found in command" without items; success exactly when all three checks pass, with the items, the quantity and the first item's category |
| ShoppingRoutes.AddAllKeepsDistinct | backend/app/routes/shopping_routes.py:53-63 | adding a command's items one after the other (`AddAll`) keeps one entry per name |
| ShoppingRoutes.AddAllTotal | backend/app/routes/shopping_routes.py:53-63 | the total quantity grows by the sum of the added items' quantities |
| ShoppingRoutes.AddAllListsEveryName | backend/app/routes/shopping_routes.py:53-63 | every added item's name is on the list afterwards |
| ShoppingRoutes.AddEach | backend/app/routes/shopping_routes.py:53-63 | the loop builds one item per name with the command's amount and category, and the list becomes `AddAll` of them |
| ShoppingRoutes.ShoppingStore.constructor | backend/app/routes/shopping_routes.py:8 | the store starts with no lists |
| ShoppingRoutes.ShoppingStore.ListFor | backend/app/routes/shopping_routes.py:45-50 | the user's list, created empty under the new id only when the user has none |
| ShoppingRoutes.ShoppingStore.GetShoppingList | backend/app/routes/shopping_routes.py:12-24 | the user's list, created empty when missing; no other list changes |
| ShoppingRoutes.ShoppingStore.AddItem | backend/app/routes/shopping_routes.py:26-70 | a rejected command changes nothing and replies 400 with the error; otherwise only the user's list changes, becoming `AddAll` of the new items, and the reply holds "Added n item(s)", the items and the list |
| ShoppingRoutes.ShoppingStore.AddPlanned | backend/app/routes/shopping_routes.py:45-70 | the store changes after the checks pass, with the same reply |
| ShoppingRoutes.ShoppingStore.RemoveItem | backend/app/routes/shopping_routes.py:72-91 | a 400 for a missing or empty id and a 404 for a user without a list, both changing nothing; otherwise only that list becomes `Without` the id, with "Item removed" |
| ShoppingRoutes.ShoppingStore.ClearList | backend/app/routes/shopping_routes.py:93-105 | the user's list, if any, becomes empty; no other list changes; the reply is always the success "Shopping list cleared" |
| ShoppingRoutes.ShoppingStore.GetByCategory | backend/app/routes/shopping_routes.py:107-121 | an empty reply exactly when the user has no list; otherwise the category, exactly its entries ignoring case in list order, as many as there are, and their count |

## Left out

- NlpProcessor.ExtractQuantity: reads a digit run of any length as its number. Python's `int()` (3.11 and later, and the 2022 security releases of 3.7 to 3.10) raises ValueError for a string of more than 4300 digits, the default of `sys.int_max_str_digits`. A command with such a run makes `process_command` raise, and the add and voice routes answer with a server error; the model has no such failure.
- Unicode: `lower()`, `strip()`, `\s`, `\d` and `[a-z]` are modelled on ASCII characters only.
- The regular-expression engine in general: only the patterns the interpreter uses are modelled, each as a hand-written scanner that reports the match lengths Python's engine reports.
- Floating point: confidences are whole percentages and prices whole cents.
- The clock: `datetime.now()` becomes the `month` and `now` parameters. `timedelta.days` is floor division of microseconds by the length of a day.
- `uuid4()`: list and item ids are parameters.
- Timestamps stored on records (`created_at`, `added_at`) and `price_estimate` are not modelled. They are never read by the core.
- `to_dict()` and JSON: replies are datatypes. The list view leaves out the creation time.
- A request body that is not JSON, or fields that are not strings, are not modelled. A field that is absent is an `Option`.
- Flask routing, the blueprint and the process-wide globals are not modelled. Each handler is a method of `ShoppingStore`, whose map stands for `shopping_lists`.
- The voice, recommendation and health routes, the voice processor and the frontend are not part of this model.
- The unused `synonyms` table of `NLPProcessor.__init__` is not modelled; nothing reads it.
- Concurrency between requests is not modelled: each handler runs to completion on its own.
- `random` is imported by the engine but never used.
- ShoppingLists.ShoppingList.AddItem: the merge mutates the shared `ShoppingItem` object in place. The model replaces the entry with a copy, so aliasing of item objects is not captured. In the source, the reply's item dictionaries are taken before any later merge, so the values it sends are the same.
- NlpProcessor.Categorize: its ensures names only the first-hit case. "Uncategorized" exactly when nothing hits is stated by `UncategorizedIffNoKeyword`, and the non-empty name by `CategoryNotEmpty`.
- Recommendations.RecommendationEngine.RecordPurchase: stamps every item with one instant `now`, where the source calls `datetime.now()` anew for each item; the microseconds between items are not modelled.
- Recommendations.RecommendationEngine.GetRecommendations: takes one month and one instant, where the source reads the clock anew for the season and for every history entry; calls that straddle a day or month boundary are not modelled.
