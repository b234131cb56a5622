# RecipeAI core in Dafny

RecipeAI is an iOS app: the user types a list of ingredients, asks a
generative-language model (Gemini) for dish ideas, picks one, and asks for
cooking instructions. Around the network call sits a small amount of
sequential logic, modelled here as pure functions over `seq<char>` and
`seq<string>`:

- **Suggestion pipeline** (`gemini_service.dfy`, module `GeminiService`): the
  two prompt templates, the reply parser (split on newline characters, drop
  empty raw lines, trim each survivor), `GeminiError` and its descriptions,
  and the `catch` that rewraps every failure as `apiError`. The SDK call
  `generateContent` is a function parameter `generate: string -> SdkReply`,
  whose reply is a text that may be nil, or a thrown SDK error with its
  description.
- **Ingredient editor** (`ingredients_view.dfy`): `addIngredient`, the row
  delete closure, and the enabling guards of the add button and the generate
  link. Together they keep the list free of duplicates, with every entry
  non-empty and trimmed.
- **Suggestion screen** (`meal_suggestions_view.dfy`) and **instruction
  screen** (`recipe_instructions_view.dfy`): state machines over
  `(isLoading, errorMessage, data)` with start, success, failure and appear
  events, and the precedence that picks the panel on screen.
- Shared pieces: `text.dfy` (Foundation's trimming, line splitting and
  joining, with split/join round trips), `wrappers.dfy` (`Option`, `Result`),
  `recipe_models.dfy` (`MealSuggestion`, name only).

Behaviours of the code that the proofs pin down:

- The parser filters before it trims. A line of blanks is not empty, so it
  becomes a suggestion with an empty name.
- A reply text of `""` is a success with no suggestions. On the screen this
  shows the "Generate Suggestions" prompt, not an error.
- Only a nil text raises `emptyResponse`. The `catch` in the same method
  rewraps it as `apiError("The AI returned an empty response")`, so the
  screen reads "Failed to generate meal suggestions: API error: The AI
  returned an empty response".
- The count of five in the prompt is advisory. Nothing truncates or
  de-duplicates the parsed list.

## Model

| member | source | states |
|---|---|---|
| Text.Trim | Services/GeminiService.swift:36 | `trimmingCharacters(in:)` gives an infix of the input with neither end in the set, and everything cut off before and after it is in the set; the result is empty exactly when every character is in the set; an already trimmed string is returned unchanged |
| Text.TrimCharacterised | Services/GeminiService.swift:36 | any infix that has neither end in the set and only set characters around it is the trimmed string, so the description above fixes the result uniquely |
| Text.SplitLines | Services/GeminiService.swift:34 | `components(separatedBy: .newlines)` yields one more piece than there are newline characters, and no piece contains a newline |
| Text.SplitJoin | Services/GeminiService.swift:34 | splitting newline-free pieces separated by one newline character per gap, any mix of them, gives the pieces back, empty ones included (CR LF yields an empty piece) |
| Text.JoinSplit | Services/GeminiService.swift:34 | re-joining the lines of an LF-only text with "\n" gives the text back |
| Text.JoinLayout | Services/GeminiService.swift:22 | `joined(separator:)` holds every element, in order, at its offset, with exactly one separator between neighbours and nothing after the last |
| GeminiService.SuggestionPromptFrame | Services/GeminiService.swift:21-26 | the suggestion prompt is the fixed head, the joined list, the fixed tail; an empty ingredient list still yields a prompt, with nothing between head and tail |
| GeminiService.SuggestionPromptListsIngredients | Services/GeminiService.swift:21-26 | each ingredient appears in the suggestion prompt in input order, followed by ", " when another follows |
| GeminiService.InstructionPromptQuotesMeal | Services/GeminiService.swift:49-53 | the instruction prompt has the meal name between single quotes, followed later by the same ", "-joined ingredient list |
| GeminiService.NonEmptyLines | Services/GeminiService.swift:35 | every line the filter keeps is non-empty and the result is never longer than the input |
| GeminiService.NonEmptyLinesKeepsAll | Services/GeminiService.swift:35 | a list with no empty line passes the filter unchanged |
| GeminiService.NonEmptyLinesCount | Services/GeminiService.swift:35 | the filter keeps exactly the non-empty lines: it shortens the list by the number of empty lines and keeps every non-empty line as many times as it occurs |
| GeminiService.NonEmptyLinesAppend | Services/GeminiService.swift:35 | the filter keeps input order: filtering a concatenation concatenates the filtered parts |
| GeminiService.ParseSuggestions | Services/GeminiService.swift:33-38 | at most one suggestion per line; every name is trimmed and newline-free; an empty text parses to no suggestions |
| GeminiService.ParseJoinedLines | Services/GeminiService.swift:33-38 | for lines ended by any newline characters, suggestion i is the trim of the i-th non-empty raw line; the count is the number of non-empty untrimmed lines |
| GeminiService.ParseKeepsRepeats | Services/GeminiService.swift:33-38 | n copies of one dish give n equal suggestions for every n: no de-duplication and no cut to five |
| GeminiService.BlankLineGivesEmptyName | Services/GeminiService.swift:34-36 | a line of blanks survives the empty-line filter and becomes a suggestion with an empty name |
| GeminiService.ParseSkipsEmptyLines | Services/GeminiService.swift:33-38 | "A\n\nB\n" parses to the suggestions A and B in order, the blank line and trailing empty piece dropped |
| GeminiService.ParseCrLfLines | Services/GeminiService.swift:33-38 | "A\r\nB" parses to the suggestions A and B: the empty piece between CR and LF is dropped |
| GeminiService.ErrorDescriptionInjective | Services/GeminiService.swift:76-82 | "The AI returned an empty response" and "API error: " + message never coincide, and distinct messages give distinct descriptions |
| GeminiService.GenerateMealSuggestions | Services/GeminiService.swift:28-44 | success exactly when the reply has a text, holding its parse; a nil text fails as apiError of the empty-response description; an SDK failure fails as apiError of its description; no failure is ever `emptyResponse` |
| GeminiService.GenerateInstructions | Services/GeminiService.swift:55-65 | success exactly when the reply has a text, returned unchanged; failures are rewrapped as for suggestions, never `emptyResponse` |
| GeminiService.EmptyTextIsEmptySuccess | Services/GeminiService.swift:31-38 | a reply text of "" is a success with no suggestions, not an error |
| IngredientsView.AddIngredient | Views/IngredientsView.swift:91-103 | blank input changes nothing; a new trimmed entry is appended at the end and the field cleared, alert untouched; a duplicate leaves the list and field, and raises "This ingredient is already in your list" |
| IngredientsView.FirstIndexOf | Views/IngredientsView.swift:51 | `firstIndex(of:)` finds the first occurrence, or nothing exactly when the value is absent |
| IngredientsView.DeleteIngredient | Views/IngredientsView.swift:51-53 | removes the first occurrence and keeps the order of the rest; an absent value changes nothing; field and alert untouched |
| IngredientsView.AddPreservesWellFormed | Views/IngredientsView.swift:91-103 | adding keeps the list distinct, non-empty and trimmed |
| IngredientsView.DeletePreservesWellFormed | Views/IngredientsView.swift:51-53 | deleting keeps the list distinct, non-empty and trimmed |
| IngredientsView.DeleteRemovesEntirely | Views/IngredientsView.swift:51-53 | on a well-formed list, delete leaves no copy of the ingredient and, when it was present, shortens the list by one |
| IngredientsView.DeleteUndoesAdd | Views/IngredientsView.swift:92-97 | deleting the entry just added restores the previous list |
| IngredientsView.AddIdempotent | Views/IngredientsView.swift:91-103 | pressing add a second time changes nothing more |
| IngredientsView.AddGuardMatchesAction | Views/IngredientsView.swift:38 | the add button is disabled exactly when the input is all blanks, and then `addIngredient` does nothing; when enabled it grows the list or raises the duplicate alert, so with no alert showing it always changes the state |
| IngredientsView.GenerateGuardAfterAdd | Views/IngredientsView.swift:81 | after an add, generate is enabled exactly when it was before or the add button was |
| IngredientsView.GenerateGuardAfterDelete | Views/IngredientsView.swift:81 | delete disables generate exactly when it removes the only entry |
| IngredientsView.ReplayKeepsWellFormed | Views/IngredientsView.swift:29-103 | any sequence of typing, adding, deleting and dismissing keeps a well-formed list well formed |
| IngredientsView.ReachableIsWellFormed | Views/IngredientsView.swift:4-103 | every list reachable from the empty screen is well formed |
| MealSuggestionsView.Start | Views/MealSuggestionsView.swift:132-138 | start sets loading, clears the error, keeps the suggestions, and requests the screen's ingredients |
| MealSuggestionsView.Finish | Views/MealSuggestionsView.swift:140-148 | success replaces the suggestions; failure sets "Failed to generate meal suggestions: " + description and keeps earlier suggestions; loading stops |
| MealSuggestionsView.Display | Views/MealSuggestionsView.swift:36-120 | panel precedence: loading, then error, then empty prompt, then the list |
| MealSuggestionsView.ButtonsRequestTheSameIngredients | Views/MealSuggestionsView.swift:56-107 | every panel but the spinner offers a button, and Try Again, Generate and Regenerate all start the same request with the same ingredients |
| MealSuggestionsView.AppearRequestsOnlyWhenEmpty | Views/MealSuggestionsView.swift:125-129 | appear requests exactly when there are no suggestions, and otherwise changes nothing |
| MealSuggestionsView.RunShows | Views/MealSuggestionsView.swift:132-151 | after one request the screen lists the parsed dishes, shows the empty prompt when the text parses to nothing, or shows the rewrapped error message |
| MealSuggestionsView.FailureKeepsThenSuccessReplaces | Views/MealSuggestionsView.swift:140-148 | a failed request, whether an SDK error or a nil text, keeps earlier suggestions behind the error panel; a later success replaces them and clears the error |
| MealSuggestionsView.FreshScreenRequestsOnAppear | Views/MealSuggestionsView.swift:6-8 | a fresh screen shows the empty prompt and its first appearance starts a request |
| RecipeInstructionsView.Initial | Views/RecipeInstructionsView.swift:7-9 | the screen starts loading, with empty instructions and no error |
| RecipeInstructionsView.Load | Views/RecipeInstructionsView.swift:109-118 | load sets loading, clears the error, keeps the text, and requests the screen's meal and ingredients |
| RecipeInstructionsView.Finish | Views/RecipeInstructionsView.swift:120-128 | success stores the text verbatim; failure sets "Failed to generate instructions: " + description and keeps the earlier text; loading stops |
| RecipeInstructionsView.Display | Views/RecipeInstructionsView.swift:21-99 | panel precedence: loading, then error, then the recipe content |
| RecipeInstructionsView.AppearAlwaysRequests | Views/RecipeInstructionsView.swift:104-106 | appear always requests, whatever the screen holds, and Try Again does the same |
| RecipeInstructionsView.FreshScreenAlreadyLoading | Views/RecipeInstructionsView.swift:7-9 | a fresh screen shows the spinner before any request; its first appearance leaves the state as it was |
| RecipeInstructionsView.RunShows | Views/RecipeInstructionsView.swift:109-131 | after one request the screen shows the reply text unchanged, even when empty, or the rewrapped error message |
| RecipeInstructionsView.FailureKeepsInstructions | Views/RecipeInstructionsView.swift:125-128 | a failed request keeps the earlier text behind the error panel |

## Left out

- The network call, the Gemini SDK and its model name: `generateContent` is the parameter `generate`; what the model writes is not modelled.
- The hard-coded API key and the `GeminiService.shared` singleton: configuration, not behaviour.
- Asynchrony: `Task` and `DispatchQueue.main.async` are replaced by separate start and completion events. Overlapping requests and the stale-response race are concurrency and are not modelled.
- UUID identity of `MealSuggestion`, and the unused `RecipeInstructions` struct (`Models/RecipeModels.swift`).
- Presentation: layout, colours, navigation, previews, `ContentView.swift` and `RecipeAIApp.swift`. The screens are reduced to which panel is shown and which button it offers.
- Text.Trim: Foundation's `.whitespaces` and `.newlines` are approximated by the predicates `IsWhitespace` (TAB and the Unicode space separators) and `IsNewline` (LF, VT, FF, CR, NEL, LS, PS), over single code points rather than Swift's grapheme clusters.
- IngredientsView.AddIngredient: Swift compares strings by Unicode canonical equivalence; the model compares code-point sequences, so two spellings of one accented ingredient count as different here.
- The text of `error.localizedDescription` for an SDK error is whatever the SDK says; it is the `description` carried by `SdkFailure`.
