/**
 The suggestion screen as a state machine over `(isLoading, errorMessage,
 mealSuggestions)`. `generateMealSuggestions()` is split into its synchronous
 start and the completion the `Task` later delivers on the main queue.
 */
module MealSuggestionsView {
  import opened Wrappers
  import opened RecipeModels
  import opened GeminiService

  /** The screen's `let ingredients` and its three `@State` values. */
  datatype State = State(
    ingredients: seq<string>,
    isLoading: bool,
    errorMessage: Option<string>,
    suggestions: seq<MealSuggestion>)

  /** The screen as the ingredient list first presents it. */
  function Initial(ingredients: seq<string>): State {
    State(ingredients, false, None, [])
  }

  const FailurePrefix := "Failed to generate meal suggestions: "

  /** A transition's new state, and the ingredient list it sends to the service, if any. */
  datatype Step = Step(state: State, request: Option<seq<string>>)

  /**
   The synchronous part of `generateMealSuggestions()`: show the spinner,
   clear the error, keep the current suggestions, and send the screen's
   ingredients.
   */
  function Start(s: State): (t: Step)
    ensures t.state.isLoading && t.state.errorMessage == None
    ensures t.state.suggestions == s.suggestions && t.state.ingredients == s.ingredients
    ensures t.request == Some(s.ingredients)
  {
    Step(s.(isLoading := true, errorMessage := None), Some(s.ingredients))
  }

  /**
   The completion: a success replaces the suggestions, a failure sets the
   prefixed message and leaves the earlier suggestions in place. Either way
   the spinner stops.
   */
  function Finish(s: State, r: Result<seq<MealSuggestion>, GeminiError>): (t: State)
    ensures !t.isLoading && t.ingredients == s.ingredients
    ensures r.Success? ==> t.suggestions == r.value && t.errorMessage == s.errorMessage
    ensures r.Failure? ==>
      t.errorMessage == Some(FailurePrefix + ErrorDescription(r.error))
      && t.suggestions == s.suggestions
  {
    match r
    case Success(v) => s.(suggestions := v, isLoading := false)
    case Failure(e) => s.(errorMessage := Some(FailurePrefix + ErrorDescription(e)), isLoading := false)
  }

  /** One full request: start, call the service through `generate`, complete. */
  function Run(s: State, generate: string -> SdkReply): State {
    Finish(Start(s).state, GenerateMealSuggestions(generate, s.ingredients))
  }

  /** The four panels the body can show. */
  datatype Panel =
    | Progress
    | ErrorPanel(message: string)
    | EmptyPrompt
    | SuggestionList(suggestions: seq<MealSuggestion>)

  /** The body's `if`/`else if` chain: loading, then error, then empty, then the list. */
  function Display(s: State): (p: Panel)
    ensures p.Progress? <==> s.isLoading
    ensures p.ErrorPanel? <==> !s.isLoading && s.errorMessage.Some?
    ensures p.ErrorPanel? ==> p.message == s.errorMessage.value
    ensures p.EmptyPrompt? <==> !s.isLoading && s.errorMessage.None? && s.suggestions == []
    ensures p.SuggestionList? <==> !s.isLoading && s.errorMessage.None? && s.suggestions != []
    ensures p.SuggestionList? ==> p.suggestions == s.suggestions
  {
    if s.isLoading then Progress
    else if s.errorMessage.Some? then ErrorPanel(s.errorMessage.value)
    else if s.suggestions == [] then EmptyPrompt
    else SuggestionList(s.suggestions)
  }

  /** The three buttons; every one of them runs `generateMealSuggestions`. */
  datatype Button = TryAgain | GenerateSuggestions | Regenerate

  /** The button each panel offers. */
  function ButtonOn(p: Panel): Option<Button> {
    match p
    case Progress => None
    case ErrorPanel(_) => Some(TryAgain)
    case EmptyPrompt => Some(GenerateSuggestions)
    case SuggestionList(_) => Some(Regenerate)
  }

  function Press(s: State, b: Button): Step {
    match b
    case TryAgain => Start(s)
    case GenerateSuggestions => Start(s)
    case Regenerate => Start(s)
  }

  /** `.onAppear`: request only while there are no suggestions yet. */
  function Appear(s: State): Step {
    if s.suggestions == [] then Start(s) else Step(s, None)
  }

  // ------------------------------------------------------------ properties

  /**
   Every panel but the spinner offers a button, and whichever it is, it
   re-requests with the screen's own ingredients exactly as the others do.
   */
  lemma ButtonsRequestTheSameIngredients(s: State)
    ensures ButtonOn(Display(s)).None? <==> s.isLoading
    ensures forall b: Button :: Press(s, b) == Start(s)
    ensures forall b: Button :: Press(s, b).request == Some(s.ingredients)
  {
  }

  /** Appearing sends a request exactly when there are no suggestions, and otherwise changes nothing. */
  lemma AppearRequestsOnlyWhenEmpty(s: State)
    ensures Appear(s).request.Some? <==> s.suggestions == []
    ensures Appear(s).request.Some? ==> Appear(s).request.value == s.ingredients
    ensures Appear(s).request.None? ==> Appear(s).state == s
  {
  }

  /**
   What the screen shows after one request, by what the SDK returned:
   parsed dishes as a list, a reply that parses to nothing as the empty
   prompt (not an error), and a nil text or an SDK failure as an error panel
   whose text carries the rewrapped description.
   */
  lemma RunShows(s: State, generate: string -> SdkReply)
    ensures var reply := generate(SuggestionPrompt(s.ingredients));
      var p := Display(Run(s, generate));
      && (reply.Reply? && reply.text.Some? && ParseSuggestions(reply.text.value) != [] ==>
            p == SuggestionList(ParseSuggestions(reply.text.value)))
      && (reply.Reply? && reply.text.Some? && ParseSuggestions(reply.text.value) == [] ==>
            p == EmptyPrompt)
      && (reply == Reply(None) ==>
            p == ErrorPanel(FailurePrefix + ApiErrorPrefix + EmptyResponseDescription))
      && (reply.SdkFailure? ==>
            p == ErrorPanel(FailurePrefix + ApiErrorPrefix + reply.description))
  {
    var reply := generate(SuggestionPrompt(s.ingredients));
    if reply.SdkFailure? {
      assert FailurePrefix + (ApiErrorPrefix + reply.description)
        == FailurePrefix + ApiErrorPrefix + reply.description;
    }
    if reply == Reply(None) {
      assert FailurePrefix + (ApiErrorPrefix + EmptyResponseDescription)
        == FailurePrefix + ApiErrorPrefix + EmptyResponseDescription;
    }
  }

  /**
   A failed request keeps the earlier suggestions in the state, hidden behind
   the error panel; the next successful request replaces them and clears the
   error.
   */
  lemma FailureKeepsThenSuccessReplaces(s: State, failing: string -> SdkReply, working: string -> SdkReply)
    requires !failing(SuggestionPrompt(s.ingredients)).Reply?
      || failing(SuggestionPrompt(s.ingredients)).text.None?
    requires working(SuggestionPrompt(s.ingredients)).Reply?
    requires working(SuggestionPrompt(s.ingredients)).text.Some?
    ensures Run(s, failing).suggestions == s.suggestions
    ensures Display(Run(s, failing)).ErrorPanel?
    ensures var t := Run(Run(s, failing), working);
      && t.suggestions == ParseSuggestions(working(SuggestionPrompt(s.ingredients)).text.value)
      && t.errorMessage == None && !t.isLoading
  {
  }

  /** A fresh screen shows the empty prompt, and appearing starts the first request. */
  lemma FreshScreenRequestsOnAppear(ingredients: seq<string>)
    ensures Display(Initial(ingredients)) == EmptyPrompt
    ensures Appear(Initial(ingredients)).request == Some(ingredients)
    ensures Display(Appear(Initial(ingredients)).state) == Progress
  {
  }
}
