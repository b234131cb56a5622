/**
 The instruction screen as a state machine over `(isLoading, errorMessage,
 instructions)`. Same shape as the suggestion screen, but it starts out
 loading and requests on every appearance.
 */
module RecipeInstructionsView {
  import opened Wrappers
  import opened GeminiService

  /** The screen's two `let` inputs and its three `@State` values. */
  datatype State = State(
    mealName: string,
    ingredients: seq<string>,
    isLoading: bool,
    errorMessage: Option<string>,
    instructions: string)

  /** The declared initial values: no text yet, no error, and already loading. */
  function Initial(mealName: string, ingredients: seq<string>): (s: State)
    ensures s.isLoading && s.errorMessage.None? && s.instructions == []
    ensures s.mealName == mealName && s.ingredients == ingredients
  {
    State(mealName, ingredients, true, None, "")
  }

  const FailurePrefix := "Failed to generate instructions: "

  /** What `loadInstructions()` hands to the service. */
  datatype Request = Request(mealName: string, ingredients: seq<string>)

  datatype Step = Step(state: State, request: Option<Request>)

  /**
   The synchronous part of `loadInstructions()`: show the spinner, clear the
   error, keep the current text, and send the screen's meal and ingredients.
   */
  function Load(s: State): (t: Step)
    ensures t.state.isLoading && t.state.errorMessage == None
    ensures t.state.instructions == s.instructions
    ensures t.state.mealName == s.mealName && t.state.ingredients == s.ingredients
    ensures t.request == Some(Request(s.mealName, s.ingredients))
  {
    Step(s.(isLoading := true, errorMessage := None), Some(Request(s.mealName, s.ingredients)))
  }

  /**
   The completion: a success stores the text as received, a failure sets the
   prefixed message and leaves the earlier text alone. Either way the
   spinner stops.
   */
  function Finish(s: State, r: Result<string, GeminiError>): (t: State)
    ensures !t.isLoading && t.mealName == s.mealName && t.ingredients == s.ingredients
    ensures r.Success? ==> t.instructions == r.value && t.errorMessage == s.errorMessage
    ensures r.Failure? ==>
      t.errorMessage == Some(FailurePrefix + ErrorDescription(r.error))
      && t.instructions == s.instructions
  {
    match r
    case Success(text) => s.(instructions := text, isLoading := false)
    case Failure(e) => s.(errorMessage := Some(FailurePrefix + ErrorDescription(e)), isLoading := false)
  }

  /** One full request: load, call the service through `generate`, complete. */
  function Run(s: State, generate: string -> SdkReply): State {
    Finish(Load(s).state, GenerateInstructions(generate, s.mealName, s.ingredients))
  }

  /** The three panels the body can show. */
  datatype Panel =
    | Progress
    | ErrorPanel(message: string)
    | Content(mealName: string, ingredients: seq<string>, instructions: string)

  /** The body's `if`/`else if` chain: loading, then error, then the recipe. */
  function Display(s: State): (p: Panel)
    ensures p.Progress? <==> s.isLoading
    ensures p.ErrorPanel? <==> !s.isLoading && s.errorMessage.Some?
    ensures p.ErrorPanel? ==> p.message == s.errorMessage.value
    ensures p.Content? <==> !s.isLoading && s.errorMessage.None?
    ensures p.Content? ==> p == Content(s.mealName, s.ingredients, s.instructions)
  {
    if s.isLoading then Progress
    else if s.errorMessage.Some? then ErrorPanel(s.errorMessage.value)
    else Content(s.mealName, s.ingredients, s.instructions)
  }

  /** The error panel's "Try Again" runs `loadInstructions`. */
  function TryAgain(s: State): Step {
    Load(s)
  }

  /** `.onAppear`: load, whatever the screen already holds. */
  function Appear(s: State): Step {
    Load(s)
  }

  // ------------------------------------------------------------ properties

  /**
   Appearing always sends a request, even when instructions are already on
   screen; unlike the suggestion screen there is no emptiness test.
   */
  lemma AppearAlwaysRequests(s: State)
    ensures Appear(s).request == Some(Request(s.mealName, s.ingredients))
    ensures Display(Appear(s).state) == Progress
    ensures TryAgain(s) == Appear(s)
  {
  }

  /**
   A fresh screen already shows the spinner before any request, and its
   first appearance sends a request without changing the state at all.
   */
  lemma FreshScreenAlreadyLoading(mealName: string, ingredients: seq<string>)
    ensures Display(Initial(mealName, ingredients)) == Progress
    ensures Appear(Initial(mealName, ingredients)).state == Initial(mealName, ingredients)
    ensures Appear(Initial(mealName, ingredients)).request.Some?
  {
  }

  /**
   What the screen shows after one request, by what the SDK returned: the
   reply text exactly as sent (an empty text included) under the meal name,
   or an error panel carrying the rewrapped description.
   */
  lemma RunShows(s: State, generate: string -> SdkReply)
    ensures var reply := generate(InstructionPrompt(s.mealName, s.ingredients));
      var p := Display(Run(s, generate));
      && (reply.Reply? && reply.text.Some? ==>
            p == Content(s.mealName, s.ingredients, reply.text.value))
      && (reply == Reply(None) ==>
            p == ErrorPanel(FailurePrefix + ApiErrorPrefix + EmptyResponseDescription))
      && (reply.SdkFailure? ==>
            p == ErrorPanel(FailurePrefix + ApiErrorPrefix + reply.description))
  {
    var reply := generate(InstructionPrompt(s.mealName, s.ingredients));
    if reply.SdkFailure? {
      assert FailurePrefix + (ApiErrorPrefix + reply.description)
        == FailurePrefix + ApiErrorPrefix + reply.description;
    }
    if reply == Reply(None) {
      assert FailurePrefix + (ApiErrorPrefix + EmptyResponseDescription)
        == FailurePrefix + ApiErrorPrefix + EmptyResponseDescription;
    }
  }

  /** A failed request keeps the text of an earlier success in the state, behind the error panel. */
  lemma FailureKeepsInstructions(s: State, generate: string -> SdkReply)
    requires !generate(InstructionPrompt(s.mealName, s.ingredients)).Reply?
      || generate(InstructionPrompt(s.mealName, s.ingredients)).text.None?
    ensures Run(s, generate).instructions == s.instructions
    ensures Display(Run(s, generate)).ErrorPanel?
  {
  }
}
