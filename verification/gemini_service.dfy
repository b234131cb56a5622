/**
 The request/response pipeline around the generative-language call: the two
 prompt templates, the parser that turns the reply text into suggestions, the
 service's error type, and the catch-all that rewraps every failure.
 The SDK call itself is a parameter `generate` standing for
 `model.generateContent(prompt)`.
 */
module GeminiService {
  import opened Wrappers
  import opened Text
  import opened RecipeModels

  // ---------------------------------------------------------------- prompts

  const IngredientSeparator := ", "

  const SuggestionPromptHead := "Given these ingredients: "
  const SuggestionPromptTail :=
    ", \nsuggest 5 possible dishes or meals. \n"
    + "The dishes can use any or all of these ingredients.\n"
    + "Provide ONLY the name of each dish, one per line, "
    + "with NO numbering, explanations, or additional text."

  /** The prompt `generateMealSuggestions` sends for `ingredients`. */
  function SuggestionPrompt(ingredients: seq<string>): string {
    SuggestionPromptHead + (Join(ingredients, IngredientSeparator) + SuggestionPromptTail)
  }

  const InstructionPromptHead := "Please provide step-by-step cooking instructions for "
  const InstructionPromptMiddle := ", \nusing these ingredients if possible: "
  const InstructionPromptTail := ".\nFormat the response as a clear, numbered list of steps."

  /** `'name'`: the meal name in single quotes, as the template writes it. */
  function Quoted(name: string): string {
    "'" + name + "'"
  }

  /** The prompt `generateInstructions` sends for `meal` and `ingredients`. */
  function InstructionPrompt(meal: string, ingredients: seq<string>): string {
    InstructionPromptHead + Quoted(meal) + InstructionPromptMiddle
    + Join(ingredients, IngredientSeparator) + InstructionPromptTail
  }

  /**
   The suggestion prompt is the fixed head, then the ingredient list, then the
   fixed tail; an empty list leaves nothing between the two (the request is
   still built).
   */
  lemma SuggestionPromptFrame(ingredients: seq<string>)
    ensures var p := SuggestionPrompt(ingredients);
      && |p| == |SuggestionPromptHead| + |Join(ingredients, IngredientSeparator)| + |SuggestionPromptTail|
      && p[..|SuggestionPromptHead|] == SuggestionPromptHead
      && p[|p| - |SuggestionPromptTail|..] == SuggestionPromptTail
      && (ingredients == [] ==> p == SuggestionPromptHead + SuggestionPromptTail)
  {
  }

  /**
   Ingredient `i` sits in the suggestion prompt right after the head, at its
   offset in the `", "`-joined list, and is followed by `", "` when another
   ingredient comes next: all ingredients, in input order.
   */
  lemma SuggestionPromptListsIngredients(ingredients: seq<string>, i: nat)
    requires i < |ingredients|
    ensures var p := SuggestionPrompt(ingredients);
      var at := |SuggestionPromptHead| + Offset(ingredients, IngredientSeparator, i);
      && at + |ingredients[i]| <= |p|
      && p[at..at + |ingredients[i]|] == ingredients[i]
      && (i + 1 < |ingredients| ==>
            at + |ingredients[i]| + |IngredientSeparator| <= |p|
            && p[at + |ingredients[i]|..at + |ingredients[i]| + |IngredientSeparator|]
               == IngredientSeparator)
  {
    ListedBetween(SuggestionPromptHead, ingredients, IngredientSeparator, SuggestionPromptTail, i);
  }

  /** Where element `i` and the separator after it land in `h + (Join(xs, sep) + t)`. */
  lemma ListedBetween(h: string, xs: seq<string>, sep: string, t: string, i: nat)
    requires i < |xs|
    ensures var p := h + (Join(xs, sep) + t);
      var at := |h| + Offset(xs, sep, i);
      && at + |xs[i]| <= |p|
      && p[at..at + |xs[i]|] == xs[i]
      && (i + 1 < |xs| ==>
            at + |xs[i]| + |sep| <= |p|
            && p[at + |xs[i]|..at + |xs[i]| + |sep|] == sep)
  {
    var j := Join(xs, sep);
    var p := h + (j + t);
    var o := Offset(xs, sep, i);
    var e := o + |xs[i]|;
    assert |p| == |h| + |j| + |t|;
    assert e <= |j| && p[|h| + o..|h| + e] == xs[i] by {
      JoinPiece(xs, sep, i);
      SliceInMiddle(h, j, t, o, e);
    }
    if i + 1 < |xs| {
      assert e + |sep| <= |j| && p[|h| + e..|h| + e + |sep|] == sep by {
        JoinSeparator(xs, sep, i);
        SliceInMiddle(h, j, t, e, e + |sep|);
      }
    }
  }

  /** A slice lying inside the middle part of `h + (j + t)` is a slice of `j`. */
  lemma SliceInMiddle(h: string, j: string, t: string, x: nat, y: nat)
    requires x <= y <= |j|
    ensures (h + (j + t))[|h| + x..|h| + y] == j[x..y]
  {
    SliceAfter(h, j + t, x, y);
    SliceBefore(j, t, x, y);
  }

  /**
   The instruction prompt holds the meal name between single quotes, followed
   by the same `", "`-joined ingredient list as the suggestion prompt.
   */
  lemma InstructionPromptQuotesMeal(meal: string, ingredients: seq<string>)
    ensures var p := InstructionPrompt(meal, ingredients);
      var h := |InstructionPromptHead|;
      var j := Join(ingredients, IngredientSeparator);
      var at := h + |meal| + 2 + |InstructionPromptMiddle|;
      && at + |j| <= |p|
      && p[h] == '\''
      && p[h + 1..h + 1 + |meal|] == meal
      && p[h + 1 + |meal|] == '\''
      && p[at..at + |j|] == j
  {
    QuotedLayout(InstructionPromptHead, meal, InstructionPromptMiddle,
      Join(ingredients, IngredientSeparator), InstructionPromptTail);
  }

  /** Where the quoted name and the list land in `h + Quoted(meal) + mid + j + t`. */
  lemma QuotedLayout(h: string, meal: string, mid: string, j: string, t: string)
    ensures var p := h + Quoted(meal) + mid + j + t;
      var at := |h| + |meal| + 2 + |mid|;
      && at + |j| <= |p|
      && p[|h|] == '\''
      && p[|h| + 1..|h| + 1 + |meal|] == meal
      && p[|h| + 1 + |meal|] == '\''
      && p[at..at + |j|] == j
  {
    var q := Quoted(meal);
    var p := h + q + mid + j + t;
    assert p == h + (q + (mid + j + t));
    SliceAfter(h, q + (mid + j + t), 0, |q|);
    assert q == ("'" + meal) + "'";
    assert q[1..1 + |meal|] == meal;
    assert p == (h + q + mid) + (j + t);
    SliceAfter(h + q + mid, j + t, 0, |j|);
  }

  // ---------------------------------------------------------------- parsing

  /** `.filter { !$0.isEmpty }`: the lines that are not the empty string, in order. */
  function NonEmptyLines(lines: seq<string>): (r: seq<string>)
    ensures |r| <= |lines|
    ensures forall i :: 0 <= i < |r| ==> r[i] != []
  {
    if |lines| == 0 then []
    else (if lines[0] == [] then [] else [lines[0]]) + NonEmptyLines(lines[1..])
  }

  /**
   The filter drops exactly the empty lines and every copy of them: each
   non-empty line is kept as often as it occurs.
   */
  lemma {:induction false} NonEmptyLinesCount(lines: seq<string>)
    ensures |NonEmptyLines(lines)| == |lines| - multiset(lines)[[]]
    ensures forall x :: x != [] ==> multiset(NonEmptyLines(lines))[x] == multiset(lines)[x]
    ensures forall x :: x in NonEmptyLines(lines) <==> x in lines && x != []
  {
    if |lines| > 0 {
      assert lines == [lines[0]] + lines[1..];
      NonEmptyLinesCount(lines[1..]);
    }
  }

  /** A list with no empty line passes the filter unchanged. */
  lemma {:induction false} NonEmptyLinesKeepsAll(lines: seq<string>)
    requires forall i :: 0 <= i < |lines| ==> lines[i] != []
    ensures NonEmptyLines(lines) == lines
  {
    if |lines| > 0 {
      NonEmptyLinesKeepsAll(lines[1..]);
      assert lines == [lines[0]] + lines[1..];
    }
  }

  /** The filter keeps order: filtering a concatenation concatenates the filtered halves. */
  lemma {:induction false} NonEmptyLinesAppend(a: seq<string>, b: seq<string>)
    ensures NonEmptyLines(a + b) == NonEmptyLines(a) + NonEmptyLines(b)
  {
    if a == [] {
      assert a + b == b;
    } else {
      var head := if a[0] == [] then [] else [a[0]];
      var fa := NonEmptyLines(a[1..]);
      var fb := NonEmptyLines(b);
      assert NonEmptyLines(a + b) == head + NonEmptyLines(a[1..] + b) by {
        assert (a + b)[0] == a[0] && (a + b)[1..] == a[1..] + b;
      }
      assert NonEmptyLines(a[1..] + b) == fa + fb by {
        NonEmptyLinesAppend(a[1..], b);
      }
      assert NonEmptyLines(a) == head + fa;
      assert head + (fa + fb) == (head + fa) + fb;
    }
  }

  /**
   The reply parser: split on newline characters, drop the lines that are
   empty BEFORE trimming, then trim each survivor. A line of blanks is not
   empty, so it survives and becomes a suggestion with an empty name.
   */
  function ParseSuggestions(text: string): (r: seq<MealSuggestion>)
    ensures |r| <= CountNewlines(text) + 1
    ensures forall i :: 0 <= i < |r| ==> IsTrimmed(r[i].name, WhitespacesAndNewlines)
    ensures forall i :: 0 <= i < |r| ==> NoNewline(r[i].name)
    ensures text == [] ==> r == []
  {
    var kept := NonEmptyLines(SplitLines(text));
    KeptLinesHaveNoNewline(SplitLines(text));
    TrimmedLinesHaveNoNewline(kept);
    seq(|kept|, i requires 0 <= i < |kept| => MealSuggestion(Trim(kept[i], WhitespacesAndNewlines)))
  }

  lemma KeptLinesHaveNoNewline(lines: seq<string>)
    requires forall i :: 0 <= i < |lines| ==> NoNewline(lines[i])
    ensures forall i :: 0 <= i < |NonEmptyLines(lines)| ==> NoNewline(NonEmptyLines(lines)[i])
  {
    var kept := NonEmptyLines(lines);
    NonEmptyLinesCount(lines);
    forall i | 0 <= i < |kept| ensures NoNewline(kept[i]) {
      assert kept[i] in lines;
    }
  }

  lemma TrimmedLinesHaveNoNewline(lines: seq<string>)
    requires forall i :: 0 <= i < |lines| ==> NoNewline(lines[i])
    ensures forall i :: 0 <= i < |lines| ==> NoNewline(Trim(lines[i], WhitespacesAndNewlines))
  {
    forall i | 0 <= i < |lines| ensures NoNewline(Trim(lines[i], WhitespacesAndNewlines)) {
      var t := Trim(lines[i], WhitespacesAndNewlines);
      var a: nat :| InfixAt(t, lines[i], a);
      forall j | 0 <= j < |t| ensures !IsNewline(t[j]) {
        assert t[j] == lines[i][a + j];
      }
    }
  }

  /**
   When the reply is newline-free lines, each ended by any newline character,
   the suggestions are exactly the trims of the non-empty lines, in reply
   order: nothing is de-duplicated, nothing is cut to the five the prompt
   asks for.
   */
  lemma ParseJoinedLines(lines: seq<string>, breaks: string)
    requires |lines| == |breaks| + 1
    requires forall i :: 0 <= i < |breaks| ==> IsNewline(breaks[i])
    requires forall i :: 0 <= i < |lines| ==> NoNewline(lines[i])
    ensures var r := ParseSuggestions(JoinLines(lines, breaks));
      var kept := NonEmptyLines(lines);
      && |r| == |kept|
      && forall i :: 0 <= i < |r| ==> r[i].name == Trim(kept[i], WhitespacesAndNewlines)
  {
    SplitJoin(lines, breaks);
  }

  /** A reply of `n` copies of one dish yields `n` equal suggestions, whatever `n` is. */
  lemma ParseKeepsRepeats(dish: string, n: nat)
    requires dish != [] && NoNewline(dish) && IsTrimmed(dish, WhitespacesAndNewlines)
    ensures ParseSuggestions(Join(seq(n, _ => dish), "\n")) == seq(n, _ => MealSuggestion(dish))
  {
    var lines := seq(n, _ => dish);
    if n == 0 {
      assert Join(lines, "\n") == [];
    } else {
      var breaks := seq(n - 1, _ => '\n');
      JoinIsJoinLines(lines, '\n');
      NonEmptyLinesKeepsAll(lines);
      ParseJoinedLines(lines, breaks);
      var r := ParseSuggestions(JoinLines(lines, breaks));
      assert Trim(dish, WhitespacesAndNewlines) == dish;
      assert |r| == n;
      forall i | 0 <= i < n
        ensures r[i] == MealSuggestion(dish)
      {
        assert r[i].name == Trim(lines[i], WhitespacesAndNewlines);
      }
    }
  }

  /**
   A non-empty line of blanks becomes one suggestion whose name is empty,
   because the empty-line filter runs before the trim.
   */
  lemma BlankLineGivesEmptyName(blanks: string)
    requires blanks != [] && AllIn(blanks, Whitespaces)
    ensures ParseSuggestions(blanks) == [MealSuggestion("")]
  {
    assert NoNewline(blanks) by {
      forall j | 0 <= j < |blanks| ensures !IsNewline(blanks[j]) {
        assert InClass(blanks[j], Whitespaces);
      }
    }
    assert AllIn(blanks, WhitespacesAndNewlines) by {
      forall j | 0 <= j < |blanks| ensures InClass(blanks[j], WhitespacesAndNewlines) {
        assert InClass(blanks[j], Whitespaces);
      }
    }
    ParseJoinedLines([blanks], "");
  }

  /**
   A reply shaped like "Chicken Fried Rice\n\nGarlic Rice Bowl\n": the blank
   line and the empty piece after the final newline are dropped, the two
   dishes are kept in order.
   */
  lemma ParseSkipsEmptyLines(dish1: string, dish2: string)
    requires dish1 != [] && NoNewline(dish1) && IsTrimmed(dish1, WhitespacesAndNewlines)
    requires dish2 != [] && NoNewline(dish2) && IsTrimmed(dish2, WhitespacesAndNewlines)
    ensures ParseSuggestions(dish1 + "\n\n" + dish2 + "\n")
      == [MealSuggestion(dish1), MealSuggestion(dish2)]
  {
    var lines := [dish1, "", dish2, ""];
    var breaks := "\n\n\n";
    assert JoinLines(lines[3..], breaks[3..]) == "";
    assert JoinLines(lines[2..], breaks[2..]) == dish2 + "\n" + "";
    assert JoinLines(lines[1..], breaks[1..]) == "" + "\n" + (dish2 + "\n" + "");
    assert JoinLines(lines, breaks) == dish1 + "\n\n" + dish2 + "\n";
    ParseJoinedLines(lines, breaks);
    assert lines[3..][1..] == [];
    assert lines[2..][1..] == lines[3..];
    assert lines[1..][1..] == lines[2..];
    assert NonEmptyLines(lines[2..]) == [dish2];
    assert NonEmptyLines(lines) == [dish1, dish2];
  }

  /**
   CR LF line ends parse like LF ones: the empty piece between CR and LF is
   dropped with the other empty lines.
   */
  lemma ParseCrLfLines(dish1: string, dish2: string)
    requires dish1 != [] && NoNewline(dish1) && IsTrimmed(dish1, WhitespacesAndNewlines)
    requires dish2 != [] && NoNewline(dish2) && IsTrimmed(dish2, WhitespacesAndNewlines)
    ensures ParseSuggestions(dish1 + "\r\n" + dish2)
      == [MealSuggestion(dish1), MealSuggestion(dish2)]
  {
    var lines := [dish1, "", dish2];
    var breaks := "\r\n";
    assert JoinLines(lines[2..], breaks[2..]) == dish2;
    assert JoinLines(lines[1..], breaks[1..]) == "" + "\n" + dish2;
    assert JoinLines(lines, breaks) == dish1 + "\r\n" + dish2;
    ParseJoinedLines(lines, breaks);
    assert lines[2..][1..] == [];
    assert lines[1..][1..] == lines[2..];
    assert NonEmptyLines(lines[1..]) == [dish2];
    assert NonEmptyLines(lines) == [dish1, dish2];
  }

  // ----------------------------------------------------------------- errors

  /** `GeminiError`: the two ways the service reports failure. */
  datatype GeminiError = EmptyResponse | ApiError(message: string)

  const EmptyResponseDescription := "The AI returned an empty response"
  const ApiErrorPrefix := "API error: "

  /** `GeminiError.errorDescription`, which is also its `localizedDescription`. */
  function ErrorDescription(e: GeminiError): string {
    match e
    case EmptyResponse => EmptyResponseDescription
    case ApiError(message) => ApiErrorPrefix + message
  }

  /** Different errors never read the same: the description determines the error. */
  lemma ErrorDescriptionInjective(e1: GeminiError, e2: GeminiError)
    ensures ErrorDescription(e1) == ErrorDescription(e2) ==> e1 == e2
  {
    var d1, d2 := ErrorDescription(e1), ErrorDescription(e2);
    assert d1[0] == if e1.ApiError? then 'A' else 'T';
    assert d2[0] == if e2.ApiError? then 'A' else 'T';
    if d1 == d2 && e1.ApiError? && e2.ApiError? {
      assert e1.message == d1[|ApiErrorPrefix|..];
      assert e2.message == d2[|ApiErrorPrefix|..];
    }
  }

  /** What `generateContent` does: a reply whose text may be nil, or a thrown SDK error. */
  datatype SdkReply = Reply(text: Option<string>) | SdkFailure(description: string)

  /** An error thrown inside the service's `do` block: its own or the SDK's. */
  datatype Thrown = Raised(error: GeminiError) | SdkError(description: string)

  /** `error.localizedDescription` of a thrown error. */
  function LocalizedDescription(t: Thrown): string {
    match t
    case Raised(e) => ErrorDescription(e)
    case SdkError(d) => d
  }

  /** The `catch` clause: every thrown error leaves as `apiError(localizedDescription)`. */
  function Rethrow<T>(attempt: Result<T, Thrown>): Result<T, GeminiError> {
    match attempt
    case Success(v) => Success(v)
    case Failure(t) => Failure(ApiError(LocalizedDescription(t)))
  }

  /** The `do` block of `generateMealSuggestions`, given the SDK's reply. */
  function SuggestionAttempt(reply: SdkReply): Result<seq<MealSuggestion>, Thrown> {
    match reply
    case Reply(Some(text)) => Success(ParseSuggestions(text))
    case Reply(None) => Failure(Raised(EmptyResponse))
    case SdkFailure(d) => Failure(SdkError(d))
  }

  /** The `do` block of `generateInstructions`, given the SDK's reply. */
  function InstructionAttempt(reply: SdkReply): Result<string, Thrown> {
    match reply
    case Reply(Some(text)) => Success(text)
    case Reply(None) => Failure(Raised(EmptyResponse))
    case SdkFailure(d) => Failure(SdkError(d))
  }

  /**
   `generateMealSuggestions(ingredients:)`: any text, even "", is a success
   holding its parse; a nil text and an SDK failure both leave as `apiError`,
   so `emptyResponse` itself never reaches the caller.
   */
  function GenerateMealSuggestions(generate: string -> SdkReply, ingredients: seq<string>)
    : (r: Result<seq<MealSuggestion>, GeminiError>)
    ensures var reply := generate(SuggestionPrompt(ingredients));
      && (r.Success? <==> reply.Reply? && reply.text.Some?)
      && (r.Success? ==> r.value == ParseSuggestions(reply.text.value))
      && (reply == Reply(None) ==> r == Failure(ApiError(EmptyResponseDescription)))
      && (reply.SdkFailure? ==> r == Failure(ApiError(reply.description)))
    ensures r.Failure? ==> r.error.ApiError?
  {
    Rethrow(SuggestionAttempt(generate(SuggestionPrompt(ingredients))))
  }

  /**
   `generateInstructions(for:using:)`: the reply text, unchanged, when there is
   one; otherwise the same `apiError` rewrap as for suggestions.
   */
  function GenerateInstructions(generate: string -> SdkReply, meal: string, ingredients: seq<string>)
    : (r: Result<string, GeminiError>)
    ensures var reply := generate(InstructionPrompt(meal, ingredients));
      && (r.Success? <==> reply.Reply? && reply.text.Some?)
      && (r.Success? ==> r.value == reply.text.value)
      && (reply == Reply(None) ==> r == Failure(ApiError(EmptyResponseDescription)))
      && (reply.SdkFailure? ==> r == Failure(ApiError(reply.description)))
    ensures r.Failure? ==> r.error.ApiError?
  {
    Rethrow(InstructionAttempt(generate(InstructionPrompt(meal, ingredients))))
  }

  /** An empty reply text is an empty-list success, not an error. */
  lemma EmptyTextIsEmptySuccess(generate: string -> SdkReply, ingredients: seq<string>)
    requires generate(SuggestionPrompt(ingredients)) == Reply(Some(""))
    ensures GenerateMealSuggestions(generate, ingredients) == Success([])
  {
  }
}
