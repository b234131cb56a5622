/**
 The ingredient list editor: the add action, the per-row delete action, and
 the two guards that enable the add button and the "Generate Meal Ideas" link.
 */
module IngredientsView {
  import opened Wrappers
  import opened Text

  /** The screen's `@State`: the list, the text field, and the alert. */
  datatype State = State(
    ingredients: seq<string>,
    newIngredient: string,
    showingError: bool,
    errorMessage: string)

  const Initial := State([], "", false, "")

  const DuplicateMessage := "This ingredient is already in your list"

  predicate NoDuplicates(xs: seq<string>) {
    forall i, j :: 0 <= i < j < |xs| ==> xs[i] != xs[j]
  }

  /** What the editor keeps true of its list: distinct, non-empty, trimmed entries. */
  predicate WellFormed(xs: seq<string>) {
    && NoDuplicates(xs)
    && forall i :: 0 <= i < |xs| ==> xs[i] != [] && IsTrimmed(xs[i], Whitespaces)
  }

  /** The add button's `.disabled` guard, negated: the trimmed input is not empty. */
  predicate AddEnabled(s: State) {
    Trim(s.newIngredient, Whitespaces) != []
  }

  /** The generate link's `.disabled` guard, negated: the list is not empty. */
  predicate GenerateEnabled(s: State) {
    s.ingredients != []
  }

  /**
   `addIngredient()`: trim the field with `.whitespaces`; an empty result does
   nothing; a new entry is appended and the field cleared; a duplicate raises
   the alert and keeps the field as typed.
   */
  function AddIngredient(s: State): (t: State)
    ensures var item := Trim(s.newIngredient, Whitespaces);
      && (item == [] ==> t == s)
      && (item != [] && item !in s.ingredients ==>
            t.ingredients == s.ingredients + [item] && t.newIngredient == ""
            && t.showingError == s.showingError && t.errorMessage == s.errorMessage)
      && (item != [] && item in s.ingredients ==>
            t.ingredients == s.ingredients && t.newIngredient == s.newIngredient
            && t.showingError && t.errorMessage == DuplicateMessage)
  {
    var item := Trim(s.newIngredient, Whitespaces);
    if item == [] then s
    else if item !in s.ingredients then s.(ingredients := s.ingredients + [item], newIngredient := "")
    else s.(errorMessage := DuplicateMessage, showingError := true)
  }

  /** `firstIndex(of:)`. */
  function FirstIndexOf(xs: seq<string>, x: string): (r: Option<nat>)
    ensures r.None? <==> x !in xs
    ensures r.Some? ==> r.value < |xs| && xs[r.value] == x && x !in xs[..r.value]
  {
    if |xs| == 0 then None
    else if xs[0] == x then Some(0)
    else match FirstIndexOf(xs[1..], x)
      case None => None
      case Some(i) =>
        assert xs[..i + 1] == [xs[0]] + xs[1..][..i];
        Some(i + 1)
  }

  /**
   The row's delete closure for `ingredient`: remove the entry at its first
   index; an ingredient not in the list changes nothing. The rest of the
   list keeps its order, and nothing else on the screen changes.
   */
  function DeleteIngredient(s: State, ingredient: string): (t: State)
    ensures ingredient !in s.ingredients ==> t == s
    ensures ingredient in s.ingredients ==>
      exists i :: 0 <= i < |s.ingredients| && RemovedAt(s.ingredients, t.ingredients, i, ingredient)
    ensures t.newIngredient == s.newIngredient && t.showingError == s.showingError
      && t.errorMessage == s.errorMessage
    ensures multiset(t.ingredients) == multiset(s.ingredients) - multiset{ingredient}
  {
    match FirstIndexOf(s.ingredients, ingredient)
    case None => s
    case Some(i) =>
      var xs := s.ingredients;
      assert xs == xs[..i] + [xs[i]] + xs[i + 1..];
      assert RemovedAt(xs, xs[..i] + xs[i + 1..], i, ingredient);
      s.(ingredients := xs[..i] + xs[i + 1..])
  }

  /** `ys` is `xs` without its entry at `i`, which is the first occurrence of `x`. */
  predicate RemovedAt(xs: seq<string>, ys: seq<string>, i: nat, x: string) {
    && i < |xs| && xs[i] == x && x !in xs[..i]
    && ys == xs[..i] + xs[i + 1..]
  }

  // ------------------------------------------------------------ properties

  /** Adding keeps the list distinct, non-empty and trimmed. */
  lemma AddPreservesWellFormed(s: State)
    requires WellFormed(s.ingredients)
    ensures WellFormed(AddIngredient(s).ingredients)
  {
    var item := Trim(s.newIngredient, Whitespaces);
    var ys := AddIngredient(s).ingredients;
    if item != [] && item !in s.ingredients {
      forall i, j | 0 <= i < j < |ys| ensures ys[i] != ys[j] {
        if j == |ys| - 1 {
          assert ys[i] in s.ingredients;
        }
      }
    }
  }

  /** Deleting keeps the list distinct, non-empty and trimmed. */
  lemma DeletePreservesWellFormed(s: State, ingredient: string)
    requires WellFormed(s.ingredients)
    ensures WellFormed(DeleteIngredient(s, ingredient).ingredients)
  {
    var xs := s.ingredients;
    var ys := DeleteIngredient(s, ingredient).ingredients;
    if ingredient in xs {
      var k :| 0 <= k < |xs| && RemovedAt(xs, ys, k, ingredient);
      forall i | 0 <= i < |ys| ensures ys[i] == xs[if i < k then i else i + 1] {
      }
    }
  }

  /** On a well-formed list, delete leaves no copy of the deleted ingredient behind. */
  lemma DeleteRemovesEntirely(s: State, ingredient: string)
    requires WellFormed(s.ingredients)
    ensures ingredient !in DeleteIngredient(s, ingredient).ingredients
    ensures ingredient in s.ingredients ==>
      |DeleteIngredient(s, ingredient).ingredients| == |s.ingredients| - 1
  {
    var xs := s.ingredients;
    var ys := DeleteIngredient(s, ingredient).ingredients;
    if ingredient in xs {
      var k :| 0 <= k < |xs| && RemovedAt(xs, ys, k, ingredient);
      forall i | 0 <= i < |ys| ensures ys[i] != ingredient {
        assert ys[i] == xs[if i < k then i else i + 1];
      }
    }
  }

  /** Deleting the entry just added gives back the list as it was before the add. */
  lemma DeleteUndoesAdd(s: State)
    requires AddEnabled(s) && Trim(s.newIngredient, Whitespaces) !in s.ingredients
    ensures DeleteIngredient(AddIngredient(s), Trim(s.newIngredient, Whitespaces)).ingredients
      == s.ingredients
  {
    var item := Trim(s.newIngredient, Whitespaces);
    var xs := s.ingredients + [item];
    assert FirstIndexOf(xs, item) == Some(|s.ingredients|) by {
      assert xs[..|s.ingredients|] == s.ingredients;
    }
    assert xs[..|s.ingredients|] + xs[|s.ingredients| + 1..] == s.ingredients;
  }

  /**
   Pressing add twice is the same as pressing it once: a successful add
   clears the field, and a duplicate keeps raising the same alert.
   */
  lemma AddIdempotent(s: State)
    ensures AddIngredient(AddIngredient(s)) == AddIngredient(s)
  {
    var t := AddIngredient(s);
    assert Trim("", Whitespaces) == [];
  }

  /**
   The add button is enabled exactly when the input is not all blanks. A
   disabled button would have been a no-op anyway; an enabled one grows the
   list or raises the duplicate alert, so with no alert showing it always
   changes the screen. With the alert already up, a repeated duplicate is a
   no-op although the button stays enabled.
   */
  lemma AddGuardMatchesAction(s: State)
    ensures !AddEnabled(s) <==> AllIn(s.newIngredient, Whitespaces)
    ensures !AddEnabled(s) ==> AddIngredient(s) == s
    ensures AddEnabled(s) ==>
      |AddIngredient(s).ingredients| == |s.ingredients| + 1
      || (AddIngredient(s).showingError && AddIngredient(s).errorMessage == DuplicateMessage)
    ensures AddEnabled(s) && !s.showingError ==> AddIngredient(s) != s
  {
  }

  /**
   After an add, the generate link is enabled exactly when it was before or
   the add button was: a non-blank input either joins the list or is already
   in it.
   */
  lemma GenerateGuardAfterAdd(s: State)
    ensures GenerateEnabled(AddIngredient(s)) <==> GenerateEnabled(s) || AddEnabled(s)
  {
  }

  /** Deleting disables the generate link exactly when it removes the last entry. */
  lemma GenerateGuardAfterDelete(s: State, ingredient: string)
    ensures GenerateEnabled(DeleteIngredient(s, ingredient))
      <==> GenerateEnabled(s) && s.ingredients != [ingredient]
  {
    var xs := s.ingredients;
    if ingredient in xs {
      var k :| 0 <= k < |xs| && RemovedAt(xs, DeleteIngredient(s, ingredient).ingredients, k, ingredient);
      if |xs| == 1 {
        assert xs == [ingredient];
      }
    }
  }

  /** What the user can do on this screen. */
  datatype Edit =
    | Type(text: string)      // edit the text field
    | Add                     // add button or return key
    | Delete(ingredient: string) // a row's minus button
    | DismissAlert            // the alert's OK button

  function Apply(s: State, e: Edit): State {
    match e
    case Type(text) => s.(newIngredient := text)
    case Add => AddIngredient(s)
    case Delete(x) => DeleteIngredient(s, x)
    case DismissAlert => s.(showingError := false)
  }

  function Replay(s: State, edits: seq<Edit>): State
    decreases |edits|
  {
    if |edits| == 0 then s else Replay(Apply(s, edits[0]), edits[1..])
  }

  /** Whatever the user does, starting from the empty screen, the list stays well formed. */
  lemma {:induction false} ReplayKeepsWellFormed(s: State, edits: seq<Edit>)
    requires WellFormed(s.ingredients)
    ensures WellFormed(Replay(s, edits).ingredients)
    decreases |edits|
  {
    if |edits| > 0 {
      var t := Apply(s, edits[0]);
      match edits[0] {
        case Add => AddPreservesWellFormed(s);
        case Delete(x) => DeletePreservesWellFormed(s, x);
        case _ =>
      }
      ReplayKeepsWellFormed(t, edits[1..]);
    }
  }

  lemma ReachableIsWellFormed(edits: seq<Edit>)
    ensures WellFormed(Replay(Initial, edits).ingredients)
  {
    ReplayKeepsWellFormed(Initial, edits);
  }
}
