/**
 * The "Save Recipe" button of the add-recipe screen: a submission reaches
 * the store only when its title is not blank, and only then does the app
 * navigate back to Home.
 */
module AddRecipeScreen {
  import opened Wrappers
  import opened RecipeModel

  /**
   * Kotlin's `Char.isWhitespace()` on the JVM: `Character.isWhitespace` or
   * `Character.isSpaceChar`, that is the tab-to-carriage-return controls,
   * the four information separators and every Unicode space, line and
   * paragraph separator.
   */
  predicate IsWhitespace(c: char) {
    ('\t' <= c <= '\r') || ('\U{1C}' <= c <= '\U{1F}') || c == ' ' ||
    c == '\U{A0}' || c == '\U{1680}' || ('\U{2000}' <= c <= '\U{200A}') ||
    c == '\U{2028}' || c == '\U{2029}' || c == '\U{202F}' || c == '\U{205F}' ||
    c == '\U{3000}'
  }

  /** `isNotBlank`: the text holds some character that is not whitespace. */
  function IsNotBlank(s: string): (b: bool)
    ensures b <==> exists k :: 0 <= k < |s| && !IsWhitespace(s[k])
  {
    if s == [] then false
    else if !IsWhitespace(s[0]) then true
    else
      var b := IsNotBlank(s[1..]);
      assert forall k :: 0 <= k < |s| - 1 ==> s[1..][k] == s[k + 1];
      b
  }

  /** The three text fields of the add form. */
  datatype Form = Form(title: string, ingredients: string, steps: string)

  /** A submission can be saved without overflowing the next id. */
  predicate CanSubmit(rs: seq<Recipe>, f: Form) {
    IsNotBlank(f.title) ==> CanAdd(rs)
  }

  /** The recipe list after pressing "Save Recipe" on form `f`. */
  function Submitted(rs: seq<Recipe>, f: Form): seq<Recipe>
    requires CanSubmit(rs, f)
  {
    if IsNotBlank(f.title) then Added(rs, f.title, f.ingredients, f.steps) else rs
  }

  /** Pressing "Save Recipe": returns whether the app navigated to Home. */
  method SubmitAdd(vm: RecipeViewModel, title: string, ingredients: string, steps: string)
    returns (navigatedHome: bool)
    requires IsNotBlank(title) ==> CanAdd(vm.recipes)
    modifies vm
    ensures navigatedHome <==> exists k :: 0 <= k < |title| && !IsWhitespace(title[k])
    ensures !navigatedHome ==> vm.recipes == old(vm.recipes)
    ensures navigatedHome ==>
      vm.recipes == old(vm.recipes) + [Recipe(NextId(old(vm.recipes)), title, ingredients, steps)]
    ensures vm.recipes == Submitted(old(vm.recipes), Form(title, ingredients, steps))
    ensures old(vm.Valid()) ==> vm.Valid()
  {
    navigatedHome := false;
    if IsNotBlank(title) {
      vm.AddRecipe(title, ingredients, steps);
      navigatedHome := true;
    }
  }

  /** How many forms in `fs` have a non-blank title. */
  function SavedCount(fs: seq<Form>): (n: nat)
    ensures n == 0 <==> forall k :: 0 <= k < |fs| ==> !IsNotBlank(fs[k].title)
  {
    if fs == [] then 0
    else
      var n := SavedCount(fs[1..]);
      assert forall k :: 0 <= k < |fs| - 1 ==> fs[1..][k] == fs[k + 1];
      (if IsNotBlank(fs[0].title) then 1 else 0) + n
  }

  /** The recipe list after pressing "Save Recipe" on each form of `fs` in turn. */
  function SubmittedAll(rs: seq<Recipe>, fs: seq<Form>): seq<Recipe>
    requires MaxIdOrZero(rs) as int + SavedCount(fs) <= INT_MAX as int
    decreases |fs|
  {
    if fs == [] then rs
    else
      var rs' := Submitted(rs, fs[0]);
      MaxIdAfterSubmit(rs, fs[0]);
      SubmittedAll(rs', fs[1..])
  }

  /** A save raises the largest id by one; a blank press leaves it alone. */
  lemma {:induction false} MaxIdAfterSubmit(rs: seq<Recipe>, f: Form)
    requires CanSubmit(rs, f)
    ensures MaxIdOrZero(Submitted(rs, f)) as int ==
      MaxIdOrZero(rs) as int + (if IsNotBlank(f.title) then 1 else 0)
  {
    if IsNotBlank(f.title) {
      MaxIdAfterAdd(rs, f.title, f.ingredients, f.steps);
    }
  }

  /**
   * Any run of submissions keeps the store invariant, keeps every earlier
   * record in place, grows the list by exactly the non-blank submissions,
   * and leaves the lookup of every id that was already present unchanged.
   */
  lemma {:induction false} SubmittedAllKeepsStore(rs: seq<Recipe>, fs: seq<Form>)
    requires ValidRecipes(rs)
    requires MaxIdOrZero(rs) as int + SavedCount(fs) <= INT_MAX as int
    ensures ValidRecipes(SubmittedAll(rs, fs))
    ensures |SubmittedAll(rs, fs)| == |rs| + SavedCount(fs)
    ensures SubmittedAll(rs, fs)[..|rs|] == rs
    ensures forall id :: Find(rs, id).Some? ==> Find(SubmittedAll(rs, fs), id) == Find(rs, id)
    decreases |fs|
  {
    if fs != [] {
      var f := fs[0];
      var rs' := Submitted(rs, f);
      MaxIdAfterSubmit(rs, f);
      if IsNotBlank(f.title) {
        AddPreservesValid(rs, f.title, f.ingredients, f.steps);
        forall id | Find(rs, id).Some? ensures Find(rs', id) == Find(rs, id) {
          FindAppend(rs, Recipe(NextId(rs), f.title, f.ingredients, f.steps), id);
        }
      }
      SubmittedAllKeepsStore(rs', fs[1..]);
      var all := SubmittedAll(rs, fs);
      assert all == SubmittedAll(rs', fs[1..]);
      assert all[..|rs|] == all[..|rs'|][..|rs|];
    }
  }

  /** A blank title never reaches the store, however often it is submitted. */
  lemma {:induction false} BlankSubmissionsAreNoOps(rs: seq<Recipe>, fs: seq<Form>)
    requires forall k :: 0 <= k < |fs| ==> !IsNotBlank(fs[k].title)
    ensures SavedCount(fs) == 0 && SubmittedAll(rs, fs) == rs
    decreases |fs|
  {
    if fs != [] {
      BlankSubmissionsAreNoOps(rs, fs[1..]);
    }
  }
}
