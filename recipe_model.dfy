/**
 * The in-memory recipe store of the dinner app: the `Recipe` record and the
 * `RecipeViewModel` that owns the ordered list of recipes, assigns ids on
 * append and looks recipes up by id.
 */
module RecipeModel {
  import opened Wrappers

  /** Kotlin's `Int`: a 32-bit two's-complement integer. */
  newtype Int32 = x: int | -0x8000_0000 <= x <= 0x7fff_ffff

  const INT_MAX: Int32 := 0x7fff_ffff

  /** An immutable recipe record. */
  datatype Recipe = Recipe(id: Int32, title: string, ingredients: string, steps: string)

  /** The two records every freshly created store starts with. */
  function Seed(): seq<Recipe> {
    [ Recipe(0, "noodles", "Waster, Noodle", "Boiled water, add noodles"),
      Recipe(1, "cake", "Flour, Egg, Milk", "Mix and fry") ]
  }

  /** Every record's id is smaller than the id of every record after it. */
  predicate IdsIncreasing(rs: seq<Recipe>) {
    forall i, j :: 0 <= i < j < |rs| ==> rs[i].id < rs[j].id
  }

  /** The store invariant: ids are non-negative and increase in list order. */
  predicate ValidRecipes(rs: seq<Recipe>) {
    IdsIncreasing(rs) && forall k :: 0 <= k < |rs| ==> 0 <= rs[k].id
  }

  /**
   * `maxOfOrNull { it.id } ?: 0`: the largest id in the list, scanned from
   * the front, or 0 for an empty list.
   */
  function MaxIdOrZero(rs: seq<Recipe>): (m: Int32)
    ensures forall k :: 0 <= k < |rs| ==> rs[k].id <= m
    ensures rs == [] ==> m == 0
    ensures rs != [] ==> exists k :: 0 <= k < |rs| && rs[k].id == m
  {
    if rs == [] then 0
    else if |rs| == 1 then rs[0].id
    else
      var m := MaxIdOrZero(rs[..|rs| - 1]);
      assert forall k :: 0 <= k < |rs| - 1 ==> rs[..|rs| - 1][k] == rs[k];
      if m < rs[|rs| - 1].id then rs[|rs| - 1].id else m
  }

  /** The next id can be computed without overflowing a Kotlin `Int`. */
  predicate CanAdd(rs: seq<Recipe>) {
    MaxIdOrZero(rs) < INT_MAX
  }

  /** The id `addRecipe` gives the next record. */
  function NextId(rs: seq<Recipe>): (n: Int32)
    requires CanAdd(rs)
    ensures forall k :: 0 <= k < |rs| ==> rs[k].id < n
    ensures rs == [] ==> n == 1
    ensures rs != [] ==> exists k :: 0 <= k < |rs| && rs[k].id == n - 1
  {
    MaxIdOrZero(rs) + 1
  }

  /** The list after `addRecipe(title, ingredients, steps)`. */
  function Added(rs: seq<Recipe>, title: string, ingredients: string, steps: string): seq<Recipe>
    requires CanAdd(rs)
  {
    rs + [Recipe(NextId(rs), title, ingredients, steps)]
  }

  /**
   * `find { it.id == id }`: the first record carrying `id`, or `None`
   * when no record does.
   */
  function Find(rs: seq<Recipe>, id: Int32): (r: Option<Recipe>)
    ensures r.None? <==> forall k :: 0 <= k < |rs| ==> rs[k].id != id
    ensures r.Some? ==>
      exists k :: 0 <= k < |rs| && rs[k] == r.value && r.value.id == id &&
        forall j :: 0 <= j < k ==> rs[j].id != id
  {
    if rs == [] then None
    else if rs[0].id == id then Some(rs[0])
    else
      var r := Find(rs[1..], id);
      assert forall k :: 0 <= k < |rs| - 1 ==> rs[1..][k] == rs[k + 1];
      r
  }

  /** The seed list satisfies the store invariant. */
  lemma SeedValid()
    ensures |Seed()| == 2 && Seed()[0].id == 0 && Seed()[1].id == 1
    ensures ValidRecipes(Seed())
  {
  }

  /** With increasing ids, the first match is the only match. */
  lemma {:induction false} FindUnique(rs: seq<Recipe>, id: Int32)
    requires IdsIncreasing(rs)
    ensures forall r :: Find(rs, id) == Some(r) <==> (r in rs && r.id == id)
  {
    forall r ensures Find(rs, id) == Some(r) <==> (r in rs && r.id == id) {
      FindUniqueAt(rs, id, r);
    }
  }

  lemma {:induction false} FindUniqueAt(rs: seq<Recipe>, id: Int32, r: Recipe)
    requires IdsIncreasing(rs)
    ensures Find(rs, id) == Some(r) <==> (r in rs && r.id == id)
  {
    if r in rs && r.id == id {
      var m :| 0 <= m < |rs| && rs[m] == r;
      var f := Find(rs, id);
      assert f.Some?;
      var k :| 0 <= k < |rs| && rs[k] == f.value && f.value.id == id &&
        forall j :: 0 <= j < k ==> rs[j].id != id;
      assert k == m;
    }
  }

  /** Looking up in a list extended at the end: old matches win. */
  lemma {:induction false} FindAppend(rs: seq<Recipe>, x: Recipe, id: Int32)
    ensures Find(rs + [x], id) ==
      if Find(rs, id).Some? then Find(rs, id)
      else if x.id == id then Some(x)
      else None
  {
    if rs == [] {
      assert rs + [x] == [x];
    } else {
      assert (rs + [x])[1..] == rs[1..] + [x];
      if rs[0].id != id {
        FindAppend(rs[1..], x, id);
      }
    }
  }

  /** The largest id after an add is the id just assigned. */
  lemma {:induction false} MaxIdAfterAdd(rs: seq<Recipe>, title: string, ingredients: string, steps: string)
    requires CanAdd(rs)
    ensures MaxIdOrZero(Added(rs, title, ingredients, steps)) == NextId(rs)
  {
    var rs' := Added(rs, title, ingredients, steps);
    if rs != [] {
      assert rs'[..|rs'| - 1] == rs;
    }
  }

  /** Adding keeps ids non-negative and increasing. */
  lemma {:induction false} AddPreservesValid(rs: seq<Recipe>, title: string, ingredients: string, steps: string)
    requires ValidRecipes(rs) && CanAdd(rs)
    ensures ValidRecipes(Added(rs, title, ingredients, steps))
  {
    var rs' := Added(rs, title, ingredients, steps);
    if rs != [] {
      assert 0 <= rs[0].id < NextId(rs);
    }
    forall i, j | 0 <= i < j < |rs'| ensures rs'[i].id < rs'[j].id {
      if j < |rs| {
        assert rs'[i] == rs[i] && rs'[j] == rs[j];
      } else {
        assert rs'[i] == rs[i];
      }
    }
  }

  /** The record just added is what a lookup of its id yields. */
  lemma {:induction false} AddThenFind(rs: seq<Recipe>, title: string, ingredients: string, steps: string)
    requires CanAdd(rs)
    ensures Find(Added(rs, title, ingredients, steps), NextId(rs)) ==
      Some(Recipe(NextId(rs), title, ingredients, steps))
  {
    FindAppend(rs, Recipe(NextId(rs), title, ingredients, steps), NextId(rs));
  }

  /** Adding changes the lookup of no other id. */
  lemma {:induction false} AddKeepsOtherLookups(rs: seq<Recipe>, title: string, ingredients: string, steps: string, id: Int32)
    requires CanAdd(rs) && id != NextId(rs)
    ensures Find(Added(rs, title, ingredients, steps), id) == Find(rs, id)
  {
    FindAppend(rs, Recipe(NextId(rs), title, ingredients, steps), id);
  }

  /**
   * From the seed store, adding "soup" assigns id 2; id 2 then finds the
   * soup, id 5 finds nothing and id 99 finds nothing.
   */
  lemma SeedScenario()
    ensures CanAdd(Seed()) && NextId(Seed()) == 2
    ensures Find(Added(Seed(), "soup", "Water, Salt", "Boil"), 2) ==
      Some(Recipe(2, "soup", "Water, Salt", "Boil"))
    ensures Find(Added(Seed(), "soup", "Water, Salt", "Boil"), 5) == None
    ensures Find(Added(Seed(), "soup", "Water, Salt", "Boil"), 99) == None
  {
    var seed := Seed();
    assert seed[0].id == 0 && seed[1].id == 1;
    assert seed[..1] == [seed[0]];
    assert MaxIdOrZero(seed) == 1;
    var rs := Added(seed, "soup", "Water, Salt", "Boil");
    assert |rs| == 3 && rs[0].id == 0 && rs[1].id == 1 && rs[2].id == 2;
    AddThenFind(seed, "soup", "Water, Salt", "Boil");
  }

  /** `RecipeViewModel`: the single owner of the recipe list. */
  class RecipeViewModel {
    /** `_recipes`, exposed to readers as the read-only `recipes`. */
    var recipes: seq<Recipe>

    ghost predicate Valid()
      reads this
    {
      ValidRecipes(recipes)
    }

    constructor ()
      ensures recipes == Seed()
      ensures Valid()
    {
      recipes := Seed();
      SeedValid();
    }

    /** `addRecipe`: append a record whose id is one above the largest id. */
    method AddRecipe(title: string, ingredients: string, steps: string)
      requires CanAdd(recipes)
      modifies this
      ensures recipes == old(recipes) + [Recipe(NextId(old(recipes)), title, ingredients, steps)]
      ensures old(Valid()) ==> Valid()
      ensures GetRecipeById(NextId(old(recipes))) == Some(Recipe(NextId(old(recipes)), title, ingredients, steps))
      ensures forall id :: id != NextId(old(recipes)) ==> GetRecipeById(id) == Find(old(recipes), id)
    {
      ghost var before := recipes;
      var newId := MaxIdOrZero(recipes) + 1;
      assert newId == NextId(before);
      recipes := recipes + [Recipe(newId, title, ingredients, steps)];
      assert recipes == Added(before, title, ingredients, steps);
      if ValidRecipes(before) {
        AddPreservesValid(before, title, ingredients, steps);
      }
      AddThenFind(before, title, ingredients, steps);
      forall id | id != NextId(before) ensures GetRecipeById(id) == Find(before, id) {
        AddKeepsOtherLookups(before, title, ingredients, steps, id);
      }
    }

    /** `getRecipeById`: the record with this id, or `None`. */
    function GetRecipeById(id: Int32): (r: Option<Recipe>)
      reads this
      ensures r.None? <==> forall k :: 0 <= k < |recipes| ==> recipes[k].id != id
      ensures r.Some? ==> r.value in recipes && r.value.id == id
      ensures Valid() ==> forall x :: r == Some(x) <==> (x in recipes && x.id == id)
    {
      if ValidRecipes(recipes) then
        FindUnique(recipes, id);
        Find(recipes, id)
      else
        Find(recipes, id)
    }
  }
}
