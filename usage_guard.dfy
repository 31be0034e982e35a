/** The usage guard run before each delete:
    `SELECT COUNT(*) FROM recipes WHERE ingredients @> '[{"item_id": id, "is_recipe": flag}]'`
    followed by a test that the count is positive. JSONB containment of a
    one-element array pattern holds when some element of the stored array
    is an object whose `item_id` is `id` and whose `is_recipe` is `flag`;
    the element's other members do not matter.
 */
module UsageGuard {
  import opened Schema

  /** One stored element matches the pattern `{"item_id": id, "is_recipe": flag}`. */
  predicate Matches(e: Element, id: Id, flag: bool) {
    e.Ref? && e.itemId == id && e.isRecipe == flag
  }

  /** `ingredients @> pattern`, scanning the stored array from the front. */
  predicate Contains(ingredients: seq<Element>, id: Id, flag: bool)
    decreases |ingredients|
  {
    |ingredients| > 0 && (Matches(ingredients[0], id, flag) || Contains(ingredients[1..], id, flag))
  }

  /** Containment holds exactly when some position of the array matches. */
  lemma {:induction false} ContainsIff(ingredients: seq<Element>, id: Id, flag: bool)
    ensures Contains(ingredients, id, flag) <==> exists i :: 0 <= i < |ingredients| && Matches(ingredients[i], id, flag)
    decreases |ingredients|
  {
    if |ingredients| > 0 {
      ContainsIff(ingredients[1..], id, flag);
      if Contains(ingredients[1..], id, flag) {
        var i :| 0 <= i < |ingredients[1..]| && Matches(ingredients[1..][i], id, flag);
        assert ingredients[i + 1] == ingredients[1..][i];
      }
      if exists i :: 0 <= i < |ingredients| && Matches(ingredients[i], id, flag) {
        var i :| 0 <= i < |ingredients| && Matches(ingredients[i], id, flag);
        if i > 0 {
          assert ingredients[1..][i - 1] == ingredients[i];
        }
      }
    }
  }

  /** The ids of the recipes whose ingredient list contains the pattern. */
  function Users(recipes: map<Id, Recipe>, id: Id, flag: bool): (ks: set<Id>)
  {
    set k | k in recipes && Contains(recipes[k].ingredients, id, flag)
  }

  /** The `count` the guard query returns. */
  function UsageCount(recipes: map<Id, Recipe>, id: Id, flag: bool): (n: nat) {
    |Users(recipes, id, flag)|
  }

  /** `parseInt(checkUsage.rows[0].count) > 0`. */
  predicate InUse(recipes: map<Id, Recipe>, id: Id, flag: bool) {
    UsageCount(recipes, id, flag) > 0
  }

  /** The guard fires exactly when some recipe lists a matching element. */
  lemma InUseIff(recipes: map<Id, Recipe>, id: Id, flag: bool)
    ensures InUse(recipes, id, flag) <==>
      exists k, i :: k in recipes && 0 <= i < |recipes[k].ingredients| && Matches(recipes[k].ingredients[i], id, flag)
  {
    var users := Users(recipes, id, flag);
    if InUse(recipes, id, flag) {
      var k :| k in users;
      ContainsIff(recipes[k].ingredients, id, flag);
    }
    if exists k, i :: k in recipes && 0 <= i < |recipes[k].ingredients| && Matches(recipes[k].ingredients[i], id, flag) {
      var k, i :| k in recipes && 0 <= i < |recipes[k].ingredients| && Matches(recipes[k].ingredients[i], id, flag);
      ContainsIff(recipes[k].ingredients, id, flag);
      assert k in users;
    }
  }

  /** The scan covers the recipe being deleted too: a recipe that lists
      itself as a recipe ingredient is reported as in use whenever the path
      text is the text its list holds. */
  lemma SelfReferenceInUse(recipes: map<Id, Recipe>, id: Id, i: nat)
    requires id in recipes && i < |recipes[id].ingredients|
    requires Matches(recipes[id].ingredients[i], id, true)
    ensures InUse(recipes, id, true)
  {
    InUseIff(recipes, id, true);
  }

  /** Writing `row` under key `k` (an insert or a whole-row overwrite)
      makes the guard fire for exactly the references the other recipes or
      the new ingredient list hold. */
  lemma InUseAfterWrite(recipes: map<Id, Recipe>, k: Id, row: Recipe, id: Id, flag: bool)
    ensures InUse(recipes[k := row], id, flag) <==>
      InUse(recipes - {k}, id, flag) || Contains(row.ingredients, id, flag)
  {
    var after := recipes[k := row];
    var others := recipes - {k};
    if InUse(after, id, flag) {
      var j :| j in Users(after, id, flag);
      if j != k {
        assert j in Users(others, id, flag);
      }
    }
    if InUse(others, id, flag) {
      var j :| j in Users(others, id, flag);
      assert j in Users(after, id, flag);
    }
    if Contains(row.ingredients, id, flag) {
      assert k in Users(after, id, flag);
    }
  }

  /** Removing a recipe can only make the guard fire less often. */
  lemma InUseAfterRemove(recipes: map<Id, Recipe>, k: Id, id: Id, flag: bool)
    ensures InUse(recipes - {k}, id, flag) ==> InUse(recipes, id, flag)
    ensures k !in recipes ==> (InUse(recipes - {k}, id, flag) <==> InUse(recipes, id, flag))
  {
    if k !in recipes {
      assert recipes - {k} == recipes;
    }
    if InUse(recipes - {k}, id, flag) {
      var j :| j in Users(recipes - {k}, id, flag);
      assert j in Users(recipes, id, flag);
    }
  }
}
