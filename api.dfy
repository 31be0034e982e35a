/** The eight route handlers of the HTTP API over the two tables. Each handler
    is one atomic step of the store: validate the body, then run the guard
    (deletes only), then insert, overwrite or delete one row. A statement
    the database refuses (a path id that is not a UUID, a parameter holding
    U+0000, a value too long for its VARCHAR column, an amount outside
    NUMERIC(10, 2), a duplicate name) is caught by the handler's generic
    `catch` and answered with 500.
 */
module Api {
  import opened Schema
  import opened NameOrder
  import opened Requests
  import opened UsageGuard
  import opened Uuid

  /** The response of a handler, with its HTTP status given by `Status`. */
  datatype Reply<+T> =
    | Ok(value: T)
    | Created(value: T)
    | NoContent
    | BadRequest
    | NotFound
    | InternalError
  {
    function Status(): (code: nat) {
      match this
      case Ok(_) => 200
      case Created(_) => 201
      case NoContent => 204
      case BadRequest => 400
      case NotFound => 404
      case InternalError => 500
    }
  }

  function BaseIdOf(r: BaseIngredient): (id: Id) { r.id }
  function BaseNameOf(r: BaseIngredient): (name: string) { r.name }
  function RecipeIdOf(r: Recipe): (id: Id) { r.id }
  function RecipeNameOf(r: Recipe): (name: string) { r.name }

  /** The database holding the `base_ingredients` and `recipes` tables. */
  class Store {
    var baseIngredients: map<Id, BaseIngredient>
    var recipes: map<Id, Recipe>

    /** The schema constraints of both tables, and what the handlers' own
        validation adds: every stored name is non-empty and every stored
        ingredient list has at least one element. Each row is keyed by the
        canonical text of its UUID. */
    ghost predicate Valid()
      reads this
    {
      && BaseTableConstraints(baseIngredients)
      && RecipeTableConstraints(recipes)
      && (forall k :: k in baseIngredients ==> baseIngredients[k].name != "")
      && (forall k :: k in recipes ==> recipes[k].name != "" && |recipes[k].ingredients| > 0)
      && (forall k {:trigger IsCanonical(k)} :: k in baseIngredients ==> IsCanonical(k))
      && (forall k {:trigger IsCanonical(k)} :: k in recipes ==> IsCanonical(k))
    }

    /** Freshly created, empty tables. */
    constructor ()
      ensures Valid()
      ensures baseIngredients == map[] && recipes == map[]
    {
      baseIngredients := map[];
      recipes := map[];
    }

    /** GET /api/base-ingredients: every row, ordered by name ascending. */
    method ListBaseIngredients() returns (reply: Reply<seq<BaseIngredient>>)
      requires Valid()
      ensures reply.Ok?
      ensures IsSortedListing(reply.value, baseIngredients, BaseIdOf, BaseNameOf)
    {
      reply := Ok(SortedRows(baseIngredients, BaseIdOf, BaseNameOf));
    }

    /** POST /api/base-ingredients with a fresh id standing for `uuidv4()`. */
    method CreateBaseIngredient(body: BaseIngredientBody, freshId: Id) returns (reply: Reply<BaseIngredient>)
      requires Valid()
      requires IsCanonical(freshId) && freshId !in baseIngredients
      modifies this
      ensures Valid()
      ensures recipes == old(recipes)
      ensures !BaseBodyAccepted(body) ==>
        reply == BadRequest && baseIngredients == old(baseIngredients)
      ensures BaseBodyAccepted(body) && !BaseWritable(old(baseIngredients), freshId, body) ==>
        reply == InternalError && baseIngredients == old(baseIngredients)
      ensures BaseBodyAccepted(body) && BaseWritable(old(baseIngredients), freshId, body) ==>
        reply == Created(BaseRow(freshId, body)) &&
        baseIngredients == old(baseIngredients)[freshId := BaseRow(freshId, body)]
      ensures (BaseBodyAccepted(body) &&
               exists k :: k in old(baseIngredients) && old(baseIngredients)[k].name == body.name.value) ==>
        reply == InternalError
    {
      if !BaseBodyAccepted(body) {
        return BadRequest;
      }
      if !BaseBodyBinds(body) || !BaseBodyAssignable(body) {
        return InternalError;
      }
      var row := BaseRow(freshId, body);
      if !BaseWriteAccepted(baseIngredients, row) {
        return InternalError;
      }
      BaseWriteAcceptedIff(baseIngredients, row);
      baseIngredients := baseIngredients[freshId := row];
      reply := Created(row);
    }

    /** PUT /api/base-ingredients/:id: overwrites every column of the row the
        path id selects. Binding the parameters, parsing the UUID and the
        VARCHAR and NUMERIC coercions of the new values, which are folded
        while the statement is planned, all come before the row is looked
        up; only the UNIQUE check applies to the row that is found. */
    method UpdateBaseIngredient(id: Id, body: BaseIngredientBody) returns (reply: Reply<BaseIngredient>)
      requires Valid()
      modifies this
      ensures Valid()
      ensures recipes == old(recipes)
      ensures !BaseBodyAccepted(body) ==>
        reply == BadRequest && baseIngredients == old(baseIngredients)
      ensures (BaseBodyAccepted(body) &&
               (!BaseBodyBinds(body) || Key(id).None? || !BaseBodyAssignable(body) || !FitsNumeric(body.price))) ==>
        reply == InternalError && baseIngredients == old(baseIngredients)
      ensures (BaseBodyAccepted(body) && BaseBodyBinds(body) && Key(id).Some? &&
               BaseBodyAssignable(body) && FitsNumeric(body.price) &&
               Key(id).value !in old(baseIngredients)) ==>
        reply == NotFound && baseIngredients == old(baseIngredients)
      ensures (BaseBodyAccepted(body) && Key(id).Some? && Key(id).value in old(baseIngredients) &&
               !BaseWritable(old(baseIngredients), Key(id).value, body)) ==>
        reply == InternalError && baseIngredients == old(baseIngredients)
      ensures (BaseBodyAccepted(body) && Key(id).Some? && Key(id).value in old(baseIngredients) &&
               BaseWritable(old(baseIngredients), Key(id).value, body)) ==>
        reply == Ok(BaseRow(Key(id).value, body)) &&
        baseIngredients == old(baseIngredients)[Key(id).value := BaseRow(Key(id).value, body)]
      ensures (BaseBodyAccepted(body) && Key(id).Some? && Key(id).value in old(baseIngredients) &&
               exists k :: k in old(baseIngredients) && k != Key(id).value && old(baseIngredients)[k].name == body.name.value) ==>
        reply == InternalError
    {
      if !BaseBodyAccepted(body) {
        return BadRequest;
      }
      var key := Key(id);
      if !BaseBodyBinds(body) || key.None? || !BaseBodyAssignable(body) || !FitsNumeric(body.price) {
        return InternalError;
      }
      if key.value !in baseIngredients {
        return NotFound;
      }
      var row := BaseRow(key.value, body);
      if !BaseWriteAccepted(baseIngredients, row) {
        return InternalError;
      }
      BaseWriteAcceptedIff(baseIngredients, row);
      baseIngredients := baseIngredients[key.value := row];
      reply := Ok(row);
    }

    /** DELETE /api/base-ingredients/:id: refused while any recipe lists the
        path text as a base-ingredient reference, checked before the row is
        looked up by the UUID that text spells. */
    method DeleteBaseIngredient(id: Id) returns (reply: Reply<()>)
      requires Valid()
      modifies this
      ensures Valid()
      ensures recipes == old(recipes)
      ensures InUse(old(recipes), id, false) ==>
        reply == BadRequest && baseIngredients == old(baseIngredients)
      ensures !InUse(old(recipes), id, false) && Key(id).None? ==>
        reply == InternalError && baseIngredients == old(baseIngredients)
      ensures (!InUse(old(recipes), id, false) && Key(id).Some? &&
               Key(id).value !in old(baseIngredients)) ==>
        reply == NotFound && baseIngredients == old(baseIngredients)
      ensures (!InUse(old(recipes), id, false) && Key(id).Some? &&
               Key(id).value in old(baseIngredients)) ==>
        reply == NoContent && baseIngredients == old(baseIngredients) - {Key(id).value}
    {
      if UsageCount(recipes, id, false) > 0 {
        return BadRequest;
      }
      var key := Key(id);
      if key.None? {
        return InternalError;
      }
      if key.value !in baseIngredients {
        return NotFound;
      }
      BaseTableRemove(baseIngredients, key.value);
      baseIngredients := baseIngredients - {key.value};
      reply := NoContent;
    }

    /** GET /api/recipes: every row, ordered by name ascending, with each
        ingredient list as stored. */
    method ListRecipes() returns (reply: Reply<seq<Recipe>>)
      requires Valid()
      ensures reply.Ok?
      ensures IsSortedListing(reply.value, recipes, RecipeIdOf, RecipeNameOf)
    {
      reply := Ok(SortedRows(recipes, RecipeIdOf, RecipeNameOf));
    }

    /** POST /api/recipes with a fresh id standing for `uuidv4()`. */
    method CreateRecipe(body: RecipeBody, freshId: Id) returns (reply: Reply<Recipe>)
      requires Valid()
      requires IsCanonical(freshId) && freshId !in recipes
      modifies this
      ensures Valid()
      ensures baseIngredients == old(baseIngredients)
      ensures !RecipeBodyAccepted(body) ==>
        reply == BadRequest && recipes == old(recipes)
      ensures RecipeBodyAccepted(body) && !RecipeWritable(old(recipes), freshId, body) ==>
        reply == InternalError && recipes == old(recipes)
      ensures RecipeBodyAccepted(body) && RecipeWritable(old(recipes), freshId, body) ==>
        reply == Created(RecipeRow(freshId, body)) &&
        recipes == old(recipes)[freshId := RecipeRow(freshId, body)]
      ensures (RecipeBodyAccepted(body) &&
               exists k :: k in old(recipes) && old(recipes)[k].name == body.name.value) ==>
        reply == InternalError
    {
      if !RecipeBodyAccepted(body) {
        return BadRequest;
      }
      if !RecipeBodyBinds(body) || !RecipeBodyAssignable(body) {
        return InternalError;
      }
      var row := RecipeRow(freshId, body);
      if !RecipeWriteAccepted(recipes, row) {
        return InternalError;
      }
      RecipeWriteAcceptedIff(recipes, row);
      recipes := recipes[freshId := row];
      reply := Created(row);
    }

    /** PUT /api/recipes/:id: overwrites every column, the ingredient list
        included, which is replaced as a whole. As for base ingredients,
        everything but the UNIQUE check comes before the row is looked up. */
    method UpdateRecipe(id: Id, body: RecipeBody) returns (reply: Reply<Recipe>)
      requires Valid()
      modifies this
      ensures Valid()
      ensures baseIngredients == old(baseIngredients)
      ensures !RecipeBodyAccepted(body) ==>
        reply == BadRequest && recipes == old(recipes)
      ensures (RecipeBodyAccepted(body) &&
               (!RecipeBodyBinds(body) || Key(id).None? || !RecipeBodyAssignable(body) || !FitsNumeric(body.unitPrice))) ==>
        reply == InternalError && recipes == old(recipes)
      ensures (RecipeBodyAccepted(body) && RecipeBodyBinds(body) && Key(id).Some? &&
               RecipeBodyAssignable(body) && FitsNumeric(body.unitPrice) &&
               Key(id).value !in old(recipes)) ==>
        reply == NotFound && recipes == old(recipes)
      ensures (RecipeBodyAccepted(body) && Key(id).Some? && Key(id).value in old(recipes) &&
               !RecipeWritable(old(recipes), Key(id).value, body)) ==>
        reply == InternalError && recipes == old(recipes)
      ensures (RecipeBodyAccepted(body) && Key(id).Some? && Key(id).value in old(recipes) &&
               RecipeWritable(old(recipes), Key(id).value, body)) ==>
        reply == Ok(RecipeRow(Key(id).value, body)) &&
        recipes == old(recipes)[Key(id).value := RecipeRow(Key(id).value, body)]
      ensures (RecipeBodyAccepted(body) && Key(id).Some? && Key(id).value in old(recipes) &&
               exists k :: k in old(recipes) && k != Key(id).value && old(recipes)[k].name == body.name.value) ==>
        reply == InternalError
    {
      if !RecipeBodyAccepted(body) {
        return BadRequest;
      }
      var key := Key(id);
      if !RecipeBodyBinds(body) || key.None? || !RecipeBodyAssignable(body) || !FitsNumeric(body.unitPrice) {
        return InternalError;
      }
      if key.value !in recipes {
        return NotFound;
      }
      var row := RecipeRow(key.value, body);
      if !RecipeWriteAccepted(recipes, row) {
        return InternalError;
      }
      RecipeWriteAcceptedIff(recipes, row);
      recipes := recipes[key.value := row];
      reply := Ok(row);
    }

    /** DELETE /api/recipes/:id: refused while any recipe, this one included,
        lists the path text as a recipe reference, checked before the row is
        looked up by the UUID that text spells. */
    method DeleteRecipe(id: Id) returns (reply: Reply<()>)
      requires Valid()
      modifies this
      ensures Valid()
      ensures baseIngredients == old(baseIngredients)
      ensures InUse(old(recipes), id, true) ==>
        reply == BadRequest && recipes == old(recipes)
      ensures !InUse(old(recipes), id, true) && Key(id).None? ==>
        reply == InternalError && recipes == old(recipes)
      ensures (!InUse(old(recipes), id, true) && Key(id).Some? &&
               Key(id).value !in old(recipes)) ==>
        reply == NotFound && recipes == old(recipes)
      ensures (!InUse(old(recipes), id, true) && Key(id).Some? &&
               Key(id).value in old(recipes)) ==>
        reply == NoContent && recipes == old(recipes) - {Key(id).value}
    {
      if UsageCount(recipes, id, true) > 0 {
        return BadRequest;
      }
      var key := Key(id);
      if key.None? {
        return InternalError;
      }
      if key.value !in recipes {
        return NotFound;
      }
      RecipeTableRemove(recipes, key.value);
      recipes := recipes - {key.value};
      reply := NoContent;
    }
  }
}
