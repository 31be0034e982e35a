/** Request sequences against a fresh store, each with the replies the
    handlers give. Row ids are parameters standing for the values `uuidv4()`
    returns: any canonical UUID text will do. Ids such as "X9" and "Y7" are
    deliberately not UUIDs.
 */
module Scenarios {
  import opened Schema
  import opened Uuid
  import opened Requests
  import opened UsageGuard
  import opened Api

  /** Deleting a recipe that some recipe lists is refused and changes nothing. */
  method DeleteUsedRecipe(store: Store, id: Id) returns (reply: Reply<()>)
    requires store.Valid() && InUse(store.recipes, id, true)
    modifies store
    ensures store.Valid() && reply.Status() == 400
    ensures store.baseIngredients == old(store.baseIngredients) && store.recipes == old(store.recipes)
  {
    reply := store.DeleteRecipe(id);
  }

  /** Deleting a stored recipe by a spelling of its UUID that no recipe
      lists removes it. */
  method DeleteRecipeAs(store: Store, id: Id, key: Id) returns (reply: Reply<()>)
    requires store.Valid() && Key(id) == Some(key) && key in store.recipes
    requires !InUse(store.recipes, id, true)
    modifies store
    ensures store.Valid() && reply.Status() == 204
    ensures store.baseIngredients == old(store.baseIngredients) && store.recipes == old(store.recipes) - {key}
  {
    reply := store.DeleteRecipe(id);
  }

  /** Deleting a stored recipe that no recipe lists, by its own id, removes it. */
  method DeleteStoredRecipe(store: Store, id: Id) returns (reply: Reply<()>)
    requires store.Valid() && id in store.recipes && !InUse(store.recipes, id, true)
    modifies store
    ensures store.Valid() && reply.Status() == 204
    ensures store.baseIngredients == old(store.baseIngredients) && store.recipes == old(store.recipes) - {id}
  {
    assert IsCanonical(id);
    CanonicalKey(id);
    reply := DeleteRecipeAs(store, id, id);
  }

  /** Deleting a base ingredient that some recipe lists is refused and changes nothing. */
  method DeleteUsedBase(store: Store, id: Id) returns (reply: Reply<()>)
    requires store.Valid() && InUse(store.recipes, id, false)
    modifies store
    ensures store.Valid() && reply.Status() == 400
    ensures store.baseIngredients == old(store.baseIngredients) && store.recipes == old(store.recipes)
  {
    reply := store.DeleteBaseIngredient(id);
  }

  /** Deleting an unlisted base ingredient by any spelling of its UUID removes it. */
  method DeleteStoredBase(store: Store, id: Id, key: Id) returns (reply: Reply<()>)
    requires store.Valid() && Key(id) == Some(key) && key in store.baseIngredients
    requires !InUse(store.recipes, id, false)
    modifies store
    ensures store.Valid() && reply.Status() == 204
    ensures store.baseIngredients == old(store.baseIngredients) - {key} && store.recipes == old(store.recipes)
  {
    reply := store.DeleteBaseIngredient(id);
  }

  /** Deleting an unlisted UUID that names no row gets 404 and changes nothing. */
  method DeleteMissingBase(store: Store, id: Id) returns (reply: Reply<()>)
    requires store.Valid() && Key(id) == Some(id) && id !in store.baseIngredients
    requires !InUse(store.recipes, id, false)
    modifies store
    ensures store.Valid() && reply.Status() == 404
    ensures store.baseIngredients == old(store.baseIngredients) && store.recipes == old(store.recipes)
  {
    reply := store.DeleteBaseIngredient(id);
  }

  /** Deleting an unlisted text that spells no UUID gets 500 and changes nothing. */
  method DeleteNotUuidBase(store: Store, id: Id) returns (reply: Reply<()>)
    requires store.Valid() && Key(id).None? && !InUse(store.recipes, id, false)
    modifies store
    ensures store.Valid() && reply.Status() == 500
    ensures store.baseIngredients == old(store.baseIngredients) && store.recipes == old(store.recipes)
  {
    reply := store.DeleteBaseIngredient(id);
  }

  /** An update whose parameters cannot be bound, or whose values cannot be
      coerced to their columns, gets 500 and changes nothing, whether or not
      its id names a row. */
  method UpdateRefused(store: Store, id: Id, body: BaseIngredientBody) returns (reply: Reply<BaseIngredient>)
    requires store.Valid() && BaseBodyAccepted(body)
    requires !BaseBodyBinds(body) || !BaseBodyAssignable(body) || !FitsNumeric(body.price)
    modifies store
    ensures store.Valid() && reply.Status() == 500
    ensures store.baseIngredients == old(store.baseIngredients) && store.recipes == old(store.recipes)
  {
    reply := store.UpdateBaseIngredient(id, body);
  }

  /** An update with values its columns take, of a UUID that names no row,
      gets 404 and changes nothing. */
  method UpdateMissingBase(store: Store, id: Id, body: BaseIngredientBody) returns (reply: Reply<BaseIngredient>)
    requires store.Valid() && Key(id) == Some(id) && id !in store.baseIngredients
    requires BaseBodyAccepted(body) && BaseBodyBinds(body) && BaseBodyAssignable(body) && FitsNumeric(body.price)
    modifies store
    ensures store.Valid() && reply.Status() == 404
    ensures store.baseIngredients == old(store.baseIngredients) && store.recipes == old(store.recipes)
  {
    reply := store.UpdateBaseIngredient(id, body);
  }

  /** Creating a base ingredient from a body that is accepted and can be
      written adds its row under the fresh id. */
  method AddBase(store: Store, body: BaseIngredientBody, id: Id) returns (reply: Reply<BaseIngredient>)
    requires store.Valid() && IsCanonical(id) && id !in store.baseIngredients
    requires BaseBodyAccepted(body) && BaseWritable(store.baseIngredients, id, body)
    modifies store
    ensures store.Valid() && reply == Created(BaseRow(id, body))
    ensures store.baseIngredients == old(store.baseIngredients)[id := BaseRow(id, body)]
    ensures store.recipes == old(store.recipes)
  {
    reply := store.CreateBaseIngredient(body, id);
  }

  /** Creating a base ingredient under a name already stored gets 500 and
      changes nothing. */
  method AddDuplicateBase(store: Store, body: BaseIngredientBody, id: Id) returns (reply: Reply<BaseIngredient>)
    requires store.Valid() && IsCanonical(id) && id !in store.baseIngredients && BaseBodyAccepted(body)
    requires exists k :: k in store.baseIngredients && store.baseIngredients[k].name == body.name.value
    modifies store
    ensures store.Valid() && reply.Status() == 500
    ensures store.baseIngredients == old(store.baseIngredients) && store.recipes == old(store.recipes)
  {
    reply := store.CreateBaseIngredient(body, id);
  }

  /** Creating a recipe from a body that is accepted and can be written adds
      its row under the fresh id. */
  method AddRecipe(store: Store, body: RecipeBody, id: Id) returns (reply: Reply<Recipe>)
    requires store.Valid() && IsCanonical(id) && id !in store.recipes
    requires RecipeBodyAccepted(body) && RecipeWritable(store.recipes, id, body)
    modifies store
    ensures store.Valid() && reply == Created(RecipeRow(id, body))
    ensures store.recipes == old(store.recipes)[id := RecipeRow(id, body)]
    ensures store.baseIngredients == old(store.baseIngredients)
  {
    reply := store.CreateRecipe(body, id);
  }

  /** Updating a stored recipe with a body that is accepted and can be
      written replaces the whole row. */
  method ReplaceRecipe(store: Store, id: Id, body: RecipeBody) returns (reply: Reply<Recipe>)
    requires store.Valid() && Key(id) == Some(id) && id in store.recipes
    requires RecipeBodyAccepted(body) && RecipeWritable(store.recipes, id, body)
    modifies store
    ensures store.Valid() && reply == Ok(RecipeRow(id, body))
    ensures store.recipes == old(store.recipes)[id := RecipeRow(id, body)]
    ensures store.baseIngredients == old(store.baseIngredients)
  {
    reply := store.UpdateRecipe(id, body);
  }

  function Named(name: string): (body: BaseIngredientBody) {
    BaseIngredientBody(Some(name), None, None, None)
  }

  function RecipeOf(name: string, ingredients: seq<Element>): (body: RecipeBody) {
    RecipeBody(Some(name), None, None, None, ArrayOf(ingredients))
  }

  /** A body holding only a name that fits writes the row with that name and
      NULL elsewhere, into a table where no other row holds the name. */
  lemma NamedWritable(t: map<Id, BaseIngredient>, id: Id, name: string)
    requires name != "" && FitsText(name, NameMax)
    requires forall k :: k in t && k != id ==> t[k].name != name
    ensures BaseBodyAccepted(Named(name)) && BaseWritable(t, id, Named(name))
    ensures BaseRow(id, Named(name)) == BaseIngredient(id, name, None, None, None)
  {
  }

  /** The same for a recipe body holding only a name and an ingredient list. */
  lemma RecipeOfWritable(t: map<Id, Recipe>, id: Id, name: string, elements: seq<Element>)
    requires name != "" && FitsText(name, NameMax) && |elements| > 0 && ElementsNulFree(elements)
    requires forall k :: k in t && k != id ==> t[k].name != name
    ensures RecipeBodyAccepted(RecipeOf(name, elements)) && RecipeWritable(t, id, RecipeOf(name, elements))
    ensures RecipeRow(id, RecipeOf(name, elements)) == Recipe(id, name, None, None, None, elements)
  {
  }

  function FlourRow(flour: Id): (r: BaseIngredient) {
    BaseIngredient(flour, "Flour", None, None, None)
  }

  function BreadRow(flour: Id, bread: Id): (r: Recipe) {
    Recipe(bread, "Bread", None, None, None, [Ref(flour, false, "\"quantity\": 2")])
  }

  /** What the guards report along the Flour and Bread sequence. */
  lemma FlourAndBreadGuards(flour: Id, bread: Id)
    ensures InUse(map[bread := BreadRow(flour, bread)], flour, false)
    ensures !InUse(map[bread := BreadRow(flour, bread)], bread, true)
    ensures !InUse(map[], flour, false)
  {
    assert bread in Users(map[bread := BreadRow(flour, bread)], flour, false);
    InUseIff(map[bread := BreadRow(flour, bread)], bread, true);
  }

  /** Creates Flour, then Bread, which lists Flour as a base ingredient. */
  method CreateFlourAndBread(store: Store, flour: Id, bread: Id)
    requires store.Valid() && store.baseIngredients == map[] && store.recipes == map[]
    requires IsCanonical(flour) && IsCanonical(bread)
    modifies store
    ensures store.Valid()
    ensures store.baseIngredients == map[flour := FlourRow(flour)]
    ensures store.recipes == map[bread := BreadRow(flour, bread)]
  {
    NamedWritable(map[], flour, "Flour");
    var created := AddBase(store, Named("Flour"), flour);
    CanonicalNulFree(flour);
    var elements := [Ref(flour, false, "\"quantity\": 2")];
    assert ElementsNulFree(elements);
    RecipeOfWritable(map[], bread, "Bread", elements);
    var bakery := AddRecipe(store, RecipeOf("Bread", elements), bread);
  }

  /** Flour is blocked from deletion while Bread lists it, and can be deleted
      once Bread is gone. */
  method FlourAndBread(flour: Id, bread: Id) returns (flourBlocked: Reply<()>, breadDeleted: Reply<()>, flourDeleted: Reply<()>)
    requires IsCanonical(flour) && IsCanonical(bread)
    ensures flourBlocked.Status() == 400
    ensures breadDeleted.Status() == 204
    ensures flourDeleted.Status() == 204
  {
    var store := new Store();
    CreateFlourAndBread(store, flour, bread);
    FlourAndBreadGuards(flour, bread);
    flourBlocked := DeleteUsedBase(store, flour);
    breadDeleted := DeleteStoredRecipe(store, bread);
    assert store.recipes == map[];
    CanonicalKey(flour);
    flourDeleted := DeleteStoredBase(store, flour, flour);
  }

  /** The guard compares the path text with the stored `item_id` text, but
      the DELETE selects the row by UUID value. Spelling Flour's id in braces
      gets past the guard, removes the row, and leaves Bread listing an id
      that no longer exists. */
  method RespelledIdBypassesGuard(flour: Id, bread: Id) returns (deleted: Reply<()>, bases: Reply<seq<BaseIngredient>>, recipes: Reply<seq<Recipe>>)
    requires IsCanonical(flour) && IsCanonical(bread)
    ensures deleted.Status() == 204
    ensures bases.Ok? && bases.value == []
    ensures recipes.Ok? && recipes.value == [BreadRow(flour, bread)]
  {
    var store := new Store();
    CreateFlourAndBread(store, flour, bread);
    BracedBypassGuard(flour, bread);
    deleted := DeleteStoredBase(store, "{" + flour + "}", flour);
    assert store.baseIngredients == map[];
    bases := store.ListBaseIngredients();
    recipes := store.ListRecipes();
    assert recipes.value[0] == BreadRow(flour, bread);
  }

  /** The braced spelling of Flour's id is not the text Bread stores, yet it
      selects Flour's row. */
  lemma BracedBypassGuard(flour: Id, bread: Id)
    requires IsCanonical(flour)
    ensures !InUse(map[bread := BreadRow(flour, bread)], "{" + flour + "}", false)
    ensures Key("{" + flour + "}") == Some(flour)
  {
    BracedKey(flour);
    InUseIff(map[bread := BreadRow(flour, bread)], "{" + flour + "}", false);
  }

  /** A recipe sent without an ingredient list is refused, whatever its name. */
  method RecipeWithoutIngredients(dough: Id) returns (refused: Reply<Recipe>)
    requires IsCanonical(dough)
    ensures refused.Status() == 400
  {
    var store := new Store();
    refused := store.CreateRecipe(RecipeBody(Some("Dough"), None, None, None, Missing), dough);
  }

  function DoughRow(flour: Id, dough: Id): (r: Recipe) {
    Recipe(dough, "Dough", None, None, None, [Ref(flour, false, "")])
  }

  function PizzaRow(dough: Id, pizza: Id): (r: Recipe) {
    Recipe(pizza, "Pizza", None, None, None, [Ref(dough, true, "")])
  }

  /** Creates Dough, then Pizza, which lists Dough as a recipe ingredient. */
  method CreateDoughAndPizza(store: Store, flour: Id, dough: Id, pizza: Id)
    requires store.Valid() && store.recipes == map[]
    requires IsCanonical(flour) && IsCanonical(dough) && IsCanonical(pizza) && dough != pizza
    modifies store
    ensures store.Valid()
    ensures store.recipes == map[dough := DoughRow(flour, dough), pizza := PizzaRow(dough, pizza)]
  {
    CanonicalNulFree(flour);
    CanonicalNulFree(dough);
    var elements := [Ref(flour, false, "")];
    assert ElementsNulFree(elements);
    RecipeOfWritable(map[], dough, "Dough", elements);
    var created := AddRecipe(store, RecipeOf("Dough", elements), dough);
    assert store.recipes == map[dough := DoughRow(flour, dough)];
    elements := [Ref(dough, true, "")];
    assert ElementsNulFree(elements);
    RecipeOfWritable(store.recipes, pizza, "Pizza", elements);
    created := AddRecipe(store, RecipeOf("Pizza", elements), pizza);
  }

  /** What the recipe guard reports along the Dough and Pizza sequence. */
  lemma DoughAndPizzaGuards(flour: Id, dough: Id, pizza: Id)
    requires dough != pizza
    ensures var both := map[dough := DoughRow(flour, dough), pizza := PizzaRow(dough, pizza)];
      && InUse(both, dough, true)
      && !InUse(both, pizza, true)
      && both - {pizza} == map[dough := DoughRow(flour, dough)]
      && !InUse(map[dough := DoughRow(flour, dough)], dough, true)
  {
    var both := map[dough := DoughRow(flour, dough), pizza := PizzaRow(dough, pizza)];
    assert pizza in Users(both, dough, true);
    InUseIff(both, pizza, true);
    InUseIff(map[dough := DoughRow(flour, dough)], dough, true);
  }

  /** Dough cannot be deleted while Pizza lists it as a recipe ingredient,
      and can be once Pizza is gone. */
  method DoughAndPizza(flour: Id, dough: Id, pizza: Id) returns (doughBlocked: Reply<()>, pizzaDeleted: Reply<()>, doughDeleted: Reply<()>)
    requires IsCanonical(flour) && IsCanonical(dough) && IsCanonical(pizza) && dough != pizza
    ensures doughBlocked.Status() == 400
    ensures pizzaDeleted.Status() == 204
    ensures doughDeleted.Status() == 204
  {
    var store := new Store();
    CreateDoughAndPizza(store, flour, dough, pizza);
    DoughAndPizzaGuards(flour, dough, pizza);
    doughBlocked := DeleteUsedRecipe(store, dough);
    pizzaDeleted := DeleteStoredRecipe(store, pizza);
    doughDeleted := DeleteStoredRecipe(store, dough);
  }

  /** A recipe listing the non-UUID text "X9" as a base ingredient and
      itself as a recipe ingredient. */
  function LoopRow(loop: Id): (r: Recipe) {
    Recipe(loop, "Loop", None, None, None, [Ref("X9", false, ""), Ref(loop, true, "")])
  }

  /** What the guards and the UUID parser report on a store holding only Loop. */
  lemma LoopGuards(loop: Id, missing: Id)
    requires IsCanonical(missing)
    ensures InUse(map[loop := LoopRow(loop)], "X9", false)
    ensures !InUse(map[loop := LoopRow(loop)], missing, false)
    ensures !InUse(map[loop := LoopRow(loop)], "Y7", false)
    ensures InUse(map[loop := LoopRow(loop)], loop, true)
    ensures Key("Y7").None?
  {
    var m := map[loop := LoopRow(loop)];
    assert Contains(LoopRow(loop).ingredients, "X9", false);
    assert loop in Users(m, "X9", false);
    assert Key("X9").None?;
    InUseIff(m, missing, false);
    InUseIff(m, "Y7", false);
    SelfReferenceInUse(m, loop, 1);
  }

  /** Creates Loop on an empty store. */
  method CreateLoop(store: Store, loop: Id)
    requires store.Valid() && store.baseIngredients == map[] && store.recipes == map[]
    requires IsCanonical(loop)
    modifies store
    ensures store.Valid()
    ensures store.baseIngredients == map[] && store.recipes == map[loop := LoopRow(loop)]
  {
    CanonicalNulFree(loop);
    var elements := [Ref("X9", false, ""), Ref(loop, true, "")];
    assert ElementsNulFree(elements);
    RecipeOfWritable(map[], loop, "Loop", elements);
    var created := AddRecipe(store, RecipeOf("Loop", elements), loop);
  }

  /** The guard runs before the row is looked up: an id that some recipe
      references is refused with 400 even though it names no row (and is not
      even a UUID); an unreferenced missing UUID gets 404; an unreferenced
      text that is not a UUID makes the DELETE fail with 500; and a recipe
      that lists itself cannot be deleted by the id text its list holds. */
  method GuardBeforeLookup(loop: Id, missing: Id)
    returns (danglingBlocked: Reply<()>, unreferencedMissing: Reply<()>, notUuid: Reply<()>, selfBlocked: Reply<()>)
    requires IsCanonical(loop) && IsCanonical(missing)
    ensures danglingBlocked.Status() == 400
    ensures unreferencedMissing.Status() == 404
    ensures notUuid.Status() == 500
    ensures selfBlocked.Status() == 400
  {
    var store := new Store();
    CreateLoop(store, loop);
    LoopGuards(loop, missing);
    danglingBlocked := DeleteUsedBase(store, "X9");
    CanonicalKey(missing);
    unreferencedMissing := DeleteMissingBase(store, missing);
    notUuid := DeleteNotUuidBase(store, "Y7");
    selfBlocked := DeleteUsedRecipe(store, loop);
  }

  /** The braced spelling of Loop's id is not the text Loop's list holds,
      yet it selects Loop's row. */
  lemma BracedLoopGuard(loop: Id)
    requires IsCanonical(loop)
    ensures !InUse(map[loop := LoopRow(loop)], "{" + loop + "}", true)
    ensures Key("{" + loop + "}") == Some(loop)
  {
    BracedKey(loop);
    InUseIff(map[loop := LoopRow(loop)], "{" + loop + "}", true);
  }

  /** A recipe that lists itself is refused under its own id text, but the
      braced spelling of the same UUID passes the guard and deletes it. */
  method SelfReferenceRespelled(loop: Id) returns (blocked: Reply<()>, deleted: Reply<()>, listed: Reply<seq<Recipe>>)
    requires IsCanonical(loop)
    ensures blocked.Status() == 400
    ensures deleted.Status() == 204
    ensures listed.Ok? && listed.value == []
  {
    var store := new Store();
    CreateLoop(store, loop);
    SelfReferenceInUse(map[loop := LoopRow(loop)], loop, 1);
    blocked := DeleteUsedRecipe(store, loop);
    BracedLoopGuard(loop);
    deleted := DeleteRecipeAs(store, "{" + loop + "}", loop);
    assert store.recipes == map[];
    listed := store.ListRecipes();
  }

  /** A second base ingredient with a name already in use is rejected by the
      UNIQUE constraint, which the handler reports as 500; the list still
      holds only the first. */
  method DuplicateName(salt: Id, other: Id) returns (second: Reply<BaseIngredient>, listed: Reply<seq<BaseIngredient>>)
    requires IsCanonical(salt) && IsCanonical(other) && salt != other
    ensures second.Status() == 500
    ensures listed.Ok? && |listed.value| == 1 && listed.value[0].id == salt
  {
    var store := new Store();
    NamedWritable(map[], salt, "Salt");
    var first := AddBase(store, Named("Salt"), salt);
    assert first.Created?;
    second := AddDuplicateBase(store, BaseIngredientBody(Some("Salt"), None, Some("kg"), Some(150)), other);
    listed := store.ListBaseIngredients();
    assert store.baseIngredients[salt] in listed.value;
  }

  /** `n` spaces. */
  function Spaces(n: nat): (s: string)
    ensures |s| == n && forall i :: 0 <= i < n ==> s[i] == ' '
  {
    if n == 0 then "" else " " + Spaces(n - 1)
  }

  /** "Salt" padded with spaces to 256 characters, one more than VARCHAR(255) holds. */
  const PaddedName: string := "Salt" + Spaces(252)

  /** A 256-character name whose last character is not a space. */
  const OverlongName: string := "Salt" + Spaces(250) + "xy"

  /** The over-long name can be bound, but not assigned to VARCHAR(255). */
  lemma OverlongNameBinds()
    ensures NulFree(OverlongName) && !VarcharAssignable(OverlongName, NameMax)
  {
    assert OverlongName[255] == 'y';
  }

  /** The padded name is assigned as "Salt" and 251 spaces. */
  lemma PaddedNameAssigns()
    ensures NulFree(PaddedName) && VarcharAssignable(PaddedName, NameMax)
    ensures VarcharAssign(PaddedName, NameMax) == "Salt" + Spaces(251)
  {
    var v := VarcharAssign(PaddedName, NameMax);
    assert |v| == |"Salt" + Spaces(251)|;
    assert forall i :: 0 <= i < |v| ==> v[i] == ("Salt" + Spaces(251))[i];
  }

  /** VARCHAR(255) drops trailing spaces that do not fit instead of refusing
      the value, but refuses a value whose excess holds anything else. */
  method TrailingSpaces(salt: Id, pepper: Id) returns (padded: Reply<BaseIngredient>, overlong: Reply<BaseIngredient>)
    requires IsCanonical(salt) && IsCanonical(pepper) && salt != pepper
    ensures padded.Status() == 201 && padded.Created? && padded.value.name == "Salt" + Spaces(251)
    ensures overlong.Status() == 500
  {
    var store := new Store();
    PaddedNameAssigns();
    padded := store.CreateBaseIngredient(Named(PaddedName), salt);
    assert padded.Created?;
    OverlongNameBinds();
    overlong := store.CreateBaseIngredient(Named(OverlongName), pepper);
  }

  /** Update binds its parameters and coerces the new values to their
      columns before it looks the row up: on a UUID with no row, a name
      holding U+0000, a name too long for VARCHAR(255) and an amount outside
      NUMERIC(10, 2) all get 500, and only a body the columns take gets 404. */
  method CheckedBeforeLookup(absent: Id)
    returns (nul: Reply<BaseIngredient>, long: Reply<BaseIngredient>, dear: Reply<BaseIngredient>, missing: Reply<BaseIngredient>)
    requires IsCanonical(absent)
    ensures nul.Status() == 500
    ensures long.Status() == 500
    ensures dear.Status() == 500
    ensures missing.Status() == 404
  {
    var store := new Store();
    assert '\0' in "Salt\0";
    nul := UpdateRefused(store, absent, Named("Salt\0"));
    OverlongNameBinds();
    long := UpdateRefused(store, absent, Named(OverlongName));
    dear := UpdateRefused(store, absent, BaseIngredientBody(Some("Salt"), None, None, Some(100_000_000_000)));
    CanonicalKey(absent);
    missing := UpdateMissingBase(store, absent, Named("Salt"));
  }

  function SoupBody(flour: Id, water: Id): (body: RecipeBody) {
    RecipeBody(Some("Soup"), None, Some("20 min"), None, ArrayOf([Ref(flour, false, ""), Ref(water, false, "")]))
  }

  function SoupRow(soup: Id, flour: Id, water: Id): (r: Recipe) {
    Recipe(soup, "Soup", None, Some("20 min"), None, [Ref(flour, false, ""), Ref(water, false, "")])
  }

  lemma SoupWritable(soup: Id, flour: Id, water: Id)
    requires NulFree(flour) && NulFree(water)
    ensures RecipeBodyAccepted(SoupBody(flour, water)) && RecipeWritable(map[], soup, SoupBody(flour, water))
    ensures RecipeRow(soup, SoupBody(flour, water)) == SoupRow(soup, flour, water)
  {
    assert ElementsNulFree(SoupBody(flour, water).ingredients.elements);
  }

  /** Updates Soup to a list holding only `flour`, leaving out `prep_time`. */
  method UpdateSoup(store: Store, soup: Id, flour: Id, water: Id) returns (updated: Reply<Recipe>)
    requires store.Valid() && store.recipes == map[soup := SoupRow(soup, flour, water)]
    requires Key(soup) == Some(soup) && NulFree(flour)
    modifies store
    ensures store.Valid()
    ensures store.recipes == map[soup := Recipe(soup, "Soup", None, None, None, [Ref(flour, false, "")])]
  {
    var elements := [Ref(flour, false, "")];
    assert ElementsNulFree(elements);
    RecipeOfWritable(map[soup := SoupRow(soup, flour, water)], soup, "Soup", elements);
    updated := ReplaceRecipe(store, soup, RecipeOf("Soup", elements));
  }

  /** An update replaces the ingredient list wholesale: after updating to a
      shorter list, listing returns exactly that list, and the omitted
      `prep_time` is NULL. */
  method UpdateReplacesIngredients(soup: Id, flour: Id, water: Id) returns (listed: Reply<seq<Recipe>>)
    requires IsCanonical(soup) && NulFree(flour) && NulFree(water)
    ensures listed.Ok? && |listed.value| == 1
    ensures listed.value[0].ingredients == [Ref(flour, false, "")]
    ensures listed.value[0].prepTime.None?
  {
    var store := new Store();
    SoupWritable(soup, flour, water);
    var created := AddRecipe(store, SoupBody(flour, water), soup);
    CanonicalKey(soup);
    var updated := UpdateSoup(store, soup, flour, water);
    listed := store.ListRecipes();
    assert listed.value[0] == store.recipes[soup];
  }

  /** Creating a base ingredient and deleting it again is a round trip: the
      tables end as they began, provided no recipe already references the
      fresh id. */
  method CreateThenDeleteBaseIngredient(store: Store, body: BaseIngredientBody, freshId: Id)
    returns (created: Reply<BaseIngredient>, deleted: Reply<()>)
    requires store.Valid()
    requires IsCanonical(freshId) && freshId !in store.baseIngredients
    requires BaseBodyAccepted(body) && BaseWritable(store.baseIngredients, freshId, body)
    requires !InUse(store.recipes, freshId, false)
    modifies store
    ensures store.Valid()
    ensures created.Status() == 201 && deleted.Status() == 204
    ensures store.baseIngredients == old(store.baseIngredients)
    ensures store.recipes == old(store.recipes)
  {
    created := AddBase(store, body, freshId);
    CanonicalKey(freshId);
    deleted := DeleteStoredBase(store, freshId, freshId);
    assert store.baseIngredients == old(store.baseIngredients)[freshId := BaseRow(freshId, body)] - {freshId};
  }

  /** The same round trip for a recipe, which also needs the new ingredient
      list not to reference the recipe itself. */
  method CreateThenDeleteRecipe(store: Store, body: RecipeBody, freshId: Id)
    returns (created: Reply<Recipe>, deleted: Reply<()>)
    requires store.Valid()
    requires IsCanonical(freshId) && freshId !in store.recipes
    requires RecipeBodyAccepted(body) && RecipeWritable(store.recipes, freshId, body)
    requires !InUse(store.recipes, freshId, true)
    requires !Contains(body.ingredients.elements, freshId, true)
    modifies store
    ensures store.Valid()
    ensures created.Status() == 201 && deleted.Status() == 204
    ensures store.recipes == old(store.recipes)
    ensures store.baseIngredients == old(store.baseIngredients)
  {
    created := AddRecipe(store, body, freshId);
    InUseAfterWrite(old(store.recipes), freshId, RecipeRow(freshId, body), freshId, true);
    InUseAfterRemove(old(store.recipes), freshId, freshId, true);
    deleted := DeleteStoredRecipe(store, freshId);
    assert store.recipes == old(store.recipes)[freshId := RecipeRow(freshId, body)] - {freshId};
  }
}
