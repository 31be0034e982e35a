/** The request bodies the create and update handlers read, and the checks
    they run on them before touching the database.
 */
module Requests {
  import opened Schema

  /** `{ name, image_url, unit, price }` of a base-ingredient request; a
      member left out of the JSON body is `None` and is written as NULL. */
  datatype BaseIngredientBody = BaseIngredientBody(
    name: Option<string>,
    imageUrl: Option<string>,
    unit: Option<string>,
    price: Option<Cents>)

  /** The `ingredients` member of a recipe request as JavaScript sees it:
      absent, some value that is not an array, or an array of elements. */
  datatype IngredientsField =
    | Missing
    | NotAnArray
    | ArrayOf(elements: seq<Element>)

  /** `{ name, image_url, prep_time, unit_price, ingredients }` of a recipe request. */
  datatype RecipeBody = RecipeBody(
    name: Option<string>,
    imageUrl: Option<string>,
    prepTime: Option<string>,
    unitPrice: Option<Cents>,
    ingredients: IngredientsField)

  /** `!name` is false: the name is present and is not the empty string. */
  predicate HasName(name: Option<string>) {
    name.Some? && name.value != ""
  }

  /** The recipe handlers' check
      `!ingredients || !Array.isArray(ingredients) || ingredients.length === 0`
      is false. */
  predicate HasIngredients(f: IngredientsField) {
    f.ArrayOf? && |f.elements| > 0
  }

  /** The base-ingredient handlers continue past validation. */
  predicate BaseBodyAccepted(body: BaseIngredientBody) {
    HasName(body.name)
  }

  /** The recipe handlers continue past validation. */
  predicate RecipeBodyAccepted(body: RecipeBody) {
    HasName(body.name) && HasIngredients(body.ingredients)
  }

  /** The statement's text parameters are accepted when they are bound:
      none contains U+0000. This is checked before any row is looked at. */
  predicate BaseBodyBinds(body: BaseIngredientBody) {
    OptNulFree(body.name) && OptNulFree(body.imageUrl) && OptNulFree(body.unit)
  }

  /** The same for a recipe; the ingredient array is sent as JSON text, and
      JSONB refuses the escape for U+0000 anywhere in it. */
  predicate RecipeBodyBinds(body: RecipeBody) {
    && OptNulFree(body.name) && OptNulFree(body.imageUrl) && OptNulFree(body.prepTime)
    && (body.ingredients.ArrayOf? ==> ElementsNulFree(body.ingredients.elements))
  }

  /** Every text value of the body can be assigned to its VARCHAR column. */
  predicate BaseBodyAssignable(body: BaseIngredientBody) {
    OptAssignable(body.name, NameMax) && OptAssignable(body.imageUrl, ImageUrlMax) && OptAssignable(body.unit, UnitMax)
  }

  predicate RecipeBodyAssignable(body: RecipeBody) {
    OptAssignable(body.name, NameMax) && OptAssignable(body.imageUrl, ImageUrlMax) && OptAssignable(body.prepTime, PrepTimeMax)
  }

  /** The row a base-ingredient request writes under `id`: every column is
      taken from the body, so an omitted member becomes NULL, and each text
      value is coerced to its VARCHAR column. */
  function BaseRow(id: Id, body: BaseIngredientBody): (r: BaseIngredient)
    requires BaseBodyAccepted(body) && BaseBodyAssignable(body)
    ensures r.name != ""
    ensures BaseBodyBinds(body) && FitsNumeric(body.price) ==> BaseRowFits(r)
  {
    BaseIngredient(id, VarcharAssign(body.name.value, NameMax),
      OptAssign(body.imageUrl, ImageUrlMax), OptAssign(body.unit, UnitMax), body.price)
  }

  /** The row a recipe request writes under `id`; the ingredient array is
      stored as sent, replacing any earlier one as a whole. */
  function RecipeRow(id: Id, body: RecipeBody): (r: Recipe)
    requires RecipeBodyAccepted(body) && RecipeBodyAssignable(body)
    ensures r.name != "" && |r.ingredients| > 0
    ensures RecipeBodyBinds(body) && FitsNumeric(body.unitPrice) ==> RecipeRowFits(r)
  {
    Recipe(id, VarcharAssign(body.name.value, NameMax), OptAssign(body.imageUrl, ImageUrlMax),
      OptAssign(body.prepTime, PrepTimeMax), body.unitPrice, body.ingredients.elements)
  }

  /** The INSERT or UPDATE of the body under `id` succeeds: its parameters
      bind, its text values can be assigned, and the coerced row passes the
      write check. */
  predicate BaseWritable(t: map<Id, BaseIngredient>, id: Id, body: BaseIngredientBody)
    requires BaseBodyAccepted(body)
  {
    BaseBodyBinds(body) && BaseBodyAssignable(body) && BaseWriteAccepted(t, BaseRow(id, body))
  }

  predicate RecipeWritable(t: map<Id, Recipe>, id: Id, body: RecipeBody)
    requires RecipeBodyAccepted(body)
  {
    RecipeBodyBinds(body) && RecipeBodyAssignable(body) && RecipeWriteAccepted(t, RecipeRow(id, body))
  }
}
