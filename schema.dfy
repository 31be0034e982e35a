/** The two tables created by the schema script: `base_ingredients` and
    `recipes`, their record types, and the column constraints the database
    enforces on every write (primary key, UNIQUE NOT NULL names, VARCHAR
    lengths, NUMERIC(10, 2) amounts, NOT NULL ingredients), and how a value
    is coerced when it is assigned to a VARCHAR column.
 */
module Schema {

  datatype Option<+T> = None | Some(value: T)

  /** Record identifiers as text: the canonical spelling of a UUID primary
      key, or, in a path or an ingredient element, whatever text the client sent. */
  type Id = string

  /** VARCHAR(255) for names and image URLs, VARCHAR(50) for unit and prep time. */
  const NameMax: nat := 255
  const ImageUrlMax: nat := 255
  const UnitMax: nat := 50
  const PrepTimeMax: nat := 50

  /** NUMERIC(10, 2) holds at most ten digits, two of them after the point:
      as a whole number of cents, at most ten digits in absolute value. */
  const MaxCents: int := 9_999_999_999

  /** An amount of money in cents (a NUMERIC(10, 2) value times 100). */
  type Cents = int

  /** One element of a recipe's `ingredients` JSONB array. The handlers never
      check the shape of an element: an object with a string `item_id` and a
      boolean `is_recipe` is a `Ref` (its other members, such as a quantity,
      are kept verbatim in `extra`); anything else is `Other`. */
  datatype Element =
    | Ref(itemId: Id, isRecipe: bool, extra: string)
    | Other(raw: string)

  /** A row of `base_ingredients`. */
  datatype BaseIngredient = BaseIngredient(
    id: Id,
    name: string,
    imageUrl: Option<string>,
    unit: Option<string>,
    price: Option<Cents>)

  /** A row of `recipes`; `ingredients` is NOT NULL, so it is never absent. */
  datatype Recipe = Recipe(
    id: Id,
    name: string,
    imageUrl: Option<string>,
    prepTime: Option<string>,
    unitPrice: Option<Cents>,
    ingredients: seq<Element>)

  /** PostgreSQL text, in a VARCHAR column or inside JSONB, never holds
      U+0000: a parameter containing it is refused. */
  predicate NulFree(s: string) {
    '\0' !in s
  }

  predicate OptNulFree(s: Option<string>) {
    s.None? || NulFree(s.value)
  }

  /** A VARCHAR(n) column can hold the value. */
  predicate FitsText(s: string, n: nat) {
    |s| <= n && NulFree(s)
  }

  /** A nullable VARCHAR(n) column can hold the value. */
  predicate FitsVarchar(s: Option<string>, n: nat) {
    s.None? || FitsText(s.value, n)
  }

  /** A nullable NUMERIC(10, 2) column accepts the value. */
  predicate FitsNumeric(v: Option<Cents>) {
    v.None? || -MaxCents <= v.value <= MaxCents
  }

  /** The JSONB text of an element holds no U+0000. */
  predicate ElementNulFree(e: Element) {
    match e
    case Ref(itemId, _, extra) => NulFree(itemId) && NulFree(extra)
    case Other(raw) => NulFree(raw)
  }

  predicate ElementsNulFree(es: seq<Element>) {
    forall i :: 0 <= i < |es| ==> ElementNulFree(es[i])
  }

  /** Assigning `s` to a VARCHAR(n) column succeeds when `s` fits, and also
      when every character past the n-th is a space. */
  predicate VarcharAssignable(s: string, n: nat) {
    forall i :: n <= i < |s| ==> s[i] == ' '
  }

  /** The value a VARCHAR(n) column holds after `s` is assigned to it: the
      trailing spaces that do not fit are dropped silently. */
  function VarcharAssign(s: string, n: nat): (v: string)
    requires VarcharAssignable(s, n)
    ensures |v| == if |s| <= n then |s| else n
    ensures v <= s && forall i :: |v| <= i < |s| ==> s[i] == ' '
    ensures |s| <= n ==> v == s
    ensures NulFree(s) ==> NulFree(v)
  {
    if |s| <= n then s
    else
      assert s == s[..n] + s[n..];
      s[..n]
  }

  predicate OptAssignable(s: Option<string>, n: nat) {
    s.None? || VarcharAssignable(s.value, n)
  }

  /** A nullable column stores NULL as NULL. */
  function OptAssign(s: Option<string>, n: nat): (v: Option<string>)
    requires OptAssignable(s, n)
    ensures v.None? <==> s.None?
    ensures s.Some? ==> v.value <= s.value && |v.value| == if |s.value| <= n then |s.value| else n
    ensures FitsVarchar(v, n) <==> OptNulFree(s)
  {
    match s
    case None => None
    case Some(t) => Some(VarcharAssign(t, n))
  }

  /** The per-column checks of `base_ingredients`. */
  predicate BaseRowFits(r: BaseIngredient) {
    && FitsText(r.name, NameMax)
    && FitsVarchar(r.imageUrl, ImageUrlMax)
    && FitsVarchar(r.unit, UnitMax)
    && FitsNumeric(r.price)
  }

  /** The per-column checks of `recipes`. */
  predicate RecipeRowFits(r: Recipe) {
    && FitsText(r.name, NameMax)
    && FitsVarchar(r.imageUrl, ImageUrlMax)
    && FitsVarchar(r.prepTime, PrepTimeMax)
    && FitsNumeric(r.unitPrice)
    && ElementsNulFree(r.ingredients)
  }

  /** The database accepts writing `r` under its own id into `t`: every column
      fits and no OTHER row already carries the same name (UNIQUE). */
  predicate BaseWriteAccepted(t: map<Id, BaseIngredient>, r: BaseIngredient) {
    && BaseRowFits(r)
    && forall k :: k in t && k != r.id ==> t[k].name != r.name
  }

  predicate RecipeWriteAccepted(t: map<Id, Recipe>, r: Recipe) {
    && RecipeRowFits(r)
    && forall k :: k in t && k != r.id ==> t[k].name != r.name
  }

  /** Everything the schema enforces on `base_ingredients`: the key of each
      row is its `id` (PRIMARY KEY), every row fits its columns, and names are
      unique. */
  ghost predicate BaseTableConstraints(t: map<Id, BaseIngredient>) {
    && (forall k :: k in t ==> t[k].id == k && BaseRowFits(t[k]))
    && (forall j, k :: j in t && k in t && t[j].name == t[k].name ==> j == k)
  }

  ghost predicate RecipeTableConstraints(t: map<Id, Recipe>) {
    && (forall k :: k in t ==> t[k].id == k && RecipeRowFits(t[k]))
    && (forall j, k :: j in t && k in t && t[j].name == t[k].name ==> j == k)
  }

  /** Deleting a row keeps the constraints of the other rows. */
  lemma BaseTableRemove(t: map<Id, BaseIngredient>, k: Id)
    requires BaseTableConstraints(t)
    ensures BaseTableConstraints(t - {k})
  {
  }

  lemma RecipeTableRemove(t: map<Id, Recipe>, k: Id)
    requires RecipeTableConstraints(t)
    ensures RecipeTableConstraints(t - {k})
  {
  }

  /** The database's write check is exact: on a table that meets the schema,
      a write of `r` under its id is accepted if and only if the table still
      meets the schema afterwards. */
  lemma BaseWriteAcceptedIff(t: map<Id, BaseIngredient>, r: BaseIngredient)
    requires BaseTableConstraints(t)
    ensures BaseWriteAccepted(t, r) <==> BaseTableConstraints(t[r.id := r])
  {
    var t' := t[r.id := r];
    if BaseTableConstraints(t') {
      assert r.id in t' && t'[r.id] == r;
      forall k | k in t && k != r.id
        ensures t[k].name != r.name
      {
        assert k in t' && t'[k] == t[k];
      }
    }
  }

  lemma RecipeWriteAcceptedIff(t: map<Id, Recipe>, r: Recipe)
    requires RecipeTableConstraints(t)
    ensures RecipeWriteAccepted(t, r) <==> RecipeTableConstraints(t[r.id := r])
  {
    var t' := t[r.id := r];
    if RecipeTableConstraints(t') {
      assert r.id in t' && t'[r.id] == r;
      forall k | k in t && k != r.id
        ensures t[k].name != r.name
      {
        assert k in t' && t'[k] == t[k];
      }
    }
  }
}
