/** The food record the dashboard keeps, and the partial records (JavaScript
    object literals over the same keys) that it sends to the backend. */
module FoodModel {

  /** The price as the backend stores it. The dashboard never computes with
      it, only copies it, so the model keeps it abstract. */
  type Price(==, !new)

  datatype Option<T> = None | Some(value: T)

  /** The outcome of a request that answers with a value. */
  datatype Reply<T> = Success(value: T) | Failure

  /** The outcome of a DELETE request, which answers with no value. */
  datatype DeleteReply = Ok | Rejected

  /** A food record as the server returns it: every key present. */
  datatype Food = Food(
    id: int,
    name: string,
    image: string,
    price: Price,
    description: string,
    available: bool)

  /** An object over the keys of Food in which any key may be absent. */
  datatype PartialFood = PartialFood(
    id: Option<int>,
    name: Option<string>,
    image: Option<string>,
    price: Option<Price>,
    description: Option<string>,
    available: Option<bool>)

  /** The empty object `{}`. */
  const Blank: PartialFood := PartialFood(None, None, None, None, None, None)

  /** True when every key is present. */
  predicate Complete(p: PartialFood) {
    p.id.Some? && p.name.Some? && p.image.Some? && p.price.Some? && p.description.Some? && p.available.Some?
  }

  /** A whole record seen as an object literal. */
  function Whole(f: Food): (p: PartialFood)
    ensures Complete(p)
  {
    PartialFood(Some(f.id), Some(f.name), Some(f.image), Some(f.price), Some(f.description), Some(f.available))
  }

  /** Back from an object literal to a record, when no key is missing. */
  function AsFood(p: PartialFood): (r: Option<Food>)
    ensures r.Some? <==> Complete(p)
  {
    if Complete(p) then
      Some(Food(p.id.value, p.name.value, p.image.value, p.price.value, p.description.value, p.available.value))
    else
      None
  }

  lemma WholeRoundTrip(f: Food)
    ensures AsFood(Whole(f)) == Some(f)
  {
  }

  /** One key of the spread `{...base, ...top}`: the later object wins when it has the key. */
  function Pick<T>(base: Option<T>, top: Option<T>): Option<T>
  {
    match top
    case Some(_) => top
    case None => base
  }

  /** The object spread `{...base, ...top}`. */
  function Overlay(base: PartialFood, top: PartialFood): (r: PartialFood)
    ensures Complete(top) ==> r == top
    ensures Complete(base) ==> Complete(r)
  {
    PartialFood(
      Pick(base.id, top.id),
      Pick(base.name, top.name),
      Pick(base.image, top.image),
      Pick(base.price, top.price),
      Pick(base.description, top.description),
      Pick(base.available, top.available))
  }

  /** Spreading into or from `{}` changes nothing. */
  lemma OverlayBlank(p: PartialFood)
    ensures Overlay(Blank, p) == p && Overlay(p, Blank) == p
  {
  }

  /** The object `{ available: true }`. */
  const AvailableOnly: PartialFood := Blank.(available := Some(true))

  /** The body of the POST that creates a food: `{ ...food, available: true }`. */
  function AddRequest(input: PartialFood): (body: PartialFood)
    ensures body.available == Some(true)
    ensures body.(available := input.available) == input
  {
    Overlay(input, AvailableOnly)
  }

  /** The body of the PUT that updates the food being edited: `{ ...editingFood, ...food }`.
      Every key the form submitted wins; every other key keeps the stored value. */
  function UpdateRequest(editing: PartialFood, submitted: PartialFood): (body: PartialFood)
    ensures submitted.id.Some? ==> body.id == submitted.id
    ensures submitted.id.None? ==> body.id == editing.id
    ensures submitted.name.Some? ==> body.name == submitted.name
    ensures submitted.name.None? ==> body.name == editing.name
    ensures submitted.image.Some? ==> body.image == submitted.image
    ensures submitted.image.None? ==> body.image == editing.image
    ensures submitted.price.Some? ==> body.price == submitted.price
    ensures submitted.price.None? ==> body.price == editing.price
    ensures submitted.description.Some? ==> body.description == submitted.description
    ensures submitted.description.None? ==> body.description == editing.description
    ensures submitted.available.Some? ==> body.available == submitted.available
    ensures submitted.available.None? ==> body.available == editing.available
  {
    Overlay(editing, submitted)
  }

  /** Editing a stored record yields a whole record again: the stored record
      with the submitted keys replaced, and the stored id when none was submitted. */
  lemma UpdateRequestOfWhole(f: Food, submitted: PartialFood)
    requires submitted.id.None?
    ensures Complete(UpdateRequest(Whole(f), submitted))
    ensures AsFood(UpdateRequest(Whole(f), submitted)).value.id == f.id
  {
  }
}
