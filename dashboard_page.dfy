/** The dashboard page: the state it owns and the handlers that change it.
    Each reply from the backend is a parameter of the handler that awaits it;
    each handler is one step from the current state. */
module DashboardPage {
  import opened FoodModel
  import opened FoodLists

  class Dashboard {
    /** The foods shown, in the order they arrived. */
    var foods: seq<Food>
    /** The record the edit form was opened on; `{}` until one is chosen. */
    var editingFood: PartialFood
    /** Whether the add form is shown. */
    var modalOpen: bool
    /** Whether the edit form is shown. */
    var editModalOpen: bool

    /** The first render: no foods, nothing being edited, both forms closed. */
    constructor ()
      ensures foods == [] && editingFood == Blank
      ensures !modalOpen && !editModalOpen
    {
      foods := [];
      editingFood := Blank;
      modalOpen := false;
      editModalOpen := false;
    }

    /** `componentDidMount`: GET /foods and show exactly what came back. The
        request has no error handler, so a failed GET sets nothing. */
    method ComponentDidMount(response: Reply<seq<Food>>)
      modifies this
      ensures foods == if response.Success? then response.value else old(foods)
      ensures editingFood == old(editingFood)
      ensures modalOpen == old(modalOpen) && editModalOpen == old(editModalOpen)
    {
      if response.Success? {
        foods := response.value;
      }
    }

    /** `handleAddFood`: POST the input with `available` forced to true; on
        success append the record the server created, on failure keep the state. */
    method HandleAddFood(food: PartialFood, response: Reply<Food>) returns (body: PartialFood)
      modifies this
      ensures body.available == Some(true)
      ensures body.(available := food.available) == food
      ensures response.Success? ==> foods == Appended(old(foods), response.value)
      ensures response.Failure? ==> foods == old(foods)
      ensures editingFood == old(editingFood)
      ensures modalOpen == old(modalOpen) && editModalOpen == old(editModalOpen)
    {
      body := AddRequest(food);
      match response
      case Success(created) =>
        foods := Appended(foods, created);
      case Failure =>
    }

    /** `handleUpdateFood`: PUT the edited record, overlaid with the submitted
        keys, to the edited record's id; on success swap the returned record in
        for every entry with the returned id, on failure keep the state. */
    method HandleUpdateFood(food: PartialFood, response: Reply<Food>) returns (target: Option<int>, body: PartialFood)
      modifies this
      ensures target == old(editingFood).id
      ensures body == UpdateRequest(old(editingFood), food)
      ensures response.Success? ==> foods == ReplaceById(old(foods), response.value)
      ensures response.Failure? ==> foods == old(foods)
      ensures editingFood == old(editingFood)
      ensures modalOpen == old(modalOpen) && editModalOpen == old(editModalOpen)
    {
      target := editingFood.id;
      body := UpdateRequest(editingFood, food);
      match response
      case Success(updated) =>
        foods := ReplaceById(foods, updated);
      case Failure =>
    }

    /** `handleDeleteFood`: DELETE /foods/:id, then drop every entry with that id.
        The request has no error handler, so a rejected DELETE drops nothing. */
    method HandleDeleteFood(id: int, response: DeleteReply)
      modifies this
      ensures response.Ok? ==> foods == RemoveById(old(foods), id)
      ensures response.Rejected? ==> foods == old(foods)
      ensures editingFood == old(editingFood)
      ensures modalOpen == old(modalOpen) && editModalOpen == old(editModalOpen)
    {
      if response.Ok? {
        foods := RemoveById(foods, id);
      }
    }

    /** `toggleModal`: show or hide the add form. */
    method ToggleModal()
      modifies this
      ensures modalOpen == !old(modalOpen)
      ensures foods == old(foods) && editingFood == old(editingFood)
      ensures editModalOpen == old(editModalOpen)
    {
      modalOpen := !modalOpen;
    }

    /** `toggleEditModal`: show or hide the edit form. */
    method ToggleEditModal()
      modifies this
      ensures editModalOpen == !old(editModalOpen)
      ensures foods == old(foods) && editingFood == old(editingFood)
      ensures modalOpen == old(modalOpen)
    {
      editModalOpen := !editModalOpen;
    }

    /** `handleEditFood`: remember the chosen record and open the edit form. */
    method HandleEditFood(food: Food)
      modifies this
      ensures editingFood == Whole(food) && AsFood(editingFood) == Some(food)
      ensures editModalOpen
      ensures foods == old(foods) && modalOpen == old(modalOpen)
    {
      editingFood := Whole(food);
      editModalOpen := true;
      WholeRoundTrip(food);
    }
  }

  /** Toggling either form twice leaves the whole state as it was. */
  method ToggleTwiceRestores(d: Dashboard)
    modifies d
    ensures d.foods == old(d.foods) && d.editingFood == old(d.editingFood)
    ensures d.modalOpen == old(d.modalOpen) && d.editModalOpen == old(d.editModalOpen)
  {
    d.ToggleModal();
    d.ToggleModal();
    d.ToggleEditModal();
    d.ToggleEditModal();
  }

  /** Editing a chosen record and saving it: the PUT goes to that record's id,
      and when the server answers with a record under that id, that id sits at
      the same positions as before and every entry under it is the answer. */
  method EditThenSave(d: Dashboard, chosen: Food, submitted: PartialFood, response: Reply<Food>)
    returns (target: Option<int>, body: PartialFood)
    requires submitted.id.None?
    modifies d
    ensures target == Some(chosen.id) && body.id == target
    ensures Complete(body)
    ensures Ids(d.foods) == Ids(old(d.foods))
    ensures response.Success? && response.value.id == chosen.id ==>
              forall i :: 0 <= i < |d.foods| && old(d.foods)[i].id == chosen.id ==> d.foods[i] == response.value
    ensures d.editingFood == Whole(chosen) && d.editModalOpen
  {
    d.HandleEditFood(chosen);
    target, body := d.HandleUpdateFood(submitted, response);
    UpdateRequestOfWhole(chosen, submitted);
    if response.Success? {
      ReplaceKeepsIds(old(d.foods), response.value);
    }
  }

  /** Creating a record under a new id and then deleting that id gives back the
      list as it was. */
  method AddThenDelete(d: Dashboard, input: PartialFood, created: Food)
    requires !HasId(d.foods, created.id)
    modifies d
    ensures d.foods == old(d.foods)
    ensures d.modalOpen == old(d.modalOpen) && d.editModalOpen == old(d.editModalOpen)
    ensures d.editingFood == old(d.editingFood)
  {
    var body := d.HandleAddFood(input, Success(created));
    d.HandleDeleteFood(created.id, Ok);
    RemoveUndoesAppend(old(d.foods), created);
  }
}
