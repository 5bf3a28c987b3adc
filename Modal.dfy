/** The modal hook of the front end (frontend/src/hooks/useModal.jsx): whether the modal is open,
    the data shown in it, and the page's `document.body.style.overflow`, which is `hidden` while
    a modal is open so that the page behind it does not scroll. The 300 ms timer that
    `closeModal` starts is modelled as a pending event that fires later, in any order with the
    other handlers. */
module Modal {
  import opened Wrappers
  import opened Js

  /** The body's overflow style: untouched by the hook, `hidden` or `auto`. */
  datatype Overflow = Unset | Hidden | Auto

  class ModalState {
    var isOpen: bool
    /** `modalData`: `null` or an object. */
    var modalData: Option<Obj>
    var overflow: Overflow
    /** The data-clearing timers started by `closeModal` that have not fired yet. */
    var pendingClears: nat

    /** Once the hook has set the overflow style, the style agrees with the open state. */
    predicate Valid()
      reads this
    {
      overflow == Unset || (overflow == Hidden <==> isOpen)
    }

    constructor (initialIsOpen: bool := false)
      ensures Valid()
      ensures isOpen == initialIsOpen && modalData == None && overflow == Unset && pendingClears == 0
    {
      isOpen := initialIsOpen;
      modalData := None;
      overflow := Unset;
      pendingClears := 0;
    }

    /** `openModal(data)`. */
    method OpenModal(data: Option<Obj> := None)
      modifies this
      ensures Valid()
      ensures isOpen && modalData == data && overflow == Hidden
      ensures pendingClears == old(pendingClears)
    {
      modalData := data;
      isOpen := true;
      overflow := Hidden;
    }

    /** `closeModal(clearData)`: the modal closes at once; the data is cleared by a timer, and
        only when `clearData` is set. */
    method CloseModal(clearData: bool := true)
      modifies this
      ensures Valid()
      ensures !isOpen && overflow == Auto && modalData == old(modalData)
      ensures pendingClears == old(pendingClears) + (if clearData then 1 else 0)
    {
      isOpen := false;
      overflow := Auto;
      if clearData {
        pendingClears := pendingClears + 1;
      }
    }

    /** One of the timers started by `closeModal(true)` fires. It clears the data whatever
        happened since, also when the modal has been opened again in the meantime. */
    method ClearTimerFires()
      requires Valid() && pendingClears > 0
      modifies this
      ensures Valid()
      ensures modalData == None && pendingClears == old(pendingClears) - 1
      ensures isOpen == old(isOpen) && overflow == old(overflow)
    {
      modalData := None;
      pendingClears := pendingClears - 1;
    }

    /** `toggleModal()`: the open state flips and the overflow style follows the new state. */
    method ToggleModal()
      modifies this
      ensures Valid()
      ensures isOpen == !old(isOpen)
      ensures overflow == if isOpen then Hidden else Auto
      ensures modalData == old(modalData) && pendingClears == old(pendingClears)
    {
      isOpen := !isOpen;
      overflow := if isOpen then Hidden else Auto;
    }

    /** `updateModalData(data)`: the new properties are merged over the current ones; `null`
        spreads as an empty object. */
    method UpdateModalData(data: Obj)
      requires Valid()
      modifies this
      ensures Valid()
      ensures modalData == Some(Spread(old(modalData).GetOr(map[]), data))
      ensures isOpen == old(isOpen) && overflow == old(overflow) && pendingClears == old(pendingClears)
    {
      modalData := Some(Spread(modalData.GetOr(map[]), data));
    }
  }

  /** A modal closed with `closeModal()` and opened again within 300 ms loses the new data when
      the first timer fires: it is open, with nothing to show. */
  method ReopenBeforeTimerFires(first: Obj, second: Obj) returns (open: bool, shown: Option<Obj>)
    ensures open && shown == None
  {
    var modal := new ModalState();
    modal.OpenModal(Some(first));
    modal.CloseModal();
    modal.OpenModal(Some(second));
    modal.ClearTimerFires();
    open, shown := modal.isOpen, modal.modalData;
  }

  /** Data merged into an open modal stays after `closeModal(false)`: the old properties the
      update does not name, and the update's own. */
  method CloseKeepingData(data: Obj, update: Obj) returns (open: bool, shown: Option<Obj>)
    ensures !open && shown.Some? && shown.value.Keys == data.Keys + update.Keys
    ensures forall k :: k in update ==> shown.value[k] == update[k]
    ensures forall k :: k in data && k !in update ==> shown.value[k] == data[k]
  {
    var modal := new ModalState();
    modal.OpenModal(Some(data));
    modal.UpdateModalData(update);
    modal.CloseModal(false);
    open, shown := modal.isOpen, modal.modalData;
  }

  /** Toggling twice gives back the open state, with the body's scrolling in step with it. */
  method ToggleTwice(initialIsOpen: bool) returns (open: bool, scrollLocked: bool)
    ensures open == initialIsOpen && (scrollLocked <==> initialIsOpen)
  {
    var modal := new ModalState(initialIsOpen);
    modal.ToggleModal();
    modal.ToggleModal();
    open, scrollLocked := modal.isOpen, modal.overflow == Hidden;
  }
}
