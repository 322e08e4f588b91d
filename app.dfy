/** The `App` controller: the reducer over `InputState` and the address submission. */
module App {
  import opened Wrappers
  import opened Config

  /** `InputState`: the address handed to the simulator and whether "Next" is enabled. */
  datatype InputState = InputState(submittedAddress: Option<int>, nextToggle: bool)

  /** The `type` of a `reducerAction`; `Other` stands for any value the `switch` does not name. */
  datatype ActionType = Submit | End | Other

  datatype ReducerAction = ReducerAction(kind: ActionType, address: Option<int>)

  /** The text field: empty, or the number typed (or drawn at random). */
  datatype AddressInput = Blank | Entered(value: int)

  /** What `submit_address` does: dispatch, or one of its two alerts. */
  datatype SubmitOutcome = Dispatched | AlertEmpty | AlertOutOfRange

  const INITIAL_STATE: InputState := InputState(None, false)

  /** `reducer` */
  function Reducer(state: InputState, action: ReducerAction): (r: InputState)
    ensures action.kind == Submit ==> r.submittedAddress == action.address && r.nextToggle
    ensures action.kind == End ==> r.submittedAddress == state.submittedAddress && !r.nextToggle
    ensures action.kind == Other ==> r == state
  {
    match action.kind
    case Submit => InputState(action.address, true)
    case End => state.(nextToggle := false)
    case Other => state
  }

  /** Only a `'submit'` changes which address the simulator is given. */
  lemma OnlySubmitChangesAddress(state: InputState, action: ReducerAction)
    ensures Reducer(state, action).submittedAddress != state.submittedAddress ==>
      action.kind == Submit && Reducer(state, action).submittedAddress == action.address
  {
  }

  /** `'end'` after `'submit'` keeps the submitted address and disables "Next" again. */
  lemma SubmitThenEnd(state: InputState, a: int, endAddress: Option<int>)
    ensures Reducer(Reducer(state, ReducerAction(Submit, Some(a))), ReducerAction(End, endAddress))
      == InputState(Some(a), false)
  {
  }

  /** A second `'end'` changes nothing. */
  lemma EndIsIdempotent(state: InputState, a1: Option<int>, a2: Option<int>)
    ensures Reducer(Reducer(state, ReducerAction(End, a1)), ReducerAction(End, a2))
      == Reducer(state, ReducerAction(End, a1))
  {
  }

  /** The address the `VmSim` component receives: -1 while nothing has been submitted. */
  function SimulatedAddress(state: InputState): int
  {
    if state.submittedAddress == None then -1 else state.submittedAddress.value
  }

  /** With only in-range addresses submitted, -1 means exactly "nothing submitted yet". */
  lemma SimulatedAddressOfValidState(state: InputState)
    requires state.submittedAddress.Some? ==> 0 <= state.submittedAddress.value <= MAX - 1
    ensures SimulatedAddress(state) == -1 <==> state.submittedAddress == None
    ensures state.submittedAddress.Some? ==> 0 <= SimulatedAddress(state) < MAX
  {
  }

  /** The `App` component's state: the address field and the reducer state. */
  class Controller {
    var virtualAddress: AddressInput
    var state: InputState

    /** Only in-range addresses are ever submitted. */
    ghost predicate Valid()
      reads this
    {
      state.submittedAddress.Some? ==> 0 <= state.submittedAddress.value <= MAX - 1
    }

    constructor ()
      ensures virtualAddress == Blank && state == INITIAL_STATE
      ensures state.submittedAddress == None && !state.nextToggle
      ensures Valid()
    {
      virtualAddress := Blank;
      state := INITIAL_STATE;
    }

    /** `enter_address`, on an already parsed field value. */
    method EnterAddress(input: AddressInput)
      modifies this`virtualAddress
      ensures virtualAddress == input
    {
      virtualAddress := input;
    }

    /** `submit_address`: dispatch `'submit'` for a non-empty address in [0, MAX - 1], else alert. */
    method SubmitAddress() returns (outcome: SubmitOutcome)
      requires Valid()
      modifies this`state
      ensures Valid()
      ensures outcome == AlertEmpty <==> virtualAddress == Blank
      ensures outcome == AlertOutOfRange <==>
        virtualAddress.Entered? && (virtualAddress.value < 0 || virtualAddress.value > MAX - 1)
      ensures outcome == Dispatched <==>
        virtualAddress.Entered? && 0 <= virtualAddress.value <= MAX - 1
      ensures outcome == Dispatched ==>
        state == Reducer(old(state), ReducerAction(Submit, Some(virtualAddress.value)))
      ensures outcome != Dispatched ==> state == old(state)
    {
      if virtualAddress == Blank {
        outcome := AlertEmpty;
      } else if virtualAddress.value < 0 || virtualAddress.value > MAX - 1 {
        outcome := AlertOutOfRange;
      } else {
        state := Reducer(state, ReducerAction(Submit, Some(virtualAddress.value)));
        outcome := Dispatched;
      }
    }
  }
}
