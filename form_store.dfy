/**
 * The form state store: the entered values, keyed by field id, and the pure
 * reducer through which they change.
 */
module FormStore {

  /**
   * What the change handler stores for one input: `''` for an empty input,
   * otherwise the result of `Number(value)`, which is a number or NaN.
   */
  datatype Value = Empty | NaN | Num(x: real)

  /** The actions the reducer understands; `Other` stands for any other action type. */
  datatype Action = UpdateField(field: string, value: Value) | Reset | Other

  type FormState = map<string, Value>

  /** The form reducer: an immutable update of one key, or the empty map on reset. */
  function Reduce(state: FormState, action: Action): (r: FormState)
    ensures action.UpdateField? ==> action.field in r && r[action.field] == action.value
    ensures action.UpdateField? ==>
      forall k :: k != action.field ==> (k in r <==> k in state) && (k in r ==> r[k] == state[k])
    ensures action.Reset? ==> r == map[]
    ensures action.Other? ==> r == state
  {
    match action
    case UpdateField(field, value) => state[field := value]
    case Reset => map[]
    case Other => state
  }
}
