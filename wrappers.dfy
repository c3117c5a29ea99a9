/** An optional value. `None` stands for a fault of the machine (an access out
    of range, a missing class) wherever an operation can meet one; the `:-`
    operator threads it through the instruction semantics. */
module Wrappers {

  datatype Option<T> = None | Some(value: T)
  {
    predicate IsFailure() {
      None?
    }

    function PropagateFailure<U>(): Option<U>
      requires None?
    {
      None
    }

    function Extract(): T
      requires Some?
    {
      value
    }
  }
}
