/** The result of a machine operation that can stop on an indexing error:
    None for the error, Some for a value. The three members below let a
    function write `var v :- op;` and pass the error on unchanged. */
module Wrappers {

  datatype Option<T> = None | Some(value: T) {

    /** An indexing error stops the enclosing operation. */
    predicate IsFailure() {
      None?
    }

    /** The value an operation that did not stop goes on with. */
    function Extract(): T
      requires Some?
    {
      value
    }

    /** The same error, at the enclosing operation's result type. */
    function PropagateFailure<U>(): Option<U>
      requires None?
    {
      None
    }
  }
}
