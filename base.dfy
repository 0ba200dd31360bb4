/**
 * The collaborators of the transaction manager, seen only through their
 * interface: resource identifiers, the calling thread's identity, the clock's
 * values and resource operations.
 */
module Base {
  import opened Wrappers

  /** An opaque, comparable resource identifier. */
  type ResourceId = int

  /** The identity of a thread (`Thread.getId()`); it keys the registry. */
  type ThreadId = nat

  /** A value of the local time provider (a Java `long`). */
  type Time = int

  /**
   * A resource is modelled by its value. An operation's `execute` either
   * fails (`None`, the `ResourceOperationException`) or yields the new value;
   * its `undo` is total.
   */
  datatype ResourceOperation = ResourceOperation(execute: int -> Option<int>, undo: int -> int)

  /** `undo` restores whatever value a successful `execute` started from. */
  ghost predicate UndoInvertsExecute(op: ResourceOperation)
  {
    forall x :: op.execute(x).Some? ==> op.undo(op.execute(x).value) == x
  }
}
