/** The undo log: `TransactionHistoryElement` and what replaying it in reverse does. */
module History {
  import opened Wrappers
  import opened Base

  /** An immutable `(rid, operation)` pair; both fields are final and unvalidated, and the getters are the destructors. */
  datatype TransactionHistoryElement = TransactionHistoryElement(rid: ResourceId, operation: ResourceOperation)

  /** The resources' values, by identifier. */
  type Values = map<ResourceId, int>

  /** `operation.execute(resource)` for one entry; `None` when it fails. */
  function ExecuteOne(v: Values, e: TransactionHistoryElement): (r: Option<Values>)
    requires e.rid in v
    ensures r.Some? <==> e.operation.execute(v[e.rid]).Some?
    ensures r.Some? ==> r.value.Keys == v.Keys && r.value[e.rid] == e.operation.execute(v[e.rid]).value
    ensures r.Some? ==> forall q :: q in v && q != e.rid ==> r.value[q] == v[q]
  {
    match e.operation.execute(v[e.rid])
    case None => None
    case Some(x) => Some(v[e.rid := x])
  }

  /** Executes the entries in chronological order, stopping at the first failure. */
  function ExecuteAll(v: Values, h: seq<TransactionHistoryElement>): Option<Values>
    decreases |h|
  {
    if h == [] then Some(v)
    else if h[0].rid !in v then None
    else match ExecuteOne(v, h[0])
      case None => None
      case Some(w) => ExecuteAll(w, h[1..])
  }

  /** `operation.undo(resource)` for one entry. */
  function UndoOne(v: Values, e: TransactionHistoryElement): Values
  {
    if e.rid in v then v[e.rid := e.operation.undo(v[e.rid])] else v
  }

  /**
   * Undoes a history in strict reverse order: the later entries `h[1..]`
   * first, the oldest entry `h[0]` last.
   */
  function UndoAll(v: Values, h: seq<TransactionHistoryElement>): Values
    decreases |h|
  {
    if h == [] then v else UndoOne(UndoAll(v, h[1..]), h[0])
  }

  /** Undo touches no identifier beyond those there already are. */
  lemma {:induction false} UndoAllKeys(v: Values, h: seq<TransactionHistoryElement>)
    ensures UndoAll(v, h).Keys == v.Keys
    decreases |h|
  {
    if h != [] {
      UndoAllKeys(v, h[1..]);
    }
  }

  /** The newest entry is undone first: appending an entry puts its undo in front. */
  lemma {:induction false} UndoNewestFirst(v: Values, h: seq<TransactionHistoryElement>, e: TransactionHistoryElement)
    ensures UndoAll(v, h + [e]) == UndoAll(UndoOne(v, e), h)
    decreases |h|
  {
    if h == [] {
      assert UndoAll(v, [e]) == UndoOne(UndoAll(v, []), e);
    } else {
      assert (h + [e])[1..] == h[1..] + [e];
      UndoNewestFirst(v, h[1..], e);
    }
  }

  /**
   * Rollback restores the values the transaction started from, provided
   * every logged operation's undo inverts its execute.
   */
  lemma {:induction false} RollbackRestores(v0: Values, h: seq<TransactionHistoryElement>)
    requires forall i :: 0 <= i < |h| ==> UndoInvertsExecute(h[i].operation)
    requires ExecuteAll(v0, h).Some?
    ensures UndoAll(ExecuteAll(v0, h).value, h) == v0
    decreases |h|
  {
    if h != [] {
      var e := h[0];
      var w := ExecuteOne(v0, e).value;
      assert ExecuteAll(v0, h) == ExecuteAll(w, h[1..]);
      RollbackRestores(w, h[1..]);
      assert UndoInvertsExecute(e.operation);
      assert e.operation.execute(v0[e.rid]).Some?;
      assert e.operation.undo(w[e.rid]) == v0[e.rid];
      assert UndoOne(w, e) == v0;
    }
  }
}
