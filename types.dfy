/** Values shared by every part of the transaction-binding model. */
module Types {

  /** Resource keys are arbitrary objects in the library; strings stand for them here. */
  type Key = string

  /** A listener handle. Two handles are the same registration iff their ids are equal. */
  type ListenerId = nat

  /** The failures this layer raises (or lets through from the host manager). */
  datatype Error =
    | NoActiveTransaction     // registerSynchronizations: synchronization is not active
    | TransactionRequired     // checkTransactionReadState: no transaction at all
    | ReadWriteRequired       // checkTransactionReadState: the transaction is read-only
    | NoSynchronizationBound  // beforeCommit: nothing is bound under the "txnSynch" key
    | AlreadyBound            // the host refuses to bind over a value already bound
    | ClassCast               // a helper found a value of another class under its key

  datatype Option<T> = None | Some(value: T)

  datatype Result<T> = Ok(value: T) | Err(error: Error)

  datatype Outcome = Pass | Fail(error: Error)

  /** The collection classes the resource helpers create. */
  datatype CollectionKind = HashMapKind | HashSetKind | TreeSetKind | ArrayListKind

  /** A collection bound as a resource; only its identity and its class are modelled. */
  class Collection {
    const kind: CollectionKind

    constructor (kind: CollectionKind)
      ensures this.kind == kind
    {
      this.kind := kind;
    }
  }

  /**
   * A value of the resource store. `Null` is what a lookup of an unbound key yields
   * (and what an explicit `null` binding holds), `Other` is any object of the caller's.
   */
  datatype Value = Null | Bool(b: bool) | Coll(c: Collection) | Other(tag: nat)

  /**
   * What a listener does when it is called back: the listeners its beforeCommit and its
   * beforeCompletion bind to the transaction, and whether its afterCommit or afterRollback
   * throws a RuntimeException.
   */
  datatype Behaviour = Behaviour(
    registersOnCommit: seq<ListenerId>,
    registersOnCompletion: seq<ListenerId>,
    afterCommitFails: bool,
    afterRollbackFails: bool)

  /** The behaviour of every listener that exists; its keys are the universe of listeners. */
  type Behaviours = map<ListenerId, Behaviour>

  /** One dispatched listener callback, as recorded in the coordinator's trace. */
  datatype Event =
    | BeforeCommitCalled(listener: ListenerId, readOnly: bool)
    | BeforeCompletionCalled(listener: ListenerId)
    | AfterCommitCalled(listener: ListenerId, failed: bool)
    | AfterRollbackCalled(listener: ListenerId, failed: bool)

  ghost predicate NoDuplicates<T>(s: seq<T>) {
    forall i, j :: 0 <= i < j < |s| ==> s[i] != s[j]
  }

  function Elements<T>(s: seq<T>): set<T> {
    set x | x in s
  }
}
