# Transaction binding support, modelled in Dafny

This project models the transaction-binding layer of `transaction-binding`, a small library on
top of Spring's transaction synchronization. Client code runs inside a Spring transaction and
gets, per transaction:

- a unique transaction id and a start time;
- a private key/value resource store;
- a set of `TransactionListener`s that are called back at `beforeCommit`, `beforeCompletion`,
  `afterCommit` and `afterRollback`.

All of it sits in one context object, `TransactionSynchronizationImpl`. The context is created
lazily on first use, registered once with the host transaction manager, and kept in the
thread's single `txnSynch` resource slot. `TransactionalResourceHelper` adds "look up or create
and bind" helpers for collections, and boolean flags, on top of the resource store.

The modules:

- `Types`: keys, listener ids, the values of the store, errors, listener behaviour, callback events.
- `ReadState`: `getTransactionReadState` and `checkTransactionReadState`, which are pure functions
  of the host's two flags.
- `ListenerRegistry`: value-level specifications:
  - the insertion-ordered, duplicate-free listener set (a `LinkedHashSet`) and its `add`;
  - `Closure`, the least listener set closed under the registrations listeners make in their
    `beforeCommit`, which is where the pre-commit fixed point ends;
  - the callback sequences each lifecycle phase dispatches.
- `Binding`: the state-changing core.
  - `Context` is `TransactionSynchronizationImpl`: its fields `resources` and `listeners`, and
    `addListener` and `getOrder`.
  - `Coordinator` is one thread's view of the host manager plus the library's static methods.
    It holds the `active` and `readOnly` flags, the `txnSynch` slot, the list of registered
    synchronizations, an id counter standing for the UUID generator, a clock standing for
    `System.currentTimeMillis`, and a trace of every listener callback dispatched.
  - The lifecycle hooks are methods of `Coordinator` that take the context they are called on.
  - `beforeCommit` is the recursive `DoBeforeCommit`, with the iteration of the `HashSet` of
    pending listeners modelled as an arbitrary choice (`:|`).
  - `Begin`, `End`, `Tick`, `SuspendTransaction` and `ResumeTransaction` are small stand-ins for
    the host manager, so that whole transactions can be written down.
- `ResourceHelper`: the collection helpers and the boolean-flag helpers as methods over a
  `Coordinator`, each specified by functions of the store.
- `Scenarios`: the behaviours the library's own tests check, written as client runs with their
  concrete outcomes proved.

Listener behaviour is data. Each listener id maps to the listeners its `beforeCommit` and its
`beforeCompletion` bind, and to whether its `afterCommit` and its `afterRollback` throw a
`RuntimeException`. The keys of that map are the finite universe of listeners, which is what
makes the pre-commit fixed point terminate: each non-empty round strictly shrinks the set of
listeners not yet visited.

The source paths below are relative to the repository root.

## Model

| member | source | states |
|---|---|---|
| ReadState.GetTransactionReadState | src/main/java/com/github/rholder/spring/transaction/TransactionBindingSupport.java:138-153 | TXN_NONE iff no transaction, TXN_READ_ONLY iff active and read-only, TXN_READ_WRITE iff active and writable |
| ReadState.CheckTransactionReadState | src/main/java/com/github/rholder/spring/transaction/TransactionBindingSupport.java:163-176 | fails iff there is no transaction or a read-write one is required and the current one is read-only; which of the two errors is raised in each case |
| ReadState.CheckAgreesWithReadState | src/main/java/com/github/rholder/spring/transaction/TransactionBindingSupport.java:124-176 | the check passes exactly when the read state admits the requested access |
| ListenerRegistry.InsertSpec | src/main/java/com/github/rholder/spring/transaction/TransactionBindingSupport.java:420-423 | adding to the ordered set keeps it duplicate-free, keeps what was there in order, and adds exactly the listener |
| ListenerRegistry.InsertAllSpec | src/main/java/com/github/rholder/spring/transaction/TransactionBindingSupport.java:263-276 | binding several listeners one after another keeps the set duplicate-free and ordered and adds exactly those listeners |
| ListenerRegistry.CalledExactlyOnce | src/main/java/com/github/rholder/spring/transaction/TransactionBindingSupport.java:516-531 | a call sequence that is a permutation of the duplicate-free listener set calls every listener in the set once and no other listener |
| ListenerRegistry.Closure | src/main/java/com/github/rholder/spring/transaction/TransactionBindingSupport.java:516-531 | the set the pre-commit rounds reach contains the starting listeners, only known listeners, and every listener bound by one of its members |
| ListenerRegistry.ClosureLeast | src/main/java/com/github/rholder/spring/transaction/TransactionBindingSupport.java:516-531 | that set lies inside every closed superset of the start, so no listener is reached that no chain of registrations leads to |
| ListenerRegistry.ClosureAbsorbs | src/main/java/com/github/rholder/spring/transaction/TransactionBindingSupport.java:529 | recursing from any intermediate listener set reaches the same fixed point |
| ListenerRegistry.CompletionRegistrationsAdd | src/main/java/com/github/rholder/spring/transaction/TransactionBindingSupport.java:541-544 | one more beforeCompletion caller adds exactly its own registrations |
| ListenerRegistry.CompletionStep | src/main/java/com/github/rholder/spring/transaction/TransactionBindingSupport.java:541-544 | the i-th beforeCompletion call adds its registrations and appends its callback |
| ListenerRegistry.BeforeCommitEventsAppend | src/main/java/com/github/rholder/spring/transaction/TransactionBindingSupport.java:523-529 | the callbacks of two rounds are those of the first round followed by those of the second |
| ListenerRegistry.BeforeCommitEventsAt | src/main/java/com/github/rholder/spring/transaction/TransactionBindingSupport.java:523-527 | one beforeCommit(readOnly) callback per call, the i-th going to the i-th listener called |
| ListenerRegistry.BeforeCompletionEventsAt | src/main/java/com/github/rholder/spring/transaction/TransactionBindingSupport.java:541-544 | one beforeCompletion callback per snapshot listener, the i-th going to the i-th listener |
| ListenerRegistry.AfterCompletionEventsAt | src/main/java/com/github/rholder/spring/transaction/TransactionBindingSupport.java:567-600 | one callback per snapshot listener in order, afterCommit exactly when committed, whatever earlier listeners threw |
| Binding.BindThenLookup | src/main/java/com/github/rholder/spring/transaction/TransactionBindingSupport.java:190-227 | after a put under k, k yields the value and every other key yields what it did |
| Binding.UnbindThenLookup | src/main/java/com/github/rholder/spring/transaction/TransactionBindingSupport.java:236-248 | after a remove of k, k yields null, other keys keep their values, and removing an unbound key changes nothing |
| Binding.Context.constructor | src/main/java/com/github/rholder/spring/transaction/TransactionBindingSupport.java:398-404 | a new context has the given id and start time, no resources and no listeners |
| Binding.Context.AddListener | src/main/java/com/github/rholder/spring/transaction/TransactionBindingSupport.java:420-423 | reports true iff the listener was absent; appends a new listener; a duplicate leaves content and order unchanged; resources untouched |
| Binding.Context.GetOrder | src/main/java/com/github/rholder/spring/transaction/TransactionBindingSupport.java:447-450 | the layer's hooks are ordered strictly before the host's session synchronization |
| Binding.Coordinator.RegisterSynchronizations | src/main/java/com/github/rholder/spring/transaction/TransactionBindingSupport.java:309-350 | fails and changes nothing without an active transaction; returns the bound context if there is one; otherwise creates one context with the next id and the current time, registers it once and binds it |
| Binding.Coordinator.GetTransactionId | src/main/java/com/github/rholder/spring/transaction/TransactionBindingSupport.java:92-117 | null iff no context is bound and no transaction is active; the bound context's id; else lazily registers and returns the new id |
| Binding.Coordinator.GetTransactionStartTime | src/main/java/com/github/rholder/spring/transaction/TransactionBindingSupport.java:61-84 | -1 iff no context is bound and no transaction is active; the bound context's start time; else lazily registers and returns the new start time |
| Binding.Coordinator.ClearSynchronization | src/main/java/com/github/rholder/spring/transaction/TransactionBindingSupport.java:355-366 | the slot is empty afterwards; the host state and the trace do not change |
| Binding.Coordinator.RebindSynchronization | src/main/java/com/github/rholder/spring/transaction/TransactionBindingSupport.java:373-380 | binds exactly the given context; fails with AlreadyBound iff the slot was occupied |
| Binding.Coordinator.GetResource | src/main/java/com/github/rholder/spring/transaction/TransactionBindingSupport.java:190-204 | fails without a transaction; else registers lazily and returns the value under the key, null when unbound; the store does not change |
| Binding.Coordinator.BindResource | src/main/java/com/github/rholder/spring/transaction/TransactionBindingSupport.java:214-227 | fails without a transaction; else the store becomes the old store with the key put or overwritten |
| Binding.Coordinator.UnbindResource | src/main/java/com/github/rholder/spring/transaction/TransactionBindingSupport.java:236-248 | fails without a transaction; else the store becomes the old store without the key |
| Binding.Coordinator.BindListener | src/main/java/com/github/rholder/spring/transaction/TransactionBindingSupport.java:263-276 | fails without a transaction; else the listener set becomes the old one with the listener added once; the store does not change |
| Binding.Coordinator.Suspend | src/main/java/com/github/rholder/spring/transaction/TransactionBindingSupport.java:452-460 | empties the slot and leaves the host state, the trace and every context untouched |
| Binding.Coordinator.Resume | src/main/java/com/github/rholder/spring/transaction/TransactionBindingSupport.java:462-470 | binds exactly the given context again; fails with AlreadyBound iff the slot was occupied |
| Binding.Coordinator.CallBeforeCommit | src/main/java/com/github/rholder/spring/transaction/TransactionBindingSupport.java:525 | records the callback; the listener's registrations are added in order, and fail iff it registers something with no transaction active |
| Binding.Coordinator.DoBeforeCommit | src/main/java/com/github/rholder/spring/transaction/TransactionBindingSupport.java:516-531 | terminates; on success the calls are duplicate-free, cover exactly the listeners not yet visited, and the final listener set is the closure of the initial one; the pending listeners come first |
| Binding.Coordinator.SettledIsClosed | src/main/java/com/github/rholder/spring/transaction/TransactionBindingSupport.java:521 | when nothing is pending, every listener a registered listener binds is registered |
| Binding.Coordinator.RoundStep | src/main/java/com/github/rholder/spring/transaction/TransactionBindingSupport.java:523-527 | after each call of a round, the called listener moves from pending to visited, and the calls so far stay distinct |
| Binding.Coordinator.CallStep | src/main/java/com/github/rholder/spring/transaction/TransactionBindingSupport.java:523-527 | a call keeps the listener set duplicate-free, ordered and inside the closure, and everything a visited listener binds is registered |
| Binding.Coordinator.CommitRound | src/main/java/com/github/rholder/spring/transaction/TransactionBindingSupport.java:518-527 | one round calls every pending listener exactly once, in some order, marking each visited after its call |
| Binding.Coordinator.BeforeCommit | src/main/java/com/github/rholder/spring/transaction/TransactionBindingSupport.java:478-506 | fails and changes nothing when the slot is empty; on success every listener of the final set, including those bound during the phase, gets exactly one beforeCommit (the calls are a permutation of the final listeners), the final set is the closure, and the initial listeners are called in the first round |
| Binding.Coordinator.CallBeforeCompletion | src/main/java/com/github/rholder/spring/transaction/TransactionBindingSupport.java:543 | records the callback; the listener's registrations are added to the bound context in order |
| Binding.Coordinator.BeforeCompletion | src/main/java/com/github/rholder/spring/transaction/TransactionBindingSupport.java:533-545 | on success the callbacks are exactly one per listener of the snapshot taken at entry, in insertion order, and the listener set has grown by exactly what they bound; listeners bound meanwhile are not called |
| Binding.Coordinator.BeforeCompletionStep | src/main/java/com/github/rholder/spring/transaction/TransactionBindingSupport.java:541-544 | the i-th call of the pre-completion phase extends the progress made by the first i calls |
| Binding.Coordinator.CallAfterCommit | src/main/java/com/github/rholder/spring/transaction/TransactionBindingSupport.java:573-582 | records the afterCommit callback and whether it threw |
| Binding.Coordinator.CallAfterRollback | src/main/java/com/github/rholder/spring/transaction/TransactionBindingSupport.java:589-598 | records the afterRollback callback and whether it threw |
| Binding.Coordinator.AfterCompletion | src/main/java/com/github/rholder/spring/transaction/TransactionBindingSupport.java:548-604 | the callbacks are afterCommit on each snapshot listener in order when committed, afterRollback on each otherwise (including an unknown status); failures never stop later listeners; the slot is empty afterwards |
| ResourceHelper.GetOrCreate | src/main/java/com/github/rholder/spring/transaction/TransactionalResourceHelper.java:47-110 | fails without a transaction; a bound value of an accepted class is returned with the store unchanged; an unbound key gets a new collection bound and returned; any other value fails the cast |
| ResourceHelper.GetMap | src/main/java/com/github/rholder/spring/transaction/TransactionalResourceHelper.java:47-56 | the shared contract, creating a HashMap and accepting a map |
| ResourceHelper.GetSet | src/main/java/com/github/rholder/spring/transaction/TransactionalResourceHelper.java:65-74 | the shared contract, creating a HashSet and accepting any set, including a TreeSet |
| ResourceHelper.GetTreeSet | src/main/java/com/github/rholder/spring/transaction/TransactionalResourceHelper.java:83-92 | the shared contract, creating and accepting a TreeSet |
| ResourceHelper.GetList | src/main/java/com/github/rholder/spring/transaction/TransactionalResourceHelper.java:101-110 | the shared contract, creating and accepting an ArrayList |
| ResourceHelper.TestFlag | src/main/java/com/github/rholder/spring/transaction/TransactionalResourceHelper.java:147-158 | true iff a Boolean is bound, false iff nothing is, a cast failure otherwise |
| ResourceHelper.SetFlagResult | src/main/java/com/github/rholder/spring/transaction/TransactionalResourceHelper.java:117-127 | setBoolean answers true exactly when the flag tested false, and false exactly when it tested true |
| ResourceHelper.SetFlagStore | src/main/java/com/github/rholder/spring/transaction/TransactionalResourceHelper.java:117-127 | setBoolean changes no other key, and nothing at all when the cast fails |
| ResourceHelper.ResetFlagStoreAsWritten | src/main/java/com/github/rholder/spring/transaction/TransactionalResourceHelper.java:133-140 | resetBoolean as written changes no other key |
| ResourceHelper.ResetFlagStore | src/main/java/com/github/rholder/spring/transaction/TransactionalResourceHelper.java:129-140 | the intended resetBoolean changes no other key, and nothing when the cast fails |
| ResourceHelper.ResetFlagResult | src/main/java/com/github/rholder/spring/transaction/TransactionalResourceHelper.java:133-140 | resetBoolean fails exactly on a value that is not a Boolean |
| ResourceHelper.SetThenTest | src/main/java/com/github/rholder/spring/transaction/TransactionalResourceHelper.java:117-158 | after setBoolean the flag tests true, a second setBoolean answers false, and setting is idempotent |
| ResourceHelper.ResetAsWrittenKeepsFlag | src/main/java/com/github/rholder/spring/transaction/TransactionalResourceHelper.java:133-158 | resetBoolean as written never changes what testBoolean answers |
| ResourceHelper.ResetAsWrittenCounterexample | src/main/java/com/github/rholder/spring/transaction/TransactionalResourceHelper.java:133-140 | a flag set on an empty store still tests true after resetBoolean as written |
| ResourceHelper.ResetThenTest | src/main/java/com/github/rholder/spring/transaction/TransactionalResourceHelper.java:117-158 | after the intended reset the flag tests false; reset undoes set |
| ResourceHelper.SetBoolean | src/main/java/com/github/rholder/spring/transaction/TransactionalResourceHelper.java:117-127 | fails without a transaction; else answers and changes the store as SetFlagResult and SetFlagStore say |
| ResourceHelper.TestBoolean | src/main/java/com/github/rholder/spring/transaction/TransactionalResourceHelper.java:147-158 | fails without a transaction; else answers as TestFlag says; binds nothing |
| ResourceHelper.ResetBooleanAsWritten | src/main/java/com/github/rholder/spring/transaction/TransactionalResourceHelper.java:133-140 | fails without a transaction; else changes the store as ResetFlagStoreAsWritten says |
| ResourceHelper.ResetBoolean | src/main/java/com/github/rholder/spring/transaction/TransactionalResourceHelper.java:129-140 | fails without a transaction; else changes the store as ResetFlagStore says |
| Scenarios.OutsideTransaction | src/test/java/com/github/rholder/spring/transaction/TransactionBindingSupportTest.java:78-79 | outside a transaction: no id, start time -1, read state TXN_NONE, and the store and bindListener refuse |
| Scenarios.NestedTransactionIds | src/test/java/com/github/rholder/spring/transaction/TransactionBindingSupportTest.java:72-141 | id and start time stable within a transaction; a nested transaction has another id and starts no earlier; the outer id comes back after it; no id after rollback; the next transaction gets a fresh id |
| Scenarios.ListenerCallbacks | src/test/java/com/github/rholder/spring/transaction/TransactionBindingSupportTest.java:143-203 | a commit produces exactly beforeCommit, beforeCompletion, afterCommit; a rollback produces exactly beforeCompletion, afterRollback |
| Scenarios.ChainFixedPoint | src/test/java/com/github/rholder/spring/transaction/TransactionBindingSupportTest.java:210-269 | when 100 binds 300 before commit, the final listeners are 200, 100, 300 and 300 is called last |
| Scenarios.PreCommitListenerBinding | src/test/java/com/github/rholder/spring/transaction/TransactionBindingSupportTest.java:210-269 | 200 and 100 are called in the first round in either order, 300, bound by 100, in a second round, and all three then get afterCommit |
| Scenarios.HelpersReturnTheBoundCollection | src/test/java/com/github/rholder/spring/transaction/TransactionBindingSupportTest.java:322-389 | each helper's second call returns the very collection its first call created; getSet returns a bound TreeSet; getList on a map fails the cast |
| Scenarios.FlagHelpers | src/main/java/com/github/rholder/spring/transaction/TransactionalResourceHelper.java:117-158 | set, set again and test answer true, false, true; the flag still tests true after resetBoolean as written, and false after the intended reset |

## Left out

- The host transaction manager (Spring's `TransactionSynchronizationManager`, begin, commit and
  rollback) is not part of this model. Its state is the `active` and `readOnly` flags, the slot
  and the `registered` list. `Begin`, `End`, `Tick`, `SuspendTransaction` and `ResumeTransaction`
  are simplified stand-ins used only by the scenarios.
- Thread-locals and concurrency: one thread's single slot is modelled.
- The UUID generator and `System.currentTimeMillis` are replaced by the `nextId` counter and the
  caller-advanced `clock`; an id is a number, not a string.
- Logging, `logBoundService` and `toString` only produce text and are left out.
- The contents of the collections the helpers create are not modelled, only their identity and
  class. A caller's value of another class (`Value.Other`) is never a collection.
- `getListenersIterable` is not a separate member. A Dafny sequence is a value, so the copy it
  makes is the `snapshot` that `BeforeCompletion` and `AfterCompletion` take at entry.
- `getSynchronization` is a one-line alias of `registerSynchronizations`; the model calls
  `RegisterSynchronizations` directly.
- `getOrder` returns `HIBERNATE_SESSION_ORDER - 100`. The Hibernate constant is a foreign value,
  taken as 900.
- Exceptions are `Outcome` and `Result` values. A `RuntimeException` from `afterCommit` or
  `afterRollback` is a "fails" flag that the loop ignores. Only one failure inside
  `beforeCommit`/`beforeCompletion` is modelled: a listener trying to bind with no transaction
  active. It aborts the phase.
- `readOnly` for `beforeCommit` is the argument the host passes; it is not re-read.
- Binding.Coordinator.BeforeCommit: requires that the slot is empty or holds the context the hook
  is called on. The source only checks that something is bound. With another context in the slot,
  the listeners that the callbacks bind would go to that other context, and the model does not
  cover that case.
- Binding.Coordinator.ResumeTransaction: a stand-in that ignores the `AlreadyBound` failure of
  `resume`, as the scenarios never resume into an occupied slot.
- `testReadWriteStateRetrieval` is disabled in the repository's tests and has no scenario.

## Findings

| source | as written | input that shows it | evidently intended | confidence | as-written member | corrected member |
|---|---|---|---|---|---|---|
| src/main/java/com/github/rholder/spring/transaction/TransactionalResourceHelper.java:133-140 | resetBoolean unbinds the key only when the value found is null, so a flag set by setBoolean is never cleared | an empty store, setBoolean("flag"), then resetBoolean("flag"): testBoolean("flag") still answers true | unbind when a Boolean is bound, so that the flag reads false afterwards, as the method's documentation says | high; not executed | ResourceHelper.ResetAsWrittenCounterexample | ResourceHelper.ResetThenTest |
