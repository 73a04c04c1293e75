/**
 * The transaction binding layer: one context per transaction, bound lazily to the
 * thread's single "txnSynch" slot, holding the transaction's resources and listeners,
 * plus the lifecycle hooks the host transaction manager calls on it.
 */
module Binding {
  import opened Types
  import opened ListenerRegistry

  /** The completion status codes the host manager passes to afterCompletion. */
  const STATUS_COMMITTED: int := 0
  const STATUS_ROLLED_BACK: int := 1
  const STATUS_UNKNOWN: int := 2

  /** The order of the host's own session synchronization (Spring's Hibernate support). */
  const HIBERNATE_SESSION_ORDER: int := 900

  /** This layer runs 100 before the session synchronization. */
  const SESSION_SYNCHRONIZATION_ORDER: int := HIBERNATE_SESSION_ORDER - 100

  /** HashMap.get: the value bound under k, or null when k is unbound. */
  function Lookup(m: map<Key, Value>, k: Key): Value {
    if k in m then m[k] else Null
  }

  /** After v is put under k, k yields v and every other key yields what it did. */
  lemma BindThenLookup(m: map<Key, Value>, k: Key, v: Value, other: Key)
    ensures Lookup(m[k := v], k) == v
    ensures other != k ==> Lookup(m[k := v], other) == Lookup(m, other)
  {
  }

  /** After k is removed it yields null; other keys keep theirs; removing an unbound key is a no-op. */
  lemma UnbindThenLookup(m: map<Key, Value>, k: Key, other: Key)
    ensures Lookup(m - {k}, k) == Null
    ensures other != k ==> Lookup(m - {k}, other) == Lookup(m, other)
    ensures k !in m ==> m - {k} == m
  {
  }

  /** A suspended transaction as the host manager keeps it while a nested one runs. */
  datatype Suspended = Suspended(readOnly: bool, registered: seq<Context>)

  /** TransactionSynchronizationImpl: the state of one transaction. */
  class Context {
    const id: nat
    const startTime: nat
    var resources: map<Key, Value>
    var listeners: seq<ListenerId>

    constructor (id: nat, startTime: nat)
      ensures this.id == id && this.startTime == startTime
      ensures resources == map[] && listeners == []
    {
      this.id := id;
      this.startTime := startTime;
      resources := map[];
      listeners := [];
    }

    /** addListener: reports whether the listener is new; a duplicate changes nothing. */
    method AddListener(l: ListenerId) returns (added: bool)
      modifies this
      ensures added == (l !in old(listeners))
      ensures listeners == Insert(old(listeners), l)
      ensures resources == old(resources)
    {
      added := l !in listeners;
      if added {
        listeners := listeners + [l];
      }
    }

    /** getOrder: this layer's hooks run strictly before the session synchronization's. */
    function GetOrder(): (order: int)
      ensures order < HIBERNATE_SESSION_ORDER
    {
      SESSION_SYNCHRONIZATION_ORDER
    }
  }

  /**
   * One thread's view of the host transaction manager together with the static state of
   * the binding layer: the synchronization flags, the "txnSynch" slot, the synchronizations
   * registered for the current transaction, the id and time sources, and the trace of
   * listener callbacks dispatched so far.
   */
  class Coordinator {
    var active: bool              // isSynchronizationActive()
    var readOnly: bool            // isCurrentTransactionReadOnly()
    var slot: Context?            // the thread resource bound under "txnSynch"
    var registered: seq<Context>  // synchronizations registered for the current transaction
    var nextId: nat               // stands for the UUID generator
    var clock: nat                // stands for System.currentTimeMillis
    var trace: seq<Event>
    const behaviour: Behaviours

    /** A context whose listener set is duplicate-free and made of known listeners. */
    ghost predicate WellFormed(ctx: Context)
      reads ctx
    {
      NoDuplicates(ctx.listeners) && Elements(ctx.listeners) <= behaviour.Keys
    }

    ghost predicate Valid()
      reads this, slot
    {
      ClosedBehaviours(behaviour) && (slot != null ==> WellFormed(slot))
    }

    constructor (behaviour: Behaviours)
      requires ClosedBehaviours(behaviour)
      ensures Valid() && this.behaviour == behaviour
      ensures !active && !readOnly && slot == null && registered == []
      ensures nextId == 0 && clock == 0 && trace == []
    {
      this.behaviour := behaviour;
      active, readOnly, slot, registered := false, false, null, [];
      nextId, clock, trace := 0, 0, [];
    }

    /** The resources of the bound context; a context yet to be created has none. */
    function Store(): map<Key, Value>
      reads this, slot
    {
      if slot == null then map[] else slot.resources
    }

    /** The listeners of the bound context; a context yet to be created has none. */
    function Listeners(): seq<ListenerId>
      reads this, slot
    {
      if slot == null then [] else slot.listeners
    }

    /** The host manager's state and the id and time sources are as they were. */
    twostate predicate HostUnchanged()
      reads this
    {
      && active == old(active) && readOnly == old(readOnly)
      && registered == old(registered) && nextId == old(nextId) && clock == old(clock)
    }

    /**
     * ctx is what registerSynchronizations yields from the old state: the context already
     * bound, or else a new one with the next id and the current time, registered with the
     * host once and bound to the slot.
     */
    twostate predicate LazilyBound(new ctx: Context)
      reads this
    {
      && old(active)
      && slot == ctx
      && active == old(active) && readOnly == old(readOnly)
      && clock == old(clock) && trace == old(trace)
      && (if old(slot) != null then
            ctx == old(slot) && registered == old(registered) && nextId == old(nextId)
          else
            && fresh(ctx) && ctx.id == old(nextId) && ctx.startTime == old(clock)
            && registered == old(registered) + [ctx] && nextId == old(nextId) + 1)
    }

    ghost predicate NoCommitRegistrations(s: set<ListenerId>) {
      forall l :: l in s && l in behaviour ==> behaviour[l].registersOnCommit == []
    }

    ghost predicate NoCompletionRegistrations(s: set<ListenerId>) {
      forall l :: l in s && l in behaviour ==> behaviour[l].registersOnCompletion == []
    }

    /** Every listener that the beforeCommit of a listener in done binds is in ls. */
    ghost predicate Settled(done: set<ListenerId>, ls: seq<ListenerId>) {
      forall l, m :: l in done && l in behaviour && m in behaviour[l].registersOnCommit ==> m in Elements(ls)
    }

    // -------------------------------------------------------------------------
    // Lazy registration and the slot
    // -------------------------------------------------------------------------

    /** registerSynchronizations */
    method RegisterSynchronizations() returns (r: Result<Context>)
      requires Valid()
      modifies this
      ensures Valid()
      ensures !old(active) ==> r == Err(NoActiveTransaction) && unchanged(this)
      ensures old(active) ==> r.Ok? && LazilyBound(r.value)
      ensures old(active) ==> Store() == old(Store()) && Listeners() == old(Listeners())
    {
      if !active {
        return Err(NoActiveTransaction);
      }
      if slot != null {
        return Ok(slot);
      }
      var ctx := new Context(nextId, clock);
      nextId := nextId + 1;
      registered := registered + [ctx];
      slot := ctx;
      return Ok(ctx);
    }

    /** getTransactionId: absent outside a transaction, registers lazily inside one. */
    method GetTransactionId() returns (r: Option<nat>)
      requires Valid()
      modifies this
      ensures Valid()
      ensures r.None? <==> old(slot) == null && !old(active)
      ensures old(slot) != null ==> r == Some(old(slot).id)
      ensures old(slot) == null && old(active) ==> slot != null && LazilyBound(slot) && r == Some(slot.id)
      ensures old(slot) == null && old(active) ==> Store() == map[] && Listeners() == []
      ensures !(old(slot) == null && old(active)) ==> unchanged(this)
    {
      var synch := slot;
      if synch == null {
        if active {
          var s := RegisterSynchronizations();
          return Some(s.value.id);
        } else {
          return None;
        }
      } else {
        return Some(synch.id);
      }
    }

    /** getTransactionStartTime: -1 outside a transaction, registers lazily inside one. */
    method GetTransactionStartTime() returns (t: int)
      requires Valid()
      modifies this
      ensures Valid()
      ensures t == -1 <==> old(slot) == null && !old(active)
      ensures old(slot) != null ==> t == old(slot).startTime
      ensures old(slot) == null && old(active) ==> slot != null && LazilyBound(slot) && t == slot.startTime
      ensures old(slot) == null && old(active) ==> Store() == map[] && Listeners() == []
      ensures !(old(slot) == null && old(active)) ==> unchanged(this)
    {
      var synch := slot;
      if synch == null {
        if active {
          var s := RegisterSynchronizations();
          return s.value.startTime;
        } else {
          return -1;
        }
      } else {
        return synch.startTime;
      }
    }

    /** clearSynchronization: unbinds the slot if it is bound. */
    method ClearSynchronization()
      modifies this
      ensures slot == null
      ensures HostUnchanged() && trace == old(trace)
    {
      if slot != null {
        slot := null;
      }
    }

    /**
     * rebindSynchronization: binds ctx to the slot. The host refuses to bind over a
     * value that is already there: it overwrites the slot and then fails.
     */
    method RebindSynchronization(ctx: Context) returns (r: Outcome)
      requires Valid() && WellFormed(ctx)
      modifies this
      ensures Valid()
      ensures slot == ctx
      ensures r == (if old(slot) == null then Pass else Fail(AlreadyBound))
      ensures HostUnchanged() && trace == old(trace)
    {
      var previous := slot;
      slot := ctx;
      if previous != null {
        return Fail(AlreadyBound);
      }
      return Pass;
    }

    // -------------------------------------------------------------------------
    // The resource store
    // -------------------------------------------------------------------------

    /** getResource: the value bound under key in the current transaction, null if none. */
    method GetResource(key: Key) returns (r: Result<Value>)
      requires Valid()
      modifies this
      ensures Valid()
      ensures !old(active) ==> r == Err(NoActiveTransaction) && unchanged(this)
      ensures old(active) ==> slot != null && LazilyBound(slot)
      ensures old(active) ==> r == Ok(Lookup(old(Store()), key))
      ensures Store() == old(Store()) && Listeners() == old(Listeners())
    {
      var s := RegisterSynchronizations();
      if s.Err? {
        return Err(s.error);
      }
      return Ok(Lookup(s.value.resources, key));
    }

    /** bindResource: binds or overwrites key; no other key changes. */
    method BindResource(key: Key, v: Value) returns (r: Outcome)
      requires Valid()
      modifies this, slot
      ensures Valid()
      ensures !old(active) ==> r == Fail(NoActiveTransaction) && unchanged(this)
      ensures !old(active) ==> Store() == old(Store())
      ensures old(active) ==> r == Pass && slot != null && LazilyBound(slot)
      ensures old(active) ==> Store() == old(Store())[key := v]
      ensures Listeners() == old(Listeners())
    {
      var s := RegisterSynchronizations();
      if s.Err? {
        return Fail(s.error);
      }
      var ctx := s.value;
      ctx.resources := ctx.resources[key := v];
      return Pass;
    }

    /** unbindResource: removes key if bound; no other key changes. */
    method UnbindResource(key: Key) returns (r: Outcome)
      requires Valid()
      modifies this, slot
      ensures Valid()
      ensures !old(active) ==> r == Fail(NoActiveTransaction) && unchanged(this)
      ensures !old(active) ==> Store() == old(Store())
      ensures old(active) ==> r == Pass && slot != null && LazilyBound(slot)
      ensures old(active) ==> Store() == old(Store()) - {key}
      ensures Listeners() == old(Listeners())
    {
      var s := RegisterSynchronizations();
      if s.Err? {
        return Fail(s.error);
      }
      var ctx := s.value;
      ctx.resources := ctx.resources - {key};
      return Pass;
    }

    /** bindListener: adds l to the current transaction's listeners, once. */
    method BindListener(l: ListenerId) returns (r: Outcome)
      requires Valid() && l in behaviour
      modifies this, slot
      ensures Valid()
      ensures !old(active) ==> r == Fail(NoActiveTransaction) && unchanged(this)
      ensures !old(active) ==> Listeners() == old(Listeners())
      ensures old(active) ==> r == Pass && slot != null && LazilyBound(slot)
      ensures old(active) ==> Listeners() == Insert(old(Listeners()), l)
      ensures Store() == old(Store())
    {
      var s := RegisterSynchronizations();
      if s.Err? {
        return Fail(s.error);
      }
      var ctx := s.value;
      InsertSpec(ctx.listeners, l);
      var bound := ctx.AddListener(l);
      return Pass;
    }

    // -------------------------------------------------------------------------
    // Lifecycle hooks, called by the host manager on a registered context
    // -------------------------------------------------------------------------

    /** suspend: detaches the bound context; the context itself is left as it is. */
    method Suspend()
      modifies this
      ensures slot == null
      ensures HostUnchanged() && trace == old(trace)
    {
      ClearSynchronization();
    }

    /** resume: binds exactly the given context again. */
    method Resume(ctx: Context) returns (r: Outcome)
      requires Valid() && WellFormed(ctx)
      modifies this
      ensures Valid()
      ensures slot == ctx
      ensures r == (if old(slot) == null then Pass else Fail(AlreadyBound))
      ensures HostUnchanged() && trace == old(trace)
    {
      r := RebindSynchronization(ctx);
    }

    /** A listener's beforeCommit: it binds the listeners its behaviour names, in order. */
    method CallBeforeCommit(ctx: Context, l: ListenerId, readOnly: bool) returns (r: Outcome)
      requires Valid() && slot == ctx && l in behaviour
      modifies this, ctx
      ensures Valid() && slot == ctx && HostUnchanged()
      ensures trace == old(trace) + [BeforeCommitCalled(l, readOnly)]
      ensures r.Pass? <==> active || behaviour[l].registersOnCommit == []
      ensures r.Fail? ==> r.error == NoActiveTransaction
      ensures ctx.listeners == if r.Pass? then InsertAll(old(ctx.listeners), behaviour[l].registersOnCommit)
                               else old(ctx.listeners)
      ensures ctx.resources == old(ctx.resources)
    {
      trace := trace + [BeforeCommitCalled(l, readOnly)];
      var registers := behaviour[l].registersOnCommit;
      var i := 0;
      while i < |registers|
        invariant 0 <= i <= |registers|
        invariant Valid() && slot == ctx && HostUnchanged()
        invariant trace == old(trace) + [BeforeCommitCalled(l, readOnly)]
        invariant ctx.listeners == InsertAll(old(ctx.listeners), registers[..i])
        invariant ctx.resources == old(ctx.resources)
        invariant !active ==> i == 0
      {
        assert registers[i] in behaviour[l].registersOnCommit;
        var o := BindListener(registers[i]);
        if o.Fail? {
          return o;
        }
        assert registers[..i + 1][..i] == registers[..i];
        i := i + 1;
      }
      assert registers[..i] == registers;
      return Pass;
    }

    /**
     * doBeforeCommit(visited): one round calls beforeCommit on every pending listener
     * (registered and not yet visited), in an arbitrary order, marking each visited right
     * after its call; then the next round starts, until nothing is pending.
     */
    method DoBeforeCommit(ctx: Context, visited: set<ListenerId>, readOnly: bool)
      returns (r: Outcome, ghost calls: seq<ListenerId>)
      requires Valid() && WellFormed(ctx) && slot == ctx
      requires visited <= Elements(ctx.listeners)
      requires Settled(visited, ctx.listeners)
      modifies this, ctx
      decreases |behaviour.Keys - visited|
      ensures Valid() && WellFormed(ctx) && slot == ctx && HostUnchanged()
      ensures ctx.resources == old(ctx.resources)
      ensures old(ctx.listeners) <= ctx.listeners
      ensures old(trace) <= trace
      ensures r.Pass? <==> active || NoCommitRegistrations(Elements(old(ctx.listeners)) - visited)
      ensures r.Fail? ==> r.error == NoActiveTransaction
      ensures r.Pass? ==>
        && trace == old(trace) + BeforeCommitEvents(calls, readOnly)
        && NoDuplicates(calls)
        && Elements(calls) == Elements(ctx.listeners) - visited
        && Elements(ctx.listeners) == Closure(behaviour, Elements(old(ctx.listeners)))
        && |Elements(old(ctx.listeners)) - visited| <= |calls|
        && Elements(calls[..|Elements(old(ctx.listeners)) - visited|]) == Elements(old(ctx.listeners)) - visited
    {
      ghost var start := ctx.listeners;
      var pending := Elements(ctx.listeners) - visited;
      if pending == {} {
        SettledIsClosed(visited, start);
        ClosureLeast(behaviour, Elements(start), Elements(start));
        assert BeforeCommitEvents([], readOnly) == [];
        assert trace == old(trace) + [];
        return Pass, [];
      }
      var done;
      r, done, calls := CommitRound(ctx, visited, pending, readOnly);
      if r.Fail? {
        return;
      }
      DifferenceShrinks(behaviour.Keys, visited, done);
      ghost var middle, middleTrace := ctx.listeners, trace;
      assert !active ==> Elements(middle) - done == {};
      var more;
      ghost var moreCalls;
      more, moreCalls := DoBeforeCommit(ctx, done, readOnly);
      r := more;
      if r.Pass? {
        ClosureAbsorbs(behaviour, Elements(start), Elements(middle));
        BeforeCommitEventsAppend(calls, moreCalls, readOnly);
        TraceExtends(old(trace), middleTrace, trace,
          BeforeCommitEvents(calls, readOnly), BeforeCommitEvents(moreCalls, readOnly));
        NoDuplicatesAppend(calls, moreCalls);
        assert Elements(start) <= Elements(middle) <= Elements(ctx.listeners);
        RoundsCover(visited, pending, Elements(ctx.listeners));
        NoDuplicatesCardinality(calls);
        assert (calls + moreCalls)[..|calls|] == calls;
      }
      calls := calls + moreCalls;
    }

    /** When every registered listener has been visited, the listener set is closed. */
    lemma SettledIsClosed(visited: set<ListenerId>, ls: seq<ListenerId>)
      requires visited <= Elements(ls) && Elements(ls) - visited == {}
      requires Settled(visited, ls)
      ensures ClosedUnder(behaviour, Elements(ls))
    {
      forall l, m | l in Elements(ls) && l in behaviour && m in behaviour[l].registersOnCommit
        ensures m in Elements(ls)
      {
        assert l !in Elements(ls) - visited;
      }
    }

    /** One call of a round keeps the round's bookkeeping true. */
    lemma RoundStep(visited: set<ListenerId>, pending: set<ListenerId>, rest: set<ListenerId>,
                    done: set<ListenerId>, calls: seq<ListenerId>, l: ListenerId)
      requires l in rest && rest <= pending
      requires done == visited + (pending - rest)
      requires NoDuplicates(calls) && Elements(calls) == pending - rest
      ensures done + {l} == visited + (pending - (rest - {l}))
      ensures NoDuplicates(calls + [l]) && Elements(calls + [l]) == pending - (rest - {l})
    {
      assert l !in Elements(calls);
      NoDuplicatesAppend(calls, [l]);
      assert Elements([l]) == {l};
    }

    /** A listener's beforeCommit keeps the listener set settled and inside the closure. */
    lemma CallStep(done: set<ListenerId>, start: seq<ListenerId>, before: seq<ListenerId>,
                   after: seq<ListenerId>, l: ListenerId)
      requires ClosedBehaviours(behaviour) && Elements(start) <= behaviour.Keys
      requires l in behaviour
      requires NoDuplicates(before) && start <= before
      requires Elements(before) <= Closure(behaviour, Elements(start))
      requires done <= Elements(before) && l in Elements(before) && Settled(done, before)
      requires after == InsertAll(before, behaviour[l].registersOnCommit)
      ensures NoDuplicates(after) && start <= after
      ensures Elements(after) <= Closure(behaviour, Elements(start))
      ensures done + {l} <= Elements(after) && Settled(done + {l}, after)
    {
      var registers := behaviour[l].registersOnCommit;
      InsertAllSpec(before, registers);
      assert Elements(after) == Elements(before) + Elements(registers);
      var c := Closure(behaviour, Elements(start));
      assert Elements(registers) <= c by {
        forall m | m in Elements(registers)
          ensures m in c
        {
          assert l in c && m in behaviour[l].registersOnCommit;
        }
      }
      forall k, m | k in done + {l} && k in behaviour && m in behaviour[k].registersOnCommit
        ensures m in Elements(after)
      {
        if k == l {
          assert m in Elements(registers);
        } else {
          assert m in Elements(before);
        }
      }
    }

    /**
     * One round of doBeforeCommit: beforeCommit on each pending listener, chosen in an
     * arbitrary order (the HashSet's), each marked visited right after its call.
     */
    method CommitRound(ctx: Context, visited: set<ListenerId>, pending: set<ListenerId>, readOnly: bool)
      returns (r: Outcome, done: set<ListenerId>, ghost calls: seq<ListenerId>)
      requires Valid() && WellFormed(ctx) && slot == ctx
      requires visited <= Elements(ctx.listeners) && pending == Elements(ctx.listeners) - visited
      requires Settled(visited, ctx.listeners)
      modifies this, ctx
      ensures Valid() && WellFormed(ctx) && slot == ctx && HostUnchanged()
      ensures ctx.resources == old(ctx.resources)
      ensures old(ctx.listeners) <= ctx.listeners
      ensures old(trace) <= trace
      ensures r.Pass? <==> active || NoCommitRegistrations(pending)
      ensures r.Fail? ==> r.error == NoActiveTransaction
      ensures r.Pass? ==>
        && done == visited + pending
        && trace == old(trace) + BeforeCommitEvents(calls, readOnly)
        && NoDuplicates(calls) && Elements(calls) == pending
        && done <= Elements(ctx.listeners) && Settled(done, ctx.listeners)
        && Elements(ctx.listeners) <= Closure(behaviour, Elements(old(ctx.listeners)))
        && (!active ==> ctx.listeners == old(ctx.listeners))
    {
      ghost var start := ctx.listeners;
      done := visited;
      var rest := pending;
      calls := [];
      while rest != {}
        invariant rest <= pending
        invariant done == visited + (pending - rest)
        invariant NoDuplicates(calls) && Elements(calls) == pending - rest
        invariant trace == old(trace) + BeforeCommitEvents(calls, readOnly)
        invariant Valid() && WellFormed(ctx) && slot == ctx && HostUnchanged()
        invariant ctx.resources == old(ctx.resources)
        invariant start <= ctx.listeners
        invariant Elements(ctx.listeners) <= Closure(behaviour, Elements(start))
        invariant done <= Elements(ctx.listeners)
        invariant Settled(done, ctx.listeners)
        invariant !active ==> ctx.listeners == start && NoCommitRegistrations(pending - rest)
        decreases rest
      {
        var l :| l in rest;
        ghost var before, beforeTrace := ctx.listeners, trace;
        var o := CallBeforeCommit(ctx, l, readOnly);
        if o.Fail? {
          return o, done, calls + [l];
        }
        RoundStep(visited, pending, rest, done, calls, l);
        CallStep(done, start, before, ctx.listeners, l);
        done := done + {l};
        TraceExtends(old(trace), beforeTrace, trace, BeforeCommitEvents(calls, readOnly), [BeforeCommitCalled(l, readOnly)]);
        assert BeforeCommitEvents(calls + [l], readOnly)
            == BeforeCommitEvents(calls, readOnly) + [BeforeCommitCalled(l, readOnly)] by {
          assert (calls + [l])[..|calls|] == calls;
        }
        calls := calls + [l];
        rest := rest - {l};
      }
      return Pass, done, calls;
    }

    /** beforeCommit: fails when nothing is bound, else runs the fixed point from scratch. */
    method BeforeCommit(ctx: Context, readOnly: bool) returns (r: Outcome, ghost calls: seq<ListenerId>)
      requires Valid() && WellFormed(ctx)
      requires slot == null || slot == ctx
      modifies this, ctx
      ensures Valid() && WellFormed(ctx) && slot == old(slot) && HostUnchanged()
      ensures ctx.resources == old(ctx.resources)
      ensures old(ctx.listeners) <= ctx.listeners
      ensures old(trace) <= trace
      ensures old(slot) == null ==> r == Fail(NoSynchronizationBound) && unchanged(this, ctx)
      ensures r.Pass? <==> old(slot) != null && (active || NoCommitRegistrations(Elements(old(ctx.listeners))))
      ensures r.Fail? && old(slot) != null ==> r.error == NoActiveTransaction
      ensures r.Pass? ==>
        && trace == old(trace) + BeforeCommitEvents(calls, readOnly)
        && multiset(calls) == multiset(ctx.listeners)
        && Elements(ctx.listeners) == Closure(behaviour, Elements(old(ctx.listeners)))
        && |old(ctx.listeners)| <= |calls|
        && multiset(calls[..|old(ctx.listeners)|]) == multiset(old(ctx.listeners))
    {
      var synch := slot;
      if synch == null {
        return Fail(NoSynchronizationBound), [];
      }
      ghost var start := ctx.listeners;
      r, calls := DoBeforeCommit(ctx, {}, readOnly);
      if r.Pass? {
        PermutationOfSameElements(calls, ctx.listeners);
        NoDuplicatesCardinality(start);
        var n := |start|;
        assert NoDuplicates(calls[..n]);
        PermutationOfSameElements(calls[..n], start);
      }
    }

    /** A listener's beforeCompletion: it binds the listeners its behaviour names, in order. */
    method CallBeforeCompletion(l: ListenerId) returns (r: Outcome)
      requires Valid() && l in behaviour
      modifies this, slot
      ensures Valid()
      ensures active == old(active) && readOnly == old(readOnly) && clock == old(clock)
      ensures trace == old(trace) + [BeforeCompletionCalled(l)]
      ensures old(slot) != null ==> slot == old(slot) && HostUnchanged()
      ensures slot != old(slot) ==> slot != null && fresh(slot)
      ensures r.Pass? <==> active || behaviour[l].registersOnCompletion == []
      ensures r.Fail? ==> r.error == NoActiveTransaction
      ensures Listeners() == if r.Pass? then InsertAll(old(Listeners()), behaviour[l].registersOnCompletion)
                             else old(Listeners())
      ensures old(Listeners()) <= Listeners()
      ensures r.Pass? ==> Elements(Listeners()) == Elements(old(Listeners())) + Elements(behaviour[l].registersOnCompletion)
      ensures Store() == old(Store())
    {
      trace := trace + [BeforeCompletionCalled(l)];
      var registers := behaviour[l].registersOnCompletion;
      ghost var start := Listeners();
      InsertAllSpec(start, registers);
      var i := 0;
      while i < |registers|
        invariant 0 <= i <= |registers|
        invariant Valid()
        invariant active == old(active) && readOnly == old(readOnly) && clock == old(clock)
        invariant trace == old(trace) + [BeforeCompletionCalled(l)]
        invariant old(slot) != null ==> slot == old(slot) && HostUnchanged()
        invariant slot != old(slot) ==> slot != null && fresh(slot)
        invariant Listeners() == InsertAll(start, registers[..i])
        invariant Store() == old(Store())
        invariant !active ==> i == 0
      {
        assert registers[i] in behaviour[l].registersOnCompletion;
        var o := BindListener(registers[i]);
        if o.Fail? {
          return o;
        }
        assert registers[..i + 1][..i] == registers[..i];
        i := i + 1;
      }
      assert registers[..i] == registers;
      return Pass;
    }

    /**
     * beforeCompletion: calls each listener registered at entry once, in registration
     * order; listeners bound during the phase are recorded but not called.
     */
    method BeforeCompletion(ctx: Context) returns (r: Outcome)
      requires Valid() && WellFormed(ctx)
      modifies this, slot
      ensures Valid()
      ensures active == old(active) && readOnly == old(readOnly) && clock == old(clock)
      ensures old(slot) != null ==> slot == old(slot) && HostUnchanged()
      ensures old(trace) <= trace
      ensures r.Pass? <==> active || NoCompletionRegistrations(Elements(old(ctx.listeners)))
      ensures r.Fail? ==> r.error == NoActiveTransaction
      ensures r.Pass? ==> trace == old(trace) + BeforeCompletionEvents(old(ctx.listeners))
      ensures old(ctx.listeners) <= ctx.listeners
      ensures old(Listeners()) <= Listeners()
      ensures r.Pass? ==>
        Elements(Listeners())
          == Elements(old(Listeners())) + CompletionRegistrations(behaviour, Elements(old(ctx.listeners)))
    {
      var snapshot := ctx.listeners;
      ghost var start := Listeners();
      var i := 0;
      while i < |snapshot|
        invariant 0 <= i <= |snapshot|
        invariant Valid()
        invariant active == old(active) && readOnly == old(readOnly) && clock == old(clock)
        invariant old(slot) != null ==> slot == old(slot) && HostUnchanged()
        invariant slot != old(slot) ==> slot != null && fresh(slot)
        invariant CompletionProgress(snapshot, i, start, old(trace))
        invariant old(slot) != ctx ==> ctx.listeners == snapshot
      {
        r := BeforeCompletionStep(snapshot, i, start, old(trace));
        if r.Fail? {
          return;
        }
        i := i + 1;
      }
      assert snapshot[..i] == snapshot;
      return Pass;
    }

    /**
     * The pre-completion phase after its first i calls: their callbacks are recorded,
     * the listener set has grown by exactly what they bound, and without a transaction
     * none of them had anything to bind.
     */
    ghost predicate CompletionProgress(snapshot: seq<ListenerId>, i: nat, start: seq<ListenerId>, trace0: seq<Event>)
      requires i <= |snapshot|
      reads this, slot
    {
      && trace == trace0 + BeforeCompletionEvents(snapshot[..i])
      && start <= Listeners()
      && Elements(Listeners()) == Elements(start) + CompletionRegistrations(behaviour, Elements(snapshot[..i]))
      && (!active ==> NoCompletionRegistrations(Elements(snapshot[..i])))
    }

    /** The i-th call of the pre-completion phase. */
    method BeforeCompletionStep(snapshot: seq<ListenerId>, i: nat, ghost start: seq<ListenerId>, ghost trace0: seq<Event>)
      returns (r: Outcome)
      requires Valid() && i < |snapshot| && Elements(snapshot) <= behaviour.Keys
      requires CompletionProgress(snapshot, i, start, trace0)
      modifies this, slot
      ensures Valid()
      ensures active == old(active) && readOnly == old(readOnly) && clock == old(clock)
      ensures old(slot) != null ==> slot == old(slot) && HostUnchanged()
      ensures slot != old(slot) ==> slot != null && fresh(slot)
      ensures r.Pass? ==> CompletionProgress(snapshot, i + 1, start, trace0)
      ensures r.Fail? ==> r.error == NoActiveTransaction && !active
      ensures r.Fail? ==> !NoCompletionRegistrations(Elements(snapshot)) && trace0 <= trace
      ensures r.Fail? ==> start <= Listeners()
    {
      var l := snapshot[i];
      assert l in Elements(snapshot);
      r := CallBeforeCompletion(l);
      if r.Pass? {
        CompletionStep(behaviour, snapshot, i);
        TraceExtends(trace0, old(trace), trace, BeforeCompletionEvents(snapshot[..i]), [BeforeCompletionCalled(l)]);
      }
    }

    /** A listener's afterCommit; a RuntimeException it throws is caught by the caller. */
    method CallAfterCommit(l: ListenerId) returns (failed: bool)
      requires l in behaviour
      modifies this
      ensures failed == behaviour[l].afterCommitFails
      ensures trace == old(trace) + [AfterCommitCalled(l, failed)]
      ensures slot == old(slot) && HostUnchanged()
    {
      failed := behaviour[l].afterCommitFails;
      trace := trace + [AfterCommitCalled(l, failed)];
    }

    /** A listener's afterRollback; a RuntimeException it throws is caught by the caller. */
    method CallAfterRollback(l: ListenerId) returns (failed: bool)
      requires l in behaviour
      modifies this
      ensures failed == behaviour[l].afterRollbackFails
      ensures trace == old(trace) + [AfterRollbackCalled(l, failed)]
      ensures slot == old(slot) && HostUnchanged()
    {
      failed := behaviour[l].afterRollbackFails;
      trace := trace + [AfterRollbackCalled(l, failed)];
    }

    /**
     * afterCompletion: afterCommit on each listener when the status is committed, and
     * afterRollback on each otherwise, in registration order, each call isolated from the
     * failures of the others; finally the slot is cleared.
     */
    method AfterCompletion(ctx: Context, status: int)
      requires Valid() && WellFormed(ctx)
      modifies this
      ensures Valid() && slot == null && HostUnchanged()
      ensures trace == old(trace) + AfterCompletionEvents(behaviour, ctx.listeners, status == STATUS_COMMITTED)
    {
      var snapshot := ctx.listeners;
      var committed := status == STATUS_COMMITTED;
      var i := 0;
      while i < |snapshot|
        invariant 0 <= i <= |snapshot|
        invariant slot == old(slot) && HostUnchanged()
        invariant trace == old(trace) + AfterCompletionEvents(behaviour, snapshot[..i], committed)
      {
        var l := snapshot[i];
        assert l in Elements(snapshot);
        var failed;
        if committed {
          failed := CallAfterCommit(l);
        } else {
          failed := CallAfterRollback(l);
        }
        // a failure has been caught (and logged); the next listener is called regardless
        assert snapshot[..i + 1][..i] == snapshot[..i];
        i := i + 1;
      }
      assert snapshot[..i] == snapshot;
      ClearSynchronization();
    }

    // -------------------------------------------------------------------------
    // Stand-ins for the host transaction manager, used by the scenarios
    // -------------------------------------------------------------------------

    /** The host starts a transaction with synchronization. */
    method Begin(readOnly: bool)
      requires Valid() && !active
      modifies this
      ensures Valid() && active && this.readOnly == readOnly && registered == []
      ensures slot == old(slot) && nextId == old(nextId) && clock == old(clock) && trace == old(trace)
    {
      active, this.readOnly, registered := true, readOnly, [];
    }

    /** The host clears its synchronization state once a transaction has completed. */
    method End()
      requires Valid()
      modifies this
      ensures Valid() && !active && !readOnly && registered == []
      ensures slot == old(slot) && nextId == old(nextId) && clock == old(clock) && trace == old(trace)
    {
      active, readOnly, registered := false, false, [];
    }

    /** Time passes. */
    method Tick(t: nat)
      requires t >= clock
      modifies this
      ensures clock == t && slot == old(slot) && trace == old(trace)
      ensures active == old(active) && readOnly == old(readOnly)
      ensures registered == old(registered) && nextId == old(nextId)
    {
      clock := t;
    }

    /** The host suspends the current transaction: suspend on every registered context. */
    method SuspendTransaction() returns (saved: Suspended)
      requires Valid() && active
      modifies this
      ensures Valid() && !active && !readOnly && registered == []
      ensures saved == Suspended(old(readOnly), old(registered))
      ensures slot == if old(registered) == [] then old(slot) else null
      ensures nextId == old(nextId) && clock == old(clock) && trace == old(trace)
    {
      var i := 0;
      while i < |registered|
        invariant 0 <= i <= |registered|
        invariant slot == if i == 0 then old(slot) else null
        invariant HostUnchanged() && trace == old(trace)
      {
        Suspend();
        i := i + 1;
      }
      saved := Suspended(readOnly, registered);
      active, readOnly, registered := false, false, [];
    }

    /** The host resumes a suspended transaction: resume on every saved context. */
    method ResumeTransaction(saved: Suspended)
      requires Valid() && !active
      requires forall c :: c in saved.registered ==> WellFormed(c)
      modifies this
      ensures Valid() && active && readOnly == saved.readOnly && registered == saved.registered
      ensures slot == if saved.registered == [] then old(slot) else saved.registered[|saved.registered| - 1]
      ensures nextId == old(nextId) && clock == old(clock) && trace == old(trace)
    {
      active, readOnly, registered := true, saved.readOnly, saved.registered;
      var i := 0;
      while i < |registered|
        invariant 0 <= i <= |registered|
        invariant Valid()
        invariant slot == if i == 0 then old(slot) else registered[i - 1]
        invariant active && readOnly == saved.readOnly && registered == saved.registered
        invariant nextId == old(nextId) && clock == old(clock) && trace == old(trace)
      {
        var resumed := Resume(registered[i]);
        i := i + 1;
      }
    }
  }
}
