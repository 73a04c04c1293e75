/**
 * Client runs of the binding layer against the host stand-ins, one per behaviour the
 * library's own tests exercise, each with the outcome those tests expect.
 */
module Scenarios {
  import opened Types
  import opened ReadState
  import opened ListenerRegistry
  import opened Binding
  import opened ResourceHelper

  /** A listener that binds nothing and never throws. */
  const Quiet: Behaviour := Behaviour([], [], false, false)

  /** A listener set that grew by nothing it did not already hold is unchanged. */
  lemma PrefixSameElements(a: seq<ListenerId>, b: seq<ListenerId>)
    requires a <= b && NoDuplicates(b) && Elements(a) == Elements(b)
    ensures a == b
  {
    assert NoDuplicates(a) by {
      forall i, j | 0 <= i < j < |a|
        ensures a[i] != a[j]
      {
        assert a[i] == b[i] && a[j] == b[j];
      }
    }
    NoDuplicatesCardinality(a);
    NoDuplicatesCardinality(b);
  }

  /** Listeners that bind nothing before completion leave the listener set as it was. */
  lemma NothingBoundBeforeCompletion(b: Behaviours, s: set<ListenerId>)
    requires forall l :: l in s && l in b ==> b[l].registersOnCompletion == []
    ensures CompletionRegistrations(b, s) == {}
  {
  }

  /** The only permutation of a one-element sequence is itself. */
  lemma SingletonPermutation(calls: seq<ListenerId>, l: ListenerId)
    requires multiset(calls) == multiset([l])
    ensures calls == [l]
  {
    assert |calls| == |multiset(calls)| == 1;
    assert calls[0] in multiset(calls);
  }

  /** Outside a transaction there is no id and no start time, and the store is refused. */
  method OutsideTransaction() returns (id: Option<nat>, start: int, state: TxnReadState,
                                       got: Result<Value>, listened: Outcome)
    ensures id == None && start == -1 && state == TxnNone
    ensures got == Err(NoActiveTransaction) && listened == Fail(NoActiveTransaction)
  {
    var c := new Coordinator(map[1 := Quiet]);
    id := c.GetTransactionId();
    start := c.GetTransactionStartTime();
    state := GetTransactionReadState(c.active, c.readOnly);
    got := c.GetResource("key");
    listened := c.BindListener(1);
  }

  /** The host begins a transaction at time t, and the client asks for its id and start time. */
  method BeginAndIdentify(c: Coordinator, t: nat) returns (id: Option<nat>, start: int, ctx: Context)
    requires c.Valid() && !c.active && c.slot == null && c.clock <= t
    modifies c
    ensures c.Valid() && c.active && c.slot == ctx && fresh(ctx) && ctx.listeners == []
    ensures id == Some(ctx.id) && ctx.id == old(c.nextId) && c.nextId == old(c.nextId) + 1
    ensures start == t && ctx.startTime == t && c.clock == t && c.registered == [ctx]
  {
    c.Tick(t);
    c.Begin(false);
    id := c.GetTransactionId();
    start := c.GetTransactionStartTime();
    ctx := c.slot;
  }

  /** The host rolls back a transaction whose one context has no listeners. */
  method RollBackEmpty(c: Coordinator, ctx: Context)
    requires c.Valid() && c.active && c.slot == ctx && ctx.listeners == []
    modifies c, ctx
    ensures c.Valid() && !c.active && c.slot == null && c.registered == []
    ensures c.nextId == old(c.nextId) && c.clock == old(c.clock)
  {
    var r := c.BeforeCompletion(ctx);
    c.AfterCompletion(ctx, STATUS_ROLLED_BACK);
    c.End();
  }

  /**
   * A transaction that starts a nested one (propagation "requires new"): both have ids,
   * the ids differ, the outer id is stable and comes back once the inner transaction is
   * over, the inner one starts no earlier, and a later transaction gets a fresh id.
   */
  method NestedTransactionIds()
    returns (outer: Option<nat>, outerAgain: Option<nat>, outerStart: int, outerStartAgain: int,
             inner: Option<nat>, innerStart: int,
             restored: Option<nat>, afterwards: Option<nat>, next: Option<nat>, last: Option<nat>)
    ensures outer.Some? && outerAgain == outer && outerStart > 0 && outerStartAgain == outerStart
    ensures inner.Some? && inner != outer && outerStart <= innerStart
    ensures restored == outer && afterwards == None
    ensures next.Some? && next != outer && next != inner && last == None
  {
    var c := new Coordinator(map[]);
    var outerCtx, innerCtx, nextCtx;
    outer, outerStart, outerCtx := BeginAndIdentify(c, 1000);
    outerAgain := c.GetTransactionId();
    outerStartAgain := c.GetTransactionStartTime();

    // the host suspends the outer transaction for the inner one, which rolls back
    var saved := c.SuspendTransaction();
    inner, innerStart, innerCtx := BeginAndIdentify(c, 1001);
    RollBackEmpty(c, innerCtx);
    c.ResumeTransaction(saved);
    restored := c.GetTransactionId();

    // the outer transaction rolls back
    RollBackEmpty(c, outerCtx);
    afterwards := c.GetTransactionId();

    var nextStart;
    next, nextStart, nextCtx := BeginAndIdentify(c, 1002);
    RollBackEmpty(c, nextCtx);
    last := c.GetTransactionId();
  }

  /** The host begins a transaction and the client binds one listener. */
  method BeginAndBind(c: Coordinator, l: ListenerId) returns (ctx: Context)
    requires c.Valid() && !c.active && c.slot == null && l in c.behaviour
    modifies c
    ensures c.Valid() && c.active && !c.readOnly && c.slot == ctx && ctx.listeners == [l]
    ensures fresh(ctx) && c.trace == old(c.trace)
  {
    c.Begin(false);
    var bound := c.BindListener(l);
    ctx := c.slot;
  }

  /** The pre-commit phase of a transaction whose one listener binds nothing. */
  method PreCommitQuiet(c: Coordinator, ctx: Context, l: ListenerId)
    requires c.Valid() && c.active && !c.readOnly && c.slot == ctx && ctx.listeners == [l]
    requires l in c.behaviour && c.behaviour[l] == Quiet
    modifies c, ctx
    ensures c.Valid() && c.active && c.slot == ctx && ctx.listeners == [l]
    ensures c.trace == old(c.trace) + [BeforeCommitCalled(l, false)]
  {
    var r;
    ghost var calls;
    r, calls := c.BeforeCommit(ctx, c.readOnly);
    ClosureLeast(c.behaviour, {l}, {l});
    PrefixSameElements([l], ctx.listeners);
    SingletonPermutation(calls, l);
  }

  /** The completion phases of a transaction whose one listener binds nothing. */
  method CompleteQuiet(c: Coordinator, ctx: Context, l: ListenerId, status: int)
    requires c.Valid() && c.active && c.slot == ctx && ctx.listeners == [l]
    requires l in c.behaviour && c.behaviour[l] == Quiet
    modifies c, ctx
    ensures c.Valid() && !c.active && c.slot == null
    ensures c.trace == old(c.trace) + [BeforeCompletionCalled(l),
      if status == STATUS_COMMITTED then AfterCommitCalled(l, false) else AfterRollbackCalled(l, false)]
  {
    var r := c.BeforeCompletion(ctx);
    NothingBoundBeforeCompletion(c.behaviour, {l});
    PrefixSameElements([l], ctx.listeners);
    c.AfterCompletion(ctx, status);
    c.End();
  }

  /**
   * One listener through a committing and then a rolling-back transaction: three callbacks
   * on commit, two on rollback, afterRollback never on commit and vice versa.
   */
  method ListenerCallbacks() returns (committed: seq<Event>, rolledBack: seq<Event>)
    ensures committed == [BeforeCommitCalled(7, false), BeforeCompletionCalled(7), AfterCommitCalled(7, false)]
    ensures rolledBack == [BeforeCompletionCalled(7), AfterRollbackCalled(7, false)]
  {
    var c := new Coordinator(map[7 := Quiet]);

    // a transaction that commits
    var ctx := BeginAndBind(c, 7);
    PreCommitQuiet(c, ctx, 7);
    CompleteQuiet(c, ctx, 7, STATUS_COMMITTED);
    committed := c.trace;

    // a transaction that rolls back
    ctx := BeginAndBind(c, 7);
    CompleteQuiet(c, ctx, 7, STATUS_ROLLED_BACK);
    rolledBack := c.trace[|committed|..];
  }

  /** Where the third of three distinct listeners must stand in an order of the three. */
  lemma LastOfThree(calls: seq<ListenerId>, x: ListenerId, y: ListenerId, z: ListenerId)
    requires x != z && y != z && |calls| >= 2
    requires multiset(calls) == multiset([x, y, z])
    requires multiset(calls[..2]) == multiset([x, y])
    ensures |calls| == 3 && calls[2] == z
    ensures {calls[0], calls[1]} == {x, y}
  {
    assert |calls| == |multiset(calls)| == 3;
    assert calls == calls[..2] + calls[2..];
    assert multiset(calls[2..]) == multiset{z};
    assert calls[2] in multiset(calls[2..]);
    assert calls[0] in multiset(calls[..2]) && calls[1] in multiset(calls[..2]);
    assert x in multiset(calls[..2]) && y in multiset(calls[..2]);
  }

  /** Listener 100 binds 300 before commit; 200 and 300 bind nothing. */
  function ChainBehaviours(): Behaviours {
    map[100 := Behaviour([300], [], false, false), 200 := Quiet, 300 := Quiet]
  }

  /** From 200 and 100, the pre-commit fixed point adds 300 and nothing else. */
  lemma ChainClosure()
    ensures Closure(ChainBehaviours(), {200, 100}) == {100, 200, 300}
  {
    var b := ChainBehaviours();
    assert ClosedUnder(b, {100, 200, 300});
    ClosureLeast(b, {200, 100}, {100, 200, 300});
    assert 300 in Closure(b, {200, 100}) by {
      assert 100 in Closure(b, {200, 100}) && 300 in b[100].registersOnCommit;
    }
  }

  /** Distinct listeners 200, 100 and 300, with 200 and 100 first: 300 is the third. */
  lemma ChainOrder(all: seq<ListenerId>)
    requires [200, 100] <= all && NoDuplicates(all) && Elements(all) == {100, 200, 300}
    ensures all == [200, 100, 300]
  {
    NoDuplicatesCardinality(all);
    assert |all| == 3 by {
      assert |{100, 200, 300}| == 3;
    }
    assert all[2] in Elements(all);
    assert all[2] != all[0] && all[2] != all[1];
  }

  /** From the pre-commit phase's contract: the fixed point is 200, 100, then 300. */
  lemma ChainFixedPoint(all: seq<ListenerId>, calls: seq<ListenerId>)
    requires [200, 100] <= all && NoDuplicates(all)
    requires Elements(all) == Closure(ChainBehaviours(), {200, 100})
    requires |calls| >= 2 && multiset(calls) == multiset(all) && multiset(calls[..2]) == multiset([200, 100])
    ensures all == [200, 100, 300]
    ensures |calls| == 3 && calls[2] == 300 && {calls[0], calls[1]} == {200, 100}
  {
    ChainClosure();
    ChainOrder(all);
    LastOfThree(calls, 200, 100, 300);
  }

  /** The completion callbacks of 200, 100 and 300 after a commit. */
  lemma ChainCompletionEvents()
    ensures BeforeCompletionEvents([200, 100, 300])
         == [BeforeCompletionCalled(200), BeforeCompletionCalled(100), BeforeCompletionCalled(300)]
    ensures AfterCompletionEvents(ChainBehaviours(), [200, 100, 300], true)
         == [AfterCommitCalled(200, false), AfterCommitCalled(100, false), AfterCommitCalled(300, false)]
  {
    var b := ChainBehaviours();
    var one: seq<ListenerId>, two: seq<ListenerId>, three: seq<ListenerId> := [200], [200, 100], [200, 100, 300];
    assert one[..0] == [] && two[..1] == one && three[..2] == two;
    assert BeforeCompletionEvents(one) == [BeforeCompletionCalled(200)];
    assert BeforeCompletionEvents(two) == BeforeCompletionEvents(one) + [BeforeCompletionCalled(100)];
    assert BeforeCompletionEvents(three) == BeforeCompletionEvents(two) + [BeforeCompletionCalled(300)];
    assert AfterCompletionEvents(b, one, true) == [AfterCommitCalled(200, false)];
    assert AfterCompletionEvents(b, two, true) == AfterCompletionEvents(b, one, true) + [AfterCommitCalled(100, false)];
    assert AfterCompletionEvents(b, three, true) == AfterCompletionEvents(b, two, true) + [AfterCommitCalled(300, false)];
  }

  /** The host begins a transaction and the client binds 200 and then 100. */
  method BeginAndBindChain(c: Coordinator) returns (ctx: Context)
    requires c.Valid() && c.behaviour == ChainBehaviours() && !c.active && c.slot == null
    modifies c
    ensures c.Valid() && c.active && !c.readOnly && c.slot == ctx && ctx.listeners == [200, 100]
    ensures fresh(ctx) && c.trace == old(c.trace)
  {
    c.Begin(false);
    var bound := c.BindListener(200);
    bound := c.BindListener(100);
    ctx := c.slot;
  }

  /** The pre-commit phase: two rounds, the second for the listener the first one bound. */
  method PreCommitChain(c: Coordinator, ctx: Context)
    requires c.Valid() && c.behaviour == ChainBehaviours() && c.active && !c.readOnly
    requires c.slot == ctx && ctx.listeners == [200, 100]
    modifies c, ctx
    ensures c.Valid() && c.active && c.slot == ctx && ctx.listeners == [200, 100, 300]
    ensures |c.trace| == |old(c.trace)| + 3 && c.trace[..|old(c.trace)|] == old(c.trace)
    ensures c.trace[|old(c.trace)| + 2] == BeforeCommitCalled(300, false)
    ensures {c.trace[|old(c.trace)|], c.trace[|old(c.trace)| + 1]}
         == {BeforeCommitCalled(200, false), BeforeCommitCalled(100, false)}
  {
    var r;
    ghost var calls;
    r, calls := c.BeforeCommit(ctx, c.readOnly);
    ChainFixedPoint(ctx.listeners, calls);
    BeforeCommitEventsAt(calls, false, 0);
    BeforeCommitEventsAt(calls, false, 1);
    BeforeCommitEventsAt(calls, false, 2);
  }

  /** The completion phases after a commit: every one of the three gets afterCommit. */
  method CommitChain(c: Coordinator, ctx: Context)
    requires c.Valid() && c.behaviour == ChainBehaviours() && c.active
    requires c.slot == ctx && ctx.listeners == [200, 100, 300]
    modifies c, ctx
    ensures c.Valid() && !c.active && c.slot == null
    ensures c.trace == old(c.trace)
      + [BeforeCompletionCalled(200), BeforeCompletionCalled(100), BeforeCompletionCalled(300)]
      + [AfterCommitCalled(200, false), AfterCommitCalled(100, false), AfterCommitCalled(300, false)]
  {
    var r := c.BeforeCompletion(ctx);
    NothingBoundBeforeCompletion(c.behaviour, {200, 100, 300});
    PrefixSameElements([200, 100, 300], ctx.listeners);
    ChainCompletionEvents();
    c.AfterCompletion(ctx, STATUS_COMMITTED);
    c.End();
  }

  /**
   * A listener whose beforeCommit binds another listener: listeners 200 and 100 are bound,
   * and 100's beforeCommit binds 300. The first round calls 200 and 100 (in either order),
   * a second round calls 300, and every one of the three then gets afterCommit.
   */
  method PreCommitListenerBinding() returns (preCommit: seq<Event>, postCommit: seq<Event>)
    ensures |preCommit| == 3 && preCommit[2] == BeforeCommitCalled(300, false)
    ensures {preCommit[0], preCommit[1]} == {BeforeCommitCalled(200, false), BeforeCommitCalled(100, false)}
    ensures postCommit == [AfterCommitCalled(200, false), AfterCommitCalled(100, false), AfterCommitCalled(300, false)]
  {
    var c := new Coordinator(ChainBehaviours());
    var ctx := BeginAndBindChain(c);
    PreCommitChain(c, ctx);
    preCommit := c.trace;
    CommitChain(c, ctx);
    postCommit := c.trace[6..];
  }

  /** The classes a helper that creates a kind accepts: getSet takes any Set. */
  function Accepted(kind: CollectionKind): set<CollectionKind> {
    if kind == HashSetKind then {HashSetKind, TreeSetKind} else {kind}
  }

  /** The helper that creates collections of the given kind. */
  method CallHelper(c: Coordinator, key: Key, kind: CollectionKind) returns (r: Result<Collection>)
    requires c.Valid()
    modifies c, c.slot
    ensures c.Valid() && GotOrCreated(c, key, kind, Accepted(kind), r)
  {
    match kind
    case HashMapKind => r := GetMap(c, key);
    case HashSetKind => r := GetSet(c, key);
    case TreeSetKind => r := GetTreeSet(c, key);
    case ArrayListKind => r := GetList(c, key);
  }

  /** A helper called twice on a fresh key: it creates once, then returns the same object. */
  method HelperTwice(c: Coordinator, key: Key, kind: CollectionKind)
    returns (first: Result<Collection>, second: Result<Collection>)
    requires c.Valid() && c.active && Lookup(c.Store(), key) == Null
    modifies c, c.slot
    ensures c.Valid() && c.active
    ensures first.Ok? && second == first && first.value.kind == kind && fresh(first.value)
    ensures c.Store() == old(c.Store())[key := Coll(first.value)]
  {
    first := CallHelper(c, key, kind);
    second := CallHelper(c, key, kind);
  }

  /**
   * Each collection helper creates its collection once: a second call with the same key
   * returns the very same object; a helper of another class on that key fails the cast,
   * and getSet accepts the TreeSet that getTreeSet bound.
   */
  method HelpersReturnTheBoundCollection()
    returns (m1: Result<Collection>, m2: Result<Collection>, l1: Result<Collection>, l2: Result<Collection>,
             s1: Result<Collection>, s2: Result<Collection>, t1: Result<Collection>, t2: Result<Collection>,
             asSet: Result<Collection>, clash: Result<Collection>)
    ensures m1.Ok? && m2 == m1 && m1.value.kind == HashMapKind
    ensures l1.Ok? && l2 == l1 && l1.value.kind == ArrayListKind
    ensures s1.Ok? && s2 == s1 && s1.value.kind == HashSetKind
    ensures t1.Ok? && t2 == t1 && t1.value.kind == TreeSetKind
    ensures asSet == t1
    ensures clash == Err(ClassCast)
  {
    var c := new Coordinator(map[]);
    c.Begin(false);
    m1, m2 := HelperTwice(c, "map", HashMapKind);
    l1, l2 := HelperTwice(c, "list", ArrayListKind);
    s1, s2 := HelperTwice(c, "set", HashSetKind);
    t1, t2 := HelperTwice(c, "tree", TreeSetKind);
    asSet := GetSet(c, "tree");
    clash := GetList(c, "map");
  }

  /**
   * The flag helpers in one transaction: the first setBoolean sets the flag, the second
   * reports it set; resetBoolean as written leaves it set, while the intended reset
   * clears it.
   */
  method FlagHelpers()
    returns (first: Result<bool>, second: Result<bool>, isSet: Result<bool>,
             afterResetAsWritten: Result<bool>, afterReset: Result<bool>)
    ensures first == Ok(true) && second == Ok(false) && isSet == Ok(true)
    ensures afterResetAsWritten == Ok(true)
    ensures afterReset == Ok(false)
  {
    var c := new Coordinator(map[]);
    c.Begin(false);
    first := SetBoolean(c, "flag");
    second := SetBoolean(c, "flag");
    isSet := TestBoolean(c, "flag");
    var o := ResetBooleanAsWritten(c, "flag");
    afterResetAsWritten := TestBoolean(c, "flag");
    o := ResetBoolean(c, "flag");
    afterReset := TestBoolean(c, "flag");
  }
}
