/**
 * Value-level specifications of the listener registry and its dispatcher: the
 * insertion-ordered set of listeners, the set of listeners the pre-commit fixed point
 * reaches, and the callback sequences each phase produces.
 */
module ListenerRegistry {
  import opened Types

  // ---------------------------------------------------------------------------
  // The insertion-ordered, duplicate-free listener set (a LinkedHashSet)
  // ---------------------------------------------------------------------------

  /** Adding a listener: a new one goes to the end, a present one changes nothing. */
  function Insert(s: seq<ListenerId>, l: ListenerId): seq<ListenerId> {
    if l in s then s else s + [l]
  }

  /** Adding the listeners of `ls` one after another, in that order. */
  function InsertAll(s: seq<ListenerId>, ls: seq<ListenerId>): seq<ListenerId>
    decreases |ls|
  {
    if ls == [] then s else Insert(InsertAll(s, ls[..|ls| - 1]), ls[|ls| - 1])
  }

  /** Adding keeps the set duplicate-free, keeps the order of what was there, and adds l. */
  lemma InsertSpec(s: seq<ListenerId>, l: ListenerId)
    requires NoDuplicates(s)
    ensures NoDuplicates(Insert(s, l))
    ensures s <= Insert(s, l)
    ensures Elements(Insert(s, l)) == Elements(s) + {l}
  {
  }

  lemma {:induction false} InsertAllSpec(s: seq<ListenerId>, ls: seq<ListenerId>)
    requires NoDuplicates(s)
    ensures NoDuplicates(InsertAll(s, ls))
    ensures s <= InsertAll(s, ls)
    ensures Elements(InsertAll(s, ls)) == Elements(s) + Elements(ls)
    decreases |ls|
  {
    if ls != [] {
      var init, last := ls[..|ls| - 1], ls[|ls| - 1];
      InsertAllSpec(s, init);
      InsertSpec(InsertAll(s, init), last);
      assert ls == init + [last];
      assert Elements(ls) == Elements(init) + {last};
    }
  }

  /** In a duplicate-free sequence every element occurs exactly once. */
  lemma {:induction false} NoDuplicatesMultiplicity<T>(s: seq<T>, x: T)
    requires NoDuplicates(s)
    ensures multiset(s)[x] == if x in s then 1 else 0
  {
    if s != [] {
      var init, last := s[..|s| - 1], s[|s| - 1];
      assert s == init + [last];
      assert NoDuplicates(init);
      NoDuplicatesMultiplicity(init, x);
      assert last !in init;
    }
  }

  lemma {:induction false} NoDuplicatesCardinality<T>(s: seq<T>)
    requires NoDuplicates(s)
    ensures |Elements(s)| == |s|
  {
    if s != [] {
      var init, last := s[..|s| - 1], s[|s| - 1];
      assert s == init + [last];
      assert NoDuplicates(init);
      NoDuplicatesCardinality(init);
      assert last !in Elements(init);
      assert Elements(s) == Elements(init) + {last};
    }
  }

  /** Joining two duplicate-free sequences over disjoint elements keeps them duplicate-free. */
  lemma NoDuplicatesAppend<T>(a: seq<T>, c: seq<T>)
    requires NoDuplicates(a) && NoDuplicates(c) && Elements(a) !! Elements(c)
    ensures NoDuplicates(a + c)
    ensures Elements(a + c) == Elements(a) + Elements(c)
  {
    forall i, j | 0 <= i < j < |a + c|
      ensures (a + c)[i] != (a + c)[j]
    {
      if i < |a| && |a| <= j {
        assert (a + c)[i] in Elements(a);
        assert (a + c)[j] == c[j - |a|] && c[j - |a|] in Elements(c);
      }
    }
  }

  /** A permutation of a duplicate-free listener sequence calls each of its listeners exactly once. */
  lemma CalledExactlyOnce(calls: seq<ListenerId>, ls: seq<ListenerId>, l: ListenerId)
    requires NoDuplicates(ls) && multiset(calls) == multiset(ls)
    ensures multiset(calls)[l] == if l in ls then 1 else 0
  {
    NoDuplicatesMultiplicity(ls, l);
  }

  /** Two duplicate-free sequences over the same elements are permutations of each other. */
  lemma PermutationOfSameElements<T>(a: seq<T>, b: seq<T>)
    requires NoDuplicates(a) && NoDuplicates(b) && Elements(a) == Elements(b)
    ensures multiset(a) == multiset(b)
  {
    forall x
      ensures multiset(a)[x] == multiset(b)[x]
    {
      NoDuplicatesMultiplicity(a, x);
      NoDuplicatesMultiplicity(b, x);
      assert x in a <==> x in Elements(a);
      assert x in b <==> x in Elements(b);
    }
  }

  // ---------------------------------------------------------------------------
  // The listeners the pre-commit fixed point reaches
  // ---------------------------------------------------------------------------

  /** Every listener a known listener binds is itself known. */
  ghost predicate ClosedBehaviours(b: Behaviours) {
    && (forall l, m :: l in b && m in b[l].registersOnCommit ==> m in b)
    && (forall l, m :: l in b && m in b[l].registersOnCompletion ==> m in b)
  }

  /** The listeners that the beforeCommit callbacks of the listeners in s bind. */
  function CommitRegistrations(b: Behaviours, s: set<ListenerId>): set<ListenerId> {
    set l, m | l in s && l in b && m in b[l].registersOnCommit :: m
  }

  /** The listeners that the beforeCompletion callbacks of the listeners in s bind. */
  function CompletionRegistrations(b: Behaviours, s: set<ListenerId>): set<ListenerId> {
    set l, m | l in s && l in b && m in b[l].registersOnCompletion :: m
  }

  /** One more caller contributes exactly its own beforeCompletion registrations. */
  lemma CompletionRegistrationsAdd(b: Behaviours, s: set<ListenerId>, l: ListenerId)
    requires l in b
    ensures CompletionRegistrations(b, s + {l})
         == CompletionRegistrations(b, s) + Elements(b[l].registersOnCompletion)
  {
    var lhs, rhs := CompletionRegistrations(b, s + {l}), CompletionRegistrations(b, s) + Elements(b[l].registersOnCompletion);
    forall m | m in lhs
      ensures m in rhs
    {
      var k :| k in s + {l} && k in b && m in b[k].registersOnCompletion;
    }
  }

  /**
   * The pre-completion phase's i-th call: its listener joins those called so far, and its
   * callback is appended to theirs.
   */
  lemma CompletionStep(b: Behaviours, snapshot: seq<ListenerId>, i: nat)
    requires i < |snapshot| && snapshot[i] in b
    ensures CompletionRegistrations(b, Elements(snapshot[..i + 1]))
         == CompletionRegistrations(b, Elements(snapshot[..i])) + Elements(b[snapshot[i]].registersOnCompletion)
    ensures BeforeCompletionEvents(snapshot[..i + 1])
         == BeforeCompletionEvents(snapshot[..i]) + [BeforeCompletionCalled(snapshot[i])]
  {
    assert Elements(snapshot[..i + 1]) == Elements(snapshot[..i]) + {snapshot[i]} by {
      assert snapshot[..i + 1] == snapshot[..i] + [snapshot[i]];
    }
    CompletionRegistrationsAdd(b, Elements(snapshot[..i]), snapshot[i]);
    assert snapshot[..i + 1][..i] == snapshot[..i];
  }

  /** No listener of s binds one outside s in its beforeCommit. */
  ghost predicate ClosedUnder(b: Behaviours, s: set<ListenerId>) {
    forall l, m :: l in s && l in b && m in b[l].registersOnCommit ==> m in s
  }

  lemma CommitRegistrationsKnown(b: Behaviours, s: set<ListenerId>)
    requires ClosedBehaviours(b)
    ensures CommitRegistrations(b, s) <= b.Keys
  {
  }

  lemma DifferenceShrinks<T>(k: set<T>, s: set<T>, t: set<T>)
    requires s < t <= k
    ensures |k - t| < |k - s|
  {
    assert !(t <= s);
    assert k - s == (k - t) + (t - s);
    assert (k - t) * (t - s) == {};
  }

  /** What one round visits plus what later rounds visit is everything not visited before. */
  lemma RoundsCover<T>(visited: set<T>, pending: set<T>, all: set<T>)
    requires pending <= all && visited !! pending
    ensures pending + (all - (visited + pending)) == all - visited
  {
  }

  /**
   * The least set that contains s and every listener bound by the beforeCommit of one of
   * its members: the listeners a pre-commit phase started with s ends with.
   */
  function Closure(b: Behaviours, s: set<ListenerId>): (r: set<ListenerId>)
    requires ClosedBehaviours(b) && s <= b.Keys
    ensures s <= r <= b.Keys
    ensures ClosedUnder(b, r)
    decreases |b.Keys - s|
  {
    CommitRegistrationsKnown(b, s);
    var t := s + CommitRegistrations(b, s);
    if t == s then s
    else
      DifferenceShrinks(b.Keys, s, t);
      Closure(b, t)
  }

  /** Closure(s) lies inside every closed superset of s. */
  lemma {:induction false} ClosureLeast(b: Behaviours, s: set<ListenerId>, u: set<ListenerId>)
    requires ClosedBehaviours(b) && s <= b.Keys
    requires s <= u && ClosedUnder(b, u)
    ensures Closure(b, s) <= u
    decreases |b.Keys - s|
  {
    CommitRegistrationsKnown(b, s);
    var t := s + CommitRegistrations(b, s);
    if t != s {
      assert t <= u;
      DifferenceShrinks(b.Keys, s, t);
      ClosureLeast(b, t, u);
    }
  }

  /** Starting from any set between s and Closure(s) reaches the same closure. */
  lemma ClosureAbsorbs(b: Behaviours, s: set<ListenerId>, u: set<ListenerId>)
    requires ClosedBehaviours(b) && s <= b.Keys
    requires s <= u <= Closure(b, s)
    ensures Closure(b, u) == Closure(b, s)
  {
    ClosureLeast(b, u, Closure(b, s));
    ClosureLeast(b, s, Closure(b, u));
  }

  // ---------------------------------------------------------------------------
  // The callbacks each phase dispatches
  // ---------------------------------------------------------------------------

  /** beforeCommit(readOnly) on each listener of ls, in the order of ls. */
  function BeforeCommitEvents(ls: seq<ListenerId>, readOnly: bool): seq<Event>
    decreases |ls|
  {
    if ls == [] then []
    else BeforeCommitEvents(ls[..|ls| - 1], readOnly) + [BeforeCommitCalled(ls[|ls| - 1], readOnly)]
  }

  /** The callbacks of two rounds are those of the first followed by those of the second. */
  lemma {:induction false} BeforeCommitEventsAppend(a: seq<ListenerId>, c: seq<ListenerId>, readOnly: bool)
    ensures BeforeCommitEvents(a + c, readOnly) == BeforeCommitEvents(a, readOnly) + BeforeCommitEvents(c, readOnly)
    decreases |c|
  {
    if c == [] {
      assert a + c == a;
    } else {
      var init, last := c[..|c| - 1], c[|c| - 1];
      assert (a + c)[..|a + c| - 1] == a + init;
      BeforeCommitEventsAppend(a, init, readOnly);
    }
  }

  /** Events recorded in two steps are the first step's followed by the second's. */
  lemma TraceExtends(t0: seq<Event>, t1: seq<Event>, t2: seq<Event>, a: seq<Event>, c: seq<Event>)
    requires t1 == t0 + a && t2 == t1 + c
    ensures t2 == t0 + (a + c)
  {
  }

  /** beforeCompletion() on each listener of ls, in the order of ls. */
  function BeforeCompletionEvents(ls: seq<ListenerId>): seq<Event>
    decreases |ls|
  {
    if ls == [] then []
    else BeforeCompletionEvents(ls[..|ls| - 1]) + [BeforeCompletionCalled(ls[|ls| - 1])]
  }

  /** afterCommit() when committed, afterRollback() otherwise, with whether it threw. */
  function AfterCompletionEvent(b: Behaviours, l: ListenerId, committed: bool): Event
    requires l in b
  {
    if committed then AfterCommitCalled(l, b[l].afterCommitFails)
    else AfterRollbackCalled(l, b[l].afterRollbackFails)
  }

  /** The after-completion callback of each listener of ls, in the order of ls. */
  function AfterCompletionEvents(b: Behaviours, ls: seq<ListenerId>, committed: bool): seq<Event>
    requires Elements(ls) <= b.Keys
    decreases |ls|
  {
    if ls == [] then []
    else
      var init := ls[..|ls| - 1];
      assert Elements(init) <= Elements(ls);
      AfterCompletionEvents(b, init, committed) + [AfterCompletionEvent(b, ls[|ls| - 1], committed)]
  }

  /** The i-th pre-commit callback goes to the i-th listener, and there is one per listener. */
  lemma {:induction false} BeforeCommitEventsAt(ls: seq<ListenerId>, readOnly: bool, i: nat)
    requires i < |ls|
    ensures |BeforeCommitEvents(ls, readOnly)| == |ls|
    ensures BeforeCommitEvents(ls, readOnly)[i] == BeforeCommitCalled(ls[i], readOnly)
    decreases |ls|
  {
    var init := ls[..|ls| - 1];
    if i < |init| {
      BeforeCommitEventsAt(init, readOnly, i);
    } else if init != [] {
      BeforeCommitEventsAt(init, readOnly, 0);
    }
  }

  /** The i-th pre-completion callback goes to the i-th listener of the snapshot. */
  lemma {:induction false} BeforeCompletionEventsAt(ls: seq<ListenerId>, i: nat)
    requires i < |ls|
    ensures |BeforeCompletionEvents(ls)| == |ls|
    ensures BeforeCompletionEvents(ls)[i] == BeforeCompletionCalled(ls[i])
    decreases |ls|
  {
    var init := ls[..|ls| - 1];
    if i < |init| {
      BeforeCompletionEventsAt(init, i);
    } else if init != [] {
      BeforeCompletionEventsAt(init, 0);
    }
  }

  /**
   * After completion, the i-th callback is the i-th snapshot listener's afterCommit when
   * committed and its afterRollback otherwise, whatever earlier listeners threw: a failing
   * listener never stops the later ones, and a commit never produces an afterRollback.
   */
  lemma {:induction false} AfterCompletionEventsAt(b: Behaviours, ls: seq<ListenerId>, committed: bool, i: nat)
    requires Elements(ls) <= b.Keys && i < |ls|
    ensures |AfterCompletionEvents(b, ls, committed)| == |ls|
    ensures AfterCompletionEvents(b, ls, committed)[i] == AfterCompletionEvent(b, ls[i], committed)
    ensures committed <==> AfterCompletionEvents(b, ls, committed)[i].AfterCommitCalled?
    decreases |ls|
  {
    var init := ls[..|ls| - 1];
    assert Elements(init) <= Elements(ls);
    if i < |init| {
      AfterCompletionEventsAt(b, init, committed, i);
    } else if init != [] {
      AfterCompletionEventsAt(b, init, committed, 0);
    }
  }
}
