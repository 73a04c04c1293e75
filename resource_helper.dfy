/**
 * The "look up or create and bind" helpers over the transaction's resource store, and the
 * boolean flag helpers. Every helper reaches the store through getResource, so each one
 * needs an active transaction and registers the context lazily, and each one checks the
 * class of the value it finds the way the generic cast at its call site does.
 */
module ResourceHelper {
  import opened Types
  import opened Binding

  // ---------------------------------------------------------------------------
  // Collections
  // ---------------------------------------------------------------------------

  /** The value passes the cast to the helper's declared type. */
  predicate IsA(v: Value, accepts: set<CollectionKind>) {
    v.Coll? && v.c.kind in accepts
  }

  /**
   * The contract every collection helper keeps: with no transaction, nothing changes and
   * the call fails; otherwise the context is bound lazily, and the value found under key
   * decides the rest. Null results in a new collection of class kind being bound and
   * returned, a value of an accepted class results in that same object being returned,
   * and anything else fails the cast. No other key and no listener changes.
   */
  twostate predicate GotOrCreated(c: Coordinator, key: Key, kind: CollectionKind,
                                  accepts: set<CollectionKind>, new r: Result<Collection>)
    reads c, c.slot
  {
    var v := Lookup(old(c.Store()), key);
    && c.Listeners() == old(c.Listeners())
    && (!old(c.active) ==> r == Err(NoActiveTransaction) && unchanged(c) && c.Store() == old(c.Store()))
    && (old(c.active) ==> c.slot != null && c.LazilyBound(c.slot))
    && (old(c.active) && v == Null ==>
          r.Ok? && fresh(r.value) && r.value.kind == kind && c.Store() == old(c.Store())[key := Coll(r.value)])
    && (old(c.active) && IsA(v, accepts) ==> r == Ok(v.c) && c.Store() == old(c.Store()))
    && (old(c.active) && v != Null && !IsA(v, accepts) ==> r == Err(ClassCast) && c.Store() == old(c.Store()))
  }

  /** The body the four collection helpers share. */
  method GetOrCreate(c: Coordinator, key: Key, kind: CollectionKind, accepts: set<CollectionKind>)
    returns (r: Result<Collection>)
    requires c.Valid() && kind in accepts
    modifies c, c.slot
    ensures c.Valid()
    ensures GotOrCreated(c, key, kind, accepts, r)
  {
    var got := c.GetResource(key);
    if got.Err? {
      return Err(got.error);
    }
    var v := got.value;
    if v == Null {
      var created := new Collection(kind);
      var bound := c.BindResource(key, Coll(created));
      return Ok(created);
    } else if IsA(v, accepts) {
      return Ok(v.c);
    } else {
      return Err(ClassCast);
    }
  }

  /** getMap: a previously bound map, or else a newly bound HashMap. */
  method GetMap(c: Coordinator, key: Key) returns (r: Result<Collection>)
    requires c.Valid()
    modifies c, c.slot
    ensures c.Valid()
    ensures GotOrCreated(c, key, HashMapKind, {HashMapKind}, r)
  {
    r := GetOrCreate(c, key, HashMapKind, {HashMapKind});
  }

  /** getSet: a previously bound set (a TreeSet is a Set too), or else a newly bound HashSet. */
  method GetSet(c: Coordinator, key: Key) returns (r: Result<Collection>)
    requires c.Valid()
    modifies c, c.slot
    ensures c.Valid()
    ensures GotOrCreated(c, key, HashSetKind, {HashSetKind, TreeSetKind}, r)
  {
    r := GetOrCreate(c, key, HashSetKind, {HashSetKind, TreeSetKind});
  }

  /** getTreeSet: a previously bound TreeSet, or else a newly bound TreeSet. */
  method GetTreeSet(c: Coordinator, key: Key) returns (r: Result<Collection>)
    requires c.Valid()
    modifies c, c.slot
    ensures c.Valid()
    ensures GotOrCreated(c, key, TreeSetKind, {TreeSetKind}, r)
  {
    r := GetOrCreate(c, key, TreeSetKind, {TreeSetKind});
  }

  /** getList: a previously bound list, or else a newly bound ArrayList. */
  method GetList(c: Coordinator, key: Key) returns (r: Result<Collection>)
    requires c.Valid()
    modifies c, c.slot
    ensures c.Valid()
    ensures GotOrCreated(c, key, ArrayListKind, {ArrayListKind}, r)
  {
    r := GetOrCreate(c, key, ArrayListKind, {ArrayListKind});
  }

  // ---------------------------------------------------------------------------
  // Boolean flags: the meaning of each helper as a function of the store
  // ---------------------------------------------------------------------------

  /** testBoolean's answer: whether any Boolean is bound under key. */
  function TestFlag(m: map<Key, Value>, key: Key): (r: Result<bool>)
    ensures r == Ok(true) <==> Lookup(m, key).Bool?
    ensures r == Ok(false) <==> Lookup(m, key) == Null
    ensures r == Err(ClassCast) <==> !(Lookup(m, key) == Null || Lookup(m, key).Bool?)
  {
    match Lookup(m, key)
    case Null => Ok(false)
    case Bool(_) => Ok(true)
    case _ => Err(ClassCast)
  }

  /** setBoolean's answer: true exactly when it is the call that sets the flag. */
  function SetFlagResult(m: map<Key, Value>, key: Key): (r: Result<bool>)
    ensures r == Ok(true) <==> TestFlag(m, key) == Ok(false)
    ensures r == Ok(false) <==> TestFlag(m, key) == Ok(true)
    ensures r.Err? <==> TestFlag(m, key).Err?
  {
    match Lookup(m, key)
    case Null => Ok(true)
    case Bool(_) => Ok(false)
    case _ => Err(ClassCast)
  }

  /** The store after setBoolean. */
  function SetFlagStore(m: map<Key, Value>, key: Key): (r: map<Key, Value>)
    ensures forall k :: k != key ==> Lookup(r, k) == Lookup(m, k)
    ensures TestFlag(m, key).Err? ==> r == m
  {
    if Lookup(m, key) == Null then m[key := Bool(true)] else m
  }

  /** The store after resetBoolean as written: it unbinds only a key whose value is null. */
  function ResetFlagStoreAsWritten(m: map<Key, Value>, key: Key): (r: map<Key, Value>)
    ensures forall k :: k != key ==> Lookup(r, k) == Lookup(m, k)
  {
    if Lookup(m, key) == Null then m - {key} else m
  }

  /** The store after resetBoolean as intended: it unbinds the flag when it is set. */
  function ResetFlagStore(m: map<Key, Value>, key: Key): (r: map<Key, Value>)
    ensures forall k :: k != key ==> Lookup(r, k) == Lookup(m, k)
    ensures TestFlag(m, key).Err? ==> r == m
  {
    if Lookup(m, key).Bool? then m - {key} else m
  }

  /** resetBoolean's failure: the cast to Boolean. */
  function ResetFlagResult(m: map<Key, Value>, key: Key): (r: Outcome)
    ensures r.Fail? <==> TestFlag(m, key).Err?
  {
    if TestFlag(m, key).Err? then Fail(ClassCast) else Pass
  }

  /** After setBoolean the flag tests true, and a second setBoolean reports it was set. */
  lemma SetThenTest(m: map<Key, Value>, key: Key)
    requires TestFlag(m, key).Ok?
    ensures TestFlag(SetFlagStore(m, key), key) == Ok(true)
    ensures SetFlagResult(SetFlagStore(m, key), key) == Ok(false)
    ensures SetFlagStore(SetFlagStore(m, key), key) == SetFlagStore(m, key)
  {
  }

  /** resetBoolean as written never changes what testBoolean answers. */
  lemma ResetAsWrittenKeepsFlag(m: map<Key, Value>, key: Key)
    ensures TestFlag(ResetFlagStoreAsWritten(m, key), key) == TestFlag(m, key)
  {
  }

  /** A flag that was set stays set through resetBoolean as written. */
  lemma ResetAsWrittenCounterexample(key: Key)
    ensures var flagged := SetFlagStore(map[], key);
            TestFlag(ResetFlagStoreAsWritten(flagged, key), key) == Ok(true)
  {
  }

  /** After the intended resetBoolean the flag tests false: set and reset are inverses. */
  lemma ResetThenTest(m: map<Key, Value>, key: Key)
    requires TestFlag(m, key).Ok?
    ensures TestFlag(ResetFlagStore(m, key), key) == Ok(false)
    ensures m == map[] ==> ResetFlagStore(SetFlagStore(m, key), key) == m
    ensures Lookup(m, key) == Null ==> ResetFlagStore(SetFlagStore(m, key), key) == m - {key}
  {
  }

  // ---------------------------------------------------------------------------
  // Boolean flags: the helpers
  // ---------------------------------------------------------------------------

  /** The common frame of the flag helpers: no transaction, no change; else lazy binding. */
  twostate predicate FlagFrame(c: Coordinator)
    reads c, c.slot
  {
    && c.Listeners() == old(c.Listeners())
    && (!old(c.active) ==> unchanged(c) && c.Store() == old(c.Store()))
    && (old(c.active) ==> c.slot != null && c.LazilyBound(c.slot))
  }

  /** setBoolean: binds true under key unless a Boolean is bound already. */
  method SetBoolean(c: Coordinator, key: Key) returns (r: Result<bool>)
    requires c.Valid()
    modifies c, c.slot
    ensures c.Valid() && FlagFrame(c)
    ensures !old(c.active) ==> r == Err(NoActiveTransaction)
    ensures old(c.active) ==> r == SetFlagResult(old(c.Store()), key)
    ensures old(c.active) ==> c.Store() == SetFlagStore(old(c.Store()), key)
  {
    var got := c.GetResource(key);
    if got.Err? {
      return Err(got.error);
    }
    match got.value
    case Null =>
      var bound := c.BindResource(key, Bool(true));
      return Ok(true);
    case Bool(_) =>
      return Ok(false);
    case _ =>
      return Err(ClassCast);
  }

  /** testBoolean: whether a Boolean is bound under key; it binds nothing. */
  method TestBoolean(c: Coordinator, key: Key) returns (r: Result<bool>)
    requires c.Valid()
    modifies c
    ensures c.Valid() && FlagFrame(c)
    ensures c.Store() == old(c.Store())
    ensures !old(c.active) ==> r == Err(NoActiveTransaction)
    ensures old(c.active) ==> r == TestFlag(old(c.Store()), key)
  {
    var got := c.GetResource(key);
    if got.Err? {
      return Err(got.error);
    }
    match got.value
    case Null =>
      return Ok(false);
    case Bool(_) =>
      return Ok(true);
    case _ =>
      return Err(ClassCast);
  }

  /** resetBoolean as written: it unbinds key only when nothing (or null) is bound there. */
  method ResetBooleanAsWritten(c: Coordinator, key: Key) returns (r: Outcome)
    requires c.Valid()
    modifies c, c.slot
    ensures c.Valid() && FlagFrame(c)
    ensures !old(c.active) ==> r == Fail(NoActiveTransaction)
    ensures old(c.active) ==> r == ResetFlagResult(old(c.Store()), key)
    ensures old(c.active) ==> c.Store() == ResetFlagStoreAsWritten(old(c.Store()), key)
  {
    var got := c.GetResource(key);
    if got.Err? {
      return Fail(got.error);
    }
    match got.value
    case Null =>
      var unbound := c.UnbindResource(key);
      return Pass;
    case Bool(_) =>
      return Pass;
    case _ =>
      return Fail(ClassCast);
  }

  /** resetBoolean as its documentation describes it: an existing flag is unbound. */
  method ResetBoolean(c: Coordinator, key: Key) returns (r: Outcome)
    requires c.Valid()
    modifies c, c.slot
    ensures c.Valid() && FlagFrame(c)
    ensures !old(c.active) ==> r == Fail(NoActiveTransaction)
    ensures old(c.active) ==> r == ResetFlagResult(old(c.Store()), key)
    ensures old(c.active) ==> c.Store() == ResetFlagStore(old(c.Store()), key)
  {
    var got := c.GetResource(key);
    if got.Err? {
      return Fail(got.error);
    }
    match got.value
    case Null =>
      return Pass;
    case Bool(_) =>
      var unbound := c.UnbindResource(key);
      return Pass;
    case _ =>
      return Fail(ClassCast);
  }
}
