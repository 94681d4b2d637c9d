/**
 cimdCache (cimd.go) and cimdJWKSCache (client_assertion.go): a bounded first-in-first-out cache
 with expiry. The two differ only in that the first protects live positive entries from errors;
 the second never stores errors.
 */
module FifoCache {
  import opened Wrappers

  /** `negative` is set when the entry remembers an error. */
  datatype Entry<+T> = Entry(payload: T, negative: bool, expiresAt: int)

  /** The contents of a cache as a value. */
  datatype State<T> = State(entries: map<string, Entry<T>>, order: seq<string>, capacity: nat)

  /** `order` lists exactly the keys of the map, each once, within capacity. */
  ghost predicate Valid<T>(s: State<T>) {
    && s.capacity >= 1
    && Distinct(s.order)
    && (forall k :: k in s.order <==> k in s.entries)
    && |s.order| <= s.capacity
  }

  /** `order` without the first occurrence of `key`. */
  function Without(order: seq<string>, key: string): seq<string> {
    if order == [] then [] else if order[0] == key then order[1..]
    else [order[0]] + Without(order[1..], key)
  }

  function Removed<T>(s: State<T>, key: string): State<T> {
    State(s.entries - {key}, Without(s.order, key), s.capacity)
  }

  predicate Suppressed<T>(s: State<T>, key: string, e: Entry<T>, now: int) {
    e.negative && key in s.entries && !s.entries[key].negative && s.entries[key].expiresAt > now
  }

  /** The state after storing: a new key goes to the back, and pushes the front out of a full cache. */
  function Stored<T>(s: State<T>, key: string, e: Entry<T>): State<T> {
    if key in s.entries then s.(entries := s.entries[key := e])
    else if s.order != [] && |s.order| >= s.capacity then
      State((s.entries - {s.order[0]})[key := e], s.order[1..] + [key], s.capacity)
    else State(s.entries[key := e], s.order + [key], s.capacity)
  }

  // ---------------------------------------------------------------- operations

  datatype Op<T> =
    | Get(key: string, now: int)
    | Put(key: string, entry: Entry<T>, now: int)   // cimdCache.put
    | Store(key: string, entry: Entry<T>)           // cimdJWKSCache.put
    | Invalidate(key: string)

  function Step<T>(s: State<T>, op: Op<T>): State<T> {
    match op
    case Get(key, now) => if key in s.entries && now > s.entries[key].expiresAt then Removed(s, key) else s
    case Put(key, e, now) => if Suppressed(s, key, e, now) then s else Stored(s, key, e)
    case Store(key, e) => Stored(s, key, e)
    case Invalidate(key) => if key in s.entries then Removed(s, key) else s
  }

  /** The entry a lookup returns. */
  function Hit<T>(s: State<T>, key: string, now: int): Option<Entry<T>> {
    if key in s.entries && now <= s.entries[key].expiresAt then Some(s.entries[key]) else None
  }

  function Run<T>(s: State<T>, ops: seq<Op<T>>): State<T> {
    if ops == [] then s else Step(Run(s, ops[..|ops| - 1]), ops[|ops| - 1])
  }

  function Empty<T>(capacity: nat): State<T> {
    State(map[], [], if capacity == 0 then 1 else capacity)
  }

  // ---------------------------------------------------------------- the invariant

  lemma {:induction false} WithoutMembers(order: seq<string>, key: string)
    requires Distinct(order)
    ensures Distinct(Without(order, key))
    ensures forall k :: k in Without(order, key) <==> k in order && k != key
    ensures |Without(order, key)| == |order| - (if key in order then 1 else 0)
  {
    if order != [] {
      if order[0] != key {
        WithoutMembers(order[1..], key);
        assert forall k :: k in order <==> k == order[0] || k in order[1..];
        assert order[0] !in order[1..];
      } else {
        assert forall k :: k in order[1..] ==> k != key;
      }
    }
  }

  /** Every operation keeps the map and the order list in step and within capacity. */
  lemma StepKeepsValid<T>(s: State<T>, op: Op<T>)
    requires Valid(s)
    ensures Valid(Step(s, op))
    ensures Step(s, op).capacity == s.capacity
  {
    WithoutMembers(s.order, op.key);
    var s' := Step(s, op);
    if (op.Put? || op.Store?) && op.key !in s.entries {
      assert op.key !in s.order;
      if s.order != [] && |s.order| >= s.capacity {
        assert forall k :: k in s.order <==> k == s.order[0] || k in s.order[1..];
        assert s.order[0] !in s.order[1..];
      }
    }
  }

  lemma {:induction false} RunKeepsValid<T>(s: State<T>, ops: seq<Op<T>>)
    requires Valid(s)
    ensures Valid(Run(s, ops))
    ensures Run(s, ops).capacity == s.capacity
  {
    if ops != [] {
      RunKeepsValid(s, ops[..|ops| - 1]);
      StepKeepsValid(Run(s, ops[..|ops| - 1]), ops[|ops| - 1]);
    }
  }

  /** A duplicate-free list is as long as the set of its elements. */
  lemma {:induction false} DistinctLength(s: seq<string>, keys: set<string>)
    requires Distinct(s) && forall k :: k in s <==> k in keys
    ensures |s| == |keys|
  {
    if s == [] {
      assert keys == {};
    } else {
      assert s[0] !in s[1..];
      assert forall k :: k in s <==> k == s[0] || k in s[1..];
      DistinctLength(s[1..], keys - {s[0]});
    }
  }

  // ---------------------------------------------------------------- survival

  /** The operation stores `e` under `key`. */
  predicate Writes<T(==)>(op: Op<T>, key: string, e: Entry<T>) {
    (op.Put? || op.Store?) && op.key == key && op.entry == e
  }

  /** Judged from the operation alone, the entry `e` of `key` is not expired, invalidated or overwritten by it. */
  predicate Leaves<T>(op: Op<T>, key: string, e: Entry<T>) {
    op.key != key
    || (op.Get? && op.now <= e.expiresAt)
    || (op.Put? && op.entry.negative && !e.negative && e.expiresAt > op.now)
  }

  /** The operation brings in a key that was not there. */
  predicate Inserts<T>(s: State<T>, op: Op<T>) {
    (op.Put? || op.Store?) && op.key !in s.entries
  }

  function Insertions<T>(s: State<T>, ops: seq<Op<T>>): nat {
    if ops == [] then 0
    else Insertions(s, ops[..|ops| - 1]) + (if Inserts(Run(s, ops[..|ops| - 1]), ops[|ops| - 1]) then 1 else 0)
  }

  /** Number of entries inserted after `key`. */
  function Behind(order: seq<string>, key: string): nat
    requires key in order
  {
    if order[0] == key then |order| - 1 else Behind(order[1..], key)
  }

  lemma {:induction false} BehindAppend(order: seq<string>, key: string, last: string)
    requires key in order
    ensures key in order + [last] && Behind(order + [last], key) == Behind(order, key) + 1
  {
    if order[0] != key {
      BehindAppend(order[1..], key, last);
      assert (order + [last])[1..] == order[1..] + [last];
    }
  }

  lemma {:induction false} BehindWithout(order: seq<string>, key: string, gone: string)
    requires key in order && gone != key
    ensures key in Without(order, gone) && Behind(Without(order, gone), key) <= Behind(order, key)
  {
    WithoutLength(order, gone);
    if order[0] == key {
    } else if order[0] == gone {
    } else {
      BehindWithout(order[1..], key, gone);
      assert Without(order, gone)[1..] == Without(order[1..], gone);
    }
  }

  lemma {:induction false} WithoutLength(order: seq<string>, gone: string)
    ensures |Without(order, gone)| <= |order|
  {
    if order != [] && order[0] != gone {
      WithoutLength(order[1..], gone);
    }
  }

  lemma {:induction false} FrontHasAllBehind(order: seq<string>, key: string)
    requires key in order
    ensures Behind(order, key) <= |order| - 1
    ensures order[0] != key ==> key in order[1..] && Behind(order[1..], key) == Behind(order, key)
    ensures order[0] != key ==> Behind(order, key) < |order| - 1
  {
    if order[0] != key {
      FrontHasAllBehind(order[1..], key);
    }
  }

  /** In this state the operation neither expires nor invalidates `key`; it may overwrite it in place. */
  predicate Retains<T>(s: State<T>, op: Op<T>, key: string) {
    op.key != key || op.Put? || op.Store? || (op.Get? && key in s.entries && op.now <= s.entries[key].expiresAt)
  }

  /** No operation of the run expires or invalidates `key` where it happens. */
  ghost predicate RunRetains<T>(s: State<T>, ops: seq<Op<T>>, key: string) {
    forall i :: 0 <= i < |ops| ==> Retains(Run(s, ops[..i]), ops[i], key)
  }

  lemma RunRetainsPrefix<T>(s: State<T>, ops: seq<Op<T>>, key: string)
    requires RunRetains(s, ops, key) && ops != []
    ensures RunRetains(s, ops[..|ops| - 1], key)
    ensures Retains(Run(s, ops[..|ops| - 1]), ops[|ops| - 1], key)
  {
    var init := ops[..|ops| - 1];
    forall i | 0 <= i < |init|
      ensures Retains(Run(s, init[..i]), init[i], key)
    {
      assert init[..i] == ops[..i];
      assert Retains(Run(s, ops[..i]), ops[i], key);
    }
  }

  /** One step: the key stays, and only an insertion can push it one place towards the front. */
  lemma StepRetains<T>(s: State<T>, op: Op<T>, key: string)
    requires Valid(s) && key in s.entries && Retains(s, op, key)
    ensures var s' := Step(s, op);
            var pushed := if Inserts(s, op) then 1 else 0;
            Behind(s.order, key) + pushed < s.capacity ==>
              key in s'.entries && key in s'.order && Behind(s'.order, key) <= Behind(s.order, key) + pushed
  {
    FrontHasAllBehind(s.order, key);
    if Inserts(s, op) {
      if |s.order| >= s.capacity {
        if s.order[0] != key {
          BehindAppend(s.order[1..], key, op.key);
        }
      } else {
        BehindAppend(s.order, key, op.key);
      }
    } else if op.key != key && op.key in s.entries {
      BehindWithout(s.order, key, op.key);
    }
  }

  /**
   Survival: in any run that does not expire or invalidate it, a key with b entries behind it
   outlives fewer than capacity - b insertions, however often it is looked up or overwritten.
   */
  lemma {:induction false} Survives<T>(s: State<T>, ops: seq<Op<T>>, key: string)
    requires Valid(s) && key in s.entries && RunRetains(s, ops, key)
    requires Behind(s.order, key) + Insertions(s, ops) < s.capacity
    ensures var s' := Run(s, ops);
            && key in s'.entries && key in s'.order
            && Behind(s'.order, key) <= Behind(s.order, key) + Insertions(s, ops)
  {
    if ops != [] {
      var init := ops[..|ops| - 1];
      RunRetainsPrefix(s, ops, key);
      Survives(s, init, key);
      RunKeepsValid(s, init);
      StepRetains(Run(s, init), ops[|ops| - 1], key);
    }
  }

  /** While nothing overwrites it either, the very entry survives. */
  lemma {:induction false} EntrySurvives<T>(s: State<T>, ops: seq<Op<T>>, key: string, e: Entry<T>)
    requires Valid(s) && key in s.entries && s.entries[key] == e
    requires forall i :: 0 <= i < |ops| ==> Leaves(ops[i], key, e)
    requires Behind(s.order, key) + Insertions(s, ops) < s.capacity
    ensures RunRetains(s, ops, key)
    ensures key in Run(s, ops).entries && Run(s, ops).entries[key] == e
  {
    if ops != [] {
      var n := |ops| - 1;
      EntrySurvives(s, ops[..n], key, e);
      forall i | 0 <= i < |ops|
        ensures Retains(Run(s, ops[..i]), ops[i], key)
      {
        if i < n {
          assert ops[..n][..i] == ops[..i] && ops[..n][i] == ops[i];
          assert Retains(Run(s, ops[..n][..i]), ops[..n][i], key);
        }
      }
      Survives(s, ops, key);
    }
  }

  lemma {:induction false} BehindLast(order: seq<string>, key: string)
    requires key !in order
    ensures Behind(order + [key], key) == 0
  {
    if order != [] {
      assert (order + [key])[1..] == order[1..] + [key];
      BehindLast(order[1..], key);
    }
  }

  /** A newly inserted key has nothing behind it. */
  lemma NewKeyIsLast<T>(s: State<T>, put: Op<T>, key: string, e: Entry<T>)
    requires Valid(s) && Writes(put, key, e) && key !in s.entries
    ensures var s' := Step(s, put);
            Valid(s') && s'.capacity == s.capacity && key in s'.entries && s'.entries[key] == e
            && Behind(s'.order, key) == 0
  {
    StepKeepsValid(s, put);
    if s.order != [] && |s.order| >= s.capacity {
      BehindLast(s.order[1..], key);
    } else {
      BehindLast(s.order, key);
    }
  }

  /**
   FIFO: a newly inserted key is pushed out for capacity only by at least the capacity-th
   insertion after its own. Until then, and before expiry, a lookup returns what was stored last.
   */
  lemma NewKeySurvives<T>(s: State<T>, put: Op<T>, ops: seq<Op<T>>, key: string, e: Entry<T>, now: int)
    requires Valid(s) && Writes(put, key, e) && key !in s.entries
    requires RunRetains(Step(s, put), ops, key)
    requires Insertions(Step(s, put), ops) < s.capacity
    ensures key in Run(Step(s, put), ops).entries
    ensures (forall i :: 0 <= i < |ops| ==> Leaves(ops[i], key, e)) && now <= e.expiresAt
            ==> Hit(Run(Step(s, put), ops), key, now) == Some(e)
  {
    NewKeyIsLast(s, put, key, e);
    Survives(Step(s, put), ops, key);
    if forall i :: 0 <= i < |ops| ==> Leaves(ops[i], key, e) {
      EntrySurvives(Step(s, put), ops, key, e);
    }
  }

  /** The operation removes no key: it writes, or looks up something absent or unexpired. */
  predicate RemovesNothing<T>(s: State<T>, op: Op<T>) {
    op.Put? || op.Store? || (op.Get? && (op.key in s.entries ==> op.now <= s.entries[op.key].expiresAt))
  }

  /** Every operation of the run removes nothing, and none brings `key` in anew. */
  ghost predicate OnlyPushes<T>(s: State<T>, ops: seq<Op<T>>, key: string) {
    forall i :: 0 <= i < |ops| ==>
      RemovesNothing(Run(s, ops[..i]), ops[i]) && (Inserts(Run(s, ops[..i]), ops[i]) ==> ops[i].key != key)
  }

  /**
   And the bound is exact: in a run of lookups and writes the key is gone exactly from the
   insertion that exhausts it on. Hits and overwrites of the key do not buy it time, so the
   order is first-in-first-out and not least-recently-used.
   */
  lemma {:induction false} InsertionsEvict<T>(s: State<T>, ops: seq<Op<T>>, key: string)
    requires Valid(s) && key in s.entries && OnlyPushes(s, ops, key)
    ensures var s' := Run(s, ops);
            && (key in s'.entries <==> Behind(s.order, key) + Insertions(s, ops) < s.capacity)
            && (key in s'.entries ==> key in s'.order && Behind(s'.order, key) == Behind(s.order, key) + Insertions(s, ops))
  {
    FrontHasAllBehind(s.order, key);
    if ops != [] {
      var init, op := ops[..|ops| - 1], ops[|ops| - 1];
      OnlyPushesPrefix(s, ops, key);
      InsertionsEvict(s, init, key);
      RunKeepsValid(s, init);
      if Inserts(Run(s, init), op) {
        InsertionStep(Run(s, init), op, key);
      }
    }
  }

  lemma OnlyPushesPrefix<T>(s: State<T>, ops: seq<Op<T>>, key: string)
    requires OnlyPushes(s, ops, key) && ops != []
    ensures var init, op := ops[..|ops| - 1], ops[|ops| - 1];
            && OnlyPushes(s, init, key) && RemovesNothing(Run(s, init), op)
            && (Inserts(Run(s, init), op) ==> op.key != key)
  {
    var init := ops[..|ops| - 1];
    forall i | 0 <= i < |init|
      ensures RemovesNothing(Run(s, init[..i]), init[i]) && (Inserts(Run(s, init[..i]), init[i]) ==> init[i].key != key)
    {
      assert init[..i] == ops[..i];
      assert RemovesNothing(Run(s, ops[..i]), ops[i]);
    }
  }

  lemma InsertionStep<T>(s: State<T>, op: Op<T>, key: string)
    requires Valid(s) && Inserts(s, op) && op.key != key
    ensures var s' := Step(s, op);
            && (key !in s.entries ==> key !in s'.entries)
            && (key in s.entries ==>
                  && (key in s'.entries <==> Behind(s.order, key) + 1 < s.capacity)
                  && (key in s'.entries ==> key in s'.order && Behind(s'.order, key) == Behind(s.order, key) + 1))
  {
    if key in s.entries {
      FrontHasAllBehind(s.order, key);
      if |s.order| >= s.capacity {
        if s.order[0] != key {
          BehindAppend(s.order[1..], key, op.key);
        }
      } else {
        BehindAppend(s.order, key, op.key);
      }
    }
  }

  // ---------------------------------------------------------------- where hits come from

  /** Operation j stored `e`, and nothing after it removed or replaced it: the latest unsuppressed put. */
  ghost predicate LatestPut<T>(ops: seq<Op<T>>, j: nat, key: string, e: Entry<T>) {
    && j < |ops| && Writes(ops[j], key, e)
    && forall m :: j < m < |ops| ==> Leaves(ops[m], key, e)
  }

  /** Whatever a run from empty leaves in the cache is the latest unsuppressed put for its key. */
  lemma {:induction false} EntriesComeFromLatestPut<T>(capacity: nat, ops: seq<Op<T>>, key: string)
    requires key in Run(Empty<T>(capacity), ops).entries
    ensures exists j :: LatestPut(ops, j, key, Run(Empty<T>(capacity), ops).entries[key])
  {
    var n := |ops| - 1;
    var before := Run(Empty<T>(capacity), ops[..n]);
    var e := Run(Empty<T>(capacity), ops).entries[key];
    if key in before.entries && before.entries[key] == e && Leaves(ops[n], key, e) {
      EntriesComeFromLatestPut(capacity, ops[..n], key);
      var j :| LatestPut(ops[..n], j, key, e);
      assert LatestPut(ops, j, key, e);
    } else {
      assert LatestPut(ops, n, key, e);
    }
  }

  /** A hit is the latest unsuppressed put for that key, and it is unexpired. */
  lemma HitIsLatestPut<T>(capacity: nat, ops: seq<Op<T>>, key: string, now: int)
    requires Hit(Run(Empty<T>(capacity), ops), key, now).Some?
    ensures var e := Hit(Run(Empty<T>(capacity), ops), key, now).value;
            now <= e.expiresAt && exists j :: LatestPut(ops, j, key, e)
  {
    EntriesComeFromLatestPut(capacity, ops, key);
  }

  // ---------------------------------------------------------------- accesses by concurrent callers

  /** The operations that a history of accesses performs; an access performs at most one. */
  function Trace<A, T>(effect: A -> Option<Op<T>>, accesses: seq<A>): seq<Op<T>> {
    if accesses == [] then []
    else
      var before := Trace(effect, accesses[..|accesses| - 1]);
      match effect(accesses[|accesses| - 1])
      case None => before
      case Some(op) => before + [op]
  }

  function After<A, T>(capacity: nat, effect: A -> Option<Op<T>>, accesses: seq<A>): State<T> {
    Run(Empty(capacity), Trace(effect, accesses))
  }

  lemma {:induction false} TraceMember<A, T>(effect: A -> Option<Op<T>>, accesses: seq<A>, op: Op<T>)
    requires op in Trace(effect, accesses)
    ensures exists a :: a in accesses && effect(a) == Some(op)
  {
    var n := |accesses| - 1;
    if op in Trace(effect, accesses[..n]) {
      TraceMember(effect, accesses[..n], op);
    } else {
      assert accesses[n] in accesses && effect(accesses[n]) == Some(op);
    }
  }

  /** A further access runs its operation on the cache. */
  lemma AfterAppend<A, T>(capacity: nat, effect: A -> Option<Op<T>>, accesses: seq<A>, a: A)
    ensures var s := After(capacity, effect, accesses);
            After(capacity, effect, accesses + [a])
            == match effect(a) { case None => s case Some(op) => Step(s, op) }
  {
    assert (accesses + [a])[..|accesses|] == accesses;
    var ops := Trace(effect, accesses);
    if effect(a).Some? {
      assert (ops + [effect(a).value])[..|ops|] == ops;
    }
  }

  /** A hit was written by one of the accesses, and is unexpired. */
  lemma HitWasAccess<A, T>(capacity: nat, effect: A -> Option<Op<T>>, accesses: seq<A>, key: string, now: int)
    requires Hit(After(capacity, effect, accesses), key, now).Some?
    ensures var e := Hit(After(capacity, effect, accesses), key, now).value;
            && now <= e.expiresAt
            && exists a :: a in accesses && effect(a).Some? && Writes(effect(a).value, key, e)
  {
    var ops := Trace(effect, accesses);
    HitIsLatestPut(capacity, ops, key, now);
    var e := Hit(After(capacity, effect, accesses), key, now).value;
    var j: nat :| LatestPut(ops, j, key, e);
    TraceMember(effect, accesses, ops[j]);
  }

  /** The operation at i found `key` absent, or was an error put at or after the expiry of its positive entry. */
  ghost predicate Yields<T>(s: State<T>, ops: seq<Op<T>>, i: nat, key: string)
    requires i < |ops|
  {
    var before := Run(s, ops[..i]);
    && ops[i].Put? && ops[i].key == key && ops[i].entry.negative
    && (key in before.entries ==> !before.entries[key].negative && before.entries[key].expiresAt <= ops[i].now)
  }

  /**
   An error never takes the place of a strictly live positive entry, in any run of cimdCache: if
   a key that held a positive entry holds an error in the end, some error put came when the key
   had left the cache or its positive entry had reached its expiry.
   */
  lemma {:induction false} ErrorsDoNotReplaceLive<T>(s: State<T>, ops: seq<Op<T>>, key: string)
    requires key in s.entries && !s.entries[key].negative
    requires forall i :: 0 <= i < |ops| ==> !ops[i].Store?
    requires key in Run(s, ops).entries && Run(s, ops).entries[key].negative
    ensures exists i :: 0 <= i < |ops| && Yields(s, ops, i, key)
  {
    var n := |ops| - 1;
    var before := Run(s, ops[..n]);
    if key in before.entries && before.entries[key].negative {
      ErrorsDoNotReplaceLive(s, ops[..n], key);
      var i :| 0 <= i < n && Yields(s, ops[..n], i, key);
      assert ops[..n][..i] == ops[..i];
      assert Yields(s, ops, i, key);
    } else {
      assert Yields(s, ops, n, key);
    }
  }

  /** At the very instant of expiry a positive entry still hits, yet an error may already replace it. */
  lemma ExpiryInstant<T>(s: State<T>, key: string, e: Entry<T>, now: int)
    requires e.negative && key in s.entries && !s.entries[key].negative && s.entries[key].expiresAt == now
    ensures Hit(s, key, now) == Some(s.entries[key])
    ensures Step(s, Put(key, e, now)).entries[key] == e
  {
  }

  // ---------------------------------------------------------------- the cache object

  class Cache<T> {
    var entries: map<string, Entry<T>>
    var order: seq<string>
    const capacity: nat

    ghost function View(): State<T>
      reads this
    {
      State(entries, order, capacity)
    }

    constructor (cap: int)
      ensures View() == Empty(if cap <= 0 then 1 else cap)
      ensures Valid(View())
    {
      entries, order := map[], [];
      capacity := if cap <= 0 then 1 else cap;
    }

    method Lookup(key: string, now: int) returns (r: Option<Entry<T>>)
      requires Valid(View())
      modifies this
      ensures r == Hit(old(View()), key, now)
      ensures View() == Step(old(View()), Get(key, now)) && Valid(View())
    {
      StepKeepsValid(View(), Get(key, now));
      if key !in entries {
        return None;
      }
      var e := entries[key];
      if now > e.expiresAt {
        Evict(key);
        return None;
      }
      return Some(e);
    }

    /** cimdCache.put */
    method Insert(key: string, e: Entry<T>, now: int)
      requires Valid(View())
      modifies this
      ensures View() == Step(old(View()), Put(key, e, now)) && Valid(View())
    {
      StepKeepsValid(View(), Put(key, e, now));
      if e.negative && key in entries && !entries[key].negative && entries[key].expiresAt > now {
        return;
      }
      Replace(key, e);
    }

    /** The storing part of both puts; reading the front of `order` is safe because a full cache is not empty. */
    method Replace(key: string, e: Entry<T>)
      requires Valid(View())
      modifies this
      ensures View() == Step(old(View()), Store(key, e)) && Valid(View())
    {
      StepKeepsValid(View(), Store(key, e));
      DistinctLength(order, entries.Keys);
      if key !in entries {
        if |entries| >= capacity {
          var oldest := order[0];
          order := order[1..];
          entries := entries - {oldest};
        }
        order := order + [key];
      }
      entries := entries[key := e];
    }

    method Forget(key: string)
      requires Valid(View())
      modifies this
      ensures View() == Step(old(View()), Invalidate(key)) && Valid(View())
    {
      StepKeepsValid(View(), Op<T>.Invalidate(key));
      if key !in entries {
        return;
      }
      Evict(key);
    }

    /** Delete from the map, then scan the order list for the key and close the gap. */
    method Evict(key: string)
      modifies this
      ensures View() == Removed(old(View()), key)
    {
      entries := entries - {key};
      for i := 0 to |order|
        invariant order == old(order)
        invariant key !in order[..i]
        invariant Without(order, key) == order[..i] + Without(order[i..], key)
      {
        if order[i] == key {
          assert order[i..][1..] == order[i + 1..];
          order := order[..i] + order[i + 1..];
          return;
        }
        assert order[i..][1..] == order[i + 1..];
        assert order[..i + 1] == order[..i] + [order[i]];
      }
      assert order[..|order|] == order;
      assert order[|order|..] == [];
    }
  }
}
