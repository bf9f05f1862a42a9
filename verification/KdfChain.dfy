/** The per-frame KDF chain of the E2EE worker: a sender steps it once per frame,
    a receiver steps it to the counter of each arriving frame and caches the
    keys it passes over. */
module KdfChain {
  import opened Common

  type Key = seq<byte>

  /** The cryptographic primitives, left uninterpreted: HKDF with the four labels
      the worker uses, UTF-8 encoding, and AES-GCM. */
  datatype Suite = Suite(
    rootKey: (Key, int) -> Key,
    baseSalt: (Key, int) -> seq<byte>,
    messageKey: Key -> Key,
    nextChain: Key -> Key,
    utf8: string -> seq<byte>,
    seal: (Key, seq<byte>, seq<byte>, seq<byte>) -> seq<byte>,
    open: (Key, seq<byte>, seq<byte>, seq<byte>) -> Option<seq<byte>>)

  const MAX_SKIP: nat := 256
  const MAX_INITIAL_SKIP: nat := 30_000

  /** The value of a `ChainEntry` object. */
  datatype Chain = Chain(
    chainKey: Key,
    nextCtr: nat,
    salt: seq<byte>,
    keyId: int,
    skipped: map<nat, Key>,
    caughtUp: bool)

  /** The chain key after n steps from ck. */
  ghost function ChainAt(s: Suite, ck: Key, n: nat): Key {
    if n == 0 then ck else s.nextChain(ChainAt(s, ck, n - 1))
  }

  /** The message key of the ctr-th frame (counting from one) under a root key. */
  ghost function MessageKeyAt(s: Suite, root: Key, ctr: nat): Key
    requires ctr >= 1
  {
    s.messageKey(ChainAt(s, root, ctr - 1))
  }

  lemma {:induction false} ChainAtAdd(s: Suite, ck: Key, a: nat, b: nat)
    ensures ChainAt(s, ChainAt(s, ck, a), b) == ChainAt(s, ck, a + b)
    decreases b
  {
    if b > 0 {
      ChainAtAdd(s, ck, a, b - 1);
    }
  }

  function InitChain(s: Suite, rawKey: Key, keyId: int): Chain {
    Chain(s.rootKey(rawKey, keyId), 1, s.baseSalt(rawKey, keyId), keyId, map[], false)
  }

  /** What getEncryptionKey does to a chain. */
  function EncryptionStep(s: Suite, c: Chain): (Chain, Key) {
    (c.(chainKey := s.nextChain(c.chainKey), nextCtr := c.nextCtr + 1), s.messageKey(c.chainKey))
  }

  /** The counters in ascending order. */
  ghost function Sorted(ks: set<nat>): (r: seq<nat>)
    ensures forall k :: k in r <==> k in ks
    decreases ks
  {
    if ks == {} then [] else [Smallest(ks)] + Sorted(ks - {Smallest(ks)})
  }

  predicate Ascending(r: seq<nat>) {
    forall i, j :: 0 <= i < j < |r| ==> r[i] < r[j]
  }

  lemma {:induction false} SortedAscends(ks: set<nat>)
    ensures Ascending(Sorted(ks))
    decreases ks
  {
    if ks != {} {
      var rest := Sorted(ks - {Smallest(ks)});
      SortedAscends(ks - {Smallest(ks)});
      forall j | 0 <= j < |rest|
        ensures Smallest(ks) < rest[j]
      {
        assert rest[j] in rest;
      }
    }
  }

  lemma {:induction false} AscendingGap(r: seq<nat>, i: nat, j: nat)
    requires Ascending(r) && i <= j < |r|
    ensures r[j] >= r[i] + (j - i)
    decreases j
  {
    if i < j {
      AscendingGap(r, i, j - 1);
    }
  }

  /** The MAX_SKIP largest counters, or all of them if there are no more. */
  ghost function KeepNewest(ks: set<nat>): (kept: set<nat>)
    ensures kept <= ks
  {
    var r := Sorted(ks);
    if |r| <= MAX_SKIP then ks else Elements(r, |r| - MAX_SKIP)
  }

  /** The elements of r from position n on. */
  ghost function Elements(r: seq<nat>, n: nat): (ks: set<nat>)
    ensures forall k :: k in ks ==> k in r
  {
    set i | n <= i < |r| :: r[i]
  }

  ghost function EvictOldest(m: map<nat, Key>): (r: map<nat, Key>)
    ensures r.Keys == KeepNewest(m.Keys)
  {
    map k | k in KeepNewest(m.Keys) :: m[k]
  }

  lemma {:induction false} ElementsAreFew(r: seq<nat>, n: nat)
    requires n <= |r|
    ensures |Elements(r, n)| <= |r| - n
    decreases |r| - n
  {
    if n < |r| {
      ElementsAreFew(r, n + 1);
      assert Elements(r, n) == Elements(r, n + 1) + {r[n]};
    } else {
      assert Elements(r, n) == {};
    }
  }

  lemma NewestAreFew(ks: set<nat>)
    ensures |KeepNewest(ks)| <= MAX_SKIP
  {
    var r := Sorted(ks);
    if |r| <= MAX_SKIP {
      ElementsAreFew(r, 0);
      assert ks == Elements(r, 0);
    } else {
      ElementsAreFew(r, |r| - MAX_SKIP);
    }
  }

  predicate IsSmallest(r: nat, s: set<nat>) {
    r in s && forall x :: x in s ==> r <= x
  }

  lemma {:induction false} FindSmallest(s: set<nat>) returns (r: nat)
    requires s != {}
    ensures IsSmallest(r, s)
  {
    r :| r in s;
    var rest := s - {r};
    assert s == rest + {r};
    if rest != {} {
      var b := FindSmallest(rest);
      if b < r {
        r := b;
      }
    }
  }

  lemma SmallestExists(s: set<nat>)
    requires s != {}
    ensures exists r :: IsSmallest(r, s)
  {
    var _ := FindSmallest(s);
  }

  ghost function Smallest(s: set<nat>): (r: nat)
    requires s != {}
    ensures IsSmallest(r, s)
  {
    SmallestExists(s);
    var r :| IsSmallest(r, s);
    r
  }

  /** A dropped counter is more than MAX_SKIP below every bound on the set. */
  lemma DroppedIsOld(ks: set<nat>, k: nat, bound: nat)
    requires k in ks && k !in KeepNewest(ks)
    requires forall j :: j in ks ==> j < bound
    ensures k + MAX_SKIP < bound
  {
    var r := Sorted(ks);
    assert k in r;
    var i :| 0 <= i < |r| && r[i] == k;
    assert i < |r| - MAX_SKIP;
    SortedAscends(ks);
    AscendingGap(r, i, i + MAX_SKIP);
    assert r[i + MAX_SKIP] in r;
  }

  /** The message key that chain c derives on reaching counter k. */
  ghost function KeyAhead(s: Suite, c: Chain, k: nat): Key
    requires k >= c.nextCtr
  {
    s.messageKey(ChainAt(s, c.chainKey, k - c.nextCtr))
  }

  /** The counters from lo up to, and excluding, hi. */
  ghost function Range(lo: nat, hi: nat): (r: set<nat>)
    ensures forall k :: k in r <==> lo <= k < hi
  {
    if hi <= lo then {} else Range(lo, hi - 1) + {hi - 1}
  }

  /** The cache with the keys of all counters below the target added. */
  ghost function Passing(s: Suite, c: Chain, target: nat): map<nat, Key> {
    map k | k in c.skipped.Keys + Range(c.nextCtr, target) ::
      if c.nextCtr <= k < target then KeyAhead(s, c, k) else c.skipped[k]
  }

  lemma PassingOne(s: Suite, c: Chain, k: nat, cache: map<nat, Key>, ck: Key)
    requires k >= c.nextCtr
    requires cache == Passing(s, c, k) && ck == ChainAt(s, c.chainKey, k - c.nextCtr)
    ensures cache[k := s.messageKey(ck)] == Passing(s, c, k + 1)
    ensures s.nextChain(ck) == ChainAt(s, c.chainKey, k + 1 - c.nextCtr)
  {
  }

  /** The cache after stepping forward to the target. */
  ghost function CacheAfter(s: Suite, c: Chain, target: nat): map<nat, Key> {
    EvictOldest(Passing(s, c, target))
  }

  /** What getDecryptionKey does to a chain, and the key it returns. */
  ghost function DecryptionStep(s: Suite, c: Chain, target: nat): (Chain, Option<Key>) {
    if target in c.skipped then
      (c.(skipped := c.skipped - {target}, caughtUp := true), Some(c.skipped[target]))
    else if target < c.nextCtr then
      (c, None)
    else if target - c.nextCtr > (if c.caughtUp then MAX_SKIP else MAX_INITIAL_SKIP) then
      (c, None)
    else
      (Chain(ChainAt(s, c.chainKey, target - c.nextCtr + 1), target + 1, c.salt, c.keyId,
             if c.caughtUp then CacheAfter(s, c, target) else c.skipped, true),
       Some(KeyAhead(s, c, target)))
  }

  /** The object whose fields the worker updates in place. */
  class ChainEntry {
    var chainKey: Key
    var nextCtr: nat
    const salt: seq<byte>
    const keyId: int
    var skipped: map<nat, Key>
    var caughtUp: bool

    ghost function State(): Chain
      reads this
    {
      Chain(chainKey, nextCtr, salt, keyId, skipped, caughtUp)
    }

    constructor (s: Suite, rawKey: Key, keyId: int)
      ensures State() == InitChain(s, rawKey, keyId)
    {
      this.chainKey := s.rootKey(rawKey, keyId);
      this.nextCtr := 1;
      this.salt := s.baseSalt(rawKey, keyId);
      this.keyId := keyId;
      this.skipped := map[];
      this.caughtUp := false;
    }

    method GetEncryptionKey(s: Suite) returns (key: Key)
      modifies this
      ensures (State(), key) == EncryptionStep(s, old(State()))
    {
      key := s.messageKey(chainKey);
      chainKey := s.nextChain(chainKey);
      nextCtr := nextCtr + 1;
    }

    method GetDecryptionKey(s: Suite, target: nat) returns (key: Option<Key>)
      modifies this
      ensures (State(), key) == DecryptionStep(s, old(State()), target)
    {
      if target in skipped {
        key := Some(skipped[target]);
        skipped := skipped - {target};
        caughtUp := true;
        return;
      }
      if target < nextCtr {
        return None;
      }
      var skip := target - nextCtr;
      if !caughtUp {
        if skip > MAX_INITIAL_SKIP {
          return None;
        }
        StepTo(s, target);
        key := Some(s.messageKey(chainKey));
        chainKey := s.nextChain(chainKey);
        nextCtr := nextCtr + 1;
        caughtUp := true;
        return;
      }
      if skip > MAX_SKIP {
        return None;
      }
      StepCachingTo(s, target);
      key := Some(s.messageKey(chainKey));
      chainKey := s.nextChain(chainKey);
      nextCtr := nextCtr + 1;
      DropOldest();
    }

    /** Steps the chain up to the target, discarding the keys it passes. */
    method StepTo(s: Suite, target: nat)
      requires nextCtr <= target
      modifies this`chainKey, this`nextCtr
      ensures nextCtr == target
      ensures chainKey == ChainAt(s, old(chainKey), target - old(nextCtr))
    {
      while nextCtr < target
        invariant old(nextCtr) <= nextCtr <= target
        invariant chainKey == ChainAt(s, old(chainKey), nextCtr - old(nextCtr))
      {
        chainKey := s.nextChain(chainKey);
        nextCtr := nextCtr + 1;
      }
    }

    /** Steps the chain up to the target, caching the keys it passes. */
    method StepCachingTo(s: Suite, target: nat)
      requires nextCtr <= target
      modifies this`chainKey, this`nextCtr, this`skipped
      ensures nextCtr == target
      ensures chainKey == ChainAt(s, old(chainKey), target - old(nextCtr))
      ensures skipped == Passing(s, old(State()), target)
    {
      ghost var c := State();
      while nextCtr < target
        invariant c.nextCtr <= nextCtr <= target
        invariant chainKey == ChainAt(s, c.chainKey, nextCtr - c.nextCtr)
        invariant skipped == Passing(s, c, nextCtr)
      {
        PassingOne(s, c, nextCtr, skipped, chainKey);
        CacheOne(s);
      }
    }

    /** One step of the chain whose key goes to the cache. */
    method CacheOne(s: Suite)
      modifies this`chainKey, this`nextCtr, this`skipped
      ensures skipped == old(skipped)[old(nextCtr) := s.messageKey(old(chainKey))]
      ensures chainKey == s.nextChain(old(chainKey)) && nextCtr == old(nextCtr) + 1
    {
      skipped := skipped[nextCtr := s.messageKey(chainKey)];
      chainKey := s.nextChain(chainKey);
      nextCtr := nextCtr + 1;
    }

    /** Sorts the cached counters and deletes the oldest beyond MAX_SKIP. */
    method DropOldest()
      modifies this`skipped
      ensures skipped == EvictOldest(old(skipped))
    {
      var sorted := SortCounters(skipped.Keys);
      if |sorted| > MAX_SKIP {
        var n := |sorted| - MAX_SKIP;
        for i := 0 to n
          invariant skipped == old(skipped) - Leading(sorted, i)
        {
          SubtractOne(old(skipped), sorted, i);
          skipped := skipped - {sorted[i]};
        }
        EvictIsSubtract(old(skipped), sorted, n);
      }
    }
  }

  method SortCounters(ks: set<nat>) returns (sorted: seq<nat>)
    ensures sorted == Sorted(ks)
  {
    var rest := ks;
    sorted := [];
    while rest != {}
      invariant Sorted(ks) == sorted + Sorted(rest)
      decreases rest
    {
      SmallestUnique(rest);
      SmallestExists(rest);
      var least :| least in rest && IsSmallest(least, rest);
      assert sorted + Sorted(rest) == (sorted + [least]) + Sorted(rest - {least});
      sorted := sorted + [least];
      rest := rest - {least};
    }
  }

  lemma SmallestUnique(s: set<nat>)
    requires s != {}
    ensures forall r :: IsSmallest(r, s) ==> r == Smallest(s)
  {
  }

  /** The first n elements of r. */
  ghost function Leading(r: seq<nat>, n: nat): set<nat>
    requires n <= |r|
  {
    set i | 0 <= i < n :: r[i]
  }

  lemma SubtractOne(m: map<nat, Key>, r: seq<nat>, i: nat)
    requires i < |r|
    ensures m - Leading(r, i) - {r[i]} == m - Leading(r, i + 1)
  {
    assert Leading(r, i + 1) == Leading(r, i) + {r[i]};
  }

  lemma EvictIsSubtract(m: map<nat, Key>, r: seq<nat>, n: nat)
    requires r == Sorted(m.Keys) && |r| > MAX_SKIP && n == |r| - MAX_SKIP
    ensures m - Leading(r, n) == EvictOldest(m)
  {
    SortedAscends(m.Keys);
    forall k | k in m
      ensures k in Elements(r, n) <==> k !in Leading(r, n)
    {
      assert k in r;
    }
  }

  // ---- What a chain keeps over every sequence of requests ----

  /** Every key the chain holds is the right one for its counter. */
  ghost predicate Genuine(s: Suite, root: Key, c: Chain) {
    && c.nextCtr >= 1
    && c.chainKey == ChainAt(s, root, c.nextCtr - 1)
    && (forall k :: k in c.skipped ==> 1 <= k < c.nextCtr && c.skipped[k] == MessageKeyAt(s, root, k))
    && (!c.caughtUp ==> c.skipped == map[])
  }

  /** Key bookkeeping: `used` are the counters whose keys were handed out and
      `first` the earliest of them in time. An unused key among the last
      MAX_SKIP counters is still in the cache. */
  ghost predicate Tracks(c: Chain, used: set<nat>, first: nat) {
    && (forall k :: k in used ==> 1 <= k < c.nextCtr && k !in c.skipped)
    && (c.caughtUp <==> used != {})
    && (c.caughtUp ==> c.nextCtr - 1 in used)
    && (c.caughtUp ==>
          forall k :: first < k < c.nextCtr && c.nextCtr - k <= MAX_SKIP + 1 && k !in used ==> k in c.skipped)
  }

  lemma MessageKeyFrom(s: Suite, root: Key, c: Chain, k: nat)
    requires Genuine(s, root, c) && c.nextCtr <= k
    ensures KeyAhead(s, c, k) == MessageKeyAt(s, root, k)
  {
    ChainAtAdd(s, root, c.nextCtr - 1, k - c.nextCtr);
  }

  /** A key is right whenever one is returned, and the chain stays genuine. */
  lemma DecryptionGenuine(s: Suite, root: Key, c: Chain, target: nat)
    requires Genuine(s, root, c)
    ensures Genuine(s, root, DecryptionStep(s, c, target).0)
    ensures var key := DecryptionStep(s, c, target).1;
            key.Some? ==> target >= 1 && key.value == MessageKeyAt(s, root, target)
  {
    if target in c.skipped {
      ForgetGenuine(s, root, c, target);
    } else if target >= c.nextCtr {
      MessageKeyFrom(s, root, c, target);
      AdvancedGenuine(s, root, c, target);
    }
  }

  lemma ForgetGenuine(s: Suite, root: Key, c: Chain, k: nat)
    requires Genuine(s, root, c)
    ensures Genuine(s, root, c.(skipped := c.skipped - {k}, caughtUp := true))
  {
  }

  /** The cache never outgrows MAX_SKIP. */
  lemma DecryptionBounded(s: Suite, c: Chain, target: nat)
    requires |c.skipped.Keys| <= MAX_SKIP
    ensures |DecryptionStep(s, c, target).0.skipped.Keys| <= MAX_SKIP
  {
    if target in c.skipped {
      assert (c.skipped - {target}).Keys == c.skipped.Keys - {target};
    } else {
      NewestAreFew(Passing(s, c, target).Keys);
    }
  }

  lemma AdvancedGenuine(s: Suite, root: Key, c: Chain, target: nat)
    requires Genuine(s, root, c) && target >= c.nextCtr
    ensures var cache := if c.caughtUp then CacheAfter(s, c, target) else c.skipped;
            var chainKey := ChainAt(s, c.chainKey, target - c.nextCtr + 1);
            Genuine(s, root, Chain(chainKey, target + 1, c.salt, c.keyId, cache, true))
  {
    AdvancedKey(s, root, c, target);
    if c.caughtUp {
      CacheGenuine(s, root, c, target);
      MakeGenuine(s, root, c, target, CacheAfter(s, c, target));
    } else {
      MakeGenuine(s, root, c, target, c.skipped);
    }
  }

  lemma AdvancedKey(s: Suite, root: Key, c: Chain, target: nat)
    requires Genuine(s, root, c) && target >= c.nextCtr
    ensures ChainAt(s, c.chainKey, target - c.nextCtr + 1) == ChainAt(s, root, target)
  {
    ChainAtAdd(s, root, c.nextCtr - 1, target - c.nextCtr + 1);
  }

  lemma MakeGenuine(s: Suite, root: Key, c: Chain, target: nat, cache: map<nat, Key>)
    requires target >= 1
    requires forall k :: k in cache ==> 1 <= k <= target && cache[k] == MessageKeyAt(s, root, k)
    ensures Genuine(s, root, Chain(ChainAt(s, root, target), target + 1, c.salt, c.keyId, cache, true))
  {
  }

  lemma CacheGenuine(s: Suite, root: Key, c: Chain, target: nat)
    requires Genuine(s, root, c) && target >= c.nextCtr
    ensures var m := CacheAfter(s, c, target);
            forall k :: k in m ==> 1 <= k < target && m[k] == MessageKeyAt(s, root, k)
  {
    var m := CacheAfter(s, c, target);
    forall k | k in m
      ensures 1 <= k < target && m[k] == MessageKeyAt(s, root, k)
    {
      if k >= c.nextCtr {
        MessageKeyFrom(s, root, c, k);
      }
    }
  }

  /** Eviction spares every counter among the MAX_SKIP before the target. */
  lemma CacheKeeps(s: Suite, c: Chain, target: nat, k: nat)
    requires target >= c.nextCtr && k < target && target - k <= MAX_SKIP
    requires forall j :: j in c.skipped ==> j < c.nextCtr
    requires k in c.skipped || k >= c.nextCtr
    ensures k in CacheAfter(s, c, target)
  {
    var cache := Passing(s, c, target);
    assert k in cache.Keys;
    if k !in KeepNewest(cache.Keys) {
      DroppedIsOld(cache.Keys, k, target);
    }
  }

  /** The bookkeeping survives every request; a key handed out now was not
      handed out before. */
  lemma DecryptionTracks(s: Suite, c: Chain, used: set<nat>, first: nat, target: nat)
    requires Tracks(c, used, first) && (!c.caughtUp ==> c.skipped == map[]) && c.nextCtr >= 1
    requires forall k :: k in c.skipped ==> 1 <= k < c.nextCtr
    ensures var (c', key) := DecryptionStep(s, c, target);
            key.Some? ==> target !in used && Tracks(c', used + {target}, if c.caughtUp then first else target)
    ensures var (c', key) := DecryptionStep(s, c, target);
            key.None? ==> c' == c
  {
    var (c', key) := DecryptionStep(s, c, target);
    if target !in c.skipped && key.Some? && c.caughtUp {
      forall k | first < k < c'.nextCtr && c'.nextCtr - k <= MAX_SKIP + 1 && k !in used + {target}
        ensures k in c'.skipped
      {
        CacheKeeps(s, c, target, k);
      }
    }
  }

  /** Requests served in order, starting from chain c. */
  ghost function Serve(s: Suite, c: Chain, targets: seq<nat>): (r: (Chain, seq<Option<Key>>))
    ensures |r.1| == |targets|
    decreases |targets|
  {
    if targets == [] then (c, [])
    else
      var (before, keys) := Serve(s, c, targets[..|targets| - 1]);
      var (after, key) := DecryptionStep(s, before, targets[|targets| - 1]);
      (after, keys + [key])
  }

  ghost function Handed(targets: seq<nat>, keys: seq<Option<Key>>): set<nat>
    requires |targets| == |keys|
  {
    set i | 0 <= i < |targets| && keys[i].Some? :: targets[i]
  }

  /** The first counter whose key was handed out, if any. */
  ghost function FirstHanded(targets: seq<nat>, keys: seq<Option<Key>>): nat
    requires |targets| == |keys|
    decreases |targets|
  {
    if targets == [] then 0
    else if keys[0].Some? then targets[0]
    else FirstHanded(targets[1..], keys[1..])
  }

  /** Returned keys are right, and no counter's key was returned twice. */
  ghost predicate KeysRight(s: Suite, root: Key, targets: seq<nat>, keys: seq<Option<Key>>)
    requires |targets| == |keys|
  {
    && (forall i :: 0 <= i < |targets| && keys[i].Some? ==>
          targets[i] >= 1 && keys[i].value == MessageKeyAt(s, root, targets[i]))
    && (forall i, j :: 0 <= i < j < |targets| && keys[i].Some? && keys[j].Some? ==> targets[i] != targets[j])
  }

  /** What holds after serving requests to a freshly installed chain: a returned
      key is the message key of its counter, no counter's key was returned twice,
      and the cache is bounded, correct and complete near its head: from the first
      counter served on, an unused key among the last MAX_SKIP is still there. */
  ghost predicate Served(s: Suite, root: Key, targets: seq<nat>, c: Chain, keys: seq<Option<Key>>)
    requires |targets| == |keys|
  {
    && Genuine(s, root, c)
    && |c.skipped.Keys| <= MAX_SKIP
    && Tracks(c, Handed(targets, keys), FirstHanded(targets, keys))
    && KeysRight(s, root, targets, keys)
  }

  lemma {:induction false} ServeIsSound(s: Suite, rawKey: Key, keyId: int, targets: seq<nat>)
    ensures var (c, keys) := Serve(s, InitChain(s, rawKey, keyId), targets);
            Served(s, s.rootKey(rawKey, keyId), targets, c, keys)
    decreases |targets|
  {
    if targets != [] {
      var n := |targets| - 1;
      ServeIsSound(s, rawKey, keyId, targets[..n]);
      var (c, keys) := Serve(s, InitChain(s, rawKey, keyId), targets[..n]);
      ServeOneMore(s, s.rootKey(rawKey, keyId), targets[..n], c, keys, targets[n]);
      ServeMore(s, InitChain(s, rawKey, keyId), targets[..n], targets[n]);
      assert targets == targets[..n] + [targets[n]];
    }
  }

  lemma ServeMore(s: Suite, c: Chain, targets: seq<nat>, target: nat)
    ensures var (before, keys) := Serve(s, c, targets);
            var (after, key) := DecryptionStep(s, before, target);
            Serve(s, c, targets + [target]) == (after, keys + [key])
  {
    assert (targets + [target])[..|targets|] == targets;
  }

  lemma ServeOneMore(s: Suite, root: Key, targets: seq<nat>, c: Chain, keys: seq<Option<Key>>, target: nat)
    requires |targets| == |keys| && Served(s, root, targets, c, keys)
    ensures var (c', key) := DecryptionStep(s, c, target);
            Served(s, root, targets + [target], c', keys + [key])
  {
    var key := DecryptionStep(s, c, target).1;
    DecryptionGenuine(s, root, c, target);
    DecryptionBounded(s, c, target);
    HandedGrows(targets, keys, target, key);
    FirstHandedMore(targets, keys, target, key);
    ServeTracks(s, c, Handed(targets, keys), FirstHanded(targets, keys), target);
    KeysRightMore(s, root, targets, keys, target, key);
  }

  lemma KeysRightMore(s: Suite, root: Key, targets: seq<nat>, keys: seq<Option<Key>>, target: nat, key: Option<Key>)
    requires |targets| == |keys| && KeysRight(s, root, targets, keys)
    requires key.Some? ==> target !in Handed(targets, keys)
    requires key.Some? ==> target >= 1 && key.value == MessageKeyAt(s, root, target)
    ensures KeysRight(s, root, targets + [target], keys + [key])
  {
    HandedGrows(targets, keys, target, key);
  }

  lemma {:induction false} FirstHandedMore(targets: seq<nat>, keys: seq<Option<Key>>, target: nat, key: Option<Key>)
    requires |targets| == |keys|
    ensures FirstHanded(targets + [target], keys + [key]) ==
            if Handed(targets, keys) == {} && key.Some? then target else FirstHanded(targets, keys)
    decreases |targets|
  {
    if targets != [] {
      assert (targets + [target])[1..] == targets[1..] + [target] && (keys + [key])[1..] == keys[1..] + [key];
      FirstHandedMore(targets[1..], keys[1..], target, key);
      HandedTail(targets, keys);
    } else {
      assert Handed(targets, keys) == {};
    }
  }

  lemma HandedTail(targets: seq<nat>, keys: seq<Option<Key>>)
    requires |targets| == |keys| && targets != []
    ensures Handed(targets, keys) == {} <==> keys[0].None? && Handed(targets[1..], keys[1..]) == {}
  {
    if keys[0].Some? {
      assert targets[0] in Handed(targets, keys);
    }
    forall x | x in Handed(targets[1..], keys[1..])
      ensures x in Handed(targets, keys)
    {
      var i :| 0 <= i < |targets[1..]| && keys[1..][i].Some? && targets[1..][i] == x;
      assert keys[i + 1].Some? && targets[i + 1] == x;
    }
    if keys[0].None? {
      forall x | x in Handed(targets, keys)
        ensures x in Handed(targets[1..], keys[1..])
      {
        var i :| 0 <= i < |targets| && keys[i].Some? && targets[i] == x;
        assert keys[1..][i - 1].Some? && targets[1..][i - 1] == x;
      }
    }
  }

  /** DecryptionTracks with both outcomes in one form. */
  lemma ServeTracks(s: Suite, c: Chain, used: set<nat>, first: nat, target: nat)
    requires Tracks(c, used, first) && (!c.caughtUp ==> c.skipped == map[]) && c.nextCtr >= 1
    requires forall k :: k in c.skipped ==> 1 <= k < c.nextCtr
    ensures var (c', key) := DecryptionStep(s, c, target);
            && (key.Some? ==> target !in used)
            && Tracks(c', used + (if key.Some? then {target} else {}), if key.Some? && !c.caughtUp then target else first)
  {
    DecryptionTracks(s, c, used, first, target);
    assert used + {} == used;
  }

  lemma HandedGrows(targets: seq<nat>, keys: seq<Option<Key>>, target: nat, key: Option<Key>)
    requires |targets| == |keys|
    ensures Handed(targets + [target], keys + [key]) == Handed(targets, keys) + (if key.Some? then {target} else {})
    ensures forall i :: 0 <= i < |targets| && keys[i].Some? ==> targets[i] in Handed(targets, keys)
  {
    var targets', keys' := targets + [target], keys + [key];
    forall x | x in Handed(targets, keys)
      ensures x in Handed(targets', keys')
    {
      var i :| 0 <= i < |targets| && keys[i].Some? && targets[i] == x;
      assert targets'[i] == x && keys'[i].Some?;
    }
    assert targets'[|targets|] == target && keys'[|targets|] == key;
  }

  /** The keys of the first n frames a sender encrypts. */
  ghost function EncryptionKeys(s: Suite, c: Chain, n: nat): (r: (Chain, seq<Key>))
    ensures |r.1| == n
  {
    if n == 0 then (c, [])
    else
      var (before, keys) := EncryptionKeys(s, c, n - 1);
      var (after, key) := EncryptionStep(s, before);
      (after, keys + [key])
  }

  /** The sender's k-th key is the k-th message key. */
  lemma {:induction false} EncryptionKeysAt(s: Suite, rawKey: Key, keyId: int, n: nat)
    ensures var root := s.rootKey(rawKey, keyId);
            var (c, keys) := EncryptionKeys(s, InitChain(s, rawKey, keyId), n);
            && Genuine(s, root, c) && c.nextCtr == n + 1
            && (forall k :: 1 <= k <= n ==> keys[k - 1] == MessageKeyAt(s, root, k))
  {
    if n > 0 {
      EncryptionKeysAt(s, rawKey, keyId, n - 1);
    }
  }

  /** Sender and receiver agree: whatever the receiver was asked before, a key it
      returns for counter c is the one the sender used for its c-th frame. */
  lemma ReceiverAgreesWithSender(s: Suite, rawKey: Key, keyId: int, targets: seq<nat>, n: nat, i: nat)
    requires i < |targets| && targets[i] <= n
    requires Serve(s, InitChain(s, rawKey, keyId), targets).1[i].Some?
    ensures targets[i] >= 1
    ensures Serve(s, InitChain(s, rawKey, keyId), targets).1[i].value ==
            EncryptionKeys(s, InitChain(s, rawKey, keyId), n).1[targets[i] - 1]
  {
    ServeIsSound(s, rawKey, keyId, targets);
    EncryptionKeysAt(s, rawKey, keyId, n);
  }
}
