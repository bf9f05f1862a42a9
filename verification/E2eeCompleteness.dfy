/** Whole runs of the receiver over unaltered frames of any number of keys: exactly the
    frames that each key's delivery rule lets through are enqueued. */
module E2eeCompleteness {
  import opened Common
  import opened KdfChain
  import opened ReplayWindow
  import opened FrameFormat
  import opened E2eeSession
  import opened E2eeSender
  import opened E2eeReceiver
  import opened E2eeNetwork
  import opened E2eeRule

  datatype Item = LearnKey(keyId: int) | ForgetBelow(keep: int) | Arriving(frame: SentFrame)

  function ToArrival(item: Item): Arrival {
    match item
    case LearnKey(keyId) => Learn(keyId)
    case ForgetBelow(keep) => Forget(keep)
    case Arriving(f) => Deliver(f.wire)
  }

  function Arrivals(items: seq<Item>): (r: seq<Arrival>)
    ensures |r| == |items|
  {
    if items == [] then [] else Arrivals(items[..|items| - 1]) + [ToArrival(items[|items| - 1])]
  }

  /** The key was learned and not forgotten since. */
  predicate IsInstalled(items: seq<Item>, keyId: int) {
    items != [] &&
    (var n := |items| - 1;
     match items[n]
     case LearnKey(k) => k == keyId || IsInstalled(items[..n], keyId)
     case ForgetBelow(keep) => keyId >= keep && IsInstalled(items[..n], keyId)
     case Arriving(_) => IsInstalled(items[..n], keyId))
  }

  /** Where the delivery rule of a key stands: learning it again starts over, and frames
      count while it is installed. */
  ghost function RuleOf(items: seq<Item>, keyId: int): Rule {
    if items == [] then EMPTY_RULE
    else
      var n := |items| - 1;
      RuleStep(items[..n], RuleOf(items[..n], keyId), items[n], keyId)
  }

  ghost function RuleStep(before: seq<Item>, rule: Rule, item: Item, keyId: int): Rule {
    if item == LearnKey(keyId) then Reinstalled(rule)
    else if item.Arriving? && item.frame.keyId == keyId && IsInstalled(before, keyId)
    then Decide(rule, item.frame.ctr).0 else rule
  }

  /** The item is a frame whose key is installed and whose rule lets it through. */
  ghost predicate GoesThrough(before: seq<Item>, item: Item) {
    && item.Arriving? && IsInstalled(before, item.frame.keyId)
    && Decide(RuleOf(before, item.frame.keyId), item.frame.ctr).1
  }

  /** The originals of the frames that go through. */
  ghost function Expected(items: seq<Item>): seq<Output> {
    if items == [] then []
    else
      var n := |items| - 1;
      if GoesThrough(items[..n], items[n])
      then Expected(items[..n]) + [Output(n, items[n].frame.frame.data)]
      else Expected(items[..n])
  }

  /** Keys are learned from the table. Frames arrive unaltered; one whose key is not
      installed does not decrypt under another key id. */
  ghost predicate ItemOk(s: Suite, id: string, keys: map<int, Key>, before: seq<Item>, item: Item)
    requires Salted(s)
  {
    match item
    case LearnKey(keyId) => keyId in keys
    case ForgetBelow(_) => true
    case Arriving(f) =>
      && WellSealed(s, id, keys, f) && f.ctr < COUNTERS
      && (IsInstalled(before, f.keyId) || NoCrossOpening(s, id, keys, [f]))
  }

  ghost predicate AllOk(s: Suite, id: string, keys: map<int, Key>, items: seq<Item>)
    requires Salted(s)
  {
    items == [] ||
    (var n := |items| - 1; AllOk(s, id, keys, items[..n]) && ItemOk(s, id, keys, items[..n], items[n]))
  }

  /** Window and, while the key is installed, chain of a key stand as its rule says. */
  ghost predicate KeyFollows(items: seq<Item>, e: Session, keyId: int) {
    && WindowFits(WindowOf(e, keyId % 0x100), RuleOf(items, keyId))
    && (HasKey(e, keyId) <==> IsInstalled(items, keyId))
  }

  ghost predicate EntryFollows(items: seq<Item>, c: Chain) {
    ChainFits(c, RuleOf(items, c.keyId))
  }

  ghost predicate Follows(s: Suite, keys: map<int, Key>, items: seq<Item>, e: Session) {
    && EntriesOk(s, keys, e.entries)
    && (forall c :: c in e.entries ==> EntryFollows(items, c))
    && (forall keyId :: keyId in keys ==> KeyFollows(items, e, keyId))
  }

  lemma ItemsMore(items: seq<Item>, item: Item, keyId: int)
    ensures RuleOf(items + [item], keyId) == RuleStep(items, RuleOf(items, keyId), item, keyId)
    ensures IsInstalled(items + [item], keyId) <==>
            (match item
             case LearnKey(k) => k == keyId || IsInstalled(items, keyId)
             case ForgetBelow(keep) => keyId >= keep && IsInstalled(items, keyId)
             case Arriving(_) => IsInstalled(items, keyId))
    ensures Arrivals(items + [item]) == Arrivals(items) + [ToArrival(item)]
    ensures Expected(items + [item]) ==
            if GoesThrough(items, item) then Expected(items) + [Output(|items|, item.frame.frame.data)]
            else Expected(items)
  {
    assert (items + [item])[..|items|] == items;
  }

  lemma HasKeyAt(e: Session, at: nat)
    requires at < |e.entries|
    ensures HasKey(e, e.entries[at].keyId)
  {
  }

  lemma InEntries(e: Session, c: Chain)
    requires c in e.entries
    ensures HasKey(e, c.keyId)
  {
    var at :| 0 <= at < |e.entries| && e.entries[at] == c;
    HasKeyAt(e, at);
  }

  lemma HasKeyIff(e: Session, keyId: int)
    ensures HasKey(e, keyId) <==> exists c :: c in e.entries && c.keyId == keyId
  {
    if HasKey(e, keyId) {
      var at: nat :| at < |e.entries| && e.entries[at].keyId == keyId;
      assert e.entries[at] in e.entries;
    }
    if exists c :: c in e.entries && c.keyId == keyId {
      var c :| c in e.entries && c.keyId == keyId;
      InEntries(e, c);
    }
  }

  lemma LearnFollows(s: Suite, keys: map<int, Key>, items: seq<Item>, keyId: int, e: Session)
    requires Follows(s, keys, items, e) && keyId in keys
    ensures Follows(s, keys, items + [LearnKey(keyId)], SetKey(s, e, keys[keyId], keyId))
  {
    var item, e' := LearnKey(keyId), SetKey(s, e, keys[keyId], keyId);
    var added := InitChain(s, keys[keyId], keyId);
    FiltersKeepDistinct(e.entries, keyId);
    DistinctAppend(WithoutKey(e.entries, keyId), added);
    LearnEntries(s, keys, items, keyId, e);
    forall k | k in keys
      ensures KeyFollows(items + [item], e', k)
    {
      assert KeyFollows(items, e, k);
      ItemsMore(items, item, k);
      HasKeyIff(e, k);
      HasKeyIff(e', k);
      assert added in e'.entries;
    }
  }

  lemma LearnEntries(s: Suite, keys: map<int, Key>, items: seq<Item>, keyId: int, e: Session)
    requires Follows(s, keys, items, e) && keyId in keys
    ensures forall c :: c in SetKey(s, e, keys[keyId], keyId).entries ==> EntryFollows(items + [LearnKey(keyId)], c)
  {
    forall c | c in SetKey(s, e, keys[keyId], keyId).entries
      ensures EntryFollows(items + [LearnKey(keyId)], c)
    {
      ItemsMore(items, LearnKey(keyId), c.keyId);
      if c in WithoutKey(e.entries, keyId) {
        assert EntryFollows(items, c);
      } else {
        InstallFits(s, keys[keyId], keyId, RuleOf(items, keyId));
      }
    }
  }

  lemma ForgetFollows(s: Suite, keys: map<int, Key>, items: seq<Item>, keep: int, e: Session)
    requires Follows(s, keys, items, e)
    ensures Follows(s, keys, items + [ForgetBelow(keep)], PurgeOldKeys(e, keep))
  {
    var item, e' := ForgetBelow(keep), PurgeOldKeys(e, keep);
    FiltersKeepDistinct(e.entries, keep);
    forall k | k in keys
      ensures KeyFollows(items + [item], e', k)
    {
      assert KeyFollows(items, e, k);
      ItemsMore(items, item, k);
      HasKeyIff(e, k);
      HasKeyIff(e', k);
    }
    forall c | c in e'.entries
      ensures EntryFollows(items + [item], c)
    {
      assert EntryFollows(items, c);
      ItemsMore(items, item, c.keyId);
    }
  }

  /** A frame whose key is not installed changes nothing. */
  lemma UnknownKey(s: Suite, id: string, keys: map<int, Key>, e: Session, f: SentFrame)
    requires Salted(s) && Correct(s) && LowBytesDiffer(keys) && SaltsOk(e.entries) && EntriesOk(s, keys, e.entries)
    requires WellSealed(s, id, keys, f) && f.ctr < COUNTERS && NoCrossOpening(s, id, keys, [f])
    requires !HasKey(e, f.keyId)
    ensures Decrypt(s, id, e, f.wire) == (e, None)
  {
    SentIsUnforged(s, id, keys, [f], 0);
    var p := WireParses(s, id, keys, f);
    forall i | 0 <= i < |e.entries|
      ensures e.entries[i].keyId % 0x100 != p.Kid()
    {
      assert e.entries[i] in e.entries;
      HasKeyAt(e, i);
    }
    FallbackNeverOpens(s, id, keys, [f], e.entries, None, p, |e.entries|);
  }

  lemma UnknownFollows(s: Suite, keys: map<int, Key>, items: seq<Item>, f: SentFrame, e: Session)
    requires Follows(s, keys, items, e) && !IsInstalled(items, f.keyId)
    ensures Follows(s, keys, items + [Arriving(f)], e) && !GoesThrough(items, Arriving(f))
  {
    forall k | k in keys
      ensures KeyFollows(items + [Arriving(f)], e, k)
    {
      assert KeyFollows(items, e, k);
      ItemsMore(items, Arriving(f), k);
    }
    forall c | c in e.entries
      ensures EntryFollows(items + [Arriving(f)], c)
    {
      assert EntryFollows(items, c);
      ItemsMore(items, Arriving(f), c.keyId);
    }
  }

  lemma ArriveInstalled(s: Suite, keys: map<int, Key>, c: Chain, w: Option<Window>, ctr: nat)
    requires Installed(s, keys, c)
    ensures Installed(s, keys, Arrive(s, c, w, ctr).0) && Arrive(s, c, w, ctr).0.keyId == c.keyId
  {
    DecryptionGenuine(s, Root(s, keys, c.keyId), c, ctr);
    SameSalt(s, c, ctr);
  }

  /** A frame whose key is installed moves that key by its rule. */
  lemma DeliverFollows(s: Suite, id: string, keys: map<int, Key>, items: seq<Item>, f: SentFrame, e: Session)
    requires Salted(s) && Correct(s) && LowBytesDiffer(keys) && SaltsOk(e.entries)
    requires Follows(s, keys, items, e) && WellSealed(s, id, keys, f) && f.ctr < COUNTERS
    requires IsInstalled(items, f.keyId)
    ensures var (e', out) := Decrypt(s, id, e, f.wire);
            && Follows(s, keys, items + [Arriving(f)], e')
            && out == if GoesThrough(items, Arriving(f)) then Some(f.frame.data) else None
  {
    assert KeyFollows(items, e, f.keyId);
    var at: nat :| at < |e.entries| && e.entries[at].keyId == f.keyId;
    var c, kid := e.entries[at], f.keyId % 0x100;
    assert c in e.entries;
    assert EntryFollows(items, c);
    UnalteredDelivery(s, id, keys, e, f, at);
    ArriveDecides(s, c, WindowOf(e, kid), RuleOf(items, f.keyId), f.ctr);
    ArriveInstalled(s, keys, c, WindowOf(e, kid), f.ctr);
    var e', c' := Decrypt(s, id, e, f.wire).0, Arrive(s, c, WindowOf(e, kid), f.ctr).0;
    EntryUpdate(s, keys, e.entries, at, c');
    ItemsMore(items, Arriving(f), f.keyId);
    OthersFollow(s, keys, items, f, e, e', at, c');
  }

  /** The other keys stay where they are. */
  lemma OthersFollow(s: Suite, keys: map<int, Key>, items: seq<Item>, f: SentFrame, e: Session, e': Session,
                     at: nat, c': Chain)
    requires LowBytesDiffer(keys) && Follows(s, keys, items, e) && f.keyId in keys
    requires at < |e.entries| && e.entries[at].keyId == f.keyId == c'.keyId && e'.entries == e.entries[at := c']
    requires forall k :: k != f.keyId % 0x100 ==> WindowOf(e', k) == WindowOf(e, k)
    requires EntryFollows(items + [Arriving(f)], c') && IsInstalled(items, f.keyId)
    requires WindowFits(WindowOf(e', f.keyId % 0x100), RuleOf(items + [Arriving(f)], f.keyId))
    ensures forall k :: k in keys ==> KeyFollows(items + [Arriving(f)], e', k)
    ensures forall d :: d in e'.entries ==> EntryFollows(items + [Arriving(f)], d)
  {
    forall k | k in keys
      ensures KeyFollows(items + [Arriving(f)], e', k)
    {
      assert KeyFollows(items, e, k);
      ItemsMore(items, Arriving(f), k);
      SameKeys(e, e', at, c', k);
    }
    forall d | d in e'.entries
      ensures EntryFollows(items + [Arriving(f)], d)
    {
      if d != c' {
        var j :| 0 <= j < |e'.entries| && e'.entries[j] == d;
        assert d == e.entries[j] && j != at;
        assert d in e.entries && EntryFollows(items, d);
        ItemsMore(items, Arriving(f), d.keyId);
      }
    }
  }

  lemma SameKeys(e: Session, e': Session, at: nat, c': Chain, k: int)
    requires at < |e.entries| && c'.keyId == e.entries[at].keyId && e'.entries == e.entries[at := c']
    ensures HasKey(e, k) <==> HasKey(e', k)
  {
    if HasKey(e, k) {
      var i: nat :| i < |e.entries| && e.entries[i].keyId == k;
      assert e'.entries[i].keyId == k;
    }
    if HasKey(e', k) {
      var i: nat :| i < |e'.entries| && e'.entries[i].keyId == k;
      assert e.entries[i].keyId == k;
    }
  }

  /** The session after one more item, and what it enqueued. */
  lemma FollowsMore(s: Suite, id: string, keys: map<int, Key>, items: seq<Item>, item: Item, e: Session)
    requires Salted(s) && Correct(s) && LowBytesDiffer(keys) && SaltsOk(e.entries)
    requires Follows(s, keys, items, e) && ItemOk(s, id, keys, items, item)
    ensures var (e', out) := ReceiveOne(s, id, keys, e, ToArrival(item));
            && Follows(s, keys, items + [item], e')
            && out == if GoesThrough(items, item) then Some(item.frame.frame.data) else None
  {
    match item
    case LearnKey(keyId) => LearnFollows(s, keys, items, keyId, e);
    case ForgetBelow(keep) => ForgetFollows(s, keys, items, keep, e);
    case Arriving(f) =>
      if IsInstalled(items, f.keyId) {
        DeliverFollows(s, id, keys, items, f, e);
      } else {
        assert KeyFollows(items, e, f.keyId);
        UnknownKey(s, id, keys, e, f);
        UnknownFollows(s, keys, items, f, e);
      }
  }

  ghost predicate RunFollows(s: Suite, id: string, keys: map<int, Key>, items: seq<Item>)
    requires Salted(s)
  {
    var (e, outs) := Receive(s, id, keys, Arrivals(items));
    Follows(s, keys, items, e) && outs == Expected(items)
  }

  lemma RunFollowsMore(s: Suite, id: string, keys: map<int, Key>, items: seq<Item>, item: Item)
    requires Salted(s) && Correct(s) && LowBytesDiffer(keys) && RunFollows(s, id, keys, items)
    requires ItemOk(s, id, keys, items, item)
    ensures RunFollows(s, id, keys, items + [item])
  {
    ItemsMore(items, item, 0);
    ReceiveMore(s, id, keys, Arrivals(items), ToArrival(item));
    FollowsMore(s, id, keys, items, item, Receive(s, id, keys, Arrivals(items)).0);
  }

  lemma NothingFollows(s: Suite, keys: map<int, Key>)
    ensures Follows(s, keys, [], EMPTY_SESSION)
  {
    forall k | k in keys
      ensures KeyFollows([], EMPTY_SESSION, k)
    {
      HasKeyIff(EMPTY_SESSION, k);
    }
  }

  /** Complete delivery: unaltered frames of any number of keys, in any order, with any
      losses, repetitions and gaps, before and after installs, purges and re-installs: a
      frame is enqueued exactly when its key is installed and the key's rule lets it
      through, and then as its original. */
  lemma {:induction false} CompleteDelivery(s: Suite, id: string, keys: map<int, Key>, items: seq<Item>)
    requires Salted(s) && Correct(s) && LowBytesDiffer(keys) && AllOk(s, id, keys, items)
    ensures RunFollows(s, id, keys, items)
    ensures Receive(s, id, keys, Arrivals(items)).1 == Expected(items)
  {
    if items == [] {
      NothingFollows(s, keys);
    } else {
      var n := |items| - 1;
      assert items == items[..n] + [items[n]];
      CompleteDelivery(s, id, keys, items[..n]);
      RunFollowsMore(s, id, keys, items[..n], items[n]);
    }
  }

  /** The counters of the frames of a key that arrive while it is installed, in order. */
  function CountersOf(items: seq<Item>, keyId: int): seq<nat> {
    if items == [] then []
    else
      var n := |items| - 1;
      CountersOf(items[..n], keyId) +
      if items[n].Arriving? && items[n].frame.keyId == keyId && IsInstalled(items[..n], keyId)
      then [items[n].frame.ctr] else []
  }

  /** The key is learned at most once. */
  predicate LearnedOnce(items: seq<Item>, keyId: int) {
    items == [] ||
    (var n := |items| - 1;
     LearnedOnce(items[..n], keyId) && (items[n] == LearnKey(keyId) ==> items[n] !in items[..n]))
  }

  lemma {:induction false} NeverLearned(items: seq<Item>, keyId: int)
    requires LearnKey(keyId) !in items
    ensures !IsInstalled(items, keyId) && RuleOf(items, keyId) == EMPTY_RULE && CountersOf(items, keyId) == []
  {
    if items != [] {
      NeverLearned(items[..|items| - 1], keyId);
    }
  }

  lemma DecideMore(ctrs: seq<nat>, ctr: nat)
    ensures var (rule, verdicts) := DecideAll(ctrs);
            DecideAll(ctrs + [ctr]) == (Decide(rule, ctr).0, verdicts + [Decide(rule, ctr).1])
  {
    assert (ctrs + [ctr])[..|ctrs|] == ctrs;
  }

  /** Then its rule is decided by those counters alone. */
  lemma {:induction false} RuleIsDecided(items: seq<Item>, keyId: int)
    requires LearnedOnce(items, keyId)
    ensures RuleOf(items, keyId) == DecideAll(CountersOf(items, keyId)).0
  {
    if items != [] {
      var n := |items| - 1;
      RuleIsDecided(items[..n], keyId);
      if items[n] == LearnKey(keyId) {
        NeverLearned(items[..n], keyId);
      } else if items[n].Arriving? {
        DecideMore(CountersOf(items[..n], keyId), items[n].frame.ctr);
      }
      assert CountersOf(items[..n], keyId) + [] == CountersOf(items[..n], keyId);
    }
  }

  /** In particular, while no gap exceeds MAX_SKIP: a frame of such a key goes through exactly
      when it is fresh among them and not before the first one. */
  lemma DeliveredInWindow(items: seq<Item>, f: SentFrame)
    requires LearnedOnce(items, f.keyId) && IsInstalled(items, f.keyId)
    requires Paced(CountersOf(items, f.keyId) + [f.ctr])
    ensures var ctrs := CountersOf(items, f.keyId) + [f.ctr];
            GoesThrough(items, Arriving(f)) <==> Accepted(ctrs).2[|ctrs| - 1] && f.ctr >= ctrs[0]
  {
    var ctrs := CountersOf(items, f.keyId) + [f.ctr];
    RuleIsDecided(items, f.keyId);
    DecideMore(CountersOf(items, f.keyId), f.ctr);
    PacedRun(ctrs);
    assert VerdictAt(ctrs, |ctrs| - 1);
  }
}
