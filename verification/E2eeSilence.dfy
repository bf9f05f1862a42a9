/** When a key has gone silent: its rule lets nothing through any more. */
module E2eeSilence {
  import opened Common
  import opened KdfChain
  import opened ReplayWindow
  import opened E2eeRule
  import opened E2eeCompleteness

  /** The limits of the rule as an interval. */
  function Floor(rule: Rule): nat {
    if rule.enqueued == {} then 0 else rule.first
  }

  function Limit(rule: Rule): nat {
    if rule.enqueued == {} then MAX_INITIAL_SKIP + 1 else rule.top + 1 + MAX_SKIP
  }

  ghost predicate Sane(rule: Rule) {
    && (forall k :: k in rule.accepted ==> k <= rule.highest)
    && (rule.enqueued != {} ==> rule.first <= rule.top && rule.top in rule.accepted)
  }

  /** The rule of a key is sane in every run. */
  lemma {:induction false} RuleIsSane(items: seq<Item>, keyId: int)
    ensures Sane(RuleOf(items, keyId))
  {
    if items != [] {
      RuleIsSane(items[..|items| - 1], keyId);
    }
  }

  ghost predicate LetsThrough(rule: Rule, ctr: nat) {
    Decide(rule, ctr).1
  }

  ghost predicate Silent(rule: Rule) {
    forall ctr :: !LetsThrough(rule, ctr)
  }

  /** Counter ctr is within window and limits and was not seen yet. */
  ghost predicate IsOpen(rule: Rule, ctr: nat) {
    Floor(rule) < ctr <= Limit(rule) && rule.highest - ctr < WINDOW && ctr !in rule.accepted
  }

  /** A key is silent exactly if the highest counter seen is at the limit or beyond and
      every counter within both window and limits was seen already. */
  lemma SilentIff(rule: Rule)
    requires Sane(rule)
    ensures Silent(rule) <==>
            rule.accepted != {} && rule.highest >= Limit(rule) && forall ctr :: !IsOpen(rule, ctr)
  {
    if Silent(rule) {
      assert !LetsThrough(rule, Limit(rule));
      forall ctr
        ensures !IsOpen(rule, ctr)
      {
        assert !LetsThrough(rule, ctr);
      }
    }
    if rule.accepted != {} && rule.highest >= Limit(rule) && forall ctr :: !IsOpen(rule, ctr) {
      forall ctr
        ensures !LetsThrough(rule, ctr)
      {
        assert !IsOpen(rule, ctr);
      }
    }
  }

  /** Nothing that arrives ends the silence. */
  lemma SilenceStays(rule: Rule, ctr: nat)
    requires Silent(rule)
    ensures !Decide(rule, ctr).1 && Silent(Decide(rule, ctr).0)
  {
    assert !LetsThrough(rule, ctr);
    var rule' := Decide(rule, ctr).0;
    forall k
      ensures !LetsThrough(rule', k)
    {
      assert !LetsThrough(rule, k);
    }
  }

  /** It lasts until the key is installed again: over every run, whatever arrives for this
      key or others, no frame of it goes through before that. */
  lemma {:induction false} SilentUntilLearned(items: seq<Item>, more: seq<Item>, keyId: int)
    requires Silent(RuleOf(items, keyId)) && LearnKey(keyId) !in more
    ensures Silent(RuleOf(items + more, keyId))
    ensures forall j :: 0 <= j < |more| && more[j].Arriving? && more[j].frame.keyId == keyId ==>
              !GoesThrough(items + more[..j], more[j])
    decreases |more|
  {
    if more == [] {
      assert items + more == items;
    } else {
      var n := |more| - 1;
      SilentUntilLearned(items, more[..n], keyId);
      assert items + more == items + more[..n] + [more[n]];
      ItemsMore(items + more[..n], more[n], keyId);
      if more[n].Arriving? {
        SilenceStays(RuleOf(items + more[..n], keyId), more[n].frame.ctr);
      }
      forall j | 0 <= j < |more| && more[j].Arriving? && more[j].frame.keyId == keyId
        ensures !GoesThrough(items + more[..j], more[j])
      {
        if j < n {
          assert more[..n][..j] == more[..j] && more[..n][j] == more[j];
        }
      }
    }
  }

  /** After a fresh install and counter 1, a counter h that is not enqueued silences the key
      exactly from 386 on. */
  lemma LeapSilencesIff(h: nat)
    ensures DecideAll([1]).1 == [true]
    ensures DecideAll([1, h]).1[1] <==> 1 < h <= 258
    ensures Silent(DecideAll([1, h]).0) <==> h >= 386
  {
    DecideMore([], 1);
    DecideMore([1], h);
    assert [] + [1] == [1] && [1] + [h] == [1, h];
    var rule := DecideAll([1, h]).0;
    SilentIff(rule);
    if 258 < h < 386 {
      assert IsOpen(rule, 258);
    }
  }

  /** Even before anything was decrypted: a first counter of 30129 or more silences the key. */
  lemma EarlyLeapSilencesIff(h: nat)
    ensures DecideAll([h]).1 == [1 <= h <= 30001]
    ensures Silent(DecideAll([h]).0) <==> h >= 30129
  {
    DecideMore([], h);
    assert [] + [h] == [h];
    var rule := DecideAll([h]).0;
    SilentIff(rule);
    if 30001 < h < 30129 {
      assert IsOpen(rule, 30001);
    }
  }
}
