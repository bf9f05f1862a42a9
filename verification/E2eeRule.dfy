/** Which unaltered frames of a key are enqueued, as a rule on their counters alone. */
module E2eeRule {
  import opened Common
  import opened KdfChain
  import opened ReplayWindow
  import opened FrameFormat
  import opened E2eeSession
  import opened E2eeSender
  import opened E2eeReceiver

  /** The counters the window accepted and the highest of them; the counters enqueued since
      the key was last installed, the first in time and the largest of them. */
  datatype Rule = Rule(accepted: set<nat>, highest: nat, enqueued: set<nat>, first: nat, top: nat)

  const EMPTY_RULE := Rule({}, 0, {}, 0, 0)

  ghost predicate IsFresh(rule: Rule, ctr: nat) {
    rule.accepted == {} || Fresh(rule.accepted, rule.highest, ctr)
  }

  /** Before anything was enqueued a counter must be within the catch-up limit; afterwards
      it must follow the first one and skip at most MAX_SKIP counters after the largest. */
  predicate WithinLimits(rule: Rule, ctr: nat) {
    if rule.enqueued == {} then 1 <= ctr <= MAX_INITIAL_SKIP + 1
    else rule.first < ctr <= rule.top + 1 + MAX_SKIP
  }

  function Accept(rule: Rule, ctr: nat): Rule {
    rule.(accepted := rule.accepted + {ctr},
          highest := if rule.accepted == {} || ctr > rule.highest then ctr else rule.highest)
  }

  function Enqueued(rule: Rule, ctr: nat): Rule {
    rule.(enqueued := rule.enqueued + {ctr},
          first := if rule.enqueued == {} then ctr else rule.first,
          top := if rule.enqueued == {} || ctr > rule.top then ctr else rule.top)
  }

  /** The rule: enqueued exactly if fresh and within limits. A fresh counter counts as
      accepted even if it is not enqueued. */
  ghost function Decide(rule: Rule, ctr: nat): (Rule, bool) {
    if !IsFresh(rule, ctr) then (rule, false)
    else if !WithinLimits(rule, ctr) then (Accept(rule, ctr), false)
    else (Enqueued(Accept(rule, ctr), ctr), true)
  }

  ghost predicate WindowFits(w: Option<Window>, rule: Rule) {
    Represents(w, rule.accepted) && (w.Some? ==> w.value.highest == rule.highest)
  }

  ghost predicate ChainFits(c: Chain, rule: Rule) {
    && rule.enqueued <= rule.accepted
    && Tracks(c, rule.enqueued, rule.first)
    && (if c.caughtUp then c.nextCtr == rule.top + 1 && rule.top in rule.accepted && rule.first < c.nextCtr
        else c.nextCtr == 1 && c.skipped == map[])
    && (forall k :: k in c.skipped ==> rule.first < k < c.nextCtr)
  }

  lemma WindowDecides(w: Option<Window>, rule: Rule, ctr: nat)
    requires WindowFits(w, rule)
    ensures var (w', ok) := Check(w, ctr);
            && (ok <==> IsFresh(rule, ctr))
            && WindowFits(w', if ok then Accept(rule, ctr) else rule)
  {
    CheckRefines(w, rule.accepted, ctr);
  }

  lemma HighestBounds(w: Option<Window>, rule: Rule, k: nat)
    requires WindowFits(w, rule) && k in rule.accepted
    ensures k <= rule.highest
  {
  }

  /** For a fresh counter the chain has a key exactly within the limits. */
  lemma ChainDecides(s: Suite, c: Chain, w: Option<Window>, rule: Rule, ctr: nat)
    requires WindowFits(w, rule) && ChainFits(c, rule) && IsFresh(rule, ctr)
    ensures DecryptionStep(s, c, ctr).1.Some? <==> WithinLimits(rule, ctr)
  {
    if c.caughtUp {
      HighestBounds(w, rule, rule.top);
      if rule.first < ctr < c.nextCtr {
        assert ctr !in rule.enqueued;
        assert ctr in c.skipped;
      }
    }
  }

  lemma ServedFits(s: Suite, c: Chain, rule: Rule, ctr: nat)
    requires ChainFits(c, rule) && DecryptionStep(s, c, ctr).1.Some?
    ensures ChainFits(DecryptionStep(s, c, ctr).0, Enqueued(Accept(rule, ctr), ctr))
  {
    DecryptionTracks(s, c, rule.enqueued, rule.first, ctr);
    SkippedBounds(s, c, rule, ctr);
    assert ctr in rule.accepted + {ctr};
  }

  lemma SkippedBounds(s: Suite, c: Chain, rule: Rule, ctr: nat)
    requires ChainFits(c, rule) && DecryptionStep(s, c, ctr).1.Some?
    ensures var (c', _) := DecryptionStep(s, c, ctr);
            forall k :: k in c'.skipped ==> (if c.caughtUp then rule.first else ctr) < k < c'.nextCtr
  {
  }

  /** One arrival follows the rule. */
  lemma ArriveDecides(s: Suite, c: Chain, w: Option<Window>, rule: Rule, ctr: nat)
    requires WindowFits(w, rule) && ChainFits(c, rule)
    ensures var (c', w', ok) := Arrive(s, c, w, ctr);
            var (rule', verdict) := Decide(rule, ctr);
            ok == verdict && WindowFits(w', rule') && ChainFits(c', rule')
  {
    WindowDecides(w, rule, ctr);
    if IsFresh(rule, ctr) {
      ChainDecides(s, c, w, rule, ctr);
      if WithinLimits(rule, ctr) {
        ServedFits(s, c, rule, ctr);
      }
    }
  }

  /** Installing a key starts over with its chain and keeps its window. */
  function Reinstalled(rule: Rule): Rule {
    rule.(enqueued := {}, first := 0, top := 0)
  }

  lemma InstallFits(s: Suite, rawKey: Key, keyId: int, rule: Rule)
    ensures ChainFits(InitChain(s, rawKey, keyId), Reinstalled(rule))
  {
  }

  /** Counters arriving one after the other at a freshly installed key. */
  ghost function DecideAll(ctrs: seq<nat>): (r: (Rule, seq<bool>))
    ensures |r.1| == |ctrs|
  {
    if ctrs == [] then (EMPTY_RULE, [])
    else
      var n := |ctrs| - 1;
      var (rule, verdicts) := DecideAll(ctrs[..n]);
      var (rule', verdict) := Decide(rule, ctrs[n]);
      (rule', verdicts + [verdict])
  }

  /** For every list of counters, chain and window together follow the rule. */
  lemma {:induction false} RunDecides(s: Suite, rawKey: Key, keyId: int, ctrs: seq<nat>)
    ensures var (c, w, oks) := ArriveAll(s, InitChain(s, rawKey, keyId), ctrs);
            var (rule, verdicts) := DecideAll(ctrs);
            oks == verdicts && WindowFits(w, rule) && ChainFits(c, rule)
  {
    if ctrs == [] {
      InstallFits(s, rawKey, keyId, EMPTY_RULE);
    } else {
      var n := |ctrs| - 1;
      RunDecides(s, rawKey, keyId, ctrs[..n]);
      var (c, w, _) := ArriveAll(s, InitChain(s, rawKey, keyId), ctrs[..n]);
      ArriveDecides(s, c, w, DecideAll(ctrs[..n]).0, ctrs[n]);
    }
  }

  /** The first arrival is within the catch-up limit; later ones never skip more than
      MAX_SKIP counters after the highest so far. */
  ghost predicate Paced(ctrs: seq<nat>) {
    && (ctrs != [] ==> 1 <= ctrs[0] <= MAX_INITIAL_SKIP + 1)
    && (forall i :: 1 <= i < |ctrs| ==> ctrs[i] <= Accepted(ctrs[..i]).1 + MAX_SKIP + 1)
  }

  lemma PacedPrefix(ctrs: seq<nat>, n: nat)
    requires Paced(ctrs) && n <= |ctrs|
    ensures Paced(ctrs[..n])
  {
    assert forall i :: 1 <= i < n ==> ctrs[..n][..i] == ctrs[..i];
  }

  /** Enqueued are exactly the fresh counters from the first one on. */
  ghost predicate VerdictAt(ctrs: seq<nat>, i: nat) {
    i < |ctrs| && (DecideAll(ctrs).1[i] <==> Accepted(ctrs).2[i] && ctrs[i] >= ctrs[0])
  }

  ghost predicate PacedState(ctrs: seq<nat>) {
    var (rule, (accepted, highest, _)) := (DecideAll(ctrs).0, Accepted(ctrs));
    && rule.accepted == accepted && rule.highest == highest
    && (ctrs == [] ==> rule == EMPTY_RULE)
    && (ctrs != [] ==> rule.enqueued != {} && rule.first == ctrs[0] && rule.top == highest && ctrs[0] in accepted
                       && ctrs[0] <= highest)
  }

  lemma {:induction false} PacedRun(ctrs: seq<nat>)
    requires Paced(ctrs)
    ensures PacedState(ctrs) && forall i :: 0 <= i < |ctrs| ==> VerdictAt(ctrs, i)
  {
    if ctrs != [] {
      var n := |ctrs| - 1;
      PacedPrefix(ctrs, n);
      PacedRun(ctrs[..n]);
      forall i | 0 <= i < |ctrs|
        ensures VerdictAt(ctrs, i)
      {
        assert i < n ==> VerdictAt(ctrs[..n], i);
      }
    }
  }

  /** Complete delivery inside the window: over every paced list of counters each arrival is
      enqueued exactly when it is fresh and not before the first decrypted one. */
  lemma CompleteInWindow(s: Suite, rawKey: Key, keyId: int, ctrs: seq<nat>, i: nat)
    requires Paced(ctrs) && i < |ctrs|
    ensures ArriveAll(s, InitChain(s, rawKey, keyId), ctrs).2[i] <==> Accepted(ctrs).2[i] && ctrs[i] >= ctrs[0]
  {
    RunDecides(s, rawKey, keyId, ctrs);
    PacedRun(ctrs);
    assert VerdictAt(ctrs, i);
  }
}
