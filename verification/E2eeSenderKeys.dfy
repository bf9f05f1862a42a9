/** Which key a sender encrypts under: in every run each frame is sealed under the key
    installed last among those not purged since, and the log follows from the events. */
module E2eeSenderKeys {
  import opened Common
  import opened KdfChain
  import opened FrameFormat
  import opened E2eeSession
  import opened E2eeSender

  /** The later event ends the use of an installed key: it installs that key id again or
      purges it. */
  predicate Supersedes(later: Event, keyId: int) {
    match later
    case Install(k, _) => k == keyId
    case Purge(keep) => keyId < keep
    case Send(_) => false
  }

  /** The key installed at event i is still held. */
  ghost predicate Held(events: seq<Event>, i: int) {
    && 0 <= i < |events| && events[i].Install?
    && forall j :: i < j < |events| ==> !Supersedes(events[j], events[i].keyId)
  }

  /** And no key installed later is. */
  ghost predicate Current(events: seq<Event>, i: int) {
    Held(events, i) && forall j :: i < j < |events| ==> !Held(events, j)
  }

  predicate Sendable(event: Event) {
    event.Send? && ClearBytes(event.frame) <= |event.frame.data|
  }

  /** How many frames were sealed under the key installed at event i. */
  ghost function SealedUnder(events: seq<Event>, i: int): nat {
    if events == [] then 0
    else
      var n := |events| - 1;
      SealedUnder(events[..n], i) + if Sendable(events[n]) && Current(events[..n], i) then 1 else 0
  }

  /** The frame f as sent after the given events and log, under the key of event i. */
  ghost function FrameUnder(s: Suite, id: string, events: seq<Event>, sent: seq<SentFrame>, f: Frame, i: int): SentFrame
    requires Salted(s) && 0 <= i < |events| && events[i].Install? && ClearBytes(f) <= |f.data|
  {
    var Install(keyId, rawKey) := events[i];
    var ctr := SentUnder(sent, keyId) + 1;
    SentFrame(keyId, ctr, f,
      SealFrame(s, id, MessageKeyAt(s, s.rootKey(rawKey, keyId), SealedUnder(events, i) + 1),
                s.baseSalt(rawKey, keyId), keyId, ctr, f))
  }

  /** What a run sends, from its events alone. */
  ghost function LogOf(s: Suite, id: string, events: seq<Event>): seq<SentFrame>
    requires Salted(s)
  {
    if events == [] then []
    else
      var n := |events| - 1;
      var sent := LogOf(s, id, events[..n]);
      if Sendable(events[n]) && exists i :: Current(events[..n], i) then
        var i :| Current(events[..n], i);
        sent + [FrameUnder(s, id, events[..n], sent, events[n].frame, i)]
      else sent
  }

  /** The last event that installed a key id, or -1. */
  ghost function LastInstall(events: seq<Event>, keyId: int): (i: int)
    ensures -1 <= i < |events|
    ensures i >= 0 ==> events[i].Install? && events[i].keyId == keyId
  {
    if events == [] then -1
    else
      var n := |events| - 1;
      if events[n].Install? && events[n].keyId == keyId then n else LastInstall(events[..n], keyId)
  }

  lemma {:induction false} HeldIsLast(events: seq<Event>, i: int)
    requires Held(events, i)
    ensures LastInstall(events, events[i].keyId) == i
  {
    var n := |events| - 1;
    if i < n {
      HeldEarlier(events, i);
      HeldIsLast(events[..n], i);
    }
  }

  /** What the last event changes about an earlier install. */
  lemma HeldEarlier(events: seq<Event>, i: int)
    requires 0 <= i < |events| - 1 && events[i].Install?
    ensures var n := |events| - 1;
            Held(events, i) <==> Held(events[..n], i) && !Supersedes(events[n], events[i].keyId)
  {
  }

  /** The chain of an installed key after n frames. */
  ghost function ChainOf(s: Suite, install: Event, n: nat): Chain
    requires install.Install?
  {
    var root := s.rootKey(install.rawKey, install.keyId);
    Chain(ChainAt(s, root, n), n + 1, s.baseSalt(install.rawKey, install.keyId), install.keyId, map[], false)
  }

  ghost predicate Before(events: seq<Event>, c: Chain, d: Chain) {
    LastInstall(events, c.keyId) < LastInstall(events, d.keyId)
  }

  ghost predicate InInstallOrder(events: seq<Event>, entries: seq<Chain>) {
    forall i, j :: 0 <= i < j < |entries| ==> Before(events, entries[i], entries[j])
  }

  ghost predicate EntryOf(s: Suite, events: seq<Event>, c: Chain) {
    var i := LastInstall(events, c.keyId);
    i >= 0 && Held(events, i) && c == ChainOf(s, events[i], SealedUnder(events, i))
  }

  ghost predicate HasKey(entries: seq<Chain>, keyId: int) {
    exists c :: c in entries && c.keyId == keyId
  }

  /** The table holds exactly the keys still held, in the order of their installs. */
  ghost predicate Mirrors(s: Suite, events: seq<Event>, entries: seq<Chain>) {
    && InInstallOrder(events, entries)
    && (forall c :: c in entries ==> EntryOf(s, events, c))
    && (forall i :: Held(events, i) ==> HasKey(entries, events[i].keyId))
  }

  lemma {:induction false} FiltersKeepOrder(events: seq<Event>, entries: seq<Chain>, keyId: int)
    requires InInstallOrder(events, entries)
    ensures InInstallOrder(events, WithoutKey(entries, keyId)) && InInstallOrder(events, FromKey(entries, keyId))
  {
    if entries != [] {
      FiltersKeepOrder(events, entries[1..], keyId);
      forall c | c in entries[1..]
        ensures Before(events, entries[0], c)
      {
        var j :| 0 <= j < |entries[1..]| && entries[1..][j] == c;
        assert entries[j + 1] == c;
      }
      OrderPrepend(events, entries[0], WithoutKey(entries[1..], keyId));
      OrderPrepend(events, entries[0], FromKey(entries[1..], keyId));
      assert [] + WithoutKey(entries[1..], keyId) == WithoutKey(entries[1..], keyId);
      assert [] + FromKey(entries[1..], keyId) == FromKey(entries[1..], keyId);
    }
  }

  lemma OrderPrepend(events: seq<Event>, c: Chain, rest: seq<Chain>)
    requires InInstallOrder(events, rest) && forall d :: d in rest ==> Before(events, c, d)
    ensures InInstallOrder(events, [c] + rest)
  {
  }

  /** The event changes no install of the entries given. */
  lemma OrderCarries(events: seq<Event>, entries: seq<Chain>)
    requires events != [] && InInstallOrder(events[..|events| - 1], entries)
    requires events[|events| - 1].Install? ==> !HasKey(entries, events[|events| - 1].keyId)
    ensures InInstallOrder(events, entries)
  {
    forall i, j | 0 <= i < j < |entries|
      ensures Before(events, entries[i], entries[j])
    {
      assert entries[i] in entries && entries[j] in entries;
      assert Before(events[..|events| - 1], entries[i], entries[j]);
    }
  }

  lemma EntryCarries(s: Suite, events: seq<Event>, c: Chain)
    requires events != [] && EntryOf(s, events[..|events| - 1], c)
    requires var event := events[|events| - 1]; !Sendable(event) && !Supersedes(event, c.keyId)
    ensures EntryOf(s, events, c)
  {
    HeldEarlier(events, LastInstall(events[..|events| - 1], c.keyId));
  }

  lemma {:induction false} NothingSealedBefore(events: seq<Event>, i: int)
    requires |events| <= i + 1
    ensures SealedUnder(events, i) == 0
  {
    if events != [] {
      NothingSealedBefore(events[..|events| - 1], i);
    }
  }

  lemma InstallMirrors(s: Suite, events: seq<Event>, entries: seq<Chain>)
    requires events != [] && events[|events| - 1].Install? && Mirrors(s, events[..|events| - 1], entries)
    ensures var Install(keyId, rawKey) := events[|events| - 1];
            Mirrors(s, events, WithoutKey(entries, keyId) + [InitChain(s, rawKey, keyId)])
  {
    var n := |events| - 1;
    var Install(keyId, rawKey) := events[n];
    var kept, added := WithoutKey(entries, keyId), InitChain(s, rawKey, keyId);
    var entries' := kept + [added];
    FiltersKeepOrder(events[..n], entries, keyId);
    OrderCarries(events, kept);
    NothingSealedBefore(events, n);
    assert EntryOf(s, events, added);
    forall c | c in kept
      ensures EntryOf(s, events, c) && Before(events, c, added)
    {
      EntryCarries(s, events, c);
    }
    assert InInstallOrder(events, entries') by {
      forall i, j | 0 <= i < j < |entries'|
        ensures Before(events, entries'[i], entries'[j])
      {
        assert i < |kept| && entries'[i] in kept;
        assert j < |kept| ==> Before(events, kept[i], kept[j]);
      }
    }
    forall i | Held(events, i)
      ensures HasKey(entries', events[i].keyId)
    {
      if i < n {
        HeldEarlier(events, i);
        var c :| c in entries && c.keyId == events[i].keyId;
        assert c in kept;
      } else {
        assert added in entries';
      }
    }
  }

  lemma PurgeMirrors(s: Suite, events: seq<Event>, entries: seq<Chain>)
    requires events != [] && events[|events| - 1].Purge? && Mirrors(s, events[..|events| - 1], entries)
    ensures Mirrors(s, events, FromKey(entries, events[|events| - 1].keep))
  {
    var n := |events| - 1;
    var kept := FromKey(entries, events[n].keep);
    FiltersKeepOrder(events[..n], entries, events[n].keep);
    OrderCarries(events, kept);
    forall c | c in kept
      ensures EntryOf(s, events, c)
    {
      EntryCarries(s, events, c);
    }
    forall i | Held(events, i)
      ensures HasKey(kept, events[i].keyId)
    {
      HeldEarlier(events, i);
      var c :| c in entries && c.keyId == events[i].keyId;
      assert c in kept;
    }
  }

  /** The last entry is that of the current key. */
  lemma LastIsCurrent(s: Suite, events: seq<Event>, entries: seq<Chain>)
    requires Mirrors(s, events, entries)
    ensures entries == [] <==> forall i :: !Held(events, i)
    ensures entries != [] ==>
              var c := entries[|entries| - 1];
              EntryOf(s, events, c) && forall i :: Current(events, i) <==> i == LastInstall(events, c.keyId)
  {
    if entries != [] {
      var c := entries[|entries| - 1];
      assert c in entries;
      var last := LastInstall(events, c.keyId);
      forall j | Held(events, j)
        ensures j <= last
      {
        var d :| d in entries && d.keyId == events[j].keyId;
        HeldIsLast(events, j);
        var k :| 0 <= k < |entries| && entries[k] == d;
        assert k < |entries| - 1 ==> Before(events, entries[k], c);
      }
    }
  }

  /** A chain after one more frame. */
  lemma ChainSteps(s: Suite, install: Event, n: nat)
    requires install.Install?
    ensures EncryptionStep(s, ChainOf(s, install, n)) ==
            (ChainOf(s, install, n + 1), MessageKeyAt(s, s.rootKey(install.rawKey, install.keyId), n + 1))
  {
  }

  /** Only the current key's entry moves with a frame. */
  lemma SendMovesLast(s: Suite, events: seq<Event>, entries: seq<Chain>, j: nat)
    requires events != [] && Sendable(events[|events| - 1]) && j < |entries|
    requires Mirrors(s, events[..|events| - 1], entries)
    ensures var k := |entries| - 1;
            EntryOf(s, events, if j == k then EncryptionStep(s, entries[k]).0 else entries[j])
  {
    var before, k := events[..|events| - 1], |entries| - 1;
    LastIsCurrent(s, before, entries);
    assert entries[j] in entries;
    var i := LastInstall(before, entries[j].keyId);
    HeldEarlier(events, i);
    if j == k {
      ChainSteps(s, events[i], SealedUnder(before, i));
    } else {
      assert Before(before, entries[j], entries[k]);
    }
  }

  /** The same key ids in the same order, after an event that installs and purges nothing. */
  lemma SameKeysMirror(s: Suite, events: seq<Event>, entries: seq<Chain>, entries': seq<Chain>)
    requires events != [] && events[|events| - 1].Send? && Mirrors(s, events[..|events| - 1], entries)
    requires |entries'| == |entries| && forall j :: 0 <= j < |entries| ==> entries'[j].keyId == entries[j].keyId
    requires forall j :: 0 <= j < |entries| ==> EntryOf(s, events, entries'[j])
    ensures Mirrors(s, events, entries')
  {
    forall i, j | 0 <= i < j < |entries'|
      ensures Before(events, entries'[i], entries'[j])
    {
      assert Before(events[..|events| - 1], entries[i], entries[j]);
    }
    forall i | Held(events, i)
      ensures HasKey(entries', events[i].keyId)
    {
      HeldEarlier(events, i);
      var c :| c in entries && c.keyId == events[i].keyId;
      var j :| 0 <= j < |entries| && entries[j] == c;
      assert entries'[j] in entries';
    }
  }

  lemma SendMirrors(s: Suite, events: seq<Event>, entries: seq<Chain>)
    requires events != [] && Sendable(events[|events| - 1]) && entries != []
    requires Mirrors(s, events[..|events| - 1], entries)
    ensures var k := |entries| - 1; Mirrors(s, events, entries[k := EncryptionStep(s, entries[k]).0])
  {
    var k := |entries| - 1;
    var entries' := entries[k := EncryptionStep(s, entries[k]).0];
    forall j | 0 <= j < |entries|
      ensures EntryOf(s, events, entries'[j])
    {
      SendMovesLast(s, events, entries, j);
    }
    SameKeysMirror(s, events, entries, entries');
  }

  lemma IdleMirrors(s: Suite, events: seq<Event>, entries: seq<Chain>)
    requires events != [] && events[|events| - 1].Send?
    requires Sendable(events[|events| - 1]) ==> entries == []
    requires Mirrors(s, events[..|events| - 1], entries)
    ensures Mirrors(s, events, entries)
  {
    forall j | 0 <= j < |entries|
      ensures EntryOf(s, events, entries[j])
    {
      assert entries[j] in entries;
      EntryCarries(s, events, entries[j]);
    }
    SameKeysMirror(s, events, entries, entries);
  }

  lemma StepMirrors(s: Suite, id: string, events: seq<Event>, e: Session)
    requires Salted(s) && SaltsOk(e.entries) && events != [] && Mirrors(s, events[..|events| - 1], e.entries)
    ensures Mirrors(s, events, Step(s, id, e, events[|events| - 1]).0.entries)
  {
    match events[|events| - 1]
    case Install(_, _) => InstallMirrors(s, events, e.entries);
    case Purge(_) => PurgeMirrors(s, events, e.entries);
    case Send(f) =>
      if e.entries != [] && ClearBytes(f) <= |f.data| {
        SendMirrors(s, events, e.entries);
      } else {
        IdleMirrors(s, events, e.entries);
      }
  }

  /** The header counters count the log. */
  ghost predicate CountsLog(e: Session, sent: seq<SentFrame>) {
    forall k: int :: NextCounter(e, k) == SentUnder(sent, k) + 1
  }

  lemma StepCounts(s: Suite, id: string, e: Session, sent: seq<SentFrame>, event: Event)
    requires Salted(s) && SaltsOk(e.entries) && CountsLog(e, sent)
    ensures var (e', more) := Step(s, id, e, event); CountsLog(e', sent + more)
  {
    var (e', more) := Step(s, id, e, event);
    forall k: int
      ensures NextCounter(e', k) == SentUnder(sent + more, k) + 1
    {
      assert NextCounter(e, k) == SentUnder(sent, k) + 1;
      if more == [] {
        assert sent + more == sent && e'.counters == e.counters;
      } else {
        SentUnderAppend(sent, more[0], k);
        assert more == [more[0]];
      }
    }
  }

  /** What a step sends is what its events call for. */
  lemma SendsUnderCurrent(s: Suite, id: string, events: seq<Event>, e: Session, sent: seq<SentFrame>, f: Frame)
    requires Salted(s) && SaltsOk(e.entries) && Mirrors(s, events, e.entries) && CountsLog(e, sent)
    ensures var more := Step(s, id, e, Send(f)).1;
            if e.entries == [] || ClearBytes(f) > |f.data| then more == []
            else forall i :: Current(events, i) ==> more == [FrameUnder(s, id, events, sent, f, i)]
  {
    LastIsCurrent(s, events, e.entries);
    if e.entries != [] && ClearBytes(f) <= |f.data| {
      var c := e.entries[|e.entries| - 1];
      var i := LastInstall(events, c.keyId);
      ChainSteps(s, events[i], SealedUnder(events, i));
      assert NextCounter(e, c.keyId) == SentUnder(sent, c.keyId) + 1;
    }
  }

  lemma CurrentExists(s: Suite, events: seq<Event>, entries: seq<Chain>)
    requires Mirrors(s, events, entries)
    ensures (exists i :: Current(events, i)) <==> entries != []
  {
    LastIsCurrent(s, events, entries);
    if entries != [] {
      assert Current(events, LastInstall(events, entries[|entries| - 1].keyId));
    }
  }

  lemma {:induction false} RunMirrors(s: Suite, id: string, events: seq<Event>)
    requires Salted(s)
    ensures var (e, sent) := Run(s, id, events); Mirrors(s, events, e.entries) && CountsLog(e, sent)
  {
    if events != [] {
      var n := |events| - 1;
      RunMirrors(s, id, events[..n]);
      var (e, sent) := Run(s, id, events[..n]);
      StepMirrors(s, id, events, e);
      StepCounts(s, id, e, sent, events[n]);
    }
  }

  /** What the last event of a run adds to the log. */
  lemma LogStep(s: Suite, id: string, events: seq<Event>, e: Session, sent: seq<SentFrame>)
    requires Salted(s) && SaltsOk(e.entries) && events != []
    requires Mirrors(s, events[..|events| - 1], e.entries) && CountsLog(e, sent)
    requires sent == LogOf(s, id, events[..|events| - 1])
    ensures sent + Step(s, id, e, events[|events| - 1]).1 == LogOf(s, id, events)
  {
    var n := |events| - 1;
    assert sent + [] == sent;
    if events[n].Send? {
      CurrentExists(s, events[..n], e.entries);
      SendsUnderCurrent(s, id, events[..n], e, sent, events[n].frame);
    }
  }

  /** Every run sends exactly what its events call for: each frame that fits its clear
      header is sealed under the key installed last among those not purged since, with
      that key's next message key, and nothing is sent while no key is held. */
  lemma {:induction false} LogFollowsEvents(s: Suite, id: string, events: seq<Event>)
    requires Salted(s)
    ensures Run(s, id, events).1 == LogOf(s, id, events)
  {
    if events != [] {
      var n := |events| - 1;
      LogFollowsEvents(s, id, events[..n]);
      RunMirrors(s, id, events[..n]);
      var (e, sent) := Run(s, id, events[..n]);
      LogStep(s, id, events, e, sent);
    }
  }

  lemma RunExtend(s: Suite, id: string, events: seq<Event>, event: Event)
    requires Salted(s)
    ensures var (e, sent) := Run(s, id, events);
            var (e', more) := Step(s, id, e, event);
            Run(s, id, events + [event]) == (e', sent + more)
  {
    assert (events + [event])[..|events|] == events;
  }

  lemma InstalledIsCurrent(events: seq<Event>, keyId: int, rawKey: Key)
    ensures var installed := events + [Install(keyId, rawKey)];
            Current(installed, |events|) && SealedUnder(installed, |events|) == 0
  {
    NothingSealedBefore(events + [Install(keyId, rawKey)], |events|);
  }

  /** After a rotation the next frame is the first one sealed under the new key. */
  lemma RotationTakesEffect(s: Suite, id: string, events: seq<Event>, keyId: int, rawKey: Key, f: Frame)
    requires Salted(s) && ClearBytes(f) <= |f.data|
    ensures var sent := Run(s, id, events).1;
            var installed := events + [Install(keyId, rawKey)];
            && SealedUnder(installed, |events|) == 0
            && Run(s, id, installed + [Send(f)]).1 == sent + [FrameUnder(s, id, installed, sent, f, |events|)]
  {
    var installed := events + [Install(keyId, rawKey)];
    RunExtend(s, id, events, Install(keyId, rawKey));
    RunExtend(s, id, installed, Send(f));
    var (e, sent) := Run(s, id, installed);
    assert Run(s, id, events).1 + [] == Run(s, id, events).1;
    RunMirrors(s, id, installed);
    InstalledIsCurrent(events, keyId, rawKey);
    CurrentExists(s, installed, e.entries);
    SendsUnderCurrent(s, id, installed, e, sent, f);
  }
}
