/** The sliding replay window: a highest counter and a bitmap whose digit d says
    whether counter `highest - d` was accepted. */
module ReplayWindow {
  import opened Common
  import opened Bits

  const WINDOW: nat := 128

  datatype Window = Window(highest: nat, bitmap: nat)

  /** What checkReplay does to the window stored for one sender and key id, if
      any, and its verdict. */
  function Check(w: Option<Window>, ctr: nat): (Option<Window>, bool) {
    match w
    case None => (Some(Window(ctr, 1)), true)
    case Some(win) =>
      if ctr > win.highest then
        var shift := ctr - win.highest;
        (Some(Window(ctr, if shift < WINDOW then Or(Shl(win.bitmap, shift), 1) else 1)), true)
      else
        var diff := win.highest - ctr;
        var bit := Shl(1, diff);
        if diff >= WINDOW || And(win.bitmap, bit) != 0 then (w, false)
        else (Some(win.(bitmap := Or(win.bitmap, bit))), true)
  }

  /** The same on a sender's whole table of windows. */
  function Recorded(ws: map<int, Window>, kid: int, ctr: nat): (map<int, Window>, bool) {
    var (w, ok) := Check(if kid in ws then Some(ws[kid]) else None, ctr);
    if ok && w.Some? then (ws[kid := w.value], true) else (ws, false)
  }

  /** The plain specification: a counter is fresh if it was never accepted and is
      ahead of, or less than WINDOW behind, the largest accepted one. */
  ghost predicate Fresh(accepted: set<nat>, highest: nat, ctr: nat) {
    ctr !in accepted && (ctr > highest || highest - ctr < WINDOW)
  }

  /** The window records exactly the accepted counters within its reach. */
  ghost predicate Represents(w: Option<Window>, accepted: set<nat>) {
    match w
    case None => accepted == {}
    case Some(win) =>
      && win.highest in accepted
      && (forall c :: c in accepted ==> c <= win.highest)
      && (forall d :: 0 <= d < WINDOW && d <= win.highest ==>
            (Bit(win.bitmap, d) <==> win.highest - d in accepted))
  }

  lemma BitOfOne(d: nat)
    ensures Bit(1, d) <==> d == 0
  {
    if d > 0 {
      BitOfZero(d - 1);
    }
  }

  /** One check decides exactly freshness, and the window then represents the
      accepted set grown by an accepted counter. */
  lemma CheckRefines(w: Option<Window>, accepted: set<nat>, ctr: nat)
    requires Represents(w, accepted)
    ensures var (w', ok) := Check(w, ctr);
            && ok == (w.None? || Fresh(accepted, w.value.highest, ctr))
            && Represents(w', if ok then accepted + {ctr} else accepted)
            && (!ok ==> w' == w)
  {
    match w
    case None =>
      forall d: nat ensures Bit(1, d) <==> d == 0 { BitOfOne(d); }
    case Some(win) =>
      if ctr > win.highest {
        ShiftRefines(win, accepted, ctr);
      } else {
        AndPower(win.bitmap, win.highest - ctr);
        MarkRefines(win, accepted, ctr);
      }
  }

  lemma MarkRefines(win: Window, accepted: set<nat>, ctr: nat)
    requires Represents(Some(win), accepted) && ctr <= win.highest
    ensures Represents(Some(win.(bitmap := Or(win.bitmap, Shl(1, win.highest - ctr)))), accepted + {ctr})
  {
    var diff := win.highest - ctr;
    forall d: nat | d < WINDOW && d <= win.highest
      ensures Bit(Or(win.bitmap, Shl(1, diff)), d) <==> win.highest - d in accepted + {ctr}
    {
      BitOfOr(win.bitmap, Shl(1, diff), d);
      BitOfShl(1, diff, d);
      if d >= diff {
        BitOfOne(d - diff);
      }
    }
  }

  lemma ShiftRefines(win: Window, accepted: set<nat>, ctr: nat)
    requires Represents(Some(win), accepted) && ctr > win.highest
    ensures Represents(Check(Some(win), ctr).0, accepted + {ctr})
  {
    var shift := ctr - win.highest;
    var w' := Check(Some(win), ctr).0.value;
    forall d: nat | d < WINDOW && d <= ctr
      ensures Bit(w'.bitmap, d) <==> ctr - d in accepted + {ctr}
    {
      BitOfOne(d);
      BitOfOr(Shl(win.bitmap, shift), 1, d);
      BitOfShl(win.bitmap, shift, d);
      if d >= shift {
        assert ctr - d == win.highest - (d - shift);
      }
    }
  }

  /** Checks made in order from an absent window: the window and the verdicts. */
  ghost function CheckAll(ctrs: seq<nat>): (r: (Option<Window>, seq<bool>))
    ensures |r.1| == |ctrs|
  {
    if ctrs == [] then (None, [])
    else
      var n := |ctrs| - 1;
      var (w, oks) := CheckAll(ctrs[..n]);
      var (w', ok) := Check(w, ctrs[n]);
      (w', oks + [ok])
  }

  /** The set specification of the same run: which counters are accepted, and the
      largest of them. */
  ghost function Accepted(ctrs: seq<nat>): (r: (set<nat>, nat, seq<bool>))
    ensures |r.2| == |ctrs|
  {
    if ctrs == [] then ({}, 0, [])
    else
      var n := |ctrs| - 1;
      var (acc, highest, oks) := Accepted(ctrs[..n]);
      if acc == {} || Fresh(acc, highest, ctrs[n])
      then (acc + {ctrs[n]}, if acc == {} || ctrs[n] > highest then ctrs[n] else highest, oks + [true])
      else (acc, highest, oks + [false])
  }

  /** Over every run the bitmap gives the verdicts of the set specification. */
  lemma {:induction false} WindowRefinesSet(ctrs: seq<nat>)
    ensures CheckAll(ctrs).1 == Accepted(ctrs).2
    ensures Represents(CheckAll(ctrs).0, Accepted(ctrs).0)
    ensures CheckAll(ctrs).0.Some? ==> CheckAll(ctrs).0.value.highest == Accepted(ctrs).1
  {
    if ctrs != [] {
      var n := |ctrs| - 1;
      WindowRefinesSet(ctrs[..n]);
      CheckRefines(CheckAll(ctrs[..n]).0, Accepted(ctrs[..n]).0, ctrs[n]);
    }
  }

  /** No counter is accepted twice. */
  lemma {:induction false} NeverAcceptedTwice(ctrs: seq<nat>, i: nat, j: nat)
    requires i < j < |ctrs| && ctrs[i] == ctrs[j]
    ensures !(CheckAll(ctrs).1[i] && CheckAll(ctrs).1[j])
    decreases |ctrs|
  {
    var n := |ctrs| - 1;
    if j < n {
      NeverAcceptedTwice(ctrs[..n], i, j);
    } else {
      WindowRefinesSet(ctrs[..n]);
      CheckRefines(CheckAll(ctrs[..n]).0, Accepted(ctrs[..n]).0, ctrs[n]);
      if CheckAll(ctrs[..n]).1[i] {
        AcceptedIsRecorded(ctrs[..n], i);
      }
    }
  }

  lemma {:induction false} AcceptedIsRecorded(ctrs: seq<nat>, i: nat)
    requires i < |ctrs| && Accepted(ctrs).2[i]
    ensures ctrs[i] in Accepted(ctrs).0
    decreases |ctrs|
  {
    if i < |ctrs| - 1 {
      AcceptedIsRecorded(ctrs[..|ctrs| - 1], i);
    }
  }
}
