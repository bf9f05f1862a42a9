/** The pool of transceiver mids of one receiver and first-fit search in it. */
module MidPool {
  import opened Common

  datatype Kind = Audio | Video

  type Mid = nat

  type Mids = seq<(Mid, Kind)>

  predicate Differ(mids: Mids, i: nat, j: nat) {
    i < |mids| && j < |mids| && mids[i].0 != mids[j].0
  }

  /** No mid is listed twice. */
  predicate DistinctMids(mids: Mids) {
    forall i, j :: 0 <= i < j < |mids| ==> Differ(mids, i, j)
  }

  lemma OneKind(mids: Mids, m: Mid, a: Kind, b: Kind)
    requires DistinctMids(mids) && (m, a) in mids && (m, b) in mids
    ensures a == b
  {
    var i :| 0 <= i < |mids| && mids[i] == (m, a);
    var j :| 0 <= j < |mids| && mids[j] == (m, b);
    var apart := Differ(mids, i, j) || Differ(mids, j, i);
  }

  lemma DistinctTail(mids: Mids)
    requires DistinctMids(mids) && mids != []
    ensures DistinctMids(mids[1..]) && !Listed(mids[1..], mids[0].0)
  {
    forall i, j | 0 <= i < j < |mids[1..]|
      ensures Differ(mids[1..], i, j)
    {
      assert Differ(mids, i + 1, j + 1);
    }
    forall j | 0 <= j < |mids[1..]|
      ensures mids[1..][j].0 != mids[0].0
    {
      assert Differ(mids, 0, j + 1);
    }
  }

  lemma DistinctExtend(mids: Mids, m: Mid, kind: Kind)
    ensures DistinctMids(mids + [(m, kind)]) <==> DistinctMids(mids) && !Listed(mids, m)
  {
    var mids' := mids + [(m, kind)];
    if DistinctMids(mids) && !Listed(mids, m) {
      forall i, j | 0 <= i < j < |mids'|
        ensures Differ(mids', i, j)
      {
        if j < |mids| {
          assert Differ(mids, i, j);
        }
      }
    }
    if DistinctMids(mids') {
      forall i, j | 0 <= i < j < |mids|
        ensures Differ(mids, i, j)
      {
        assert Differ(mids', i, j);
      }
      forall i | 0 <= i < |mids|
        ensures mids[i].0 != m
      {
        assert Differ(mids', i, |mids|);
      }
    }
  }

  predicate Listed(mids: Mids, m: Mid) {
    exists i :: 0 <= i < |mids| && mids[i].0 == m
  }

  lemma ListedIn(mids: Mids, m: Mid, kind: Kind)
    requires (m, kind) in mids
    ensures Listed(mids, m)
  {
  }

  /** The mids of one kind outside a set, in pool order. */
  function Candidates(mids: Mids, kind: Kind, excluded: set<Mid>): (r: seq<Mid>)
    ensures forall m :: m in r <==> (m, kind) in mids && m !in excluded
  {
    if mids == [] then []
    else
      (if mids[0].1 == kind && mids[0].0 !in excluded then [mids[0].0] else []) +
      Candidates(mids[1..], kind, excluded)
  }

  /** The first candidate, if any. */
  function FirstFree(mids: Mids, kind: Kind, excluded: set<Mid>): (r: Option<Mid>)
    ensures r.Some? ==> (r.value, kind) in mids && r.value !in excluded
    ensures r.None? <==> Candidates(mids, kind, excluded) == []
  {
    var c := Candidates(mids, kind, excluded);
    if c == [] then None
    else
      assert c[0] in c;
      Some(c[0])
  }

  /** The first mid of the kind that is not excluded. */
  lemma {:induction false} FirstFreeAt(mids: Mids, kind: Kind, excluded: set<Mid>, i: nat)
    requires i < |mids| && mids[i].1 == kind && mids[i].0 !in excluded
    requires forall j :: 0 <= j < i ==> mids[j].1 != kind || mids[j].0 in excluded
    ensures FirstFree(mids, kind, excluded) == Some(mids[i].0)
  {
    if i > 0 {
      FirstFreeAt(mids[1..], kind, excluded, i - 1);
    }
  }

  /** The search loop of the allocator. */
  method FindFree(mids: Mids, kind: Kind, excluded: set<Mid>) returns (r: Option<Mid>)
    ensures r == FirstFree(mids, kind, excluded)
  {
    for i := 0 to |mids|
      invariant Candidates(mids, kind, excluded) == Candidates(mids[i..], kind, excluded)
    {
      if mids[i].1 == kind && mids[i].0 !in excluded {
        return Some(mids[i].0);
      }
    }
    return None;
  }

  /** Excluding one more candidate shortens the list by one; excluding anything
      else changes nothing. */
  lemma {:induction false} ExcludeOne(mids: Mids, kind: Kind, excluded: set<Mid>, m: Mid)
    requires DistinctMids(mids)
    ensures |Candidates(mids, kind, excluded + {m})| ==
            |Candidates(mids, kind, excluded)| - (if m in Candidates(mids, kind, excluded) then 1 else 0)
  {
    if mids != [] {
      DistinctTail(mids);
      ExcludeOne(mids[1..], kind, excluded, m);
    }
  }

  lemma {:induction false} CandidatesConcat(a: Mids, b: Mids, kind: Kind, excluded: set<Mid>)
    ensures Candidates(a + b, kind, excluded) == Candidates(a, kind, excluded) + Candidates(b, kind, excluded)
  {
    if a == [] {
      assert a + b == b;
    } else {
      assert (a + b)[1..] == a[1..] + b;
      CandidatesConcat(a[1..], b, kind, excluded);
    }
  }
}
