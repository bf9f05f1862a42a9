/** A map ordered by key, as the sequence of its entries in ascending key order. */
module OrderedMap {

  type Entries<V> = seq<(nat, V)>

  predicate Below<V>(es: Entries<V>, i: nat, j: nat) {
    i < |es| && j < |es| && es[i].0 < es[j].0
  }

  ghost predicate Ordered<V>(es: Entries<V>) {
    forall i, j :: 0 <= i < j < |es| ==> Below(es, i, j)
  }

  predicate Has<V>(es: Entries<V>, k: nat) {
    exists i :: 0 <= i < |es| && es[i].0 == k
  }

  function Insert<V>(es: Entries<V>, k: nat, v: V): Entries<V> {
    if es == [] || k < es[0].0 then [(k, v)] + es
    else if k == es[0].0 then [(k, v)] + es[1..]
    else [es[0]] + Insert(es[1..], k, v)
  }

  function Remove<V>(es: Entries<V>, k: nat): Entries<V> {
    if es == [] then [] else if es[0].0 == k then es[1..] else [es[0]] + Remove(es[1..], k)
  }

  /** The least entry is the first. */
  lemma FirstIsLeast<V>(es: Entries<V>, e: (nat, V))
    requires Ordered(es) && e in es
    ensures es[0].0 <= e.0 && (es[0].0 == e.0 ==> e == es[0])
  {
    var i :| 0 <= i < |es| && es[i] == e;
    if i > 0 {
      assert Below(es, 0, i);
    }
  }

  lemma TailOrdered<V>(es: Entries<V>)
    requires Ordered(es) && es != []
    ensures Ordered(es[1..]) && forall e :: e in es[1..] ==> es[0].0 < e.0
  {
    forall i, j | 0 <= i < j < |es[1..]|
      ensures Below(es[1..], i, j)
    {
      assert Below(es, i + 1, j + 1);
    }
    forall e | e in es[1..]
      ensures es[0].0 < e.0
    {
      var i :| 0 <= i < |es[1..]| && es[1..][i] == e;
      assert Below(es, 0, i + 1);
    }
  }

  lemma ConsOrdered<V>(e: (nat, V), es: Entries<V>)
    requires Ordered(es) && (es == [] || e.0 < es[0].0)
    ensures Ordered([e] + es)
  {
    var all := [e] + es;
    forall i, j | 0 <= i < j < |all|
      ensures Below(all, i, j)
    {
      if i > 0 {
        assert Below(es, i - 1, j - 1);
      } else if j > 1 {
        assert Below(es, 0, j - 1);
      }
    }
  }

  /** Inserting keeps the order and replaces at most the entry with that key. */
  lemma {:induction false} InsertMeaning<V>(es: Entries<V>, k: nat, v: V)
    requires Ordered(es)
    ensures Ordered(Insert(es, k, v))
    ensures |Insert(es, k, v)| == |es| + if Has(es, k) then 0 else 1
    ensures forall e :: e in Insert(es, k, v) <==> e == (k, v) || (e in es && e.0 != k)
  {
    var r := Insert(es, k, v);
    if es == [] {
    } else if k < es[0].0 {
      ConsOrdered((k, v), es);
      forall e | e in es
        ensures k < e.0
      {
        FirstIsLeast(es, e);
      }
      assert forall i :: 0 <= i < |es| ==> es[i] in es;
    } else {
      TailOrdered(es);
      if k == es[0].0 {
        if |es| > 1 {
          assert es[1..][0] in es[1..];
        }
        ConsOrdered((k, v), es[1..]);
        assert es == [es[0]] + es[1..];
      } else {
        InsertMeaning(es[1..], k, v);
        var rest := Insert(es[1..], k, v);
        if rest != [] {
          assert rest[0] in rest;
        }
        ConsOrdered(es[0], rest);
        HasTail(es, k);
        assert es == [es[0]] + es[1..];
      }
    }
  }

  lemma HasTail<V>(es: Entries<V>, k: nat)
    requires es != [] && es[0].0 != k
    ensures Has(es, k) <==> Has(es[1..], k)
  {
    if Has(es, k) {
      var i :| 0 <= i < |es| && es[i].0 == k;
      assert es[1..][i - 1].0 == k;
    }
    if Has(es[1..], k) {
      var i :| 0 <= i < |es[1..]| && es[1..][i].0 == k;
      assert es[i + 1].0 == k;
    }
  }

  lemma {:induction false} RemoveShrinks<V>(es: Entries<V>, k: nat)
    requires Has(es, k)
    ensures |Remove(es, k)| == |es| - 1
  {
    if es[0].0 != k {
      HasTail(es, k);
      RemoveShrinks(es[1..], k);
    }
  }

  /** The i-th key is at least i. */
  lemma {:induction false} KeyAtLeast<V>(es: Entries<V>, i: nat)
    requires Ordered(es) && i < |es|
    ensures i <= es[i].0
  {
    if i > 0 {
      KeyAtLeast(es, i - 1);
      assert Below(es, i - 1, i);
    }
  }

  /** If the keys include 0 to i, the i-th key is i. */
  lemma {:induction false} KeysDense<V>(es: Entries<V>, i: nat)
    requires Ordered(es) && forall k :: 0 <= k <= i ==> Has(es, k)
    ensures i < |es| && es[i].0 == i
  {
    assert Has(es, i);
    var m :| 0 <= m < |es| && es[m].0 == i;
    if i > 0 {
      KeysDense(es, i - 1);
      var before := Below(es, m, i - 1);
    }
    if i < m {
      assert Below(es, i, m);
      KeyAtLeast(es, i);
    }
  }
}
