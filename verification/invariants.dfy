/**
 What the bookkeeping promises when callers use it as intended: with only positive
 registrations every entry stays positive, and when, in addition, every `Done` names a
 registered key, the entries add up to the counter.  A `Done` naming an unknown key
 still lowers the counter, which is how the two can drift apart.
 */
module Invariants {
  import opened WaitGroup

  /** Some key of a non-empty map; fixed per map so that `Sum` is a function. */
  ghost function Pick(m: map<string, int>): (k: string)
    requires |m| > 0
    ensures k in m
  {
    assert m.Keys != {};
    var k :| k in m; k
  }

  /** The sum of all entries of `m`. */
  ghost function Sum(m: map<string, int>): int
    decreases |m|
  {
    if |m| == 0 then 0
    else
      var k := Pick(m);
      assert |m - {k}| == |m| - 1 by { assert (m - {k}).Keys == m.Keys - {k}; }
      m[k] + Sum(m - {k})
  }

  /** Every registered key has work outstanding. */
  ghost predicate AllPositive(m: map<string, int>)
  {
    forall k :: k in m ==> m[k] > 0
  }

  /** The invariant of a wait group used with positive `Add`s and matching `Done`s. */
  ghost predicate Tracked(s: State)
  {
    AllPositive(s.calls) && Sum(s.calls) == s.total
  }

  /** The sum does not depend on which key is taken out first. */
  lemma {:induction false} SumRemove(m: map<string, int>, k: string)
    requires k in m
    ensures Sum(m) == m[k] + Sum(m - {k})
    decreases |m|
  {
    var p := Pick(m);
    assert |m - {p}| == |m| - 1 by { assert (m - {p}).Keys == m.Keys - {p}; }
    if p != k {
      assert |m - {k}| == |m| - 1 by { assert (m - {k}).Keys == m.Keys - {k}; }
      SumRemove(m - {p}, k);
      SumRemove(m - {k}, p);
      assert m - {p} - {k} == m - {k} - {p};
    }
  }

  /** Setting one entry changes the sum by the difference at that entry. */
  lemma SumUpdate(m: map<string, int>, k: string, v: int)
    ensures Sum(m[k := v]) == Sum(m) - Count(m, k) + v
  {
    SumRemove(m[k := v], k);
    assert m[k := v] - {k} == m - {k};
    if k in m {
      SumRemove(m, k);
    } else {
      assert m - {k} == m;
    }
  }

  /** Entries that are all positive add up to at least the number of entries. */
  lemma {:induction false} SumPositive(m: map<string, int>)
    requires AllPositive(m)
    ensures Sum(m) >= |m|
    decreases |m|
  {
    if |m| > 0 {
      var p := Pick(m);
      assert |m - {p}| == |m| - 1 by { assert (m - {p}).Keys == m.Keys - {p}; }
      SumPositive(m - {p});
    }
  }

  /** Among positive entries, each one is at most the sum. */
  lemma EntryAtMostSum(m: map<string, int>, k: string)
    requires AllPositive(m) && k in m
    ensures m[k] <= Sum(m)
  {
    SumRemove(m, k);
    SumPositive(m - {k});
  }

  /** A fresh wait group satisfies the invariant. */
  lemma NewTracked()
    ensures Tracked(New())
  {
  }

  /** `Add` with a positive count keeps every entry positive. */
  lemma AddKeepsPositive(s: State, key: string, i: int)
    requires AllPositive(s.calls) && i > 0
    requires Add(s, key, i).Ok?
    ensures AllPositive(Add(s, key, i).value.calls)
  {
  }

  /** `Done` never makes an entry non-positive, whatever key it names. */
  lemma DoneKeepsPositive(s: State, key: string)
    requires AllPositive(s.calls)
    requires Done(s, key).Ok?
    ensures AllPositive(Done(s, key).value.calls)
  {
  }

  /** From a tracked state a positive `Add` succeeds and stays tracked. */
  lemma AddKeepsTracked(s: State, key: string, i: int)
    requires Tracked(s) && i > 0
    ensures Add(s, key, i).Ok?
    ensures Tracked(Add(s, key, i).value)
  {
    SumPositive(s.calls);
    AddKeepsPositive(s, key, i);
    SumUpdate(s.calls, key, Count(s.calls, key) + i);
  }

  /** From a tracked state a `Done` on a registered key succeeds and stays tracked. */
  lemma DoneKeepsTracked(s: State, key: string)
    requires Tracked(s) && key in s.calls
    ensures Done(s, key).Ok?
    ensures Tracked(Done(s, key).value)
  {
    EntryAtMostSum(s.calls, key);
    DoneKeepsPositive(s, key);
    var c := s.calls;
    if c[key] > 1 {
      SumUpdate(c, key, c[key] - 1);
    } else {
      SumRemove(c, key);
      assert Done(s, key).value.calls == c - {key};
    }
  }

  /**
   Once the counter of a tracked wait group is back at zero every key has been
   cleared, so there is nothing left to report.
   */
  lemma ZeroTotalMeansNoCalls(s: State)
    requires Tracked(s) && s.total == 0
    ensures |s.calls| == 0
  {
    SumPositive(s.calls);
  }

  /**
   A `Done` naming an unregistered key lowers the counter but leaves the entries
   alone, so a tracked state stops being tracked.
   */
  lemma UnknownKeyDoneBreaksTracked(s: State, key: string)
    requires Tracked(s) && key !in s.calls && s.total >= 1
    ensures Done(s, key).Ok?
    ensures !Tracked(Done(s, key).value)
  {
  }
}
