/**
 Sequences of `Add`/`Done` calls run one after another, as the locks make them
 appear to a wait group's user.  The first call that would make the counter
 negative ends the run with that failure.
 */
module Trace {
  import opened Wrappers
  import opened WaitGroup
  import opened Invariants

  /** One call on a wait group. */
  datatype Op = AddOp(key: string, n: int) | DoneOp(key: string)

  function Step(s: State, op: Op): Result<State, Error>
  {
    match op
    case AddOp(key, n) => Add(s, key, n)
    case DoneOp(key) => Done(s, key)
  }

  /** The result of applying `ops` in order, or the first failure. */
  function Run(s: State, ops: seq<Op>): Result<State, Error>
    decreases |ops|
  {
    if |ops| == 0 then Ok(s)
    else
      match Step(s, ops[0])
      case Err(e) => Err(e)
      case Ok(t) => Run(t, ops[1..])
  }

  /** `n` calls of `Done(key)`. */
  function Dones(key: string, n: nat): (ops: seq<Op>)
    ensures |ops| == n
    ensures forall j :: 0 <= j < n ==> ops[j] == DoneOp(key)
  {
    if n == 0 then [] else [DoneOp(key)] + Dones(key, n - 1)
  }

  /** Every registration in `ops` is for a positive count. */
  ghost predicate AddsPositive(ops: seq<Op>)
  {
    forall j :: 0 <= j < |ops| && ops[j].AddOp? ==> ops[j].n > 0
  }

  /**
   Intended use from `s` on: every `Add` is positive and every `Done` names a key
   that is registered at the moment it runs.
   */
  ghost predicate Disciplined(s: State, ops: seq<Op>)
    decreases |ops|
  {
    if |ops| == 0 then true
    else
      && (match ops[0]
          case AddOp(_, n) => n > 0
          case DoneOp(key) => key in s.calls)
      && (match Step(s, ops[0])
          case Err(_) => true
          case Ok(t) => Disciplined(t, ops[1..]))
  }

  /** A run that succeeds ends with a non-negative counter if it started with one. */
  lemma {:induction false} RunKeepsCounter(s: State, ops: seq<Op>)
    requires s.total >= 0
    requires Run(s, ops).Ok?
    ensures Run(s, ops).value.total >= 0
    decreases |ops|
  {
    if |ops| > 0 {
      RunKeepsCounter(Step(s, ops[0]).value, ops[1..]);
    }
  }

  /** With only positive registrations, a successful run keeps every entry positive. */
  lemma {:induction false} RunKeepsPositive(s: State, ops: seq<Op>)
    requires AllPositive(s.calls) && AddsPositive(ops)
    requires Run(s, ops).Ok?
    ensures AllPositive(Run(s, ops).value.calls)
    decreases |ops|
  {
    if |ops| > 0 {
      match ops[0] {
        case AddOp(key, n) => AddKeepsPositive(s, key, n);
        case DoneOp(key) => DoneKeepsPositive(s, key);
      }
      assert AddsPositive(ops[1..]) by {
        forall j | 0 <= j < |ops[1..]| && ops[1..][j].AddOp?
          ensures ops[1..][j].n > 0
        {
          assert ops[1..][j] == ops[j + 1];
        }
      }
      RunKeepsPositive(Step(s, ops[0]).value, ops[1..]);
    }
  }

  /** Intended use never fails and keeps the entries summing to the counter. */
  lemma {:induction false} DisciplinedRunTracked(s: State, ops: seq<Op>)
    requires Tracked(s) && Disciplined(s, ops)
    ensures Run(s, ops).Ok?
    ensures Tracked(Run(s, ops).value)
    decreases |ops|
  {
    if |ops| > 0 {
      match ops[0] {
        case AddOp(key, n) => AddKeepsTracked(s, key, n);
        case DoneOp(key) => DoneKeepsTracked(s, key);
      }
      DisciplinedRunTracked(Step(s, ops[0]).value, ops[1..]);
    }
  }

  /**
   Reporting more units done than are outstanding always ends in the negative
   counter failure, whatever keys the `Done` calls name.
   */
  lemma {:induction false} TooManyDonesFail(s: State, keys: seq<string>)
    requires 0 <= s.total < |keys|
    ensures Run(s, seq(|keys|, j requires 0 <= j < |keys| => DoneOp(keys[j]))) == Err(NegativeCounter)
    decreases |keys|
  {
    var ops := seq(|keys|, j requires 0 <= j < |keys| => DoneOp(keys[j]));
    if s.total > 0 {
      var rest := seq(|keys| - 1, j requires 0 <= j < |keys| - 1 => DoneOp(keys[1..][j]));
      assert ops[1..] == rest;
      TooManyDonesFail(Done(s, keys[0]).value, keys[1..]);
    }
  }

  /** Taking back one of several units registered under `key` undoes one unit of the `Add`. */
  lemma AddThenDone(s: State, key: string, n: int)
    requires s.total >= 0 && n >= 1
    requires key !in s.calls || s.calls[key] > 0
    ensures Add(s, key, n).Ok?
    ensures n == 1 ==> Done(Add(s, key, n).value, key) == Ok(s)
    ensures n > 1 ==> Done(Add(s, key, n).value, key) == Add(s, key, n - 1)
  {
    var t := Add(s, key, n).value;
    if n == 1 && key !in s.calls {
      assert t.calls - {key} == s.calls;
    } else if n == 1 {
      assert t.calls[key := s.calls[key]] == s.calls;
    } else {
      assert t.calls[key := Count(s.calls, key) + n - 1] == s.calls[key := Count(s.calls, key) + n - 1];
    }
  }

  /**
   Registering `n` units under `key` and then reporting `n` of them done under the
   same key restores the wait group exactly, provided the key's entry was positive
   or absent beforehand.
   */
  lemma {:induction false} AddThenDonesRestores(s: State, key: string, n: int)
    requires s.total >= 0 && n >= 1
    requires key !in s.calls || s.calls[key] > 0
    ensures Run(s, [AddOp(key, n)] + Dones(key, n)) == Ok(s)
    decreases n
  {
    AddThenDone(s, key, n);
    var t := Add(s, key, n).value;
    var ops := [AddOp(key, n)] + Dones(key, n);
    assert ops[0] == AddOp(key, n);
    assert ops[1..] == Dones(key, n);
    assert Run(s, ops) == Run(t, Dones(key, n));
    var ds := Dones(key, n);
    assert ds[0] == DoneOp(key);
    assert ds[1..] == Dones(key, n - 1);
    assert Run(t, ds) == Run(Done(t, key).value, Dones(key, n - 1));
    if n > 1 {
      AddThenDonesRestores(s, key, n - 1);
      var ops' := [AddOp(key, n - 1)] + Dones(key, n - 1);
      assert ops'[0] == AddOp(key, n - 1);
      assert ops'[1..] == Dones(key, n - 1);
      assert Run(s, ops') == Run(Add(s, key, n - 1).value, Dones(key, n - 1));
    }
  }

  /** Two registrations under one key accumulate into one entry. */
  lemma AddAccumulates(s: State, key: string, i: int, j: int)
    requires Add(s, key, i).Ok?
    ensures Add(Add(s, key, i).value, key, j) == Add(s, key, i + j)
  {
    var c := s.calls;
    assert c[key := Count(c, key) + i][key := Count(c, key) + i + j] == c[key := Count(c, key) + i + j];
  }

  /**
   When intended use from a fresh wait group has brought the counter back to zero,
   no key is left registered, so `LogNotDone` reports nothing.
   */
  lemma MatchedRunLeavesNothing(ops: seq<Op>, t: State)
    requires Disciplined(New(), ops) && Run(New(), ops) == Ok(t) && t.total == 0
    ensures |t.calls| == 0
  {
    NewTracked();
    DisciplinedRunTracked(New(), ops);
    ZeroTotalMeansNoCalls(t);
  }
}
