/**
 The bookkeeping behind a tracked wait group: the outstanding-work counter of the
 underlying `sync.WaitGroup`, and the `calls` map from a registration site key to the
 number of units registered under it that have not been reported done.

 Each operation is one atomic transition on an immutable `State`.  A transition that
 would drive the counter below zero is the fatal "negative WaitGroup counter" panic of
 `sync.WaitGroup`; here it is an `Err` result carrying no state.
 */
module WaitGroup {
  import opened Wrappers

  /** The bookkeeping of one wait group. */
  datatype State = State(total: int, calls: map<string, int>)

  /** The only failure: the counter would become negative. */
  datatype Error = NegativeCounter

  /** The entry for `key`, reading an absent key as zero (Go's map zero value). */
  function Count(calls: map<string, int>, key: string): int
  {
    if key in calls then calls[key] else 0
  }

  /** A fresh wait group: nothing outstanding, nothing registered. */
  function New(): (s: State)
    ensures s.total == 0
    ensures |s.calls| == 0
  {
    State(0, map[])
  }

  /**
   Registers `i` units of work under `key`.  The counter moves by `i` (which may be
   zero or negative, as for `sync.WaitGroup.Add`), and so does the key's entry, which
   is created if absent even when `i` is zero.  No other entry changes.
   */
  function Add(s: State, key: string, i: int): (r: Result<State, Error>)
    ensures r.Err? <==> s.total + i < 0
    ensures r.Ok? ==> r.value.total == s.total + i
    ensures r.Ok? ==> key in r.value.calls
    ensures r.Ok? && key in s.calls ==> r.value.calls[key] == s.calls[key] + i
    ensures r.Ok? && key !in s.calls ==> r.value.calls[key] == i
    ensures r.Ok? ==> r.value.calls - {key} == s.calls - {key}
  {
    if s.total + i < 0 then
      Err(NegativeCounter)
    else
      Ok(State(s.total + i, s.calls[key := Count(s.calls, key) + i]))
  }

  /**
   Reports one unit of work under `key` as done.  The counter always drops by one,
   whether or not `key` is registered.  A registered key's entry drops by one and is
   deleted once it reaches zero or below; an unknown key leaves the map as it is.
   */
  function Done(s: State, key: string): (r: Result<State, Error>)
    ensures r.Err? <==> s.total < 1
    ensures r.Ok? ==> r.value.total == s.total - 1
    ensures r.Ok? && key !in s.calls ==> r.value.calls == s.calls
    ensures r.Ok? && key in s.calls && s.calls[key] > 1 ==>
              key in r.value.calls && r.value.calls[key] == s.calls[key] - 1
    ensures r.Ok? && key in s.calls && s.calls[key] <= 1 ==> key !in r.value.calls
    ensures r.Ok? ==> r.value.calls - {key} == s.calls - {key}
  {
    if s.total - 1 < 0 then
      Err(NegativeCounter)
    else if key in s.calls then
      var n := s.calls[key] - 1;
      Ok(State(s.total - 1, if n <= 0 then s.calls - {key} else s.calls[key := n]))
    else
      Ok(State(s.total - 1, s.calls))
  }
}
