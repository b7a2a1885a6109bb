# waitgroup bookkeeping in Dafny

A model of the bookkeeping in `waitgroup.go`, a `sync.WaitGroup` wrapper that records
which registration site still has work outstanding. A wait group's state is
`State(total, calls)`:

- `total` is the counter of the underlying `sync.WaitGroup`.
- `calls` maps a site key to the number of units registered under that key and not
  yet reported done.

`Add(s, key, i)` and `Done(s, key)` are pure transitions. Go derives the key from the
caller's file and line; here it is an explicit parameter. When `sync.WaitGroup` would
panic with "negative WaitGroup counter", the transition returns
`Err(NegativeCounter)` instead. `LogNotDone` returns the lines the wait group would log:
nothing when no key is registered, otherwise a header and one line per key.
`Render` and `ParseLine` cover the text of those lines.

Modules:

- `Wrappers` (`wrappers.dfy`): `Option` and `Result`.
- `WaitGroup` (`waitgroup.dfy`): `State`, `New`, `Add`, `Done`.
- `Invariants` (`invariants.dfy`): entries stay positive, and the sum of the entries
  equals the counter under intended use.
- `Trace` (`trace.dfy`): sequences of calls, round trips, underflow.
- `Decimal` (`decimal.dfy`): the `%d` rendering of a count and its inverse.
- `Report` (`report.dfy`): `LogNotDone`, `Render`, `ParseLine`.

Edge cases of the code that the model keeps:

- `Add(key, 0)` creates a 0-valued entry for the key (waitgroup.go:101).
- An entry can be 0 after `Add(key, 0)`. It can be negative after a negative `Add`
  that the counter allows. Positivity of the entries is proved only when every `Add`
  is positive.
- A negative `Add` is passed to `sync.WaitGroup.Add` (waitgroup.go:100), which panics
  if the counter would go negative. The model returns `Err(NegativeCounter)` then.
- A `Done` with a key that is not registered still lowers the counter and leaves the
  map alone (waitgroup.go:109-110).

## Model

| member | source | states |
|---|---|---|
| WaitGroup.New | waitgroup.go:84-90 | a new wait group has a zero counter and no registered keys |
| WaitGroup.Add | waitgroup.go:98-102 | fails exactly when the counter would go negative; otherwise the counter and the key's entry both rise by `i`, an absent key's entry is created with value `i` (even for `i` = 0), and every other entry is unchanged |
| WaitGroup.Done | waitgroup.go:106-116 | fails exactly when the counter is below 1 (underflow, never a clamp); otherwise the counter drops by exactly 1 whether or not the key is known; an unknown key leaves the map identical; a known key's entry drops by 1 and is deleted once it reaches 0 or below; other entries are unchanged |
| Invariants.NewTracked | waitgroup.go:84-90 | a new wait group satisfies the invariant: all entries positive, and they sum to the counter |
| Invariants.AddKeepsPositive | waitgroup.go:100-101 | an `Add` with a positive count keeps every entry strictly positive |
| Invariants.DoneKeepsPositive | waitgroup.go:109-114 | a `Done` on any key, known or not, keeps every entry strictly positive |
| Invariants.AddKeepsTracked | waitgroup.go:100-101 | from a state meeting the invariant, a positive `Add` succeeds and the entries still sum to the counter |
| Invariants.DoneKeepsTracked | waitgroup.go:109-114 | from a state meeting the invariant, a `Done` on a registered key cannot underflow, and the entries still sum to the counter |
| Invariants.ZeroTotalMeansNoCalls | waitgroup.go:112-114 | under the invariant, a zero counter means every key has been deleted |
| Invariants.UnknownKeyDoneBreaksTracked | waitgroup.go:109-110 | from any tracked state with a non-zero counter, a `Done` with an unregistered key succeeds but lowers the counter and not the map, so the entries no longer sum to the counter |
| Trace.RunKeepsCounter | waitgroup.go:100-109 | any successful sequence of calls keeps the counter non-negative |
| Trace.RunKeepsPositive | waitgroup.go:100-114 | if every `Add` in a successful sequence is positive, every entry stays positive, whatever keys the `Done`s name |
| Trace.DisciplinedRunTracked | waitgroup.go:100-114 | with positive `Add`s and `Done`s on registered keys, a sequence never fails and the entries keep summing to the counter |
| Trace.TooManyDonesFail | waitgroup.go:109 | more `Done` calls than the counter holds always end in the negative-counter failure, whatever keys they name |
| Trace.AddThenDone | waitgroup.go:100-114 | for n ≥ 1, if the counter is non-negative and the key's entry was positive or absent, `Done(key)` right after `Add(key, n)` gives the same state as `Add(key, n - 1)`, and for n = 1 it restores the state before the `Add` |
| Trace.AddThenDonesRestores | waitgroup.go:100-114 | for n ≥ 1, with a non-negative counter, `Add(key, n)` followed by n calls of `Done(key)` restores the original state exactly, if the key's entry was positive or absent |
| Trace.AddAccumulates | waitgroup.go:100-101 | when the first `Add` succeeds, two `Add`s with the same key have the same effect as one `Add` of the summed count, failure included |
| Trace.MatchedRunLeavesNothing | waitgroup.go:143-145 | after intended use from a new wait group brings the counter back to zero, no key is registered, so nothing is logged |
| Report.LogNotDone | waitgroup.go:140-149 | logs nothing exactly when no key is registered; otherwise logs a header followed by one line per registered key with that key's entry, each key exactly once and nothing else |
| Report.Render | waitgroup.go:146-148 | the header is the only line starting with a newline; `Report.RenderRoundTrip` shows that each entry line carries its key and count, and the count's digits are in the canonical form `Decimal.IntToDecimal` states |
| Decimal.IntToDecimal | waitgroup.go:148 | the `%d` text of a count is non-empty, contains no "(", and starts with "-" exactly when the count is negative; it is in canonical form: no leading zero except for "0" itself, and no "-0"; `Decimal.DecimalRoundTrip` shows that it reads back as the count |
| Report.RenderRoundTrip | waitgroup.go:146-148 | every logged line can be parsed back into the header or into the key and count it was printed from, even when a key contains " (" |
| Report.RenderInjective | waitgroup.go:146-148 | two different lines never print the same text |
| Decimal.DecimalRoundTrip | waitgroup.go:148 | parsing the `%d` text of a count, negative counts included, gives back the count |

## Left out

- Deriving the key from `runtime.Caller` and formatting it as file:line (waitgroup.go:95-96): this is runtime introspection. The key is a parameter instead.
- `Wait` (waitgroup.go:121-136): it blocks on the counter and starts a goroutine whose timer triggers one `LogNotDone`. This is concurrency and timing. Only the emptiness of the report once the counter is zero is stated, in `Trace.MatchedRunLeavesNothing`.
- The `RWMutex` locking (waitgroup.go:98-99, 107-108, 141-142): each operation is one atomic transition.
- `Options`, `Opts` and `Log` (waitgroup.go:57-73): these are the global output sink and its mutex. `LogNotDone` returns its lines rather than writing them.
- The order of the entry lines in `LogNotDone`: Go's map iteration order is unspecified. The model picks keys in an unspecified order and states the result up to that order.
- WaitGroup.Add: the counter of `sync.WaitGroup` is a 32-bit integer, and the map entries are Go `int`s, which are 32 or 64 bits wide depending on the platform. The model uses unbounded integers, so it does not model overflow of either.
- WaitGroup.Add: `sync.WaitGroup` also panics when `Add` races with a `Wait` that is being released. That is concurrent misuse and is not modelled.
- WaitGroup.Done: in `sync.WaitGroup` the panic happens after the counter has changed, and before `calls` is touched (waitgroup.go:101 and 110-114 do not run). The panic ends the program unless a caller recovers it. The model returns no state on failure, so the state after a recovered panic is not modelled. The same holds for a failing `Add`.
