/** The per-user fixed-window rate limiter that guards the message listing.
    The store maps an identifier (the signed-in user's email) to the number
    of requests admitted in its current window and the instant, in
    milliseconds, at which that window ends. */
module RateLimit {

  /** Length of one window: one minute. */
  const WindowMs: int := 60 * 1000

  /** Requests admitted per identifier and window. */
  const MaxRequests: int := 30

  datatype Entry = Entry(count: int, resetTime: int)

  type Store = map<string, Entry>

  /** The answer of one limiter call and the store it leaves behind. */
  datatype Checked = Checked(allowed: bool, store: Store)

  /** An entry that is absent or whose window has ended opens a new window. */
  predicate OpensWindow(store: Store, id: string, now: int) {
    id !in store || now > store[id].resetTime
  }

  /** Every stored count lies in 1..MaxRequests. */
  ghost predicate CountsBounded(store: Store) {
    forall id :: id in store ==> 1 <= store[id].count <= MaxRequests
  }

  /** One call of the limiter for `id` at time `now`. */
  function CheckRateLimit(store: Store, id: string, now: int): (r: Checked)
    // admitted exactly when a new window opens or the current one has room
    ensures r.allowed <==> OpensWindow(store, id, now) || store[id].count < MaxRequests
    // the entry for id is present afterwards
    ensures r.store.Keys == store.Keys + {id}
    // a new window starts at count one and lasts WindowMs from now
    ensures OpensWindow(store, id, now) ==> r.store[id] == Entry(1, now + WindowMs)
    // inside a window (its end instant included) the window is kept
    ensures !OpensWindow(store, id, now) ==> r.store[id].resetTime == store[id].resetTime
    // an admitted call inside a window counts exactly one more request
    ensures !OpensWindow(store, id, now) && r.allowed ==> r.store[id].count == store[id].count + 1
    // a refused call changes nothing
    ensures !r.allowed ==> r.store == store
    // no other identifier is touched
    ensures forall other :: other in store && other != id ==> r.store[other] == store[other]
  {
    if OpensWindow(store, id, now) then
      Checked(true, store[id := Entry(1, now + WindowMs)])
    else if store[id].count >= MaxRequests then
      Checked(false, store)
    else
      Checked(true, store[id := store[id].(count := store[id].count + 1)])
  }

  /** The limiter keeps every stored count within 1..MaxRequests. */
  lemma CheckPreservesBounds(store: Store, id: string, now: int)
    requires CountsBounded(store)
    ensures CountsBounded(CheckRateLimit(store, id, now).store)
  {
  }

  /** The result of a run of calls for one identifier: the final store and
      how many of the calls were admitted. */
  datatype Run = Run(store: Store, admitted: nat)

  /** Calls the limiter for `id` once per instant of `times`, in order. */
  function Replay(store: Store, id: string, times: seq<int>): (r: Run)
    ensures r.admitted <= |times|
    decreases |times|
  {
    if |times| == 0 then Run(store, 0)
    else
      var c := CheckRateLimit(store, id, times[0]);
      var rest := Replay(c.store, id, times[1..]);
      Run(rest.store, rest.admitted + (if c.allowed then 1 else 0))
  }

  function MinInt(a: int, b: int): int { if a <= b then a else b }

  /** Inside one window, calls are admitted until the count reaches the cap
      and refused afterwards: exactly min(calls, room) are admitted. */
  lemma {:induction false} WindowAdmitsUpToCap(store: Store, id: string, times: seq<int>)
    requires id in store && 1 <= store[id].count <= MaxRequests
    requires forall k :: 0 <= k < |times| ==> times[k] <= store[id].resetTime
    ensures var r := Replay(store, id, times);
      && r.admitted == MinInt(|times|, MaxRequests - store[id].count)
      && id in r.store
      && r.store[id] == store[id].(count := store[id].count + r.admitted)
    decreases |times|
  {
    if |times| > 0 {
      var c := CheckRateLimit(store, id, times[0]);
      assert forall k :: 0 <= k < |times[1..]| ==> times[1..][k] <= c.store[id].resetTime by {
        forall k | 0 <= k < |times[1..]| ensures times[1..][k] <= c.store[id].resetTime {
          assert times[1..][k] == times[k + 1];
        }
      }
      WindowAdmitsUpToCap(c.store, id, times[1..]);
    }
  }

  /** A window opened at `t0` admits at most MaxRequests calls, however many
      calls arrive before it ends. */
  lemma FreshWindowCap(store: Store, id: string, t0: int, times: seq<int>)
    requires OpensWindow(store, id, t0)
    requires forall k :: 0 <= k < |times| ==> times[k] <= t0 + WindowMs
    ensures Replay(store, id, [t0] + times).admitted == MinInt(1 + |times|, MaxRequests)
    ensures Replay(store, id, [t0] + times).admitted <= MaxRequests
  {
    var c := CheckRateLimit(store, id, t0);
    assert ([t0] + times)[1..] == times;
    WindowAdmitsUpToCap(c.store, id, times);
  }

  /** Calls for one identifier leave every other identifier's entry alone. */
  lemma {:induction false} ReplayFramesOthers(store: Store, id: string, times: seq<int>, other: string)
    requires other != id
    ensures other in Replay(store, id, times).store <==> other in store
    ensures other in store ==> Replay(store, id, times).store[other] == store[other]
    decreases |times|
  {
    if |times| > 0 {
      ReplayFramesOthers(CheckRateLimit(store, id, times[0]).store, id, times[1..], other);
    }
  }
}
