/** The `sendLimiter` in front of `/send`: at most 12 accepted requests per
    client per 60-second window. Every request is counted, rejected ones
    included; a client's window opens at its first request and is replaced
    by a fresh one at the first request on or after its reset time. */
module RateLimit {
  import opened Http

  /** `windowMs: 60 * 1000`. */
  const WindowMs: nat := 60 * 1000

  /** `max: 12`. */
  const MaxHits: nat := 12

  /** One client's counter: when its window ends and how many requests it saw. */
  datatype Window = Window(resetAt: nat, hits: nat)

  function Lookup(windows: map<string, Window>, client: string): Option<Window> {
    if client in windows then Some(windows[client]) else None
  }

  /** The counter after one more request at `nowMs`. */
  function Next(w: Option<Window>, nowMs: nat): Window {
    if w.None? || w.value.resetAt <= nowMs then Window(nowMs + WindowMs, 1)
    else Window(w.value.resetAt, w.value.hits + 1)
  }

  /** The request that brought the counter to `w` passes when the count is
      within the cap; beyond it the client is answered 429. */
  predicate Allowed(w: Window) {
    w.hits <= MaxHits
  }

  /** The verdicts on consecutive requests from one client, starting from
      counter `w`, made at the times in `times`. */
  function Replay(w: Option<Window>, times: seq<nat>): (verdicts: seq<bool>)
    ensures |verdicts| == |times|
    decreases |times|
  {
    if times == [] then []
    else
      var n := Next(w, times[0]);
      [Allowed(n)] + Replay(Some(n), times[1..])
  }

  function CountAccepted(verdicts: seq<bool>): nat {
    if verdicts == [] then 0
    else (if verdicts[0] then 1 else 0) + CountAccepted(verdicts[1..])
  }

  /** Inside a window that has already seen `hits` requests, the k-th further
      request passes exactly when `hits + k + 1` is within the cap. */
  lemma {:induction false} ReplayInsideWindow(resetAt: nat, hits: nat, times: seq<nat>)
    requires forall i :: 0 <= i < |times| ==> times[i] < resetAt
    ensures forall k :: 0 <= k < |times| ==>
      Replay(Some(Window(resetAt, hits)), times)[k] == (hits + k + 1 <= MaxHits)
    ensures CountAccepted(Replay(Some(Window(resetAt, hits)), times))
         == if hits >= MaxHits then 0
            else if |times| <= MaxHits - hits then |times| else MaxHits - hits
    decreases |times|
  {
    if times != [] {
      var tail := times[1..];
      ReplayInsideWindow(resetAt, hits + 1, tail);
      var v := Replay(Some(Window(resetAt, hits)), times);
      assert v == [hits + 1 <= MaxHits] + Replay(Some(Window(resetAt, hits + 1)), tail);
      forall k | 0 <= k < |times|
        ensures v[k] == (hits + k + 1 <= MaxHits)
      {
        if k > 0 {
          assert v[k] == Replay(Some(Window(resetAt, hits + 1)), tail)[k - 1];
        }
      }
      assert v[1..] == Replay(Some(Window(resetAt, hits + 1)), tail);
    }
  }

  /** A burst from a new client, all within 60 seconds of its first request:
      the first 12 pass, every later one is rejected, so exactly
      min(n, 12) are accepted. */
  lemma Burst(times: seq<nat>)
    requires |times| > 0
    requires forall i :: 0 <= i < |times| ==> times[i] < times[0] + WindowMs
    ensures forall k :: 0 <= k < |times| ==> Replay(None, times)[k] == (k < MaxHits)
    ensures CountAccepted(Replay(None, times)) == if |times| < MaxHits then |times| else MaxHits
  {
    // A new client's first request opens the window that a window with no
    // hits yet, ending 60 s after that request, would also give.
    var empty := Window(times[0] + WindowMs, 0);
    assert Next(None, times[0]) == Next(Some(empty), times[0]);
    assert Replay(None, times) == Replay(Some(empty), times);
    ReplayInsideWindow(empty.resetAt, 0, times);
  }

  /** Once a window has ended, the next request opens a new one and passes. */
  lemma WindowResets(w: Window, nowMs: nat)
    requires w.resetAt <= nowMs
    ensures Next(Some(w), nowMs) == Window(nowMs + WindowMs, 1)
    ensures Allowed(Next(Some(w), nowMs))
  {
  }

  /** The per-process store of counters, keyed by client address. */
  class SendLimiter {
    var windows: map<string, Window>

    constructor ()
      ensures windows == map[]
    {
      windows := map[];
    }

    /** Count a request from `client` at `nowMs` and say whether it may pass. */
    method Hit(client: string, nowMs: nat) returns (allowed: bool)
      modifies this
      ensures windows == old(windows)[client := Next(Lookup(old(windows), client), nowMs)]
      ensures allowed == Allowed(windows[client])
    {
      var w := Next(Lookup(windows, client), nowMs);
      windows := windows[client := w];
      allowed := w.hits <= MaxHits;
    }
  }
}
