/** The interval between automatic reconnects. */
module Backoff {

  function Min(a: int, b: int): int {
    if a < b then a else b
  }

  function Pow2(k: nat): (p: nat)
    ensures p >= 1
  {
    if k == 0 then 1 else 2 * Pow2(k - 1)
  }

  datatype Retry = Retry(retrying: bool, currentInterval: int)

  /** What happens to a client whose automatic reconnect is on.  A failure counts only while the
      application wants to be connected. */
  datatype Event = Failed(shouldBeConnected: bool) | Connack | ReconnectCalled(shouldBeConnected: bool)

  function Next(r: Retry, e: Event, minInterval: int, maxInterval: int): Retry {
    match e
    case Failed(wanted) =>
      if !wanted then r
      else if r.retrying then r.(currentInterval := Min(r.currentInterval * 2, maxInterval))
      else Retry(true, minInterval)
    case Connack => r.(retrying := false)
    case ReconnectCalled(wanted) => if wanted && !r.retrying then Retry(true, minInterval) else r
  }

  function Run(r: Retry, events: seq<Event>, minInterval: int, maxInterval: int): Retry {
    if events == [] then r
    else Next(Run(r, events[..|events| - 1], minInterval, maxInterval), events[|events| - 1], minInterval, maxInterval)
  }

  /** Failures since the last successful CONNACK; a call of reconnect counts as the first one. */
  function Failures(events: seq<Event>): nat {
    if events == [] then 0
    else
      var k := Failures(events[..|events| - 1]);
      match events[|events| - 1]
      case Failed(wanted) => if wanted then k + 1 else k
      case Connack => 0
      case ReconnectCalled(wanted) => if wanted && k == 0 then 1 else k
  }

  lemma {:induction false} Pow2Step(m: int, k: nat)
    ensures m * Pow2(k + 1) == m * Pow2(k) * 2
  {
    assert Pow2(k + 1) == 2 * Pow2(k);
  }

  /** After k failures without a success in between, the interval is the smallest one doubled k - 1
      times, and never more than the largest one; it starts again after a success. */
  lemma {:induction false} IntervalClosedForm(start: Retry, events: seq<Event>, minInterval: int, maxInterval: int)
    requires 0 < minInterval <= maxInterval && !start.retrying
    ensures var r, k := Run(start, events, minInterval, maxInterval), Failures(events);
            && (r.retrying <==> k > 0)
            && (k > 0 ==> r.currentInterval == Min(minInterval * Pow2(k - 1), maxInterval))
  {
    if events != [] {
      var front := events[..|events| - 1];
      IntervalClosedForm(start, front, minInterval, maxInterval);
      var k := Failures(front);
      if k > 0 {
        Pow2Step(minInterval, k - 1);
      }
      assert minInterval * Pow2(0) == minInterval;
    }
  }

  /** With a smallest interval above the largest one, the first interval exceeds the limit. */
  lemma LimitNeedsOrder(minInterval: int, maxInterval: int)
    ensures (forall events: seq<Event> :: var r := Run(Retry(false, 0), events, minInterval, maxInterval);
                                          r.retrying ==> r.currentInterval <= maxInterval)
            <==> minInterval <= maxInterval
  {
    if minInterval <= maxInterval {
      forall events: seq<Event>
        ensures var r := Run(Retry(false, 0), events, minInterval, maxInterval); r.retrying ==> r.currentInterval <= maxInterval
      {
        NeverAboveLimit(events, minInterval, maxInterval);
      }
    } else {
      var events := [Failed(true)];
      assert events[..0] == [];
      assert Run(Retry(false, 0), events, minInterval, maxInterval) == Retry(true, minInterval);
    }
  }

  lemma {:induction false} NeverAboveLimit(events: seq<Event>, minInterval: int, maxInterval: int)
    requires minInterval <= maxInterval
    ensures var r := Run(Retry(false, 0), events, minInterval, maxInterval); r.retrying ==> r.currentInterval <= maxInterval
  {
    if events != [] {
      NeverAboveLimit(events[..|events| - 1], minInterval, maxInterval);
    }
  }

  /** The fields of the client that the retry logic updates. */
  class Reconnector {
    const automaticReconnect: bool
    const minRetryInterval: int
    const maxRetryInterval: int
    var shouldBeConnected: bool
    var retrying: bool
    var reconnectNow: bool
    var currentInterval: int

    function State(): Retry
      reads this
    {
      Retry(retrying, currentInterval)
    }

    constructor (automaticReconnect: bool, minRetryInterval: int, maxRetryInterval: int)
      ensures State() == Retry(false, 0) && !shouldBeConnected && !reconnectNow
      ensures this.automaticReconnect == automaticReconnect
      ensures this.minRetryInterval == minRetryInterval && this.maxRetryInterval == maxRetryInterval
    {
      this.automaticReconnect := automaticReconnect;
      this.minRetryInterval := minRetryInterval;
      this.maxRetryInterval := maxRetryInterval;
      shouldBeConnected, retrying, reconnectNow, currentInterval := false, false, false, 0;
    }

    method StartConnectRetry()
      modifies this`retrying, this`currentInterval
      ensures automaticReconnect ==> State() == Next(old(State()), Failed(shouldBeConnected), minRetryInterval, maxRetryInterval)
      ensures !automaticReconnect ==> State() == old(State())
    {
      if automaticReconnect && shouldBeConnected {
        if retrying {
          currentInterval := Min(currentInterval * 2, maxRetryInterval);
        } else {
          currentInterval := minRetryInterval;
          retrying := true;
        }
      }
    }

    method CompleteConnection()
      modifies this`retrying
      ensures State() == Next(old(State()), Connack, minRetryInterval, maxRetryInterval)
    {
      retrying := false;
    }

    method Reconnect() returns (ok: bool)
      requires automaticReconnect
      modifies this`retrying, this`currentInterval, this`reconnectNow
      ensures State() == Next(old(State()), ReconnectCalled(shouldBeConnected), minRetryInterval, maxRetryInterval)
      ensures ok == shouldBeConnected && reconnectNow == (old(reconnectNow) || shouldBeConnected)
    {
      ok := false;
      if shouldBeConnected {
        reconnectNow := true;
        if !retrying {
          currentInterval := minRetryInterval;
          retrying := true;
        }
        ok := true;
      }
    }
  }
}
