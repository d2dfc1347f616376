/** Connection control of the Modbus TCP driver: loss of the connection and limited, delayed reconnection. */
module ModbusLink {
  import opened Wrappers

  datatype ConnectionState = Disconnected | Connected | Reconnecting | Failed

  datatype Limits = Limits(maxAttempts: nat, delay: nat)

  /** A connection attempt, made by `init` or by a reconnection. */
  datatype Attempt = Attempt(start: nat, finish: nat, ok: bool, byInit: bool)

  /** The driver's connection fields, and all connection attempts so far. */
  datatype Link = Link(state: ConnectionState, attempts: nat, nextTime: Option<nat>, history: seq<Attempt>)

  const NEW_LINK := Link(Disconnected, 0, None, [])

  /** How the requests of a call end: answered (well or with an error), or with the connection lost. */
  datatype Traffic = Answered | Lost

  /** A call of the driver: `init`, an exchange (reading inputs or writing outputs), or `shutdown`, the clock before
      and after a possible connection attempt and that attempt's result. */
  datatype Call =
    | Init(start: nat, finish: nat, ok: bool)
    | Exchange(start: nat, finish: nat, ok: bool, traffic: Traffic)
    | Shutdown

  // ---- What the calls do --------------------------------------------------------------

  function ConnectResult(l: Link, a: Attempt): Link
  {
    var tried := l.(history := l.history + [a]);
    if a.ok then tried.(state := Connected, attempts := 0, nextTime := None) else tried
  }

  predicate MayReconnect(c: Limits, l: Link, now: nat)
  {
    l.attempts < c.maxAttempts && (l.nextTime.None? || l.nextTime.value <= now)
  }

  function Reconnected(c: Limits, l: Link, start: nat, finish: nat, ok: bool): Link
  {
    if l.attempts >= c.maxAttempts then l.(state := Failed)
    else if !MayReconnect(c, l, start) then l
    else
      var tried := ConnectResult(l.(attempts := l.attempts + 1, state := Reconnecting), Attempt(start, finish, ok, false));
      if ok then tried else tried.(nextTime := Some(finish + c.delay))
  }

  function Called(c: Limits, l: Link, x: Call): Link
  {
    match x
    case Init(start, finish, ok) => ConnectResult(l, Attempt(start, finish, ok, true))
    case Shutdown => l.(state := Disconnected)
    case Exchange(start, finish, ok, traffic) =>
      var l1 := if l.state != Connected then Reconnected(c, l, start, finish, ok) else l;
      if l1.state == Connected && traffic.Lost? then l1.(state := Disconnected) else l1
  }

  function AfterCalls(c: Limits, xs: seq<Call>): Link
  {
    if xs == [] then NEW_LINK else Called(c, AfterCalls(c, xs[..|xs| - 1]), xs[|xs| - 1])
  }

  // ---- Whole runs -----------------------------------------------------------------------

  /** The clock never goes back: neither within a call nor between an attempt and later calls. */
  ghost predicate Monotone(c: Limits, xs: seq<Call>)
  {
    forall i :: 0 <= i < |xs| && !xs[i].Shutdown? ==>
      && xs[i].start <= xs[i].finish
      && forall k :: 0 <= k < |AfterCalls(c, xs[..i]).history| ==> AfterCalls(c, xs[..i]).history[k].finish <= xs[i].start
  }

  /** Reconnection attempts since the last successful attempt. */
  function Outage(h: seq<Attempt>): nat
  {
    if h == [] || h[|h| - 1].ok then 0 else Outage(h[..|h| - 1]) + if h[|h| - 1].byInit then 0 else 1
  }

  predicate FailedReconnect(a: Attempt) { !a.byInit && !a.ok }

  /** No attempt from `i` on succeeded before `j`. */
  predicate SameOutage(h: seq<Attempt>, i: nat, j: nat)
    requires i <= j <= |h|
  {
    forall k :: i <= k < j ==> !h[k].ok
  }

  ghost predicate LinkInv(c: Limits, l: Link)
  {
    var h := l.history;
    && l.attempts == Outage(h) <= c.maxAttempts
    && (forall i :: 0 <= i < |h| && FailedReconnect(h[i]) && SameOutage(h, i, |h|) ==>
          l.nextTime.Some? && h[i].finish + c.delay <= l.nextTime.value)
    && (forall i, j :: 0 <= i < j < |h| && FailedReconnect(h[i]) && !h[j].byInit && SameOutage(h, i, j) ==>
          h[i].finish + c.delay <= h[j].start)
  }

  lemma HistoryExtends(c: Limits, l: Link, a: Attempt, next: Option<nat>)
    requires LinkInv(c, l)
    requires !a.byInit ==> l.attempts < c.maxAttempts && (l.nextTime.Some? ==> l.nextTime.value <= a.start)
    requires !a.ok ==> if a.byInit then next == l.nextTime
                       else next == Some(a.finish + c.delay)
                            && forall k :: 0 <= k < |l.history| ==> l.history[k].finish <= a.finish
    ensures LinkInv(c, Link(l.state, Outage(l.history + [a]), next, l.history + [a]))
  {
    var h, h' := l.history, l.history + [a];
    assert h'[..|h|] == h;
    forall i | 0 <= i < |h'| && FailedReconnect(h'[i]) && SameOutage(h', i, |h'|)
      ensures next.Some? && h'[i].finish + c.delay <= next.value
    {
      assert !h'[|h|].ok;
      if i < |h| {
        assert forall k :: i <= k < |h| ==> h[k] == h'[k];
        assert SameOutage(h, i, |h|);
      }
    }
    forall i, j | 0 <= i < j < |h'| && FailedReconnect(h'[i]) && !h'[j].byInit && SameOutage(h', i, j)
      ensures h'[i].finish + c.delay <= h'[j].start
    {
      assert forall k :: i <= k < j ==> h[k] == h'[k];
      assert SameOutage(h, i, j);
      assert j < |h| ==> h[j] == h'[j];
    }
  }

  lemma InitKeepsInv(c: Limits, l: Link, a: Attempt)
    requires LinkInv(c, l) && a.byInit
    ensures LinkInv(c, ConnectResult(l, a))
  {
    HistoryExtends(c, l, a, if a.ok then None else l.nextTime);
    assert (l.history + [a])[..|l.history|] == l.history;
    hide SameOutage, FailedReconnect;
  }

  lemma ReconnectKeepsInv(c: Limits, l: Link, start: nat, finish: nat, ok: bool)
    requires LinkInv(c, l) && start <= finish && forall k :: 0 <= k < |l.history| ==> l.history[k].finish <= start
    ensures LinkInv(c, Reconnected(c, l, start, finish, ok))
  {
    if MayReconnect(c, l, start) {
      var a := Attempt(start, finish, ok, false);
      HistoryExtends(c, l, a, if ok then None else Some(finish + c.delay));
      assert (l.history + [a])[..|l.history|] == l.history;
    }
    hide SameOutage, FailedReconnect;
  }

  lemma CallKeepsInv(c: Limits, l: Link, x: Call)
    requires LinkInv(c, l)
    requires !x.Shutdown? ==> x.start <= x.finish && forall k :: 0 <= k < |l.history| ==> l.history[k].finish <= x.start
    ensures LinkInv(c, Called(c, l, x))
  {
    match x
    case Init(start, finish, ok) => InitKeepsInv(c, l, Attempt(start, finish, ok, true));
    case Shutdown => StateIrrelevant(c, l, Disconnected);
    case Exchange(start, finish, ok, _) =>
      ReconnectKeepsInv(c, l, start, finish, ok);
      hide LinkInv, Reconnected;
      StateIrrelevant(c, Reconnected(c, l, start, finish, ok), Disconnected);
      StateIrrelevant(c, l, Disconnected);
  }

  lemma StateIrrelevant(c: Limits, l: Link, s: ConnectionState)
    ensures LinkInv(c, l.(state := s)) == LinkInv(c, l)
  {}

  lemma {:induction false} RunKeepsInv(c: Limits, xs: seq<Call>)
    requires Monotone(c, xs)
    ensures LinkInv(c, AfterCalls(c, xs))
  {
    if xs != [] {
      var init := xs[..|xs| - 1];
      forall i | 0 <= i < |init| ensures init[i] == xs[i] && init[..i] == xs[..i] {}
      assert Monotone(c, init) by {
        forall i | 0 <= i < |init| && !init[i].Shutdown?
          ensures init[i].start <= init[i].finish
          ensures forall k :: 0 <= k < |AfterCalls(c, init[..i]).history| ==>
                    AfterCalls(c, init[..i]).history[k].finish <= init[i].start
        {
          assert init[i] == xs[i] && init[..i] == xs[..i];
        }
      }
      RunKeepsInv(c, init);
      assert xs[..|xs| - 1] == init && xs[|xs| - 1] == xs[|init|];
      CallKeepsInv(c, AfterCalls(c, init), xs[|xs| - 1]);
    }
  }

  lemma CallCounts(c: Limits, l: Link, x: Call)
    requires l.attempts == Outage(l.history) <= c.maxAttempts
    ensures var l' := Called(c, l, x);
            && l'.attempts == Outage(l'.history) <= c.maxAttempts
            && l.history <= l'.history && |l'.history| <= |l.history| + 1
  {
    if !x.Shutdown? {
      var a := Attempt(x.start, x.finish, x.ok, x.Init?);
      assert (l.history + [a])[..|l.history|] == l.history;
    }
  }

  /** At most the allowed number of reconnections is tried in one outage, at every moment of every run, whatever the
      clock does. */
  lemma {:induction false} AttemptsAreLimited(c: Limits, xs: seq<Call>, n: nat)
    requires n <= |AfterCalls(c, xs).history|
    ensures Outage(AfterCalls(c, xs).history[..n]) <= c.maxAttempts
    ensures AfterCalls(c, xs).attempts == Outage(AfterCalls(c, xs).history) <= c.maxAttempts
    decreases |xs|
  {
    if xs != [] {
      var init := xs[..|xs| - 1];
      var l := AfterCalls(c, init);
      AttemptsAreLimited(c, init, if n <= |l.history| then n else |l.history|);
      hide Outage, Called;
      CallCounts(c, l, xs[|xs| - 1]);
      var h := AfterCalls(c, xs).history;
      assert h[..|h|] == h;
      assert n <= |l.history| ==> l.history[..n] == h[..n];
    }
  }

  /** A reconnection after a failed one in the same outage comes at least the delay later. */
  lemma AttemptsAreDelayed(c: Limits, xs: seq<Call>, i: nat, j: nat)
    requires Monotone(c, xs) && i < j < |AfterCalls(c, xs).history|
    requires FailedReconnect(AfterCalls(c, xs).history[i]) && !AfterCalls(c, xs).history[j].byInit
    requires SameOutage(AfterCalls(c, xs).history, i, j)
    ensures AfterCalls(c, xs).history[i].finish + c.delay <= AfterCalls(c, xs).history[j].start
  {
    RunKeepsInv(c, xs);
  }

  /** From FAILED on nothing but `init` makes the driver try to connect again; and without a shutdown it stays FAILED. */
  lemma {:induction false} FailedUntilInit(c: Limits, xs: seq<Call>, more: seq<Call>)
    requires AfterCalls(c, xs).state == Failed
    requires forall x <- more :: !x.Init?
    ensures var l, l' := AfterCalls(c, xs), AfterCalls(c, xs + more);
            && l'.history == l.history && l'.attempts == l.attempts && l'.state in {Failed, Disconnected}
            && ((forall x <- more :: !x.Shutdown?) ==> l'.state == Failed)
    ensures AfterCalls(c, xs).attempts >= c.maxAttempts
    decreases |more|
  {
    FailedMeansExhausted(c, xs);
    if more == [] {
      assert xs + more == xs;
    } else {
      FailedUntilInit(c, xs, more[..|more| - 1]);
      assert (xs + more)[..|xs + more| - 1] == xs + more[..|more| - 1];
      assert more[|more| - 1] in more;
    }
  }

  lemma {:induction false} FailedMeansExhausted(c: Limits, xs: seq<Call>)
    ensures AfterCalls(c, xs).state == Failed ==> AfterCalls(c, xs).attempts >= c.maxAttempts
  {
    if xs != [] {
      FailedMeansExhausted(c, xs[..|xs| - 1]);
    }
  }

  // ---- Attempts that are due are made ---------------------------------------------------

  /** Reconnecting is due: the limit is not reached, and nothing is scheduled for later. */
  predicate Due(c: Limits, attempts: nat, nextTime: Option<nat>, now: nat)
  {
    attempts < c.maxAttempts && match nextTime case None => true case Some(t) => t <= now
  }

  /** An exchange without a connection makes an attempt exactly if one is due. It then leaves the driver connected, with
      nothing counted or scheduled, if the attempt succeeds and the traffic does too, and otherwise the next attempt
      scheduled after the delay. At the limit it gives up. */
  lemma ExchangeReconnects(c: Limits, l: Link, start: nat, finish: nat, ok: bool, traffic: Traffic)
    requires l.state != Connected
    ensures var l' := Called(c, l, Exchange(start, finish, ok, traffic));
            if Due(c, l.attempts, l.nextTime, start) then
              && l'.history == l.history + [Attempt(start, finish, ok, false)]
              && l'.attempts == (if ok then 0 else l.attempts + 1)
              && l'.nextTime == (if ok then None else Some(finish + c.delay))
              && l'.state == if !ok then Reconnecting else if traffic.Answered? then Connected else Disconnected
            else
              && l'.history == l.history && l'.attempts == l.attempts && l'.nextTime == l.nextTime
              && l'.state == if l.attempts >= c.maxAttempts then Failed else l.state
  {}

  /** With a connection an exchange only loses it or not. */
  lemma ExchangeKeepsConnection(c: Limits, l: Link, start: nat, finish: nat, ok: bool, traffic: Traffic)
    requires l.state == Connected
    ensures Called(c, l, Exchange(start, finish, ok, traffic)) == l.(state := if traffic.Lost? then Disconnected else Connected)
  {}

  /** Exchanges in vain, each beginning at least the delay after the one before has ended. */
  predicate SpacedFailures(c: Limits, xs: seq<Call>)
  {
    && (forall i :: 0 <= i < |xs| ==> xs[i].Exchange? && !xs[i].ok)
    && forall i :: 0 <= i < |xs| - 1 ==> xs[i].finish + c.delay <= xs[i + 1].start
  }

  function CalledAll(c: Limits, l: Link, xs: seq<Call>): Link
  {
    if xs == [] then l else Called(c, CalledAll(c, l, xs[..|xs| - 1]), xs[|xs| - 1])
  }

  /** From the loss of a connection on, such exchanges make one attempt each up to the limit, and the next one gives up. */
  lemma {:induction false} RetriesUntilLimit(c: Limits, l: Link, xs: seq<Call>)
    requires l.state == Disconnected && l.attempts == 0 && l.nextTime.None? && SpacedFailures(c, xs)
    ensures var l' := CalledAll(c, l, xs);
            && (|xs| <= c.maxAttempts ==>
                  && |l'.history| == |l.history| + |xs| && l'.attempts == |xs|
                  && (forall i :: 0 <= i < |xs| ==> l'.history[|l.history| + i] == Attempt(xs[i].start, xs[i].finish, false, false))
                  && (xs != [] ==> l'.state == Reconnecting && l'.nextTime == Some(xs[|xs| - 1].finish + c.delay))
                  && (xs == [] ==> l' == l))
            && (|xs| > c.maxAttempts ==>
                  && l'.state == Failed && l'.attempts == c.maxAttempts && |l'.history| == |l.history| + c.maxAttempts)
  {
    if xs != [] {
      var n := |xs| - 1;
      var before, x := CalledAll(c, l, xs[..n]), xs[n];
      RetriesUntilLimit(c, l, xs[..n]);
      hide Called, Reconnected, MayReconnect;
      assert n > 0 ==> xs[n - 1].finish + c.delay <= xs[n - 1 + 1].start;
      ExchangeReconnects(c, before, x.start, x.finish, x.ok, x.traffic);
    }
  }

  // ---- The driver --------------------------------------------------------------------------

  class ModbusTcpDriver {
    const limits: Limits
    var state: ConnectionState
    var reconnectAttempts: nat
    var nextReconnectTime: Option<nat>
    ghost var history: seq<Attempt>

    ghost function Current(): Link
      reads this
    {
      Link(state, reconnectAttempts, nextReconnectTime, history)
    }

    constructor (limits: Limits)
      ensures Current() == NEW_LINK && this.limits == limits
    {
      this.limits := limits;
      state, reconnectAttempts, nextReconnectTime, history := Disconnected, 0, None, [];
    }

    method Connect(start: nat, finish: nat, ok: bool, ghost byInit: bool) returns (connected: bool)
      modifies this
      ensures Current() == ConnectResult(old(Current()), Attempt(start, finish, ok, byInit)) && connected == ok
      ensures history == old(history) + [Attempt(start, finish, ok, byInit)]
      ensures if ok then state == Connected && reconnectAttempts == 0 && nextReconnectTime == None
              else state == old(state) && reconnectAttempts == old(reconnectAttempts) && nextReconnectTime == old(nextReconnectTime)
    {
      history := history + [Attempt(start, finish, ok, byInit)];
      if !ok { return false; }
      state := Connected;
      reconnectAttempts := 0;
      nextReconnectTime := None;
      connected := true;
    }

    method TryReconnect(start: nat, finish: nat, ok: bool) returns (connected: bool)
      modifies this
      ensures Current() == Reconnected(limits, old(Current()), start, finish, ok)
      ensures connected == (Due(limits, old(reconnectAttempts), old(nextReconnectTime), start) && ok)
    {
      if reconnectAttempts >= limits.maxAttempts {
        state := Failed;
        return false;
      }
      if nextReconnectTime.Some? && start < nextReconnectTime.value {
        return false;
      }
      reconnectAttempts := reconnectAttempts + 1;
      state := Reconnecting;
      connected := Connect(start, finish, ok, false);
      if !connected {
        nextReconnectTime := Some(finish + limits.delay);
      }
    }

    method Init(start: nat, finish: nat, ok: bool) returns (connected: bool)
      modifies this
      ensures Current() == Called(limits, old(Current()), Call.Init(start, finish, ok)) && connected == ok
    {
      connected := Connect(start, finish, ok, true);
    }

    /** Reading inputs or writing outputs: reconnects if necessary, then sends requests. */
    method Exchange(start: nat, finish: nat, ok: bool, traffic: Traffic) returns (sent: bool)
      modifies this
      ensures Current() == Called(limits, old(Current()), Call.Exchange(start, finish, ok, traffic))
      ensures sent == (old(state) == Connected || (Due(limits, old(reconnectAttempts), old(nextReconnectTime), start) && ok))
    {
      sent := true;
      if state != Connected {
        sent := TryReconnect(start, finish, ok);
      }
      if sent && traffic.Lost? {
        state := Disconnected;
      }
    }

    method Shutdown()
      modifies this
      ensures Current() == Called(limits, old(Current()), Call.Shutdown) == old(Current()).(state := Disconnected)
    {
      state := Disconnected;
    }
  }
}
