/** The bind sessions of one channel and the binds under way for it (go-smpp-gateway/connector.go). */
module Pool {

  type Session = nat

  /** The list without the first occurrence of a session. */
  function RemovedFirst(conns: seq<Session>, x: Session): seq<Session> {
    if conns == [] then []
    else if conns[0] == x then conns[1..]
    else [conns[0]] + RemovedFirst(conns[1..], x)
  }

  lemma {:induction false} RemovedFirstSize(conns: seq<Session>, x: Session)
    ensures |RemovedFirst(conns, x)| == if x in conns then |conns| - 1 else |conns|
    ensures x !in conns ==> RemovedFirst(conns, x) == conns
    ensures multiset(RemovedFirst(conns, x)) == multiset(conns) - multiset{x}
  {
    if conns != [] {
      RemovedFirstSize(conns[1..], x);
      assert conns == [conns[0]] + conns[1..];
    }
  }

  lemma {:induction false} RemovedAt(conns: seq<Session>, i: nat)
    requires i < |conns| && forall j :: 0 <= j < i ==> conns[j] != conns[i]
    ensures RemovedFirst(conns, conns[i]) == conns[..i] + conns[i + 1..]
  {
    if i > 0 {
      RemovedAt(conns[1..], i - 1);
      assert conns[1..][..i - 1] == conns[1..i] && conns[..i] == [conns[0]] + conns[1..i];
      assert conns[1..][i..] == conns[i + 1..];
    }
  }

  function Max0(n: int): nat {
    if n > 0 then n else 0
  }

  /** What a reload keeps: nothing if the connection parameters changed, else at most concurrency sessions. */
  function Kept(sessions: seq<Session>, concurrency: int, paramsChanged: bool): seq<Session> {
    if paramsChanged then [] else sessions[Min(Max0(|sessions| - concurrency), |sessions|)..]
  }

  function Min(a: nat, b: nat): nat {
    if a <= b then a else b
  }

  /** New binds a reload asks for, given the sessions it sees and the binds it is told are pending. */
  function NeededBinds(concurrency: int, live: nat, pending: nat): nat {
    Max0(concurrency - live - pending)
  }

  class ChannelPool {
    var connections: seq<Session>
    var pendingBinds: nat

    constructor ()
      ensures connections == [] && pendingBinds == 0
    {
      connections, pendingBinds := [], 0;
    }

    method AddPendingBind()
      modifies this
      ensures pendingBinds == old(pendingBinds) + 1 && connections == old(connections)
    {
      pendingBinds := pendingBinds + 1;
    }

    /** The release that addPendingBind returns, run once. */
    method BindDone()
      modifies this
      ensures pendingBinds == Max0(old(pendingBinds) - 1) && connections == old(connections)
    {
      if pendingBinds > 0 {
        pendingBinds := pendingBinds - 1;
      }
    }

    /** The removal loop shared by OnClosed, the watchdog and the stale monitor. */
    method RemoveSession(closed: Session) returns (removed: bool)
      modifies this
      ensures connections == RemovedFirst(old(connections), closed)
      ensures removed == (closed in old(connections)) && pendingBinds == old(pendingBinds)
    {
      var i := 0;
      while i < |connections|
        invariant 0 <= i <= |connections| && connections == old(connections) && pendingBinds == old(pendingBinds)
        invariant forall j :: 0 <= j < i ==> connections[j] != closed
      {
        if connections[i] == closed {
          RemovedAt(connections, i);
          connections := connections[..i] + connections[i + 1..];
          return true;
        }
        i := i + 1;
      }
      RemovedFirstSize(connections, closed);
      removed := false;
    }

    /** The part of ReloadChannels that runs under the lock. */
    method Reload(concurrency: int, paramsChanged: bool) returns (needed: nat, toClose: seq<Session>)
      modifies this
      ensures toClose + connections == old(connections) && pendingBinds == old(pendingBinds)
      ensures connections == Kept(old(connections), concurrency, paramsChanged)
      ensures needed == NeededBinds(concurrency, |connections|, pendingBinds)
    {
      needed, toClose := 0, [];
      if |connections| > 0 && paramsChanged {
        toClose, connections := connections, [];
      }
      var diff := concurrency - |connections|;
      if diff > 0 {
        needed := Max0(diff - pendingBinds);
      } else if diff < 0 {
        var i := 0;
        while i < -diff && |connections| > 0
          invariant toClose + connections == old(connections) && pendingBinds == old(pendingBinds)
          invariant 0 <= i <= -diff && (!paramsChanged ==> |toClose| == i)
          invariant paramsChanged ==> connections == []
          invariant |connections| == 0 || |connections| - (-diff - i) == concurrency
        {
          toClose, connections := toClose + [connections[0]], connections[1..];
          i := i + 1;
        }
      }
      assert old(connections)[|toClose|..] == connections;
    }
  }

  // ---- all interleavings, for one channel ----

  /** binding: registered binds that hold no session yet. landed: registered binds whose session is already in
      the pool. owed: removals whose replacement bind is not yet registered. reserved: binds that a reload has
      decided on and not yet registered. */
  datatype State = State(sessions: seq<Session>, binding: nat, landed: nat, owed: nat, reserved: nat)

  datatype Event =
    | Reload(concurrency: int, paramsChanged: bool)
    | RegisterReserved
    | RegisterOwed
    | BindSucceeds(session: Session)
    | BindStops
    | BindReturns
    | SessionClosed(session: Session)
    | Silent(session: Session)
    | Stale(session: Session)

  predicate Enabled(s: State, e: Event) {
    match e
    case RegisterReserved => s.reserved > 0
    case RegisterOwed => s.owed > 0
    case BindSucceeds(_) => s.binding > 0
    case BindStops => s.binding > 0
    case BindReturns => s.landed > 0
    case _ => true
  }

  function Pending(s: State): nat {
    s.binding + s.landed
  }

  function Apply(s: State, e: Event): State
    requires Enabled(s, e)
  {
    match e
    case Reload(concurrency, paramsChanged) =>
      var kept := Kept(s.sessions, concurrency, paramsChanged);
      s.(sessions := kept, reserved := s.reserved + NeededBinds(concurrency, |kept|, Pending(s)))
    case RegisterReserved => s.(reserved := s.reserved - 1, binding := s.binding + 1)
    case RegisterOwed => s.(owed := s.owed - 1, binding := s.binding + 1)
    case BindSucceeds(x) => s.(sessions := s.sessions + [x], binding := s.binding - 1, landed := s.landed + 1)
    case BindStops => s.(binding := s.binding - 1)
    case BindReturns => s.(landed := s.landed - 1)
    case SessionClosed(x) => s.(sessions := RemovedFirst(s.sessions, x), owed := s.owed + if x in s.sessions then 1 else 0)
    case Silent(x) => s.(sessions := RemovedFirst(s.sessions, x), owed := s.owed + if x in s.sessions then 1 else 0)
    case Stale(x) => s.(sessions := RemovedFirst(s.sessions, x), owed := s.owed + 1)
  }

  /** Live sessions plus every bind that can still add one. */
  function Exposure(s: State): nat {
    |s.sessions| + s.binding + s.owed + s.reserved
  }

  /** The guard of a step: a reload must not miss more coming binds than it counts finished ones twice, unless
      it asks for nothing; the stale monitor must find its session in the pool, unless there is room. */
  predicate Safe(s: State, e: Event, concurrency: int) {
    match e
    case Reload(_, paramsChanged) =>
      s.owed + s.reserved <= s.landed || |Kept(s.sessions, concurrency, paramsChanged)| + Pending(s) >= concurrency
    case Stale(x) => x in s.sessions || Exposure(s) < concurrency
    case _ => true
  }

  lemma StepKeepsBoundIff(s: State, e: Event, concurrency: int)
    requires Enabled(s, e) && Exposure(s) <= concurrency
    requires e.Reload? ==> e.concurrency == concurrency
    ensures Exposure(Apply(s, e)) <= concurrency <==> Safe(s, e, concurrency)
  {
    match e
    case SessionClosed(x) => RemovedFirstSize(s.sessions, x);
    case Silent(x) => RemovedFirstSize(s.sessions, x);
    case Stale(x) => RemovedFirstSize(s.sessions, x);
    case _ =>
  }

  ghost predicate StepAt(events: seq<Event>, states: seq<State>, i: nat)
    requires i < |events| && |states| == |events| + 1
  {
    Enabled(states[i], events[i]) && states[i + 1] == Apply(states[i], events[i])
  }

  const START := State([], 0, 0, 0, 0)

  /** A run with an unchanging concurrency. */
  ghost predicate IsRun(events: seq<Event>, states: seq<State>, concurrency: nat) {
    && |states| == |events| + 1 && states[0] == START
    && (forall i :: 0 <= i < |events| ==> StepAt(events, states, i))
    && forall i :: 0 <= i < |events| && events[i].Reload? ==> events[i].concurrency == concurrency
  }

  ghost predicate SafeAt(events: seq<Event>, states: seq<State>, concurrency: nat, i: nat)
    requires i < |events| && |states| == |events| + 1
  {
    Safe(states[i], events[i], concurrency)
  }

  lemma {:induction false} BoundUpTo(events: seq<Event>, states: seq<State>, concurrency: nat, n: nat)
    requires IsRun(events, states, concurrency) && n < |states|
    requires forall i :: 0 <= i < n ==> SafeAt(events, states, concurrency, i)
    ensures Exposure(states[n]) <= concurrency
  {
    if n > 0 {
      BoundUpTo(events, states, concurrency, n - 1);
      assert StepAt(events, states, n - 1) && SafeAt(events, states, concurrency, n - 1);
      StepKeepsBoundIff(states[n - 1], events[n - 1], concurrency);
    }
  }

  /** Over any run, live sessions plus unfinished binds stay within the concurrency exactly as long as every step
      is safe. */
  lemma PoolBoundIff(events: seq<Event>, states: seq<State>, concurrency: nat)
    requires IsRun(events, states, concurrency)
    ensures (forall i :: 0 <= i < |states| ==> Exposure(states[i]) <= concurrency)
            <==> forall i :: 0 <= i < |events| ==> SafeAt(events, states, concurrency, i)
  {
    if forall i :: 0 <= i < |events| ==> SafeAt(events, states, concurrency, i) {
      forall i | 0 <= i < |states|
        ensures Exposure(states[i]) <= concurrency
      {
        BoundUpTo(events, states, concurrency, i);
      }
    }
    if forall i :: 0 <= i < |states| ==> Exposure(states[i]) <= concurrency {
      forall i | 0 <= i < |events|
        ensures SafeAt(events, states, concurrency, i)
      {
        assert StepAt(events, states, i) && Exposure(states[i]) <= concurrency && Exposure(states[i + 1]) <= concurrency;
        StepKeepsBoundIff(states[i], events[i], concurrency);
      }
    }
  }

  /** When no registration is outstanding every reload is safe and fills the channel up exactly. */
  lemma ReloadRefills(s: State, concurrency: nat, paramsChanged: bool)
    requires s.owed == s.reserved == s.landed == 0
    ensures Safe(s, Reload(concurrency, paramsChanged), concurrency)
    ensures s.binding <= concurrency && |s.sessions| + s.binding <= concurrency ==>
              Exposure(Apply(s, Reload(concurrency, paramsChanged))) == concurrency
  {
  }

  /** Some run of these events ends in the state. */
  ghost predicate Reaches(events: seq<Event>, concurrency: nat, s: State) {
    exists states :: IsRun(events, states, concurrency) && states[|events|] == s
  }

  lemma OneMore(events: seq<Event>, concurrency: nat, s: State, e: Event)
    requires Reaches(events, concurrency, s) && Enabled(s, e) && (e.Reload? ==> e.concurrency == concurrency)
    ensures Reaches(events + [e], concurrency, Apply(s, e))
  {
    var states :| IsRun(events, states, concurrency) && states[|events|] == s;
    var more, later := events + [e], states + [Apply(s, e)];
    forall i | 0 <= i < |more|
      ensures StepAt(more, later, i)
    {
      if i < |events| {
        assert StepAt(events, states, i);
      }
    }
    assert IsRun(more, later, concurrency) && later[|more|] == Apply(s, e);
  }

  lemma ReloadOfEmpty(events: seq<Event>, s: State)
    requires Reaches(events, 1, s) && s.sessions == [] && s.binding == s.landed == 0
    ensures Reaches(events + [Reload(1, false)], 1, s.(reserved := s.reserved + 1))
  {
    assert s.sessions[0..] == s.sessions;
    OneMore(events, 1, s, Reload(1, false));
  }

  /** One session opened by a reload and closed again. */
  function Closing(): seq<Event> {
    [Reload(1, false)] + [RegisterReserved] + [BindSucceeds(7)] + [BindReturns] + [SessionClosed(7)]
  }

  lemma ClosingOwesOne(e: seq<Event>, s: State)
    requires e == [Reload(1, false)] && s == State([], 0, 0, 0, 1) && Reaches(e, 1, s)
    ensures Reaches(e + [RegisterReserved] + [BindSucceeds(7)] + [BindReturns] + [SessionClosed(7)], 1, State([], 0, 0, 1, 0))
  {
    OneMore(e, 1, s, RegisterReserved);
    OneMore(e + [RegisterReserved], 1, Apply(s, RegisterReserved), BindSucceeds(7));
    var bound := State([7], 0, 1, 0, 0);
    assert Apply(Apply(s, RegisterReserved), BindSucceeds(7)).sessions == [7];
    OneMore(e + [RegisterReserved] + [BindSucceeds(7)], 1, bound, BindReturns);
    OneMore(e + [RegisterReserved] + [BindSucceeds(7)] + [BindReturns], 1, Apply(bound, BindReturns), SessionClosed(7));
    assert RemovedFirst([7], 7) == [];
  }

  /** Two runs that break the bound: a reload between a removal and the registration of its replacement, and a
      stale monitor that acts on a session OnClosed has already removed. */
  lemma BoundCanBreak()
    ensures Reaches(Closing() + [Reload(1, false)], 1, State([], 0, 0, 1, 1))
    ensures Reaches(Closing() + [Stale(7)], 1, State([], 0, 0, 2, 0))
    ensures Exposure(State([], 0, 0, 1, 1)) == Exposure(State([], 0, 0, 2, 0)) == 2
  {
    assert IsRun([], [START], 1) && [START][0] == START;
    ReloadOfEmpty([], START);
    assert [] + [Reload(1, false)] == [Reload(1, false)];
    ClosingOwesOne([Reload(1, false)], State([], 0, 0, 0, 1));
    var closed := State([], 0, 0, 1, 0);
    ReloadOfEmpty(Closing(), closed);
    OneMore(Closing(), 1, closed, Stale(7));
  }
}
