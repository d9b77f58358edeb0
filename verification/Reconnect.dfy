/** The dashboard's push connection (web/dashboard/src/services/rpc.ts, connectPush): a WebSocket reopened
    by a timer after it closes, at most ten times in a row, until it is disposed of. */
module Reconnect {
  import opened Text

  datatype Phase = Connecting | Open | Closing | Closed

  /** `sockets` are all sockets ever created; `ws`, `closed` and `retry` are the variables of the closure;
      `timers` counts the pending timers. The rest is history: the delays set and the sockets created since
      the last open, and whether there was an open at all. */
  datatype State = State(sockets: seq<Phase>, ws: Option<nat>, closed: bool, retry: nat, timers: nat,
                         delays: seq<nat>, created: nat, everOpen: bool)

  datatype Event =
    | Opens(i: nat)     // socket i opens
    | Errs(i: nat)      // socket i reports an error
    | Closes(i: nat)    // socket i closes
    | Fires             // a pending timer fires
    | Dispose           // the caller disconnects

  function Connect(s: State): State {
    if s.closed then s
    else s.(sockets := s.sockets + [Connecting], ws := Some(|s.sockets|), created := s.created + 1)
  }

  const START: State := Connect(State([], None, false, 0, 0, [], 0, false))

  /** `ws?.close()`: a socket that is not yet closing starts to. */
  function CloseSocket(s: State): State {
    if s.ws.Some? && s.ws.value < |s.sockets| && (s.sockets[s.ws.value] == Connecting || s.sockets[s.ws.value] == Open)
    then s.(sockets := s.sockets[s.ws.value := Closing]) else s
  }

  function Delay(retry: nat): nat {
    if 3000 * retry < 15000 then 3000 * retry else 15000
  }

  predicate Enabled(s: State, e: Event) {
    match e
    case Opens(i) => i < |s.sockets| && s.sockets[i] == Connecting
    case Errs(i) => i < |s.sockets| && s.sockets[i] != Closed
    case Closes(i) => i < |s.sockets| && s.sockets[i] != Closed
    case Fires => s.timers > 0
    case Dispose => true
  }

  /** The handlers. `retry++ < 10` counts even when it does not retry. */
  function Handle(s: State, e: Event): State
    requires Enabled(s, e)
  {
    match e
    case Opens(i) => s.(sockets := s.sockets[i := Open], retry := 0, delays := [], created := 0, everOpen := true)
    case Errs(i) => CloseSocket(s)
    case Closes(i) =>
      var t := s.(sockets := s.sockets[i := Closed], ws := None);
      if s.closed then t
      else if s.retry < 10 then
        t.(retry := s.retry + 1, timers := s.timers + 1, delays := s.delays + [Delay(s.retry + 1)])
      else t.(retry := s.retry + 1)
    case Fires => Connect(s.(timers := s.timers - 1))
    case Dispose => CloseSocket(s.(closed := true))
  }

  class PushConnection {
    var sockets: seq<Phase>
    var ws: Option<nat>
    var closed: bool
    var retry: nat
    var timers: nat
    var delays: seq<nat>
    var created: nat
    var everOpen: bool

    function Current(): State
      reads this
    {
      State(sockets, ws, closed, retry, timers, delays, created, everOpen)
    }

    constructor ()
      ensures Current() == START
    {
      sockets, ws, closed, retry, timers, delays, created, everOpen := [Connecting], Some(0), false, 0, 0, [], 1, false;
    }

    method ConnectNow()
      modifies this
      ensures Current() == Connect(old(Current()))
    {
      if closed { return; }
      ws := Some(|sockets|);
      sockets := sockets + [Connecting];
      created := created + 1;
    }

    method CloseNow()
      modifies this`sockets
      ensures Current() == CloseSocket(old(Current()))
    {
      if ws.Some? && ws.value < |sockets| && (sockets[ws.value] == Connecting || sockets[ws.value] == Open) {
        sockets := sockets[ws.value := Closing];
      }
    }

    method OnOpen(i: nat)
      requires Enabled(Current(), Opens(i))
      modifies this
      ensures Current() == Handle(old(Current()), Opens(i))
    {
      sockets := sockets[i := Open];
      retry := 0;
      delays, created, everOpen := [], 0, true;
    }

    method OnError(i: nat)
      requires Enabled(Current(), Errs(i))
      modifies this
      ensures Current() == Handle(old(Current()), Errs(i))
    {
      CloseNow();
    }

    method OnClose(i: nat)
      requires Enabled(Current(), Closes(i))
      modifies this
      ensures Current() == Handle(old(Current()), Closes(i))
    {
      sockets := sockets[i := Closed];
      ws := None;
      if !closed {
        var before := retry;
        retry := retry + 1;
        if before < 10 {
          timers := timers + 1;
          delays := delays + [if 3000 * retry < 15000 then 3000 * retry else 15000];
        }
      }
    }

    method OnTimer()
      requires Enabled(Current(), Fires)
      modifies this
      ensures Current() == Handle(old(Current()), Fires)
    {
      timers := timers - 1;
      ConnectNow();
    }

    method Disconnect()
      modifies this
      ensures Current() == Handle(old(Current()), Dispose)
    {
      closed := true;
      CloseNow();
    }
  }

  // ---------- every event sequence ----------

  function Execute(s: State, es: seq<Event>): State {
    if es == [] then s
    else
      var t, e := Execute(s, es[..|es| - 1]), es[|es| - 1];
      if Enabled(t, e) then Handle(t, e) else t
  }

  function Unclosed(s: State): nat {
    if s.sockets != [] && s.sockets[|s.sockets| - 1] != Closed then 1 else 0
  }

  function Retries(s: State): nat {
    if s.retry < 10 then s.retry else 10
  }

  /** Only the newest socket can be unclosed, `ws` names it exactly then, and it excludes a pending timer.
      The delays set since the last open are 3 s, 6 s, ... capped at 15 s, one per counted retry; sockets
      created since then and pending timers are accounted for by the retries, plus one before the first
      open for the initial socket, and none is left out until disposal. Without socket and timer the retries
      are used up, and after disposal no socket is open. */
  ghost predicate Inv(s: State) {
    && s.sockets != []
    && (forall i :: 0 <= i < |s.sockets| - 1 ==> s.sockets[i] == Closed)
    && s.ws == (if Unclosed(s) == 1 then Some(|s.sockets| - 1) else None)
    && Unclosed(s) + s.timers <= 1
    && |s.delays| == Retries(s)
    && (forall k :: 0 <= k < |s.delays| ==> s.delays[k] == Delay(k + 1))
    && s.created + s.timers <= Retries(s) + (if s.everOpen then 0 else 1)
    && (!s.closed ==> s.created + s.timers == Retries(s) + (if s.everOpen then 0 else 1))
    && (!s.closed && Unclosed(s) + s.timers == 0 ==> s.retry > 10)
    && (s.closed ==> forall i :: 0 <= i < |s.sockets| ==> s.sockets[i] == Closing || s.sockets[i] == Closed)
  }

  lemma HandleKeepsInv(s: State, e: Event)
    requires Inv(s) && Enabled(s, e)
    ensures Inv(Handle(s, e))
    ensures s.closed ==> Handle(s, e).closed && |Handle(s, e).sockets| == |s.sockets|
    ensures s.closed ==> Handle(s, e).timers <= s.timers && Handle(s, e).delays == s.delays
  {
    var n := |s.sockets| - 1;
    match e
    case Opens(i) => assert i == n;
    case Errs(i) => assert i == n;
    case Closes(i) => assert i == n;
    case Fires =>
    case Dispose =>
  }

  lemma {:induction false} InvHolds(es: seq<Event>)
    ensures Inv(Execute(START, es))
  {
    if es == [] {
    } else {
      InvHolds(es[..|es| - 1]);
      var t, e := Execute(START, es[..|es| - 1]), es[|es| - 1];
      if Enabled(t, e) {
        HandleKeepsInv(t, e);
      }
    }
  }

  /** In every event sequence all sockets but the newest are closed, and so is the newest one while a timer is
      pending, of which there is at most one; at most eleven sockets are created from the start without an open
      and at most ten after the last open; and the k-th delay is 3 s times k, but not more than 15 s. The
      connection rests without socket and timer only if it was disposed of or has retried ten times, and after
      disposal no socket is connecting or open. */
  lemma ReconnectSafe(es: seq<Event>)
    ensures var s := Execute(START, es);
            var last := |s.sockets| - 1;
            && last >= 0 && (forall i :: 0 <= i < last ==> s.sockets[i] == Closed)
            && s.timers <= 1 && (s.timers == 1 ==> s.sockets[last] == Closed)
            && s.created <= (if s.everOpen then 10 else 11) && |s.delays| <= 10
            && (forall k :: 0 <= k < |s.delays| ==>
                  s.delays[k] == if 3000 * (k + 1) < 15000 then 3000 * (k + 1) else 15000)
            && (!s.closed && s.sockets[last] == Closed && s.timers == 0 ==> |s.delays| == 10)
            && (s.closed ==> forall i :: 0 <= i < |s.sockets| ==> s.sockets[i] == Closing || s.sockets[i] == Closed)
  {
    InvHolds(es);
  }

  /** An error closes the socket that reports it, and nothing else happens. */
  lemma ErrorCloses(es: seq<Event>, i: nat)
    requires Enabled(Execute(START, es), Errs(i))
    ensures var s := Execute(START, es);
            i < |s.sockets| && Handle(s, Errs(i)) == s.(sockets := s.sockets[i := Closing])
  {
    var s := Execute(START, es);
    InvHolds(es);
    assert i == |s.sockets| - 1;
    assert s.sockets[i := s.sockets[i]] == s.sockets;
  }

  lemma {:induction false} ExecuteSplit(s: State, a: seq<Event>, b: seq<Event>)
    ensures Execute(s, a + b) == Execute(Execute(s, a), b)
  {
    if b == [] {
      assert a + b == a;
    } else {
      assert (a + b)[..|a + b| - 1] == a + b[..|b| - 1];
      ExecuteSplit(s, a, b[..|b| - 1]);
    }
  }

  /** After disposal no socket is created and no timer set any more, whatever still happens. */
  lemma {:induction false} NothingAfterDispose(es: seq<Event>, later: seq<Event>)
    requires Execute(START, es).closed
    ensures Execute(START, es + later).closed
    ensures |Execute(START, es + later).sockets| == |Execute(START, es).sockets|
    ensures Execute(START, es + later).timers <= Execute(START, es).timers
    ensures Execute(START, es + later).delays == Execute(START, es).delays
  {
    ExecuteSplit(START, es, later);
    if later == [] {
    } else {
      var init, e := later[..|later| - 1], later[|later| - 1];
      NothingAfterDispose(es, init);
      ExecuteSplit(START, es, init);
      InvHolds(es + init);
      var t := Execute(Execute(START, es), init);
      if Enabled(t, e) {
        HandleKeepsInv(t, e);
      }
    }
  }

  // ---------- giving up ----------

  /** What is left before the connection gives up: three per retry left, two for a pending timer, one for
      an unclosed socket. */
  function Patience(s: State): nat {
    3 * (10 - Retries(s)) + 2 * s.timers + Unclosed(s)
  }

  /** Every close and every timer uses up patience, and only an open can restore it. */
  lemma PatienceRunsOut(s: State, e: Event)
    requires Inv(s) && Enabled(s, e) && !e.Opens?
    ensures Patience(Handle(s, e)) <= Patience(s)
    ensures e.Closes? || e.Fires? ==> Patience(Handle(s, e)) < Patience(s)
  {
    var n := |s.sockets| - 1;
    match e
    case Opens(i) =>
    case Errs(i) => assert i == n;
    case Closes(i) => assert i == n;
    case Fires =>
    case Dispose =>
  }

  /** The closes and timers that really happen in a run. */
  function Happenings(s: State, es: seq<Event>): nat {
    if es == [] then 0
    else
      var t, e := Execute(s, es[..|es| - 1]), es[|es| - 1];
      Happenings(s, es[..|es| - 1]) + (if Enabled(t, e) && (e.Closes? || e.Fires?) then 1 else 0)
  }

  /** A run in which no socket opens comes to rest: from any state reached it can go through at most
      Patience more closes and timers, 31 from the start. */
  lemma {:induction false} GivesUp(before: seq<Event>, es: seq<Event>)
    requires forall e :: e in es ==> !e.Opens?
    ensures Happenings(Execute(START, before), es)
            + Patience(Execute(START, before + es)) <= Patience(Execute(START, before))
    ensures Patience(START) == 31
  {
    var s := Execute(START, before);
    ExecuteSplit(START, before, es);
    if es == [] {
    } else {
      var init, e := es[..|es| - 1], es[|es| - 1];
      assert es == init + [e];
      GivesUp(before, init);
      ExecuteSplit(START, before, init);
      InvHolds(before + init);
      var t := Execute(s, init);
      if Enabled(t, e) {
        PatienceRunsOut(t, e);
      }
    }
  }
}
