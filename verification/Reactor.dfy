// The sentry client's event loop: a map of active streams, a connector stream that is put
// on hold while connected, and the lock on the queue of outgoing messages.
module Reactor {
  import opened Wrappers

  datatype StreamId = Sentry | Send | Receive | Stop

  /** A stream of some kind; every stream made has its own serial number. A send stream has
      started once it has been polled. */
  datatype Stream = Stream(kind: StreamId, serial: nat, started: bool)

  /** What polling a stream brings. A connector item comes with the outcome of subscribing to
      the new sentry, an error with whether the sentry has disconnected. */
  datatype Outcome =
    | Pending
    | Ended
    | Item(subscribed: bool, messageId: nat)
    | Failure(disconnected: bool)

  datatype Event = Poll(id: StreamId, outcome: Outcome)

  datatype Phase = Running | Stopped | Died

  /** Branches that the code treats as mistakes. */
  datatype Fault = HolderMissing | ReceiverLocked | UnexpectedResult

  datatype State = State(
    phase: Phase,
    streams: map<StreamId, Stream>,
    holder: Option<Stream>,
    lock: Option<nat>,
    senders: set<nat>,
    made: nat,
    connectorEnded: bool,
    faults: set<Fault>)

  const CONNECTOR := Stream(Sentry, 0, false)

  function Initial(senders: set<nat>): (s: State) {
    State(Running, map[Sentry := CONNECTOR, Stop := Stream(Stop, 1, false)], None, None, senders, 2, false, {})
  }

  // ----- Removing and starting streams -----

  /** Dropping a send stream gives the lock back. */
  function Unlock(lock: Option<nat>, dropped: Stream): (r: Option<nat>) {
    if lock == Some(dropped.serial) then None else lock
  }

  function Remove(s: State, id: StreamId): (r: State) {
    if id in s.streams then s.(streams := s.streams - {id}, lock := Unlock(s.lock, s.streams[id])) else s
  }

  /** A stream that is replaced is dropped. */
  function Insert(s: State, id: StreamId, x: Stream): (r: State) {
    var s' := Remove(s, id);
    s'.(streams := s'.streams[id := x])
  }

  /** The first poll of a send stream takes the lock. */
  function Start(s: State, id: StreamId): (r: State)
    requires id in s.streams
  {
    var x := s.streams[id];
    if x.kind != Send || x.started then s
    else if s.lock.Some? then s.(faults := s.faults + {ReceiverLocked}, streams := s.streams - {id})
    else s.(lock := Some(x.serial), streams := s.streams[id := x.(started := true)])
  }

  // ----- Events -----

  function EndStream(s: State, id: StreamId): (r: State)
    requires id in s.streams
  {
    var kind := s.streams[id].kind;
    var s' := Remove(s, id);
    match kind
    case Sentry => s'.(connectorEnded := true)
    case Receive => s'.(senders := {})
    case _ => s'
  }

  /** A new sentry: the connector goes on hold and two streams are made, unless
      subscribing fails. */
  function Connect(s: State, subscribed: bool): (r: State)
    requires Sentry in s.streams
  {
    var held := Remove(s, Sentry).(holder := Some(s.streams[Sentry]));
    if !subscribed then held.(phase := Died, senders := {})
    else
      var sending := Insert(held, Send, Stream(Send, held.made, false));
      Insert(sending, Receive, Stream(Receive, held.made + 1, false)).(made := held.made + 2)
  }

  function Reconnect(s: State): (r: State) {
    var dropped := Remove(Remove(s, Send), Receive);
    match dropped.holder
    case Some(x) => Insert(dropped.(holder := None), Sentry, x)
    case None => dropped.(faults := dropped.faults + {HolderMissing})
  }

  function Handle(s: State, id: StreamId, outcome: Outcome): (r: State)
    requires id in s.streams && (outcome.Item? || outcome.Failure?)
  {
    if outcome.Item? && id != Stop && s.streams[id].kind != id then
      s.(phase := Died, faults := s.faults + {UnexpectedResult})
    else
      match id
      case Sentry => if outcome.Item? then Connect(s, outcome.subscribed) else s
      case Send => if outcome.Failure? && outcome.disconnected then Reconnect(s) else s
      case Receive =>
        if outcome.Failure? then if outcome.disconnected then Reconnect(s) else s
        else if outcome.messageId in s.senders then s else s.(phase := Died)
      case Stop => s.(phase := Stopped)
  }

  /** One poll of one stream; the loop also ends when no stream is left. */
  function Next(s: State, e: Event): (r: State) {
    if s.phase != Running || e.id !in s.streams then s
    else
      var s' := Start(s, e.id);
      if e.id !in s'.streams then s'
      else
        match e.outcome
        case Pending => s'
        case Ended => var s'' := EndStream(s', e.id); if s''.streams == map[] then s''.(phase := Stopped) else s''
        case _ => Handle(s', e.id, e.outcome)
  }

  function Run(s: State, events: seq<Event>): (r: State)
    decreases |events|
  {
    if events == [] then s else Run(Next(s, events[0]), events[1..])
  }

  // ----- The invariant -----

  /** An active connector excludes the send and receive streams and a held connector. */
  ghost predicate Exclusive(s: State) {
    && (Sentry in s.streams ==> s.holder.None? && Send !in s.streams && Receive !in s.streams)
    && (Send in s.streams || Receive in s.streams ==> s.holder.Some?)
  }

  /** The connector is active, held, or has ended, and only one of these. */
  ghost predicate ConnectorKept(s: State) {
    && (Sentry in s.streams ==> s.streams[Sentry] == CONNECTOR && !s.connectorEnded)
    && (s.holder.Some? ==> s.holder.value == CONNECTOR && !s.connectorEnded)
    && (Sentry in s.streams || s.holder.Some? || s.connectorEnded)
  }

  /** The lock belongs to the active send stream, from when it has started. */
  ghost predicate LockOwned(s: State) {
    if Send in s.streams && s.streams[Send].started then s.lock == Some(s.streams[Send].serial) else s.lock.None?
  }

  /** Every active stream is of its kind, and no two share a serial number. */
  ghost predicate WellNumbered(s: State) {
    && (forall id | id in s.streams :: s.streams[id].kind == id && s.streams[id].serial < s.made)
    && (forall id | id in s.streams && id != Sentry :: s.streams[id].serial > 0)
    && (forall a, b | a in s.streams && b in s.streams && a != b :: s.streams[a].serial != s.streams[b].serial)
    && s.made >= 2
  }

  ghost predicate Inv(s: State) {
    s.faults == {} && (s.phase == Running ==> Exclusive(s) && ConnectorKept(s) && LockOwned(s) && WellNumbered(s))
  }

  lemma InitialInv(senders: set<nat>)
    ensures Inv(Initial(senders))
  {
  }

  lemma StartKeeps(s: State, id: StreamId)
    requires Inv(s) && s.phase == Running && id in s.streams
    ensures Inv(Start(s, id)) && id in Start(s, id).streams && Start(s, id).phase == Running
    ensures Start(s, id).streams.Keys == s.streams.Keys
  {
  }

  lemma EndKeeps(s: State, id: StreamId)
    requires Inv(s) && s.phase == Running && id in s.streams
    ensures Inv(EndStream(s, id))
  {
  }

  lemma ConnectKeeps(s: State, subscribed: bool)
    requires Inv(s) && s.phase == Running && Sentry in s.streams
    ensures Inv(Connect(s, subscribed))
  {
  }

  lemma DropKeeps(s: State)
    requires Inv(s) && s.phase == Running && (Send in s.streams || Receive in s.streams)
    ensures var d := Remove(Remove(s, Send), Receive);
      && d == s.(streams := s.streams - {Send, Receive}, lock := None)
      && s.holder == Some(CONNECTOR) && Sentry !in d.streams
  {
    var d := Remove(Remove(s, Send), Receive);
    assert d.streams == s.streams - {Send, Receive};
  }

  /** After a disconnect only the connector, and the stop stream, are active. */
  lemma ReconnectKeeps(s: State)
    requires Inv(s) && s.phase == Running && (Send in s.streams || Receive in s.streams)
    ensures Inv(Reconnect(s)) && Reconnect(s).phase == Running
    ensures Reconnect(s).streams.Keys == s.streams.Keys - {Send, Receive} + {Sentry}
  {
    DropKeeps(s);
    var d := Remove(Remove(s, Send), Receive);
    assert Reconnect(s) == d.(holder := None, streams := d.streams[Sentry := CONNECTOR]);
  }

  lemma HandleKeeps(s: State, id: StreamId, outcome: Outcome)
    requires Inv(s) && s.phase == Running && id in s.streams && (outcome.Item? || outcome.Failure?)
    ensures Inv(Handle(s, id, outcome))
  {
    hide Connect, Reconnect;
    match id
    case Sentry => ConnectKeeps(s, outcome.Item? && outcome.subscribed);
    case Send => ReconnectKeeps(s);
    case Receive => ReconnectKeeps(s);
    case Stop =>
  }

  /** Whatever a poll brings, the invariant is kept. */
  lemma NextKeeps(s: State, e: Event)
    requires Inv(s)
    ensures Inv(Next(s, e))
  {
    hide Start, EndStream, Handle;
    if s.phase == Running && e.id in s.streams {
      StartKeeps(s, e.id);
      var s' := Start(s, e.id);
      EndKeeps(s', e.id);
      if e.outcome.Item? || e.outcome.Failure? {
        HandleKeeps(s', e.id, e.outcome);
      }
    }
  }

  lemma {:induction false} RunKeeps(s: State, events: seq<Event>)
    requires Inv(s)
    ensures Inv(Run(s, events))
    decreases |events|
  {
    hide Inv, Next;
    if events != [] {
      NextKeeps(s, events[0]);
      RunKeeps(Next(s, events[0]), events[1..]);
    }
  }

  /** In every reachable state an active connector excludes the other streams and a held
      connector, active streams imply a held connector, and no mistake was ever met. */
  lemma ReachableStatesAreSound(senders: set<nat>, events: seq<Event>)
    ensures var s := Run(Initial(senders), events);
      && s.faults == {}
      && (s.phase == Running ==> Exclusive(s) && ConnectorKept(s) && LockOwned(s))
  {
    hide Initial, Run;
    InitialInv(senders);
    RunKeeps(Initial(senders), events);
  }

  /** The streams that are active after an event, in every reachable state that runs: a stream
      that ended is gone, a new sentry replaces the connector by the send and receive streams, a
      disconnect replaces these by the connector, and nothing else changes them. */
  lemma NextStreams(s: State, e: Event)
    requires Inv(s) && s.phase == Running && e.id in s.streams
    ensures var t := Next(s, e);
            var connected := e.id == Sentry && e.outcome.Item?;
            var dropped := (e.id == Send || e.id == Receive) && e.outcome.Failure? && e.outcome.disconnected;
            t.phase != Died ==>
              t.streams.Keys ==
                if e.outcome == Ended then s.streams.Keys - {e.id}
                else if connected then s.streams.Keys - {Sentry} + {Send, Receive}
                else if dropped then s.streams.Keys - {Send, Receive} + {Sentry}
                else s.streams.Keys
  {
    hide Inv, Connect, Reconnect, Start;
    StartKeeps(s, e.id);
    var s' := Start(s, e.id);
    KindsAreRight(s', e.id);
    if e.id == Sentry && e.outcome.Item? {
      ConnectStreams(s', e.outcome.subscribed);
    }
    if e.id == Send || e.id == Receive {
      ReconnectKeeps(s');
    }
  }

  lemma KindsAreRight(s: State, id: StreamId)
    requires Inv(s) && s.phase == Running && id in s.streams
    ensures s.streams[id].kind == id
  {
  }

  lemma ConnectStreams(s: State, subscribed: bool)
    requires Sentry in s.streams
    ensures subscribed ==>
      Connect(s, subscribed).streams.Keys == s.streams.Keys - {Sentry} + {Send, Receive}
    ensures Connect(s, subscribed).phase == if subscribed then s.phase else Died
    ensures Connect(s, subscribed).senders == if subscribed then s.senders else {}
  {
  }

  /** Polling the send stream gives it the lock on the queue of outgoing messages, and it keeps
      the lock for as long as it is active. */
  lemma SendTakesLock(s: State, e: Event)
    requires Inv(s) && s.phase == Running && Send in s.streams
    ensures var t := Next(s, e);
            t.phase == Running && Send in t.streams && (e.id == Send || s.lock.Some?) ==>
              t.lock == Some(s.streams[Send].serial) && t.streams[Send].serial == s.streams[Send].serial
  {
    NextKeeps(s, e);
  }

  /** How a running loop ends: it stops on the stop signal or when no stream is left, and dies
      when subscribing to a new sentry fails or a message comes for which nobody is registered. */
  lemma NextPhase(s: State, e: Event)
    requires Inv(s) && s.phase == Running && e.id in s.streams
    ensures var t := Next(s, e);
            && (t.phase == Stopped <==>
                  || (e.id == Stop && (e.outcome.Item? || e.outcome.Failure?))
                  || (e.outcome == Ended && s.streams.Keys == {e.id}))
            && (t.phase == Died <==>
                  || (e.id == Sentry && e.outcome.Item? && !e.outcome.subscribed)
                  || (e.id == Receive && e.outcome.Item? && e.outcome.messageId !in s.senders))
  {
    hide Inv, Connect, Reconnect, Start;
    StartKeeps(s, e.id);
    StartKeepsSenders(s, e.id);
    var s' := Start(s, e.id);
    KindsAreRight(s', e.id);
    if e.id == Sentry && e.outcome.Item? {
      ConnectStreams(s', e.outcome.subscribed);
    }
    if e.id == Send || e.id == Receive {
      ReconnectKeeps(s');
    }
    if e.outcome == Ended {
      LastStream(s', e.id);
    }
  }

  lemma StartKeepsSenders(s: State, id: StreamId)
    requires id in s.streams
    ensures Start(s, id).senders == s.senders
  {
  }

  lemma LastStream(s: State, id: StreamId)
    requires id in s.streams
    ensures EndStream(s, id).phase == s.phase
    ensures EndStream(s, id).streams == map[] <==> s.streams.Keys == {id}
  {
    var t := EndStream(s, id);
    assert t.streams.Keys == s.streams.Keys - {id};
    if s.streams.Keys == {id} {
      assert t.streams.Keys == {};
    }
    if t.streams == map[] {
      assert s.streams.Keys - {id} == {};
      assert s.streams.Keys == {id};
    }
  }

  /** The registered receivers are dropped when the receive stream ends or subscribing fails,
      and at no other time. */
  lemma NextSenders(s: State, e: Event)
    requires Inv(s) && s.phase == Running && e.id in s.streams
    ensures Next(s, e).senders ==
      if (e.id == Receive && e.outcome == Ended) || (e.id == Sentry && e.outcome.Item? && !e.outcome.subscribed) then {}
      else s.senders
  {
    hide Inv, Connect, Start;
    StartKeeps(s, e.id);
    StartKeepsSenders(s, e.id);
    var s' := Start(s, e.id);
    KindsAreRight(s', e.id);
    if e.id == Sentry && e.outcome.Item? {
      ConnectStreams(s', e.outcome.subscribed);
    }
  }

  // ----- When it stops reconnecting -----

  /** Connected streams that ended by themselves: the connector is held and nothing will
      bring it back. */
  ghost predicate Stranded(s: State) {
    s.holder.Some? && Sentry !in s.streams && Send !in s.streams && Receive !in s.streams
  }

  /** Once stranded, no events lead to a connection again. */
  lemma {:induction false} StrandedForEver(s: State, events: seq<Event>)
    requires Stranded(s)
    ensures Stranded(Run(s, events))
    decreases |events|
  {
    if events != [] {
      StrandedNext(s, events[0]);
      StrandedForEver(Next(s, events[0]), events[1..]);
    }
  }

  lemma StrandedNext(s: State, e: Event)
    requires Stranded(s)
    ensures Stranded(Next(s, e))
  {
  }

  lemma HandlingNeverStrands(s: State, id: StreamId, outcome: Outcome)
    requires Inv(s) && s.phase == Running && !Stranded(s) && id in s.streams && (outcome.Item? || outcome.Failure?)
    requires Handle(s, id, outcome).phase == Running
    ensures !Stranded(Handle(s, id, outcome))
  {
    hide Connect, Reconnect;
    match id
    case Sentry => Connected(s);
    case Send => ReconnectKeeps(s);
    case Receive => ReconnectKeeps(s);
    case Stop =>
  }

  lemma Connected(s: State)
    requires Sentry in s.streams
    ensures Connect(s, true).phase == s.phase && Send in Connect(s, true).streams
    ensures Connect(s, false).phase == Died
  {
  }

  lemma EndingStrandsIff(s: State, id: StreamId)
    requires Inv(s) && s.phase == Running && !Stranded(s) && id in s.streams
    ensures EndStream(s, id).phase == Running
    ensures Stranded(EndStream(s, id)) <==> (id == Send || id == Receive) && s.streams.Keys - {Stop} == {id}
  {
    var r := EndStream(s, id);
    assert r.streams.Keys == s.streams.Keys - {id} && r.holder == s.holder;
    if s.streams.Keys - {Stop} == {id} {
      forall x | x in s.streams ensures x == id || x == Stop {
        assert x != Stop ==> x in s.streams.Keys - {Stop};
      }
    }
    if Stranded(r) {
      assert s.streams.Keys - {Stop} == {id};
    }
  }

  /** Ending is the only way to be stranded: a disconnect error always brings the connector
      back. */
  lemma StrandedIff(s: State, e: Event)
    requires Inv(s) && s.phase == Running && !Stranded(s) && Next(s, e).phase == Running
    ensures Stranded(Next(s, e)) <==>
      e.outcome == Ended && e.id in s.streams && (e.id == Send || e.id == Receive) && s.streams.Keys - {Stop} == {e.id}
  {
    hide EndStream, Handle, Start, Inv;
    if e.id in s.streams {
      StartKeeps(s, e.id);
      StartKeepsHolder(s, e.id);
      var s' := Start(s, e.id);
      EndingStrandsIff(s', e.id);
      if e.outcome.Item? || e.outcome.Failure? {
        HandlingNeverStrands(s', e.id, e.outcome);
      }
    }
  }

  lemma StartKeepsHolder(s: State, id: StreamId)
    requires id in s.streams
    ensures Start(s, id).holder == s.holder
  {
  }

  /** A run that strands the loop: it connects, and both streams end by themselves. */
  lemma RunThatStrands(senders: set<nat>)
    ensures var events := [Poll(Sentry, Item(true, 0)), Poll(Send, Ended), Poll(Receive, Ended)];
            var s := Run(Initial(senders), events);
            s.phase == Running && Stranded(s)
  {
    hide Next, Stranded, Inv;
    var events := [Poll(Sentry, Item(true, 0)), Poll(Send, Ended), Poll(Receive, Ended)];
    var s0 := Initial(senders);
    InitialInv(senders);
    var s1 := OneEvent(s0, events[0]);
    var s2 := OneEvent(s1, events[1]);
    assert s2.streams.Keys == {Receive, Stop};
    var s3 := OneEvent(s2, events[2]);
    ConnectedIsNotStranded(s2);
    StrandedIff(s2, events[2]);
    assert events[1..] == [events[1], events[2]] && events[1..][1..] == [events[2]] && events[1..][1..][1..] == [];
  }

  lemma OneEvent(s: State, e: Event) returns (t: State)
    requires Inv(s) && s.phase == Running && e.id in s.streams && e.id != Stop
    requires e.outcome == Ended ==> s.streams.Keys != {e.id}
    requires e.outcome.Item? ==> e.id == Sentry && e.outcome.subscribed
    ensures t == Next(s, e) && Inv(t) && t.phase == Running
    ensures e.outcome == Ended ==> t.streams.Keys == s.streams.Keys - {e.id}
    ensures e.outcome.Item? ==> t.streams.Keys == s.streams.Keys - {Sentry} + {Send, Receive}
  {
    hide Next, Inv;
    t := Next(s, e);
    NextKeeps(s, e);
    NextStreams(s, e);
    NextPhase(s, e);
  }

  lemma ConnectedIsNotStranded(s: State)
    requires Receive in s.streams
    ensures !Stranded(s)
  {
  }

  // ----- The loop -----

  class EventLoop {
    var phase: Phase
    var streams: map<StreamId, Stream>
    var holder: Option<Stream>
    var lock: Option<nat>
    var senders: set<nat>
    var made: nat
    var connectorEnded: bool
    var faults: set<Fault>

    ghost function View(): State
      reads this
    {
      State(phase, streams, holder, lock, senders, made, connectorEnded, faults)
    }

    constructor (senders: set<nat>)
      ensures View() == Initial(senders) && Inv(View())
    {
      phase, holder, lock, this.senders, connectorEnded, faults := Running, None, None, senders, false, {};
      streams := map[Sentry := Stream(Sentry, 0, false), Stop := Stream(Stop, 1, false)];
      made := 2;
      new;
      InitialInv(senders);
    }

    method Drop(id: StreamId)
      modifies this
      ensures View() == Remove(old(View()), id)
    {
      if id in streams {
        if lock == Some(streams[id].serial) {
          lock := None;
        }
        streams := streams - {id};
      }
    }

    method Put(id: StreamId, x: Stream)
      modifies this
      ensures View() == Insert(old(View()), id, x)
    {
      Drop(id);
      streams := streams[id := x];
    }

    method FirstPoll(id: StreamId)
      requires id in streams
      modifies this
      ensures View() == Start(old(View()), id)
    {
      var x := streams[id];
      if x.kind == Send && !x.started {
        if lock.Some? {
          faults := faults + {ReceiverLocked};
          streams := streams - {id};
        } else {
          lock := Some(x.serial);
          streams := streams[id := x.(started := true)];
        }
      }
    }

    method End(id: StreamId)
      requires id in streams
      modifies this
      ensures View() == EndStream(old(View()), id)
    {
      var kind := streams[id].kind;
      Drop(id);
      match kind {
        case Sentry => connectorEnded := true;
        case Receive => senders := {};
        case _ =>
      }
    }

    method OnSentry(subscribed: bool)
      requires Sentry in streams
      modifies this
      ensures View() == Connect(old(View()), subscribed)
    {
      var connector := streams[Sentry];
      Drop(Sentry);
      holder := Some(connector);
      if !subscribed {
        phase, senders := Died, {};
        return;
      }
      Put(Send, Stream(Send, made, false));
      Put(Receive, Stream(Receive, made + 1, false));
      made := made + 2;
    }

    method OnDisconnect()
      modifies this
      ensures View() == Reconnect(old(View()))
    {
      Drop(Send);
      Drop(Receive);
      var held := holder;
      holder := None;
      match held {
        case Some(x) => Put(Sentry, x);
        case None => faults := faults + {HolderMissing};
      }
    }

    method OnResult(id: StreamId, outcome: Outcome)
      requires id in streams && (outcome.Item? || outcome.Failure?)
      modifies this
      ensures View() == Handle(old(View()), id, outcome)
    {
      hide Connect, Reconnect;
      if outcome.Item? && id != Stop && streams[id].kind != id {
        phase, faults := Died, faults + {UnexpectedResult};
        return;
      }
      match id {
        case Sentry =>
          if outcome.Item? {
            OnSentry(outcome.subscribed);
          }
        case Send =>
          if outcome.Failure? && outcome.disconnected {
            OnDisconnect();
          }
        case Receive =>
          if outcome.Failure? {
            if outcome.disconnected {
              OnDisconnect();
            }
          } else if outcome.messageId !in senders {
            phase := Died;
          }
        case Stop => phase := Stopped;
      }
    }

    method OnPoll(e: Event)
      modifies this
      ensures View() == Next(old(View()), e)
    {
      hide Start, EndStream, Handle;
      if phase != Running || e.id !in streams {
        return;
      }
      FirstPoll(e.id);
      if e.id !in streams {
        return;
      }
      match e.outcome {
        case Pending =>
        case Ended =>
          End(e.id);
          if streams == map[] {
            phase := Stopped;
          }
        case _ => OnResult(e.id, e.outcome);
      }
    }

    /** Whatever the streams bring, none of the branches treated as mistakes is taken. */
    method RunLoop(events: seq<Event>)
      requires Inv(View())
      modifies this
      ensures View() == Run(old(View()), events) && Inv(View()) && faults == {}
    {
      hide Next;
      var i := 0;
      assert events[0..] == events;
      while i < |events|
        invariant 0 <= i <= |events| && Run(View(), events[i..]) == Run(old(View()), events)
      {
        assert events[i..][0] == events[i] && events[i..][1..] == events[i + 1..];
        OnPoll(events[i]);
        i := i + 1;
      }
      RunKeeps(old(View()), events);
    }
  }
}
