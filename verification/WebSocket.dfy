/** The graphql-transport-ws handler of fastql/integrations/websocket.py as interleaved steps: one reader,
    one task per accepted operation, a send lock, a table of active ids, and the callback by which a
    finished task removes its id from the table. Sends do not fail. */
module WebSocket {
  import opened Ast
  import opened Runs

  // ----- messages and state -----------------------------------------------------------------

  /** What the client sends. `Broken` is a message whose handling raises, or a failing receive. */
  datatype Incoming =
    | Init | Ping | Pong
    | Subscribe(id: Option<string>, payloadOk: bool)
    | Stop(id: Option<string>)
    | Unknown | Closed | Broken

  datatype Kind = NextResult | Completion | Failure

  /** Messages sent, and the two moments the protocol's promises refer to: an operation is accepted, a
      client's `complete` has been processed. */
  datatype Event =
    | Acked | Ponged | Refused(about: Option<string>)
    | FromTask(task: nat, id: string, kind: Kind)
    | Accepted(task: nat, id: string)
    | Stopped(id: string)

  /** A task computes, waits for the send lock, sends, or closes its stream. */
  datatype Phase = Computing | Wants(kind: Kind) | Sends(kind: Kind) | Closing | Done

  datatype Task = Task(id: string, phase: Phase, cancelled: bool, callback: bool) {
    predicate Live() { !phase.Done? }
  }

  /** The reader awaits a message, waits for the lock with a reply, sends it, waits for a cancelled
      task, waits for all tasks while leaving, or has left. */
  datatype Reader = Receives | Replies(reply: Event) | Replying | Awaits(task: nat,
      id: string) | Leaves(tasks: set<nat>) | Left

  datatype Holder = Nobody | ReaderHolds | TaskHolds(task: nat)

  datatype State = State(reader: Reader, acknowledged: bool, operations: map<string, nat>, tasks: seq<Task>,
      lock: Holder, log: seq<Event>)

  function Start(): State { State(Receives, false, map[], [], Nobody, []) }

  // ----- steps ----------------------------------------------------------------------------------

  datatype Move =
    | Receive(message: Incoming) | SendReply | ReplySent | Resume
    | Produce(task: nat, kind: Kind) | Acquire(task: nat) | Release(task: nat)
    | Interrupt(task: nat) | Close(task: nat) | Callback(task: nat)

  function Say(s: State, e: Event): State { s.(log := s.log + [e]) }

  function Reply(s: State, e: Event): State { s.(reader := Replies(e)) }

  function Enter(s: State, t: nat, phase: Phase): State
    requires t < |s.tasks|
  {
    s.(tasks := s.tasks[t := s.tasks[t].(phase := phase)])
  }

  function Cancel(tasks: seq<Task>, ts: set<nat>): seq<Task> {
    seq(|tasks|, i requires 0 <= i < |tasks| => if i in ts then tasks[i].(cancelled := true) else tasks[i])
  }

  /** Leaving the loop: every task in the table is cancelled. */
  function Leave(s: State): State {
    var ts := s.operations.Values;
    s.(reader := Leaves(ts), tasks := Cancel(s.tasks, ts))
  }

  /** One received message, handled up to the first point where the reader has to wait. */
  function Handle(s: State, m: Incoming): State {
    match m
    case Closed => Leave(s)
    case Broken => Leave(s)
    case Init => if s.acknowledged then Reply(s, Refused(None)) else Reply(s.(acknowledged := true), Acked)
    case Ping => Reply(s, Ponged)
    case Pong => s
    case Unknown => Reply(s, Refused(None))
    case Subscribe(id, payloadOk) =>
      if !s.acknowledged || id.None? || id.value == "" || id.value in s.operations || !payloadOk
        then Reply(s, Refused(id))
      else
        var t := |s.tasks|;
        Say(s.(operations := s.operations[id.value := t], tasks := s.tasks + [Task(id.value, Computing, false, false)]),
            Accepted(t, id.value))
    case Stop(id) =>
      if id.None? then s
      else if id.value !in s.operations then Say(s, Stopped(id.value))
      else
        var t := s.operations[id.value];
        s.(operations := s.operations - {id.value}, tasks := Cancel(s.tasks, {t}), reader := Awaits(t, id.value))
  }

  /** The state after a move, when the move is possible. With `eager`, awaiting a task that is already
      done does not let the event loop run the task's callback first. */
  function After(eager: bool, s: State, move: Move): Option<State> {
    match move
    case Receive(m) => if s.reader.Receives? then Some(Handle(s, m)) else None
    case SendReply =>
      if s.reader.Replies? && s.lock.Nobody? then Some(Say(s.(reader := Replying, lock := ReaderHolds), s.reader.reply))
      else None
    case ReplySent => if s.reader.Replying? then Some(s.(reader := Receives, lock := Nobody)) else None
    case Resume =>
      (match s.reader
       case Awaits(t, id) =>
         if t < |s.tasks| && s.tasks[t].phase.Done? && (eager || !s.tasks[t].callback)
         then Some(Say(s.(reader := Receives), Stopped(id))) else None
       case Leaves(ts) => if forall t <- ts :: t < |s.tasks| ==> s.tasks[t].phase.Done? then Some(s.(reader := Left))
           else None
       case _ => None)
    case Produce(t, kind) =>
      if t < |s.tasks| && s.tasks[t].phase.Computing? && !s.tasks[t].cancelled then Some(Enter(s, t, Wants(kind)))
      else None
    case Acquire(t) =>
      if t < |s.tasks| && s.tasks[t].phase.Wants? && !s.tasks[t].cancelled && s.lock.Nobody? then
        Some(Say(Enter(s, t, Sends(s.tasks[t].phase.kind)).(lock := TaskHolds(t)),
            FromTask(t, s.tasks[t].id, s.tasks[t].phase.kind)))
      else None
    case Release(t) =>
      if t < |s.tasks| && s.tasks[t].phase.Sends? && !s.tasks[t].cancelled then
        Some(Enter(s, t, if s.tasks[t].phase.kind.NextResult? then Computing else Closing).(lock := Nobody))
      else None
    case Interrupt(t) =>
      if t < |s.tasks| && s.tasks[t].cancelled && !s.tasks[t].phase.Closing? && !s.tasks[t].phase.Done? then
        Some(Enter(s, t, Closing).(lock := if s.lock == TaskHolds(t) then Nobody else s.lock))
      else None
    case Close(t) =>
      if t < |s.tasks| && s.tasks[t].phase.Closing? then
        Some(s.(tasks := s.tasks[t := s.tasks[t].(phase := Done, callback := true)])) else None
    case Callback(t) =>
      if t < |s.tasks| && s.tasks[t].callback then
        Some(s.(tasks := s.tasks[t := s.tasks[t].(callback := false)], operations := s.operations - {s.tasks[t].id}))
            else None
  }

  ghost predicate Next(eager: bool, s: State, s': State) { exists move :: After(eager, s, move) == Some(s') }

  // ----- the promises -------------------------------------------------------------------------------

  /** At most one live task per id. */
  predicate OnePerId(s: State) {
    forall t, u | 0 <= t < |s.tasks| && 0 <= u < |s.tasks| && s.tasks[t].Live() && s.tasks[u].Live()
      && s.tasks[t].id == s.tasks[u].id :: t == u
  }

  /** What a task sent, in order. */
  function Emissions(log: seq<Event>, t: nat): seq<Kind> {
    if log == [] then []
    else Emissions(log[..|log| - 1], t) + if log[|log| - 1].FromTask? && log[|log| - 1].task == t
      then [log[|log| - 1].kind] else []
  }

  /** Results only. */
  predicate OnlyResults(kinds: seq<Kind>) { forall k <- kinds :: k.NextResult? }

  /** Results, then at most one completion or failure. */
  predicate WellFormed(kinds: seq<Kind>) { OnlyResults(kinds) || (kinds != [] && OnlyResults(kinds[..|kinds| - 1])) }

  /** Nothing an operation sends precedes the acknowledgement. */
  predicate AckFirst(log: seq<Event>) {
    forall i | 0 <= i < |log| && log[i].FromTask? :: Acked in log[..i]
  }

  predicate AcceptedAgain(log: seq<Event>, id: string, from: nat, to: nat)
    requires from <= to <= |log|
  {
    exists k | from <= k < to :: log[k].Accepted? && log[k].id == id
  }

  /** After a processed `complete`, nothing is sent for the id until it is accepted again. */
  predicate QuietWhenStopped(log: seq<Event>) {
    forall i, j | 0 <= i < j < |log| && log[i].Stopped? && log[j].FromTask? && log[j].id == log[i].id ::
      AcceptedAgain(log, log[i].id, i, j)
  }

  predicate NobodyLeft(s: State) { s.reader.Left? ==> forall t | 0 <= t < |s.tasks| :: !s.tasks[t].Live() }

  predicate Safe(s: State) {
    && OnePerId(s) && AckFirst(s.log) && QuietWhenStopped(s.log) && NobodyLeft(s)
    && forall t | 0 <= t < |s.tasks| :: WellFormed(Emissions(s.log, t))
  }

  /** The id is accepted, stopped by the client, and accepted once more. */
  predicate Reused(log: seq<Event>, id: string) {
    exists a, i, j | 0 <= a < i < j < |log| ::
      IsAccepted(log[a], id) && log[i] == Stopped(id) && IsAccepted(log[j], id)
  }

  predicate IsAccepted(e: Event, id: string) { e.Accepted? && e.id == id }

  /** The client reuses no other ids after completing them. */
  ghost predicate ReusesOnly(log: seq<Event>, ids: set<string>) { forall id: string :: Reused(log, id) ==> id in ids }

  // ----- what every step keeps ----------------------------------------------------------------------

  /** A task that is alive or has its callback still to run is in the table, or it is the one the reader has just
      taken out and waits for. */
  predicate Held(s: State, t: nat)
    requires t < |s.tasks|
  {
    var id := s.tasks[t].id;
    match s.reader
    case Leaves(ts) => s.tasks[t].Live() ==> t in ts && s.tasks[t].cancelled
    case Left => !s.tasks[t].Live()
    case Awaits(u, _) => t == u || (id in s.operations && s.operations[id] == t)
    case _ => id in s.operations && s.operations[id] == t
  }

  predicate PhaseFits(phase: Phase, kinds: seq<Kind>) {
    match phase
    case Computing => OnlyResults(kinds)
    case Wants(_) => OnlyResults(kinds)
    case Sends(kind) => if kind.NextResult? then OnlyResults(kinds) else WellFormed(kinds)
    case _ => WellFormed(kinds)
  }

  /** The task was accepted, and its id has not been stopped since. */
  predicate Fresh(log: seq<Event>, t: nat, id: string) {
    exists a | 0 <= a < |log| :: log[a] == Accepted(t, id) && Stopped(id) !in log[a..]
  }

  /** The task was accepted, and its id has been stopped since. */
  predicate StoppedSince(log: seq<Event>, t: nat, id: string) {
    exists a, i | 0 <= a < i < |log| :: log[a] == Accepted(t, id) && log[i] == Stopped(id)
  }

  /** The reader has gone on before the callback of the task it awaited has run; the id is free meanwhile. */
  predicate Overtaken(s: State, t: nat)
    requires t < |s.tasks|
  {
    s.tasks[t].id !in s.operations && StoppedSince(s.log, t, s.tasks[t].id)
  }

  predicate Tracked(eager: bool, s: State, t: nat)
    requires t < |s.tasks|
  {
    && (s.tasks[t].Live() ==> Held(s, t))
    && (s.tasks[t].callback ==> Held(s, t) || (eager && Overtaken(s, t)))
  }

  predicate TaskOk(eager: bool, s: State, t: nat)
    requires t < |s.tasks|
  {
    && (s.tasks[t].callback ==> s.tasks[t].phase.Done?)
    && Accepted(t, s.tasks[t].id) in s.log
    && Tracked(eager, s, t)
    && (s.tasks[t].Live() && !Leaving(s) ==> Fresh(s.log, t, s.tasks[t].id))
    && PhaseFits(s.tasks[t].phase, Emissions(s.log, t))
  }

  predicate Leaving(s: State) { s.reader.Leaves? || s.reader.Left? }

  predicate TableOk(s: State) {
    && (forall id <- s.operations :: s.operations[id] < |s.tasks| && s.tasks[s.operations[id]].id == id)
    && (s.reader.Awaits? ==>
          && s.reader.task < |s.tasks| && s.tasks[s.reader.task].id == s.reader.id
          && s.reader.id !in s.operations)
  }

  predicate LogOk(s: State) {
    && (s.acknowledged ==> Acked in s.log || s.reader == Replies(Acked))
    && (s.tasks != [] ==> Acked in s.log)
    && (s.reader.Replies? ==> !s.reader.reply.FromTask? && !s.reader.reply.Stopped? && !s.reader.reply.Accepted?)
    && AckFirst(s.log)
    && (forall i | 0 <= i < |s.log| && s.log[i].FromTask? :: s.log[i].task < |s.tasks|)
    && (forall e <- s.log | e.Accepted? :: e.id != "")
  }

  predicate Sound(eager: bool, s: State) {
    && TableOk(s) && LogOk(s) && OnePerId(s) && QuietWhenStopped(s.log)
    && forall t | 0 <= t < |s.tasks| :: TaskOk(eager, s, t)
  }

  lemma EmissionsMore(log: seq<Event>, e: Event, t: nat)
    ensures Emissions(log + [e], t) == Emissions(log, t) + if e.FromTask? && e.task == t then [e.kind] else []
  {
    assert (log + [e])[..|log|] == log;
  }

  lemma {:induction false} NoEmissions(log: seq<Event>, t: nat)
    requires forall i | 0 <= i < |log| && log[i].FromTask? :: log[i].task != t
    ensures Emissions(log, t) == []
    decreases |log|
  {
    if log != [] { NoEmissions(log[..|log| - 1], t); }
  }

  lemma FreshMore(log: seq<Event>, e: Event, t: nat, id: string)
    requires Fresh(log, t, id) && e != Stopped(id)
    ensures Fresh(log + [e], t, id)
  {
    var a :| 0 <= a < |log| && log[a] == Accepted(t, id) && Stopped(id) !in log[a..];
    assert (log + [e])[a..] == log[a..] + [e];
    assert (log + [e])[a] == Accepted(t, id);
  }

  /** Logging something a task does not send. */
  lemma LogsQuietly(log: seq<Event>, e: Event)
    requires !e.FromTask?
    ensures AckFirst(log) ==> AckFirst(log + [e])
    ensures QuietWhenStopped(log) ==> QuietWhenStopped(log + [e])
  {
    var more := log + [e];
    if AckFirst(log) {
      forall i | 0 <= i < |more| && more[i].FromTask? ensures Acked in more[..i] { assert more[..i] == log[..i]; }
    }
    if QuietWhenStopped(log) {
      forall i, j | 0 <= i < j < |more| && more[i].Stopped? && more[j].FromTask? && more[j].id == more[i].id
        ensures AcceptedAgain(more, more[i].id, i, j)
      {
        assert AcceptedAgain(log, log[i].id, i, j);
        var k :| i <= k < j && log[k].Accepted? && log[k].id == log[i].id;
        assert more[k] == log[k];
      }
    }
  }

  /** Logging what a fresh task sends. */
  lemma LogsEmission(log: seq<Event>, t: nat, id: string, kind: Kind)
    requires AckFirst(log) && Acked in log && QuietWhenStopped(log) && Fresh(log, t, id)
    ensures AckFirst(log + [FromTask(t, id, kind)]) && QuietWhenStopped(log + [FromTask(t, id, kind)])
  {
    var more := log + [FromTask(t, id, kind)];
    forall i | 0 <= i < |more| && more[i].FromTask? ensures Acked in more[..i] {
      assert more[..i] == log[..i];
      assert log[..|log|] == log;
    }
    var a :| 0 <= a < |log| && log[a] == Accepted(t, id) && Stopped(id) !in log[a..];
    forall i, j | 0 <= i < j < |more| && more[i].Stopped? && more[j].FromTask? && more[j].id == more[i].id
      ensures AcceptedAgain(more, more[i].id, i, j)
    {
      if j < |log| {
        assert AcceptedAgain(log, log[i].id, i, j);
        var k :| i <= k < j && log[k].Accepted? && log[k].id == log[i].id;
        assert more[k] == log[k];
      } else {
        assert forall m | a <= m < |log| :: log[m] == log[a..][m - a] != Stopped(id);
        assert more[a] == Accepted(t, id);
      }
    }
  }

  // ----- the reader's steps ----------------------------------------------------------------------------

  lemma TaskKept(eager: bool, s: State, s': State, t: nat)
    requires t < |s.tasks| && t < |s'.tasks| && TaskOk(eager, s, t)
             && s'.tasks[t].(cancelled := s.tasks[t].cancelled) == s.tasks[t]
    requires s'.log == s.log || (exists e :: s'.log == s.log + [e] && !e.FromTask? && e != Stopped(s.tasks[t].id))
    requires StillTracked(eager, s, s', t)
    requires Leaving(s) ==> Leaving(s')
    ensures TaskOk(eager, s', t)
  {
    if s'.log != s.log {
      var e :| s'.log == s.log + [e] && !e.FromTask? && e != Stopped(s.tasks[t].id);
      EmissionsMore(s.log, e, t);
      assert Emissions(s.log, t) + [] == Emissions(s.log, t);
      if s.tasks[t].Live() && !Leaving(s) { FreshMore(s.log, e, t, s.tasks[t].id); }
      if StoppedSince(s.log, t, s.tasks[t].id) { StoppedSinceMore(s.log, e, t, s.tasks[t].id); }
    }
  }

  predicate StillTracked(eager: bool, s: State, s': State, t: nat)
    requires t < |s.tasks| && t < |s'.tasks|
  {
    && (s.tasks[t].Live() ==> Held(s', t))
    && (s.tasks[t].callback ==> Held(s', t) || (eager && Overtaken(s, t) && s.tasks[t].id !in s'.operations))
  }

  lemma StoppedSinceMore(log: seq<Event>, e: Event, t: nat, id: string)
    requires StoppedSince(log, t, id)
    ensures StoppedSince(log + [e], t, id)
  {
    var a, i :| 0 <= a < i < |log| && log[a] == Accepted(t, id) && log[i] == Stopped(id);
    assert (log + [e])[a] == log[a] && (log + [e])[i] == log[i];
  }

  lemma RepliesSound(eager: bool, s: State, e: Event)
    requires Sound(eager, s) && s.reader.Receives? && !e.FromTask? && !e.Stopped? && !e.Accepted?
    ensures e == Acked ==> Sound(eager, Reply(s.(acknowledged := true), e))
    ensures Sound(eager, Reply(s, e))
  {
    forall t | 0 <= t < |s.tasks| ensures TaskOk(eager, Reply(s, e), t)
      && TaskOk(eager, Reply(s.(acknowledged := true), e), t) {
      TaskKept(eager, s, Reply(s, e), t);
      TaskKept(eager, s, Reply(s.(acknowledged := true), e), t);
    }
  }

  lemma LeaveSound(eager: bool, s: State)
    requires Sound(eager, s) && s.reader.Receives?
    ensures Sound(eager, Leave(s))
  {
    var s' := Leave(s);
    forall t | 0 <= t < |s.tasks| ensures TaskOk(eager, s', t) {
      assert TaskOk(eager, s, t);
      TaskKept(eager, s, s', t);
    }
  }

  lemma SubscribeSound(eager: bool, s: State, id: string)
    requires Sound(eager, s) && s.reader.Receives? && s.acknowledged && id !in s.operations && id != ""
    requires eager ==> !Reused(s.log + [Accepted(|s.tasks|, id)], id)
    ensures Sound(eager, Handle(s, Subscribe(Some(id), true)))
  {
    var n := |s.tasks|;
    var s' := Handle(s, Subscribe(Some(id), true));
    LogsQuietly(s.log, Accepted(n, id));
    forall t | 0 <= t < n ensures TaskOk(eager, s', t) && (s.tasks[t].Live() ==> s.tasks[t].id != id) {
      assert TaskOk(eager, s, t);
      SubscribeKept(eager, s, id, t);
    }
    NewTaskOk(eager, s, id);
    NewIdApart(s, s', Task(id, Computing, false, false));
  }

  lemma NewIdApart(s: State, s': State, task: Task)
    requires OnePerId(s) && s'.tasks == s.tasks + [task]
    requires forall t | 0 <= t < |s.tasks| && s.tasks[t].Live() :: s.tasks[t].id != task.id
    ensures OnePerId(s')
  {
  }

  lemma SubscribeKept(eager: bool, s: State, id: string, t: nat)
    requires s.reader.Receives? && s.acknowledged && id !in s.operations && id != ""
    requires eager ==> !Reused(s.log + [Accepted(|s.tasks|, id)], id)
    requires t < |s.tasks| && TaskOk(eager, s, t)
    ensures TaskOk(eager, Handle(s, Subscribe(Some(id), true)), t) && (s.tasks[t].Live() ==> s.tasks[t].id != id)
  {
    if eager && s.tasks[t].id == id && StoppedSince(s.log, t, id) { AcceptedOnceMore(s.log, t, id, |s.tasks|); }
    TaskKept(eager, s, Handle(s, Subscribe(Some(id), true)), t);
  }

  lemma AcceptedOnceMore(log: seq<Event>, t: nat, id: string, n: nat)
    requires StoppedSince(log, t, id)
    ensures Reused(log + [Accepted(n, id)], id)
  {
    var a, i :| 0 <= a < i < |log| && log[a] == Accepted(t, id) && log[i] == Stopped(id);
    var more := log + [Accepted(n, id)];
    assert more[a] == log[a] && more[i] == log[i] && more[|log|] == Accepted(n, id);
  }

  lemma NewTaskOk(eager: bool, s: State, id: string)
    requires LogOk(s) && s.reader.Receives? && s.acknowledged && id !in s.operations && id != ""
    ensures TaskOk(eager, Handle(s, Subscribe(Some(id), true)), |s.tasks|)
  {
    var n := |s.tasks|;
    var log := Handle(s, Subscribe(Some(id), true)).log;
    NoEmissions(s.log, n);
    EmissionsMore(s.log, Accepted(n, id), n);
    assert log[|s.log|] == Accepted(n, id) && log[|s.log|..] == [Accepted(n, id)];
  }

  lemma StopSound(eager: bool, s: State, id: string)
    requires Sound(eager, s) && s.reader.Receives?
    ensures Sound(eager, Handle(s, Stop(Some(id))))
  {
    var s' := Handle(s, Stop(Some(id)));
    if id !in s.operations { LogsQuietly(s.log, Stopped(id)); }
    forall t | 0 <= t < |s.tasks| ensures TaskOk(eager, s', t) {
      assert TaskOk(eager, s, t);
      if id !in s.operations && s.tasks[t].id == id {
        EmissionsMore(s.log, Stopped(id), t);
        assert Emissions(s.log, t) + [] == Emissions(s.log, t);
        StoppedLater(s.log, t, id, id);
      } else {
        assert id !in s.operations ==> s'.log == s.log + [Stopped(id)];
        TaskKept(eager, s, s', t);
      }
    }
  }

  lemma ReceiveSound(eager: bool, s: State, m: Incoming)
    requires Sound(eager, s) && s.reader.Receives?
    requires eager ==> ReusesOnly(Handle(s, m).log, {""})
    ensures Sound(eager, Handle(s, m))
  {
    match m
    case Closed => LeaveSound(eager, s);
    case Broken => LeaveSound(eager, s);
    case Init => if s.acknowledged { RepliesSound(eager, s, Refused(None)); } else { RepliesSound(eager, s, Acked); }
    case Ping => RepliesSound(eager, s, Ponged);
    case Pong =>
    case Unknown => RepliesSound(eager, s, Refused(None));
    case Subscribe(id, payloadOk) =>
      if !s.acknowledged || id.None? || id.value == "" || id.value in s.operations || !payloadOk {
        RepliesSound(eager, s, Refused(id));
      } else {
        SubscribeSound(eager, s, id.value);
      }
    case Stop(id) => if id.Some? { StopSound(eager, s, id.value); }
  }

  lemma SendReplySound(eager: bool, s: State)
    requires Sound(eager, s) && s.reader.Replies?
    ensures Sound(eager, Say(s.(reader := Replying, lock := ReaderHolds), s.reader.reply))
  {
    var s' := Say(s.(reader := Replying, lock := ReaderHolds), s.reader.reply);
    LogsQuietly(s.log, s.reader.reply);
    forall t | 0 <= t < |s.tasks| ensures TaskOk(eager, s', t) { TaskKept(eager, s, s', t); }
  }

  lemma ResumeSound(eager: bool, s: State, t: nat, id: string)
    requires Sound(eager, s) && s.reader == Awaits(t, id) && s.tasks[t].phase.Done? && (eager || !s.tasks[t].callback)
    ensures Sound(eager, Say(s.(reader := Receives), Stopped(id)))
  {
    var s' := Say(s.(reader := Receives), Stopped(id));
    LogsQuietly(s.log, Stopped(id));
    forall u | 0 <= u < |s.tasks| ensures TaskOk(eager, s', u) {
      assert TaskOk(eager, s, u);
      StoppedLater(s.log, u, s.tasks[u].id, id);
      EmissionsMore(s.log, Stopped(id), u);
      assert Emissions(s.log, u) + [] == Emissions(s.log, u);
      if s.tasks[u].Live() { FreshMore(s.log, Stopped(id), u, s.tasks[u].id); }
    }
  }

  lemma StoppedLater(log: seq<Event>, t: nat, id: string, stopped: string)
    requires Accepted(t, id) in log
    ensures Accepted(t, id) in log + [Stopped(stopped)]
    ensures id == stopped || StoppedSince(log, t, id) ==> StoppedSince(log + [Stopped(stopped)], t, id)
  {
    var more := log + [Stopped(stopped)];
    if id == stopped {
      var a :| 0 <= a < |log| && log[a] == Accepted(t, id);
      assert more[a] == log[a] && more[|log|] == Stopped(id);
    } else if StoppedSince(log, t, id) {
      var a, i :| 0 <= a < i < |log| && log[a] == Accepted(t, id) && log[i] == Stopped(id);
      assert more[a] == log[a] && more[i] == log[i];
    }
  }

  // ----- the tasks' steps ---------------------------------------------------------------------------------

  /** A task changes phase without sending anything. */
  lemma PhaseSound(eager: bool, s: State, t: nat, phase: Phase, lock: Holder)
    requires Sound(eager, s) && t < |s.tasks| && s.tasks[t].Live() && !phase.Done?
    requires PhaseFits(phase, Emissions(s.log, t))
    ensures Sound(eager, Enter(s, t, phase).(lock := lock))
  {
    var s' := Enter(s, t, phase).(lock := lock);
    assert TaskOk(eager, s, t);
    forall u | 0 <= u < |s.tasks| ensures TaskOk(eager, s', u) {
      if u != t { TaskKept(eager, s, s', u); }
    }
    LiveKept(s, s');
  }

  /** The task has got the lock and sends. */
  function Acquired(s: State, t: nat): State
    requires t < |s.tasks| && s.tasks[t].phase.Wants?
  {
    var kind := s.tasks[t].phase.kind;
    Say(Enter(s, t, Sends(kind)).(lock := TaskHolds(t)), FromTask(t, s.tasks[t].id, kind))
  }

  lemma AcquireKept(eager: bool, s: State, t: nat, u: nat)
    requires t < |s.tasks| && s.tasks[t].phase.Wants? && !Leaving(s)
    requires u < |s.tasks| && TaskOk(eager, s, u)
    ensures TaskOk(eager, Acquired(s, t), u)
  {
    var e := FromTask(t, s.tasks[t].id, s.tasks[t].phase.kind);
    EmissionsMore(s.log, e, u);
    if s.tasks[u].Live() { FreshMore(s.log, e, u, s.tasks[u].id); }
    if StoppedSince(s.log, u, s.tasks[u].id) { StoppedSinceMore(s.log, e, u, s.tasks[u].id); }
    var kinds := Emissions(s.log, u);
    assert kinds + [] == kinds && (kinds + [e.kind])[..|kinds|] == kinds;
  }

  lemma AcquireSound(eager: bool, s: State, t: nat)
    requires Sound(eager, s) && t < |s.tasks| && s.tasks[t].phase.Wants? && !Leaving(s)
    ensures Sound(eager, Acquired(s, t))
  {
    assert TaskOk(eager, s, t);
    LogsEmission(s.log, t, s.tasks[t].id, s.tasks[t].phase.kind);
    forall u | 0 <= u < |s.tasks| ensures TaskOk(eager, Acquired(s, t), u) { AcquireKept(eager, s, t, u); }
    LiveKept(s, Acquired(s, t));
  }

  /** Ids stay apart when no task comes to life and none changes its id. */
  lemma LiveKept(s: State, s': State)
    requires OnePerId(s) && |s.tasks| == |s'.tasks|
    requires forall t | 0 <= t < |s.tasks| ::
               s'.tasks[t].id == s.tasks[t].id
               && (s'.tasks[t].Live() ==> s.tasks[t].Live())
    ensures OnePerId(s')
  {
  }

  lemma InterruptSound(eager: bool, s: State, t: nat)
    requires Sound(eager, s) && t < |s.tasks| && s.tasks[t].Live()
    ensures Sound(eager, Enter(s, t, Closing).(lock := if s.lock == TaskHolds(t) then Nobody else s.lock))
  {
    assert TaskOk(eager, s, t);
    PhaseSound(eager, s, t, Closing, if s.lock == TaskHolds(t) then Nobody else s.lock);
  }

  lemma CloseSound(eager: bool, s: State, t: nat)
    requires Sound(eager, s) && t < |s.tasks| && s.tasks[t].phase.Closing?
    ensures Sound(eager, s.(tasks := s.tasks[t := s.tasks[t].(phase := Done, callback := true)]))
  {
    var s' := s.(tasks := s.tasks[t := s.tasks[t].(phase := Done, callback := true)]);
    assert TaskOk(eager, s, t);
    forall u | 0 <= u < |s.tasks| ensures TaskOk(eager, s', u) {
      if u != t { TaskKept(eager, s, s', u); }
    }
  }

  /** A task that has ended runs its callback: the entry it removes is its own, if any. */
  lemma CallbackSound(eager: bool, s: State, t: nat)
    requires Sound(eager, s) && t < |s.tasks| && s.tasks[t].callback
    ensures Sound(eager, s.(tasks := s.tasks[t := s.tasks[t].(callback := false)],
              operations := s.operations - {s.tasks[t].id}))
  {
    var s' := s.(tasks := s.tasks[t := s.tasks[t].(callback := false)], operations := s.operations - {s.tasks[t].id});
    assert TaskOk(eager, s, t);
    forall u | 0 <= u < |s.tasks| ensures TaskOk(eager, s', u) {
      assert TaskOk(eager, s, u);
      if u != t { TaskKept(eager, s, s', u); }
    }
  }

  lemma LeavesSound(eager: bool, s: State)
    requires Sound(eager, s) && s.reader.Leaves? && forall t <- s.reader.tasks :: t < |s.tasks| ==>
               s.tasks[t].phase.Done?
    ensures Sound(eager, s.(reader := Left))
  {
    var s' := s.(reader := Left);
    forall t | 0 <= t < |s.tasks| ensures TaskOk(eager, s', t) {
      assert TaskOk(eager, s, t);
      TaskKept(eager, s, s', t);
    }
  }

  lemma StepSound(eager: bool, s: State, move: Move)
    requires Sound(eager, s) && After(eager, s, move).Some?
    requires eager ==> ReusesOnly(After(eager, s, move).value.log, {""})
    ensures Sound(eager, After(eager, s, move).value)
  {
    match move
    case Receive(m) => ReceiveSound(eager, s, m);
    case SendReply => SendReplySound(eager, s);
    case ReplySent =>
      forall t | 0 <= t < |s.tasks| ensures TaskOk(eager, s.(reader := Receives, lock := Nobody), t) {
        TaskKept(eager, s, s.(reader := Receives, lock := Nobody), t);
      }
    case Resume =>
      if s.reader.Awaits? {
        ResumeSound(eager, s, s.reader.task, s.reader.id);
      } else {
        LeavesSound(eager, s);
      }
    case Produce(t, kind) =>
      assert TaskOk(eager, s, t);
      PhaseSound(eager, s, t, Wants(kind), s.lock);
    case Acquire(t) =>
      assert TaskOk(eager, s, t);
      AcquireSound(eager, s, t);
    case Release(t) =>
      assert TaskOk(eager, s, t);
      PhaseSound(eager, s, t, if s.tasks[t].phase.kind.NextResult? then Computing else Closing, Nobody);
    case Interrupt(t) => InterruptSound(eager, s, t);
    case Close(t) => CloseSound(eager, s, t);
    case Callback(t) => CallbackSound(eager, s, t);
  }

  lemma SoundIsSafe(eager: bool, s: State)
    requires Sound(eager, s)
    ensures Safe(s)
  {
    forall t | 0 <= t < |s.tasks| ensures WellFormed(Emissions(s.log, t)) && (s.reader.Left? ==> !s.tasks[t].Live()) {
      assert TaskOk(eager, s, t);
    }
  }

  /** `s` comes up after the given number of steps of some interleaving. */
  ghost predicate Reachable(eager: bool, s: State, steps: nat) { Run((a, b) => Next(eager, a, b), Start(), s, steps) }

  lemma LogGrows(eager: bool, s: State, move: Move, ids: set<string>)
    requires After(eager, s, move).Some? && ReusesOnly(After(eager, s, move).value.log, ids)
    ensures ReusesOnly(s.log, ids)
  {
    var more := After(eager, s, move).value.log;
    assert s.log <= more;
    forall id: string | Reused(s.log, id) ensures Reused(more, id) {
      var a, i, j :| 0 <= a < i < j < |s.log| && IsAccepted(s.log[a], id) && s.log[i] == Stopped(id)
          && IsAccepted(s.log[j], id);
      assert more[a] == s.log[a] && more[i] == s.log[i] && more[j] == s.log[j];
    }
  }

  lemma RunsAreSound(eager: bool, s: State, steps: nat)
    requires Reachable(eager, s, steps) && (eager ==> ReusesOnly(s.log, {""}))
    ensures Sound(eager, s)
  {
    var next := (a, b) => Next(eager, a, b);
    var keeps := (a: State) => (eager ==> ReusesOnly(a.log, {""})) ==> Sound(eager, a);
    forall a, b | keeps(a) && next(a, b) ensures keeps(b) {
      var move :| After(eager, a, move) == Some(b);
      if eager ==> ReusesOnly(b.log, {""}) {
        if eager { LogGrows(eager, a, move, {""}); }
        StepSound(eager, a, move);
      }
    }
    RunKeeps(next, keeps, Start(), s, steps);
  }

  /** In every interleaving, when the event loop runs a finished task's callback before the reader that
      awaits the task goes on: at most one live task per id; per accepted operation results and then at
      most one completion or failure; nothing of it before the acknowledgement, nor after a processed
      `complete` until the id is accepted again; and no task outlives the handler. */
  lemma RunsAreSafe(s: State, steps: nat)
    requires Reachable(false, s, steps)
    ensures Safe(s)
  {
    RunsAreSound(false, s, steps);
    SoundIsSafe(false, s);
  }

  /** And on any event loop the promises hold in every run in which the client, once it has completed an
      operation, does not have its id accepted again. */
  lemma FreshIdsAreSafe(eager: bool, s: State, steps: nat)
    requires Reachable(eager, s, steps) && ReusesOnly(s.log, {})
    ensures Safe(s)
  {
    RunsAreSound(eager, s, steps);
    SoundIsSafe(eager, s);
  }

  // ----- when the awaiting reader does not let the callback run first --------------------------------

  lemma Take(s: State, steps: nat, move: Move) returns (s': State)
    requires Reachable(true, s, steps) && After(true, s, move).Some?
    ensures Reachable(true, s', steps + 1) && After(true, s, move) == Some(s')
  {
    s' := After(true, s, move).value;
    RunLonger((a, b) => Next(true, a, b), Start(), s, s', steps);
  }

  /** The state, but for its log, where only `id` has been accepted. */
  predicate Stands(id: string, s: State, operations: map<string, nat>, tasks: seq<Task>) {
    && s.reader == Receives && s.acknowledged && s.operations == operations && s.tasks == tasks && s.lock == Nobody
    && OnlyFor(id, s.log)
  }

  predicate OnlyFor(id: string, log: seq<Event>) { forall e <- log | e.Accepted? :: e.id == id }

  /** The connection is acknowledged. */
  lemma Acknowledged(id: string) returns (s: State)
    ensures Reachable(true, s, 3) && Stands(id, s, map[], [])
  {
    s := Start();
    s := Take(s, 0, Receive(Init));
    s := Take(s, 1, SendReply);
    s := Take(s, 2, ReplySent);
  }

  /** An operation is accepted. */
  lemma Accepts(id: string, s: State)
    requires Stands(id, s, map[], []) && id != ""
    ensures var s' := After(true, s, Receive(Subscribe(Some(id), true)));
            s'.Some? && Stands(id, s'.value, map[id := 0], [Task(id, Computing, false, false)])
  {
    assert [] + [Task(id, Computing, false, false)] == [Task(id, Computing, false, false)];
  }

  /** It has its completion to send, sends it, and its task ends, the callback still to come. */
  lemma Ends(id: string, s: State)
    requires Stands(id, s, map[id := 0], [Task(id, Computing, false, false)])
    ensures var s1 := After(true, s, Produce(0, Completion));
            s1.Some? && Stands(id, s1.value, map[id := 0], [Task(id, Wants(Completion), false, false)])
  {
  }

  lemma Sent(id: string, s: State)
    requires Stands(id, s, map[id := 0], [Task(id, Wants(Completion), false, false)])
    ensures var s1 := After(true, s, Acquire(0));
            && s1.Some? && s1.value.tasks == [Task(id, Sends(Completion), false, false)]
            && var s2 := After(true, s1.value, Release(0));
               s2.Some? && Stands(id, s2.value, map[id := 0], [Task(id, Closing, false, false)])
  {
  }

  lemma Closes(id: string, s: State)
    requires Stands(id, s, map[id := 0], [Task(id, Closing, false, false)])
    ensures var s' := After(true, s, Close(0));
            s'.Some? && Stands(id, s'.value, map[id := 0], [Task(id, Done, false, true)])
  {
  }

  /** The client completes the operation; its task is done, so the reader goes on. */
  lemma Stops(id: string, s: State)
    requires Stands(id, s, map[id := 0], [Task(id, Done, false, true)])
    ensures var s1 := After(true, s, Receive(Stop(Some(id))));
            && s1.Some? && s1.value.reader == Awaits(0, id)
            && var s2 := After(true, s1.value, Resume);
               s2.Some? && Stands(id, s2.value, map[], [Task(id, Done, true, true)])
  {
    var s1 := After(true, s, Receive(Stop(Some(id)))).value;
    assert s1.operations == map[] && s1.tasks == [Task(id, Done, true, true)];
  }

  /** The client subscribes again under the same id. */
  lemma AcceptsAgain(id: string, s: State)
    requires Stands(id, s, map[], [Task(id, Done, true, true)]) && id != ""
    ensures var s' := After(true, s, Receive(Subscribe(Some(id), true)));
            s'.Some? && Stands(id, s'.value, map[id := 1],
                [Task(id, Done, true, true), Task(id, Computing, false, false)])
  {
  }

  /** The first task's callback takes the second task out of the table. */
  lemma TakesWrongEntry(id: string, s: State)
    requires Stands(id, s, map[id := 1], [Task(id, Done, true, true), Task(id, Computing, false, false)])
    ensures var s' := After(true, s, Callback(0));
            s'.Some? && Stands(id, s'.value, map[], [Task(id, Done, true, false), Task(id, Computing, false, false)])
  {
    assert s.operations - {id} == map[];
  }

  /** Leaving does not find it. */
  lemma LeavesOneBehind(id: string, s: State)
    requires Stands(id, s, map[], [Task(id, Done, true, false), Task(id, Computing, false, false)])
    ensures var s1 := After(true, s, Receive(Closed));
            && s1.Some? && s1.value.reader == Leaves({}) && |s1.value.tasks| == 2 && s1.value.tasks[1].Live()
            && var s2 := After(true, s1.value, Resume);
               s2.Some? && s2.value.reader.Left? && |s2.value.tasks| == 2 && s2.value.tasks[1].Live()
                   && OnlyFor(id, s2.value.log)
  {
    assert s.operations.Values == {};
  }

  lemma OperationOutlivesHandler(id: string) returns (s: State)
    requires id != ""
    ensures Reachable(true, s, 14) && s.reader.Left? && |s.tasks| == 2 && s.tasks[1].Live() && OnlyFor(id, s.log)
  {
    s := Acknowledged(id);
    Accepts(id, s);
    s := Take(s, 3, Receive(Subscribe(Some(id), true)));
    Ends(id, s);
    s := Take(s, 4, Produce(0, Completion));
    Sent(id, s);
    s := Take(s, 5, Acquire(0));
    s := Take(s, 6, Release(0));
    Closes(id, s);
    s := Take(s, 7, Close(0));
    s := SecondHalf(id, s);
  }

  lemma SecondHalf(id: string, before: State) returns (s: State)
    requires id != "" && Reachable(true, before, 8) && Stands(id, before, map[id := 0], [Task(id, Done, false, true)])
    ensures Reachable(true, s, 14) && s.reader.Left? && |s.tasks| == 2 && s.tasks[1].Live() && OnlyFor(id, s.log)
  {
    s := before;
    Stops(id, s);
    s := Take(s, 8, Receive(Stop(Some(id))));
    s := Take(s, 9, Resume);
    AcceptsAgain(id, s);
    s := Take(s, 10, Receive(Subscribe(Some(id), true)));
    TakesWrongEntry(id, s);
    s := Take(s, 11, Callback(0));
    LeavesOneBehind(id, s);
    s := Take(s, 12, Receive(Closed));
    s := Take(s, 13, Resume);
  }

  /** For every event loop and every set of ids a client may have accepted again after it has completed them:
      the promises hold in all its runs exactly when the loop runs a finished task's callback before the
      reader that awaits the task, or no id of the set can be subscribed at all. */
  lemma SafeExactly(eager: bool, ids: set<string>)
    ensures (forall s, steps | Reachable(eager, s, steps) && ReusesOnly(s.log, ids) :: Safe(s))
            <==> !eager || forall id <- ids :: id == ""
  {
    if eager && exists id <- ids :: id != "" {
      var id :| id in ids && id != "";
      var s := OperationOutlivesHandler(id);
      OnlyReusesIt(id, s.log);
    } else {
      forall s, steps | Reachable(eager, s, steps) && ReusesOnly(s.log, ids) ensures Safe(s) {
        RunsAreSound(eager, s, steps);
        SoundIsSafe(eager, s);
      }
    }
  }

  lemma OnlyReusesIt(id: string, log: seq<Event>)
    requires OnlyFor(id, log)
    ensures forall other: string :: Reused(log, other) ==> other == id
  {
  }

  /** In particular, over all clients: exactly when the callback of a finished task runs before the reader
      that awaits it. */
  lemma SafeExactlyWithoutOvertaking(eager: bool)
    ensures (forall s, steps | Reachable(eager, s, steps) :: Safe(s)) <==> !eager
  {
    if eager {
      var s := OperationOutlivesHandler("a");
    } else {
      forall s, steps | Reachable(eager, s, steps) ensures Safe(s) { RunsAreSafe(s, steps); }
    }
  }
}
