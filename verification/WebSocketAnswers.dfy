/** What the handler answers, told from the moves of a run: every message gets its answer once and in order,
    ids are taken exactly between acceptance and release, and what a task produces is sent in order. */
module WebSocketAnswers {
  import opened Ast
  import opened WebSocket

  /** The state that a sequence of moves leads to, when each is possible. */
  function Play(eager: bool, moves: seq<Move>): Option<State>
    decreases |moves|
  {
    if moves == [] then Some(Start())
    else
      var s :- Play(eager, moves[..|moves| - 1]);
      After(eager, s, moves[|moves| - 1])
  }

  lemma PlayMore(eager: bool, moves: seq<Move>, move: Move)
    ensures var s := Play(eager, moves);
            Play(eager, moves + [move]) == if s.None? then None else After(eager, s.value, move)
  {
    assert (moves + [move])[..|moves|] == moves;
  }

  lemma {:induction false} PlayPrefix(eager: bool, moves: seq<Move>, more: seq<Move>)
    requires Play(eager, moves + more).Some?
    ensures Play(eager, moves).Some?
    decreases |more|
  {
    if more == [] {
      assert moves + more == moves;
    } else {
      assert moves + more == (moves + more[..|more| - 1]) + [more[|more| - 1]];
      PlayMore(eager, moves + more[..|more| - 1], more[|more| - 1]);
      PlayPrefix(eager, moves, more[..|more| - 1]);
    }
  }

  // ----- which ids are taken ----------------------------------------------------------------------

  /** Move `k` has operation `id` accepted. */
  predicate TakesId(eager: bool, moves: seq<Move>, k: nat, id: string) {
    && k < |moves| && moves[k] == Receive(Subscribe(Some(id), true))
    && Play(eager, moves[..k]).Some? && Play(eager, moves[..k + 1]).Some?
    && |Play(eager, moves[..k]).value.tasks| < |Play(eager, moves[..k + 1]).value.tasks|
  }

  /** Move `k` is the client's `complete` of `id`, or the callback of a task of that id. */
  predicate FreesId(eager: bool, moves: seq<Move>, k: nat, id: string) {
    && k < |moves|
    && match moves[k]
       case Receive(m) => m == Stop(Some(id))
       case Callback(t) =>
         var s := Play(eager, moves[..k]);
         s.Some? && t < |s.value.tasks| && s.value.tasks[t].id == id
       case _ => false
  }

  predicate HoldsId(eager: bool, moves: seq<Move>, k: nat, id: string) {
    TakesId(eager, moves, k, id) && forall j | k < j < |moves| :: !FreesId(eager, moves, j, id)
  }

  ghost predicate Taken(eager: bool, moves: seq<Move>, id: string) { exists k: nat :: HoldsId(eager, moves, k, id) }

  lemma Prefixes(eager: bool, front: seq<Move>, move: Move, k: nat, id: string)
    requires k < |front|
    ensures TakesId(eager, front + [move], k, id) <==> TakesId(eager, front, k, id)
    ensures FreesId(eager, front + [move], k, id) <==> FreesId(eager, front, k, id)
  {
    assert (front + [move])[..k] == front[..k] && (front + [move])[..k + 1] == front[..k + 1];
  }

  lemma TakenMore(eager: bool, front: seq<Move>, move: Move, id: string)
    ensures Taken(eager, front + [move], id)
            <==> TakesId(eager, front + [move], |front|, id)
                 || (Taken(eager, front, id) && !FreesId(eager, front + [move], |front|, id))
  {
    var moves := front + [move];
    forall k: nat | k < |front|
      ensures TakesId(eager, moves, k, id) <==> TakesId(eager, front, k, id)
      ensures FreesId(eager, moves, k, id) <==> FreesId(eager, front, k, id)
    {
      Prefixes(eager, front, move, k, id);
    }
    if TakesId(eager, moves, |front|, id) { assert HoldsId(eager, moves, |front|, id); }
    if k: nat :| HoldsId(eager, front, k, id) {
      if !FreesId(eager, moves, |front|, id) { assert HoldsId(eager, moves, k, id); }
    }
    if k: nat :| HoldsId(eager, moves, k, id) && k < |front| { assert HoldsId(eager, front, k, id); }
  }

  lemma TableAfter(eager: bool, s: State, move: Move, s': State, id: string)
    requires After(eager, s, move) == Some(s')
    ensures id in s'.operations
            <==> (move == Receive(Subscribe(Some(id), true)) && |s.tasks| < |s'.tasks|)
                 || (id in s.operations && move != Receive(Stop(Some(id)))
                     && !(move.Callback? && move.task < |s.tasks| && s.tasks[move.task].id == id))
  {
  }

  /** An id is taken exactly from its acceptance to the client's `complete` or the callback of a task of that id. */
  lemma {:induction false} TakenExactly(eager: bool, moves: seq<Move>, id: string)
    requires Play(eager, moves).Some?
    ensures id in Play(eager, moves).value.operations <==> Taken(eager, moves, id)
    decreases |moves|
  {
    if moves != [] {
      var front, move := moves[..|moves| - 1], moves[|moves| - 1];
      assert moves == front + [move] && moves[..|front| + 1] == moves;
      TakenExactly(eager, front, id);
      TakenMore(eager, front, move, id);
      TableAfter(eager, Play(eager, front).value, move, Play(eager, moves).value, id);
    }
  }

  // ----- what the reader says ------------------------------------------------------------------------

  /** The messages received so far. */
  function Inbox(moves: seq<Move>): seq<Incoming>
    decreases |moves|
  {
    if moves == [] then []
    else
      var last := moves[|moves| - 1];
      Inbox(moves[..|moves| - 1]) + if last.Receive? then [last.message] else []
  }

  /** The answer to a message, after those in `before`: acceptance under the next task number, a refusal, an
      acknowledgement, a pong, or the processing of a `complete`. */
  function Answer(before: seq<Incoming>, next: nat, taken: bool, m: Incoming): seq<Event> {
    match m
    case Init => [if Init in before then Refused(None) else Acked]
    case Ping => [Ponged]
    case Unknown => [Refused(None)]
    case Subscribe(id, payloadOk) =>
      if Init in before && payloadOk && id.Some? && id.value != "" && !taken then [Accepted(next, id.value)]
      else [Refused(id)]
    case Stop(id) => if id.Some? then [Stopped(id.value)] else []
    case Pong => []
    case Closed => []
    case Broken => []
  }

  function Acceptances(es: seq<Event>): nat {
    if es == [] then 0 else (if es[|es| - 1].Accepted? then 1 else 0) + Acceptances(es[..|es| - 1])
  }

  /** The answers to all messages received, in order. */
  ghost function Answers(eager: bool, moves: seq<Move>): seq<Event>
    decreases |moves|
  {
    if moves == [] then []
    else
      var front, last := moves[..|moves| - 1], moves[|moves| - 1];
      var sofar := Answers(eager, front);
      sofar +
      if !last.Receive? then []
      else
        var m := last.message;
        Answer(Inbox(front), Acceptances(sofar),
          m.Subscribe? && m.id.Some? && Taken(eager, front, m.id.value), m)
  }

  /** What the log holds apart from what tasks send. */
  function Said(log: seq<Event>): seq<Event> {
    if log == [] then []
    else Said(log[..|log| - 1]) + if log[|log| - 1].FromTask? then [] else [log[|log| - 1]]
  }

  /** The answer the reader is busy with. */
  function Pending(reader: Reader): seq<Event> {
    match reader
    case Replies(e) => [e]
    case Awaits(_, id) => [Stopped(id)]
    case _ => []
  }

  lemma SaidMore(log: seq<Event>, e: Event)
    ensures Said(log + [e]) == Said(log) + if e.FromTask? then [] else [e]
  {
    assert (log + [e])[..|log|] == log;
  }

  /** The state agrees with the answers given so far. */
  ghost predicate Agrees(eager: bool, moves: seq<Move>, s: State) {
    && Said(s.log) + Pending(s.reader) == Answers(eager, moves)
    && s.acknowledged == (Init in Inbox(moves))
    && |s.tasks| == Acceptances(Answers(eager, moves))
    && (s.reader.Replies? ==> !s.reader.reply.FromTask? && !s.reader.reply.Accepted?)
  }

  lemma OneAcceptance(e: Event)
    ensures Acceptances([e]) == if e.Accepted? then 1 else 0
  {
    assert [e][..0] == [];
  }

  lemma SubscriptionAnswer(s: State, id: Option<string>, payloadOk: bool, before: seq<Incoming>)
    requires s.reader.Receives? && s.acknowledged == (Init in before)
    ensures var m := Subscribe(id, payloadOk);
            var s' := Handle(s, m);
            Said(s'.log) + Pending(s'.reader) == Said(s.log) + Answer(before, |s.tasks|, IsTaken(s, m), m)
  {
    if s.acknowledged && payloadOk && id.Some? && id.value != "" && id.value !in s.operations {
      SaidMore(s.log, Accepted(|s.tasks|, id.value));
    }
  }

  lemma StopAnswer(s: State, id: Option<string>)
    requires s.reader.Receives?
    ensures var s' := Handle(s, Stop(id));
            Said(s'.log) + Pending(s'.reader) == Said(s.log) + if id.Some? then [Stopped(id.value)] else []
  {
    if id.Some? { SaidMore(s.log, Stopped(id.value)); }
  }

  /** A message received gets its answer: at once, or as what the reader is busy with. */
  lemma HandledAnswer(s: State, m: Incoming, before: seq<Incoming>)
    requires s.reader.Receives? && s.acknowledged == (Init in before)
    ensures var s' := Handle(s, m);
            Said(s'.log) + Pending(s'.reader) == Said(s.log) + Answer(before, |s.tasks|, IsTaken(s, m), m)
  {
    match m
    case Subscribe(id, payloadOk) => SubscriptionAnswer(s, id, payloadOk, before);
    case Stop(id) => StopAnswer(s, id);
    case _ => assert Handle(s, m).log == s.log;
  }

  predicate IsTaken(s: State, m: Incoming) { m.Subscribe? && m.id.Some? && m.id.value in s.operations }

  lemma HandledRest(s: State, m: Incoming, before: seq<Incoming>)
    requires s.reader.Receives? && s.acknowledged == (Init in before)
    ensures var s' := Handle(s, m);
            && s'.acknowledged == (Init in before + [m])
            && |s'.tasks| == |s.tasks| + Acceptances(Answer(before, |s.tasks|, IsTaken(s, m), m))
            && (s'.reader.Replies? ==> !s'.reader.reply.FromTask? && !s'.reader.reply.Accepted?)
  {
    var answer := Answer(before, |s.tasks|, IsTaken(s, m), m);
    if answer != [] {
      assert answer == [answer[0]];
      OneAcceptance(answer[0]);
    }
  }

  lemma {:induction false} AcceptancesAdd(a: seq<Event>, b: seq<Event>)
    ensures Acceptances(a + b) == Acceptances(a) + Acceptances(b)
    decreases |b|
  {
    if b == [] {
      assert a + b == a;
    } else {
      assert (a + b)[..|a + b| - 1] == a + b[..|b| - 1];
      AcceptancesAdd(a, b[..|b| - 1]);
    }
  }

  lemma ReplySaid(s: State, s': State)
    requires s.reader.Replies? && !s.reader.reply.FromTask?
    requires s'.log == s.log + [s.reader.reply] && s'.reader == Replying
    ensures Said(s'.log) + Pending(s'.reader) == Said(s.log) + Pending(s.reader)
  {
    SaidMore(s.log, s.reader.reply);
  }

  lemma StopSaid(s: State, s': State)
    requires s.reader.Awaits? && s'.log == s.log + [Stopped(s.reader.id)] && s'.reader == Receives
    ensures Said(s'.log) + Pending(s'.reader) == Said(s.log) + Pending(s.reader)
  {
    SaidMore(s.log, Stopped(s.reader.id));
  }

  lemma AcquireSaid(eager: bool, s: State, t: nat, s': State)
    requires After(eager, s, Acquire(t)) == Some(s')
    ensures Said(s'.log) == Said(s.log) && s'.reader == s.reader
  {
    SaidMore(s.log, FromTask(t, s.tasks[t].id, s.tasks[t].phase.kind));
  }

  lemma ResumeSaid(eager: bool, s: State, s': State)
    requires After(eager, s, Resume) == Some(s')
    ensures Said(s'.log) + Pending(s'.reader) == Said(s.log) + Pending(s.reader)
  {
    if s.reader.Awaits? { StopSaid(s, s'); }
  }

  lemma QuietMove(eager: bool, s: State, move: Move, s': State)
    requires After(eager, s, move) == Some(s')
    requires !move.Receive? && !move.SendReply? && !move.Acquire? && !move.Resume?
    ensures s'.log == s.log && Pending(s'.reader) == Pending(s.reader)
  {
  }

  lemma OtherMoves(eager: bool, s: State, move: Move, s': State)
    requires After(eager, s, move) == Some(s') && !move.Receive?
    requires s.reader.Replies? ==> !s.reader.reply.FromTask? && !s.reader.reply.Accepted?
    ensures Said(s'.log) + Pending(s'.reader) == Said(s.log) + Pending(s.reader)
  {
    match move
    case SendReply => ReplySaid(s, s');
    case Acquire(t) => AcquireSaid(eager, s, t, s');
    case Resume => ResumeSaid(eager, s, s');
    case _ => QuietMove(eager, s, move, s');
  }

  lemma OtherRest(eager: bool, s: State, move: Move, s': State)
    requires After(eager, s, move) == Some(s') && !move.Receive?
    ensures s'.acknowledged == s.acknowledged && |s'.tasks| == |s.tasks|
    ensures s'.reader.Replies? ==> s'.reader == s.reader
  {
  }

  lemma Keeps(eager: bool, front: seq<Move>, move: Move, s: State, s': State)
    requires Play(eager, front) == Some(s) && After(eager, s, move) == Some(s') && Agrees(eager, front, s)
    ensures Agrees(eager, front + [move], s')
  {
    var moves := front + [move];
    assert moves[..|moves| - 1] == front;
    if move.Receive? {
      var m, sofar := move.message, Answers(eager, front);
      var answer := Answer(Inbox(front), |s.tasks|, IsTaken(s, m), m);
      if m.Subscribe? && m.id.Some? { TakenExactly(eager, front, m.id.value); }
      HandledAnswer(s, m, Inbox(front));
      HandledRest(s, m, Inbox(front));
      AcceptancesAdd(sofar, answer);
      assert Said(s.log) + [] == Said(s.log);
      assert Answers(eager, moves) == sofar + answer;
    } else {
      OtherMoves(eager, s, move, s');
      OtherRest(eager, s, move, s');
      assert Answers(eager, front) + [] == Answers(eager, front);
      assert Inbox(front) + [] == Inbox(front);
    }
  }

  /** In every run what the reader has said, and is about to say, is the answers to the messages received. */
  lemma {:induction false} EveryMessageAnswered(eager: bool, moves: seq<Move>)
    requires Play(eager, moves).Some?
    ensures var s := Play(eager, moves).value;
            Said(s.log) + Pending(s.reader) == Answers(eager, moves)
    ensures Agrees(eager, moves, Play(eager, moves).value)
    decreases |moves|
  {
    if moves != [] {
      var front, move := moves[..|moves| - 1], moves[|moves| - 1];
      assert moves == front + [move];
      PlayMore(eager, front, move);
      EveryMessageAnswered(eager, front);
      Keeps(eager, front, move, Play(eager, front).value, Play(eager, front + [move]).value);
    }
  }

  // ----- what tasks send --------------------------------------------------------------------------------

  /** What task `t` has produced, in order. */
  function Produced(moves: seq<Move>, t: nat): seq<Kind>
    decreases |moves|
  {
    if moves == [] then []
    else
      var last := moves[|moves| - 1];
      Produced(moves[..|moves| - 1], t) + if last.Produce? && last.task == t then [last.kind] else []
  }

  /** How far sending has come: nothing is lost or reordered but what an interrupted task had still to send, and
      a task that ends without having been cancelled has said how it ended. */
  predicate Sent(task: Task, produced: seq<Kind>, sent: seq<Kind>) {
    match task.phase
    case Wants(kind) => produced == sent + [kind]
    case Computing => produced == sent
    case Sends(kind) => produced == sent && sent != [] && sent[|sent| - 1] == kind
    case _ =>
      && (produced == sent || (produced != [] && produced[..|produced| - 1] == sent))
      && (!task.cancelled ==> produced == sent && sent != [] && !sent[|sent| - 1].NextResult?)
  }

  ghost predicate AllSent(moves: seq<Move>, s: State) {
    && (forall t | 0 <= t < |s.tasks| :: Sent(s.tasks[t], Produced(moves, t), Emissions(s.log, t)))
    && (forall t: nat | |s.tasks| <= t :: Produced(moves, t) == [] && Emissions(s.log, t) == [])
    && (s.reader.Replies? ==> !s.reader.reply.FromTask?)
    && forall id <- s.operations :: s.operations[id] < |s.tasks|
  }

  lemma HandleEmits(s: State, m: Incoming, t: nat)
    requires s.reader.Receives?
    ensures Emissions(Handle(s, m).log, t) == Emissions(s.log, t)
  {
    var log := Handle(s, m).log;
    if log != s.log { EmissionsMore(s.log, log[|s.log|], t); }
  }

  lemma EmissionsAfter(eager: bool, s: State, move: Move, s': State, t: nat)
    requires After(eager, s, move) == Some(s') && (s.reader.Replies? ==> !s.reader.reply.FromTask?)
    ensures Emissions(s'.log, t)
            == Emissions(s.log, t) + if move == Acquire(t) then [s.tasks[t].phase.kind] else []
  {
    match move
    case Receive(m) => HandleEmits(s, m, t);
    case SendReply => EmissionsMore(s.log, s.reader.reply, t);
    case Acquire(u) => EmissionsMore(s.log, FromTask(u, s.tasks[u].id, s.tasks[u].phase.kind), t);
    case Resume => if s.reader.Awaits? { EmissionsMore(s.log, Stopped(s.reader.id), t); }
    case _ => QuietMove(eager, s, move, s');
  }

  lemma TaskAfter(eager: bool, s: State, move: Move, s': State, t: nat, produced: seq<Kind>, sent: seq<Kind>)
    requires After(eager, s, move) == Some(s') && t < |s.tasks| && Sent(s.tasks[t], produced, sent)
    ensures t < |s'.tasks|
    ensures Sent(s'.tasks[t], produced + (if move.Produce? && move.task == t then [move.kind] else []),
              sent + if move == Acquire(t) then [s.tasks[t].phase.kind] else [])
  {
    assert produced + [] == produced && sent + [] == sent;
  }

  lemma NewTask(eager: bool, s: State, move: Move, s': State, t: nat)
    requires After(eager, s, move) == Some(s') && |s.tasks| <= t
    ensures t < |s'.tasks| ==> s'.tasks[t].phase.Computing?
    ensures move != Acquire(t) && !(move.Produce? && move.task == t)
  {
  }

  lemma ProducedMore(front: seq<Move>, move: Move, t: nat)
    ensures Produced(front + [move], t)
            == Produced(front, t) + if move.Produce? && move.task == t then [move.kind] else []
  {
    assert (front + [move])[..|front|] == front;
  }

  lemma TableInRange(eager: bool, s: State, move: Move, s': State)
    requires After(eager, s, move) == Some(s') && forall id <- s.operations :: s.operations[id] < |s.tasks|
    ensures forall id <- s'.operations :: s'.operations[id] < |s'.tasks|
  {
  }

  lemma SentNext(eager: bool, front: seq<Move>, move: Move, s: State, s': State, t: nat)
    requires After(eager, s, move) == Some(s') && AllSent(front, s)
    ensures if t < |s'.tasks| then Sent(s'.tasks[t], Produced(front + [move], t), Emissions(s'.log, t))
            else Produced(front + [move], t) == [] && Emissions(s'.log, t) == []
  {
    ProducedMore(front, move, t);
    EmissionsAfter(eager, s, move, s', t);
    if t < |s.tasks| {
      TaskAfter(eager, s, move, s', t, Produced(front, t), Emissions(s.log, t));
    } else {
      NewTask(eager, s, move, s', t);
    }
  }

  lemma AllSentNext(eager: bool, front: seq<Move>, move: Move, s: State, s': State)
    requires After(eager, s, move) == Some(s') && AllSent(front, s)
    requires s'.reader.Replies? ==> !s'.reader.reply.FromTask?
    ensures AllSent(front + [move], s')
  {
    TableInRange(eager, s, move, s');
    forall t: nat
      ensures if t < |s'.tasks| then Sent(s'.tasks[t], Produced(front + [move], t), Emissions(s'.log, t))
              else Produced(front + [move], t) == [] && Emissions(s'.log, t) == []
    {
      SentNext(eager, front, move, s, s', t);
    }
  }

  lemma RepliesQuietly(eager: bool, s: State, move: Move, s': State)
    requires After(eager, s, move) == Some(s') && (s.reader.Replies? ==> !s.reader.reply.FromTask?)
    ensures s'.reader.Replies? ==> !s'.reader.reply.FromTask?
  {
  }

  /** In every run each task has sent what it produced, in order, up to what it is still waiting to send or was
      interrupted with; one that ended uncancelled has sent its completion or failure. */
  lemma {:induction false} TasksSayAll(eager: bool, moves: seq<Move>)
    requires Play(eager, moves).Some?
    ensures AllSent(moves, Play(eager, moves).value)
    decreases |moves|
  {
    if moves != [] {
      var front, move := moves[..|moves| - 1], moves[|moves| - 1];
      assert moves == front + [move];
      PlayMore(eager, front, move);
      TasksSayAll(eager, front);
      var s, s' := Play(eager, front).value, Play(eager, front + [move]).value;
      RepliesQuietly(eager, s, move, s');
      AllSentNext(eager, front, move, s, s');
    }
  }

  // ----- what is cancelled ------------------------------------------------------------------------------

  lemma CancelledStays(eager: bool, s: State, move: Move, s': State, t: nat)
    requires After(eager, s, move) == Some(s') && t < |s.tasks| && s.tasks[t].cancelled
    ensures t < |s'.tasks| && s'.tasks[t].cancelled && move != Acquire(t)
  {
  }

  lemma {:induction false} CancelledIsSilent(eager: bool, moves: seq<Move>, more: seq<Move>, t: nat)
    requires Play(eager, moves).Some? && Play(eager, moves + more).Some?
    requires t < |Play(eager, moves).value.tasks| && Play(eager, moves).value.tasks[t].cancelled
    ensures var s := Play(eager, moves + more).value;
            && t < |s.tasks| && s.tasks[t].cancelled
            && Emissions(s.log, t) == Emissions(Play(eager, moves).value.log, t)
    decreases |more|
  {
    if more == [] {
      assert moves + more == moves;
    } else {
      var front, move := more[..|more| - 1], more[|more| - 1];
      assert moves + more == (moves + front) + [move];
      PlayMore(eager, moves + front, move);
      CancelledIsSilent(eager, moves, front, t);
      var s, s' := Play(eager, moves + front).value, Play(eager, moves + more).value;
      TasksSayAll(eager, moves + front);
      CancelledStays(eager, s, move, s', t);
      EmissionsAfter(eager, s, move, s', t);
    }
  }

  /** From the moment the client's `complete` of its id is received, or the connection is lost, a task in the table
      sends nothing more. */
  lemma StopSilences(eager: bool, moves: seq<Move>, m: Incoming, more: seq<Move>, id: string)
    requires m == Stop(Some(id)) || m == Closed || m == Broken
    requires Play(eager, moves).Some? && id in Play(eager, moves).value.operations
    requires Play(eager, moves + [Receive(m)] + more).Some?
    ensures var s := Play(eager, moves).value;
            Emissions(Play(eager, moves + [Receive(m)] + more).value.log, s.operations[id])
            == Emissions(s.log, s.operations[id])
  {
    var s := Play(eager, moves).value;
    var t := s.operations[id];
    PlayMore(eager, moves, Receive(m));
    PlayPrefix(eager, moves + [Receive(m)], more);
    TasksSayAll(eager, moves);
    CancelledIsSilent(eager, moves + [Receive(m)], more, t);
    EmissionsAfter(eager, s, Receive(m), Play(eager, moves + [Receive(m)]).value, t);
  }

  // ----- the send lock -----------------------------------------------------------------------------------

  /** Whoever sends holds the lock, and nobody else does. */
  predicate LockHeld(s: State) {
    && (s.reader.Replying? <==> s.lock.ReaderHolds?)
    && (s.lock.TaskHolds? ==> s.lock.task < |s.tasks|)
    && forall t | 0 <= t < |s.tasks| :: s.tasks[t].phase.Sends? <==> s.lock == TaskHolds(t)
  }

  lemma HandleKeepsLock(s: State, m: Incoming)
    requires LockHeld(s) && s.reader.Receives?
    ensures LockHeld(Handle(s, m))
  {
  }

  lemma ReaderKeepsLock(eager: bool, s: State, move: Move)
    requires LockHeld(s) && After(eager, s, move).Some? && (move.SendReply? || move.ReplySent? || move.Resume?)
    ensures LockHeld(After(eager, s, move).value)
  {
  }

  lemma TaskKeepsLock(eager: bool, s: State, move: Move)
    requires LockHeld(s) && After(eager, s, move).Some?
    requires !move.Receive? && !move.SendReply? && !move.ReplySent? && !move.Resume?
    ensures LockHeld(After(eager, s, move).value)
  {
  }

  lemma LockKept(eager: bool, s: State, move: Move)
    requires LockHeld(s) && After(eager, s, move).Some?
    ensures LockHeld(After(eager, s, move).value)
  {
    match move
    case Receive(m) => HandleKeepsLock(s, m);
    case SendReply => ReaderKeepsLock(eager, s, move);
    case ReplySent => ReaderKeepsLock(eager, s, move);
    case Resume => ReaderKeepsLock(eager, s, move);
    case _ => TaskKeepsLock(eager, s, move);
  }

  /** In every run at most one message is being sent at a time. */
  lemma {:induction false} OneSender(eager: bool, moves: seq<Move>)
    requires Play(eager, moves).Some?
    ensures LockHeld(Play(eager, moves).value)
    decreases |moves|
  {
    if moves != [] {
      OneSender(eager, moves[..|moves| - 1]);
      LockKept(eager, Play(eager, moves[..|moves| - 1]).value, moves[|moves| - 1]);
    }
  }
}
