/** Sockets over their lives: each is added once under its own ID, and closed only after that. What
    this discipline guarantees, and short runs that show what goes wrong without further care. */
module RegistryLifecycle {
  import opened Registry
  import opened RegistryLaws

  predicate IsAddOf(op: Op, socket: Socket) { op.AddClient? && op.socket == socket }

  predicate IsCloseOf(op: Op, socket: Socket) { op.SetNotAvailable? && op.closing == socket }

  /** The add of a socket has got the flag. */
  ghost predicate Added(ops: seq<Op>, id: ClientId, socket: Socket) {
    exists k: nat :: k < |ops| && ops[k] == AddClient(id, socket)
  }

  /** No add of this socket has been called. */
  predicate Fresh(s: State, socket: Socket) {
    && (forall k | 0 <= k < |s.acquired| :: !IsAddOf(s.acquired[k], socket))
    && (forall i | 0 <= i < |s.threads| :: s.threads[i].Spinning? ==> !IsAddOf(s.threads[i].op, socket))
  }

  /** How the listeners call the registry: a socket is added when it is created, which happens once,
      and closed, possibly twice, only when its add has returned. */
  ghost predicate Disciplined(s: State, e: Event) {
    e.Call? ==>
      match e.op
      case AddClient(_, socket) => Fresh(s, socket)
      case SetNotAvailable(id, socket) =>
        exists k: nat, j: nat :: k < |s.acquired| && s.acquired[k] == AddClient(id, socket) && Written(s, k, j)
      case RemoveClient(_) => true
  }

  ghost predicate DisciplinedRun(server: string, s: State, es: seq<Event>)
    decreases |es|
  {
    es == [] || (Disciplined(s, es[0]) && DisciplinedRun(server, Apply(server, s, es[0]), es[1..]))
  }

  /** An operation sequence in which no socket is added twice and every close follows its add. */
  ghost predicate OrderlyOps(ops: seq<Op>) {
    && (forall j, k, socket | 0 <= j < |ops| && 0 <= k < |ops| ::
          IsAddOf(ops[j], socket) && IsAddOf(ops[k], socket) ==> j == k)
    && (forall j | 0 <= j < |ops| && ops[j].SetNotAvailable? :: Added(ops[..j], ops[j].id, ops[j].closing))
  }

  ghost predicate Orderly(s: State) {
    && OrderlyOps(s.acquired)
    && (forall i | 0 <= i < |s.threads| && s.threads[i].Spinning? ::
          match s.threads[i].op
          case AddClient(_, socket) => forall k | 0 <= k < |s.acquired| :: !IsAddOf(s.acquired[k], socket)
          case SetNotAvailable(id, socket) => Added(s.acquired, id, socket)
          case RemoveClient(_) => true)
    && (forall i, j, socket | 0 <= i < |s.threads| && 0 <= j < |s.threads| ::
          s.threads[i].Spinning? && s.threads[j].Spinning? ==>
          IsAddOf(s.threads[i].op, socket) && IsAddOf(s.threads[j].op, socket) ==> i == j)
  }

  lemma OrderlyKept(server: string, s: State, e: Event)
    requires Orderly(s) && Disciplined(s, e)
    ensures Orderly(Apply(server, s, e))
  {
    var t := e.thread;
    if Apply(server, s, e) == s {
    } else if e.Call? {
      OrderlyCall(s, t, e.op);
    } else if s.threads[t].Spinning? {
      OrderlyFlag(s, t);
    } else {
      OrderlySame(s, Apply(server, s, e));
    }
  }

  lemma OrderlySame(s: State, s': State)
    requires Orderly(s) && s'.acquired == s.acquired && |s'.threads| == |s.threads|
    requires forall i | 0 <= i < |s.threads| && s'.threads[i].Spinning? :: s'.threads[i] == s.threads[i]
    ensures Orderly(s')
  {
  }

  lemma OrderlyCall(s: State, t: nat, op: Op)
    requires Orderly(s) && t < |s.threads| && s.threads[t].Idle? && Disciplined(s, Call(t, op))
    ensures Orderly(s.(threads := s.threads[t := Spinning(op)]))
  {
  }

  lemma OrderlyFlag(s: State, t: nat)
    requires Orderly(s) && t < |s.threads| && s.threads[t].Spinning?
    ensures Orderly(s.(locked := true, acquired := s.acquired + [s.threads[t].op],
                       threads := s.threads[t := Updating(s.threads[t].op, |s.acquired|)]))
  {
    var op := s.threads[t].op;
    OrderlyAcquire(s, op);
    forall id, socket | Added(s.acquired, id, socket) ensures Added(s.acquired + [op], id, socket) {
      var k: nat :| k < |s.acquired| && s.acquired[k] == AddClient(id, socket);
      assert (s.acquired + [op])[k] == AddClient(id, socket);
    }
  }

  lemma OrderlyAcquire(s: State, op: Op)
    requires OrderlyOps(s.acquired)
    requires op.AddClient? ==> forall k | 0 <= k < |s.acquired| :: !IsAddOf(s.acquired[k], op.socket)
    requires op.SetNotAvailable? ==> Added(s.acquired, op.id, op.closing)
    ensures OrderlyOps(s.acquired + [op])
  {
    var ops := s.acquired + [op];
    forall j | 0 <= j < |ops| && ops[j].SetNotAvailable? ensures Added(ops[..j], ops[j].id, ops[j].closing) {
      assert ops[..j] == s.acquired[..j];
      assert s.acquired[..|s.acquired|] == s.acquired;
    }
  }

  /** Behind its close an orderly socket is gone from the replayed map, and every entry maps an ID to
      a socket that was added under it. */
  lemma {:induction false} OrderlyReplay(ops: seq<Op>, id: ClientId)
    requires OrderlyOps(ops) && id in Replay(ops)
    ensures Added(ops, id, Replay(ops)[id])
    ensures forall j | 0 <= j < |ops| :: !IsCloseOf(ops[j], Replay(ops)[id])
  {
    var front, last := ops[..|ops| - 1], ops[|ops| - 1];
    assert forall j | 0 <= j < |front| :: ops[..j] == front[..j];
    var socket := Replay(ops)[id];
    if last.AddClient? && last.id == id {
      assert ops[|ops| - 1] == AddClient(id, socket);
      forall j | 0 <= j < |ops| ensures !IsCloseOf(ops[j], socket) {
        CloseBehindAdd(ops, |ops| - 1, j);
      }
    } else {
      OrderlyReplay(front, id);
      var k: nat :| k < |front| && front[k] == AddClient(id, socket);
      assert ops[k] == AddClient(id, socket);
      CloseBehindAdd(ops, k, |ops| - 1);
    }
  }

  /** In an orderly sequence the close of a socket comes after its one add, and names the same ID. */
  lemma CloseBehindAdd(ops: seq<Op>, k: nat, j: nat)
    requires OrderlyOps(ops) && k < |ops| && j < |ops| && ops[k].AddClient?
    ensures IsCloseOf(ops[j], ops[k].socket) ==> k < j && ops[j].id == ops[k].id
  {
    if IsCloseOf(ops[j], ops[k].socket) {
      var i: nat :| i < j && ops[..j][i] == AddClient(ops[j].id, ops[k].socket);
      assert IsAddOf(ops[i], ops[k].socket) && IsAddOf(ops[k], ops[k].socket);
    }
  }

  lemma {:induction false} RunKeepsOrderly(server: string, s: State, es: seq<Event>)
    requires Orderly(s) && DisciplinedRun(server, s, es)
    ensures Orderly(Run(server, s, es))
    decreases |es|
  {
    if es != [] {
      OrderlyKept(server, s, es[0]);
      RunKeepsOrderly(server, Apply(server, s, es[0]), es[1..]);
    }
  }

  /** The operation that got the flag as number `k` has updated the map. */
  predicate Passed(s: State, k: nat) {
    k < |s.acquired| && forall i | 0 <= i < |s.threads| && s.threads[i].Updating? :: s.threads[i].ticket != k
  }

  /** No stale sockets: in every interleaving, with any number of sockets for an ID, the map never
      holds a socket whose close has passed its erase step, and every entry maps an ID to a socket
      that was added under this ID. */
  lemma NoStaleSockets(server: string, threads: nat, rows: Table, es: seq<Event>, id: ClientId)
    requires DisciplinedRun(server, Start(threads, rows), es)
    ensures var s := Run(server, Start(threads, rows), es);
            id in s.clients ==>
              && Added(s.acquired, id, s.clients[id])
              && forall k: nat | Passed(s, k) :: !IsCloseOf(s.acquired[k], s.clients[id])
  {
    var s := Run(server, Start(threads, rows), es);
    Linearizable(server, threads, rows, es);
    RunKeepsOrderly(server, Start(threads, rows), es);
    if id in s.clients {
      var ops := Performed(s, SomeUpdating(s));
      assert forall j | 0 <= j < |ops| :: ops[..j] == s.acquired[..j];
      OrderlyReplay(ops, id);
      var a: nat :| a < |ops| && ops[a] == AddClient(id, s.clients[id]);
      assert s.acquired[a] == AddClient(id, s.clients[id]);
      forall k: nat | Passed(s, k) ensures !IsCloseOf(s.acquired[k], s.clients[id]) {
        if SomeUpdating(s) {
          var i: nat :| i < |s.threads| && s.threads[i].Updating?;
          assert s.threads[i].ticket == |s.acquired| - 1;
        }
        assert k < |ops| && ops[k] == s.acquired[k];
      }
    }
  }

  /** A close that has passed its erase step has passed it for good: with NoStaleSockets, its socket
      never comes back. */
  lemma {:induction false} PassedForGood(server: string, s: State, es: seq<Event>, k: nat)
    requires Passed(s, k)
    ensures var s' := Run(server, s, es); Passed(s', k) && s'.acquired[k] == s.acquired[k]
    decreases |es|
  {
    if es != [] {
      PassedForGood(server, Apply(server, s, es[0]), es[1..], k);
    }
  }

  /** Every socket that was added under an ID has a close that has passed its erase step. */
  ghost predicate AllClosed(s: State, id: ClientId) {
    forall socket | Added(s.acquired, id, socket) :: exists k: nat :: Passed(s, k) && IsCloseOf(s.acquired[k], socket)
  }

  /** Once all sockets of an ID are closed the ID is not in the map; and if its writes succeeded in
      order and nothing is under way, its row is "NA", or gone if it was removed last. */
  lemma ClosedIsAbsent(server: string, threads: nat, rows: Table, es: seq<Event>, id: ClientId)
    requires DisciplinedRun(server, Start(threads, rows), es)
    requires AllClosed(Run(server, Start(threads, rows), es), id)
    ensures var s := Run(server, Start(threads, rows), es);
            && id !in s.clients
            && (Quiet(s, id) && LastOn(s.acquired, id) >= 0 && WritesInOrder(s, id) ==>
                  RowOf(s.table, id) ==
                  if s.acquired[LastOn(s.acquired, id)].RemoveClient? then Missing else Host("NA"))
  {
    NoStaleSockets(server, threads, rows, es, id);
    MapAndTableAgree(server, threads, rows, es, id);
  }

  // ---------------------------------------------------------------- what can go wrong

  /** All steps of one operation, run through by thread `t` without interruption. */
  function Alone(t: nat, op: Op, ok: bool): seq<Event> {
    [Call(t, op), Step(t, ok), Step(t, ok), Step(t, ok), Step(t, ok)]
  }

  /** What an operation does when nobody interferes. */
  lemma AloneIs(server: string, s: State, t: nat, op: Op, ok: bool)
    requires t < |s.threads| && s.threads[t].Idle? && !s.locked
    ensures Run(server, s, Alone(t, op, ok)) ==
            s.(clients := Update(s.clients, op),
               table := if ok then Store(server, s.table, op) else s.table,
               acquired := s.acquired + [op],
               writes := s.writes + [Write(|s.acquired|, ok)])
  {
    var es := Alone(t, op, ok);
    var s1 := Apply(server, s, es[0]);
    var s2 := Apply(server, s1, es[1]);
    var s3 := Apply(server, s2, es[2]);
    var s4 := Apply(server, s3, es[3]);
    var s5 := Apply(server, s4, es[4]);
    assert s5.threads == s.threads;
    Unroll(server, s, es);
    Unroll(server, s1, es[1..]);
    Unroll(server, s2, es[2..]);
    Unroll(server, s3, es[3..]);
    Unroll(server, s4, es[4..]);
    assert es[5..] == [];
  }

  lemma Unroll(server: string, s: State, es: seq<Event>)
    requires es != []
    ensures Run(server, s, es) == Run(server, Apply(server, s, es[0]), es[1..])
  {
  }

  lemma {:induction false} DisciplinedAppend(server: string, s: State, es: seq<Event>, fs: seq<Event>)
    ensures DisciplinedRun(server, s, es + fs)
            <==> DisciplinedRun(server, s, es) && DisciplinedRun(server, Run(server, s, es), fs)
    decreases |es|
  {
    if es == [] {
      assert es + fs == fs;
    } else {
      assert (es + fs)[0] == es[0] && (es + fs)[1..] == es[1..] + fs;
      DisciplinedAppend(server, Apply(server, s, es[0]), es[1..], fs);
    }
  }

  lemma {:induction false} StepsAreDisciplined(server: string, s: State, es: seq<Event>)
    requires forall i | 0 <= i < |es| :: es[i].Step?
    ensures DisciplinedRun(server, s, es)
    decreases |es|
  {
    if es != [] {
      StepsAreDisciplined(server, Apply(server, s, es[0]), es[1..]);
    }
  }

  lemma AloneIsDisciplined(server: string, s: State, t: nat, op: Op, ok: bool)
    requires Disciplined(s, Call(t, op))
    ensures DisciplinedRun(server, s, Alone(t, op, ok))
  {
    var es := Alone(t, op, ok);
    StepsAreDisciplined(server, Apply(server, s, es[0]), es[1..]);
  }

  /** Whether a socket is in the map: exactly if nothing was done to its ID after its add. So a
      closing socket takes any newer socket of the same ID out of the map with it. */
  lemma EntryExactly(server: string, threads: nat, rows: Table, es: seq<Event>, k: nat)
    requires DisciplinedRun(server, Start(threads, rows), es)
    ensures var s := Run(server, Start(threads, rows), es);
            k < |s.acquired| && s.acquired[k].AddClient? && Quiet(s, s.acquired[k].id) ==>
              var id, socket := s.acquired[k].id, s.acquired[k].socket;
              (id in s.clients && s.clients[id] == socket)
              <==> forall j | k < j < |s.acquired| :: s.acquired[j].id != id
  {
    var s := Run(server, Start(threads, rows), es);
    if k < |s.acquired| && s.acquired[k].AddClient? && Quiet(s, s.acquired[k].id) {
      var id, socket := s.acquired[k].id, s.acquired[k].socket;
      var last := LastOn(s.acquired, id);
      assert last >= k;
      Linearizable(server, threads, rows, es);
      RunKeepsOrderly(server, Start(threads, rows), es);
      UpToDateExactly(server, rows, s, id);
      if s.acquired[last].AddClient? && s.acquired[last].socket == socket {
        assert IsAddOf(s.acquired[last], socket) && IsAddOf(s.acquired[k], socket);
      }
    }
  }

  lemma Extend(server: string, s0: State, es: seq<Event>, s: State, fs: seq<Event>)
    requires DisciplinedRun(server, s0, es) && Run(server, s0, es) == s && DisciplinedRun(server, s, fs)
    ensures DisciplinedRun(server, s0, es + fs) && Run(server, s0, es + fs) == Run(server, s, fs)
  {
    DisciplinedAppend(server, s0, es, fs);
    RunAppend(server, s0, es, fs);
  }

  predicate AllIdle(s: State) { forall i | 0 <= i < |s.threads| :: s.threads[i].Idle? }

  function Afterwards(server: string, s: State, op: Op): State {
    s.(clients := Update(s.clients, op), table := Store(server, s.table, op),
       acquired := s.acquired + [op], writes := s.writes + [Write(|s.acquired|, true)])
  }

  /** A disciplined run goes on with one more operation that nobody interferes with. */
  lemma ExtendAlone(server: string, s0: State, es: seq<Event>, t: nat, op: Op)
    requires DisciplinedRun(server, s0, es)
    requires var s := Run(server, s0, es);
             t < |s.threads| && s.threads[t].Idle? && !s.locked && Disciplined(s, Call(t, op))
    ensures DisciplinedRun(server, s0, es + Alone(t, op, true))
    ensures Run(server, s0, es + Alone(t, op, true)) == Afterwards(server, Run(server, s0, es), op)
  {
    var s := Run(server, s0, es);
    AloneIs(server, s, t, op, true);
    AloneIsDisciplined(server, s, t, op, true);
    Extend(server, s0, es, s, Alone(t, op, true));
  }

  /** The same without its last step: the operation has changed the map and is about to write. */
  lemma ExtendUpToWrite(server: string, s0: State, es: seq<Event>, t: nat, op: Op) returns (more: seq<Event>)
    requires DisciplinedRun(server, s0, es)
    requires var s := Run(server, s0, es);
             t < |s.threads| && s.threads[t].Idle? && !s.locked && Disciplined(s, Call(t, op))
    ensures DisciplinedRun(server, s0, es + more)
    ensures Run(server, s0, es + more) == AboutToWrite(Run(server, s0, es), t, op)
  {
    var s := Run(server, s0, es);
    more := [Call(t, op), Step(t, true), Step(t, true), Step(t, true)];
    StepsAreDisciplined(server, Apply(server, s, more[0]), more[1..]);
    UpToWriteIs(server, s, t, op);
    Extend(server, s0, es, s, more);
  }

  function AboutToWrite(s: State, t: nat, op: Op): State
    requires t < |s.threads|
  {
    s.(clients := Update(s.clients, op), acquired := s.acquired + [op],
       threads := s.threads[t := Writing(op, |s.acquired|)])
  }

  lemma UpToWriteIs(server: string, s: State, t: nat, op: Op)
    requires t < |s.threads| && s.threads[t].Idle? && !s.locked
    ensures Run(server, s, [Call(t, op), Step(t, true), Step(t, true), Step(t, true)]) == AboutToWrite(s, t, op)
  {
    var es := [Call(t, op), Step(t, true), Step(t, true), Step(t, true)];
    var s1 := Apply(server, s, es[0]);
    var s2 := Apply(server, s1, es[1]);
    var s3 := Apply(server, s2, es[2]);
    var s4 := Apply(server, s3, es[3]);
    assert s4.threads == s.threads[t := Writing(op, |s.acquired|)];
    Unroll(server, s, es);
    Unroll(server, s1, es[1..]);
    Unroll(server, s2, es[2..]);
    Unroll(server, s3, es[3..]);
    assert es[4..] == [];
  }

  /** And the late write itself. */
  lemma ExtendWrite(server: string, s0: State, es: seq<Event>, t: nat)
    requires DisciplinedRun(server, s0, es)
    requires var s := Run(server, s0, es); t < |s.threads| && s.threads[t].Writing?
    ensures DisciplinedRun(server, s0, es + [Step(t, true)])
    ensures Run(server, s0, es + [Step(t, true)]) == Apply(server, Run(server, s0, es), Step(t, true))
  {
    var s := Run(server, s0, es);
    StepsAreDisciplined(server, s, [Step(t, true)]);
    Unroll(server, s, [Step(t, true)]);
    Extend(server, s0, es, s, [Step(t, true)]);
  }

  /** Nothing is under way, all writes have succeeded, and a socket is in the map whose table row says
      "NA": the close of an older socket came before its add, but wrote after it. */
  ghost predicate Overtaken(s: State, id: ClientId, stale: Socket, newer: Socket) {
    && AllIdle(s)
    && s.acquired == [AddClient(id, stale), SetNotAvailable(id, stale), AddClient(id, newer)]
    && s.writes == [Write(0, true), Write(2, true), Write(1, true)]
    && s.clients == map[id := newer] && RowOf(s.table, id) == Host("NA")
  }

  /** The order of the writes is needed: in this disciplined run the "NA" of a closing socket is
      written after the row of the socket that replaced it. */
  lemma OvertakenWrite(server: string, threads: nat, rows: Table, id: ClientId, stale: Socket, newer: Socket)
    returns (es: seq<Event>)
    requires threads >= 2 && stale != newer && server != "NA"
    ensures DisciplinedRun(server, Start(threads, rows), es)
    ensures var s := Run(server, Start(threads, rows), es);
            Overtaken(s, id, stale, newer) && !UpToDate(server, s, id)
  {
    var s0 := Start(threads, rows);
    var first, close, second := AddClient(id, stale), SetNotAvailable(id, stale), AddClient(id, newer);
    ExtendAlone(server, s0, [], 0, first);
    es := [] + Alone(0, first, true);
    var s1 := Afterwards(server, s0, first);
    assert Written(s1, 0, 0) && s1.acquired[0] == first;
    var closing := ExtendUpToWrite(server, s0, es, 0, close);
    es := es + closing;
    var s2 := AboutToWrite(s1, 0, close);
    ExtendAlone(server, s0, es, 1, second);
    es := es + Alone(1, second, true);
    var s3 := Afterwards(server, s2, second);
    ExtendWrite(server, s0, es, 0);
    es := es + [Step(0, true)];
    OvertakenIs(server, threads, rows, id, stale, newer);
    OvertakenIsStale(server, Apply(server, s3, Step(0, true)), id, stale, newer);
  }

  lemma OvertakenIs(server: string, threads: nat, rows: Table, id: ClientId, stale: Socket, newer: Socket)
    requires threads >= 2
    ensures var s1 := Afterwards(server, Start(threads, rows), AddClient(id, stale));
            var s2 := AboutToWrite(s1, 0, SetNotAvailable(id, stale));
            var s3 := Afterwards(server, s2, AddClient(id, newer));
            Overtaken(Apply(server, s3, Step(0, true)), id, stale, newer)
  {
  }

  lemma OvertakenIsStale(server: string, s: State, id: ClientId, stale: Socket, newer: Socket)
    requires server != "NA" && Overtaken(s, id, stale, newer)
    ensures !UpToDate(server, s, id)
  {
    assert LastOn(s.acquired, id) == 2;
  }

  /** The success of the writes is needed: after a failed insert the client is in the map only. */
  lemma FailedWrite(server: string, threads: nat, rows: Table, id: ClientId, socket: Socket) returns (es: seq<Event>)
    requires threads > 0 && RowOf(rows, id) != Host(server)
    ensures DisciplinedRun(server, Start(threads, rows), es)
    ensures var s := Run(server, Start(threads, rows), es);
            && AllIdle(s) && s.acquired == [AddClient(id, socket)] && s.writes == [Write(0, false)]
            && s.clients == map[id := socket] && s.table == rows
            && !UpToDate(server, s, id)
  {
    var s0 := Start(threads, rows);
    es := Alone(0, AddClient(id, socket), false);
    AloneIs(server, s0, 0, AddClient(id, socket), false);
    AloneIsDisciplined(server, s0, 0, AddClient(id, socket), false);
  }

  /** A closed socket, a newer one of the same ID that was added and never closed, and nothing under
      way; all writes have succeeded in order. */
  ghost predicate Evicted(s: State, id: ClientId, stale: Socket, newer: Socket) {
    && AllIdle(s) && WritesInOrder(s, id)
    && s.acquired == [AddClient(id, stale), AddClient(id, newer), SetNotAvailable(id, stale)]
    && id !in s.clients && RowOf(s.table, id) == Host("NA")
  }

  /** The close of an old socket evicts a newer one of the same ID: a disciplined run at whose end a
      socket that was added and never closed is not in the map, and "NA" in the table. */
  lemma StaleCloseEvicts(server: string, threads: nat, rows: Table, id: ClientId, stale: Socket, newer: Socket)
    returns (es: seq<Event>)
    requires threads > 0 && stale != newer
    ensures DisciplinedRun(server, Start(threads, rows), es)
    ensures var s := Run(server, Start(threads, rows), es);
            && Evicted(s, id, stale, newer)
            && Added(s.acquired, id, newer) && forall k | 0 <= k < |s.acquired| :: !IsCloseOf(s.acquired[k], newer)
  {
    var s0 := Start(threads, rows);
    var first, second, close := AddClient(id, stale), AddClient(id, newer), SetNotAvailable(id, stale);
    ExtendAlone(server, s0, [], 0, first);
    es := [] + Alone(0, first, true);
    var s1 := Afterwards(server, s0, first);
    ExtendAlone(server, s0, es, 0, second);
    es := es + Alone(0, second, true);
    var s2 := Afterwards(server, s1, second);
    assert Written(s2, 0, 0) && s2.acquired[0] == AddClient(id, stale);
    ExtendAlone(server, s0, es, 0, close);
    es := es + Alone(0, close, true);
    EvictedBy(server, threads, rows, id, stale, newer);
    assert Afterwards(server, s2, close).acquired[1] == second;
  }

  lemma EvictedBy(server: string, threads: nat, rows: Table, id: ClientId, stale: Socket, newer: Socket)
    ensures var s := Afterwards(server, Start(threads, rows), AddClient(id, stale));
            Evicted(Afterwards(server, Afterwards(server, s, AddClient(id, newer)), SetNotAvailable(id, stale)),
                    id, stale, newer)
  {
  }
}
