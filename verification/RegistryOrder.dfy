/** Order in the registry: what returned before something else was called comes first, and callers
    that let no two operations on an ID overlap get a map and a table that agree on it. */
module RegistryOrder {
  import opened Registry
  import opened RegistryLaws

  // ---------------------------------------------------------------- real time

  /** The operations that got the flag stay as they are; later ones come behind them. */
  lemma {:induction false} AcquiredGrows(server: string, s: State, es: seq<Event>)
    ensures s.acquired <= Run(server, s, es).acquired
    decreases |es|
  {
    if es != [] {
      AcquiredGrows(server, Apply(server, s, es[0]), es[1..]);
    }
  }

  /** A thread without a ticket gets one that has not been given yet. */
  lemma {:induction false} LaterTicket(server: string, s: State, es: seq<Event>, t: nat, n: nat)
    requires t < |s.threads| && n <= |s.acquired|
    requires s.threads[t].HasTicket() ==> n <= s.threads[t].ticket
    ensures var pc := Run(server, s, es).threads[t]; pc.HasTicket() ==> n <= pc.ticket
    decreases |es|
  {
    if es != [] {
      LaterTicket(server, Apply(server, s, es[0]), es[1..], t, n);
    }
  }

  /** Linearizable's order is that of real time: if one operation has written, and so returned, when
      a thread is idle, then whatever that thread calls from then on comes behind it in the order in
      which the map replays the operations. */
  lemma RealTimeOrder(server: string, s: State, es: seq<Event>, j: nat, w: nat, t: nat)
    requires Accounted(s) && Written(s, j, w) && t < |s.threads| && s.threads[t].Idle?
    ensures var s' := Run(server, s, es);
            && j < |s'.acquired| && s'.acquired[j] == s.acquired[j]
            && (s'.threads[t].HasTicket() ==>
                  && j < s'.threads[t].ticket < |s'.acquired|
                  && s'.acquired[s'.threads[t].ticket] == s'.threads[t].op)
  {
    AcquiredGrows(server, s, es);
    LaterTicket(server, s, es, t, |s.acquired|);
    RunKeepsAccounted(server, s, es);
    var s' := Run(server, s, es);
    if s'.threads[t].HasTicket() {
      assert Held(s', s'.threads[t].ticket, t);
    }
  }

  lemma {:induction false} RunKeepsAccounted(server: string, s: State, es: seq<Event>)
    requires Accounted(s)
    ensures Accounted(Run(server, s, es))
    decreases |es|
  {
    if es != [] {
      AccountedKept(server, s, es[0]);
      RunKeepsAccounted(server, Apply(server, s, es[0]), es[1..]);
    }
  }

  // ---------------------------------------------------------------- one at a time

  predicate Busy(s: State, i: nat, id: ClientId) {
    i < |s.threads| && !s.threads[i].Idle? && s.threads[i].op.id == id
  }

  /** A call on this ID that is accepted comes while no thread is busy with the ID. */
  predicate InTurn(s: State, e: Event, id: ClientId) {
    e.Call? && e.op.id == id && e.thread < |s.threads| && s.threads[e.thread].Idle? ==>
      forall i | 0 <= i < |s.threads| :: !Busy(s, i, id)
  }

  predicate NoOverlap(server: string, s: State, es: seq<Event>, id: ClientId)
    decreases |es|
  {
    es == [] || (InTurn(s, es[0], id) && NoOverlap(server, Apply(server, s, es[0]), es[1..], id))
  }

  /** At most one thread is busy with the ID, and the writes for it have come in the order of their
      tickets, all of which are below one that is still held. */
  predicate Serial(s: State, id: ClientId) {
    && (forall i, j | 0 <= i < |s.threads| && 0 <= j < |s.threads| :: Busy(s, i, id) && Busy(s, j, id) ==> i == j)
    && (forall i, j | 0 <= i < j < |s.writes| ::
          On(s, i, id) && On(s, j, id) ==> s.writes[i].ticket < s.writes[j].ticket)
    && (forall i, j | 0 <= i < |s.threads| && 0 <= j < |s.writes| ::
          Busy(s, i, id) && s.threads[i].HasTicket() && On(s, j, id) ==> s.writes[j].ticket < s.threads[i].ticket)
  }

  lemma SerialKept(server: string, s: State, e: Event, id: ClientId)
    requires Accounted(s) && Serial(s, id) && InTurn(s, e, id)
    ensures Serial(Apply(server, s, e), id)
  {
    var s' := Apply(server, s, e);
    var t := e.thread;
    if s' != s {
      OnStays(server, s, e, id);
      if e.Call? {
        SerialCall(s, t, e.op, id);
      } else if s.threads[t].Writing? {
        assert Held(s, s.threads[t].ticket, t);
        SerialWrite(s, s', t, id);
      } else {
        SerialStep(s, s', t, id);
      }
    }
  }

  lemma OnStays(server: string, s: State, e: Event, id: ClientId)
    requires Accounted(s)
    ensures forall j | 0 <= j < |s.writes| :: On(Apply(server, s, e), j, id) <==> On(s, j, id)
  {
    forall j | 0 <= j < |s.writes| ensures On(Apply(server, s, e), j, id) <==> On(s, j, id) {
      assert Written(s, s.writes[j].ticket, j);
    }
  }

  lemma SerialCall(s: State, t: nat, op: Op, id: ClientId)
    requires Serial(s, id) && t < |s.threads| && s.threads[t].Idle? && InTurn(s, Call(t, op), id)
    ensures Serial(s.(threads := s.threads[t := Spinning(op)]), id)
  {
    var s' := s.(threads := s.threads[t := Spinning(op)]);
    forall i | 0 <= i < |s.threads| ensures Busy(s', i, id) <==> if i == t then op.id == id else Busy(s, i, id) {
    }
    assert forall j | 0 <= j < |s.writes| :: On(s', j, id) <==> On(s, j, id);
  }

  lemma SerialStep(s: State, s': State, t: nat, id: ClientId)
    requires Serial(s, id) && t < |s.threads| && !s.threads[t].Idle?
    requires s'.writes == s.writes && forall j | 0 <= j < |s.writes| :: On(s', j, id) <==> On(s, j, id)
    requires |s'.threads| == |s.threads| && forall i | 0 <= i < |s.threads| && i != t :: s'.threads[i] == s.threads[i]
    requires !s'.threads[t].Idle? && s'.threads[t].op == s.threads[t].op
    requires s'.threads[t].HasTicket()
    requires if s.threads[t].HasTicket() then s'.threads[t].ticket == s.threads[t].ticket
             else s'.threads[t].ticket == |s.acquired|
    ensures Serial(s', id)
  {
    forall i | 0 <= i < |s.threads| ensures Busy(s', i, id) <==> Busy(s, i, id) {
    }
  }

  lemma SerialWrite(s: State, s': State, t: nat, id: ClientId)
    requires Serial(s, id) && t < |s.threads| && s.threads[t].Writing? && s.threads[t].ticket < |s.acquired|
    requires s.acquired[s.threads[t].ticket] == s.threads[t].op && s'.acquired == s.acquired
    requires |s'.writes| == |s.writes| + 1 && s'.writes[..|s.writes|] == s.writes
    requires s'.writes[|s.writes|].ticket == s.threads[t].ticket
    requires s'.threads == s.threads[t := Idle]
    requires forall j | 0 <= j < |s.writes| :: On(s', j, id) <==> On(s, j, id)
    ensures Serial(s', id)
  {
    forall i | 0 <= i < |s.threads| ensures Busy(s', i, id) <==> i != t && Busy(s, i, id) {
    }
    assert forall j | 0 <= j < |s.writes| :: s'.writes[j] == s.writes[j];
    assert On(s', |s.writes|, id) <==> Busy(s, t, id);
  }

  lemma {:induction false} RunKeepsSerial(server: string, s: State, es: seq<Event>, id: ClientId)
    requires Accounted(s) && Serial(s, id) && NoOverlap(server, s, es, id)
    ensures Serial(Run(server, s, es), id)
    decreases |es|
  {
    if es != [] {
      AccountedKept(server, s, es[0]);
      SerialKept(server, s, es[0], id);
      RunKeepsSerial(server, Apply(server, s, es[0]), es[1..], id);
    }
  }

  /** What a caller can see to: if operations on an ID are called one at a time, whatever happens on
      other IDs in between, and their writes succeed, then map and table agree on the ID as soon as
      nothing is under way for it. */
  lemma OneAtATimeAgrees(server: string, threads: nat, rows: Table, es: seq<Event>, id: ClientId)
    requires NoOverlap(server, Start(threads, rows), es, id)
    ensures var s := Run(server, Start(threads, rows), es);
            Quiet(s, id) && LastOn(s.acquired, id) >= 0
            && (forall j | 0 <= j < |s.writes| :: On(s, j, id) ==> s.writes[j].ok)
            ==> WritesInOrder(s, id) && UpToDate(server, s, id)
  {
    RunKeepsSerial(server, Start(threads, rows), es, id);
    MapAndTableAgree(server, threads, rows, es, id);
  }
}
