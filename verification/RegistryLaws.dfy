/** What every run of the registry keeps: mutual exclusion, and a map and a table that are replays
    of what was done to them; and from there, when the two agree. */
module RegistryLaws {
  import opened Registry

  // ---------------------------------------------------------------- mutual exclusion

  /** At most one thread is between getting the flag and clearing it, the flag is set exactly while
      one is, and that thread was the last to get the flag. */
  ghost predicate Exclusive(s: State) {
    && (forall i, j | 0 <= i < |s.threads| && 0 <= j < |s.threads| ::
          s.threads[i].InCritical() && s.threads[j].InCritical() ==> i == j)
    && (s.locked <==> exists i :: 0 <= i < |s.threads| && s.threads[i].InCritical())
    && (forall i | 0 <= i < |s.threads| :: s.threads[i].InCritical() ==> s.threads[i].ticket == |s.acquired| - 1)
  }

  lemma ExclusiveKept(server: string, s: State, e: Event)
    requires Exclusive(s)
    ensures Exclusive(Apply(server, s, e))
  {
    var s' := Apply(server, s, e);
    var t := e.thread;
    if s.locked {
      var i :| 0 <= i < |s.threads| && s.threads[i].InCritical();
      if i != t {
        assert s'.threads[i] == s.threads[i];
      } else if e.Step? && s.threads[t].Updating? {
        assert s'.threads[i].InCritical();
      } else if e.Call? {
        assert s' == s;
      }
    } else if s' != s && e.Step? && s.threads[t].Spinning? {
      assert s'.threads[t].InCritical();
    }
  }

  // ---------------------------------------------------------------- tickets

  predicate Held(s: State, k: nat, i: nat) {
    i < |s.threads| && s.threads[i].HasTicket() && s.threads[i].ticket == k
  }

  predicate Written(s: State, k: nat, j: nat) { j < |s.writes| && s.writes[j].ticket == k }

  ghost predicate Tracked(s: State, k: nat) {
    (exists i: nat :: Held(s, k, i)) || (exists j: nat :: Written(s, k, j))
  }

  /** Every acquisition is accounted for once: one thread holds it, or it has been written once. */
  ghost predicate Accounted(s: State) {
    && (forall i: nat, k: nat | Held(s, k, i) :: k < |s.acquired| && s.acquired[k] == s.threads[i].op)
    && (forall j: nat, k: nat | Written(s, k, j) :: k < |s.acquired|)
    && (forall i: nat, j: nat, k: nat | Held(s, k, i) && Held(s, k, j) :: i == j)
    && (forall i: nat, j: nat, k: nat | Written(s, k, i) && Written(s, k, j) :: i == j)
    && (forall i: nat, j: nat, k: nat | Held(s, k, i) :: !Written(s, k, j))
    && (forall k: nat | k < |s.acquired| :: Tracked(s, k))
  }

  lemma AccountedKept(server: string, s: State, e: Event)
    requires Accounted(s)
    ensures Accounted(Apply(server, s, e))
  {
    var s' := Apply(server, s, e);
    var t := e.thread;
    if s' != s {
      if e.Step? && s.threads[t].Spinning? {
        AccountedAcquire(s, s', t);
      } else if e.Step? && s.threads[t].Writing? {
        AccountedWrite(s, s', t);
      } else {
        forall i: nat, k: nat ensures Held(s', k, i) <==> Held(s, k, i) {
        }
        AccountedSame(s, s');
      }
    }
  }

  lemma AccountedSame(s: State, s': State)
    requires Accounted(s) && s'.acquired == s.acquired && s'.writes == s.writes
    requires forall i: nat, k: nat :: Held(s', k, i) <==> Held(s, k, i)
    requires forall i: nat, k: nat | Held(s, k, i) :: Held(s', k, i) && s'.threads[i].op == s.threads[i].op
    ensures Accounted(s')
  {
    forall j: nat, k: nat ensures Written(s', k, j) <==> Written(s, k, j) {
    }
    forall k: nat | k < |s'.acquired| ensures Tracked(s', k) {
      assert Tracked(s, k);
    }
  }

  lemma AccountedAcquire(s: State, s': State, t: nat)
    requires Accounted(s) && t < |s.threads| && s.threads[t].Spinning?
    requires s'.acquired == s.acquired + [s.threads[t].op] && s'.writes == s.writes
    requires s'.threads == s.threads[t := Updating(s.threads[t].op, |s.acquired|)]
    ensures Accounted(s')
  {
    forall i: nat, k: nat ensures Held(s', k, i) <==> if i == t then k == |s.acquired| else Held(s, k, i) {
    }
    forall j: nat, k: nat ensures Written(s', k, j) <==> Written(s, k, j) {
    }
    forall k: nat | k < |s'.acquired| ensures Tracked(s', k) {
      if k == |s.acquired| {
        assert Held(s', k, t);
      } else {
        assert Tracked(s, k);
        if i: nat :| Held(s, k, i) {
          assert Held(s', k, i);
        }
      }
    }
  }

  lemma AccountedWrite(s: State, s': State, t: nat)
    requires Accounted(s) && t < |s.threads| && s.threads[t].Writing?
    requires s'.acquired == s.acquired && |s'.writes| == |s.writes| + 1 && s'.writes[..|s.writes|] == s.writes
    requires s'.writes[|s.writes|].ticket == s.threads[t].ticket
    requires s'.threads == s.threads[t := Idle]
    ensures Accounted(s')
  {
    var ticket := s.threads[t].ticket;
    assert Held(s, ticket, t);
    forall i: nat, k: nat ensures Held(s', k, i) <==> i != t && Held(s, k, i) {
    }
    forall j: nat, k: nat ensures Written(s', k, j) <==> Written(s, k, j) || (j == |s.writes| && k == ticket) {
      assert j < |s.writes| ==> s'.writes[..|s.writes|][j] == s'.writes[j];
    }
    forall k: nat | k < |s'.acquired| ensures Tracked(s', k) {
      assert Tracked(s, k);
      if i: nat :| Held(s, k, i) {
        assert if i == t then Written(s', k, |s.writes|) else Held(s', k, i);
      } else {
        var j: nat :| Written(s, k, j);
        assert Written(s', k, j);
      }
    }
  }

  // ---------------------------------------------------------------- contents

  /** The map after the operations were applied one after the other. */
  function Replay(ops: seq<Op>): Clients {
    if ops == [] then map[] else Update(Replay(ops[..|ops| - 1]), ops[|ops| - 1])
  }

  /** The table after the successful writes were applied one after the other. */
  function Rewritten(server: string, rows: Table, ops: seq<Op>, writes: seq<Write>): Table {
    if writes == [] then rows
    else
      var table := Rewritten(server, rows, ops, writes[..|writes| - 1]);
      var w := writes[|writes| - 1];
      if w.ok && w.ticket < |ops| then Store(server, table, ops[w.ticket]) else table
  }

  /** The operations whose map update has taken place: all that got the flag, but for one that is
      about to update. */
  function Performed(s: State, updating: bool): seq<Op> {
    if updating && s.acquired != [] then s.acquired[..|s.acquired| - 1] else s.acquired
  }

  ghost predicate SomeUpdating(s: State) { exists i: nat :: i < |s.threads| && s.threads[i].Updating? }

  ghost predicate Linear(server: string, rows: Table, s: State) {
    && s.clients == Replay(Performed(s, SomeUpdating(s)))
    && s.table == Rewritten(server, rows, s.acquired, s.writes)
  }

  lemma {:induction false} RewrittenGrows(server: string, rows: Table, ops: seq<Op>, op: Op, writes: seq<Write>)
    requires forall j | 0 <= j < |writes| :: writes[j].ticket < |ops|
    ensures Rewritten(server, rows, ops + [op], writes) == Rewritten(server, rows, ops, writes)
  {
    if writes != [] {
      RewrittenGrows(server, rows, ops, op, writes[..|writes| - 1]);
    }
  }

  lemma LinearKept(server: string, rows: Table, s: State, e: Event)
    requires Exclusive(s) && Accounted(s) && Linear(server, rows, s)
    ensures Linear(server, rows, Apply(server, s, e))
  {
    var s' := Apply(server, s, e);
    var t := e.thread;
    if s' == s {
    } else if e.Step? && s.threads[t].Spinning? {
      LinearAcquire(server, rows, s, e);
    } else if e.Step? && s.threads[t].Updating? {
      LinearUpdate(server, rows, s, e);
    } else if e.Step? && s.threads[t].Writing? {
      LinearWrite(server, rows, s, e);
    } else {
      SameUpdating(s, s', t);
    }
  }

  lemma LinearWrite(server: string, rows: Table, s: State, e: Event)
    requires Exclusive(s) && Accounted(s) && Linear(server, rows, s)
    requires e.Step? && e.thread < |s.threads| && s.threads[e.thread].Writing?
    ensures Linear(server, rows, Apply(server, s, e))
  {
    var s' := Apply(server, s, e);
    var op, ticket := s.threads[e.thread].op, s.threads[e.thread].ticket;
    assert Held(s, ticket, e.thread);
    SameUpdating(s, s', e.thread);
    RewrittenSnoc(server, rows, s.acquired, s.writes, Write(ticket, e.dbOk));
    assert s'.table == if e.dbOk then Store(server, s.table, op) else s.table;
  }

  lemma RewrittenSnoc(server: string, rows: Table, ops: seq<Op>, writes: seq<Write>, w: Write)
    ensures Rewritten(server, rows, ops, writes + [w]) ==
            var table := Rewritten(server, rows, ops, writes);
            if w.ok && w.ticket < |ops| then Store(server, table, ops[w.ticket]) else table
  {
    assert (writes + [w])[..|writes|] == writes;
  }

  lemma LinearAcquire(server: string, rows: Table, s: State, e: Event)
    requires Exclusive(s) && Accounted(s) && Linear(server, rows, s)
    requires e.Step? && e.thread < |s.threads| && s.threads[e.thread].Spinning? && !s.locked
    ensures Linear(server, rows, Apply(server, s, e))
  {
    var s' := Apply(server, s, e);
    assert !SomeUpdating(s);
    assert s'.threads[e.thread].Updating?;
    assert s'.acquired[..|s'.acquired| - 1] == s.acquired;
    forall j | 0 <= j < |s.writes| ensures s.writes[j].ticket < |s.acquired| {
      assert Written(s, s.writes[j].ticket, j);
    }
    RewrittenGrows(server, rows, s.acquired, s.threads[e.thread].op, s.writes);
  }

  lemma LinearUpdate(server: string, rows: Table, s: State, e: Event)
    requires Exclusive(s) && Accounted(s) && Linear(server, rows, s)
    requires e.Step? && e.thread < |s.threads| && s.threads[e.thread].Updating?
    ensures Linear(server, rows, Apply(server, s, e))
  {
    var s' := Apply(server, s, e);
    assert SomeUpdating(s);
    assert Held(s, s.threads[e.thread].ticket, e.thread);
    forall i | 0 <= i < |s'.threads| ensures !s'.threads[i].Updating? {
    }
  }

  lemma SameUpdating(s: State, s': State, t: nat)
    requires t < |s.threads| == |s'.threads| && !s.threads[t].Updating? && !s'.threads[t].Updating?
    requires forall i | 0 <= i < |s.threads| && i != t :: s'.threads[i] == s.threads[i]
    ensures SomeUpdating(s) <==> SomeUpdating(s')
  {
    if SomeUpdating(s) {
      var i: nat :| i < |s.threads| && s.threads[i].Updating?;
      assert s'.threads[i].Updating?;
    }
    if SomeUpdating(s') {
      var i: nat :| i < |s'.threads| && s'.threads[i].Updating?;
      assert s.threads[i].Updating?;
    }
  }

  ghost predicate Inv(server: string, rows: Table, s: State) {
    Exclusive(s) && Accounted(s) && Linear(server, rows, s)
  }

  lemma InvKept(server: string, rows: Table, s: State, e: Event)
    requires Inv(server, rows, s)
    ensures Inv(server, rows, Apply(server, s, e))
  {
    ExclusiveKept(server, s, e);
    AccountedKept(server, s, e);
    LinearKept(server, rows, s, e);
  }

  lemma {:induction false} RunKeepsInv(server: string, rows: Table, s: State, es: seq<Event>)
    requires Inv(server, rows, s)
    ensures Inv(server, rows, Run(server, s, es))
    decreases |es|
  {
    if es != [] {
      InvKept(server, rows, s, es[0]);
      RunKeepsInv(server, rows, Apply(server, s, es[0]), es[1..]);
    }
  }

  /** The registry map is linearizable, in any interleaving: the flag excludes all but one thread,
      and the map is the sequential replay of the operations in the order in which they got the
      flag; only the last of them may still be on its way to its update, in which case its thread
      stands between getting and clearing the flag. */
  lemma Linearizable(server: string, threads: nat, rows: Table, es: seq<Event>)
    ensures var s := Run(server, Start(threads, rows), es);
            && Inv(server, rows, s)
            && (!s.locked ==> s.clients == Replay(s.acquired))
            && (s.locked && s.clients != Replay(s.acquired) ==> s.clients == Replay(s.acquired[..|s.acquired| - 1]))
  {
    assert Inv(server, rows, Start(threads, rows));
    RunKeepsInv(server, rows, Start(threads, rows), es);
  }

  // ---------------------------------------------------------------- map and table

  /** The last operation on an ID, or -1. */
  function LastOn(ops: seq<Op>, id: ClientId): (k: int)
    ensures -1 <= k < |ops|
    ensures k >= 0 ==> ops[k].id == id
    ensures forall j | k < j < |ops| :: ops[j].id != id
  {
    if ops == [] then -1
    else if ops[|ops| - 1].id == id then |ops| - 1
    else LastOn(ops[..|ops| - 1], id)
  }

  /** The last successful write of an operation on an ID, or -1. */
  function LastWriteOn(ops: seq<Op>, writes: seq<Write>, id: ClientId): (j: int)
    ensures -1 <= j < |writes|
    ensures j >= 0 ==> writes[j].ok && writes[j].ticket < |ops| && ops[writes[j].ticket].id == id
    ensures forall i | j < i < |writes| ::
              writes[i].ok && writes[i].ticket < |ops| ==> ops[writes[i].ticket].id != id
  {
    if writes == [] then -1
    else
      var w := writes[|writes| - 1];
      if w.ok && w.ticket < |ops| && ops[w.ticket].id == id then |writes| - 1
      else LastWriteOn(ops, writes[..|writes| - 1], id)
  }

  datatype Row = Missing | Host(name: string)

  function RowOf(table: Table, id: ClientId): Row { if id in table then Host(table[id]) else Missing }

  /** The row that an operation means its ID to have. */
  function Intended(server: string, op: Op): Row {
    match op
    case AddClient(_, _) => Host(server)
    case SetNotAvailable(_, _) => Host("NA")
    case RemoveClient(_) => Missing
  }

  lemma {:induction false} ReplayLookup(ops: seq<Op>, id: ClientId)
    ensures var k := LastOn(ops, id);
            && (id in Replay(ops) <==> k >= 0 && ops[k].AddClient?)
            && (id in Replay(ops) ==> Replay(ops)[id] == ops[k].socket)
  {
    if ops != [] && ops[|ops| - 1].id != id {
      ReplayLookup(ops[..|ops| - 1], id);
    }
  }

  lemma {:induction false} RewrittenLookup(server: string, rows: Table, ops: seq<Op>, writes: seq<Write>, id: ClientId)
    ensures var j := LastWriteOn(ops, writes, id);
            RowOf(Rewritten(server, rows, ops, writes), id) ==
            if j < 0 then RowOf(rows, id) else Intended(server, ops[writes[j].ticket])
  {
    if writes != [] {
      RewrittenLookup(server, rows, ops, writes[..|writes| - 1], id);
    }
  }

  /** No thread has got the flag for this ID and not yet finished. */
  predicate Quiet(s: State, id: ClientId) {
    forall i | 0 <= i < |s.threads| :: s.threads[i].HasTicket() ==> s.threads[i].op.id != id
  }

  predicate On(s: State, j: int, id: ClientId) {
    0 <= j < |s.writes| && s.writes[j].ticket < |s.acquired| && s.acquired[s.writes[j].ticket].id == id
  }

  /** The database writes for an ID succeeded, and came in the order of the map updates. */
  predicate WritesInOrder(s: State, id: ClientId) {
    && (forall j | 0 <= j < |s.writes| :: On(s, j, id) ==> s.writes[j].ok)
    && (forall i, j | 0 <= i < j < |s.writes| ::
          On(s, i, id) && On(s, j, id) ==> s.writes[i].ticket < s.writes[j].ticket)
  }

  /** The map entry and the table row of an ID are those of its last operation. */
  predicate UpToDate(server: string, s: State, id: ClientId) {
    var k := LastOn(s.acquired, id);
    && k >= 0
    && (id in s.clients <==> s.acquired[k].AddClient?)
    && (id in s.clients ==> s.clients[id] == s.acquired[k].socket)
    && RowOf(s.table, id) == Intended(server, s.acquired[k])
  }

  /** For an ID with no operation under way, the map always shows its last operation; the table
      does exactly if the last successful write (or the row from before the start, if there was
      none) stands for the same kind of row. */
  lemma UpToDateExactly(server: string, rows: Table, s: State, id: ClientId)
    requires Inv(server, rows, s) && Quiet(s, id) && LastOn(s.acquired, id) >= 0
    ensures var k := LastOn(s.acquired, id);
            var j := LastWriteOn(s.acquired, s.writes, id);
            && (id in s.clients <==> s.acquired[k].AddClient?)
            && (id in s.clients ==> s.clients[id] == s.acquired[k].socket)
            && (UpToDate(server, s, id) <==>
                  (if j < 0 then RowOf(rows, id) else Intended(server, s.acquired[s.writes[j].ticket]))
                  == Intended(server, s.acquired[k]))
  {
    RewrittenLookup(server, rows, s.acquired, s.writes, id);
    var ops := Performed(s, SomeUpdating(s));
    if SomeUpdating(s) {
      var i: nat :| i < |s.threads| && s.threads[i].Updating?;
      assert s.acquired[|s.acquired| - 1].id != id;
      assert LastOn(s.acquired, id) == LastOn(ops, id);
    }
    ReplayLookup(ops, id);
  }

  /** Map and table agree on every ID that has no operation under way and at least one behind it,
      in any run with any number of threads, provided that the writes for this ID succeed and come
      in the order in which the operations got the flag. */
  lemma MapAndTableAgree(server: string, threads: nat, rows: Table, es: seq<Event>, id: ClientId)
    ensures var s := Run(server, Start(threads, rows), es);
            Quiet(s, id) && LastOn(s.acquired, id) >= 0 && WritesInOrder(s, id) ==> UpToDate(server, s, id)
  {
    Linearizable(server, threads, rows, es);
    var s := Run(server, Start(threads, rows), es);
    if Quiet(s, id) && LastOn(s.acquired, id) >= 0 && WritesInOrder(s, id) {
      LastWriteIsLastOperation(s, id);
      UpToDateExactly(server, rows, s, id);
    }
  }

  lemma LastWriteIsLastOperation(s: State, id: ClientId)
    requires Accounted(s) && Quiet(s, id) && LastOn(s.acquired, id) >= 0 && WritesInOrder(s, id)
    ensures var j := LastWriteOn(s.acquired, s.writes, id);
            j >= 0 && s.writes[j].ticket == LastOn(s.acquired, id)
  {
    var k: nat := LastOn(s.acquired, id);
    forall i: nat ensures !Held(s, k, i) {
    }
    assert Tracked(s, k);
    var i: nat :| Written(s, k, i);
    assert On(s, i, id);
    var j := LastWriteOn(s.acquired, s.writes, id);
    assert j >= i;
    assert On(s, j, id);
  }

  /** As an operator reads it: with only add and close operations on an ID, and a server that is not
      itself called "NA", an up-to-date ID is in the map exactly when its row names the server, and
      otherwise its row is "NA". */
  lemma RowTellsPresence(server: string, s: State, id: ClientId)
    requires UpToDate(server, s, id) && server != "NA"
    requires !s.acquired[LastOn(s.acquired, id)].RemoveClient?
    ensures id in s.table
    ensures id in s.clients <==> s.table[id] == server
    ensures id !in s.clients <==> s.table[id] == "NA"
  {
    assert RowOf(s.table, id).Host?;
  }
}
