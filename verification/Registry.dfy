/** The client registry: a map of live sockets guarded by a spinning flag, and a database table that
    is written after the flag has been cleared. Any number of threads run operations; a schedule
    decides whose next atomic step is taken. */
module Registry {

  type ClientId = string
  type Socket = nat
  type Clients = map<ClientId, Socket>
  type Table = map<ClientId, string>

  const NOT_AVAILABLE := "NA"

  /** A call of one of the three operations. SetNotAvailable is called on behalf of a socket that
      is being closed; the operation itself does not look at it. */
  datatype Op =
    | AddClient(id: ClientId, socket: Socket)
    | SetNotAvailable(id: ClientId, closing: Socket)
    | RemoveClient(id: ClientId)

  /** Where a thread stands. The ticket numbers the operations in the order in which they got the flag. */
  datatype Pc =
    | Idle
    | Spinning(op: Op)
    | Updating(op: Op, ticket: nat)
    | Unlocking(op: Op, ticket: nat)
    | Writing(op: Op, ticket: nat)
  {
    predicate InCritical() { Updating? || Unlocking? }

    predicate HasTicket() { Updating? || Unlocking? || Writing? }
  }

  /** A database write that has been done, and whether it succeeded. */
  datatype Write = Write(ticket: nat, ok: bool)

  /** The shared state, the threads, and two histories: who got the flag, and who wrote. */
  datatype State = State(
    locked: bool,
    clients: Clients,
    table: Table,
    threads: seq<Pc>,
    acquired: seq<Op>,
    writes: seq<Write>)

  /** An idle thread calls an operation; or a thread takes its next atomic step, where `dbOk` says
      how a database write would end. */
  datatype Event = Call(thread: nat, op: Op) | Step(thread: nat, dbOk: bool)

  function Update(clients: Clients, op: Op): Clients {
    if op.AddClient? then clients[op.id := op.socket] else clients - {op.id}
  }

  function Store(server: string, table: Table, op: Op): Table {
    match op
    case AddClient(id, _) => table[id := server]
    case SetNotAvailable(id, _) => table[id := NOT_AVAILABLE]
    case RemoveClient(id) => table - {id}
  }

  function Start(threads: nat, rows: Table): State {
    State(false, map[], rows, seq(threads, i => Idle), [], [])
  }

  /** One event. An event that cannot happen now leaves the state as it is; so does a test_and_set
      that finds the flag set. */
  function Apply(server: string, s: State, e: Event): (s': State)
    ensures |s'.threads| == |s.threads|
  {
    var t := e.thread;
    if t >= |s.threads| then s
    else match e
      case Call(_, op) => if s.threads[t].Idle? then s.(threads := s.threads[t := Spinning(op)]) else s
      case Step(_, ok) =>
        match s.threads[t]
        case Idle => s
        case Spinning(op) =>
          if s.locked then s
          else s.(locked := true, acquired := s.acquired + [op],
                  threads := s.threads[t := Updating(op, |s.acquired|)])
        case Updating(op, k) => s.(clients := Update(s.clients, op), threads := s.threads[t := Unlocking(op, k)])
        case Unlocking(op, k) => s.(locked := false, threads := s.threads[t := Writing(op, k)])
        case Writing(op, k) =>
          s.(table := if ok then Store(server, s.table, op) else s.table,
             writes := s.writes + [Write(k, ok)],
             threads := s.threads[t := Idle])
  }

  function Run(server: string, s: State, es: seq<Event>): (s': State)
    ensures |s'.threads| == |s.threads|
    decreases |es|
  {
    if es == [] then s else Run(server, Apply(server, s, es[0]), es[1..])
  }

  lemma {:induction false} RunAppend(server: string, s: State, es: seq<Event>, fs: seq<Event>)
    ensures Run(server, s, es + fs) == Run(server, Run(server, s, es), fs)
    decreases |es|
  {
    if es == [] {
      assert es + fs == fs;
    } else {
      assert (es + fs)[0] == es[0] && (es + fs)[1..] == es[1..] + fs;
      RunAppend(server, Apply(server, s, es[0]), es[1..], fs);
    }
  }

  /** The registry object. Its methods are the atomic steps of the three operations; `Execute` runs
      a schedule on it. The table stands for the database. */
  class WebSocketComponent {
    const appServerName: string
    var clients: Clients
    var clientMapLock: bool
    var table: Table
    var threads: seq<Pc>
    // Two histories, which the operations never read.
    var acquired: seq<Op>
    var writes: seq<Write>

    function View(): State
      reads this
    {
      State(clientMapLock, clients, table, threads, acquired, writes)
    }

    constructor (server: string, threadCount: nat, rows: Table)
      ensures View() == Start(threadCount, rows) && appServerName == server
    {
      appServerName := server;
      clients, clientMapLock, table := map[], false, rows;
      threads := seq(threadCount, i => Idle);
      acquired, writes := [], [];
    }

    method Call(t: nat, op: Op)
      requires t < |threads| && threads[t].Idle?
      modifies this`threads
      ensures View() == Apply(appServerName, old(View()), Event.Call(t, op))
    {
      threads := threads[t := Spinning(op)];
    }

    /** `while (clientMapLock.test_and_set());`, one turn of it. */
    method TestAndSet(t: nat, ghost ok: bool)
      requires t < |threads| && threads[t].Spinning?
      modifies this
      ensures View() == Apply(appServerName, old(View()), Step(t, ok))
    {
      var was := clientMapLock;
      clientMapLock := true;
      if !was {
        var op := threads[t].op;
        threads := threads[t := Updating(op, |acquired|)];
        acquired := acquired + [op];
      }
    }

    /** `clients[clientId] = socket` or `clients.erase(clientId)`. */
    method UpdateClients(t: nat, ghost ok: bool)
      requires t < |threads| && threads[t].Updating?
      modifies this`clients, this`threads
      ensures View() == Apply(appServerName, old(View()), Step(t, ok))
    {
      var op := threads[t].op;
      match op {
        case AddClient(id, socket) => clients := clients[id := socket];
        case SetNotAvailable(id, _) => clients := clients - {id};
        case RemoveClient(id) => clients := clients - {id};
      }
      threads := threads[t := Unlocking(op, threads[t].ticket)];
    }

    method Clear(t: nat, ghost ok: bool)
      requires t < |threads| && threads[t].Unlocking?
      modifies this`clientMapLock, this`threads
      ensures View() == Apply(appServerName, old(View()), Step(t, ok))
    {
      clientMapLock := false;
      threads := threads[t := Writing(threads[t].op, threads[t].ticket)];
    }

    /** `insert_data` or `delete_data`; a failure is only logged. */
    method WriteDatabase(t: nat, ok: bool)
      requires t < |threads| && threads[t].Writing?
      modifies this`table, this`threads, this`writes
      ensures View() == Apply(appServerName, old(View()), Step(t, ok))
    {
      if ok {
        match threads[t].op {
          case AddClient(id, _) => table := table[id := appServerName];
          case SetNotAvailable(id, _) => table := table[id := NOT_AVAILABLE];
          case RemoveClient(id) => table := table - {id};
        }
      }
      writes := writes + [Write(threads[t].ticket, ok)];
      threads := threads[t := Idle];
    }

    method Execute(schedule: seq<Event>)
      modifies this
      ensures View() == Run(appServerName, old(View()), schedule)
    {
      for i := 0 to |schedule|
        invariant Run(appServerName, View(), schedule[i..]) == Run(appServerName, old(View()), schedule)
      {
        var e := schedule[i];
        assert schedule[i..][0] == e && schedule[i..][1..] == schedule[i + 1..];
        if e.thread < |threads| {
          match e {
            case Call(t, op) => if threads[t].Idle? { Call(t, op); }
            case Step(t, ok) => {
              match threads[t] {
                case Idle =>
                case Spinning(_) => TestAndSet(t, ok);
                case Updating(_, _) => UpdateClients(t, ok);
                case Unlocking(_, _) => Clear(t, ok);
                case Writing(_, _) => WriteDatabase(t, ok);
              }
            }
          }
        }
      }
    }
  }
}
