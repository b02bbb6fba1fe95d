/** Building the forwarded request: which client headers survive, and what the gateway sets itself.
    A request's fields are seen as Beast's `set` leaves them: one value per name, ignoring case. */
module Forwarding {
  import opened Decimal
  import opened HttpParser
  import opened HttpRoundTrip

  function LowerChar(c: char): char {
    if 'A' <= c <= 'Z' then (c as int + 32) as char else c
  }

  function Lower(s: string): string { seq(|s|, i requires 0 <= i < |s| => LowerChar(s[i])) }

  /** The same letter, in either case, or the same character. */
  predicate SameLetter(c: char, d: char) {
    || c == d
    || ('A' <= c <= 'Z' && d as int == c as int + 32)
    || ('A' <= d <= 'Z' && c as int == d as int + 32)
  }

  /** Lower-case names are equal exactly if the names are equal ignoring case. */
  lemma LowerIgnoresCase(s: string, t: string)
    ensures Lower(s) == Lower(t) <==> |s| == |t| && forall i | 0 <= i < |s| :: SameLetter(s[i], t[i])
  {
    if Lower(s) == Lower(t) {
      assert |s| == |Lower(s)| == |Lower(t)| == |t|;
      forall i | 0 <= i < |s| ensures SameLetter(s[i], t[i]) {
        assert LowerChar(s[i]) == Lower(s)[i] == Lower(t)[i] == LowerChar(t[i]);
      }
    }
  }

  /** Keyed by the lower-case name. */
  type FieldMap = map<string, string>

  function Set(fields: FieldMap, name: string, value: string): FieldMap { fields[Lower(name) := value] }

  /** No CR and no LF. */
  predicate Clean(s: string) { '\r' !in s && '\n' !in s }

  predicate Survives(headers: Headers, h: string) { h in headers && Clean(h) && Clean(headers[h]) }

  /** What the gateway adds: arrival time, client and upstream host. */
  datatype Stamp = Stamp(arrived: string, clientID: string, host: string)

  const ARRIVED := "X-Arrived-time"
  const CLIENT := "X-Client-ID"
  const HOST := "Host"

  /** The loop over the parsed headers, walked through in the given order. */
  function Forwarded(headers: Headers, order: seq<string>): FieldMap {
    if order == [] then map[]
    else
      var fields := Forwarded(headers, order[..|order| - 1]);
      var h := order[|order| - 1];
      if Survives(headers, h) then Set(fields, h, headers[h]) else fields
  }

  /** The names that the gateway sets after the loop. A body makes Beast set its length. */
  function Overridden(body: string): set<string> {
    {"x-arrived-time", "x-client-id", "host"} + (if body == "" then {} else {"content-length"})
  }

  function Stamped(fields: FieldMap, stamp: Stamp, body: string): FieldMap {
    var f := Set(Set(fields, ARRIVED, stamp.arrived), CLIENT, stamp.clientID);
    var g := if body == "" then f else Set(f, CONTENT_LENGTH, ToDecimal(|body|));
    Set(g, HOST, stamp.host)
  }

  /** The headers that are not among `remaining` have been walked through, each once. */
  predicate Walked(headers: Headers, order: seq<string>, remaining: set<string>) {
    && remaining <= headers.Keys
    && (forall h | h in order :: h in headers && h !in remaining)
    && (forall h | h in headers :: h in order || h in remaining)
    && (forall i, j | 0 <= i < j < |order| :: order[i] != order[j])
  }

  /** One way in which an unordered_map can be walked through. */
  predicate OrderOf(headers: Headers, order: seq<string>) { Walked(headers, order, {}) }

  lemma WalkOn(headers: Headers, order: seq<string>, remaining: set<string>, h: string)
    requires Walked(headers, order, remaining) && h in remaining
    ensures Walked(headers, order + [h], remaining - {h})
    ensures (order + [h])[..|order|] == order
  {
    assert forall i | 0 <= i < |order| :: order[i] in order;
  }

  /** The fields after the loop, in whichever order it went. */
  ghost predicate ForwardedSomehow(headers: Headers, fields: FieldMap) {
    exists order :: OrderOf(headers, order) && fields == Forwarded(headers, order)
  }

  method SetHeaders(headers: Headers) returns (fields: FieldMap)
    ensures ForwardedSomehow(headers, fields)
  {
    fields := map[];
    ghost var order := [];
    var remaining := headers.Keys;
    while remaining != {}
      invariant Walked(headers, order, remaining)
      invariant fields == Forwarded(headers, order)
      decreases |remaining|
    {
      var header :| header in remaining;
      WalkOn(headers, order, remaining, header);
      remaining := remaining - {header};
      order := order + [header];
      if Clean(header) && Clean(headers[header]) {
        fields := Set(fields, header, headers[header]);
      }
    }
    assert OrderOf(headers, order);
  }

  /** What the loop leaves, said without an order: a field for each name of a surviving header,
      with the value of one of them; the value of the last one, if the order is known. */
  lemma {:induction false} ForwardedIs(headers: Headers, order: seq<string>, key: string)
    requires forall h | h in order :: h in headers
    ensures var fields := Forwarded(headers, order);
            && (key in fields <==> exists h :: h in order && Survives(headers, h) && Lower(h) == key)
            && (key in fields ==>
                  exists h :: h in order && Survives(headers, h) && Lower(h) == key && fields[key] == headers[h])
  {
    if order != [] {
      var front, last := order[..|order| - 1], order[|order| - 1];
      assert order == front + [last];
      ForwardedIs(headers, front, key);
      var fields := Forwarded(headers, order);
      if Survives(headers, last) && Lower(last) == key {
        assert last in order && fields[key] == headers[last];
      } else if key in fields {
        var h :| h in front && Survives(headers, h) && Lower(h) == key && fields[key] == headers[h];
        assert h in order;
      }
    }
  }

  lemma LowerNames()
    ensures Lower(ARRIVED) == "x-arrived-time" && Lower(CLIENT) == "x-client-id" && Lower(HOST) == "host"
    ensures Lower(CONTENT_LENGTH) == "content-length"
  {
  }

  lemma StampedKeys(fields: FieldMap, stamp: Stamp, body: string)
    ensures Stamped(fields, stamp, body).Keys == fields.Keys + Overridden(body)
  {
    LowerNames();
  }

  /** The gateway's own fields replace what a client sent under these names, and touch no other. */
  lemma StampedIs(fields: FieldMap, stamp: Stamp, body: string)
    ensures var all := Stamped(fields, stamp, body);
            && all.Keys == fields.Keys + Overridden(body)
            && all["x-arrived-time"] == stamp.arrived
            && all["x-client-id"] == stamp.clientID
            && all["host"] == stamp.host
            && (body != "" ==> all["content-length"] == ToDecimal(|body|))
            && forall key | key in fields && key !in Overridden(body) :: all[key] == fields[key]
  {
    StampedKeys(fields, stamp, body);
    LowerNames();
    assert "x-arrived-time"[0] != "content-length"[0];
  }

  /** In whatever order the headers come, the forwarded fields are the gateway's own and one for
      each name of a surviving client header; none of the latter holds a CR or an LF. */
  lemma ForwardingIsSafe(headers: Headers, order: seq<string>, stamp: Stamp, body: string, key: string)
    requires OrderOf(headers, order) && key !in Overridden(body)
    ensures var fields := Stamped(Forwarded(headers, order), stamp, body);
            && (key in fields <==> exists h :: Survives(headers, h) && Lower(h) == key)
            && (key in fields ==>
                  && '\r' !in key && '\n' !in key && '\r' !in fields[key] && '\n' !in fields[key]
                  && exists h :: Survives(headers, h) && Lower(h) == key && fields[key] == headers[h])
  {
    var loop := Forwarded(headers, order);
    StampedIs(loop, stamp, body);
    ForwardedIs(headers, order, key);
    if key in loop {
      var h :| h in order && Survives(headers, h) && Lower(h) == key && loop[key] == headers[h];
      LowerKeepsClean(h);
    }
  }

  lemma LowerKeepsClean(s: string)
    requires Clean(s)
    ensures Clean(Lower(s))
  {
    forall i | 0 <= i < |s| ensures Lower(s)[i] != '\r' && Lower(s)[i] != '\n' {
      assert s[i] in s;
    }
  }

  /** Surviving headers whose names differ in case only agree on the value, unless the gateway
      sets the field anyway. Headers with names that are distinct ignoring case are an instance. */
  predicate NoClash(headers: Headers, body: string) {
    forall g, h | g in headers && h in headers ::
      Survives(headers, g) && Survives(headers, h) && Lower(g) == Lower(h) && Lower(g) !in Overridden(body)
      ==> headers[g] == headers[h]
  }

  ghost predicate SameForEveryOrder(headers: Headers, stamp: Stamp, body: string) {
    forall o, p | OrderOf(headers, o) && OrderOf(headers, p) ::
      Stamped(Forwarded(headers, o), stamp, body) == Stamped(Forwarded(headers, p), stamp, body)
  }

  /** The forwarded fields do not depend on the hash map's order exactly when no headers clash. */
  lemma OrderIrrelevant(headers: Headers, stamp: Stamp, body: string)
    ensures SameForEveryOrder(headers, stamp, body) <==> NoClash(headers, body)
  {
    if NoClash(headers, body) {
      forall o, p | OrderOf(headers, o) && OrderOf(headers, p)
        ensures Stamped(Forwarded(headers, o), stamp, body) == Stamped(Forwarded(headers, p), stamp, body)
      {
        SameFields(headers, o, p, stamp, body);
      }
    } else {
      var g, h :| g in headers && h in headers
                  && Survives(headers, g) && Survives(headers, h) && Lower(g) == Lower(h)
                  && Lower(g) !in Overridden(body) && headers[g] != headers[h];
      var o := OrderEndingIn(headers, g);
      var p := OrderEndingIn(headers, h);
      StampedIs(Forwarded(headers, o), stamp, body);
      StampedIs(Forwarded(headers, p), stamp, body);
      assert Stamped(Forwarded(headers, o), stamp, body)[Lower(g)] == headers[g];
      assert Stamped(Forwarded(headers, p), stamp, body)[Lower(g)] == headers[h];
    }
  }

  lemma SameFields(headers: Headers, o: seq<string>, p: seq<string>, stamp: Stamp, body: string)
    requires NoClash(headers, body) && OrderOf(headers, o) && OrderOf(headers, p)
    ensures Stamped(Forwarded(headers, o), stamp, body) == Stamped(Forwarded(headers, p), stamp, body)
  {
    var f, g := Forwarded(headers, o), Forwarded(headers, p);
    forall key | key !in Overridden(body)
      ensures key in f <==> key in g
      ensures key in f ==> f[key] == g[key]
    {
      ForwardedIs(headers, o, key);
      ForwardedIs(headers, p, key);
    }
    SameOverridden(f, g, stamp, body);
  }

  lemma SameOverridden(f: FieldMap, g: FieldMap, stamp: Stamp, body: string)
    requires f.Keys - Overridden(body) == g.Keys - Overridden(body)
    requires forall key | key in f && key in g && key !in Overridden(body) :: f[key] == g[key]
    ensures Stamped(f, stamp, body) == Stamped(g, stamp, body)
  {
    StampedIs(f, stamp, body);
    StampedIs(g, stamp, body);
    var x, y := Stamped(f, stamp, body), Stamped(g, stamp, body);
    assert x.Keys == (f.Keys - Overridden(body)) + Overridden(body);
    assert y.Keys == (g.Keys - Overridden(body)) + Overridden(body);
    forall key | key in x.Keys ensures x[key] == y[key] {
      if key !in Overridden(body) {
        assert key in f.Keys - Overridden(body);
      }
    }
  }

  /** Some walk through the map ends with the given header. */
  lemma OrderEndingIn(headers: Headers, last: string) returns (order: seq<string>)
    requires last in headers
    ensures OrderOf(headers, order) && order != [] && order[|order| - 1] == last
  {
    var front := Enumerate(headers.Keys - {last});
    order := front + [last];
  }

  lemma {:induction false} Enumerate(names: set<string>) returns (order: seq<string>)
    ensures forall h :: h in order <==> h in names
    ensures forall i, j | 0 <= i < j < |order| :: order[i] != order[j]
    decreases |names|
  {
    order := [];
    if names != {} {
      var h :| h in names;
      var rest := Enumerate(names - {h});
      order := rest + [h];
    }
  }

  /** No surviving header of this name, ignoring case, has another value. */
  predicate Unopposed(headers: Headers, name: string, value: string) {
    forall h | h in headers && Survives(headers, h) && Lower(h) == Lower(name) :: headers[h] == value
  }

  /** The name of a clean client field that is not the gateway's arrives upstream, and if no other
      header competes with it, with its first value, whatever else there is. */
  lemma HeaderArrives(m: ClientRequest, order: seq<string>, stamp: Stamp, i: nat)
    requires i < |m.fields| && FirstAt(m.fields, m.fields[i].name, i)
    requires OrderOf(FirstWins(map[], m.fields), order)
    requires '\r' !in m.fields[i].name && '\n' !in m.fields[i].name
    requires '\r' !in m.fields[i].value && '\n' !in m.fields[i].value
    requires Lower(m.fields[i].name) !in Overridden(m.body)
    ensures var fields := Stamped(Forwarded(FirstWins(map[], m.fields), order), stamp, m.body);
            && Lower(m.fields[i].name) in fields
            && (Unopposed(FirstWins(map[], m.fields), m.fields[i].name, m.fields[i].value) ==>
                  fields[Lower(m.fields[i].name)] == m.fields[i].value)
  {
    var name := m.fields[i].name;
    var headers := FirstWins(map[], m.fields);
    FirstWinsIs(map[], m.fields, name);
    assert Survives(headers, name);
    ForwardingIsSafe(headers, order, stamp, m.body, Lower(name));
  }

  /** A request without headers and body: the bogus header that the parser makes of the blank line
      does not survive, so that only the gateway's own fields are sent. */
  lemma BareRequestIsStampedOnly(m: ClientRequest, order: seq<string>, stamp: Stamp)
    requires WellFormed(m) && m.fields == [] && m.body == ""
    requires OrderOf(map["\r" := ""], order)
    ensures var headers := map["\r" := ""];
            && ParseRequest(PrintRequest(m)) == Ok(Request(m.verb, m.target, m.version, headers, ""))
            && Stamped(Forwarded(headers, order), stamp, "").Keys == Overridden("")
  {
    BlankLineBecomesHeader(m);
    NothingSurvives(order, stamp);
  }

  lemma NothingSurvives(order: seq<string>, stamp: Stamp)
    requires OrderOf(map["\r" := ""], order)
    ensures Stamped(Forwarded(map["\r" := ""], order), stamp, "").Keys == Overridden("")
  {
    var headers := map["\r" := ""];
    forall key ensures key !in Forwarded(headers, order) {
      ForwardedIs(headers, order, key);
      assert "\r"[0] == '\r';
    }
    StampedIs(Forwarded(headers, order), stamp, "");
  }
}
