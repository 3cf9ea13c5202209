/** The signaling server: which connection holds which name, and the forwarding of lines. */
module SignalingServer {
  import opened Common
  import opened Signaling

  type Conn = nat

  // ---------- text ----------

  predicate IsWhite(c: char) {
    var n := c as int;
    9 <= n <= 13 || n == 0x20 || n == 0x85 || n == 0xA0 || n == 0x1680 || 0x2000 <= n <= 0x200A
    || n == 0x2028 || n == 0x2029 || n == 0x202F || n == 0x205F || n == 0x3000
  }

  /** White space: that of Latin-1, the spaces of other widths and the separators of lines and paragraphs. */
  lemma WhiteIff(c: char)
    ensures c as int < 0x100 ==> (IsWhite(c) <==> c in " \t\n\r" || c as int in {0xB, 0xC, 0x85, 0xA0})
    ensures c as int >= 0x100 ==>
      (IsWhite(c) <==> 0x2000 <= c as int <= 0x200A || c as int in {0x1680, 0x2028, 0x2029, 0x202F, 0x205F, 0x3000})
  {
  }

  function TrimLeft(s: string): string {
    if s != "" && IsWhite(s[0]) then TrimLeft(s[1..]) else s
  }

  function TrimRight(s: string): string {
    if s != "" && IsWhite(s[|s| - 1]) then TrimRight(s[..|s| - 1]) else s
  }

  function TrimSpace(s: string): string {
    TrimRight(TrimLeft(s))
  }

  /** The complete lines of a stream, each with its end. */
  function Lines(stream: string): seq<string> {
    match Find(stream, '\n')
    case None => []
    case Some(l) => [stream[..l + 1]] + Lines(stream[l + 1..])
  }

  ghost predicate OneLine(s: string) {
    s != "" && s[|s| - 1] == '\n' && NoChar(s[..|s| - 1], '\n')
  }

  lemma {:induction false} LinesAppend(a: string, line: string)
    requires OneLine(line) && Leftover(a) == ""
    ensures Lines(a + line) == Lines(a) + [line] && Leftover(a + line) == ""
    decreases |a|
  {
    match Find(a, '\n')
    case None =>
      assert a + line == line;
      FindAt(line, '\n', |line| - 1);
      assert line[..|line| - 1 + 1] == line && line[|line|..] == "";
    case Some(l) =>
      FindAppend(a, line, '\n');
      assert (a + line)[..l + 1] == a[..l + 1] && (a + line)[l + 1..] == a[l + 1..] + line;
      LinesAppend(a[l + 1..], line);
      Associative([a[..l + 1]], Lines(a[l + 1..]), [line]);
  }

  /** The lines one side sends are the lines the other side reads. */
  lemma {:induction false} LinesOfSent(sent: seq<string>)
    requires forall i :: 0 <= i < |sent| ==> OneLine(sent[i])
    ensures Lines(Joined(sent)) == sent && Leftover(Joined(sent)) == ""
  {
    if sent != [] {
      var before, last := sent[..|sent| - 1], sent[|sent| - 1];
      LinesOfSent(before);
      LinesAppend(Joined(before), last);
      assert sent == before + [last];
    }
  }

  // ---------- steps ----------

  /** What happens to the server: a connection gives its name, sends a line, or ends. */
  datatype Event =
    | Entered(conn: Conn, intro: string, complete: bool)
    | Sent(conn: Conn, line: string)
    | Left(conn: Conn)

  datatype State = State(
    clients: map<string, Conn>,
    names: map<Conn, string>,
    closed: set<Conn>,
    written: map<Conn, string>)

  const EMPTY := State(map[], map[], {}, map[])

  function Written(s: State, c: Conn): string {
    if c in s.written then s.written[c] else ""
  }

  function AfterJoin(s: State, c: Conn, intro: string, complete: bool): State {
    var name := TrimSpace(intro);
    var closed := if complete then s.closed else s.closed + {c};
    State(s.clients[name := c], s.names[c := name],
          if name in s.clients then closed + {s.clients[name]} else closed, s.written)
  }

  /** What a line asks for: a destination and the rest of the line, end included. */
  function Parsed(line: string): Option<(string, string)> {
    match Find(line, ' ')
    case None => None
    case Some(spc) => Some((TrimSpace(line[..spc]), line[spc + 1..]))
  }

  function AfterLine(s: State, c: Conn, line: string): State
    requires c in s.names
  {
    match Parsed(line)
    case None => s
    case Some((dest, payload)) =>
      if dest !in s.clients || s.clients[dest] in s.closed then s
      else
        var to := s.clients[dest];
        s.(written := s.written[to := Written(s, to) + (s.names[c] + " " + payload)])
  }

  function AfterLeave(s: State, c: Conn): State
    requires c in s.names
  {
    var name := s.names[c];
    s.(closed := s.closed + {c},
       clients := if name in s.clients && s.clients[name] == c then s.clients - {name} else s.clients)
  }

  class Server {
    var clients: map<string, Conn>
    // What each connection's service routine knows, and what became of the connections.
    var names: map<Conn, string>
    var closed: set<Conn>
    var written: map<Conn, string>

    function Now(): State
      reads this
    {
      State(clients, names, closed, written)
    }

    constructor ()
      ensures Now() == EMPTY
    {
      clients, names, closed, written := map[], map[], {}, map[];
    }

    /** A connection's first line, or what there is of it when the connection ends too early. */
    method Join(conn: Conn, intro: string, complete: bool)
      modifies this
      ensures Now() == AfterJoin(old(Now()), conn, intro, complete)
    {
      if !complete {
        closed := closed + {conn};
      }
      var identity := TrimSpace(intro);
      names := names[conn := identity];
      var existing: Option<Conn> := if identity in clients then Some(clients[identity]) else None;
      clients := clients[identity := conn];
      if existing.Some? {
        closed := closed + {existing.value};
      }
      assert Now().closed == AfterJoin(old(Now()), conn, intro, complete).closed;
    }

    method HandleLine(conn: Conn, line: string)
      requires conn in names
      modifies this`written
      ensures Now() == AfterLine(old(Now()), conn, line)
    {
      var spc := Find(line, ' ');
      if spc.None? {
        return;
      }
      var dest := TrimSpace(line[..spc.value]);
      var payload := line[spc.value + 1..];
      if dest !in clients {
        return;
      }
      var to := clients[dest];
      var msg := names[conn] + " " + payload;
      if to !in closed {
        written := written[to := (if to in written then written[to] else "") + msg];
      }
    }

    method Leave(conn: Conn)
      requires conn in names
      modifies this`clients, this`closed
      ensures Now() == AfterLeave(old(Now()), conn)
    {
      closed := closed + {conn};
      if names[conn] in clients && clients[names[conn]] == conn {
        clients := clients - {names[conn]};
      }
    }
  }

  // ---------- runs ----------

  /** A connection enters once, before it sends anything or leaves. */
  predicate ProperEvent(s: State, e: Event) {
    if e.Entered? then e.conn !in s.names else e.conn in s.names
  }

  function AfterEvent(s: State, e: Event): State
    requires ProperEvent(s, e)
  {
    match e
    case Entered(c, intro, complete) => AfterJoin(s, c, intro, complete)
    case Sent(c, line) => AfterLine(s, c, line)
    case Left(c) => AfterLeave(s, c)
  }

  /** The state after a run; `None` if it is not a proper one. */
  function AfterAll(history: seq<Event>): Option<State> {
    if history == [] then Some(EMPTY)
    else
      var e := history[|history| - 1];
      match AfterAll(history[..|history| - 1])
      case None => None
      case Some(s) => if ProperEvent(s, e) then Some(AfterEvent(s, e)) else None
  }

  predicate EntersAs(e: Event, name: string) {
    e.Entered? && TrimSpace(e.intro) == name
  }

  /** `c` was the last to enter under the name, and has not left since. */
  ghost predicate Newest(history: seq<Event>, name: string, c: Conn) {
    exists i :: 0 <= i < |history| && NewestAt(history, name, c, i)
  }

  ghost predicate NewestAt(history: seq<Event>, name: string, c: Conn, i: nat)
    requires i < |history|
  {
    && EntersAs(history[i], name) && history[i].conn == c
    && forall j :: i < j < |history| ==> !EntersAs(history[j], name) && history[j] != Left(c)
  }

  predicate Holds(s: State, name: string, c: Conn) {
    name in s.clients && s.clients[name] == c
  }

  /** Who is newest after one more event. */
  function HoldsNext(held: bool, e: Event, name: string, c: Conn): bool {
    if EntersAs(e, name) then e.conn == c else held && e != Left(c)
  }

  lemma NewestStep(history: seq<Event>, e: Event, name: string, c: Conn)
    ensures Newest(history + [e], name, c) <==> HoldsNext(Newest(history, name, c), e, name, c)
  {
    var all := history + [e];
    var n := |history|;
    assert all[n] == e;
    if EntersAs(e, name) {
      forall i | 0 <= i < n ensures !NewestAt(all, name, c, i) {
        assert EntersAs(all[n], name);
      }
      if e.conn == c {
        assert NewestAt(all, name, c, n);
      }
    } else {
      forall i | 0 <= i < n
        ensures NewestAt(all, name, c, i) <==> NewestAt(history, name, c, i) && e != Left(c)
      {
        assert all[i] == history[i];
        assert forall j :: i < j < n ==> all[j] == history[j];
      }
    }
  }

  /** Every name is held by a connection that entered under it; a connection that holds none is closed. */
  ghost predicate Consistent(s: State) {
    && (forall name :: name in s.clients ==> s.clients[name] in s.names && s.names[s.clients[name]] == name)
    && (forall c :: c in s.names ==> c in s.closed || Holds(s, s.names[c], c))
  }

  lemma ConsistentStep(s: State, e: Event)
    requires Consistent(s) && ProperEvent(s, e)
    ensures Consistent(AfterEvent(s, e))
  {
  }

  lemma HoldsStep(s: State, e: Event, name: string, c: Conn)
    requires Consistent(s) && ProperEvent(s, e)
    ensures Holds(AfterEvent(s, e), name, c) <==> HoldsNext(Holds(s, name, c), e, name, c)
  {
  }

  lemma {:induction false} RunConsistent(history: seq<Event>)
    requires AfterAll(history).Some?
    ensures Consistent(AfterAll(history).value)
  {
    if history != [] {
      var before := history[..|history| - 1];
      RunConsistent(before);
      ConsistentStep(AfterAll(before).value, history[|history| - 1]);
    }
  }

  /**
   * In every run a name leads to the last connection that entered under it, unless that one has
   * left; a connection replaced by a newer one leaving later changes nothing.
   */
  lemma {:induction false} RoutedToNewest(history: seq<Event>, name: string, c: Conn)
    requires AfterAll(history).Some?
    ensures Holds(AfterAll(history).value, name, c) <==> Newest(history, name, c)
  {
    if history != [] {
      var before, e := history[..|history| - 1], history[|history| - 1];
      assert history == before + [e];
      RoutedToNewest(before, name, c);
      RunConsistent(before);
      HoldsStep(AfterAll(before).value, e, name, c);
      NewestStep(before, e, name, c);
    }
  }

  /** In every run a connection that has entered is the one its name leads to, or it is closed. */
  lemma ReplacedIsClosed(history: seq<Event>, c: Conn)
    requires AfterAll(history).Some?
    ensures var s := AfterAll(history).value;
      c in s.names ==> c in s.closed || Newest(history, s.names[c], c)
  {
    RunConsistent(history);
    var s := AfterAll(history).value;
    if c in s.names {
      RoutedToNewest(history, s.names[c], c);
    }
  }
}
