/** From one client of the signaling server to another: what is forwarded, and what arrives. */
module SignalingDelivery {
  import opened Common
  import opened Signaling
  import opened SignalingClient
  import opened SignalingServer

  // ---------- trimming ----------

  lemma {:induction false} TrimLeftAt(s: string, i: nat) returns (k: nat)
    requires i < |s| && !IsWhite(s[i])
    ensures k <= i && TrimLeft(s) == s[k..]
  {
    k := 0;
    if IsWhite(s[0]) {
      var k' := TrimLeftAt(s[1..], i - 1);
      k := k' + 1;
    }
  }

  lemma {:induction false} TrimRightAt(s: string, j: nat) returns (k: nat)
    requires j < |s| && !IsWhite(s[j])
    ensures j < k <= |s| && TrimRight(s) == s[..k]
  {
    k := |s|;
    if IsWhite(s[|s| - 1]) {
      k := TrimRightAt(s[..|s| - 1], j);
    }
  }

  /** Trimming keeps what lies between two characters that are not white space. */
  lemma TrimKeeps(s: string, i: nat, at: nat, j: nat)
    requires i <= at <= j < |s| && !IsWhite(s[i]) && !IsWhite(s[j])
    ensures s[at] in TrimSpace(s)
  {
    var k := TrimLeftAt(s, i);
    var t := TrimLeft(s);
    var m := TrimRightAt(t, j - k);
    assert TrimSpace(s)[at - k] == s[at];
  }

  lemma {:induction false} TrimLeftPart(s: string) returns (k: nat)
    ensures k <= |s| && TrimLeft(s) == s[k..]
  {
    k := 0;
    if s != "" && IsWhite(s[0]) {
      var k' := TrimLeftPart(s[1..]);
      k := k' + 1;
    }
  }

  lemma {:induction false} TrimRightPart(s: string) returns (k: nat)
    ensures k <= |s| && TrimRight(s) == s[..k]
    ensures s != "" && IsWhite(s[|s| - 1]) ==> k < |s|
  {
    k := |s|;
    if s != "" && IsWhite(s[|s| - 1]) {
      k := TrimRightPart(s[..|s| - 1]);
    }
  }

  lemma TrimLacks(s: string, c: char)
    requires NoChar(s, c)
    ensures NoChar(TrimSpace(s), c)
  {
    var k := TrimLeftPart(s);
    var m := TrimRightPart(TrimLeft(s));
  }

  lemma TrimmedLine(s: string)
    requires OneLine(s)
    ensures NoChar(TrimSpace(s), '\n')
  {
    var k := TrimLeftPart(s);
    var t := TrimLeft(s);
    var m := TrimRightPart(t);
    assert t != "" ==> t[|t| - 1] == '\n';
    assert forall i :: 0 <= i < |t| - 1 ==> t[i] == s[..|s| - 1][k + i];
  }

  // ---------- what is forwarded ----------

  /** What reading up to a line feed can give; less than a line only if the connection ends there. */
  ghost predicate AsRead(e: Event) {
    match e
    case Entered(_, intro, complete) => if complete then OneLine(intro) else NoChar(intro, '\n')
    case Sent(_, line) => OneLine(line)
    case Left(_) => true
  }

  ghost predicate AllAsRead(history: seq<Event>) {
    forall e :: e in history ==> AsRead(e)
  }

  /** The name a connection has entered under. */
  function NameOf(history: seq<Event>, c: Conn): string {
    if history == [] then ""
    else
      var e := history[|history| - 1];
      if e.Entered? && e.conn == c then TrimSpace(e.intro) else NameOf(history[..|history| - 1], c)
  }

  predicate GreetedBy(e: Event, c: Conn) {
    e.Entered? && e.conn == c && e.complete
  }

  /** The connection has given its name in full. */
  ghost predicate Greeted(history: seq<Event>, c: Conn) {
    exists e :: e in history && GreetedBy(e, c)
  }

  /** The line forwarded to `c` on an event: sent to a name under which `c` is the newest. */
  ghost function ForwardedBy(history: seq<Event>, e: Event, c: Conn): seq<string> {
    if !e.Sent? || Parsed(e.line).None? then []
    else
      var (dest, payload) := Parsed(e.line).value;
      if Newest(history, dest, c) && Greeted(history, c) then [NameOf(history, e.conn) + " " + payload] else []
  }

  ghost function Forwarded(history: seq<Event>, c: Conn): seq<string> {
    if history == [] then []
    else
      var before, e := history[..|history| - 1], history[|history| - 1];
      Forwarded(before, c) + ForwardedBy(before, e, c)
  }

  lemma GreetedStep(history: seq<Event>, e: Event, c: Conn)
    ensures Greeted(history + [e], c) <==> Greeted(history, c) || GreetedBy(e, c)
  {
    assert e in history + [e];
    if Greeted(history, c) {
      var g :| g in history && GreetedBy(g, c);
      assert g in history + [e];
    }
  }

  lemma NameStep(history: seq<Event>, e: Event, c: Conn)
    ensures NameOf(history + [e], c) == if e.Entered? && e.conn == c then TrimSpace(e.intro) else NameOf(history, c)
  {
    assert (history + [e])[..|history|] == history;
  }

  /** What the state knows of a run, beside which connection holds which name. */
  ghost predicate Tracked(history: seq<Event>, s: State) {
    && (forall c :: c in s.names ==> s.names[c] == NameOf(history, c))
    && (forall c :: c in s.closed || Greeted(history, c) ==> c in s.names)
    && (forall name :: name in s.clients ==> (s.clients[name] in s.closed <==> !Greeted(history, s.clients[name])))
  }

  lemma TrackedStep(history: seq<Event>, s: State, e: Event)
    requires Consistent(s) && Tracked(history, s) && ProperEvent(s, e)
    ensures Tracked(history + [e], AfterEvent(s, e))
  {
    forall c ensures Greeted(history + [e], c) <==> Greeted(history, c) || GreetedBy(e, c) {
      GreetedStep(history, e, c);
    }
    forall c
      ensures NameOf(history + [e], c) == if e.Entered? && e.conn == c then TrimSpace(e.intro) else NameOf(history, c)
    {
      NameStep(history, e, c);
    }
  }

  lemma WrittenStep(history: seq<Event>, s: State, e: Event, c: Conn)
    requires Tracked(history, s) && ProperEvent(s, e)
    requires forall name :: Holds(s, name, c) <==> Newest(history, name, c)
    ensures Written(AfterEvent(s, e), c) == Written(s, c) + Joined(ForwardedBy(history, e, c))
  {
    if e.Sent? && Parsed(e.line).Some? {
      var (dest, payload) := Parsed(e.line).value;
      assert Holds(s, dest, c) <==> Newest(history, dest, c);
      var line := NameOf(history, e.conn) + " " + payload;
      assert Joined([line]) == line;
    }
  }

  lemma JoinedAppend(a: seq<string>, b: seq<string>)
    requires |b| <= 1
    ensures Joined(a + b) == Joined(a) + Joined(b)
  {
    if b == [] {
      assert a + b == a;
    } else {
      assert (a + b)[..|a|] == a && Joined(b) == b[0];
    }
  }

  /** In every run the text written to a connection is what was forwarded to it, line by line. */
  lemma {:induction false} WrittenIsForwarded(history: seq<Event>, c: Conn)
    requires AfterAll(history).Some?
    ensures Tracked(history, AfterAll(history).value)
    ensures Written(AfterAll(history).value, c) == Joined(Forwarded(history, c))
  {
    if history != [] {
      var before, e := history[..|history| - 1], history[|history| - 1];
      var s := AfterAll(before).value;
      assert history == before + [e];
      WrittenIsForwarded(before, c);
      RunConsistent(before);
      TrackedStep(before, s, e);
      forall name ensures Holds(s, name, c) <==> Newest(before, name, c) {
        RoutedToNewest(before, name, c);
      }
      WrittenStep(before, s, e, c);
      JoinedAppend(Forwarded(before, c), ForwardedBy(before, e, c));
    }
  }

  // ---------- what arrives ----------

  function WithoutEnd(line: string): string {
    if line == "" then "" else line[..|line| - 1]
  }

  /** The payloads of a list of lines; lines without one are skipped. */
  function Payloads(lines: seq<string>): seq<Bytes> {
    if lines == [] then []
    else Payloads(lines[..|lines| - 1]) + AsList(Payload(WithoutEnd(lines[|lines| - 1])))
  }

  ghost predicate AllLines(lines: seq<string>) {
    forall i :: 0 <= i < |lines| ==> OneLine(lines[i])
  }

  lemma DispatchedLine(line: string)
    requires OneLine(line)
    ensures Dispatched(line) == AsList(Payload(WithoutEnd(line))) && Leftover(line) == ""
  {
    FindAt(line, '\n', |line| - 1);
    assert line[|line| - 1 + 1..] == "";
    NothingBuffered();
  }

  lemma {:induction false} DispatchedLines(lines: seq<string>)
    requires AllLines(lines)
    ensures Dispatched(Joined(lines)) == Payloads(lines) && Leftover(Joined(lines)) == ""
  {
    if lines != [] {
      var before, line := lines[..|lines| - 1], lines[|lines| - 1];
      DispatchedLines(before);
      DispatchedAppend(Joined(before), line);
      assert "" + line == line;
      DispatchedLine(line);
    }
  }

  lemma {:induction false} NameIsPlain(history: seq<Event>, c: Conn)
    requires AllAsRead(history)
    ensures NoChar(NameOf(history, c), '\n')
  {
    if history != [] {
      var before, e := history[..|history| - 1], history[|history| - 1];
      assert AsRead(e);
      if e.Entered? && e.conn == c {
        if e.complete {
          TrimmedLine(e.intro);
        } else {
          TrimLacks(e.intro, '\n');
        }
      } else {
        NameIsPlain(before, c);
      }
    }
  }

  lemma ForwardedLine(name: string, line: string)
    requires NoChar(name, '\n') && OneLine(line) && Parsed(line).Some?
    ensures OneLine(name + " " + Parsed(line).value.1)
  {
    var spc := Find(line, ' ').value;
    var payload := line[spc + 1..];
    assert payload[|payload| - 1] == '\n';
    assert forall i :: 0 <= i < |payload| - 1 ==> payload[i] == line[..|line| - 1][spc + 1 + i];
    var r := name + " " + payload;
    assert r[..|r| - 1] == name + " " + payload[..|payload| - 1];
  }

  lemma {:induction false} ForwardedLines(history: seq<Event>, c: Conn)
    requires AllAsRead(history)
    ensures AllLines(Forwarded(history, c))
  {
    if history != [] {
      var before, e := history[..|history| - 1], history[|history| - 1];
      ForwardedLines(before, c);
      if e.Sent? && Parsed(e.line).Some? {
        assert AsRead(e);
        NameIsPlain(before, e.conn);
        ForwardedLine(NameOf(before, e.conn), e.line);
      }
    }
  }

  /**
   * In every run, however much of the text written to a connection has arrived and in whatever
   * pieces, the client there has handed on the first of the payloads forwarded to it, in order.
   */
  lemma ArrivesInOrder(history: seq<Event>, c: Conn, chunks: seq<string>, rest: string)
    requires AfterAll(history).Some? && AllAsRead(history)
    requires Written(AfterAll(history).value, c) == Joined(chunks) + rest
    ensures AfterChunks(chunks).0 <= Payloads(Forwarded(history, c))
    ensures rest == "" ==> AfterChunks(chunks) == (Payloads(Forwarded(history, c)), "")
  {
    var arrived := Joined(chunks);
    WrittenIsForwarded(history, c);
    ForwardedLines(history, c);
    DispatchedLines(Forwarded(history, c));
    ChunkingIrrelevant(chunks);
    DispatchedAppend(arrived, rest);
    assert rest == "" ==> arrived + rest == arrived;
  }

  // ---------- names with spaces ----------

  lemma DestinationLacksSpace(line: string)
    requires Parsed(line).Some?
    ensures NoChar(Parsed(line).value.0, ' ')
  {
    TrimLacks(line[..Find(line, ' ').value], ' ');
  }

  /** A connection whose name holds a space is never sent anything. */
  lemma {:induction false} SpacedNameUnreachable(history: seq<Event>, c: Conn)
    requires AfterAll(history).Some?
    ensures Forwarded(history, c) != [] ==> c in AfterAll(history).value.names && NoChar(NameOf(history, c), ' ')
  {
    if history != [] {
      var before, e := history[..|history| - 1], history[|history| - 1];
      assert history == before + [e];
      var s := AfterAll(before).value;
      SpacedNameUnreachable(before, c);
      NameStep(before, e, c);
      if ForwardedBy(before, e, c) != [] {
        var dest := Parsed(e.line).value.0;
        DestinationLacksSpace(e.line);
        RoutedToNewest(before, dest, c);
        RunConsistent(before);
        WrittenIsForwarded(before, c);
      }
    }
  }

  // ---------- signals ----------

  /** What the clients do: connect under a name, perhaps cut off, send a message to a peer, disconnect. */
  datatype Act =
    | Connects(conn: Conn, name: string, complete: bool)
    | Signals(conn: Conn, peer: string, msg: Bytes)
    | Disconnects(conn: Conn)

  function EventOf(a: Act): Event {
    match a
    case Connects(c, name, complete) => Entered(c, if complete then name + "\n" else name, complete)
    case Signals(c, peer, msg) => Sent(c, SignalText(peer, msg))
    case Disconnects(c) => Left(c)
  }

  function Events(acts: seq<Act>): (r: seq<Event>)
    ensures |r| == |acts|
  {
    seq(|acts|, i requires 0 <= i < |acts| => EventOf(acts[i]))
  }

  /** Names hold no space, as the protocol demands, and no line feed. */
  ghost predicate PlainAct(a: Act) {
    match a
    case Connects(_, name, _) => OneWord(name)
    case Signals(_, peer, _) => OneWord(peer)
    case Disconnects(_) => true
  }

  ghost predicate Plain(acts: seq<Act>) {
    forall a :: a in acts ==> PlainAct(a)
  }

  /** The messages meant for connection `c`: sent to a name while `c` is the newest under it. */
  ghost function MessagesFor(acts: seq<Act>, c: Conn): seq<Bytes> {
    if acts == [] then []
    else
      var before, a := acts[..|acts| - 1], acts[|acts| - 1];
      MessagesFor(before, c)
      + if a.Signals? && Newest(Events(before), TrimSpace(a.peer), c) && Greeted(Events(before), c) then [a.msg] else []
  }

  lemma EventsAppend(acts: seq<Act>, a: Act)
    ensures Events(acts + [a]) == Events(acts) + [EventOf(a)]
  {
  }

  lemma SignalIsOneLine(peer: string, msg: Bytes)
    requires OneWord(peer)
    ensures OneLine(SignalText(peer, msg))
  {
    HexTextPlain(msg);
  }

  lemma ParsedSignal(peer: string, msg: Bytes)
    requires OneWord(peer)
    ensures Parsed(SignalText(peer, msg)) == Some((TrimSpace(peer), HexText(msg) + "\n"))
  {
    var line := SignalText(peer, msg);
    FindAt(line, ' ', |peer|);
    assert line[..|peer|] == peer && line[|peer| + 1..] == HexText(msg) + "\n";
  }

  lemma PlainAsRead(a: Act)
    requires PlainAct(a)
    ensures AsRead(EventOf(a))
  {
    if a.Signals? {
      SignalIsOneLine(a.peer, a.msg);
    }
  }

  lemma AllPlainAsRead(acts: seq<Act>)
    requires Plain(acts)
    ensures AllAsRead(Events(acts))
  {
    forall e | e in Events(acts) ensures AsRead(e) {
      var i :| 0 <= i < |acts| && Events(acts)[i] == e;
      PlainAsRead(acts[i]);
    }
  }

  /** Names that clients give in plain acts are single words after trimming. */
  lemma {:induction false} PlainName(acts: seq<Act>, c: Conn)
    requires Plain(acts)
    ensures OneWord(NameOf(Events(acts), c))
  {
    AllPlainAsRead(acts);
    NameIsPlain(Events(acts), c);
    if acts != [] {
      var before, a := acts[..|acts| - 1], acts[|acts| - 1];
      assert acts == before + [a] && PlainAct(a);
      EventsAppend(before, a);
      NameStep(Events(before), EventOf(a), c);
      PlainName(before, c);
      if a.Connects? {
        TrimLacks(EventOf(a).intro, ' ');
      }
    }
  }

  lemma SignalForwarded(history: seq<Event>, a: Act, c: Conn)
    requires a.Signals? && OneWord(a.peer) && OneWord(NameOf(history, a.conn))
    ensures Payloads(ForwardedBy(history, EventOf(a), c))
         == if Newest(history, TrimSpace(a.peer), c) && Greeted(history, c) then [a.msg] else []
  {
    ParsedSignal(a.peer, a.msg);
    var name := NameOf(history, a.conn);
    var line := name + " " + (HexText(a.msg) + "\n");
    assert WithoutEnd(line) == name + " " + HexText(a.msg);
    PayloadOf(name, a.msg);
    assert [line][..0] == [] && Payloads([line]) == [] + [a.msg];
  }

  lemma PayloadsAppend(a: seq<string>, b: seq<string>)
    requires |b| <= 1
    ensures Payloads(a + b) == Payloads(a) + Payloads(b)
  {
    if b == [] {
      assert a + b == a;
    } else {
      assert (a + b)[..|a|] == a && b[..0] == [];
    }
  }

  /** In plain runs the payloads forwarded to a connection are exactly the messages meant for it. */
  lemma {:induction false} Faithful(acts: seq<Act>, c: Conn)
    requires Plain(acts)
    ensures Payloads(Forwarded(Events(acts), c)) == MessagesFor(acts, c)
  {
    if acts != [] {
      var before, a := acts[..|acts| - 1], acts[|acts| - 1];
      assert acts == before + [a] && PlainAct(a);
      EventsAppend(before, a);
      var history := Events(before);
      assert (history + [EventOf(a)])[..|history|] == history;
      Faithful(before, c);
      PayloadsAppend(Forwarded(history, c), ForwardedBy(history, EventOf(a), c));
      if a.Signals? {
        PlainName(before, a.conn);
        SignalForwarded(history, a, c);
      }
    }
  }
}
