/** The clients and the server together: from what one client sends to what another hands on. */
module SignalingEndToEnd {
  import opened Common
  import opened Signaling
  import opened SignalingClient
  import opened SignalingServer
  import opened SignalingDelivery

  // ---------- what a client says ----------

  ghost predicate IsGreeting(line: string) {
    exists name :: OneWord(name) && line == name + "\n"
  }

  ghost predicate IsSignal(line: string) {
    exists peer, msg :: OneWord(peer) && line == SignalText(peer, msg)
  }

  /** A name first, then signals. */
  ghost predicate Spoken(lines: seq<string>) {
    forall i :: 0 <= i < |lines| ==> if i == 0 then IsGreeting(lines[0]) else IsSignal(lines[i])
  }

  lemma SpokenLines(lines: seq<string>)
    requires Spoken(lines)
    ensures AllLines(lines)
  {
    forall i | 0 <= i < |lines| ensures OneLine(lines[i]) {
      if i == 0 {
        var name :| OneWord(name) && lines[0] == name + "\n";
      } else {
        var peer, msg :| OneWord(peer) && lines[i] == SignalText(peer, msg);
        SignalIsOneLine(peer, msg);
      }
    }
  }

  lemma SubsequenceAt(a: seq<string>, b: seq<string>, i: nat) returns (j: nat)
    requires Subsequence(a, b) && i < |a|
    ensures i <= j < |b| && b[j] == a[i]
  {
    var at: seq<nat> :| Picks(a, b, at);
    PicksFurther(a, b, at, i);
    j := at[i];
  }

  /** What a client accounts for about one socket: now, or when it was closed. */
  datatype Socket = Socket(asked: seq<string>, sent: seq<string>, dropped: nat, queue: seq<string>)

  ghost function SocketOf(client: Client): Socket
    reads client
  {
    Socket(client.asked, client.sent, client.dropped, client.queue)
  }

  ghost predicate Balanced(s: Socket) {
    Accounted(s.asked, s.sent, s.dropped, s.queue)
  }

  lemma SentLines(s: Socket)
    requires Balanced(s) && AllLines(s.asked)
    ensures AllLines(s.sent)
  {
    var n := |s.asked| - |s.queue|;
    forall i | 0 <= i < |s.sent| ensures OneLine(s.sent[i]) {
      var j := SubsequenceAt(s.sent, s.asked[..n], i);
      assert s.asked[j] == s.sent[i];
    }
  }

  /** A client asked to send a greeting and then signals, whose greeting is not given up. */
  ghost predicate Speaks(s: Socket) {
    Spoken(s.asked) && (s.dropped > 0 && s.sent != [] ==> s.asked != [] && s.sent[0] == s.asked[0])
  }

  /** What such a client sends is just that. */
  lemma ClientSpeaks(s: Socket)
    requires Balanced(s) && Speaks(s)
    ensures Spoken(s.sent)
  {
    var n := |s.asked| - |s.queue|;
    if s.dropped == 0 {
      NoneDropped(s.asked, s.sent, s.queue);
    }
    forall i | 0 < i < |s.sent| ensures IsSignal(s.sent[i]) {
      var j := SubsequenceAt(s.sent, s.asked[..n], i);
      assert s.asked[j] == s.sent[i];
    }
  }

  // ---------- what the server reads ----------

  function LineIn(e: Event, c: Conn): seq<string> {
    match e
    case Entered(d, intro, complete) => if d == c && complete then [intro] else []
    case Sent(d, line) => if d == c then [line] else []
    case Left(_) => []
  }

  /** The lines the server has read from a connection, the name first. */
  function Handled(history: seq<Event>, c: Conn): seq<string> {
    if history == [] then []
    else Handled(history[..|history| - 1], c) + LineIn(history[|history| - 1], c)
  }

  predicate CutOffBy(e: Event, c: Conn) {
    e.Entered? && e.conn == c && !e.complete
  }

  /** What the server did about a connection was read from the text that has arrived on it. */
  ghost predicate ReadFrom(history: seq<Event>, c: Conn, text: string) {
    && Handled(history, c) <= Lines(text)
    && forall e :: e in history && CutOffBy(e, c) ==> e.intro == text && NoChar(text, '\n')
  }

  lemma ReadBefore(history: seq<Event>, e: Event, c: Conn, text: string)
    requires ReadFrom(history + [e], c, text)
    ensures ReadFrom(history, c, text) && Handled(history, c) + LineIn(e, c) <= Lines(text)
    ensures CutOffBy(e, c) ==> e.intro == text && NoChar(text, '\n')
  {
    assert (history + [e])[..|history|] == history;
    assert e in history + [e];
    forall f | f in history && CutOffBy(f, c) ensures f.intro == text && NoChar(text, '\n') {
      assert f in history + [e];
    }
  }

  lemma CutInFirst(a: string, b: string, n: nat)
    requires n <= |a|
    ensures (a + b)[..n] == a[..n] && (a + b)[n..] == a[n..] + b
  {
  }

  lemma {:induction false} LinesOfParts(a: string, b: string)
    ensures Lines(a + b) == Lines(a) + Lines(Leftover(a) + b)
    decreases |a|
  {
    match Find(a, '\n')
    case None =>
    case Some(l) =>
      FindAppend(a, b, '\n');
      CutInFirst(a, b, l + 1);
      LinesOfParts(a[l + 1..], b);
      Associative([a[..l + 1]], Lines(a[l + 1..]), Lines(Leftover(a[l + 1..]) + b));
  }

  /** The lines in a part of what was sent are the first of the lines sent. */
  lemma LinesArrived(sent: seq<string>, text: string)
    requires AllLines(sent) && text <= Joined(sent)
    ensures Lines(text) <= sent
  {
    var rest := Joined(sent)[|text|..];
    assert Joined(sent) == text + rest;
    LinesOfParts(text, rest);
    LinesOfSent(sent);
  }

  lemma {:induction false} JoinedStarts(lines: seq<string>)
    requires lines != []
    ensures lines[0] <= Joined(lines)
  {
    if |lines| > 1 {
      JoinedStarts(lines[..|lines| - 1]);
    }
  }

  lemma CutOffGreeting(lines: seq<string>, text: string)
    requires Spoken(lines) && text <= Joined(lines) && NoChar(text, '\n')
    ensures OneWord(text)
  {
    if lines != [] {
      var name :| OneWord(name) && lines[0] == name + "\n";
      JoinedStarts(lines);
      assert Joined(lines)[|name|] == '\n' && text == Joined(lines)[..|text|];
      assert |text| <= |name|;
      assert forall i :: 0 <= i < |text| ==> text[i] == name[i];
    }
  }

  /** A connection known to the server has given its name, or was cut off doing so. */
  lemma {:induction false} KnownHasSpoken(history: seq<Event>, c: Conn)
    requires AfterAll(history).Some?
    ensures c in AfterAll(history).value.names ==>
      Handled(history, c) != [] || exists e :: e in history && CutOffBy(e, c)
    ensures c !in AfterAll(history).value.names ==> Handled(history, c) == []
  {
    if history != [] {
      var before, e := history[..|history| - 1], history[|history| - 1];
      KnownHasSpoken(before, c);
      assert CutOffBy(e, c) ==> e in history;
    }
  }

  /** Every event read from what clients say is the doing of a client. */
  lemma ReadAct(history: seq<Event>, e: Event, sent: seq<string>, text: string) returns (a: Act)
    requires AfterAll(history).Some? && ProperEvent(AfterAll(history).value, e)
    requires Spoken(sent) && text <= Joined(sent) && ReadFrom(history + [e], e.conn, text)
    ensures PlainAct(a) && EventOf(a) == e
  {
    var c := e.conn;
    ReadBefore(history, e, c, text);
    KnownHasSpoken(history, c);
    SpokenLines(sent);
    LinesArrived(sent, text);
    match e
    case Entered(_, intro, complete) =>
      if complete {
        assert sent[0] == intro;
        var name :| OneWord(name) && intro == name + "\n";
        a := Connects(c, name, true);
      } else {
        CutOffGreeting(sent, text);
        a := Connects(c, intro, false);
      }
    case Sent(_, line) =>
      var n := |Handled(history, c)|;
      assert n > 0;
      assert sent[n] == line;
      var peer, msg :| OneWord(peer) && line == SignalText(peer, msg);
      a := Signals(c, peer, msg);
    case Left(_) =>
      a := Disconnects(c);
  }

  ghost predicate AllRead(history: seq<Event>, sockets: map<Conn, Socket>, arrived: map<Conn, string>) {
    forall e :: e in history ==> IsRead(history, e.conn, sockets, arrived)
  }

  /** What the server did about a connection was read from a part of what the client sent on it. */
  ghost predicate IsRead(history: seq<Event>, c: Conn, sockets: map<Conn, Socket>, arrived: map<Conn, string>) {
    && c in sockets && c in arrived && AllLines(sockets[c].asked)
    && arrived[c] <= Joined(sockets[c].sent) && ReadFrom(history, c, arrived[c])
  }

  lemma AllReadBefore(history: seq<Event>, e: Event, sockets: map<Conn, Socket>, arrived: map<Conn, string>)
    requires AllRead(history + [e], sockets, arrived)
    ensures AllRead(history, sockets, arrived) && IsRead(history + [e], e.conn, sockets, arrived)
  {
    assert e in history + [e];
    forall f | f in history ensures IsRead(history, f.conn, sockets, arrived) {
      assert f in history + [e];
      ReadBefore(history, e, f.conn, arrived[f.conn]);
    }
  }

  lemma {:induction false} LinesAreLines(text: string)
    ensures AllLines(Lines(text))
  {
    match Find(text, '\n')
    case None =>
    case Some(l) =>
      LinesAreLines(text[l + 1..]);
      FirstIsLine(text, l);
      OneMoreLine(text[..l + 1], Lines(text[l + 1..]));
  }

  lemma FirstIsLine(text: string, l: nat)
    requires Find(text, '\n') == Some(l)
    ensures OneLine(text[..l + 1])
  {
    assert text[..l + 1][..l] == text[..l];
  }

  lemma OneMoreLine(line: string, lines: seq<string>)
    requires OneLine(line) && AllLines(lines)
    ensures AllLines([line] + lines)
  {
  }

  lemma {:induction false} HandledHas(history: seq<Event>, e: Event)
    requires e in history
    ensures forall line :: line in LineIn(e, e.conn) ==> line in Handled(history, e.conn)
  {
    var before, last := history[..|history| - 1], history[|history| - 1];
    assert history == before + [last];
    if e in before {
      HandledHas(before, e);
    }
  }

  /** What is read from a text is read line by line. */
  lemma ReadAsRead(history: seq<Event>, e: Event, text: string)
    requires e in history && ReadFrom(history, e.conn, text)
    ensures AsRead(e)
  {
    HandledHas(history, e);
    LinesAreLines(text);
    var handled := Handled(history, e.conn);
    if e.Sent? || (e.Entered? && e.complete) {
      var line := LineIn(e, e.conn)[0];
      assert line in LineIn(e, e.conn);
      var k :| 0 <= k < |handled| && handled[k] == line;
      assert Lines(text)[k] == line;
    } else if e.Entered? {
      assert CutOffBy(e, e.conn);
    }
  }

  /** The sockets of the clients, and those closed in the meantime. */
  ghost function Sockets(clients: map<Conn, Client>, past: map<Conn, Socket>): map<Conn, Socket>
    reads clients.Values
  {
    past + map c | c in clients :: SocketOf(clients[c])
  }

  /** Every client keeps its invariant, and did when it closed a socket. */
  ghost predicate AllValid(clients: map<Conn, Client>, past: map<Conn, Socket>)
    reads clients.Values
  {
    && (forall c :: c in clients ==> clients[c].Valid())
    && (forall c :: c in past ==> Balanced(past[c]))
  }

  lemma AllBalanced(clients: map<Conn, Client>, past: map<Conn, Socket>)
    requires AllValid(clients, past)
    ensures forall c :: c in Sockets(clients, past) ==> Balanced(Sockets(clients, past)[c])
  {
  }

  /**
   * Whatever part of what the clients sent the server has read, and whatever part of what it wrote has
   * arrived: on each connection it dealt with the first of the lines the client sent, and the receiver
   * has handed on, in order, the first of the payloads forwarded to it.
   */
  lemma EndToEnd(history: seq<Event>, clients: map<Conn, Client>, past: map<Conn, Socket>,
                 arrived: map<Conn, string>, to: Conn, receiver: Client, rest: string)
    requires AfterAll(history).Some? && AllValid(clients, past) && AllRead(history, Sockets(clients, past), arrived)
    requires receiver.Valid() && Written(AfterAll(history).value, to) == receiver.received + rest
    ensures forall e :: e in history ==> Handled(history, e.conn) <= Sockets(clients, past)[e.conn].sent
    ensures receiver.before <= receiver.dispatched
    ensures receiver.dispatched[|receiver.before|..] <= Payloads(Forwarded(history, to))
    ensures rest == "" ==> receiver.dispatched == receiver.before + Payloads(Forwarded(history, to))
  {
    var sockets := Sockets(clients, past);
    AllBalanced(clients, past);
    forall e | e in history ensures Handled(history, e.conn) <= sockets[e.conn].sent && AsRead(e) {
      SentLines(sockets[e.conn]);
      LinesArrived(sockets[e.conn].sent, arrived[e.conn]);
      ReadAsRead(history, e, arrived[e.conn]);
    }
    var chunks := [receiver.received];
    assert Joined(chunks) == receiver.received;
    ArrivesInOrder(history, to, chunks, rest);
    ChunkingIrrelevant(chunks);
  }

  ghost predicate AllSpeak(history: seq<Event>, sockets: map<Conn, Socket>) {
    forall e :: e in history ==> e.conn in sockets && Balanced(sockets[e.conn]) && Speaks(sockets[e.conn])
  }

  lemma PlainAppend(acts: seq<Act>, a: Act)
    requires Plain(acts) && PlainAct(a)
    ensures Plain(acts + [a])
  {
  }

  lemma AllSpeakBefore(history: seq<Event>, e: Event, sockets: map<Conn, Socket>)
    requires AllSpeak(history + [e], sockets)
    ensures AllSpeak(history, sockets)
    ensures e.conn in sockets && Balanced(sockets[e.conn]) && Speaks(sockets[e.conn])
  {
    assert e in history + [e];
    forall f | f in history
      ensures f.conn in sockets && Balanced(sockets[f.conn]) && Speaks(sockets[f.conn])
    {
      assert f in history + [e];
    }
  }

  /** A run of the server over what clients say is a run of plain acts. */
  lemma {:induction false} ReadActs(history: seq<Event>, sockets: map<Conn, Socket>, arrived: map<Conn, string>)
    returns (acts: seq<Act>)
    requires AfterAll(history).Some? && AllRead(history, sockets, arrived) && AllSpeak(history, sockets)
    ensures Events(acts) == history && Plain(acts)
  {
    acts := [];
    if history != [] {
      var before, e := history[..|history| - 1], history[|history| - 1];
      assert history == before + [e];
      AllReadBefore(before, e, sockets, arrived);
      AllSpeakBefore(before, e, sockets);
      var acts' := ReadActs(before, sockets, arrived);
      ClientSpeaks(sockets[e.conn]);
      var a := ReadAct(before, e, sockets[e.conn].sent, arrived[e.conn]);
      EventsAppend(acts', a);
      PlainAppend(acts', a);
      acts := acts' + [a];
    }
  }

  /**
   * If moreover every client was asked to send its name and then signals, and did not give up its name,
   * the receiver has handed on the first of the messages that were meant for it.
   */
  lemma MessagesEndToEnd(history: seq<Event>, clients: map<Conn, Client>, past: map<Conn, Socket>,
                         arrived: map<Conn, string>, to: Conn, receiver: Client, rest: string)
    returns (acts: seq<Act>)
    requires AfterAll(history).Some? && AllValid(clients, past) && AllRead(history, Sockets(clients, past), arrived)
    requires forall e :: e in history ==> Speaks(Sockets(clients, past)[e.conn])
    requires receiver.Valid() && Written(AfterAll(history).value, to) == receiver.received + rest
    ensures Events(acts) == history && Plain(acts)
    ensures receiver.before <= receiver.dispatched
    ensures receiver.dispatched[|receiver.before|..] <= MessagesFor(acts, to)
    ensures rest == "" ==> receiver.dispatched == receiver.before + MessagesFor(acts, to)
  {
    AllBalanced(clients, past);
    acts := ReadActs(history, Sockets(clients, past), arrived);
    EndToEnd(history, clients, past, arrived, to, receiver, rest);
    Faithful(acts, to);
  }

  // ---------- a greeting given up ----------

  ghost predicate Blank(s: string) {
    forall i :: 0 <= i < |s| ==> IsWhite(s[i])
  }

  lemma {:induction false} TrimLeftJoined(a: string, b: string)
    ensures TrimLeft(a + b) == if Blank(a) then TrimLeft(b) else TrimLeft(a) + b
  {
    if a == "" {
      assert a + b == b;
    } else {
      assert (a + b)[1..] == a[1..] + b;
      assert a == [a[0]] + a[1..];
      if IsWhite(a[0]) {
        TrimLeftJoined(a[1..], b);
        assert Blank(a) <==> Blank(a[1..]);
      }
    }
  }

  lemma {:induction false} TrimRightJoined(a: string, b: string)
    requires Blank(b)
    ensures TrimRight(a + b) == TrimRight(a)
  {
    if b == "" {
      assert a + b == a;
    } else {
      var b' := b[..|b| - 1];
      assert (a + b)[..|a + b| - 1] == a + b';
      TrimRightJoined(a, b');
    }
  }

  lemma HexNotWhite(msg: Bytes)
    ensures forall i :: 0 <= i < |HexText(msg)| ==> !IsWhite(HexText(msg)[i])
  {
    HexTextChars(msg);
  }

  lemma EmptyAsName(peer: string)
    ensures TrimSpace(SignalText(peer, [])) == TrimSpace(peer)
  {
    assert SignalText(peer, []) == peer + " \n";
    TrimLeftJoined(peer, " \n");
    TrimLeftJoined(peer, "");
    assert peer + "" == peer;
    TrimRightJoined(TrimLeft(peer), " \n");
    assert TrimLeft(" \n") == "";
  }

  lemma BlankAsName(peer: string, msg: Bytes)
    requires Blank(peer) && msg != []
    ensures TrimSpace(SignalText(peer, msg)) == TrimSpace(HexText(msg))
  {
    var hex := HexText(msg);
    assert SignalText(peer, msg) == (peer + " ") + (hex + "\n");
    TrimLeftJoined(peer + " ", hex + "\n");
    HexNotWhite(msg);
    assert !Blank(hex) by {
      assert !IsWhite(hex[0]);
    }
    TrimLeftJoined(hex, "\n");
    TrimRightJoined(TrimLeft(hex), "\n");
  }

  lemma SpacedAsName(peer: string, msg: Bytes)
    requires !Blank(peer) && msg != []
    ensures ' ' in TrimSpace(SignalText(peer, msg))
  {
    var i :| 0 <= i < |peer| && !IsWhite(peer[i]);
    HexNotWhite(msg);
    TrimKeeps(SignalText(peer, msg), i, |peer|, |peer| + 1);
  }

  lemma {:induction false} NameGiven(history: seq<Event>, e: Event)
    requires AfterAll(history).Some? && e in history && e.Entered?
    ensures NameOf(history, e.conn) == TrimSpace(e.intro) && e.conn in AfterAll(history).value.names
  {
    var before, last := history[..|history| - 1], history[|history| - 1];
    assert history == before + [last];
    NameStep(before, last, e.conn);
    if e in before {
      NameGiven(before, e);
    }
  }

  /** With a space in it that name leads nobody there. */
  lemma SignalAsNameUnreachable(history: seq<Event>, c: Conn, peer: string, msg: Bytes)
    requires AfterAll(history).Some? && Entered(c, SignalText(peer, msg), true) in history
    requires OneWord(peer) && !Blank(peer) && msg != []
    ensures Forwarded(history, c) == []
  {
    NameGiven(history, Entered(c, SignalText(peer, msg), true));
    SpacedNameUnreachable(history, c);
    SpacedAsName(peer, msg);
  }

  /** Someone under another name, then `c` under the name taken from its signal, then a signal to that name. */
  function Misled(c: Conn, peer: string, msg: Bytes, other: string, dest: string): seq<Event> {
    [Entered(c + 1, other, true), Entered(c, SignalText(peer, msg), true), Sent(c + 1, SignalText(dest, [1]))]
  }

  lemma EnteredNext(history: seq<Event>, e: Event)
    requires AfterAll(history).Some? && e.Entered? && e.conn !in AfterAll(history).value.names
    ensures AfterAll(history + [e]).Some?
    ensures AfterAll(history + [e]).value.names.Keys == AfterAll(history).value.names.Keys + {e.conn}
  {
    assert (history + [e])[..|history|] == history;
  }

  lemma MisledReached(c: Conn, peer: string, msg: Bytes, other: string, dest: string)
    requires OneWord(dest) && TrimSpace(dest) == TrimSpace(SignalText(peer, msg)) != TrimSpace(other)
    ensures var history := Misled(c, peer, msg, other, dest);
      AfterAll(history).Some? && Forwarded(history, c) != []
  {
    var a, b := Entered(c + 1, other, true), Entered(c, SignalText(peer, msg), true);
    var e := Sent(c + 1, SignalText(dest, [1]));
    assert [a, b, e][..2] == [a, b] && [a, b][..1] == [a] && [a][..0] == [];
    EnteredNext([], a);
    assert [] + [a] == [a] && [a] + [b] == [a, b];
    EnteredNext([a], b);
    ParsedSignal(dest, [1]);
    assert NewestAt([a, b], TrimSpace(dest), c, 1);
    assert b in [a, b] && GreetedBy(b, c);
    assert ForwardedBy([a, b], e, c) != [];
  }

  lemma LetterTrimmed(letter: char)
    requires !IsWhite(letter)
    ensures TrimSpace([letter, '\n']) == [letter]
  {
    TrimRightJoined([letter], "\n");
    assert [letter] + "\n" == [letter, '\n'];
  }

  lemma OtherName(name: string) returns (other: string)
    ensures TrimSpace(other) != name && OneLine(other)
  {
    other := if name == "a" then "b\n" else "a\n";
    LetterTrimmed('a');
    LetterTrimmed('b');
  }

  lemma MisledAsRead(c: Conn, peer: string, msg: Bytes, other: string, dest: string)
    requires OneWord(peer) && OneLine(other) && OneWord(dest)
    ensures AllAsRead(Misled(c, peer, msg, other, dest))
    ensures Entered(c, SignalText(peer, msg), true) in Misled(c, peer, msg, other, dest)
  {
    SignalIsOneLine(peer, msg);
    SignalIsOneLine(dest, [1]);
    assert Misled(c, peer, msg, other, dest)[1] == Entered(c, SignalText(peer, msg), true);
  }

  /** Without a message or a peer in the signal, the name it is taken for is one that can be written to. */
  lemma NameLeadsThere(c: Conn, peer: string, msg: Bytes) returns (history: seq<Event>)
    requires OneWord(peer) && (msg == [] || Blank(peer))
    ensures AfterAll(history).Some? && Entered(c, SignalText(peer, msg), true) in history
    ensures AllAsRead(history) && Forwarded(history, c) != []
  {
    var dest := if msg == [] then peer else HexText(msg);
    if msg == [] {
      EmptyAsName(peer);
    } else {
      BlankAsName(peer, msg);
      HexTextPlain(msg);
    }
    var other := OtherName(TrimSpace(dest));
    history := Misled(c, peer, msg, other, dest);
    MisledReached(c, peer, msg, other, dest);
    MisledAsRead(c, peer, msg, other, dest);
  }

  /**
   * If a client's greeting is given up and a signal comes first, the server takes the signal for its
   * name. In no run whatever is anything then forwarded to it, if and only if the signal holds a message
   * and its peer is not blank. An empty message makes the client take its peer's name.
   */
  lemma GreetingGivenUp(c: Conn, peer: string, msg: Bytes)
    requires OneWord(peer)
    ensures (forall history ::
              AfterAll(history).Some? && AllAsRead(history) && Entered(c, SignalText(peer, msg), true) in history
              ==> Forwarded(history, c) == [])
       <==> msg != [] && !Blank(peer)
    ensures msg == [] ==> TrimSpace(SignalText(peer, msg)) == TrimSpace(peer)
  {
    EmptyAsName(peer);
    if msg != [] && !Blank(peer) {
      forall history
        | AfterAll(history).Some? && AllAsRead(history) && Entered(c, SignalText(peer, msg), true) in history
        ensures Forwarded(history, c) == []
      {
        SignalAsNameUnreachable(history, c, peer, msg);
      }
    } else {
      var history := NameLeadsThere(c, peer, msg);
    }
  }
}
