/** The signaling client: a bounded queue of lines to send and a buffer of received text. */
module SignalingClient {
  import opened Common
  import opened Signaling

  // The queue is cut back to this size before another line is added.
  const QUEUE_LIMIT := 32

  /** What one call to receive from the socket gives. */
  datatype Receipt = Data(text: string) | NoData | Lost

  /** What one call to send the front of the queue gives. */
  datatype Delivery = Whole | Nothing | Later | Partial

  /** The text received before the first call that gives none. */
  function TextOf(receipts: seq<Receipt>): string {
    if receipts == [] || !receipts[0].Data? then "" else receipts[0].text + TextOf(receipts[1..])
  }

  predicate SocketLost(receipts: seq<Receipt>) {
    receipts != [] && (receipts[0].Lost? || (receipts[0].Data? && SocketLost(receipts[1..])))
  }

  /** How many lines of a queue are sent, and whether the connection has to be restarted. */
  function Flushed(deliveries: seq<Delivery>, size: nat): (r: (nat, bool))
    ensures r.0 <= size
  {
    if size == 0 || deliveries == [] then (0, false)
    else
      match deliveries[0]
      case Whole => var (n, broken) := Flushed(deliveries[1..], size - 1); (n + 1, broken)
      case Nothing => Flushed(deliveries[1..], size)
      case Later => (0, false)
      case Partial => (0, true)
  }

  /** The calls before the first that gives no text, and what the call after them gives. */
  ghost predicate TextGiven(receipts: seq<Receipt>, k: nat) {
    && k <= |receipts| && (forall i :: 0 <= i < k ==> receipts[i].Data?)
    && (k < |receipts| ==> !receipts[k].Data?)
  }

  /**
   * The text received is that of the calls before the first that gives none, and the socket is lost
   * exactly if that one says so.
   */
  lemma {:induction false} ReceivedIs(receipts: seq<Receipt>, k: nat)
    requires TextGiven(receipts, k)
    ensures TextOf(receipts) == Joined(seq(k, i requires 0 <= i < k => receipts[i].text))
    ensures SocketLost(receipts) <==> k < |receipts| && receipts[k].Lost?
  {
    if k > 0 {
      var rest := receipts[1..];
      assert TextGiven(rest, k - 1);
      ReceivedIs(rest, k - 1);
      var texts := seq(k, i requires 0 <= i < k => receipts[i].text);
      assert texts == [receipts[0].text] + seq(k - 1, i requires 0 <= i < k - 1 => rest[i].text);
      JoinedCons(receipts[0].text, texts[1..]);
    }
  }

  lemma {:induction false} JoinedCons(first: string, rest: seq<string>)
    ensures Joined([first] + rest) == first + Joined(rest)
  {
    var all := [first] + rest;
    if rest == [] {
      assert all == [first] && all[..0] == [];
    } else {
      assert all[..|all| - 1] == [first] + rest[..|rest| - 1];
      JoinedCons(first, rest[..|rest| - 1]);
      Associative(first, Joined(rest[..|rest| - 1]), rest[|rest| - 1]);
    }
  }

  function WholeOnes(deliveries: seq<Delivery>): nat {
    if deliveries == [] then 0 else WholeOnes(deliveries[1..]) + if deliveries[0].Whole? then 1 else 0
  }

  /** After `k` calls, none of which stops the sending, either all is sent, or no call is left, or the next stops it. */
  ghost predicate SendingStops(deliveries: seq<Delivery>, size: nat, k: nat) {
    && k <= |deliveries|
    && (forall i :: 0 <= i < k ==> deliveries[i] == Whole || deliveries[i] == Nothing)
    && WholeOnes(deliveries[..k]) <= size
    && (WholeOnes(deliveries[..k]) == size || k == |deliveries| || deliveries[k] == Later || deliveries[k] == Partial)
  }

  /** The lines sent are the calls that took one whole; one taken in part, before all is sent, breaks the connection. */
  lemma {:induction false} SentIs(deliveries: seq<Delivery>, size: nat, k: nat)
    requires SendingStops(deliveries, size, k)
    ensures var n := WholeOnes(deliveries[..k]);
      Flushed(deliveries, size) == (n, n < size && k < |deliveries| && deliveries[k] == Partial)
  {
    if k > 0 && size > 0 {
      var rest := deliveries[1..];
      assert deliveries[..k][1..] == rest[..k - 1];
      SentIs(rest, if deliveries[0].Whole? then size - 1 else size, k - 1);
    }
  }

  /** `at` says, in ascending order, where in `b` the elements of `a` are. */
  ghost predicate Picks(a: seq<string>, b: seq<string>, at: seq<nat>) {
    && |at| == |a|
    && (forall i, j :: 0 <= i < j < |at| ==> at[i] < at[j])
    && (forall i :: 0 <= i < |at| ==> at[i] < |b| && b[at[i]] == a[i])
  }

  /** `a` is `b` with some elements left out. */
  ghost predicate Subsequence(a: seq<string>, b: seq<string>) {
    exists at :: Picks(a, b, at)
  }

  lemma {:induction false} PicksFurther(a: seq<string>, b: seq<string>, at: seq<nat>, i: nat)
    requires Picks(a, b, at) && i < |a|
    ensures i <= at[i]
  {
    if i > 0 {
      PicksFurther(a, b, at, i - 1);
      assert at[i - 1] < at[i];
    }
  }

  lemma {:induction false} PicksRoom(a: seq<string>, b: seq<string>, at: seq<nat>, i: nat)
    requires Picks(a, b, at) && i < |a|
    ensures |a| - i <= |b| - at[i]
    decreases |a| - i
  {
    if i + 1 < |a| {
      PicksRoom(a, b, at, i + 1);
      assert at[i] < at[i + 1];
    }
  }

  lemma SubsequenceSize(a: seq<string>, b: seq<string>)
    requires Subsequence(a, b)
    ensures |a| <= |b| && (|a| == |b| ==> a == b)
  {
    var at: seq<nat> :| Picks(a, b, at);
    if a != [] {
      PicksRoom(a, b, at, 0);
    }
    if |a| == |b| {
      forall i | 0 <= i < |a| ensures a[i] == b[i] {
        PicksFurther(a, b, at, i);
        PicksRoom(a, b, at, i);
      }
    }
  }

  lemma SubsequenceOfMore(a: seq<string>, b: seq<string>, x: string)
    requires Subsequence(a, b)
    ensures Subsequence(a, b + [x]) && Subsequence(a + [x], b + [x])
  {
    var at: seq<nat> :| Picks(a, b, at);
    forall i | 0 <= i < |at| ensures at[i] < |b + [x]| && (b + [x])[at[i]] == a[i] {
      assert b[at[i]] == a[i];
    }
    assert Picks(a, b + [x], at);
    assert Picks(a + [x], b + [x], at + [|b|]);
  }

  /**
   * Of the lines asked for the last ones wait in the queue; those before it were sent, in order, but
   * for `dropped` of them, which were given up.
   */
  ghost predicate Accounted(asked: seq<string>, sent: seq<string>, dropped: nat, queue: seq<string>) {
    && |queue| <= QUEUE_LIMIT + 1
    && |sent| + dropped + |queue| == |asked|
    && queue == asked[|asked| - |queue|..]
    && Subsequence(sent, asked[..|asked| - |queue|])
  }

  lemma NothingAsked()
    ensures Accounted([], [], 0, [])
  {
    assert Picks([], [], []);
  }

  /** If none was given up, exactly the lines asked for were sent or wait. */
  lemma NoneDropped(asked: seq<string>, sent: seq<string>, queue: seq<string>)
    requires Accounted(asked, sent, 0, queue)
    ensures sent + queue == asked
  {
    SubsequenceSize(sent, asked[..|asked| - |queue|]);
  }

  lemma OldestDropped(asked: seq<string>, sent: seq<string>, dropped: nat, queue: seq<string>)
    requires Accounted(asked, sent, dropped, queue) && queue != []
    ensures Accounted(asked, sent, dropped + 1, queue[1..])
  {
    var n := |asked| - |queue|;
    TakeOneMore(asked, n);
    SubsequenceOfMore(sent, asked[..n], asked[n]);
  }

  lemma LineAdded(asked: seq<string>, sent: seq<string>, dropped: nat, queue: seq<string>, line: string)
    requires Accounted(asked, sent, dropped, queue) && |queue| <= QUEUE_LIMIT
    ensures Accounted(asked + [line], sent, dropped, queue + [line])
  {
    var n := |asked| - |queue|;
    assert (asked + [line])[..n] == asked[..n];
  }

  lemma FrontSent(asked: seq<string>, sent: seq<string>, dropped: nat, queue: seq<string>)
    requires Accounted(asked, sent, dropped, queue) && queue != []
    ensures Accounted(asked, sent + [queue[0]], dropped, queue[1..])
  {
    var n := |asked| - |queue|;
    TakeOneMore(asked, n);
    SubsequenceOfMore(sent, asked[..n], asked[n]);
  }

  /** The queue after one more line: the oldest is given up when too many are waiting. */
  function Queued(queue: seq<string>, line: string): seq<string> {
    (if |queue| > QUEUE_LIMIT then queue[1..] else queue) + [line]
  }

  function QueuedAll(queue: seq<string>, lines: seq<string>): seq<string> {
    if lines == [] then queue
    else Queued(QueuedAll(queue, lines[..|lines| - 1]), lines[|lines| - 1])
  }

  function Last<T>(s: seq<T>, n: nat): seq<T> {
    if |s| <= n then s else s[|s| - n..]
  }

  lemma FrontTaken(sent: seq<string>, queue: seq<string>, n: nat)
    requires n < |queue|
    ensures sent + queue[..n] + [queue[n..][0]] == sent + queue[..n + 1] && queue[n..][1..] == queue[n + 1..]
  {
  }

  lemma PartsOfGreeting(greeting: string, n: nat)
    requires n <= 1
    ensures ([] + [greeting][..n]) + [greeting][n..] == [greeting] && |[] + [greeting][..n]| == n
  {
  }

  lemma LastQueued(lines: seq<string>, line: string)
    ensures Queued(Last(lines, QUEUE_LIMIT + 1), line) == Last(lines + [line], QUEUE_LIMIT + 1)
  {
  }

  lemma LastPast(first: string, lines: seq<string>, n: nat)
    ensures Last([first] + lines, n) == if |lines| < n then [first] + lines else lines[|lines| - n..]
  {
  }

  lemma {:induction false} QueuedLast(greeting: string, lines: seq<string>)
    ensures QueuedAll([greeting], lines) == Last([greeting] + lines, QUEUE_LIMIT + 1)
  {
    if lines != [] {
      var before, line := lines[..|lines| - 1], lines[|lines| - 1];
      QueuedLast(greeting, before);
      LastQueued([greeting] + before, line);
      assert [greeting] + lines == [greeting] + before + [line];
    }
  }

  /**
   * Before the socket takes the first line, the greeting waits with up to 32 further lines; one more
   * and it is the greeting that is given up.
   */
  lemma GreetingWaits(greeting: string, lines: seq<string>)
    ensures |lines| <= 32 ==> QueuedAll([greeting], lines) == [greeting] + lines
    ensures |lines| > 32 ==> QueuedAll([greeting], lines) == lines[|lines| - 33..]
  {
    QueuedLast(greeting, lines);
    LastPast(greeting, lines, QUEUE_LIMIT + 1);
  }

  lemma AppendPair(signal: string, msg: Bytes, i: nat)
    requires i < |msg|
    ensures signal + [HexDigit(msg[i] / 16)] + [HexDigit(msg[i] % 16)] + HexText(msg[i + 1..])
         == signal + HexText(msg[i..])
  {
    var a, b, rest := [HexDigit(msg[i] / 16)], [HexDigit(msg[i] % 16)], HexText(msg[i + 1..]);
    assert msg[i..][1..] == msg[i + 1..] && a + b == HexPair(msg[i]);
    Associative(signal, a, b);
    Associative(signal, a + b, rest);
  }

  method EncodeSignal(peer: string, msg: Bytes) returns (signal: string)
    ensures signal == SignalText(peer, msg)
  {
    signal := peer + " ";
    var i := 0;
    while i < |msg|
      invariant i <= |msg| && signal + HexText(msg[i..]) == peer + " " + HexText(msg)
    {
      AppendPair(signal, msg, i);
      signal := signal + [HexDigit(msg[i] / 16)];
      signal := signal + [HexDigit(msg[i] % 16)];
      i := i + 1;
    }
    assert signal + HexText(msg[i..]) == signal;
    signal := signal + "\n";
  }

  /** The payload of a line of the buffer, from after the space up to the end of the line. */
  method DecodePayload(buffered: string, spc: nat, l: nat) returns (data: Option<Bytes>)
    requires spc < l <= |buffered|
    ensures data == HexDecode(buffered[spc + 1..l])
  {
    var bytes: Bytes := [];
    var i := spc + 1;
    PrefixedNothing(HexDecode(buffered[i..l]));
    while i + 2 <= l
      invariant spc + 1 <= i <= l
      invariant HexDecode(buffered[spc + 1..l]) == Prefixed(bytes, HexDecode(buffered[i..l]))
    {
      var dh, dl := HexDigitVal(buffered[i]), HexDigitVal(buffered[i + 1]);
      DecodedFrom(buffered, i, l, bytes);
      if dh < 0 || dl < 0 {
        return None;
      }
      bytes := bytes + [dh * 16 + dl];
      i := i + 2;
    }
    assert HexDecode(buffered[i..l]) == Some([]) && bytes + [] == bytes;
    data := Some(bytes);
  }

  function Prefixed(bytes: Bytes, rest: Option<Bytes>): Option<Bytes> {
    match rest
    case None => None
    case Some(more) => Some(bytes + more)
  }

  lemma PrefixedNothing(rest: Option<Bytes>)
    ensures Prefixed([], rest) == rest
  {
    if rest.Some? {
      assert [] + rest.value == rest.value;
    }
  }

  lemma DecodedFrom(buffered: string, i: nat, l: nat, bytes: Bytes)
    requires i + 2 <= l <= |buffered|
    ensures var dh, dl := HexDigitVal(buffered[i]), HexDigitVal(buffered[i + 1]);
      Prefixed(bytes, HexDecode(buffered[i..l]))
      == if dh < 0 || dl < 0 then None else Prefixed(bytes + [dh * 16 + dl], HexDecode(buffered[i + 2..l]))
  {
    var t := buffered[i..l];
    assert t[2..] == buffered[i + 2..l];
    if HexDecode(t).Some? {
      var pair := [HexDigitVal(t[0]) * 16 + HexDigitVal(t[1])];
      Associative(bytes, pair, HexDecode(t[2..]).value);
    }
  }

  class Client {
    const greeting: string
    var isOpen: bool
    var queue: seq<string>
    var buffered: string
    // The messages handed to the networking library, in order.
    var dispatched: seq<Bytes>

    // About the current socket: what was handed on before it was opened, what came in through it,
    // what was asked to be sent, what was sent, and how many lines were given up.
    ghost var before: seq<Bytes>
    ghost var received: string
    ghost var asked: seq<string>
    ghost var sent: seq<string>
    ghost var dropped: nat

    ghost predicate QueueValid()
      reads this
    {
      Accounted(asked, sent, dropped, queue)
    }

    /** What was handed on and what is buffered are determined by the text received so far. */
    ghost predicate Valid()
      reads this
    {
      QueueValid() && dispatched == before + Dispatched(received) && buffered == Leftover(received)
    }

    /** Starts connecting; `available` says whether a socket can be had. */
    constructor (greeting: string, available: bool)
      ensures Valid() && this.greeting == greeting && isOpen == available
      ensures dispatched == [] && received == "" && asked == if available then [greeting] else []
    {
      this.greeting := greeting;
      isOpen, queue, buffered, dispatched := false, [], "", [];
      before, received, asked, sent, dropped := [], "", [], [], 0;
      new;
      Connect(available);
    }

    method CloseSocket()
      modifies this
      ensures Valid() && !isOpen && dispatched == old(dispatched)
      ensures queue == asked == sent == [] && dropped == 0
      ensures received == buffered == "" && before == dispatched
    {
      NothingAsked();
      isOpen := false;
      buffered := "";
      queue := [];
      before, received, asked, sent, dropped := dispatched, "", [], [], 0;
    }

    method Connect(available: bool)
      modifies this
      ensures Valid() && isOpen == available && dispatched == old(dispatched)
      ensures received == buffered == "" && before == dispatched
      ensures asked == queue == (if available then [greeting] else []) && sent == [] && dropped == 0
    {
      CloseSocket();
      if !available {
        return;
      }
      isOpen := true;
      Send(greeting);
    }

    /** Queues a line, giving up the oldest one when too many are waiting. */
    method Send(line: string)
      requires QueueValid()
      modifies this`queue, this`asked, this`dropped
      ensures QueueValid() && asked == old(asked) + [line]
      ensures queue == Queued(old(queue), line)
      ensures dropped == old(dropped) + if |old(queue)| > QUEUE_LIMIT then 1 else 0
    {
      MakeRoom();
      LineAdded(asked, sent, dropped, queue, line);
      queue := queue + [line];
      asked := asked + [line];
    }

    method MakeRoom()
      requires QueueValid()
      modifies this`queue, this`dropped
      ensures QueueValid() && |queue| <= QUEUE_LIMIT
      ensures queue == if |old(queue)| > QUEUE_LIMIT then old(queue)[1..] else old(queue)
      ensures dropped == old(dropped) + if |old(queue)| > QUEUE_LIMIT then 1 else 0
    {
      while |queue| > QUEUE_LIMIT
        invariant QueueValid()
        invariant if queue == old(queue) then dropped == old(dropped)
                  else |old(queue)| > QUEUE_LIMIT && queue == old(queue)[1..] && dropped == old(dropped) + 1
        decreases |queue|
      {
        OldestDropped(asked, sent, dropped, queue);
        queue := queue[1..];
        dropped := dropped + 1;
      }
    }

    /** Sends a message to a peer as a line of hex. */
    method SendSignal(peer: string, msg: Bytes)
      requires QueueValid()
      modifies this`queue, this`asked, this`dropped
      ensures QueueValid() && asked == old(asked) + [SignalText(peer, msg)]
      ensures queue == Queued(old(queue), SignalText(peer, msg))
    {
      var signal := EncodeSignal(peer, msg);
      Send(signal);
    }

    /** Drains the socket into the buffer. */
    method Receive(receipts: seq<Receipt>)
      requires Valid() && isOpen
      modifies this
      ensures isOpen == !SocketLost(receipts) && dispatched == old(dispatched)
      ensures !isOpen ==> Valid() && received == buffered == "" && asked == sent == queue == []
      ensures isOpen ==> QueueValid() && queue == old(queue)
      ensures isOpen ==> asked == old(asked) && sent == old(sent) && dropped == old(dropped)
      ensures isOpen ==> before == old(before) && received == old(received)
      ensures isOpen ==> buffered == old(buffered) + TextOf(receipts)
    {
      var k := 0;
      while k < |receipts| && receipts[k].Data?
        invariant k <= |receipts|
        invariant isOpen && QueueValid() && queue == old(queue)
        invariant asked == old(asked) && sent == old(sent) && dropped == old(dropped)
        invariant before == old(before) && received == old(received) && dispatched == old(dispatched)
        invariant buffered + TextOf(receipts[k..]) == old(buffered) + TextOf(receipts)
        invariant SocketLost(receipts[k..]) == SocketLost(receipts)
      {
        Associative(buffered, receipts[k].text, TextOf(receipts[k + 1..]));
        assert receipts[k..][1..] == receipts[k + 1..];
        buffered := buffered + receipts[k].text;
        k := k + 1;
      }
      assert TextOf(receipts[k..]) == "";
      if k < |receipts| && receipts[k].Lost? {
        CloseSocket();
      }
    }

    method TakeFront()
      requires QueueValid() && queue != []
      modifies this`queue, this`sent
      ensures QueueValid() && queue == old(queue)[1..] && sent == old(sent) + [old(queue)[0]]
    {
      FrontSent(asked, sent, dropped, queue);
      sent := sent + [queue[0]];
      queue := queue[1..];
    }

    /** Sends what is queued, as far as the socket takes it, and says if a line was sent only in part. */
    method SendQueued(deliveries: seq<Delivery>) returns (broken: bool)
      requires QueueValid()
      modifies this`queue, this`sent
      ensures var (n, b) := Flushed(deliveries, |old(queue)|);
        QueueValid() && broken == b && sent == old(sent) + old(queue)[..n] && queue == old(queue)[n..]
    {
      var k := 0;
      ghost var n := 0;
      while queue != [] && k < |deliveries|
        invariant k <= |deliveries| && n <= |old(queue)| && QueueValid()
        invariant sent == old(sent) + old(queue)[..n] && queue == old(queue)[n..]
        invariant Flushed(deliveries, |old(queue)|)
          == (n + Flushed(deliveries[k..], |queue|).0, Flushed(deliveries[k..], |queue|).1)
        decreases |deliveries| - k
      {
        assert deliveries[k..][1..] == deliveries[k + 1..];
        match deliveries[k] {
          case Whole =>
            FrontTaken(old(sent), old(queue), n);
            TakeFront();
            n := n + 1;
          case Nothing =>
          case Later =>
            return false;
          case Partial =>
            return true;
        }
        k := k + 1;
      }
      broken := false;
    }

    /** Sends what is queued; a line sent only in part closes the connection. */
    method Flush(deliveries: seq<Delivery>)
      requires QueueValid() && isOpen
      modifies this
      ensures isOpen == !Flushed(deliveries, |old(queue)|).1 && dispatched == old(dispatched)
      ensures !isOpen ==> Valid() && received == buffered == "" && asked == sent == queue == []
      ensures isOpen ==> var n := Flushed(deliveries, |old(queue)|).0;
        && QueueValid() && sent == old(sent) + old(queue)[..n] && queue == old(queue)[n..]
        && before == old(before) && received == old(received) && buffered == old(buffered)
        && asked == old(asked) && dropped == old(dropped)
    {
      var broken := SendQueued(deliveries);
      if broken {
        CloseSocket();
      }
    }

    /** Hands on the messages of the complete lines in the buffer. */
    method DispatchBuffered()
      modifies this`buffered, this`dispatched
      ensures dispatched == old(dispatched) + Dispatched(old(buffered)) && buffered == Leftover(old(buffered))
    {
      while true
        invariant dispatched + Dispatched(buffered) == old(dispatched) + Dispatched(old(buffered))
        invariant Leftover(buffered) == Leftover(old(buffered))
        decreases |buffered|
      {
        var l := Find(buffered, '\n');
        if l.None? {
          return;
        }
        ghost var soFar := dispatched;
        DispatchLine(l.value);
        Associative(soFar, AsList(Payload(buffered[..l.value])), Dispatched(buffered[l.value + 1..]));
        buffered := buffered[l.value + 1..];
      }
    }

    method DispatchLine(l: nat)
      requires l <= |buffered|
      modifies this`dispatched
      ensures dispatched == old(dispatched) + AsList(Payload(buffered[..l]))
    {
      var spc := Find(buffered, ' ');
      FindInLine(buffered, l);
      if spc.Some? && spc.value < l {
        assert buffered[..l][spc.value + 1..] == buffered[spc.value + 1..l];
        var data := DecodePayload(buffered, spc.value, l);
        if data.Some? {
          dispatched := dispatched + [data.value];
        }
      }
    }

    /** Hands on what can be, when `more` has come in since that was done last. */
    method HandOn(ghost more: string)
      requires QueueValid() && dispatched == before + Dispatched(received) && buffered == Leftover(received) + more
      modifies this`buffered, this`dispatched, this`received
      ensures Valid() && received == old(received) + more
      ensures old(buffered) == "" ==> dispatched == old(dispatched)
    {
      NothingBuffered();
      MoreReceived(before, received, more);
      DispatchBuffered();
      received := received + more;
    }

    /** Opens a socket, if one can be had, and sends the greeting as far as it goes. */
    method Reconnect(available: bool, deliveries: seq<Delivery>)
      requires Valid()
      modifies this
      ensures QueueValid() && isOpen == (available && !Flushed(deliveries, 1).1)
      ensures dispatched == old(dispatched) == before && received == buffered == ""
      ensures isOpen ==> asked == [greeting] && dropped == 0
      ensures isOpen ==> sent + queue == [greeting] && |sent| == Flushed(deliveries, 1).0
      ensures !isOpen ==> asked == sent == queue == []
    {
      Connect(available);
      if isOpen {
        PartsOfGreeting(greeting, Flushed(deliveries, 1).0);
        Flush(deliveries);
      }
    }

    /** Receives, sends what is queued, and hands on; the socket may be lost on the way. */
    method Exchange(receipts: seq<Receipt>, deliveries: seq<Delivery>)
      requires Valid() && isOpen
      modifies this
      ensures Valid() && isOpen == (!SocketLost(receipts) && !Flushed(deliveries, |old(queue)|).1)
      ensures isOpen ==> before == old(before) && received == old(received) + TextOf(receipts)
      ensures isOpen ==> asked == old(asked) && dropped == old(dropped)
      ensures isOpen ==> var n := Flushed(deliveries, |old(queue)|).0;
        sent == old(sent) + old(queue)[..n] && queue == old(queue)[n..]
      ensures !isOpen ==> asked == sent == queue == [] && received == "" && dispatched == old(dispatched)
    {
      Receive(receipts);
      if isOpen {
        Flush(deliveries);
      }
      HandOn(if isOpen then TextOf(receipts) else "");
    }

    /**
     * One round: receive or reconnect, send, hand on. On a socket that stays open, text comes in and
     * lines go out; on a new one the greeting is the only line so far; a lost one takes all with it.
     */
    method Poll(available: bool, receipts: seq<Receipt>, deliveries: seq<Delivery>)
      requires Valid()
      modifies this
      ensures Valid()
      ensures isOpen <==> (if old(isOpen) then !SocketLost(receipts) && !Flushed(deliveries, |old(queue)|).1
                           else available && !Flushed(deliveries, 1).1)
      ensures isOpen && old(isOpen) ==> before == old(before) && received == old(received) + TextOf(receipts)
      ensures isOpen && old(isOpen) ==> asked == old(asked) && dropped == old(dropped)
      ensures isOpen && old(isOpen) ==> var n := Flushed(deliveries, |old(queue)|).0;
        sent == old(sent) + old(queue)[..n] && queue == old(queue)[n..]
      ensures isOpen && !old(isOpen) ==> asked == [greeting] && dropped == 0
      ensures isOpen && !old(isOpen) ==> sent + queue == [greeting] && |sent| == Flushed(deliveries, 1).0
      ensures !isOpen ==> asked == sent == queue == []
      ensures !isOpen || !old(isOpen) ==> received == "" && dispatched == old(dispatched)
    {
      if isOpen {
        Exchange(receipts, deliveries);
      } else {
        Reconnect(available, deliveries);
        HandOn("");
      }
    }
  }

  lemma NothingBuffered()
    ensures Dispatched("") == [] && Leftover("") == ""
  {
  }

  lemma MoreReceived(before: seq<Bytes>, received: string, more: string)
    ensures before + Dispatched(received) + Dispatched(Leftover(received) + more)
         == before + Dispatched(received + more)
    ensures Leftover(Leftover(received) + more) == Leftover(received + more)
  {
    DispatchedAppend(received, more);
    Associative(before, Dispatched(received), Dispatched(Leftover(received) + more));
  }

  /** The first space of a line is the first space of the buffer, if that comes before its end. */
  lemma FindInLine(buffered: string, l: nat)
    requires l <= |buffered|
    ensures Find(buffered[..l], ' ')
         == if Find(buffered, ' ').Some? && Find(buffered, ' ').value < l then Find(buffered, ' ') else None
  {
    if Find(buffered, ' ').Some? && Find(buffered, ' ').value < l {
      FindAt(buffered[..l], ' ', Find(buffered, ' ').value);
    }
  }
}
