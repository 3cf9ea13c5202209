/** The text protocol of the signaling example: a peer's name, a space and a payload in hex per line. */
module Signaling {
  import opened Common

  // ---------- hex ----------

  /** The character at a position of "0123456789abcdef". */
  function HexDigit(n: nat): (c: char)
    requires n < 16
  {
    if n < 10 then ('0' as int + n) as char else ('a' as int + n - 10) as char
  }

  lemma HexDigitIs(n: nat)
    requires n < 16
    ensures HexDigit(n) == "0123456789abcdef"[n]
    ensures HexDigitVal("0123456789abcdef"[n]) == HexDigitVal("0123456789ABCDEF"[n]) == n
  {
  }

  function HexDigitVal(c: char): int {
    if '0' <= c <= '9' then c as int - '0' as int
    else if 'a' <= c <= 'f' then c as int - 'a' as int + 10
    else if 'A' <= c <= 'F' then c as int - 'A' as int + 10
    else -1
  }

  function HexPair(b: byte): (t: string)
    ensures |t| == 2
  {
    [HexDigit(b / 16), HexDigit(b % 16)]
  }

  function HexText(msg: Bytes): string {
    if msg == [] then "" else HexPair(msg[0]) + HexText(msg[1..])
  }

  /** Two digits per byte; a digit left over is ignored. */
  function HexDecode(t: string): Option<Bytes> {
    if |t| < 2 then Some([])
    else
      var dh, dl := HexDigitVal(t[0]), HexDigitVal(t[1]);
      if dh < 0 || dl < 0 then None
      else
        match HexDecode(t[2..])
        case None => None
        case Some(rest) => Some([dh * 16 + dl] + rest)
  }

  lemma HexPairValue(b: byte)
    ensures HexDigitVal(HexPair(b)[0]) == b / 16 && HexDigitVal(HexPair(b)[1]) == b % 16
    ensures b / 16 * 16 + b % 16 == b
  {
  }

  lemma DecodeStep(b: byte, rest: string)
    requires HexDecode(rest).Some?
    ensures HexDecode(HexPair(b) + rest) == Some([b] + HexDecode(rest).value)
  {
    HexPairValue(b);
    assert (HexPair(b) + rest)[2..] == rest;
  }

  lemma {:induction false} HexRoundTrip(msg: Bytes)
    ensures HexDecode(HexText(msg)) == Some(msg)
  {
    if msg != [] {
      HexRoundTrip(msg[1..]);
      DecodeStep(msg[0], HexText(msg[1..]));
      assert msg == [msg[0]] + msg[1..];
    }
  }

  lemma {:induction false} HexTextChars(msg: Bytes)
    ensures forall i :: 0 <= i < |HexText(msg)| ==> HexDigitVal(HexText(msg)[i]) >= 0
  {
    if msg != [] {
      HexPairValue(msg[0]);
      HexTextChars(msg[1..]);
    }
  }

  function LowerDigit(c: char): char {
    if 'A' <= c <= 'F' then (c as int + 32) as char else c
  }

  /** The digits, two to a byte, in lower case. */
  function WholePairs(t: string): string {
    seq(|t| / 2 * 2, i requires 0 <= i < |t| / 2 * 2 => LowerDigit(t[i]))
  }

  lemma DigitOfValue(c: char)
    requires HexDigitVal(c) >= 0
    ensures HexDigitVal(c) < 16 && HexDigit(HexDigitVal(c)) == LowerDigit(c)
  {
  }

  lemma WholePairsStep(t: string)
    requires |t| >= 2
    ensures WholePairs(t) == [LowerDigit(t[0]), LowerDigit(t[1])] + WholePairs(t[2..])
  {
  }

  ghost predicate AllDigits(t: string) {
    forall i :: 0 <= i < |t| / 2 * 2 ==> HexDigitVal(t[i]) >= 0
  }

  lemma AllDigitsStep(t: string)
    requires |t| >= 2
    ensures AllDigits(t) <==> HexDigitVal(t[0]) >= 0 && HexDigitVal(t[1]) >= 0 && AllDigits(t[2..])
  {
    var rest := t[2..];
    assert |t| / 2 * 2 == |rest| / 2 * 2 + 2;
    assert forall i :: 0 <= i < |rest| ==> rest[i] == t[i + 2];
    if HexDigitVal(t[0]) >= 0 && HexDigitVal(t[1]) >= 0 && AllDigits(rest) {
      forall i | 0 <= i < |t| / 2 * 2 ensures HexDigitVal(t[i]) >= 0 {
        assert i >= 2 ==> t[i] == rest[i - 2];
      }
    }
  }

  lemma {:induction false} DecodesDigits(t: string)
    ensures HexDecode(t).Some? <==> AllDigits(t)
  {
    if |t| >= 2 {
      DecodesDigits(t[2..]);
      AllDigitsStep(t);
    }
  }

  lemma DecodedPair(dh: nat, dl: nat, rest: Bytes)
    requires dh < 16 && dl < 16
    ensures HexText([dh * 16 + dl] + rest) == [HexDigit(dh), HexDigit(dl)] + HexText(rest)
  {
    assert (dh * 16 + dl) / 16 == dh && (dh * 16 + dl) % 16 == dl;
    assert ([dh * 16 + dl] + rest)[1..] == rest;
  }

  lemma PairDecoded(t: string)
    requires |t| >= 2 && HexDecode(t).Some?
    ensures HexText(HexDecode(t).value) == [LowerDigit(t[0]), LowerDigit(t[1])] + HexText(HexDecode(t[2..]).value)
  {
    var dh, dl := HexDigitVal(t[0]), HexDigitVal(t[1]);
    DigitOfValue(t[0]);
    DigitOfValue(t[1]);
    var rest := HexDecode(t[2..]).value;
    assert HexDecode(t).value == [dh * 16 + dl] + rest;
    DecodedPair(dh, dl, rest);
  }

  lemma {:induction false} DecodesPairs(t: string)
    requires HexDecode(t).Some?
    ensures HexText(HexDecode(t).value) == WholePairs(t)
  {
    if |t| >= 2 {
      PairDecoded(t);
      WholePairsStep(t);
      DecodesPairs(t[2..]);
    }
  }

  /** Decoding succeeds exactly when the pairs are all digits, and then yields the bytes they encode. */
  lemma {:induction false} HexDecodeExact(t: string)
    ensures HexDecode(t).Some? <==> AllDigits(t)
    ensures HexDecode(t).Some? ==> HexText(HexDecode(t).value) == WholePairs(t)
  {
    DecodesDigits(t);
    if HexDecode(t).Some? {
      DecodesPairs(t);
    }
  }

  // ---------- lines ----------

  function Find(s: string, c: char): (r: Option<nat>)
    ensures r.Some? ==> r.value < |s| && s[r.value] == c && forall i :: 0 <= i < r.value ==> s[i] != c
    ensures r.None? ==> forall i :: 0 <= i < |s| ==> s[i] != c
  {
    if s == "" then None
    else if s[0] == c then Some(0)
    else
      match Find(s[1..], c)
      case None => None
      case Some(i) => Some(i + 1)
  }

  /** The payload of a line, if it has a space with hex after it. */
  function Payload(line: string): Option<Bytes> {
    match Find(line, ' ')
    case None => None
    case Some(spc) => HexDecode(line[spc + 1..])
  }

  ghost predicate IsSignal(line: string, peer: string, hex: string, message: Bytes) {
    line == peer + " " + hex && NoChar(peer, ' ') && HexDecode(hex) == Some(message)
  }

  /** A line has the payload that the hex digits after its first space spell, and without a space none. */
  lemma PayloadIff(line: string, message: Bytes)
    ensures Payload(line) == Some(message) <==>
      exists peer, hex :: IsSignal(line, peer, hex, message)
  {
    if Payload(line) == Some(message) {
      var spc := Find(line, ' ').value;
      assert line == line[..spc] + " " + line[spc + 1..];
      assert IsSignal(line, line[..spc], line[spc + 1..], message);
    }
    forall peer, hex | IsSignal(line, peer, hex, message)
      ensures Payload(line) == Some(message)
    {
      FindAt(line, ' ', |peer|);
      assert line[|peer| + 1..] == hex;
    }
  }

  function AsList<T>(o: Option<T>): seq<T> {
    match o
    case None => []
    case Some(x) => [x]
  }

  /** The payloads of the complete lines of `buffered`, in order; lines without one are skipped. */
  function Dispatched(buffered: string): seq<Bytes> {
    match Find(buffered, '\n')
    case None => []
    case Some(l) => AsList(Payload(buffered[..l])) + Dispatched(buffered[l + 1..])
  }

  /** What follows the last complete line. */
  function Leftover(buffered: string): string {
    match Find(buffered, '\n')
    case None => buffered
    case Some(l) => Leftover(buffered[l + 1..])
  }

  lemma FindAppend(a: string, b: string, c: char)
    requires Find(a, c).Some?
    ensures Find(a + b, c) == Find(a, c)
  {
    var l := Find(a, c).value;
    FindAt(a + b, c, l);
  }

  lemma FindAt(s: string, c: char, l: nat)
    requires l < |s| && s[l] == c && forall i :: 0 <= i < l ==> s[i] != c
    ensures Find(s, c) == Some(l)
  {
    assert Find(s, c).Some?;
    assert Find(s, c).value == l;
  }

  /** Data that comes in two parts is dispatched as if it came in one. */
  lemma {:induction false} DispatchedAppend(a: string, b: string)
    ensures Dispatched(a + b) == Dispatched(a) + Dispatched(Leftover(a) + b)
    ensures Leftover(a + b) == Leftover(Leftover(a) + b)
    decreases |a|
  {
    match Find(a, '\n')
    case None =>
    case Some(l) =>
      var rest := a[l + 1..];
      FindAppend(a, b, '\n');
      assert (a + b)[..l] == a[..l] && (a + b)[l + 1..] == rest + b;
      DispatchedAppend(rest, b);
      Associative(AsList(Payload(a[..l])), Dispatched(rest), Dispatched(Leftover(rest) + b));
  }

  /** What has been dispatched and what is left after a series of chunks, each dispatched at once. */
  function AfterChunks(chunks: seq<string>): (seq<Bytes>, string) {
    if chunks == [] then ([], "")
    else
      var (done, left) := AfterChunks(chunks[..|chunks| - 1]);
      var buffered := left + chunks[|chunks| - 1];
      (done + Dispatched(buffered), Leftover(buffered))
  }

  function Joined(chunks: seq<string>): string {
    if chunks == [] then "" else Joined(chunks[..|chunks| - 1]) + chunks[|chunks| - 1]
  }

  /** The way a stream is split into chunks makes no difference. */
  lemma {:induction false} ChunkingIrrelevant(chunks: seq<string>)
    ensures AfterChunks(chunks) == (Dispatched(Joined(chunks)), Leftover(Joined(chunks)))
  {
    if chunks != [] {
      var before, last := chunks[..|chunks| - 1], chunks[|chunks| - 1];
      ChunkingIrrelevant(before);
      DispatchedAppend(Joined(before), last);
    }
  }

  // ---------- signals ----------

  /** The line sent for a message to a peer. */
  function SignalText(peer: string, msg: Bytes): string {
    peer + " " + HexText(msg) + "\n"
  }

  ghost predicate NoChar(s: string, c: char) {
    forall i :: 0 <= i < |s| ==> s[i] != c
  }

  /** Names the protocol can carry. */
  ghost predicate OneWord(name: string) {
    NoChar(name, ' ') && NoChar(name, '\n')
  }

  lemma HexTextPlain(msg: Bytes)
    ensures NoChar(HexText(msg), '\n') && NoChar(HexText(msg), ' ')
  {
    HexTextChars(msg);
  }

  lemma LineOf(s: string, rest: string)
    requires NoChar(s, '\n')
    ensures Find(s + "\n" + rest, '\n') == Some(|s|)
    ensures (s + "\n" + rest)[..|s|] == s && (s + "\n" + rest)[|s| + 1..] == rest
  {
    FindAt(s + "\n" + rest, '\n', |s|);
  }

  lemma PayloadOf(name: string, msg: Bytes)
    requires OneWord(name)
    ensures Payload(name + " " + HexText(msg)) == Some(msg)
  {
    var line := name + " " + HexText(msg);
    FindAt(line, ' ', |name|);
    assert line[|name| + 1..] == HexText(msg);
    HexRoundTrip(msg);
  }

  /** A signal at the head of the buffer is dispatched as the message it was made from. */
  lemma SignalDispatched(name: string, msg: Bytes, rest: string)
    requires OneWord(name)
    ensures Dispatched(SignalText(name, msg) + rest) == [msg] + Dispatched(rest)
    ensures Leftover(SignalText(name, msg) + rest) == Leftover(rest)
  {
    var line := name + " " + HexText(msg);
    HexTextPlain(msg);
    LineOf(line, rest);
    PayloadOf(name, msg);
  }
}
