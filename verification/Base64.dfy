/**
 * Base64 text encoding with line breaks (section 4 of RFC 4648): what the encoder writes and the
 * decoder reads, and the two algorithms working on buffers.
 */
module Base64 {
  import opened Common

  type digit = x: int | 0 <= x < 64

  const GROUPS_PER_LINE := 18

  // The type sizes are computed in; 64 bits wide on the platforms modelled.
  const STR_SIZE := 0x1_0000_0000_0000_0000
  const UINT32_SIZE := 0x1_0000_0000

  // ---------- the alphabet ----------

  /** The alphabet's character for a digit. */
  function DigitChar(d: digit): char {
    if d < 26 then ('A' as int + d) as char
    else if d < 52 then ('a' as int + d - 26) as char
    else if d < 62 then ('0' as int + d - 52) as char
    else if d == 62 then '+'
    else '/'
  }

  /** The decoder's table: a digit, -2 for the padding character, -1 for any other. */
  function DigitOf(c: char): int {
    if 'A' <= c <= 'Z' then c as int - 'A' as int
    else if 'a' <= c <= 'z' then c as int - 'a' as int + 26
    else if '0' <= c <= '9' then c as int - '0' as int + 52
    else if c == '+' then 62
    else if c == '/' then 63
    else if c == '=' then -2
    else -1
  }

  lemma DigitOfChar(d: digit)
    ensures DigitOf(DigitChar(d)) == d
  {
  }

  // ---------- what the decoder reads ----------

  datatype Reading = End | Ignored | Invalid | Digit(value: digit)

  /** What the decoder makes of one character. */
  function Read(c: char, ignoreInvalid: bool): Reading {
    var d := DigitOf(c);
    if d >= 0 then Digit(d)
    else if d == -2 || c == '\0' then End
    else if ignoreInvalid || c in "\r\n\t " then Ignored
    else Invalid
  }

  /** The digits up to the end of the text; `None` if an invalid character comes first. */
  function Digits(text: string, ignoreInvalid: bool): Option<seq<digit>> {
    if text == "" then Some([])
    else
      match Read(text[0], ignoreInvalid)
      case End => Some([])
      case Invalid => None
      case Ignored => Digits(text[1..], ignoreInvalid)
      case Digit(d) => Prepend([d], Digits(text[1..], ignoreInvalid))
  }

  function Prepend(done: seq<digit>, rest: Option<seq<digit>>): Option<seq<digit>> {
    match rest
    case None => None
    case Some(ds) => Some(done + ds)
  }

  /** The number formed by base 64 digits after a leading one bit. */
  function Sentinel(ds: seq<digit>): nat {
    if ds == [] then 1 else 64 * Sentinel(ds[..|ds| - 1]) + ds[|ds| - 1]
  }

  /** The low byte of a number shifted right. */
  function ByteAt(v: nat, divisor: nat): byte
    requires divisor > 0
  {
    v / divisor % 0x100
  }

  /** The whole bytes carried by digits, four digits to three bytes. */
  function Pack(ds: seq<digit>): Bytes {
    if |ds| >= 4 then PackGroup(ds[0], ds[1], ds[2], ds[3]) + Pack(ds[4..])
    else if |ds| == 3 then PackGroup(ds[0], ds[1], ds[2], 0)[..2]
    else if |ds| == 2 then PackGroup(ds[0], ds[1], 0, 0)[..1]
    else []
  }

  function PackGroup(a: digit, b: digit, c: digit, d: digit): (r: Bytes)
    ensures |r| == 3
  {
    Bytes24(GroupValue(a, b, c, d))
  }

  function GroupValue(a: int, b: int, c: int, d: int): int {
    ((a * 64 + b) * 64 + c) * 64 + d
  }

  function Bytes24(v: nat): (r: Bytes)
    ensures |r| == 3
  {
    [ByteAt(v, 0x10000), ByteAt(v, 0x100), ByteAt(v, 1)]
  }

  function Decoded(text: string, ignoreInvalid: bool): Option<Bytes> {
    match Digits(text, ignoreInvalid)
    case None => None
    case Some(ds) => Some(Pack(ds))
  }

  // ---------- what the encoder writes ----------

  function Bits24(a: byte, b: byte, c: byte): nat {
    a * 0x10000 + b * 0x100 + c
  }

  function SextetAt(v: nat, divisor: nat): digit
    requires divisor > 0
  {
    v / divisor % 64
  }

  /** The next three bytes as one number, with zeros for those missing at the end. */
  function GroupBits(data: Bytes): nat
    requires data != []
  {
    Bits24(data[0], if |data| > 1 then data[1] else 0, if |data| > 2 then data[2] else 0)
  }

  /** The characters for the next three bytes, or for the last one or two with padding. */
  function GroupText(data: Bytes): (t: string)
    requires data != []
    ensures |t| == 4
  {
    var v := GroupBits(data);
    [DigitChar(SextetAt(v, 0x40000)),
     DigitChar(SextetAt(v, 0x1000)),
     if |data| > 1 then DigitChar(SextetAt(v, 64)) else '=',
     if |data| > 2 then DigitChar(SextetAt(v, 1)) else '=']
  }

  function AfterGroup(data: Bytes): Bytes {
    if |data| > 3 then data[3..] else []
  }

  /** How many groups fit on the line after one more, a full line having been broken first. */
  function NextLeft(left: nat): nat {
    if left == 0 then GROUPS_PER_LINE - 1 else left - 1
  }

  /** The next group, after a line break if the line is full. */
  function GroupOnLine(data: Bytes, lineBreak: string, left: nat): (t: string)
    requires data != []
  {
    if left == 0 then lineBreak + GroupText(data) else GroupText(data)
  }

  /** The text for `data` when `left` more groups fit on the current line. */
  function EncodeFrom(data: Bytes, lineBreak: string, left: nat): string
    decreases |data|
  {
    if data == [] then lineBreak
    else GroupOnLine(data, lineBreak, left) + EncodeFrom(AfterGroup(data), lineBreak, NextLeft(left))
  }

  function Encoded(data: Bytes, lineBreak: string): string {
    EncodeFrom(data, lineBreak, GROUPS_PER_LINE)
  }

  function Groups(dataSize: nat): nat {
    (dataSize + 2) / 3
  }

  /** The buffer size the encoder announces, computed in fixed-width arithmetic. */
  function Base64EncodeMaxOutput(dataSize: nat, breakSize: nat): uint32 {
    var groups := Groups(dataSize) % STR_SIZE;
    (1 + groups * 4 + breakSize * (1 + (groups - 1) % STR_SIZE / GROUPS_PER_LINE)) % UINT32_SIZE
  }

  // ---------- decoding what was encoded ----------

  /** The digits that carry the data: four for three bytes, three for a last two, two for a last one. */
  function Sextets(data: Bytes): seq<digit> {
    if data == [] then []
    else
      var ds := Sextets24(GroupBits(data));
      if |data| == 1 then ds[..2]
      else if |data| == 2 then ds[..3]
      else ds + Sextets(data[3..])
  }

  function Sextets24(v: nat): (ds: seq<digit>)
    ensures |ds| == 4
  {
    [SextetAt(v, 0x40000), SextetAt(v, 0x1000), SextetAt(v, 64), SextetAt(v, 1)]
  }

  lemma DivideByPowersOf64(v: nat)
    ensures v / 0x1000 == v / 64 / 64
    ensures v / 0x40000 == v / 64 / 64 / 64
  {
  }

  lemma Horner(v: nat)
    ensures ((v / 64 / 64 / 64 * 64 + v / 64 / 64 % 64) * 64 + v / 64 % 64) * 64 + v % 64 == v
  {
  }

  lemma SextetsRejoin(v: nat)
    requires v < 0x100_0000
    ensures var ds := Sextets24(v); PackGroup(ds[0], ds[1], ds[2], ds[3]) == Bytes24(v)
  {
    DivideByPowersOf64(v);
    Horner(v);
    var ds := Sextets24(v);
    assert ds[0] == v / 64 / 64 / 64 by { assert v / 0x40000 < 64; }
    assert ds[1] == v / 64 / 64 % 64 && ds[2] == v / 64 % 64 && ds[3] == v % 64;
  }

  lemma BytesSplit(a: byte, b: byte, c: byte)
    ensures Bytes24(Bits24(a, b, c)) == [a, b, c]
  {
    var v := Bits24(a, b, c);
    assert v / 0x10000 == a;
    assert v / 0x100 == a * 0x100 + b;
  }

  lemma Regroup(a: byte, b: byte, c: byte)
    ensures var ds := Sextets24(Bits24(a, b, c)); PackGroup(ds[0], ds[1], ds[2], ds[3]) == [a, b, c]
  {
    assert Bits24(a, b, c) < 0x100_0000;
    SextetsRejoin(Bits24(a, b, c));
    BytesSplit(a, b, c);
  }

  lemma MultiplesOf64(k: nat)
    ensures 64 * k % 64 == 0 && 64 * k / 64 == k && 64 * k / 1 == 64 * k
  {
  }

  /** The digits a shorter group leaves out are zero. */
  lemma ShortGroup(a: byte, b: byte)
    ensures Sextets24(Bits24(a, b, 0))[3] == 0
    ensures b == 0 ==> Sextets24(Bits24(a, b, 0))[2] == 0
  {
    var k := 4 * (a * 0x100 + b);
    assert Bits24(a, b, 0) == 64 * k;
    MultiplesOf64(k);
    MultiplesOf64(16 * a);
    assert b == 0 ==> k == 64 * (16 * a);
  }

  lemma {:induction false} PackSextets(data: Bytes)
    ensures Pack(Sextets(data)) == data
    decreases |data|
  {
    if |data| == 1 {
      Regroup(data[0], 0, 0);
      ShortGroup(data[0], 0);
      assert data == [data[0]];
    } else if |data| == 2 {
      Regroup(data[0], data[1], 0);
      ShortGroup(data[0], data[1]);
      assert data == [data[0], data[1]];
    } else if |data| >= 3 {
      PackSextets(data[3..]);
      Regroup(data[0], data[1], data[2]);
      var ds := Sextets(data);
      assert ds[4..] == Sextets(data[3..]);
      assert Pack(ds) == [data[0], data[1], data[2]] + data[3..];
    }
  }

  /** Every character of a line break is one the decoder passes over. */
  ghost predicate Skippable(lineBreak: string, ignoreInvalid: bool) {
    forall i :: 0 <= i < |lineBreak| ==> Read(lineBreak[i], ignoreInvalid) == Ignored
  }

  lemma {:induction false} DigitsSkip(lineBreak: string, rest: string, ignoreInvalid: bool)
    requires Skippable(lineBreak, ignoreInvalid)
    ensures Digits(lineBreak + rest, ignoreInvalid) == Digits(rest, ignoreInvalid)
  {
    if lineBreak == "" {
      assert lineBreak + rest == rest;
    } else {
      assert (lineBreak + rest)[1..] == lineBreak[1..] + rest;
      DigitsSkip(lineBreak[1..], rest, ignoreInvalid);
    }
  }

  /** A character of the alphabet contributes its digit. */
  lemma DigitsStep(d: digit, rest: string, ignoreInvalid: bool)
    ensures Digits([DigitChar(d)] + rest, ignoreInvalid) == Prepend([d], Digits(rest, ignoreInvalid))
  {
    DigitOfChar(d);
    assert ([DigitChar(d)] + rest)[1..] == rest;
  }

  /** Characters of the alphabet contribute their digits. */
  lemma {:induction false} DigitsRun(t: string, ds: seq<digit>, rest: string, tail: seq<digit>, ignoreInvalid: bool)
    requires |t| == |ds| && forall i :: 0 <= i < |t| ==> t[i] == DigitChar(ds[i])
    requires Digits(rest, ignoreInvalid) == Some(tail)
    ensures Digits(t + rest, ignoreInvalid) == Some(ds + tail)
  {
    if t == "" {
      assert t + rest == rest && ds + tail == tail;
    } else {
      DigitsRun(t[1..], ds[1..], rest, tail, ignoreInvalid);
      DigitsStep(ds[0], t[1..] + rest, ignoreInvalid);
      assert t + rest == [DigitChar(ds[0])] + (t[1..] + rest);
      assert [ds[0]] + (ds[1..] + tail) == ds + tail;
    }
  }

  lemma DigitsGroup(data: Bytes, rest: string, ignoreInvalid: bool)
    requires data != [] && Digits(rest, ignoreInvalid) == Some(Sextets(AfterGroup(data)))
    ensures Digits(GroupText(data) + rest, ignoreInvalid) == Some(Sextets(data))
  {
    var t, ds := GroupText(data), Sextets24(GroupBits(data));
    if |data| < 3 {
      var n := |data| + 1;
      assert (t[n..] + rest)[0] == '=';
      DigitsRun(t[..n], ds[..n], t[n..] + rest, [], ignoreInvalid);
      SplitBefore(t, n, rest);
      assert ds[..n] + [] == Sextets(data);
    } else {
      assert AfterGroup(data) == data[3..];
      DigitsRun(t, ds, rest, Sextets(data[3..]), ignoreInvalid);
    }
  }

  lemma {:induction false} DigitsOfEncoded(data: Bytes, lineBreak: string, left: nat, ignoreInvalid: bool)
    requires Skippable(lineBreak, ignoreInvalid)
    ensures Digits(EncodeFrom(data, lineBreak, left), ignoreInvalid) == Some(Sextets(data))
    decreases |data|
  {
    if data == [] {
      DigitsSkip(lineBreak, "", ignoreInvalid);
      assert lineBreak + "" == lineBreak;
    } else {
      var left' := NextLeft(left);
      var rest := EncodeFrom(AfterGroup(data), lineBreak, left');
      DigitsOfEncoded(AfterGroup(data), lineBreak, left', ignoreInvalid);
      DigitsGroup(data, rest, ignoreInvalid);
      if left == 0 {
        DigitsSkip(lineBreak, GroupText(data) + rest, ignoreInvalid);
        assert lineBreak + GroupText(data) + rest == lineBreak + (GroupText(data) + rest);
      }
    }
  }

  /**
   * Decoding the encoding of any byte string gives it back, for every line break the decoder
   * passes over: none, a line feed, or a carriage return and line feed among them.
   */
  lemma RoundTrip(data: Bytes, lineBreak: string, ignoreInvalid: bool)
    requires Skippable(lineBreak, ignoreInvalid)
    ensures Decoded(Encoded(data, lineBreak), ignoreInvalid) == Some(data)
  {
    DigitsOfEncoded(data, lineBreak, GROUPS_PER_LINE, ignoreInvalid);
    PackSextets(data);
  }

  lemma UsualLineBreaks(ignoreInvalid: bool)
    ensures Skippable("", ignoreInvalid) && Skippable("\n", ignoreInvalid) && Skippable("\r\n", ignoreInvalid)
  {
  }

  // ---------- lines ----------

  const BYTES_PER_LINE := 54
  const CHARS_PER_LINE := 72

  lemma {:induction false} NoBreaks(data: Bytes, left: nat, left': nat)
    ensures EncodeFrom(data, "", left) == EncodeFrom(data, "", left')
    decreases |data|
  {
    if data != [] {
      NoBreaks(AfterGroup(data), NextLeft(left), NextLeft(left'));
      assert "" + GroupText(data) == GroupText(data);
    }
  }

  /** The text without line breaks. */
  function Unbroken(data: Bytes): string
    decreases |data|
  {
    if data == [] then "" else GroupText(data) + Unbroken(AfterGroup(data))
  }

  lemma {:induction false} UnbrokenSize(data: Bytes)
    ensures |Unbroken(data)| == 4 * Groups(|data|)
    decreases |data|
  {
    if data != [] {
      UnbrokenSize(AfterGroup(data));
      assert Groups(|AfterGroup(data)|) == Groups(|data|) - 1;
    }
  }

  /** Data that fits on the current line is one line, ended by the line break. */
  lemma {:induction false} LastLine(data: Bytes, lineBreak: string, left: nat)
    requires |data| <= 3 * left
    ensures EncodeFrom(data, lineBreak, left) == Unbroken(data) + lineBreak
    decreases |data|
  {
    if data != [] {
      LastLine(AfterGroup(data), lineBreak, left - 1);
      Associative(GroupText(data), Unbroken(AfterGroup(data)), lineBreak);
    } else {
      assert "" + lineBreak == lineBreak;
    }
  }

  /** A full line is broken before anything more is written. */
  lemma BrokenLine(data: Bytes, lineBreak: string)
    requires data != []
    ensures EncodeFrom(data, lineBreak, 0) == lineBreak + Encoded(data, lineBreak)
  {
    Associative(lineBreak, GroupText(data), EncodeFrom(AfterGroup(data), lineBreak, GROUPS_PER_LINE - 1));
  }

  /** Data that does not: `head` fills the rest of this line. */
  lemma {:induction false} FullLine(head: Bytes, tail: Bytes, lineBreak: string, left: nat)
    requires |head| == 3 * left && tail != []
    ensures EncodeFrom(head + tail, lineBreak, left) == Unbroken(head) + EncodeFrom(tail, lineBreak, 0)
    decreases left
  {
    if left == 0 {
      assert head + tail == tail;
    } else {
      var rest := EncodeFrom(tail, lineBreak, 0);
      TakeGroup(head, tail);
      assert EncodeFrom(head[3..] + tail, lineBreak, left - 1) == Unbroken(head[3..]) + rest by {
        FullLine(head[3..], tail, lineBreak, left - 1);
      }
      Associative(GroupText(head), Unbroken(head[3..]), rest);
    }
  }

  lemma TakeGroup(head: Bytes, tail: Bytes)
    requires |head| >= 3 && tail != []
    ensures GroupText(head + tail) == GroupText(head)
    ensures AfterGroup(head + tail) == head[3..] + tail && AfterGroup(head) == head[3..]
  {
  }

  /** The first line of longer data is 72 characters and a line break; the rest is encoded alike. */
  lemma FirstLine(head: Bytes, tail: Bytes, lineBreak: string)
    requires |head| == 54 && tail != []
    ensures Encoded(head + tail, lineBreak) == Unbroken(head) + (lineBreak + Encoded(tail, lineBreak))
    ensures |Unbroken(head)| == 72
  {
    FullLine(head, tail, lineBreak, GROUPS_PER_LINE);
    BrokenLine(tail, lineBreak);
    UnbrokenSize(head);
  }

  // ---------- sizes ----------

  /** Line breaks between groups when `left` more groups fit on the current line. */
  function InnerBreaks(groups: nat, left: nat): nat {
    if groups <= left then 0 else (groups - left + GROUPS_PER_LINE - 1) / GROUPS_PER_LINE
  }

  lemma {:induction false} EncodeFromSize(data: Bytes, lineBreak: string, left: nat)
    ensures |EncodeFrom(data, lineBreak, left)|
      == 4 * Groups(|data|) + |lineBreak| * (InnerBreaks(Groups(|data|), left) + 1)
    decreases |data|
  {
    if data != [] {
      var left' := NextLeft(left);
      EncodeFromSize(AfterGroup(data), lineBreak, left');
      assert Groups(|AfterGroup(data)|) == Groups(|data|) - 1;
      BreaksStep(|lineBreak|, Groups(|data|), left, left');
    }
  }

  lemma BreaksStep(size: nat, groups: nat, left: nat, left': nat)
    requires groups > 0 && left' == NextLeft(left)
    ensures size * (InnerBreaks(groups, left) + 1)
      == size * (InnerBreaks(groups - 1, left') + 1) + if left == 0 then size else 0
  {
    var before, after := InnerBreaks(groups, left), InnerBreaks(groups - 1, left');
    assert before == if left == 0 then after + 1 else after;
    Distribute(size, after + 1);
  }

  lemma Distribute(a: nat, b: nat)
    ensures a * (b + 1) == a * b + a
  {
  }

  /** What the encoder needs, in unbounded arithmetic: the text and a terminator. */
  function Required(dataSize: nat, breakSize: nat): nat {
    if dataSize == 0 then 1 + breakSize
    else 1 + 4 * Groups(dataSize) + breakSize * (1 + (Groups(dataSize) - 1) / GROUPS_PER_LINE)
  }

  lemma EncodedSize(data: Bytes, lineBreak: string)
    ensures |Encoded(data, lineBreak)| + 1 == Required(|data|, |lineBreak|)
  {
    EncodeFromSize(data, lineBreak, GROUPS_PER_LINE);
    FirstLineBreaks(Groups(|data|));
    if data == [] {
      assert Groups(0) == 0 && InnerBreaks(0, GROUPS_PER_LINE) == 0;
    }
  }

  lemma FirstLineBreaks(groups: nat)
    ensures groups > 0 ==> InnerBreaks(groups, GROUPS_PER_LINE) == (groups - 1) / GROUPS_PER_LINE
  {
  }

  /** The announced size is the exact one, for data that is not empty and sizes that fit 32 bits. */
  lemma AnnouncedSizeExact(data: Bytes, lineBreak: string)
    requires data != [] && Required(|data|, |lineBreak|) < UINT32_SIZE
    ensures Base64EncodeMaxOutput(|data|, |lineBreak|) == |Encoded(data, lineBreak)| + 1
  {
    EncodedSize(data, lineBreak);
    AnnouncedIsRequired(|data|, |lineBreak|);
  }

  lemma AnnouncedIsRequired(dataSize: nat, breakSize: nat)
    requires dataSize > 0 && Required(dataSize, breakSize) < UINT32_SIZE
    ensures Base64EncodeMaxOutput(dataSize, breakSize) == Required(dataSize, breakSize)
  {
    var g := Groups(dataSize);
    var size := breakSize * (1 + (g - 1) / GROUPS_PER_LINE);
    assert 0 <= size by { ProductNonNegative(breakSize, 1 + (g - 1) / GROUPS_PER_LINE); }
    Unwrapped(g);
    assert Required(dataSize, breakSize) == 1 + 4 * g + size;
  }

  lemma Unwrapped(g: nat)
    requires 0 < g < STR_SIZE
    ensures g % STR_SIZE == g && (g - 1) % STR_SIZE == g - 1
  {
  }

  lemma ProductNonNegative(a: nat, b: nat)
    ensures 0 <= a * b
  {
  }

  lemma {:induction false} PackSize(ds: seq<digit>)
    ensures |Pack(ds)| == |ds| * 3 / 4
  {
    if |ds| >= 4 {
      PackSize(ds[4..]);
    }
  }

  lemma {:induction false} DigitsSize(text: string, ignoreInvalid: bool)
    ensures Digits(text, ignoreInvalid).Some? ==> |Digits(text, ignoreInvalid).value| <= |text|
  {
    if text != "" {
      DigitsSize(text[1..], ignoreInvalid);
    }
  }

  /** A decoded text is no longer than three quarters of it, so that much room is always enough. */
  lemma DecodedSize(text: string, ignoreInvalid: bool)
    ensures Decoded(text, ignoreInvalid).Some? ==> |Decoded(text, ignoreInvalid).value| <= |text| * 3 / 4
  {
    DigitsSize(text, ignoreInvalid);
    if Digits(text, ignoreInvalid).Some? {
      PackSize(Digits(text, ignoreInvalid).value);
    }
  }

  /** Text for data that is left holds at least a group and the final line break. */
  lemma EncodeFromRoom(data: Bytes, lineBreak: string, left: nat)
    requires data != []
    ensures |EncodeFrom(data, lineBreak, left)| >= 4 + |lineBreak|
  {
    EncodeFromAtLeastBreak(AfterGroup(data), lineBreak, NextLeft(left));
  }

  lemma {:induction false} EncodeFromAtLeastBreak(data: Bytes, lineBreak: string, left: nat)
    ensures |EncodeFrom(data, lineBreak, left)| >= |lineBreak|
    decreases |data|
  {
    if data != [] {
      EncodeFromAtLeastBreak(AfterGroup(data), lineBreak, NextLeft(left));
    }
  }
}
