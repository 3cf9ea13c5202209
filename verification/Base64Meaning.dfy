/** What base 64 text means, bit by bit (section 4 of RFC 4648), and which texts the decoder takes. */
module Base64Meaning {
  import opened Common
  import opened Base64

  // ---------- the alphabet ----------

  function Between(first: char, size: nat): (s: string)
    requires first as int + size < 0x100
    ensures |s| == size
  {
    seq(size, i requires 0 <= i < size => (first as int + i) as char)
  }

  const ALPHABET: string := Between('A', 26) + Between('a', 26) + Between('0', 10) + "+/"

  lemma InAlphabet(d: digit)
    ensures |ALPHABET| == 64 && DigitChar(d) == ALPHABET[d] && DigitOf(ALPHABET[d]) == d
  {
    var upper, lower, figures := Between('A', 26), Between('a', 26), Between('0', 10);
    assert d < 26 ==> ALPHABET[d] == upper[d];
    assert 26 <= d < 52 ==> ALPHABET[d] == lower[d - 26];
    assert 52 <= d < 62 ==> ALPHABET[d] == figures[d - 52];
    assert 62 <= d ==> ALPHABET[d] == "+/"[d - 62];
  }

  lemma OfAlphabet(c: char)
    ensures c in ALPHABET <==> DigitOf(c) >= 0
    ensures c in ALPHABET ==> DigitOf(c) < 64 && |ALPHABET| == 64 && ALPHABET[DigitOf(c)] == c
  {
    if i :| 0 <= i < |ALPHABET| && ALPHABET[i] == c {
      InAlphabet(i);
    }
    if DigitOf(c) >= 0 {
      InAlphabet(DigitOf(c));
    }
  }

  // ---------- reading ----------

  predicate Stops(c: char) {
    c == '=' || c == '\0'
  }

  /** The text up to padding or a terminator; the rest is not looked at. */
  function Cut(text: string): string {
    if text == "" || Stops(text[0]) then "" else [text[0]] + Cut(text[1..])
  }

  function Letters(text: string): string {
    if text == "" then ""
    else if text[0] in ALPHABET then [text[0]] + Letters(text[1..])
    else Letters(text[1..])
  }

  predicate White(c: char) {
    c == '\r' || c == '\n' || c == '\t' || c == ' '
  }

  /** Nothing but letters of the alphabet and white space. */
  predicate Clean(text: string) {
    forall c :: c in text ==> c in ALPHABET || White(c)
  }

  ghost predicate Spell(ds: seq<digit>, letters: string) {
    |ds| == |letters| && |ALPHABET| == 64 && forall i :: 0 <= i < |ds| ==> letters[i] == ALPHABET[ds[i]]
  }

  lemma CleanStep(c: char, text: string)
    ensures Clean([c] + text) <==> (c in ALPHABET || White(c)) && Clean(text)
  {
    assert forall x :: x in [c] + text <==> x == c || x in text;
  }

  lemma SpellStep(d: digit, ds: seq<digit>, letters: string)
    requires Spell(ds, letters)
    ensures Spell([d] + ds, [DigitChar(d)] + letters)
  {
    InAlphabet(d);
  }

  /**
   * A text is taken exactly if nothing but letters and white space comes before its end, unless other
   * characters are to be passed over; its digits are those its letters stand for.
   */
  lemma {:induction false} DigitsIff(text: string, ignoreInvalid: bool)
    ensures Digits(text, ignoreInvalid).Some? <==> ignoreInvalid || Clean(Cut(text))
    ensures Digits(text, ignoreInvalid).Some? ==> Spell(Digits(text, ignoreInvalid).value, Letters(Cut(text)))
  {
    if text == "" {
      InAlphabet(0);
    } else {
      var c, rest := text[0], text[1..];
      OfAlphabet(c);
      DigitsIff(rest, ignoreInvalid);
      if Stops(c) {
        InAlphabet(0);
      } else {
        CleanStep(c, Cut(rest));
        assert ([c] + Cut(rest))[1..] == Cut(rest);
        if c in ALPHABET && Digits(rest, ignoreInvalid).Some? {
          InAlphabet(DigitOf(c));
          SpellStep(DigitOf(c), Digits(rest, ignoreInvalid).value, Letters(Cut(rest)));
        }
      }
    }
  }

  // ---------- bits ----------

  /** The lowest `width` bits of a number, the highest first. */
  function Bits(n: nat, width: nat): (b: seq<bool>)
    ensures |b| == width
  {
    if width == 0 then [] else Bits(n / 2, width - 1) + [n % 2 == 1]
  }

  function DigitBits(ds: seq<digit>): (b: seq<bool>)
    ensures |b| == 6 * |ds|
  {
    if ds == [] then [] else Bits(ds[0], 6) + DigitBits(ds[1..])
  }

  function ByteBits(bytes: Bytes): (b: seq<bool>)
    ensures |b| == 8 * |bytes|
  {
    if bytes == [] then [] else Bits(bytes[0], 8) + ByteBits(bytes[1..])
  }

  function Pow2(w: nat): nat {
    if w == 0 then 1 else 2 * Pow2(w - 1)
  }

  lemma Halved(hi: nat, lo: nat, p: nat)
    requires p > 0
    ensures (hi * (2 * p) + lo) / 2 == hi * p + lo / 2 && (hi * (2 * p) + lo) % 2 == lo % 2
  {
    var m := hi * p;
    assert hi * (2 * p) == 2 * m;
  }

  lemma {:induction false} JoinedBits(hi: nat, lo: nat, k: nat, w: nat)
    requires lo < Pow2(w)
    ensures Bits(hi * Pow2(w) + lo, k + w) == Bits(hi, k) + Bits(lo, w)
  {
    if w > 0 {
      Pow2Positive(w - 1);
      Halved(hi, lo, Pow2(w - 1));
      JoinedBits(hi, lo / 2, k, w - 1);
    }
  }

  lemma {:induction false} Pow2Positive(w: nat)
    ensures Pow2(w) > 0
  {
    if w > 0 {
      Pow2Positive(w - 1);
    }
  }

  lemma Powers()
    ensures Pow2(6) == 64 && Pow2(8) == 0x100
  {
    assert Pow2(3) == 8;
    assert Pow2(6) == 8 * Pow2(3);
  }

  lemma JoinThree(a: nat, b: nat, c: nat, w: nat, p: nat, v: nat)
    requires p == Pow2(w) && b < p && c < p && v == (a * p + b) * p + c
    ensures Bits(v, w + w + w) == Bits(a, w) + Bits(b, w) + Bits(c, w)
  {
    JoinedBits(a, b, w, w);
    JoinedBits(a * p + b, c, w + w, w);
  }

  lemma JoinSix(high: nat, d: digit, v: nat)
    requires v == high * 64 + d
    ensures Bits(v, 24) == Bits(high, 18) + Bits(d, 6)
  {
    Powers();
    JoinedBits(high, d, 18, 6);
  }

  lemma HighDigits(a: digit, b: digit, c: digit, high: nat)
    requires high == GroupValue(0, a, b, c)
    ensures Bits(high, 18) == Bits(a, 6) + Bits(b, 6) + Bits(c, 6)
  {
    Powers();
    JoinThree(a, b, c, 6, 64, high);
  }

  /** Four digits as one number of 24 bits. */
  lemma FourDigitBits(a: digit, b: digit, c: digit, d: digit, v: nat)
    requires v == GroupValue(a, b, c, d)
    ensures Bits(v, 24) == Bits(a, 6) + Bits(b, 6) + Bits(c, 6) + Bits(d, 6)
  {
    var high: nat := GroupValue(0, a, b, c);
    HighDigits(a, b, c, high);
    JoinSix(high, d, v);
  }

  function Bytes3(a: int, b: int, c: int): int {
    (a * 0x100 + b) * 0x100 + c
  }

  lemma ThreeByteBits(a: byte, b: byte, c: byte)
    ensures Bytes3(a, b, c) >= 0
    ensures Bits(Bytes3(a, b, c), 24) == Bits(a, 8) + Bits(b, 8) + Bits(c, 8)
  {
    Powers();
    JoinThree(a, b, c, 8, 0x100, Bytes3(a, b, c));
  }

  lemma BytesOf24(v: nat)
    requires v < 0x100_0000
    ensures Bytes3(Bytes24(v)[0], Bytes24(v)[1], Bytes24(v)[2]) == v
  {
    assert v / 0x10000 == v / 0x100 / 0x100;
  }

  lemma GroupRange(a: digit, b: digit, c: digit, d: digit)
    ensures 0 <= GroupValue(a, b, c, d) < 0x100_0000
  {
  }

  /** The three bytes of a group have the bits of its four digits. */
  lemma GroupBitsSame(a: digit, b: digit, c: digit, d: digit)
    ensures ByteBits(PackGroup(a, b, c, d)) == DigitBits([a, b, c, d])
  {
    var v := GroupValue(a, b, c, d);
    GroupRange(a, b, c, d);
    BytesOf24(v);
    var r := Bytes24(v);
    ThreeByteBits(r[0], r[1], r[2]);
    FourDigitBits(a, b, c, d, v);
    ThreeBytes(r[0], r[1], r[2]);
    FourDigits(a, b, c, d);
    assert r == [r[0], r[1], r[2]];
  }

  lemma ThreeBytes(a: byte, b: byte, c: byte)
    ensures ByteBits([a, b, c]) == Bits(a, 8) + Bits(b, 8) + Bits(c, 8)
  {
    assert [a, b, c][1..] == [b, c] && [b, c][1..] == [c] && [c][1..] == [];
    assert ByteBits([b, c]) == Bits(b, 8) + Bits(c, 8);
    Associative(Bits(a, 8), Bits(b, 8), Bits(c, 8));
  }

  lemma FourDigits(a: digit, b: digit, c: digit, d: digit)
    ensures DigitBits([a, b, c, d]) == Bits(a, 6) + Bits(b, 6) + Bits(c, 6) + Bits(d, 6)
  {
    assert [a, b, c, d][1..] == [b, c, d] && [b, c, d][1..] == [c, d] && [c, d][1..] == [d] && [d][1..] == [];
    var x, y, z, w := Bits(a, 6), Bits(b, 6), Bits(c, 6), Bits(d, 6);
    assert DigitBits([c, d]) == z + w;
    assert DigitBits([b, c, d]) == y + (z + w);
    Associative(x, y, z + w);
    Associative(x + y, z, w);
  }

  lemma {:induction false} DigitBitsAppend(a: seq<digit>, b: seq<digit>)
    ensures DigitBits(a + b) == DigitBits(a) + DigitBits(b)
  {
    if a == [] {
      assert a + b == b;
    } else {
      DigitBitsAppend(a[1..], b);
      assert (a + b)[1..] == a[1..] + b;
      Associative(Bits(a[0], 6), DigitBits(a[1..]), DigitBits(b));
    }
  }

  lemma {:induction false} ByteBitsAppend(a: Bytes, b: Bytes)
    ensures ByteBits(a + b) == ByteBits(a) + ByteBits(b)
  {
    if a == [] {
      assert a + b == b;
    } else {
      ByteBitsAppend(a[1..], b);
      assert (a + b)[1..] == a[1..] + b;
      Associative(Bits(a[0], 8), ByteBits(a[1..]), ByteBits(b));
    }
  }

  // ---------- decoding ----------

  /**
   * The bytes of a run of digits are its bits, eight at a time; what is left over at the end, fewer
   * than eight, is dropped.
   */
  lemma {:induction false} PackBits(ds: seq<digit>)
    ensures |Pack(ds)| == 6 * |ds| / 8
    ensures ByteBits(Pack(ds)) == DigitBits(ds)[..8 * |Pack(ds)|]
  {
    if |ds| >= 4 {
      var four, rest := ds[..4], ds[4..];
      PackBits(rest);
      GroupBitsSame(ds[0], ds[1], ds[2], ds[3]);
      assert four == [ds[0], ds[1], ds[2], ds[3]] && ds == four + rest;
      DigitBitsAppend(four, rest);
      var group := PackGroup(ds[0], ds[1], ds[2], ds[3]);
      ByteBitsAppend(group, Pack(rest));
    } else {
      PackRestBits(ds);
    }
  }

  lemma ByteBitsTake(bytes: Bytes, n: nat)
    requires n <= |bytes|
    ensures ByteBits(bytes[..n]) == ByteBits(bytes)[..8 * n]
  {
    var front, back := bytes[..n], bytes[n..];
    ByteBitsAppend(front, back);
    assert bytes == front + back;
    TakeFront(ByteBits(front), ByteBits(back));
  }

  lemma DigitBitsTake(ds: seq<digit>, n: nat)
    requires n <= |ds|
    ensures DigitBits(ds[..n]) == DigitBits(ds)[..6 * n]
  {
    var front, back := ds[..n], ds[n..];
    DigitBitsAppend(front, back);
    assert ds == front + back;
    TakeFront(DigitBits(front), DigitBits(back));
  }

  lemma TakeFront(a: seq<bool>, b: seq<bool>)
    ensures (a + b)[..|a|] == a
  {
  }

  lemma TakeTaken(s: seq<bool>, m: nat, n: nat)
    requires m <= n <= |s|
    ensures s[..n][..m] == s[..m]
  {
  }

  lemma PackRestBits(ds: seq<digit>)
    requires |ds| < 4
    ensures |Pack(ds)| == 6 * |ds| / 8
    ensures ByteBits(Pack(ds)) == DigitBits(ds)[..8 * |Pack(ds)|]
  {
    if |ds| == 3 {
      PaddedBits(ds, [ds[0], ds[1], ds[2], 0], 2);
    } else if |ds| == 2 {
      PaddedBits(ds, [ds[0], ds[1], 0, 0], 1);
    }
  }

  lemma PaddedBits(ds: seq<digit>, four: seq<digit>, n: nat)
    requires |four| == 4 && |ds| <= 4 && ds == four[..|ds|] && n <= 3 && 8 * n <= 6 * |ds|
    ensures ByteBits(PackGroup(four[0], four[1], four[2], four[3])[..n]) == DigitBits(ds)[..8 * n]
  {
    GroupBitsSame(four[0], four[1], four[2], four[3]);
    assert four == [four[0], four[1], four[2], four[3]];
    ByteBitsTake(PackGroup(four[0], four[1], four[2], four[3]), n);
    DigitBitsTake(four, |ds|);
    TakeTaken(DigitBits(four), 8 * n, 6 * |ds|);
  }

  /** What decoding yields: the bits of the letters before the end of the text, as whole bytes. */
  lemma DecodedMeans(text: string, ignoreInvalid: bool) returns (ds: seq<digit>)
    ensures Decoded(text, ignoreInvalid).Some? <==> ignoreInvalid || Clean(Cut(text))
    ensures Decoded(text, ignoreInvalid).Some? ==>
      var bytes := Decoded(text, ignoreInvalid).value;
      Spell(ds, Letters(Cut(text))) && |bytes| == 6 * |ds| / 8 && ByteBits(bytes) == DigitBits(ds)[..8 * |bytes|]
  {
    DigitsIff(text, ignoreInvalid);
    ds := [];
    if Digits(text, ignoreInvalid).Some? {
      ds := Digits(text, ignoreInvalid).value;
      PackBits(ds);
    }
  }

  // ---------- encoding ----------

  function Zeros(n: nat): seq<bool> {
    seq(n, _ => false)
  }

  lemma {:induction false} ZeroBits(w: nat)
    ensures Bits(0, w) == Zeros(w)
  {
    if w > 0 {
      ZeroBits(w - 1);
    }
  }

  function Chars(ds: seq<digit>): string {
    if ds == [] then "" else [DigitChar(ds[0])] + Chars(ds[1..])
  }

  function Padding(dataSize: nat): string {
    if dataSize % 3 == 1 then "==" else if dataSize % 3 == 2 then "=" else ""
  }

  lemma SextetsOf24(v: nat)
    requires v < 0x100_0000
    ensures var s := Sextets24(v); GroupValue(s[0], s[1], s[2], s[3]) == v
  {
    assert v / 0x1000 == v / 64 / 64 && v / 0x40000 == v / 64 / 64 / 64;
  }

  lemma SextetBits(v: nat)
    requires v < 0x100_0000
    ensures DigitBits(Sextets24(v)) == Bits(v, 24)
  {
    var s := Sextets24(v);
    SextetsOf24(v);
    FourDigitBits(s[0], s[1], s[2], s[3], v);
    FourDigits(s[0], s[1], s[2], s[3]);
    assert s == [s[0], s[1], s[2], s[3]];
  }

  /** The digits of up to three bytes, padded with zero bytes. */
  lemma GroupDigits(a: byte, b: byte, c: byte)
    ensures DigitBits(Sextets24(Bits24(a, b, c))) == ByteBits([a, b, c])
  {
    SextetBits(Bits24(a, b, c));
    ThreeByteBits(a, b, c);
    assert Bytes3(a, b, c) == Bits24(a, b, c);
    ThreeBytes(a, b, c);
  }

  lemma {:induction false} CharsAppend(a: seq<digit>, b: seq<digit>)
    ensures Chars(a + b) == Chars(a) + Chars(b)
  {
    if a == [] {
      assert a + b == b;
    } else {
      CharsAppend(a[1..], b);
      assert (a + b)[1..] == a[1..] + b;
      Associative([DigitChar(a[0])], Chars(a[1..]), Chars(b));
    }
  }

  /** How many zero bits fill the last digit. */
  function Spare(dataSize: nat): nat {
    if dataSize % 3 == 1 then 4 else if dataSize % 3 == 2 then 2 else 0
  }

  lemma OneByteDigits(a: byte)
    ensures var ds := Sextets24(Bits24(a, 0, 0))[..2]; DigitBits(ds) == ByteBits([a]) + Zeros(4)
  {
    GroupDigits(a, 0, 0);
    DigitBitsTake(Sextets24(Bits24(a, 0, 0)), 2);
    ThreeBytes(a, 0, 0);
    ZeroBits(8);
    OneByteBits(a);
    assert (Bits(a, 8) + Zeros(8) + Zeros(8))[..12] == Bits(a, 8) + Zeros(4);
  }

  lemma OneByteBits(a: byte)
    ensures ByteBits([a]) == Bits(a, 8)
  {
    assert [a][1..] == [];
  }

  lemma TwoByteDigits(a: byte, b: byte)
    ensures var ds := Sextets24(Bits24(a, b, 0))[..3]; DigitBits(ds) == ByteBits([a, b]) + Zeros(2)
  {
    GroupDigits(a, b, 0);
    DigitBitsTake(Sextets24(Bits24(a, b, 0)), 3);
    ThreeBytes(a, b, 0);
    ZeroBits(8);
    OneByteBits(b);
    assert [a, b][1..] == [b];
    assert (Bits(a, 8) + Bits(b, 8) + Zeros(8))[..18] == Bits(a, 8) + Bits(b, 8) + Zeros(2);
  }

  lemma FourChars(ds: seq<digit>)
    requires |ds| == 4
    ensures Chars(ds[..2]) == [DigitChar(ds[0]), DigitChar(ds[1])]
    ensures Chars(ds[..3]) == [DigitChar(ds[0]), DigitChar(ds[1]), DigitChar(ds[2])]
    ensures Chars(ds) == [DigitChar(ds[0]), DigitChar(ds[1]), DigitChar(ds[2]), DigitChar(ds[3])]
  {
    OneAndTwoChars(ds[0], ds[1]);
    OneAndTwoChars(ds[1], ds[2]);
    OneAndTwoChars(ds[2], ds[3]);
    assert ds[..2] == [ds[0], ds[1]];
    assert ds[..3] == [ds[0]] + [ds[1], ds[2]];
    assert ds == [ds[0], ds[1]] + [ds[2], ds[3]];
    CharsAppend([ds[0]], [ds[1], ds[2]]);
    CharsAppend([ds[0], ds[1]], [ds[2], ds[3]]);
  }

  lemma OneAndTwoChars(a: digit, b: digit)
    ensures Chars([a]) == [DigitChar(a)] && Chars([a, b]) == [DigitChar(a), DigitChar(b)]
  {
    assert [a][1..] == [] && [a, b][1..] == [b] && [b][1..] == [];
  }

  lemma GroupChars(data: Bytes)
    requires data != []
    ensures var ds := Sextets24(GroupBits(data));
      GroupText(data) ==
        (if |data| == 1 then Chars(ds[..2]) + "==" else if |data| == 2 then Chars(ds[..3]) + "=" else Chars(ds))
  {
    FourChars(Sextets24(GroupBits(data)));
  }

  lemma SextetsStep(data: Bytes)
    requires |data| >= 3
    ensures Sextets(data) == Sextets24(GroupBits(data)) + Sextets(data[3..])
    ensures Unbroken(data) == GroupText(data) + Unbroken(data[3..])
  {
  }

  lemma SextetsLast(data: Bytes)
    ensures |data| == 1 ==> Sextets(data) == Sextets24(Bits24(data[0], 0, 0))[..2]
    ensures |data| == 2 ==> Sextets(data) == Sextets24(Bits24(data[0], data[1], 0))[..3]
    ensures 1 <= |data| <= 2 ==> Unbroken(data) == GroupText(data)
  {
    assert 1 <= |data| <= 2 ==> Unbroken(AfterGroup(data)) == "";
  }

  lemma SextetsOfGroup(data: Bytes, ds: seq<digit>)
    requires 1 <= |data| <= 2 && ds == Sextets24(GroupBits(data))
    ensures Sextets(data) == if |data| == 1 then ds[..2] else ds[..3]
  {
    SextetsLast(data);
  }

  lemma TextChain(ds: seq<digit>, rest: seq<digit>, a: string, b: string, padding: string)
    requires a == Chars(ds) && b == Chars(rest) + padding
    ensures a + b == Chars(ds + rest) + padding
  {
    CharsAppend(ds, rest);
    Associative(a, Chars(rest), padding);
  }

  lemma BitsChain(ds: seq<digit>, rest: seq<digit>, first: Bytes, tail: Bytes, spare: seq<bool>)
    requires DigitBits(ds) == ByteBits(first) && DigitBits(rest) == ByteBits(tail) + spare
    ensures DigitBits(ds + rest) == ByteBits(first + tail) + spare
  {
    DigitBitsAppend(ds, rest);
    ByteBitsAppend(first, tail);
    Associative(ByteBits(first), ByteBits(tail), spare);
  }

  ghost predicate TextKept(data: Bytes) {
    Unbroken(data) == Chars(Sextets(data)) + Padding(|data|)
  }

  ghost predicate BitsKept(data: Bytes) {
    DigitBits(Sextets(data)) == ByteBits(data) + Zeros(Spare(|data|))
  }

  lemma SameSpare(n: nat)
    requires n >= 3
    ensures Spare(n - 3) == Spare(n) && Padding(n - 3) == Padding(n)
  {
  }

  lemma FirstText(data: Bytes)
    requires |data| >= 3 && TextKept(data[3..])
    ensures TextKept(data)
  {
    GroupChars(data);
    SextetsStep(data);
    SameSpare(|data|);
    TextChain(Sextets24(GroupBits(data)), Sextets(data[3..]), GroupText(data), Unbroken(data[3..]), Padding(|data|));
  }

  lemma LastText(data: Bytes)
    requires |data| <= 2
    ensures TextKept(data)
  {
    if data != [] {
      GroupChars(data);
      SextetsLast(data);
      SextetsOfGroup(data, Sextets24(GroupBits(data)));
    }
  }

  lemma FirstBits(data: Bytes)
    requires |data| >= 3 && BitsKept(data[3..])
    ensures BitsKept(data)
  {
    var first, rest := data[..3], data[3..];
    assert first == [data[0], data[1], data[2]] && data == first + rest;
    GroupDigits(data[0], data[1], data[2]);
    SextetsStep(data);
    SameSpare(|data|);
    BitsChain(Sextets24(GroupBits(data)), Sextets(rest), first, rest, Zeros(Spare(|data|)));
  }

  lemma OneByteKept(data: Bytes)
    requires |data| == 1
    ensures BitsKept(data)
  {
    SextetsLast(data);
    assert data == [data[0]];
    OneByteDigits(data[0]);
  }

  lemma TwoBytesKept(data: Bytes)
    requires |data| == 2
    ensures BitsKept(data)
  {
    SextetsLast(data);
    assert data == [data[0], data[1]];
    TwoByteDigits(data[0], data[1]);
  }

  lemma {:induction false} AllKept(data: Bytes)
    ensures TextKept(data) && BitsKept(data)
  {
    if |data| >= 3 {
      AllKept(data[3..]);
      FirstText(data);
      FirstBits(data);
    } else {
      LastText(data);
      if |data| == 1 {
        OneByteKept(data);
      } else if |data| == 2 {
        TwoBytesKept(data);
      }
    }
  }

  /**
   * Encoding, line breaks aside: the bits of the data, six at a time, as letters of the alphabet; the
   * last letter is filled with zero bits, and padding makes the number of characters a multiple of four.
   */
  lemma EncodedMeans(data: Bytes)
    ensures Unbroken(data) == Chars(Sextets(data)) + Padding(|data|)
    ensures DigitBits(Sextets(data)) == ByteBits(data) + Zeros(Spare(|data|))
  {
    AllKept(data);
  }
}
