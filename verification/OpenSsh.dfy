/**
 * The OpenSSH container for an unencrypted Ed25519 private key: the bytes written, with block
 * lengths filled in afterwards, and the parser. Strings follow section 5 of RFC 4251, the public
 * key section 4 of RFC 8709.
 */
module OpenSsh {
  import opened Common

  const KEY_SIZE := 32

  type KeyBytes = b: Bytes | |b| == KEY_SIZE witness seq(KEY_SIZE, _ => 0)

  const SECRET_SIZE := 64

  // ---------- the format ----------

  function U32(n: uint32): (r: Bytes)
    ensures |r| == 4
  {
    [n / 0x100_0000, n / 0x1_0000 % 0x100, n / 0x100 % 0x100, n % 0x100]
  }

  function FromU32(a: byte, b: byte, c: byte, d: byte): uint32 {
    ((a * 0x100 + b) * 0x100 + c) * 0x100 + d
  }

  /** A string: its length, then its bytes. */
  function Str(s: Bytes): Bytes
    requires |s| <= INT_MAX
  {
    U32(|s|) + s
  }

  // "openssh-key-v1" with its terminator.
  const MAGIC: Bytes := [111, 112, 101, 110, 115, 115, 104, 45, 107, 101, 121, 45, 118, 49, 0]

  // Cipher "none", key derivation "none" with no options.
  const UNENCRYPTED: Bytes := [0, 0, 0, 4, 110, 111, 110, 101, 0, 0, 0, 4, 110, 111, 110, 101, 0, 0, 0, 0]

  const ONE_KEY: Bytes := [0, 0, 0, 1]

  // "ssh-ed25519" as a string.
  const KEY_TYPE: Bytes := [0, 0, 0, 11, 115, 115, 104, 45, 101, 100, 50, 53, 53, 49, 57]

  const CHECK: uint32 := 0x12345678

  function Preamble(): Bytes {
    MAGIC + UNENCRYPTED + ONE_KEY
  }

  function PublicBlob(pub: Bytes): Bytes
    requires |pub| == KEY_SIZE
  {
    KEY_TYPE + Str(pub)
  }

  /** `secret` is the private key followed by the public key. */
  function PrivateBlob(check: uint32, pub: Bytes, secret: Bytes): Bytes
    requires |pub| == KEY_SIZE && |secret| == SECRET_SIZE
  {
    U32(check) + U32(check) + PublicBlob(pub) + Str(secret)
  }

  /** What is written for a key. */
  function Container(key: Bytes, pub: Bytes): (r: Bytes)
    requires |key| == KEY_SIZE && |pub| == KEY_SIZE
    ensures |r| == 225
  {
    Preamble() + Str(PublicBlob(pub)) + Str(PrivateBlob(CHECK, pub, key + pub))
  }

  // ---------- reading it ----------

  function Eat(b: Bytes, literal: Bytes): Option<Bytes> {
    if |literal| <= |b| && b[..|literal|] == literal then Some(b[|literal|..]) else None
  }

  function TakeU32(b: Bytes): Option<(uint32, Bytes)> {
    if |b| < 4 then None else Some((FromU32(b[0], b[1], b[2], b[3]), b[4..]))
  }

  /** A length and that many bytes. */
  function TakeBlock(b: Bytes): (r: Option<(Bytes, Bytes)>)
    ensures r.Some? ==> |r.value.0| < |b|
  {
    match TakeU32(b)
    case None => None
    case Some((size, rest)) => if size <= |rest| then Some((rest[..size], rest[size..])) else None
  }

  function TakeKey(b: Bytes, size: nat): (r: Option<(Bytes, Bytes)>)
    ensures r.Some? ==> |r.value.0| == size
  {
    match TakeBlock(b)
    case None => None
    case Some((key, rest)) => if |key| == size then Some((key, rest)) else None
  }

  function ParsedPublic(b: Bytes): (r: Option<Bytes>)
    ensures r.Some? ==> |r.value| == KEY_SIZE
  {
    match Eat(b, KEY_TYPE)
    case None => None
    case Some(rest) =>
      match TakeKey(rest, KEY_SIZE)
      case None => None
      case Some((pub, _)) => Some(pub)
  }

  /** The secret in a private block whose check numbers agree and whose public keys all are `pub`. */
  function ParsedSecret(b: Bytes, pub: Bytes): (r: Option<Bytes>)
    ensures r.Some? ==> |r.value| == SECRET_SIZE
  {
    match TakeU32(b)
    case None => None
    case Some((check1, rest1)) =>
      match TakeU32(rest1)
      case None => None
      case Some((check2, rest2)) => if check1 != check2 then None else ParsedKeys(rest2, pub)
  }

  function ParsedKeys(b: Bytes, pub: Bytes): (r: Option<Bytes>)
    ensures r.Some? ==> |r.value| == SECRET_SIZE
  {
    match Eat(b, KEY_TYPE)
    case None => None
    case Some(rest1) =>
      match TakeKey(rest1, KEY_SIZE)
      case None => None
      case Some((pub2, rest2)) =>
        if pub2 != pub then None
        else
          match TakeKey(rest2, SECRET_SIZE)
          case None => None
          case Some((secret, _)) => if secret[KEY_SIZE..] == pub then Some(secret) else None
  }

  /** The private key followed by the public key. */
  function Parsed(b: Bytes): (r: Option<Bytes>)
    ensures r.Some? ==> |r.value| == SECRET_SIZE
  {
    match EatPreamble(b)
    case None => None
    case Some(rest) => ParsedBlocks(rest)
  }

  function EatPreamble(b: Bytes): Option<Bytes> {
    match Eat(b, MAGIC)
    case None => None
    case Some(rest1) =>
      match Eat(rest1, UNENCRYPTED)
      case None => None
      case Some(rest2) => Eat(rest2, ONE_KEY)
  }

  function ParsedBlocks(b: Bytes): (r: Option<Bytes>)
    ensures r.Some? ==> |r.value| == SECRET_SIZE
  {
    match TakeBlock(b)
    case None => None
    case Some((block1, rest1)) =>
      match ParsedPublic(block1)
      case None => None
      case Some(pub) =>
        match TakeBlock(rest1)
        case None => None
        case Some((block2, _)) => ParsedSecret(block2, pub)
  }

  // ---------- exactly what is accepted ----------

  lemma U32Digits(n: uint32)
    ensures FromU32(n / 0x100_0000, n / 0x1_0000 % 0x100, n / 0x100 % 0x100, n % 0x100) == n
  {
    var q := n / 0x100;
    assert n / 0x1_0000 == q / 0x100 && n / 0x100_0000 == q / 0x1_0000;
    assert q == (q / 0x1_0000 * 0x100 + q / 0x100 % 0x100) * 0x100 + q % 0x100;
  }

  lemma DigitsU32(a: byte, b: byte, c: byte, d: byte)
    ensures U32(FromU32(a, b, c, d)) == [a, b, c, d]
  {
    var n: int := FromU32(a, b, c, d);
    assert n / 0x100 == (a * 0x100 + b) * 0x100 + c;
    assert n / 0x1_0000 == a * 0x100 + b;
    assert n / 0x100_0000 == a;
  }

  lemma TakeU32Iff(b: Bytes, n: uint32, rest: Bytes)
    ensures TakeU32(b) == Some((n, rest)) <==> b == U32(n) + rest
  {
    if b == U32(n) + rest {
      U32Digits(n);
      assert b[4..] == rest;
    }
    if TakeU32(b) == Some((n, rest)) {
      DigitsU32(b[0], b[1], b[2], b[3]);
      assert b == [b[0], b[1], b[2], b[3]] + b[4..];
    }
  }

  lemma EatIff(b: Bytes, literal: Bytes, rest: Bytes)
    ensures Eat(b, literal) == Some(rest) <==> b == literal + rest
  {
    if Eat(b, literal) == Some(rest) {
      assert b == b[..|literal|] + b[|literal|..];
    }
  }

  lemma TakeBlockIff(b: Bytes, block: Bytes, rest: Bytes)
    requires |block| <= INT_MAX
    ensures TakeBlock(b) == Some((block, rest)) <==> b == Str(block) + rest
  {
    TakeU32Iff(b, |block|, block + rest);
    Associative(U32(|block|), block, rest);
    if b == Str(block) + rest {
      assert (block + rest)[..|block|] == block && (block + rest)[|block|..] == rest;
    }
    if TakeBlock(b) == Some((block, rest)) {
      var r := TakeU32(b).value.1;
      assert r == r[..|block|] + r[|block|..];
    }
  }

  lemma TakeKeyIff(b: Bytes, key: Bytes, rest: Bytes)
    requires |key| <= INT_MAX
    ensures TakeKey(b, |key|) == Some((key, rest)) <==> b == Str(key) + rest
  {
    TakeBlockIff(b, key, rest);
  }

  lemma EatPreambleIff(b: Bytes, rest: Bytes)
    ensures EatPreamble(b) == Some(rest) <==> b == Preamble() + rest
  {
    var rest2 := ONE_KEY + rest;
    var rest1 := UNENCRYPTED + rest2;
    EatIff(b, MAGIC, rest1);
    EatIff(rest1, UNENCRYPTED, rest2);
    EatIff(rest2, ONE_KEY, rest);
    assert Preamble() + rest == MAGIC + rest1 by {
      Associative(MAGIC + UNENCRYPTED, ONE_KEY, rest);
      Associative(MAGIC, UNENCRYPTED, rest2);
    }
    if EatPreamble(b) == Some(rest) {
      var r1 := Eat(b, MAGIC).value;
      var r2 := Eat(r1, UNENCRYPTED).value;
      EatIff(b, MAGIC, r1);
      EatIff(r1, UNENCRYPTED, r2);
    }
  }

  lemma PublicParses(pub: Bytes, tail: Bytes)
    requires |pub| == KEY_SIZE
    ensures ParsedPublic(PublicBlob(pub) + tail) == Some(pub)
  {
    var rest := Str(pub) + tail;
    Associative(KEY_TYPE, Str(pub), tail);
    EatIff(KEY_TYPE + rest, KEY_TYPE, rest);
    TakeKeyIff(rest, pub, tail);
  }

  lemma PublicMeans(b: Bytes) returns (tail: Bytes)
    requires ParsedPublic(b).Some?
    ensures b == PublicBlob(ParsedPublic(b).value) + tail
  {
    var rest := Eat(b, KEY_TYPE).value;
    EatIff(b, KEY_TYPE, rest);
    var (pub, t) := TakeKey(rest, KEY_SIZE).value;
    TakeKeyIff(rest, pub, t);
    Associative(KEY_TYPE, Str(pub), t);
    tail := t;
  }

  lemma KeysParse(pub: Bytes, secret: Bytes, tail: Bytes)
    requires |pub| == KEY_SIZE && |secret| == SECRET_SIZE && secret[KEY_SIZE..] == pub
    ensures ParsedKeys(PublicBlob(pub) + (Str(secret) + tail), pub) == Some(secret)
  {
    var rest2 := Str(secret) + tail;
    var rest1 := Str(pub) + rest2;
    Associative(KEY_TYPE, Str(pub), rest2);
    EatIff(KEY_TYPE + rest1, KEY_TYPE, rest1);
    TakeKeyIff(rest1, pub, rest2);
    TakeKeyIff(rest2, secret, tail);
  }

  lemma KeysMean(b: Bytes, pub: Bytes) returns (tail: Bytes)
    requires |pub| == KEY_SIZE && ParsedKeys(b, pub).Some?
    ensures b == PublicBlob(pub) + (Str(ParsedKeys(b, pub).value) + tail)
  {
    var rest1 := Eat(b, KEY_TYPE).value;
    EatIff(b, KEY_TYPE, rest1);
    var (_, rest2) := TakeKey(rest1, KEY_SIZE).value;
    TakeKeyIff(rest1, pub, rest2);
    var (secret, t) := TakeKey(rest2, SECRET_SIZE).value;
    TakeKeyIff(rest2, secret, t);
    Associative(KEY_TYPE, Str(pub), rest2);
    tail := t;
  }

  lemma PrivateBlobParts(check: uint32, pub: Bytes, secret: Bytes, tail: Bytes)
    requires |pub| == KEY_SIZE && |secret| == SECRET_SIZE
    ensures PrivateBlob(check, pub, secret) + tail
         == U32(check) + (U32(check) + (PublicBlob(pub) + (Str(secret) + tail)))
  {
    var rest := Str(secret) + tail;
    Associative(U32(check) + U32(check) + PublicBlob(pub), Str(secret), tail);
    Associative(U32(check) + U32(check), PublicBlob(pub), rest);
    Associative(U32(check), U32(check), PublicBlob(pub) + rest);
  }

  lemma SecretParses(check: uint32, pub: Bytes, secret: Bytes, tail: Bytes)
    requires |pub| == KEY_SIZE && |secret| == SECRET_SIZE && secret[KEY_SIZE..] == pub
    ensures ParsedSecret(PrivateBlob(check, pub, secret) + tail, pub) == Some(secret)
  {
    var keys := PublicBlob(pub) + (Str(secret) + tail);
    PrivateBlobParts(check, pub, secret, tail);
    TakeU32Iff(U32(check) + (U32(check) + keys), check, U32(check) + keys);
    TakeU32Iff(U32(check) + keys, check, keys);
    KeysParse(pub, secret, tail);
  }

  lemma SecretMeans(b: Bytes, pub: Bytes) returns (check: uint32, tail: Bytes)
    requires |pub| == KEY_SIZE && ParsedSecret(b, pub).Some?
    ensures b == PrivateBlob(check, pub, ParsedSecret(b, pub).value) + tail
  {
    var (c, rest1) := TakeU32(b).value;
    var (_, rest2) := TakeU32(rest1).value;
    TakeU32Iff(b, c, rest1);
    TakeU32Iff(rest1, c, rest2);
    tail := KeysMean(rest2, pub);
    check := c;
    PrivateBlobParts(check, pub, ParsedSecret(b, pub).value, tail);
  }

  /** The format, with anything after the public key, after the secret and after both blocks. */
  ghost predicate Layout(b: Bytes, secret: Bytes, check: uint32, tail1: Bytes, tail2: Bytes, tail3: Bytes) {
    && |secret| == SECRET_SIZE
    && var pub := secret[KEY_SIZE..];
    && var block1, block2 := PublicBlob(pub) + tail1, PrivateBlob(check, pub, secret) + tail2;
    && |block1| <= INT_MAX && |block2| <= INT_MAX
    && b == Preamble() + (Str(block1) + (Str(block2) + tail3))
  }

  lemma LayoutParses(b: Bytes, secret: Bytes, check: uint32, tail1: Bytes, tail2: Bytes, tail3: Bytes)
    requires Layout(b, secret, check, tail1, tail2, tail3)
    ensures Parsed(b) == Some(secret)
  {
    var pub := secret[KEY_SIZE..];
    var block1, block2 := PublicBlob(pub) + tail1, PrivateBlob(check, pub, secret) + tail2;
    var rest2 := Str(block2) + tail3;
    EatPreambleIff(b, Str(block1) + rest2);
    TakeBlockIff(Str(block1) + rest2, block1, rest2);
    TakeBlockIff(rest2, block2, tail3);
    PublicParses(pub, tail1);
    SecretParses(check, pub, secret, tail2);
  }

  lemma ParsedMeans(b: Bytes) returns (check: uint32, tail1: Bytes, tail2: Bytes, tail3: Bytes)
    requires |b| <= INT_MAX && Parsed(b).Some?
    ensures Layout(b, Parsed(b).value, check, tail1, tail2, tail3)
  {
    var rest := EatPreamble(b).value;
    EatPreambleIff(b, rest);
    var (block1, rest1) := TakeBlock(rest).value;
    TakeBlockIff(rest, block1, rest1);
    var pub := ParsedPublic(block1).value;
    tail1 := PublicMeans(block1);
    var (block2, rest2) := TakeBlock(rest1).value;
    TakeBlockIff(rest1, block2, rest2);
    SecretEndsInPublic(block2, pub);
    check, tail2 := SecretMeans(block2, pub);
    tail3 := rest2;
  }

  lemma SecretEndsInPublic(b: Bytes, pub: Bytes)
    requires |pub| == KEY_SIZE && ParsedSecret(b, pub).Some?
    ensures ParsedSecret(b, pub).value[KEY_SIZE..] == pub
  {
  }

  /** The parser accepts exactly the format, whatever check number and trailing bytes it holds. */
  lemma ParsedIff(b: Bytes, secret: Bytes)
    requires |b| <= INT_MAX
    ensures Parsed(b) == Some(secret)
       <==> exists check, tail1, tail2, tail3 :: Layout(b, secret, check, tail1, tail2, tail3)
  {
    if Parsed(b) == Some(secret) {
      var check, tail1, tail2, tail3 := ParsedMeans(b);
    }
    forall check, tail1, tail2, tail3 | Layout(b, secret, check, tail1, tail2, tail3)
      ensures Parsed(b) == Some(secret)
    {
      LayoutParses(b, secret, check, tail1, tail2, tail3);
    }
  }

  /** What is written for a key is read back as that key and its public key. */
  lemma ContainerRoundTrip(key: Bytes, pub: Bytes)
    requires |key| == KEY_SIZE && |pub| == KEY_SIZE
    ensures Parsed(Container(key, pub)) == Some(key + pub)
  {
    var secret := key + pub;
    assert secret[KEY_SIZE..] == pub;
    var block1, block2 := PublicBlob(pub), PrivateBlob(CHECK, pub, secret);
    assert block1 + [] == block1 && block2 + [] == block2 && Str(block2) + [] == Str(block2);
    Associative(Preamble(), Str(block1), Str(block2));
    LayoutParses(Container(key, pub), secret, CHECK, [], [], []);
  }

  // ---------- the fixed parts, spelled out ----------

  function Ascii(s: string): Bytes
    requires forall i :: 0 <= i < |s| ==> s[i] as int < 0x80
  {
    seq(|s|, i requires 0 <= i < |s| => s[i] as int)
  }

  /** The most significant byte comes first. */
  lemma U32Positions(n: uint32)
    ensures var b := U32(n);
      (b[0] as int) * 0x100_0000 + (b[1] as int) * 0x1_0000 + (b[2] as int) * 0x100 + b[3] == n
  {
    var q := n / 0x100;
    assert n / 0x1_0000 == q / 0x100 && n / 0x100_0000 == q / 0x1_0000;
    assert q == (q / 0x1_0000 * 0x100 + q / 0x100 % 0x100) * 0x100 + q % 0x100;
  }

  lemma FormatName()
    ensures MAGIC == Ascii("openssh-key-v1") + [0]
  {
  }

  lemma CipherName()
    ensures UNENCRYPTED == Str(Ascii("none")) + Str(Ascii("none")) + Str([])
  {
  }

  lemma TypeName()
    ensures KEY_TYPE == Str(Ascii("ssh-ed25519"))
  {
  }

  /** The format, no cipher, no key derivation and no options for it, one key; a key of type "ssh-ed25519". */
  lemma FixedParts()
    ensures Preamble() == Ascii("openssh-key-v1") + [0] + Str(Ascii("none")) + Str(Ascii("none")) + Str([]) + U32(1)
    ensures forall pub :: |pub| == KEY_SIZE ==> PublicBlob(pub) == Str(Ascii("ssh-ed25519")) + Str(pub)
  {
    FormatName();
    CipherName();
    TypeName();
    assert ONE_KEY == U32(1);
    Associative(MAGIC, Str(Ascii("none")) + Str(Ascii("none")), Str([]));
    Associative(MAGIC, Str(Ascii("none")), Str(Ascii("none")));
  }

  lemma CheckBytes()
    ensures U32(CHECK) == [0x12, 0x34, 0x56, 0x78]
  {
  }

  lemma Within(a: Bytes, b: Bytes, c: Bytes, i: nat, j: nat)
    requires i <= j <= |b|
    ensures (a + b + c)[|a| + i..|a| + j] == b[i..j]
  {
  }

  lemma PublicPart(pub: Bytes)
    requires |pub| == KEY_SIZE
    ensures |PublicBlob(pub)| == 51 && PublicBlob(pub)[19..] == pub
  {
  }

  lemma PrivatePart(pub: Bytes, secret: Bytes)
    requires |pub| == KEY_SIZE && |secret| == SECRET_SIZE
    ensures var b := PrivateBlob(CHECK, pub, secret);
      |b| == 127 && b[..4] == b[4..8] == [0x12, 0x34, 0x56, 0x78] && b[27..59] == pub && b[63..] == secret
  {
    CheckBytes();
    PublicPart(pub);
    Within(U32(CHECK) + U32(CHECK), PublicBlob(pub), Str(secret), 19, 51);
  }

  /** The public key is written three times, the private key and the check number's bytes where they belong. */
  lemma WrittenWhere(key: Bytes, pub: Bytes)
    requires |key| == KEY_SIZE && |pub| == KEY_SIZE
    ensures var c := Container(key, pub);
      && c[62..94] == pub && c[125..157] == pub && c[193..225] == pub && c[161..193] == key
      && c[98..102] == c[102..106] == [0x12, 0x34, 0x56, 0x78]
  {
    var a, p, b := PublicBlob(pub), Preamble(), PrivateBlob(CHECK, pub, key + pub);
    PublicPart(pub);
    PrivatePart(pub, key + pub);
    assert Container(key, pub)[62..94] == pub by {
      Within(p, Str(a), Str(b), 23, 55);
      assert Str(a)[23..55] == a[19..];
    }
    forall i, j | 0 <= i <= j <= 127 ensures Container(key, pub)[98 + i..98 + j] == b[i..j] {
      Within(p + Str(a) + U32(127), b, [], i, j);
      Associative(p + Str(a), U32(127), b);
    }
    assert b[63..95] == key && b[95..127] == pub;
  }
}
