/** The text written for a private key is read back as that key. */
module KeyRoundTrip {
  import opened Common
  import Base64
  import opened KeyPair
  import opened OpenSsh
  import Pem

  // ---------- base 64 text can stand between markers ----------

  ghost predicate NoDash(s: string) {
    forall i :: 0 <= i < |s| ==> Pem.IsBodyChar(s[i])
  }

  lemma NoDashAppend(a: string, b: string)
    requires NoDash(a) && NoDash(b)
    ensures NoDash(a + b)
  {
  }

  lemma GroupTextChars(data: Bytes)
    requires data != []
    ensures NoDash(Base64.GroupText(data)) && !Pem.IsSpace(Base64.GroupText(data)[0])
  {
  }

  lemma {:induction false} EncodedNoDash(data: Bytes, lineBreak: string, left: nat)
    requires NoDash(lineBreak)
    ensures NoDash(Base64.EncodeFrom(data, lineBreak, left))
    decreases |data|
  {
    if data != [] {
      GroupTextChars(data);
      NoDashAppend(lineBreak, Base64.GroupText(data));
      EncodedNoDash(Base64.AfterGroup(data), lineBreak, Base64.NextLeft(left));
      NoDashAppend(Base64.GroupOnLine(data, lineBreak, left),
                   Base64.EncodeFrom(Base64.AfterGroup(data), lineBreak, Base64.NextLeft(left)));
    }
  }

  lemma EncodedIsBodyText(data: Bytes, lineBreak: string)
    requires data != [] && Pem.AllSpace(lineBreak)
    ensures Pem.BodyText(Base64.Encoded(data, lineBreak))
  {
    EncodedNoDash(data, lineBreak, Base64.GROUPS_PER_LINE);
    GroupTextChars(data);
  }

  lemma SpaceIsSkippable(lineBreak: string)
    requires Pem.AllSpace(lineBreak)
    ensures Base64.Skippable(lineBreak, true)
  {
    forall i | 0 <= i < |lineBreak| ensures Base64.Read(lineBreak[i], true) == Base64.Ignored {
      assert Pem.IsSpace(lineBreak[i]);
    }
  }

  // ---------- one text, many layouts ----------

  /** Data in base 64 between markers, with any space for line breaks and around the first marker. */
  function Wrapped(data: Bytes, type_: string, gap0: string, gap1: string, lineBreak: string, rest: string): string {
    Pem.Framed(type_, gap0, gap1, Base64.Encoded(data, lineBreak), rest)
  }

  lemma WrappedBody(data: Bytes, type_: string, gap0: string, gap1: string, lineBreak: string, rest: string)
    requires data != [] && Pem.MarkerName(type_)
    requires Pem.AllSpace(gap0) && Pem.AllSpace(gap1) && Pem.AllSpace(lineBreak)
    ensures Pem.Holds(Wrapped(data, type_, gap0, gap1, lineBreak, rest), type_, Base64.Encoded(data, lineBreak))
  {
    EncodedIsBodyText(data, lineBreak);
    Pem.FramedBodyFound(type_, gap0, gap1, Base64.Encoded(data, lineBreak), rest);
  }

  lemma BodyDecodes(text: string, type_: string, data: Bytes, lineBreak: string)
    requires |text| < Base64.UINT32_SIZE && 3 * |Base64.Encoded(data, lineBreak)| < Base64.UINT32_SIZE
    requires Pem.AllSpace(lineBreak)
    requires Pem.Holds(text, type_, Base64.Encoded(data, lineBreak))
    ensures PEMBytes(text, type_) == Some(data)
  {
    SpaceIsSkippable(lineBreak);
    Base64.RoundTrip(data, lineBreak, true);
    CapacitySuffices(Base64.Encoded(data, lineBreak));
  }

  /** Whatever the layout, and whatever follows the text, the data is found again. */
  lemma PEMRoundTrip(data: Bytes, type_: string, gap0: string, gap1: string, lineBreak: string, rest: string)
    requires data != [] && Pem.MarkerName(type_)
    requires Pem.AllSpace(gap0) && Pem.AllSpace(gap1) && Pem.AllSpace(lineBreak)
    requires |Wrapped(data, type_, gap0, gap1, lineBreak, rest)| < Base64.UINT32_SIZE
    requires 3 * |Base64.Encoded(data, lineBreak)| < Base64.UINT32_SIZE
    ensures PEMBytes(Wrapped(data, type_, gap0, gap1, lineBreak, rest), type_) == Some(data)
  {
    WrappedBody(data, type_, gap0, gap1, lineBreak, rest);
    BodyDecodes(Wrapped(data, type_, gap0, gap1, lineBreak, rest), type_, data, lineBreak);
  }

  /** The body is base 64 for the bytes, and the room made for it, computed in 32 bits, suffices. */
  ghost predicate Fits(body: string, bytes: Bytes) {
    Base64.Decoded(body, true) == Some(bytes) && |bytes| <= |body| * 3 % 0x1_0000_0000 / 4 + 1
  }

  lemma FitsIff(body: string, bytes: Bytes)
    requires |body| < 0x1_0000_0000
    ensures DecodedToFit(body) == Some(bytes) <==> Fits(body, bytes)
  {
  }

  ghost predicate Enclosed(text: string, type_: string, bytes: Bytes) {
    match Pem.Body(text, type_)
    case None => false
    case Some((start, end)) => Fits(text[start..end], bytes)
  }

  lemma EnclosedIff(text: string, type_: string, bytes: Bytes)
    requires |text| < 0x1_0000_0000
    ensures PEMBytes(text, type_) == Some(bytes) <==> Enclosed(text, type_, bytes)
  {
    match Pem.Body(text, type_)
    case None =>
    case Some((start, end)) =>
      FitsIff(text[start..end], bytes);
  }

  lemma SecretIsPair(secret: Bytes, key: Bytes, pub: Bytes)
    requires |key| == KEY_SIZE && |pub| == KEY_SIZE
    ensures secret == key + pub <==> |secret| == SECRET_SIZE && secret[..KEY_SIZE] == key && secret[KEY_SIZE..] == pub
  {
    Halves(key, pub);
    if |secret| == SECRET_SIZE {
      assert secret == secret[..KEY_SIZE] + secret[KEY_SIZE..];
    }
  }

  /**
   * A text carries a key exactly when its beginning, of its length modulo 2^32, holds a container of the
   * key and its own public key between markers.
   */
  lemma KeyFoundIff(text: string, derive: Bytes -> KeyBytes, key: Bytes)
    requires |key| == 32
    ensures KeyInText(text, derive) == Some(key) <==>
      exists bytes :: Enclosed(text[..|text| % 0x1_0000_0000], TYPE, bytes) && Parsed(bytes) == Some(key + derive(key))
  {
    var seen := text[..|text| % 0x1_0000_0000];
    forall bytes ensures PEMBytes(seen, TYPE) == Some(bytes) <==> Enclosed(seen, TYPE, bytes) {
      EnclosedIff(seen, TYPE, bytes);
    }
    forall secret ensures secret == key + derive(key) <==>
      |secret| == SECRET_SIZE && secret[..KEY_SIZE] == key && secret[KEY_SIZE..] == derive(key)
    {
      SecretIsPair(secret, key, derive(key));
    }
  }

  lemma TypeIsName()
    ensures Pem.MarkerName(TYPE)
  {
  }

  lemma KeyFromBytes(text: string, key: Bytes, pub: Bytes, derive: Bytes -> KeyBytes)
    requires |key| == KEY_SIZE && |pub| == KEY_SIZE && |text| < Base64.UINT32_SIZE
    requires PEMBytes(text, TYPE) == Some(Container(key, pub))
    ensures KeyInText(text, derive) == if derive(key) == pub then Some(key) else None
  {
    WholeText(text);
    ContainerRoundTrip(key, pub);
    Halves(key, pub);
  }

  lemma WholeText(text: string)
    requires |text| < Base64.UINT32_SIZE
    ensures text[..|text| % Base64.UINT32_SIZE] == text
  {
  }

  lemma Halves(key: Bytes, pub: Bytes)
    ensures (key + pub)[..|key|] == key && (key + pub)[|key|..] == pub
  {
  }

  /**
   * A key in any such layout is read back exactly if the public key stored with it is the one
   * computed from it.
   */
  lemma StoredKeyRead(key: Bytes, pub: Bytes, derive: Bytes -> KeyBytes,
                      gap0: string, gap1: string, lineBreak: string, rest: string)
    requires |key| == KEY_SIZE && |pub| == KEY_SIZE
    requires Pem.AllSpace(gap0) && Pem.AllSpace(gap1) && Pem.AllSpace(lineBreak)
    requires |Wrapped(Container(key, pub), TYPE, gap0, gap1, lineBreak, rest)| < Base64.UINT32_SIZE
    requires 3 * |Base64.Encoded(Container(key, pub), lineBreak)| < Base64.UINT32_SIZE
    ensures KeyInText(Wrapped(Container(key, pub), TYPE, gap0, gap1, lineBreak, rest), derive)
         == if derive(key) == pub then Some(key) else None
  {
    var data := Container(key, pub);
    TypeIsName();
    PEMRoundTrip(data, TYPE, gap0, gap1, lineBreak, rest);
    KeyFromBytes(Wrapped(data, TYPE, gap0, gap1, lineBreak, rest), key, pub, derive);
  }

  lemma Regroup(header: string, body: string, footer: string, rest: string)
    ensures header + CRLF + body + footer + CRLF + rest == "" + header + CRLF + body + footer + (CRLF + rest)
  {
    assert "" + header == header;
    Associative(header + CRLF + body + footer, CRLF, rest);
  }

  lemma TypeInHeader()
    ensures Pem.MarkerText("BEGIN", TYPE) == HEADER
  {
  }

  lemma TypeInFooter()
    ensures Pem.MarkerText("END", TYPE) == FOOTER
  {
  }

  /** What is written for a key is one of these layouts. */
  lemma KeyTextIsWrapped(key: Bytes, pub: Bytes, rest: string)
    requires |key| == KEY_SIZE && |pub| == KEY_SIZE
    ensures KeyText(key, pub) + rest == Wrapped(Container(key, pub), TYPE, "", CRLF, CRLF, CRLF + rest)
  {
    TypeInHeader();
    TypeInFooter();
    Regroup(HEADER, Base64.Encoded(Container(key, pub), CRLF), FOOTER, rest);
  }

  /** A valid key survives being written and read, whatever follows the text that was written. */
  lemma KeyRoundTrips(key: Bytes, derive: Bytes -> KeyBytes, rest: string)
    requires |key| == KEY_SIZE
    requires |KeyText(key, derive(key))| + |rest| < Base64.UINT32_SIZE
    ensures KeyInText(KeyText(key, derive(key)) + rest, derive) == Some(key)
  {
    KeyTextIsWrapped(key, derive(key), rest);
    Base64.EncodedSize(Container(key, derive(key)), CRLF);
    StoredKeyRead(key, derive(key), derive, "", CRLF, CRLF, CRLF + rest);
  }

  /** Writes one key and reads the characters and their terminator into another. */
  method CopyThroughText(from: SigningPrivateKey, to: SigningPrivateKey, out: array<char>, size: uint32)
    returns (ok: bool)
    requires from != to && from.derive == to.derive && from.Valid() && from.IsValid() && size <= out.Length
    modifies to, out
    ensures ok <==> 383 <= size
    ensures ok ==> to.Valid() && to.data == from.data && to.publicKey == from.publicKey
  {
    KeyTextSize(from.data.value, from.publicKey);
    var count;
    ok, count := from.GetAsPEM(out, size);
    if !ok {
      return;
    }
    var text := out[..count];
    assert text == KeyText(from.data.value, from.publicKey) + "\0";
    KeyRoundTrips(from.data.value, from.derive, "\0");
    ok := to.ParsePEM(text);
  }
}
