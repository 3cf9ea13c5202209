/** Writing and reading the private key container through a byte buffer. */
module OpenSshCodec {
  import opened Common
  import opened ByteBuffers
  import opened OpenSsh

  // ---------- reading ----------

  method CheckAndEatBytes(buf: ByteBuffer, data: Bytes) returns (ok: bool)
    requires buf.Valid()
    modifies buf`getPos
    ensures buf.Valid()
    ensures ok <==> Eat(old(buf.Rest()), data).Some?
    ensures ok ==> buf.Rest() == Eat(old(buf.Rest()), data).value
  {
    if buf.BytesRemaining() < |data| || buf.Rest()[..|data|] != data {
      return false;
    }
    buf.SkipGet(|data|);
    ok := true;
  }

  method GetUInt32(buf: ByteBuffer) returns (r: Option<uint32>)
    requires buf.Valid()
    modifies buf`getPos
    ensures buf.Valid()
    ensures r.Some? <==> TakeU32(old(buf.Rest())).Some?
    ensures r.Some? ==> (r.value, buf.Rest()) == TakeU32(old(buf.Rest())).value
  {
    var bytes := buf.Get(4);
    if bytes.None? {
      return None;
    }
    r := Some(FromU32(bytes.value[0], bytes.value[1], bytes.value[2], bytes.value[3]));
  }

  method ReadFixedSizeKey(buf: ByteBuffer, expectedSize: nat) returns (r: Option<Bytes>)
    requires buf.Valid()
    modifies buf`getPos
    ensures buf.Valid()
    ensures r.Some? <==> TakeKey(old(buf.Rest()), expectedSize).Some?
    ensures r.Some? ==> (r.value, buf.Rest()) == TakeKey(old(buf.Rest()), expectedSize).value
  {
    var size := GetUInt32(buf);
    if size.None? || size.value != expectedSize || buf.BytesRemaining() < expectedSize {
      return None;
    }
    r := Some(buf.Rest()[..expectedSize]);
    buf.SkipGet(expectedSize);
  }

  /** The bytes of a block as a buffer of their own; the outer buffer moves past them. */
  method OpenBlock(buf: ByteBuffer) returns (block: Option<ByteBuffer>)
    requires buf.Valid()
    modifies buf`getPos
    ensures buf.Valid()
    ensures block.Some? <==> TakeBlock(old(buf.Rest())).Some?
    ensures block.Some? ==> fresh(block.value) && block.value.Valid()
    ensures block.Some? ==> (block.value.Rest(), buf.Rest()) == TakeBlock(old(buf.Rest())).value
  {
    var size := GetUInt32(buf);
    if size.None? || buf.BytesRemaining() < size.value {
      return None;
    }
    var inner := new ByteBuffer.ReadOnly(buf.Rest()[..size.value]);
    buf.SkipGet(size.value);
    block := Some(inner);
  }

  method ParsePublicKey(buf: ByteBuffer) returns (r: Option<Bytes>)
    requires buf.Valid()
    modifies buf`getPos
    ensures r == ParsedPublic(old(buf.Rest()))
  {
    var ok := CheckAndEatBytes(buf, KEY_TYPE);
    if !ok {
      return None;
    }
    r := ReadFixedSizeKey(buf, KEY_SIZE);
  }

  method ParsePrivateBlock(buf: ByteBuffer, pub: Bytes) returns (r: Option<Bytes>)
    requires buf.Valid()
    modifies buf`getPos
    ensures r == ParsedSecret(old(buf.Rest()), pub)
  {
    var check1 := GetUInt32(buf);
    if check1.None? {
      return None;
    }
    var check2 := GetUInt32(buf);
    if check2.None? || check1.value != check2.value {
      return None;
    }
    r := ParsePrivateKeys(buf, pub);
  }

  method ParsePrivateKeys(buf: ByteBuffer, pub: Bytes) returns (r: Option<Bytes>)
    requires buf.Valid()
    modifies buf`getPos
    ensures r == ParsedKeys(old(buf.Rest()), pub)
  {
    var ok := CheckAndEatBytes(buf, KEY_TYPE);
    if !ok {
      return None;
    }
    var pub2 := ReadFixedSizeKey(buf, KEY_SIZE);
    if pub2.None? || pub2.value != pub {
      return None;
    }
    var secret := ReadFixedSizeKey(buf, SECRET_SIZE);
    if secret.None? || secret.value[KEY_SIZE..] != pub {
      return None;
    }
    r := secret;
  }

  method ParseBlocks(buf: ByteBuffer) returns (r: Option<Bytes>)
    requires buf.Valid()
    modifies buf`getPos
    ensures r == ParsedBlocks(old(buf.Rest()))
  {
    var publicBlock := OpenBlock(buf);
    if publicBlock.None? {
      return None;
    }
    var pub := ParsePublicKey(publicBlock.value);
    if pub.None? {
      return None;
    }
    var privateBlock := OpenBlock(buf);
    if privateBlock.None? {
      return None;
    }
    r := ParsePrivateBlock(privateBlock.value, pub.value);
  }

  /** The private key followed by the public key, if the buffer holds a container for them. */
  method ParseEd25519Private(buf: ByteBuffer) returns (r: Option<Bytes>)
    requires buf.Valid()
    modifies buf`getPos
    ensures r == Parsed(old(buf.Rest()))
  {
    var ok := CheckAndEatBytes(buf, MAGIC);
    if !ok {
      return None;
    }
    ok := CheckAndEatBytes(buf, UNENCRYPTED);
    if !ok {
      return None;
    }
    ok := CheckAndEatBytes(buf, ONE_KEY);
    if !ok {
      return None;
    }
    r := ParseBlocks(buf);
  }

  // ---------- writing ----------

  method WriteUInt32(buf: ByteBuffer, data: uint32)
    requires buf.Appending() && |buf.memory| + 4 <= INT_MAX
    modifies buf`memory, buf`putPos
    ensures buf.Appending() && buf.memory == old(buf.memory) + U32(data)
  {
    buf.Put(U32(data));
  }

  method WriteFixedSizeKey(buf: ByteBuffer, key: Bytes)
    requires buf.Appending() && |buf.memory| + 4 + |key| <= INT_MAX
    modifies buf`memory, buf`putPos
    ensures buf.Appending() && buf.memory == old(buf.memory) + Str(key)
  {
    WriteUInt32(buf, |key|);
    buf.Put(key);
    Associative(old(buf.memory), U32(|key|), key);
  }

  /** Leaves room for the length of a block. */
  method BeginSubBlock(buf: ByteBuffer) returns (savedPos: nat)
    requires buf.Appending() && |buf.memory| + 4 <= INT_MAX
    modifies buf`memory, buf`putPos
    ensures buf.Appending() && savedPos == |old(buf.memory)| && |buf.memory| == savedPos + 4
    ensures buf.memory[..savedPos] == old(buf.memory)
  {
    savedPos := buf.putPos;
    buf.SkipPut(4);
  }

  /** Fills in the length of the block written since then. */
  method EndSubBlock(buf: ByteBuffer, savedPos: nat)
    requires buf.Appending() && savedPos + 4 <= |buf.memory|
    modifies buf`memory
    ensures buf.Appending()
    ensures buf.memory == old(buf.memory[..savedPos] + Str(buf.memory[savedPos + 4..]))
  {
    var block := buf.memory[savedPos + 4..];
    var before := buf.memory[..savedPos];
    var written := buf.putPos - savedPos - 4;
    buf.Patch(savedPos, U32(written));
    Associative(before, U32(written), block);
  }

  method WritePublicBlob(buf: ByteBuffer, pub: Bytes)
    requires |pub| == KEY_SIZE && buf.Appending() && |buf.memory| + 51 <= INT_MAX
    modifies buf`memory, buf`putPos
    ensures buf.Appending() && buf.memory == old(buf.memory) + PublicBlob(pub)
  {
    buf.Put(KEY_TYPE);
    WriteFixedSizeKey(buf, pub);
    Associative(old(buf.memory), KEY_TYPE, Str(pub));
  }

  method WritePrivateBlob(buf: ByteBuffer, key: Bytes, pub: Bytes)
    requires |key| == KEY_SIZE && |pub| == KEY_SIZE && buf.Appending() && |buf.memory| + 127 <= INT_MAX
    modifies buf`memory, buf`putPos
    ensures buf.Appending() && buf.memory == old(buf.memory) + PrivateBlob(CHECK, pub, key + pub)
  {
    ghost var before := buf.memory;
    WriteUInt32(buf, CHECK);
    WriteUInt32(buf, CHECK);
    WritePublicBlob(buf, pub);
    WriteUInt32(buf, SECRET_SIZE);
    buf.Put(key);
    buf.Put(pub);
    PrivateBlobAfter(before, key, pub);
  }

  lemma PrivateBlobAfter(before: Bytes, key: Bytes, pub: Bytes)
    requires |key| == KEY_SIZE && |pub| == KEY_SIZE
    ensures before + U32(CHECK) + U32(CHECK) + PublicBlob(pub) + U32(SECRET_SIZE) + key + pub
         == before + PrivateBlob(CHECK, pub, key + pub)
  {
    var u, p, n := U32(CHECK), PublicBlob(pub), U32(SECRET_SIZE);
    var done := before + u + u + p;
    Associative(done, n, key);
    Associative(done, n + key, pub);
    Associative(n, key, pub);
    Associative(before, u, u);
    Associative(before, u + u, p);
    Associative(before, u + u + p, n + (key + pub));
  }

  method WritePreamble(buf: ByteBuffer)
    requires buf.Appending() && |buf.memory| + 39 <= INT_MAX
    modifies buf`memory, buf`putPos
    ensures buf.Appending() && buf.memory == old(buf.memory) + Preamble()
  {
    buf.Put(MAGIC);
    buf.Put(UNENCRYPTED);
    buf.Put(ONE_KEY);
    Associative(old(buf.memory), MAGIC, UNENCRYPTED);
    Associative(old(buf.memory), MAGIC + UNENCRYPTED, ONE_KEY);
  }

  method WritePublicBlock(buf: ByteBuffer, pub: Bytes)
    requires |pub| == KEY_SIZE && buf.Appending() && |buf.memory| + 55 <= INT_MAX
    modifies buf`memory, buf`putPos
    ensures buf.Appending() && buf.memory == old(buf.memory) + Str(PublicBlob(pub))
  {
    var saved := BeginSubBlock(buf);
    WritePublicBlob(buf, pub);
    EndSubBlock(buf, saved);
  }

  method WritePrivateBlock(buf: ByteBuffer, key: Bytes, pub: Bytes)
    requires |key| == KEY_SIZE && |pub| == KEY_SIZE && buf.Appending() && |buf.memory| + 131 <= INT_MAX
    modifies buf`memory, buf`putPos
    ensures buf.Appending() && buf.memory == old(buf.memory) + Str(PrivateBlob(CHECK, pub, key + pub))
  {
    var saved := BeginSubBlock(buf);
    WritePrivateBlob(buf, key, pub);
    EndSubBlock(buf, saved);
  }

  method WriteEd25519Private(buf: ByteBuffer, key: Bytes, pub: Bytes)
    requires |key| == KEY_SIZE && |pub| == KEY_SIZE && buf.Appending() && |buf.memory| + 225 <= INT_MAX
    modifies buf`memory, buf`putPos
    ensures buf.Appending() && buf.memory == old(buf.memory) + Container(key, pub)
  {
    WritePreamble(buf);
    WritePublicBlock(buf, pub);
    WritePrivateBlock(buf, key, pub);
    ContainerAfter(old(buf.memory), key, pub);
  }

  lemma ContainerAfter(start: Bytes, key: Bytes, pub: Bytes)
    requires |key| == KEY_SIZE && |pub| == KEY_SIZE
    ensures start + Preamble() + Str(PublicBlob(pub)) + Str(PrivateBlob(CHECK, pub, key + pub))
         == start + Container(key, pub)
  {
    var b1, b2 := Str(PublicBlob(pub)), Str(PrivateBlob(CHECK, pub, key + pub));
    Associative(start, Preamble(), b1);
    Associative(start, Preamble() + b1, b2);
  }
}
