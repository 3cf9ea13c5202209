/** Encoding into and decoding into buffers of limited size. */
module Base64Codec {
  import opened Common
  import opened Base64

  /** Copies `text` into the buffer at `pos` and moves past it. */
  method PutText(out: array<char>, pos: nat, text: string) returns (pos': nat)
    requires pos + |text| <= out.Length
    modifies out
    ensures pos' == pos + |text|
    ensures out[..pos'] == old(out[..pos]) + text
    ensures forall j :: pos' <= j < out.Length ==> out[j] == old(out[j])
  {
    forall i | 0 <= i < |text| {
      out[pos + i] := text[i];
    }
    pos' := pos + |text|;
  }

  /** What has been written, followed by what is still to come, is the whole text. */
  ghost predicate Progress(written: string, data: Bytes, lineBreak: string, left: nat, whole: string) {
    written + EncodeFrom(data, lineBreak, left) == whole
  }

  lemma ProgressStep(written: string, data: Bytes, lineBreak: string, left: nat, whole: string)
    requires data != [] && Progress(written, data, lineBreak, left, whole)
    ensures Progress(written + GroupOnLine(data, lineBreak, left), AfterGroup(data), lineBreak, NextLeft(left), whole)
    ensures |whole| >= |written| + 4 + |lineBreak|
  {
    EncodeFromRoom(data, lineBreak, left);
    var group, rest := GroupOnLine(data, lineBreak, left), EncodeFrom(AfterGroup(data), lineBreak, NextLeft(left));
    Associative(written, group, rest);
  }

  /**
   * Encodes `data` into `out`, which the caller says has room for `size` characters, or only
   * announces the size needed when there is no buffer. Even a buffer announced as empty gets a
   * terminator.
   */
  method Base64Encode(data: Bytes, out: array?<char>, size: uint32, lineBreak: string)
    returns (ok: bool, count: uint32)
    requires out != null ==> size <= out.Length && 1 <= out.Length
    requires |lineBreak| <= INT_MAX
    modifies if out == null then {} else {out}
    ensures ok <==> out == null || Required(|data|, |lineBreak|) <= size
    ensures out == null || !ok ==> count == Base64EncodeMaxOutput(|data|, |lineBreak|)
    ensures out != null && ok ==>
      count == |Encoded(data, lineBreak)| < size && out[..count] == Encoded(data, lineBreak) && out[count] == '\0'
    ensures out != null ==> forall j :: size <= j < out.Length && 1 <= j ==> out[j] == old(out[j])
  {
    if out == null {
      return true, Base64EncodeMaxOutput(|data|, |lineBreak|);
    }
    EncodedSize(data, lineBreak);
    if size == 0 {
      out[0] := '\0';
      return false, Base64EncodeMaxOutput(|data|, |lineBreak|);
    }
    var pos;
    ok, pos := EncodeGroups(data, out, size, lineBreak);
    if ok && lineBreak != "" {
      if size - 1 - pos < |lineBreak| {
        ok := false;
      } else {
        pos := PutText(out, pos, lineBreak);
      }
    }
    out[pos] := '\0';
    count := if ok then pos else Base64EncodeMaxOutput(|data|, |lineBreak|);
    assert ok && lineBreak == "" ==> out[..pos] + lineBreak == out[..pos];
  }

  /** The loop over whole groups and the last one or two bytes; stops where it might run out of room. */
  method EncodeGroups(data: Bytes, out: array<char>, size: nat, lineBreak: string) returns (ok: bool, pos: nat)
    requires 1 <= size <= out.Length
    modifies out
    ensures pos < size
    ensures ok ==> out[..pos] + lineBreak == Encoded(data, lineBreak)
    ensures !ok ==> size <= |Encoded(data, lineBreak)|
    ensures forall j :: size <= j < out.Length ==> out[j] == old(out[j])
  {
    var rest := data;
    var left: nat := if lineBreak != "" then GROUPS_PER_LINE else INT_MAX;
    pos := 0;
    ghost var whole := Encoded(data, lineBreak);
    if lineBreak == "" {
      NoBreaks(data, GROUPS_PER_LINE, INT_MAX);
    }
    assert Progress(out[..0], rest, lineBreak, left, whole);
    ok := true;
    while |rest| >= 3
      invariant pos < size && ok
      invariant Progress(out[..pos], rest, lineBreak, left, whole)
      invariant forall j :: size <= j < out.Length ==> out[j] == old(out[j])
      decreases |rest|
    {
      ok, pos, left := EncodeIfRoom(rest, out, size, pos, lineBreak, left, whole);
      if !ok {
        return;
      }
      rest := AfterGroup(rest);
    }
    if rest != [] {
      ok, pos, left := EncodeIfRoom(rest, out, size, pos, lineBreak, left, whole);
    }
  }

  /** Writes the next group unless there is not certainly room for it and a line break. */
  method EncodeIfRoom(data: Bytes, out: array<char>, size: nat, pos: nat, lineBreak: string, left: nat,
                      ghost whole: string)
    returns (ok: bool, pos': nat, left': nat)
    requires data != [] && pos < size <= out.Length && Progress(out[..pos], data, lineBreak, left, whole)
    modifies out
    ensures pos' < size
    ensures ok ==> Progress(out[..pos'], AfterGroup(data), lineBreak, left', whole)
    ensures !ok ==> size <= |whole|
    ensures forall j :: size <= j < out.Length ==> out[j] == old(out[j])
  {
    ProgressStep(out[..pos], data, lineBreak, left, whole);
    if size - 1 - pos < 4 + |lineBreak| {
      return false, pos, left;
    }
    pos', left' := EncodeGroup(data, out, pos, lineBreak, left);
    ok := true;
  }

  /** Writes the next group, after a line break if the line is full. */
  method EncodeGroup(data: Bytes, out: array<char>, pos: nat, lineBreak: string, left: nat)
    returns (pos': nat, left': nat)
    requires data != [] && pos + 4 + |lineBreak| < out.Length
    modifies out
    ensures pos' == pos + |GroupOnLine(data, lineBreak, left)| && left' == NextLeft(left)
    ensures out[..pos'] == old(out[..pos]) + GroupOnLine(data, lineBreak, left)
    ensures forall j :: pos' <= j < out.Length ==> out[j] == old(out[j])
  {
    pos', left' := pos, left;
    if left == 0 {
      pos' := PutText(out, pos', lineBreak);
      left' := GROUPS_PER_LINE;
    }
    pos' := PutText(out, pos', GroupText(data));
    left' := left' - 1;
  }

  // ---------- decoding ----------

  const SENTINEL_LIMIT := 0x100_0000

  function Pow64(k: nat): nat {
    if k == 0 then 1 else 64 * Pow64(k - 1)
  }

  /** The number formed by `k` pending digits lies in [64^k, 2 * 64^k), so its top bit tells `k`. */
  lemma {:induction false} SentinelRange(ds: seq<digit>)
    ensures Pow64(|ds|) <= Sentinel(ds) < 2 * Pow64(|ds|)
  {
    if ds != [] {
      SentinelRange(ds[..|ds| - 1]);
    }
  }

  /** Up to four pending digits: the twenty-fifth bit is set exactly when there are four. */
  lemma SentinelFull(ds: seq<digit>)
    requires |ds| <= 4
    ensures Sentinel(ds) < 2 * SENTINEL_LIMIT
    ensures Sentinel(ds) >= SENTINEL_LIMIT <==> |ds| == 4
    ensures Sentinel(ds) >= 64 <==> ds != []
  {
    SentinelRange(ds);
    assert Pow64(1) == 64;
    assert Pow64(2) == 64 * 64;
    assert Pow64(3) == 64 * 64 * 64;
    assert Pow64(4) == SENTINEL_LIMIT;
  }

  lemma SentinelAppend(ds: seq<digit>, d: digit)
    ensures Sentinel(ds + [d]) == 64 * Sentinel(ds) + d
  {
    assert (ds + [d])[..|ds|] == ds;
  }

  lemma SentinelOfFour(ds: seq<digit>)
    requires |ds| == 4
    ensures Sentinel(ds) == SENTINEL_LIMIT + GroupValue(ds[0], ds[1], ds[2], ds[3])
  {
    SentinelAppend([], ds[0]);
    SentinelAppend([ds[0]], ds[1]);
    SentinelAppend([ds[0], ds[1]], ds[2]);
    SentinelAppend([ds[0], ds[1], ds[2]], ds[3]);
    assert ds == [ds[0], ds[1], ds[2]] + [ds[3]];
    assert [ds[0], ds[1], ds[2]] == [ds[0], ds[1]] + [ds[2]];
    assert [ds[0], ds[1]] == [ds[0]] + [ds[1]];
    assert [ds[0]] == [] + [ds[0]];
  }

  lemma LowByte(a: nat, q: nat)
    ensures (a * 0x100 + q) % 0x100 == q % 0x100
  {
  }

  lemma ByteBelowMultiple(w: nat, v: nat, unit: nat, a: nat)
    requires unit > 0 && w / unit == a * 0x100 + v / unit
    ensures ByteAt(w, unit) == ByteAt(v, unit)
  {
    LowByte(a, v / unit);
  }

  /** The sentinel bit lies above the three bytes. */
  lemma BytesBelowSentinel(v: nat)
    requires v < SENTINEL_LIMIT
    ensures Bytes24(SENTINEL_LIMIT + v) == Bytes24(v)
  {
    ByteBelowMultiple(SENTINEL_LIMIT + v, v, 0x10000, 1);
    ByteBelowMultiple(SENTINEL_LIMIT + v, v, 0x100, 0x100);
    ByteBelowMultiple(SENTINEL_LIMIT + v, v, 1, 0x10000);
  }

  lemma GroupFromSentinel(ds: seq<digit>)
    requires |ds| == 4
    ensures Bytes24(Sentinel(ds)) == PackGroup(ds[0], ds[1], ds[2], ds[3])
  {
    SentinelOfFour(ds);
    BytesBelowSentinel(GroupValue(ds[0], ds[1], ds[2], ds[3]));
  }

  lemma TakeDigits(a: seq<digit>, b: seq<digit>)
    requires |a| >= 4
    ensures Pack(a + b) == PackGroup(a[0], a[1], a[2], a[3]) + Pack(a[4..] + b)
  {
    assert (a + b)[4..] == a[4..] + b;
  }

  lemma {:induction false} PackAppend(a: seq<digit>, b: seq<digit>)
    requires |a| % 4 == 0
    ensures Pack(a + b) == Pack(a) + Pack(b)
  {
    if a == [] {
      assert a + b == b;
    } else {
      PackAppend(a[4..], b);
      TakeDigits(a, b);
      Associative(PackGroup(a[0], a[1], a[2], a[3]), Pack(a[4..]), Pack(b));
    }
  }

  /** The digits read so far, whole groups and pending ones, and those still to come are all of them. */
  ghost predicate Consumed(text: string, ignoreInvalid: bool, full: seq<digit>, pending: seq<digit>, rest: string) {
    && |full| % 4 == 0
    && Digits(text, ignoreInvalid) == Prepend(full + pending, Digits(rest, ignoreInvalid))
  }

  lemma NothingConsumed(text: string, ignoreInvalid: bool)
    ensures Consumed(text, ignoreInvalid, [], [], text)
  {
    if Digits(text, ignoreInvalid).Some? {
      assert [] + [] + Digits(text, ignoreInvalid).value == Digits(text, ignoreInvalid).value;
    }
  }

  lemma ConsumedDigit(text: string, ignoreInvalid: bool, full: seq<digit>, pending: seq<digit>, rest: string, d: digit)
    requires Consumed(text, ignoreInvalid, full, pending, rest)
    requires rest != "" && Read(rest[0], ignoreInvalid) == Digit(d)
    ensures Consumed(text, ignoreInvalid, full, pending + [d], rest[1..])
  {
    if Digits(rest[1..], ignoreInvalid).Some? {
      var ds := Digits(rest[1..], ignoreInvalid).value;
      assert full + pending + ([d] + ds) == full + (pending + [d]) + ds;
    }
  }

  /** A whole group joins the ones before it. */
  lemma ConsumedGroup(text: string, ignoreInvalid: bool, full: seq<digit>, pending: seq<digit>, rest: string)
    requires Consumed(text, ignoreInvalid, full, pending, rest) && |pending| == 4
    ensures Consumed(text, ignoreInvalid, full + pending, [], rest)
  {
    assert full + pending + [] == full + pending;
  }

  lemma GroupBytes(full: seq<digit>, pending: seq<digit>)
    requires |full| % 4 == 0 && |pending| == 4
    ensures Pack(full + pending) == Pack(full) + Bytes24(Sentinel(pending))
  {
    PackAppend(full, pending);
    GroupFromSentinel(pending);
    PackOfFour(pending);
  }

  lemma PackOfFour(ds: seq<digit>)
    requires |ds| == 4
    ensures Pack(ds) == PackGroup(ds[0], ds[1], ds[2], ds[3])
  {
    assert Pack(ds[4..]) == [];
  }

  /** What is already read yields at least these bytes, whatever follows. */
  lemma ConsumedAtLeast(text: string, ignoreInvalid: bool, full: seq<digit>, pending: seq<digit>, rest: string)
    requires Consumed(text, ignoreInvalid, full, pending, rest) && |pending| == 4
    ensures Decoded(text, ignoreInvalid).Some? ==> |Decoded(text, ignoreInvalid).value| >= |Pack(full)| + 3
  {
    if Digits(text, ignoreInvalid).Some? {
      PackSize(full);
      PackSize(Digits(text, ignoreInvalid).value);
    }
  }

  /** At the end of the text the pending digits yield the last bytes. */
  lemma ConsumedAll(text: string, ignoreInvalid: bool, full: seq<digit>, pending: seq<digit>, rest: string)
    requires Consumed(text, ignoreInvalid, full, pending, rest) && Digits(rest, ignoreInvalid) == Some([])
    ensures Decoded(text, ignoreInvalid) == Some(Pack(full) + Pack(pending))
  {
    assert full + pending + [] == full + pending;
    PackAppend(full, pending);
  }

  const UINT32_MAX: uint32 := 0xFFFF_FFFF

  /** How many bytes a decode may produce; a size query, made without a buffer, has no limit. */
  function Limit(out: array?<byte>, size: uint32): uint32 {
    if out == null then UINT32_MAX else size
  }

  ghost predicate Holds(out: array?<byte>, bytes: Bytes)
    reads if out == null then {} else {out}
  {
    out != null ==> |bytes| <= out.Length && out[..|bytes|] == bytes
  }

  /**
   * Decodes `text` into `out`, or only counts the bytes when there is no buffer. Succeeds exactly
   * when no invalid character comes before the end of the text and the bytes fit.
   */
  method Base64Decode(text: string, out: array?<byte>, size: uint32, ignoreInvalid: bool)
    returns (ok: bool, count: uint32)
    requires out != null ==> size <= out.Length
    modifies if out == null then {} else {out}
    ensures ok <==> Decoded(text, ignoreInvalid).Some? && |Decoded(text, ignoreInvalid).value| <= Limit(out, size)
    ensures ok ==> count == |Decoded(text, ignoreInvalid).value| && Holds(out, Decoded(text, ignoreInvalid).value)
    ensures count <= Limit(out, size)
    ensures out != null ==> forall j :: size <= j < out.Length ==> out[j] == old(out[j])
  {
    var limit := Limit(out, size);
    var valid, bits, pos;
    ghost var full, pending, rest;
    valid, bits, pos, full, pending, rest := DecodeGroups(text, out, limit, ignoreInvalid);
    if !valid {
      return false, pos;
    }
    if |pending| == 4 {
      ConsumedAtLeast(text, ignoreInvalid, full, pending, rest);
    } else {
      ConsumedAll(text, ignoreInvalid, full, pending, rest);
    }
    ok, count := DecodeRest(bits, out, limit, pos, full, pending);
  }

  /**
   * The loop over the characters. Stops with fewer than four pending digits at the end of the
   * text, or with four when there is no room for the group they form.
   */
  method DecodeGroups(text: string, out: array?<byte>, limit: uint32, ignoreInvalid: bool)
    returns (valid: bool, bits: nat, pos: nat, ghost full: seq<digit>, ghost pending: seq<digit>, ghost rest: string)
    requires out != null ==> limit <= out.Length
    modifies if out == null then {} else {out}
    ensures !valid ==> Decoded(text, ignoreInvalid).None?
    ensures pos <= limit && pos == |Pack(full)| && Holds(out, Pack(full))
    ensures valid ==> Consumed(text, ignoreInvalid, full, pending, rest) && bits == Sentinel(pending)
    ensures valid ==> (|pending| < 4 && Digits(rest, ignoreInvalid) == Some([])) || (|pending| == 4 && limit - pos < 3)
    ensures out != null ==> forall j :: limit <= j < out.Length ==> out[j] == old(out[j])
  {
    var left := text;
    bits, pos, full, pending := 1, 0, [], [];
    valid := true;
    NothingConsumed(text, ignoreInvalid);
    while left != ""
      invariant Consumed(text, ignoreInvalid, full, pending, left) && |pending| < 4 && bits == Sentinel(pending)
      invariant pos <= limit && pos == |Pack(full)| && Holds(out, Pack(full))
      invariant out != null ==> forall j :: limit <= j < out.Length ==> out[j] == old(out[j])
      decreases |left|
    {
      var reading := Read(left[0], ignoreInvalid);
      if reading == End {
        break;
      }
      if reading == Invalid {
        return false, bits, pos, full, pending, left;
      }
      if reading.Digit? {
        ConsumedDigit(text, ignoreInvalid, full, pending, left, reading.value);
        SentinelAppend(pending, reading.value);
        pending := pending + [reading.value];
        bits := bits * 64 + reading.value;
        SentinelFull(pending);
        if bits >= SENTINEL_LIMIT {
          if limit - pos < 3 {
            return true, bits, pos, full, pending, left[1..];
          }
          ConsumedGroup(text, ignoreInvalid, full, pending, left[1..]);
          GroupBytes(full, pending);
          if out != null {
            PutBytes(out, pos, Bytes24(bits));
          }
          full, pending := full + pending, [];
          pos, bits := pos + 3, 1;
        }
      }
      left := left[1..];
    }
    rest := left;
  }

  method PutBytes(out: array<byte>, pos: nat, bytes: Bytes)
    requires pos + |bytes| <= out.Length
    modifies out
    ensures out[..pos + |bytes|] == old(out[..pos]) + bytes
    ensures forall j :: pos + |bytes| <= j < out.Length ==> out[j] == old(out[j])
  {
    forall i | 0 <= i < |bytes| {
      out[pos + i] := bytes[i];
    }
  }

  /** A 32-bit number shifted left by whole bytes. */
  ghost function Shifted(v: nat, k: nat): nat {
    if k == 0 then v else Shifted(v, k - 1) * 0x100 % UINT32_SIZE
  }

  lemma ShiftOnce(a: nat, b: byte, c: byte)
    requires a < 0x200
    ensures (a * 0x10000 + b * 0x100 + c) * 0x100 % UINT32_SIZE == a % 0x100 * 0x100_0000 + b * 0x10000 + c * 0x100
  {
    var low := if a < 0x100 then a else a - 0x100;
    assert a % 0x100 == low;
    assert low * 0x100_0000 + b * 0x10000 + c * 0x100 < UINT32_SIZE;
  }

  lemma MiddleByte(a: byte, b: byte, c: byte)
    ensures ByteAt(a * 0x100_0000 + b * 0x10000 + c * 0x100, 0x10000) == b
  {
    assert (a * 0x100_0000 + b * 0x10000 + c * 0x100) / 0x10000 == a * 0x100 + b;
  }

  lemma Split24(v: nat)
    ensures v == v / 0x10000 * 0x10000 + v / 0x100 % 0x100 * 0x100 + v % 0x100
  {
    assert v / 0x10000 == v / 0x100 / 0x100;
  }

  /** Shifting left by `k` bytes brings byte `k` of the group to the top. */
  lemma TopByte(v: nat, k: nat)
    requires v < 2 * SENTINEL_LIMIT && k < 3
    ensures ByteAt(Shifted(v, k), 0x10000) == Bytes24(v)[k]
  {
    var a: int, b: int, c: int := v / 0x10000, ByteAt(v, 0x100), ByteAt(v, 1);
    Split24(v);
    assert a < 0x200;
    ShiftOnce(a, b, c);
    assert Shifted(v, 1) == a % 0x100 * 0x100_0000 + b * 0x10000 + c * 0x100;
    MiddleByte(a % 0x100, b, c);
    if k == 2 {
      ShiftTwice(a % 0x100, b, c);
      MiddleByte(b, c, 0);
      assert Shifted(v, 2) == Shifted(v, 1) * 0x100 % UINT32_SIZE;
    }
  }

  lemma ShiftTwice(a: byte, b: byte, c: byte)
    ensures (a * 0x100_0000 + b * 0x10000 + c * 0x100) * 0x100 % UINT32_SIZE == b * 0x100_0000 + c * 0x10000
  {
    assert (a * 0x100_0000 + b * 0x10000 + c * 0x100) * 0x100 == a * UINT32_SIZE + (b * 0x100_0000 + c * 0x10000);
    Remainder(a, b * 0x100_0000 + c * 0x10000);
  }

  lemma Remainder(q: nat, r: nat)
    requires r < UINT32_SIZE
    ensures (q * UINT32_SIZE + r) % UINT32_SIZE == r
  {
  }

  function Padded(ds: seq<digit>, k: nat): seq<digit> {
    if k == 0 then ds else Padded(ds, k - 1) + [0]
  }

  lemma {:induction false} PaddedSize(ds: seq<digit>, k: nat)
    ensures |Padded(ds, k)| == |ds| + k
  {
    if k > 0 {
      PaddedSize(ds, k - 1);
    }
  }

  /** Digits padded to a whole group still start with the bytes they carry. */
  lemma PaddedBytes(ds: seq<digit>)
    requires 1 <= |ds| <= 4
    ensures |Pack(ds)| == |ds| - 1
    ensures Bytes24(Sentinel(Padded(ds, 4 - |ds|)))[..|ds| - 1] == Pack(ds)
  {
    var whole := Padded(ds, 4 - |ds|);
    PaddedSize(ds, 4 - |ds|);
    GroupFromSentinel(whole);
    PaddedDigits(ds);
    if |ds| == 4 {
      PackOfFour(ds);
    }
  }

  lemma PaddedDigits(ds: seq<digit>)
    requires 1 <= |ds| <= 4
    ensures var whole := Padded(ds, 4 - |ds|);
      |whole| == 4 && forall i :: 0 <= i < 4 ==> whole[i] == if i < |ds| then ds[i] else 0
  {
    PaddedSize(ds, 4 - |ds|);
    if |ds| < 4 {
      assert Padded(ds, 1) == ds + [0];
      if |ds| < 3 {
        assert Padded(ds, 2) == ds + [0] + [0];
        if |ds| < 2 {
          assert Padded(ds, 3) == ds + [0] + [0] + [0];
        }
      }
    }
  }

  /** One more zero digit shifts the number up. */
  lemma PadStep(ds: seq<digit>, k: nat)
    ensures Sentinel(Padded(ds, k + 1)) == Sentinel(Padded(ds, k)) * 64
  {
    SentinelAppend(Padded(ds, k), 0);
  }

  lemma PaddedFull(ds: seq<digit>, k: nat)
    requires |ds| + k <= 4
    ensures Sentinel(Padded(ds, k)) < 2 * SENTINEL_LIMIT
    ensures Sentinel(Padded(ds, k)) >= SENTINEL_LIMIT <==> k == 4 - |ds|
  {
    PaddedSize(ds, k);
    SentinelFull(Padded(ds, k));
  }

  /** Shifts the pending digits up until they fill a group, counting the whole bytes they carry. */
  method CountRest(bits: nat, ghost pending: seq<digit>) returns (n: nat, v: nat)
    requires 1 <= |pending| <= 4 && bits == Sentinel(pending)
    ensures n == |Pack(pending)| == |pending| - 1
    ensures Bytes24(v)[..n] == Pack(pending) && v < 2 * SENTINEL_LIMIT
  {
    n, v := 3, bits;
    ghost var k := 0;
    PaddedFull(pending, 0);
    while v < SENTINEL_LIMIT
      invariant 0 <= k <= 4 - |pending| && n == 3 - k
      invariant v == Sentinel(Padded(pending, k)) < 2 * SENTINEL_LIMIT
      invariant v >= SENTINEL_LIMIT <==> k == 4 - |pending|
      decreases 4 - |pending| - k
    {
      PadStep(pending, k);
      PaddedFull(pending, k + 1);
      n, v, k := n - 1, v * 64, k + 1;
    }
    PaddedBytes(pending);
  }

  /** Writes the whole bytes of the pending digits. */
  method DecodeRest(bits: nat, out: array?<byte>, limit: uint32, pos: nat,
                    ghost full: seq<digit>, ghost pending: seq<digit>)
    returns (ok: bool, pos': nat)
    requires |pending| <= 4 && bits == Sentinel(pending)
    requires out != null ==> limit <= out.Length
    requires pos <= limit && pos == |Pack(full)| && Holds(out, Pack(full))
    modifies if out == null then {} else {out}
    ensures ok <==> pos + |Pack(pending)| <= limit
    ensures ok ==> pos' == pos + |Pack(pending)| && Holds(out, Pack(full) + Pack(pending))
    ensures pos' <= limit
    ensures out != null ==> forall j :: limit <= j < out.Length ==> out[j] == old(out[j])
  {
    ghost var tail := Pack(pending);
    SentinelFull(pending);
    pos' := pos;
    ok := true;
    if bits < 64 {
      return;
    }
    var n, v := CountRest(bits, pending);
    ghost var group := v;
    var k := 0;
    while k < n
      invariant 0 <= k <= n == |tail| && pos' == pos + k <= limit
      invariant v == Shifted(group, k)
      invariant Holds(out, Pack(full) + tail[..k])
      invariant out != null ==> forall j :: limit <= j < out.Length ==> out[j] == old(out[j])
    {
      if pos' == limit {
        return false, pos';
      }
      TopByte(group, k);
      assert tail[..k + 1] == tail[..k] + [ByteAt(v, 0x10000)];
      if out != null {
        out[pos'] := ByteAt(v, 0x10000);
      }
      pos', k := pos' + 1, k + 1;
      v := v * 0x100 % UINT32_SIZE;
    }
    assert tail[..n] == tail;
  }
}
