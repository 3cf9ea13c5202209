/** Steam ids: their text form and the strict parser for it. */
module SteamId {
  import opened Common
  import opened Pem

  const UINT64_MAX: uint64 := 0xFFFF_FFFF_FFFF_FFFF
  const ACCOUNT_MASK := 0xFFFF_FFFF
  const INSTANCE_MASK := 0xF_FFFF
  const UNIVERSE_MAX := 5
  const FLAG_CLAN := 0x8_0000
  const FLAG_LOBBY := 0x4_0000

  const INVALID := 0
  const INDIVIDUAL := 1
  const MULTISEAT := 2
  const GAME_SERVER := 3
  const ANON_GAME_SERVER := 4
  const PENDING := 5
  const CONTENT_SERVER := 6
  const CLAN := 7
  const CHAT := 8
  const ANON_USER := 10

  type universe = x: int | 0 <= x < 0x100
  type accountType = x: int | 0 <= x < 0x10
  type instance = x: int | 0 <= x <= INSTANCE_MASK

  datatype Id = Id(universe: universe, type_: accountType, instance: instance, account: uint32)

  const CLEARED := Id(0, INVALID, 0, 0)

  /** The fields of an id packed in 64 bits. */
  function FromUint64(v: uint64): Id {
    Id(v / 0x100_0000_0000_0000, v / 0x10_0000_0000_0000 % 0x10, v / 0x1_0000_0000 % 0x10_0000, v % 0x1_0000_0000)
  }

  // ---------- decimal numbers ----------

  predicate IsDecimal(c: char) {
    '0' <= c <= '9'
  }

  function DecimalValue(c: char): nat
    requires IsDecimal(c)
  {
    c as int - '0' as int
  }

  /** The character at a position; strings end in a terminator. */
  function CharAt(s: string, i: nat): char {
    if i < |s| then s[i] else '\0'
  }

  /** Reads on at `pos` after digits worth `val`, in 64-bit arithmetic: `None` if it notices an overflow. */
  function DecimalFrom(s: string, pos: nat, limit: uint64, val: uint64): (r: Option<(uint64, nat)>)
    ensures r.Some? ==> pos <= r.value.1
    decreases |s| - pos
  {
    if !IsDecimal(CharAt(s, pos)) then Some((val, pos))
    else
      var next := val * 10 % (UINT64_MAX + 1);
      if next < val then None
      else
        var sum := (next + DecimalValue(CharAt(s, pos))) % (UINT64_MAX + 1);
        if sum > limit then None else DecimalFrom(s, pos + 1, limit, sum)
  }

  /** A number at `pos` and where it ends. */
  function Decimal(s: string, pos: nat, limit: uint64): (r: Option<(uint64, nat)>)
    ensures r.Some? ==> pos < r.value.1
  {
    if IsDecimal(CharAt(s, pos)) then DecimalFrom(s, pos, limit, 0) else None
  }

  method DecimalToUint64(s: string, pos: nat, limit: uint64) returns (r: Option<(uint64, nat)>)
    ensures r == Decimal(s, pos, limit)
  {
    var at := pos;
    var val: uint64 := 0;
    while IsDecimal(CharAt(s, at))
      invariant pos <= at
      invariant DecimalFrom(s, at, limit, val) == DecimalFrom(s, pos, limit, 0)
      invariant at > pos ==> IsDecimal(CharAt(s, pos))
      decreases |s| - at
    {
      var next := val * 10 % (UINT64_MAX + 1);
      if next < val {
        return None;
      }
      val := (next + DecimalValue(CharAt(s, at))) % (UINT64_MAX + 1);
      if val > limit {
        return None;
      }
      at := at + 1;
    }
    if at == pos {
      return None;
    }
    r := Some((val, at));
  }

  /** The first position from `pos` on that is not a digit. */
  function DigitsEnd(s: string, pos: nat): (r: nat)
    ensures pos <= r
    decreases |s| - pos
  {
    if IsDecimal(CharAt(s, pos)) then DigitsEnd(s, pos + 1) else pos
  }

  /** The number the digits from `pos` on stand for, after digits worth `val`. */
  function ValueFrom(s: string, pos: nat, val: nat): (r: nat)
    ensures val <= r
    decreases |s| - pos
  {
    if IsDecimal(CharAt(s, pos)) then ValueFrom(s, pos + 1, val * 10 + DecimalValue(CharAt(s, pos))) else val
  }

  /** The value after one more digit, in 64-bit arithmetic. */
  function Next(val: uint64, d: nat): uint64 {
    (val * 10 % (UINT64_MAX + 1) + d) % (UINT64_MAX + 1)
  }

  lemma NextExact(val: uint64, d: nat)
    requires d < 10 && val * 10 + d <= UINT64_MAX
    ensures Next(val, d) == val * 10 + d && val * 10 % (UINT64_MAX + 1) >= val
  {
  }

  lemma {:induction false} DecimalFromWithin(s: string, pos: nat, limit: uint64, val: uint64)
    requires val <= limit
    ensures DecimalFrom(s, pos, limit, val).Some? ==> DecimalFrom(s, pos, limit, val).value.0 <= limit
    decreases |s| - pos
  {
    if IsDecimal(CharAt(s, pos)) {
      var sum := Next(val, DecimalValue(CharAt(s, pos)));
      if sum <= limit {
        DecimalFromWithin(s, pos + 1, limit, sum);
      }
    }
  }

  lemma {:induction false} DecimalFromExact(s: string, pos: nat, limit: uint64, val: uint64)
    requires ValueFrom(s, pos, val) <= limit
    ensures DecimalFrom(s, pos, limit, val) == Some((ValueFrom(s, pos, val), DigitsEnd(s, pos)))
    decreases |s| - pos
  {
    if IsDecimal(CharAt(s, pos)) {
      var d := DecimalValue(CharAt(s, pos));
      NextExact(val, d);
      DecimalFromExact(s, pos + 1, limit, val * 10 + d);
    }
  }

  /** The number read is right exactly if there are digits and their value is within the limit. */
  lemma DecimalExact(s: string, pos: nat, limit: uint64)
    ensures Decimal(s, pos, limit) == Some((ValueFrom(s, pos, 0), DigitsEnd(s, pos)))
       <==> IsDecimal(CharAt(s, pos)) && ValueFrom(s, pos, 0) <= limit
  {
    DecimalFromWithin(s, pos, limit, 0);
    if ValueFrom(s, pos, 0) <= limit {
      DecimalFromExact(s, pos, limit, 0);
    }
  }

  /** With room for one more digit below 64 bits, a value over the limit is always noticed. */
  lemma {:induction false} OverLimitNoticed(s: string, pos: nat, limit: uint64, val: uint64)
    requires limit * 10 + 9 <= UINT64_MAX && val <= limit < ValueFrom(s, pos, val)
    ensures DecimalFrom(s, pos, limit, val).None?
    decreases |s| - pos
  {
    var d := DecimalValue(CharAt(s, pos));
    NextExact(val, d);
    if val * 10 + d <= limit {
      OverLimitNoticed(s, pos + 1, limit, val * 10 + d);
    }
  }

  // ---------- writing ----------

  function DecimalText(n: nat): (t: string)
    ensures t != ""
  {
    var last := ('0' as int + n % 10) as char;
    if n < 10 then [last] else DecimalText(n / 10) + [last]
  }

  /** One more digit read. */
  function Accumulated(t: string): nat
    requires forall i :: 0 <= i < |t| ==> IsDecimal(t[i])
  {
    if t == "" then 0 else Accumulated(t[..|t| - 1]) * 10 + DecimalValue(t[|t| - 1])
  }

  lemma {:induction false} DecimalTextValue(n: nat)
    ensures forall i :: 0 <= i < |DecimalText(n)| ==> IsDecimal(DecimalText(n)[i])
    ensures Accumulated(DecimalText(n)) == n
  {
    if n >= 10 {
      DecimalTextValue(n / 10);
      assert DecimalText(n)[..|DecimalText(n)| - 1] == DecimalText(n / 10);
    } else {
      assert Accumulated("") == 0;
    }
  }

  lemma {:induction false} DigitsAt(s: string, pos: nat, t: string)
    requires At(s, pos, t) && forall i :: 0 <= i < |t| ==> IsDecimal(t[i])
    ensures ValueFrom(s, pos, 0) == ValueFrom(s, pos + |t|, Accumulated(t))
    ensures DigitsEnd(s, pos) == DigitsEnd(s, pos + |t|)
    decreases |t|
  {
    if t != "" {
      var rest := t[..|t| - 1];
      assert At(s, pos, rest) by {
        assert forall i :: 0 <= i < |rest| ==> s[pos + i] == t[i];
      }
      DigitsAt(s, pos, rest);
      assert s[pos + (|t| - 1)] == t[|t| - 1];
    }
  }

  /** A number in the text is read back. */
  lemma NumberRead(s: string, pos: nat, n: nat, limit: uint64)
    requires At(s, pos, DecimalText(n)) && n <= limit && !IsDecimal(CharAt(s, pos + |DecimalText(n)|))
    ensures Decimal(s, pos, limit) == Some((n, pos + |DecimalText(n)|))
  {
    var t := DecimalText(n);
    DecimalTextValue(n);
    DigitsAt(s, pos, t);
    assert s[pos + 0] == t[0];
    DecimalExact(s, pos, limit);
  }

  lemma DigitRead(s: string, pos: nat, limit: uint64, val: uint64)
    requires IsDecimal(CharAt(s, pos)) && val * 10 + DecimalValue(CharAt(s, pos)) <= limit
    ensures DecimalFrom(s, pos, limit, val)
         == DecimalFrom(s, pos + 1, limit, val * 10 + DecimalValue(CharAt(s, pos)))
  {
    NextExact(val, DecimalValue(CharAt(s, pos)));
  }

  /** Digits worth no more than the limit are read exactly, whatever comes after them. */
  lemma {:induction false} PrefixRead(s: string, pos: nat, t: string, limit: uint64)
    requires At(s, pos, t) && forall i :: 0 <= i < |t| ==> IsDecimal(t[i])
    requires Accumulated(t) <= limit
    ensures DecimalFrom(s, pos, limit, 0) == DecimalFrom(s, pos + |t|, limit, Accumulated(t))
    decreases |t|
  {
    if t != "" {
      var rest := t[..|t| - 1];
      assert At(s, pos, rest) by {
        assert forall i :: 0 <= i < |rest| ==> s[pos + i] == t[i];
      }
      PrefixRead(s, pos, rest, limit);
      assert s[pos + (|t| - 1)] == t[|t| - 1];
      DigitRead(s, pos + |rest|, limit, Accumulated(rest));
    }
  }

  /** The digits of two to the sixty-fourth. */
  function Overflowing(): string {
    DecimalText(UINT64_MAX / 10) + "6"
  }

  lemma OverflowingParts()
    ensures var s, t := Overflowing(), DecimalText(UINT64_MAX / 10);
      At(s, 0, t) && |s| == |t| + 1 && s[|t|] == '6' && IsDecimal(CharAt(s, 0))
  {
    var t := DecimalText(UINT64_MAX / 10);
    DecimalTextValue(UINT64_MAX / 10);
    assert Overflowing()[0] == t[0];
  }

  lemma LastDigitWraps(s: string, pos: nat, limit: uint64, val: uint64)
    requires pos + 1 == |s| && s[pos] == '6' && val == UINT64_MAX / 10
    ensures ValueFrom(s, pos, val) == UINT64_MAX + 1
    ensures DecimalFrom(s, pos, limit, val) == Some((0, |s|))
  {
    assert ValueFrom(s, pos + 1, val * 10 + 6) == val * 10 + 6;
    assert DecimalFrom(s, pos + 1, limit, 0) == Some((0, pos + 1));
  }

  lemma OverflowingRead(s: string, t: string, n: uint64, limit: uint64)
    requires n == UINT64_MAX / 10 <= limit && t == DecimalText(n)
    requires At(s, 0, t) && |s| == |t| + 1 && s[|t|] == '6'
    ensures ValueFrom(s, 0, 0) == UINT64_MAX + 1 && DecimalFrom(s, 0, limit, 0) == Some((0, |s|))
  {
    DecimalTextValue(n);
    DigitsAt(s, 0, t);
    PrefixRead(s, 0, t, limit);
    LastDigitWraps(s, |t|, limit, n);
  }

  /** Any greater limit lets the overflow of a last digit pass: two to the sixty-fourth is read as zero. */
  lemma OverflowUnnoticed(limit: uint64)
    requires limit * 10 + 9 > UINT64_MAX
    ensures var s := Overflowing();
      && IsDecimal(CharAt(s, 0)) && ValueFrom(s, 0, 0) == UINT64_MAX + 1
      && Decimal(s, 0, limit) == Some((0, |s|))
  {
    OverflowingParts();
    OverflowingRead(Overflowing(), DecimalText(UINT64_MAX / 10), UINT64_MAX / 10, limit);
  }

  /** Every value over the limit is refused if and only if the limit leaves room for one more digit. */
  lemma OverLimitRefusedIff(limit: uint64)
    ensures (forall s, pos ::
              IsDecimal(CharAt(s, pos)) && ValueFrom(s, pos, 0) > limit ==> Decimal(s, pos, limit).None?)
       <==> limit * 10 + 9 <= UINT64_MAX
  {
    if limit * 10 + 9 <= UINT64_MAX {
      forall s, pos: nat | IsDecimal(CharAt(s, pos)) && ValueFrom(s, pos, 0) > limit
        ensures Decimal(s, pos, limit).None?
      {
        OverLimitNoticed(s, pos, limit, 0);
      }
    } else {
      OverflowUnnoticed(limit);
    }
  }

  predicate HasFlag(i: instance, flag: nat)
    requires flag > 0
  {
    i / flag % 2 == 1
  }

  /** The letter for an account type. */
  function Letter(id: Id): char {
    if id.type_ == ANON_GAME_SERVER then 'A'
    else if id.type_ == GAME_SERVER then 'G'
    else if id.type_ == MULTISEAT then 'M'
    else if id.type_ == PENDING then 'P'
    else if id.type_ == CONTENT_SERVER then 'C'
    else if id.type_ == CLAN then 'g'
    else if id.type_ == CHAT then
      if HasFlag(id.instance, FLAG_CLAN) then 'c' else if HasFlag(id.instance, FLAG_LOBBY) then 'L' else 'T'
    else if id.type_ == INVALID then 'I'
    else if id.type_ == INDIVIDUAL then 'U'
    else if id.type_ == ANON_USER then 'a'
    else 'i'
  }

  function Bracketed(letter: char, numbers: string): string {
    "[" + [letter] + ":" + numbers + "]"
  }

  function Numbers(id: Id): string {
    DecimalText(id.universe) + ":" + DecimalText(id.account)
    + if id.type_ == ANON_GAME_SERVER || id.type_ == MULTISEAT then ":" + DecimalText(id.instance) else ""
  }

  function Rendered(id: Id): string {
    Bracketed(Letter(id), Numbers(id))
  }

  // ---------- the strict parser ----------

  /** What the leading letter stands for; no letter, or one that is not known, has prefix zero. */
  datatype Kind = Kind(prefix: char, type_: accountType, instance: instance, maxValues: nat, known: bool)

  function KindOf(c: char): Kind {
    match c
    case 'A' => Kind(c, ANON_GAME_SERVER, 1, 3, true)
    case 'a' => Kind(c, ANON_USER, 0, 3, true)
    case 'G' => Kind(c, GAME_SERVER, 1, 2, true)
    case 'C' => Kind(c, CONTENT_SERVER, 1, 2, true)
    case 'g' => Kind(c, CLAN, 0, 2, true)
    case 'c' => Kind(c, CHAT, FLAG_CLAN, 2, true)
    case 'L' => Kind(c, CHAT, FLAG_LOBBY, 2, true)
    case 'T' => Kind(c, CHAT, 0, 2, true)
    case 'U' => Kind(c, INDIVIDUAL, 1, 2, true)
    case 'i' => Kind(c, INVALID, 1, 2, true)
    case _ => Kind('\0', INDIVIDUAL, 1, 2, IsDecimal(c))
  }

  /** What the loop over the numbers makes of a text. */
  datatype Scan = Bad | Good(values: seq<uint64>, instance: Option<nat>)

  predicate Ends(s: string, pos: nat, bracket: bool) {
    if bracket then CharAt(s, pos) == ']' && CharAt(s, pos + 1) == '\0' else CharAt(s, pos) == '\0'
  }

  /** The last number of an anonymous game server may have its instance in parentheses behind it. */
  function ScanInstance(s: string, pos: nat, bracket: bool, values: seq<uint64>): Scan {
    match Decimal(s, pos, INSTANCE_MASK)
    case None => Bad
    case Some((i, end)) =>
      if CharAt(s, end) == ')' && |values| <= 2 && Ends(s, end + 1, bracket) then Good(values, Some(i)) else Bad
  }

  function ScanFrom(s: string, pos: nat, kind: Kind, bracket: bool, values: seq<uint64>): (r: Scan)
    ensures r.Good? ==> |r.values| > |values|
    decreases |s| - pos
  {
    match Decimal(s, pos, UINT64_MAX)
    case None => Bad
    case Some((v, end)) =>
      var more := values + [v];
      if CharAt(s, end) == '(' && kind.prefix == 'A' then ScanInstance(s, end + 1, bracket, more)
      else if CharAt(s, end) != ':' then if Ends(s, end, bracket) then Good(more, None) else Bad
      else if |more| >= kind.maxValues then Bad
      else ScanFrom(s, end + 1, kind, bracket, more)
  }

  function Assembled(values: seq<uint64>, inParentheses: Option<nat>, kind: Kind, default: universe): Option<Id>
    requires values != []
  {
    var inst :=
      if |values| > 2 then values[2] else if inParentheses.Some? then inParentheses.value else kind.instance;
    if inst > INSTANCE_MASK then None
    else if |values| > 1 then
      if values[0] < UNIVERSE_MAX && values[1] <= ACCOUNT_MASK
      then Some(Combined(if values[0] == 0 then default else values[0], kind, inst, values[1]))
      else None
    else if values[0] <= ACCOUNT_MASK then Some(Combined(default, kind, inst, values[0]))
    else if kind.prefix == '\0' then Some(FromUint64(values[0]))
    else None
  }

  function Combined(u: universe, kind: Kind, inst: instance, account: uint32): Id {
    if kind.prefix == 'A' && account == 0 then Id(u, ANON_GAME_SERVER, 0, 0) else Id(u, kind.type_, inst, account)
  }

  /** Where the numbers start. */
  function NumbersStart(s: string, pos: nat, kind: Kind): nat {
    if kind.prefix == '\0' then pos
    else if CharAt(s, pos + 1) == '-' || CharAt(s, pos + 1) == ':' then pos + 2
    else pos + 1
  }

  function Parsed(s: string, default: universe): Option<Id> {
    var bracket := CharAt(s, 0) == '[';
    var pos := if bracket then 1 else 0;
    var kind := KindOf(CharAt(s, pos));
    if !kind.known then None
    else
      match ScanFrom(s, NumbersStart(s, pos, kind), kind, bracket, [])
      case Bad => None
      case Good(values, inst) => Assembled(values, inst, kind, default)
  }

  // ---------- round trip ----------

  /** A last number, with the end of the text behind it. */
  lemma ScanLast(s: string, pos: nat, n: uint64, kind: Kind, values: seq<uint64>)
    requires At(s, pos, DecimalText(n)) && pos + |DecimalText(n)| + 1 == |s| && s[|s| - 1] == ']'
    ensures ScanFrom(s, pos, kind, true, values) == Good(values + [n], None)
  {
    NumberRead(s, pos, n, UINT64_MAX);
  }

  /** A number with another one to follow. */
  lemma ScanNext(s: string, pos: nat, n: uint64, kind: Kind, values: seq<uint64>)
    requires At(s, pos, DecimalText(n)) && At(s, pos + |DecimalText(n)|, ":") && |values| + 1 < kind.maxValues
    ensures ScanFrom(s, pos, kind, true, values)
         == ScanFrom(s, pos + |DecimalText(n)| + 1, kind, true, values + [n])
  {
    assert s[pos + |DecimalText(n)| + 0] == ":"[0];
    NumberRead(s, pos, n, UINT64_MAX);
  }

  function Values(id: Id): seq<uint64> {
    if id.type_ == ANON_GAME_SERVER || id.type_ == MULTISEAT then [id.universe, id.account, id.instance]
    else [id.universe, id.account]
  }

  lemma TwoParts(s: string, pos: nat, u: string, a: string)
    requires At(s, pos, u + ":" + a)
    ensures At(s, pos, u) && At(s, pos + |u|, ":") && At(s, pos + |u| + 1, a)
  {
    AtSplit(s, pos, u + ":", a);
    AtSplit(s, pos, u, ":");
  }

  lemma OneTwoThree(u: uint64, a: uint64, i: uint64)
    ensures [] + [u] == [u] && [u] + [a] == [u, a] && [u, a] + [i] == [u, a, i]
  {
  }

  lemma ScanTwo(s: string, pos: nat, u: uint64, a: uint64, kind: Kind)
    requires At(s, pos, DecimalText(u)) && At(s, pos + |DecimalText(u)|, ":") && 2 <= kind.maxValues
    requires At(s, pos + |DecimalText(u)| + 1, DecimalText(a))
    requires pos + |DecimalText(u)| + 1 + |DecimalText(a)| + 1 == |s| && s[|s| - 1] == ']'
    ensures ScanFrom(s, pos, kind, true, []) == Good([u, a], None)
  {
    OneTwoThree(u, a, 0);
    ScanNext(s, pos, u, kind, []);
    ScanLast(s, pos + |DecimalText(u)| + 1, a, kind, [u]);
  }

  lemma ScanThree(s: string, pos: nat, u: uint64, a: uint64, i: uint64, kind: Kind)
    requires At(s, pos, DecimalText(u)) && At(s, pos + |DecimalText(u)|, ":") && 3 <= kind.maxValues
    requires var p := pos + |DecimalText(u)| + 1; At(s, p, DecimalText(a)) && At(s, p + |DecimalText(a)|, ":")
    requires var p := pos + |DecimalText(u)| + 1 + |DecimalText(a)| + 1;
      At(s, p, DecimalText(i)) && p + |DecimalText(i)| + 1 == |s| && s[|s| - 1] == ']'
    ensures ScanFrom(s, pos, kind, true, []) == Good([u, a, i], None)
  {
    OneTwoThree(u, a, i);
    ScanNext(s, pos, u, kind, []);
    ScanNext(s, pos + |DecimalText(u)| + 1, a, kind, [u]);
    ScanLast(s, pos + |DecimalText(u)| + 1 + |DecimalText(a)| + 1, i, kind, [u, a]);
  }

  lemma ScanNumbers(s: string, pos: nat, id: Id, kind: Kind)
    requires At(s, pos, Numbers(id)) && pos + |Numbers(id)| + 1 == |s| && s[|s| - 1] == ']'
    requires |Values(id)| <= kind.maxValues
    ensures ScanFrom(s, pos, kind, true, []) == Good(Values(id), None)
  {
    var two := DecimalText(id.universe) + ":" + DecimalText(id.account);
    if id.type_ == ANON_GAME_SERVER || id.type_ == MULTISEAT {
      AtSplit(s, pos, two, ":" + DecimalText(id.instance));
      AtSplit(s, pos + |two|, ":", DecimalText(id.instance));
      TwoParts(s, pos, DecimalText(id.universe), DecimalText(id.account));
      ScanThree(s, pos, id.universe, id.account, id.instance, kind);
    } else {
      assert two + "" == two;
      TwoParts(s, pos, DecimalText(id.universe), DecimalText(id.account));
      ScanTwo(s, pos, id.universe, id.account, kind);
    }
  }

  lemma BracketedParts(letter: char, numbers: string)
    ensures var s := Bracketed(letter, numbers);
      && |s| == 3 + |numbers| + 1 && s[0] == '[' && s[1] == letter && s[2] == ':'
      && At(s, 3, numbers) && s[|s| - 1] == ']'
  {
  }

  /** What the parser makes of a rendered id. */
  lemma RenderedParsed(id: Id, default: universe)
    ensures Parsed(Rendered(id), default)
         == if KindOf(Letter(id)).prefix == '\0' then None
            else Assembled(Values(id), None, KindOf(Letter(id)), default)
  {
    var s := Rendered(id);
    var kind := KindOf(Letter(id));
    BracketedParts(Letter(id), Numbers(id));
    if kind.prefix != '\0' {
      ScanNumbers(s, 3, id, kind);
    }
  }

  /** The instance a rendered id implies, where it does not print it. */
  predicate InstanceKept(id: Id) {
    if id.type_ == ANON_GAME_SERVER then id.account == 0 ==> id.instance == 0
    else if id.type_ == GAME_SERVER || id.type_ == CONTENT_SERVER || id.type_ == INDIVIDUAL then id.instance == 1
    else if id.type_ == CLAN || id.type_ == ANON_USER then id.instance == 0
    else id.type_ == CHAT && (id.instance == 0 || id.instance == FLAG_CLAN || id.instance == FLAG_LOBBY)
  }

  predicate UniverseKept(id: Id, default: universe) {
    id.universe < UNIVERSE_MAX && (id.universe == 0 ==> default == 0)
  }

  lemma ChatFlags(i: instance)
    ensures i == FLAG_CLAN ==> HasFlag(i, FLAG_CLAN)
    ensures i == FLAG_LOBBY ==> !HasFlag(i, FLAG_CLAN) && HasFlag(i, FLAG_LOBBY)
    ensures i == 0 ==> !HasFlag(i, FLAG_CLAN) && !HasFlag(i, FLAG_LOBBY)
  {
  }

  /** Parsing a rendered id gives it back exactly if its universe is known and its instance is kept. */
  lemma RoundTripIff(id: Id, default: universe)
    ensures Parsed(Rendered(id), default) == Some(id) <==> UniverseKept(id, default) && InstanceKept(id)
  {
    RenderedParsed(id, default);
    ChatFlags(id.instance);
  }

  /** So different ids of that kind have different texts. */
  lemma RenderingInjective(a: Id, b: Id, default: universe)
    requires UniverseKept(a, default) && InstanceKept(a) && UniverseKept(b, default) && InstanceKept(b)
    requires Rendered(a) == Rendered(b)
    ensures a == b
  {
    RoundTripIff(a, default);
    RoundTripIff(b, default);
  }

  /** A game server's instance of zero is not kept. */
  lemma GameServerInstanceLost()
    ensures Parsed(Rendered(Id(1, GAME_SERVER, 0, 7)), 1) == Some(Id(1, GAME_SERVER, 1, 7))
  {
    RenderedParsed(Id(1, GAME_SERVER, 0, 7), 1);
  }

  // ---------- the object ----------

  class SteamID {
    var m_universe: universe
    var m_type: accountType
    var m_instance: instance
    var m_account: uint32

    function Value(): Id
      reads this
    {
      Id(m_universe, m_type, m_instance, m_account)
    }

    constructor ()
      ensures Value() == CLEARED
    {
      m_universe, m_type, m_instance, m_account := 0, INVALID, 0, 0;
    }

    method Clear()
      modifies this
      ensures Value() == CLEARED
    {
      m_universe, m_type, m_instance, m_account := 0, INVALID, 0, 0;
    }

    method InstancedSet(id: Id)
      modifies this
      ensures Value() == id
    {
      m_universe, m_type, m_instance, m_account := id.universe, id.type_, id.instance, id.account;
    }

    method Render() returns (text: string)
      ensures text == Rendered(Value())
    {
      var two := DecimalText(m_universe) + ":" + DecimalText(m_account);
      assert two + "" == two;
      if m_type == ANON_GAME_SERVER {
        return Bracketed('A', two + (":" + DecimalText(m_instance)));
      } else if m_type == GAME_SERVER {
        return Bracketed('G', two);
      } else if m_type == MULTISEAT {
        return Bracketed('M', two + (":" + DecimalText(m_instance)));
      } else if m_type == PENDING {
        return Bracketed('P', two);
      } else if m_type == CONTENT_SERVER {
        return Bracketed('C', two);
      } else if m_type == CLAN {
        return Bracketed('g', two);
      } else if m_type == CHAT {
        if HasFlag(m_instance, FLAG_CLAN) {
          return Bracketed('c', two);
        } else if HasFlag(m_instance, FLAG_LOBBY) {
          return Bracketed('L', two);
        } else {
          return Bracketed('T', two);
        }
      } else if m_type == INVALID {
        return Bracketed('I', two);
      } else if m_type == INDIVIDUAL {
        return Bracketed('U', two);
      } else if m_type == ANON_USER {
        return Bracketed('a', two);
      } else {
        return Bracketed('i', two);
      }
    }

    /** Sets the id from its exact text; when that fails the id is cleared. */
    method SetFromStringStrict(text: string, default: universe) returns (ok: bool)
      modifies this
      ensures ok <==> Parsed(text, default).Some?
      ensures Value() == if ok then Parsed(text, default).value else CLEARED
    {
      Clear();
      var bracket := CharAt(text, 0) == '[';
      var pos := if bracket then 1 else 0;
      var kind := KindOf(CharAt(text, pos));
      ok := kind.known;
      if kind.prefix != '\0' {
        pos := pos + 1;
        if CharAt(text, pos) == '-' || CharAt(text, pos) == ':' {
          pos := pos + 1;
        }
      }
      var good, values, inst := ScanLoop(text, pos, kind, bracket);
      if !good || !ok {
        return false;
      }
      ok := Assemble(values, inst, kind, default);
    }

    method Assemble(values: seq<uint64>, inParentheses: Option<nat>, kind: Kind, default: universe) returns (ok: bool)
      requires values != [] && Value() == CLEARED
      modifies this
      ensures ok <==> Assembled(values, inParentheses, kind, default).Some?
      ensures Value() == if ok then Assembled(values, inParentheses, kind, default).value else CLEARED
    {
      ok := true;
      var inst := if inParentheses.Some? then inParentheses.value else kind.instance;
      if |values| > 2 {
        inst := values[2];
      }
      if inst > INSTANCE_MASK {
        return false;
      }
      var u, account := default, 0;
      if |values| > 1 {
        if values[0] >= UNIVERSE_MAX || values[1] > ACCOUNT_MASK {
          return false;
        }
        if values[0] != 0 {
          u := values[0];
        }
        account := values[1];
      } else if values[0] <= ACCOUNT_MASK {
        account := values[0];
      } else {
        if kind.prefix == '\0' {
          InstancedSet(FromUint64(values[0]));
          return true;
        }
        return false;
      }
      if kind.prefix == 'A' && account == 0 {
        InstancedSet(Id(u, ANON_GAME_SERVER, 0, 0));
      } else {
        InstancedSet(Id(u, kind.type_, inst, account));
      }
    }
  }

  method ScanLoop(text: string, start: nat, kind: Kind, bracket: bool)
    returns (good: bool, values: seq<uint64>, inst: Option<nat>)
    ensures good <==> ScanFrom(text, start, kind, bracket, []).Good?
    ensures good ==> ScanFrom(text, start, kind, bracket, []) == Good(values, inst) && values != []
  {
    var pos := start;
    good, values, inst := true, [], None;
    while true
      invariant good && inst == None
      invariant ScanFrom(text, pos, kind, bracket, values) == ScanFrom(text, start, kind, bracket, [])
      decreases |text| - pos
    {
      var number := DecimalToUint64(text, pos, UINT64_MAX);
      if number.None? {
        return false, values, inst;
      }
      var end := number.value.1;
      values := values + [number.value.0];
      if CharAt(text, end) == '(' && kind.prefix == 'A' {
        good := |values| <= 2;
        var i := DecimalToUint64(text, end + 1, INSTANCE_MASK);
        if i.None? || CharAt(text, i.value.1) != ')' {
          return false, values, inst;
        }
        inst := Some(i.value.0);
        end := i.value.1 + 1;
        if CharAt(text, end) == ':' {
          return false, values, inst;
        }
      }
      if CharAt(text, end) != ':' {
        if !Ends(text, end, bracket) {
          good := false;
        }
        return;
      }
      if |values| >= kind.maxValues {
        return false, values, inst;
      }
      pos := end + 1;
    }
  }
}
