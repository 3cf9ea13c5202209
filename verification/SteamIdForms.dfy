/** The forms of text the strict parser takes beside the rendered one, and what it makes of them. */
module SteamIdForms {
  import opened Common
  import opened Pem
  import opened SteamId

  // ---------- the number of an id ----------

  /** An id as one number: universe, type, instance and account from the top. */
  function Packed(id: Id): (v: uint64) {
    ((id.universe * 0x10 + id.type_) * 0x10_0000 + id.instance) * 0x1_0000_0000 + id.account
  }

  lemma LowestField(q: nat, d: uint32)
    ensures (q * 0x1_0000_0000 + d) / 0x1_0000_0000 == q && (q * 0x1_0000_0000 + d) % 0x1_0000_0000 == d
  {
  }

  lemma MiddleField(q: nat, d: instance)
    ensures (q * 0x10_0000 + d) / 0x10_0000 == q && (q * 0x10_0000 + d) % 0x10_0000 == d
  {
  }

  lemma HighFields(q: universe, d: accountType)
    ensures (q * 0x10 + d) / 0x10 == q && (q * 0x10 + d) % 0x10 == d
  {
  }

  lemma HighParts(v: nat)
    ensures v / 0x10_0000_0000_0000 == v / 0x1_0000_0000 / 0x10_0000
    ensures v / 0x100_0000_0000_0000 == v / 0x1_0000_0000 / 0x10_0000 / 0x10
  {
  }

  /** Taking the fields out of that number undoes packing. */
  lemma PackedFields(id: Id)
    ensures FromUint64(Packed(id)) == id
  {
    var high := (id.universe * 0x10 + id.type_) * 0x10_0000 + id.instance;
    HighParts(Packed(id));
    LowestField(high, id.account);
    MiddleField(id.universe * 0x10 + id.type_, id.instance);
    HighFields(id.universe, id.type_);
  }

  lemma FieldsPacked(v: uint64)
    ensures Packed(FromUint64(v)) == v
  {
    HighParts(v);
  }

  lemma {:induction false} DecimalTextDigits(n: nat)
    ensures IsDecimal(DecimalText(n)[0])
    ensures forall i :: 0 <= i < |DecimalText(n)| ==> IsDecimal(DecimalText(n)[i])
  {
    DecimalTextValue(n);
  }

  // ---------- spellings ----------

  predicate Known(letter: char) {
    letter in "AaGCgcLTUi"
  }

  /** The account type, by number, and the instance a letter stands for. */
  function Meaning(letter: char): (accountType, instance) {
    if letter == 'i' then (0, 1)
    else if letter == 'U' then (1, 1)
    else if letter == 'G' then (3, 1)
    else if letter == 'A' then (4, 1)
    else if letter == 'C' then (6, 1)
    else if letter == 'g' then (7, 0)
    else if letter == 'c' then (8, 0x8_0000)
    else if letter == 'L' then (8, 0x4_0000)
    else if letter == 'T' then (8, 0)
    else (10, 0)
  }

  lemma LetterKinds(c: char)
    ensures Known(c) ==> KindOf(c) == Kind(c, Meaning(c).0, Meaning(c).1, if c in "Aa" then 3 else 2, true)
    ensures !Known(c) ==> KindOf(c) == Kind('\0', INDIVIDUAL, 1, 2, IsDecimal(c))
  {
  }

  /** The letter written for each account type but that of chats, whose instance decides. */
  lemma LetterWritten(id: Id)
    ensures id.type_ <= 10 && id.type_ != 8 ==> Letter(id) == "IUMGAPCg?ia"[id.type_]
    ensures id.type_ > 10 ==> Letter(id) == 'i'
    ensures id.type_ == 8 && id.instance >= 0x8_0000 ==> Letter(id) == 'c'
    ensures id.type_ == 8 && 0x4_0000 <= id.instance < 0x8_0000 ==> Letter(id) == 'L'
    ensures id.type_ == 8 && id.instance < 0x4_0000 ==> Letter(id) == 'T'
  {
  }

  /** A text with a letter: in brackets or not, with a colon, a dash or nothing after the letter. */
  function Spelled(bracket: bool, letter: char, sep: string, numbers: string): string {
    (if bracket then "[" else "") + [letter] + sep + numbers + if bracket then "]" else ""
  }

  ghost predicate Plain(numbers: string) {
    NoneOf(numbers, ']') && NoneOf(numbers, '\0')
  }

  ghost predicate NoneOf(s: string, c: char) {
    forall i :: 0 <= i < |s| ==> s[i] != c
  }

  /** The numbers stand in the text at `pos`, and what ends the text follows them. */
  ghost predicate Stands(s: string, pos: nat, numbers: string, bracket: bool) {
    At(s, pos, numbers) &&
    if bracket then pos + |numbers| + 1 == |s| && s[|s| - 1] == ']' else pos + |numbers| == |s|
  }

  lemma StandsLater(s: string, pos: nat, numbers: string, bracket: bool, k: nat)
    requires Stands(s, pos, numbers, bracket) && Plain(numbers) && k <= |numbers|
    ensures Stands(s, pos + k, numbers[k..], bracket) && Plain(numbers[k..])
    ensures k < |numbers| ==> CharAt(s, pos + k) == numbers[k]
  {
    forall i | 0 <= i < |numbers[k..]| ensures s[pos + k + i] == numbers[k..][i] {
      assert s[pos + (k + i)] == numbers[k + i];
    }
  }

  /** A number is read alike wherever it stands. */
  lemma {:induction false} DecimalFromSame(s: string, pos: nat, bracket: bool, n: string, limit: uint64, val: uint64)
    requires Stands(s, pos, n, bracket) && Plain(n)
    ensures DecimalFrom(s, pos, limit, val).Some? <==> DecimalFrom(n, 0, limit, val).Some?
    ensures DecimalFrom(s, pos, limit, val).Some? ==>
      && DecimalFrom(s, pos, limit, val).value.0 == DecimalFrom(n, 0, limit, val).value.0
      && DecimalFrom(s, pos, limit, val).value.1 == pos + DecimalFrom(n, 0, limit, val).value.1
      && DecimalFrom(n, 0, limit, val).value.1 <= |n|
    decreases |n|
  {
    StandsLater(s, pos, n, bracket, 0);
    if n != "" && IsDecimal(n[0]) {
      var sum := Next(val, DecimalValue(n[0]));
      StandsLater(s, pos, n, bracket, 1);
      assert Stands(n, 0, n, false);
      StandsLater(n, 0, n, false, 1);
      DecimalFromSame(s, pos + 1, bracket, n[1..], limit, sum);
      DecimalFromSame(n, 1, false, n[1..], limit, sum);
    }
  }

  lemma DecimalSame(s: string, pos: nat, bracket: bool, n: string, limit: uint64)
    requires Stands(s, pos, n, bracket) && Plain(n)
    ensures Decimal(s, pos, limit).Some? <==> Decimal(n, 0, limit).Some?
    ensures Decimal(s, pos, limit).Some? ==>
      && Decimal(s, pos, limit).value.0 == Decimal(n, 0, limit).value.0
      && Decimal(s, pos, limit).value.1 == pos + Decimal(n, 0, limit).value.1
      && Decimal(n, 0, limit).value.1 <= |n|
  {
    StandsLater(s, pos, n, bracket, 0);
    DecimalFromSame(s, pos, bracket, n, limit, 0);
  }

  lemma EndsSame(s: string, pos: nat, bracket: bool, n: string, k: nat)
    requires Stands(s, pos, n, bracket) && Plain(n) && k <= |n|
    ensures Ends(s, pos + k, bracket) <==> k == |n|
  {
    StandsLater(s, pos, n, bracket, k);
    if k < |n| {
      assert n[k] != ']' && n[k] != '\0';
    }
  }

  lemma InstanceSame(s: string, pos: nat, bracket: bool, n: string, values: seq<uint64>)
    requires Stands(s, pos, n, bracket) && Plain(n)
    ensures ScanInstance(s, pos, bracket, values) == ScanInstance(n, 0, false, values)
  {
    DecimalSame(s, pos, bracket, n, INSTANCE_MASK);
    if Decimal(n, 0, INSTANCE_MASK).Some? {
      var k := Decimal(n, 0, INSTANCE_MASK).value.1;
      StandsLater(s, pos, n, bracket, k);
      if k < |n| {
        EndsSame(s, pos, bracket, n, k + 1);
        EndsSame(n, 0, false, n, k + 1);
      }
    }
  }

  /** What the loop does after a number that ends at `end`. */
  function ScanOn(s: string, end: nat, kind: Kind, bracket: bool, more: seq<uint64>): Scan {
    if CharAt(s, end) == '(' && kind.prefix == 'A' then ScanInstance(s, end + 1, bracket, more)
    else if CharAt(s, end) != ':' then if Ends(s, end, bracket) then Good(more, None) else Bad
    else if |more| >= kind.maxValues then Bad
    else ScanFrom(s, end + 1, kind, bracket, more)
  }

  lemma ScanBegun(s: string, pos: nat, kind: Kind, bracket: bool, values: seq<uint64>)
    ensures ScanFrom(s, pos, kind, bracket, values)
         == match Decimal(s, pos, UINT64_MAX)
            case None => Bad
            case Some((v, end)) => ScanOn(s, end, kind, bracket, values + [v])
  {
  }

  lemma {:induction false} ScanSame(s: string, pos: nat, bracket: bool, n: string, kind: Kind, values: seq<uint64>)
    requires Stands(s, pos, n, bracket) && Plain(n)
    ensures ScanFrom(s, pos, kind, bracket, values) == ScanFrom(n, 0, kind, false, values)
    decreases |n|, 1
  {
    ScanBegun(s, pos, kind, bracket, values);
    ScanBegun(n, 0, kind, false, values);
    DecimalSame(s, pos, bracket, n, UINT64_MAX);
    if Decimal(n, 0, UINT64_MAX).Some? {
      var (v, k) := Decimal(n, 0, UINT64_MAX).value;
      assert Stands(n, 0, n, false);
      ScanOnSame(s, pos, bracket, n, k, kind, values + [v]);
      ScanOnSame(n, 0, false, n, k, kind, values + [v]);
    }
  }

  /** After the number too: what is made of the rest depends on the rest alone. */
  function ScanRest(n: string, k: nat, kind: Kind, more: seq<uint64>): Scan
    requires k <= |n|
  {
    if k == |n| then Good(more, None)
    else if n[k] == '(' && kind.prefix == 'A' then ScanInstance(n[k + 1..], 0, false, more)
    else if n[k] != ':' || |more| >= kind.maxValues then Bad
    else ScanFrom(n[k + 1..], 0, kind, false, more)
  }

  lemma {:induction false} ScanOnSame(
    s: string, pos: nat, bracket: bool, n: string, k: nat, kind: Kind, more: seq<uint64>)
    requires Stands(s, pos, n, bracket) && Plain(n) && 0 < k <= |n|
    ensures ScanOn(s, pos + k, kind, bracket, more) == ScanRest(n, k, kind, more)
    decreases |n|, 0
  {
    StandsLater(s, pos, n, bracket, k);
    EndsSame(s, pos, bracket, n, k);
    if k < |n| {
      StandsLater(s, pos, n, bracket, k + 1);
      if n[k] == '(' {
        InstanceSame(s, pos + k + 1, bracket, n[k + 1..], more);
      } else if n[k] == ':' {
        ScanSame(s, pos + k + 1, bracket, n[k + 1..], kind, more);
      }
    }
  }

  lemma SpelledStands(bracket: bool, letter: char, sep: string, numbers: string)
    ensures var b := if bracket then 1 else 0;
      var s := Spelled(bracket, letter, sep, numbers);
      s[b] == letter && (bracket ==> s[0] == '[') && At(s, b + 1, sep) && Stands(s, b + 1 + |sep|, numbers, bracket)
  {
    var open, close := if bracket then "[" else "", if bracket then "]" else "";
    var s := Spelled(bracket, letter, sep, numbers);
    assert s == open + [letter] + sep + numbers + close;
    assert At(s, 0, s);
    AtSplit(s, 0, open + [letter] + sep + numbers, close);
    AtSplit(s, 0, open + [letter] + sep, numbers);
    AtSplit(s, 0, open + [letter], sep);
    SpelledFront(open, letter, sep + numbers + close);
    Associative(open + [letter], sep, numbers);
    Associative(open + [letter], sep + numbers, close);
    if bracket {
      assert s[|s| - 1] == close[0];
    }
  }

  lemma SpelledFront(open: string, letter: char, rest: string)
    ensures (open + [letter] + rest)[|open|] == letter && (open != "" ==> (open + [letter] + rest)[0] == open[0])
  {
  }

  /** What the parser makes of a letter and numbers behind it. */
  function Meant(letter: char, numbers: string, default: universe): Option<Id> {
    match ScanFrom(numbers, 0, KindOf(letter), false, [])
    case Bad => None
    case Good(values, inst) => Assembled(values, inst, KindOf(letter), default)
  }

  lemma SpelledStart(bracket: bool, letter: char, sep: string, numbers: string)
    requires Known(letter) && sep in {"", ":", "-"} && Plain(numbers)
    requires sep == "" ==> numbers == "" || (numbers[0] != ':' && numbers[0] != '-')
    ensures var b := if bracket then 1 else 0;
      var s := Spelled(bracket, letter, sep, numbers);
      && (CharAt(s, 0) == '[') == bracket && CharAt(s, b) == letter
      && NumbersStart(s, b, KindOf(letter)) == b + 1 + |sep|
      && Stands(s, b + 1 + |sep|, numbers, bracket)
  {
    var b := if bracket then 1 else 0;
    var s := Spelled(bracket, letter, sep, numbers);
    SpelledStands(bracket, letter, sep, numbers);
    if sep == "" {
      StandsLater(s, b + 1, numbers, bracket, 0);
    } else {
      assert s[b + 1 + 0] == sep[0];
    }
  }

  lemma StandsParsed(s: string, letter: char, pos: nat, numbers: string, default: universe)
    requires var bracket := CharAt(s, 0) == '[';
      var b := if bracket then 1 else 0;
      && CharAt(s, b) == letter && KindOf(letter).known && NumbersStart(s, b, KindOf(letter)) == pos
      && Stands(s, pos, numbers, bracket) && Plain(numbers)
    ensures Parsed(s, default) == Meant(letter, numbers, default)
  {
    ScanSame(s, pos, CharAt(s, 0) == '[', numbers, KindOf(letter), []);
  }

  lemma SpelledParsed(bracket: bool, letter: char, sep: string, numbers: string, default: universe)
    requires Known(letter) && sep in {"", ":", "-"} && Plain(numbers)
    requires sep == "" ==> numbers == "" || (numbers[0] != ':' && numbers[0] != '-')
    ensures Parsed(Spelled(bracket, letter, sep, numbers), default) == Meant(letter, numbers, default)
  {
    var b := if bracket then 1 else 0;
    SpelledStart(bracket, letter, sep, numbers);
    LetterKinds(letter);
    StandsParsed(Spelled(bracket, letter, sep, numbers), letter, b + 1 + |sep|, numbers, default);
  }

  /** With or without brackets, with a colon, a dash or nothing after the letter: all the same. */
  lemma Spellings(bracket: bool, letter: char, sep: string, numbers: string, default: universe)
    requires Known(letter) && sep in {"", ":", "-"} && Plain(numbers)
    requires sep == "" ==> numbers == "" || (numbers[0] != ':' && numbers[0] != '-')
    ensures Parsed(Spelled(bracket, letter, sep, numbers), default) == Parsed(Bracketed(letter, numbers), default)
  {
    SpelledParsed(bracket, letter, sep, numbers, default);
    SpelledParsed(true, letter, ":", numbers, default);
    assert Spelled(true, letter, ":", numbers) == Bracketed(letter, numbers);
  }

  // ---------- numbers ----------

  /** The id a letter stands for with a universe and an account; an anonymous game server without one is blank. */
  function Lettered(letter: char, u: universe, account: uint32): Id {
    if letter == 'A' && account == 0 then Id(u, ANON_GAME_SERVER, 0, 0)
    else Id(u, Meaning(letter).0, Meaning(letter).1, account)
  }

  lemma NumberPlain(n: nat)
    ensures Plain(DecimalText(n))
  {
    DecimalTextDigits(n);
  }

  /** A number and, after it, something that is not a digit. */
  lemma NumberThen(n: uint64, rest: string, kind: Kind, values: seq<uint64>)
    requires Plain(rest) && (rest != "" ==> !IsDecimal(rest[0]))
    ensures Plain(DecimalText(n) + rest)
    ensures ScanFrom(DecimalText(n) + rest, 0, kind, false, values)
         == ScanRest(rest, 0, kind, values + [n])
  {
    var t := DecimalText(n);
    var s := t + rest;
    NumberPlain(n);
    assert At(s, 0, t) && s[|t|..] == rest;
    NumberRead(s, 0, n, UINT64_MAX);
    ScanBegun(s, 0, kind, false, values);
    assert Stands(s, 0, s, false);
    ScanOnSame(s, 0, false, s, |t|, kind, values + [n]);
    if rest != "" {
      assert s[|t| + 1..] == rest[1..];
    }
  }

  function One(a: nat): string {
    DecimalText(a) + ""
  }

  function Two(u: nat, a: nat): string {
    DecimalText(u) + (":" + One(a))
  }

  function Three(u: nat, a: nat, i: nat): string {
    DecimalText(u) + (":" + Two(a, i))
  }

  /** A number with an instance in parentheses behind it. */
  function Behind(a: nat, i: nat): string {
    DecimalText(a) + ("(" + (DecimalText(i) + ")"))
  }

  function InParentheses(u: nat, a: nat, i: nat): string {
    DecimalText(u) + (":" + Behind(a, i))
  }

  lemma After(mark: char, rest: string)
    requires Plain(rest) && mark != ']' && mark != '\0'
    ensures Plain([mark] + rest) && ([mark] + rest)[0] == mark && ([mark] + rest)[1..] == rest
  {
  }

  lemma OneScanned(a: uint64, kind: Kind, values: seq<uint64>)
    ensures Plain(One(a)) && ScanFrom(One(a), 0, kind, false, values) == Good(values + [a], None)
  {
    NumberThen(a, "", kind, values);
  }

  lemma TwoScanned(u: uint64, a: uint64, kind: Kind, values: seq<uint64>)
    requires |values| <= 1
    ensures Plain(Two(u, a))
    ensures ScanFrom(Two(u, a), 0, kind, false, values)
         == if |values| + 1 >= kind.maxValues then Bad else Good(values + [u] + [a], None)
  {
    OneScanned(a, kind, values + [u]);
    After(':', One(a));
    NumberThen(u, ":" + One(a), kind, values);
  }

  lemma ThreeScanned(u: uint64, a: uint64, i: uint64, kind: Kind)
    requires kind.maxValues >= 2
    ensures Plain(Three(u, a, i))
    ensures ScanFrom(Three(u, a, i), 0, kind, false, [])
         == if 2 >= kind.maxValues then Bad else Good([u, a, i], None)
  {
    TwoScanned(a, i, kind, [u]);
    After(':', Two(a, i));
    NumberThen(u, ":" + Two(a, i), kind, []);
    OneTwoThree(u, a, i);
  }

  lemma InstanceScanned(i: uint64, values: seq<uint64>)
    requires i < 0x10_0000
    ensures Plain(DecimalText(i) + ")")
    ensures ScanInstance(DecimalText(i) + ")", 0, false, values) == if |values| <= 2 then Good(values, Some(i)) else Bad
  {
    var s := DecimalText(i) + ")";
    NumberPlain(i);
    assert At(s, 0, DecimalText(i)) && s[|DecimalText(i)|] == ')';
    NumberRead(s, 0, i, INSTANCE_MASK);
  }

  lemma BehindScanned(a: uint64, i: uint64, kind: Kind, values: seq<uint64>)
    requires i < 0x10_0000
    ensures Plain(Behind(a, i))
    ensures ScanFrom(Behind(a, i), 0, kind, false, values)
         == if kind.prefix == 'A' && |values| <= 1 then Good(values + [a], Some(i)) else Bad
  {
    var last := DecimalText(i) + ")";
    InstanceScanned(i, values + [a]);
    After('(', last);
    NumberThen(a, "(" + last, kind, values);
  }

  lemma ParenthesesScanned(u: uint64, a: uint64, i: uint64, kind: Kind, values: seq<uint64>)
    requires i < 0x10_0000 && kind.maxValues >= 2
    ensures Plain(InParentheses(u, a, i))
    ensures ScanFrom(InParentheses(u, a, i), 0, kind, false, values)
         == if kind.prefix == 'A' && values == [] then Good([u, a], Some(i)) else Bad
  {
    BehindScanned(a, i, kind, values + [u]);
    After(':', Behind(a, i));
    NumberThen(u, ":" + Behind(a, i), kind, values);
    assert values == [] ==> values + [u] + [a] == [u, a];
  }

  lemma DigitKind(c: char)
    requires IsDecimal(c)
    ensures KindOf(c) == Kind('\0', INDIVIDUAL, 1, 2, true)
  {
  }

  /** A plain number is an individual's account, or an id packed if it is too large for one. */
  lemma PlainNumber(n: uint64, default: universe)
    ensures Parsed(DecimalText(n), default)
         == Some(if n < 0x1_0000_0000 then Id(default, INDIVIDUAL, 1, n) else FromUint64(n))
  {
    var s := DecimalText(n);
    DecimalTextDigits(n);
    NumberPlain(n);
    DigitKind(s[0]);
    StandsParsed(s, s[0], 0, s, default);
    OneScanned(n, KindOf(s[0]), []);
    assert One(n) == s && [] + [n] == [n];
  }

  lemma PlainId(id: Id, default: universe)
    requires Packed(id) >= 0x1_0000_0000
    ensures Parsed(DecimalText(Packed(id)), default) == Some(id)
  {
    PlainNumber(Packed(id), default);
    PackedFields(id);
  }

  lemma BracketedMeant(letter: char, numbers: string, default: universe)
    requires Known(letter) && Plain(numbers)
    ensures Parsed(Bracketed(letter, numbers), default) == Meant(letter, numbers, default)
  {
    SpelledParsed(true, letter, ":", numbers, default);
    assert Spelled(true, letter, ":", numbers) == Bracketed(letter, numbers);
  }

  /** One number is an account in the default universe. */
  lemma OneNumber(letter: char, a: uint64, default: universe)
    requires Known(letter)
    ensures Parsed(Bracketed(letter, One(a)), default)
         == if a >= 0x1_0000_0000 then None else Some(Lettered(letter, default, a))
  {
    OneScanned(a, KindOf(letter), []);
    BracketedMeant(letter, One(a), default);
    assert [] + [a] == [a];
  }

  lemma AssembledTwo(letter: char, u: uint64, a: uint64, default: universe)
    requires Known(letter)
    ensures Assembled([u, a], None, KindOf(letter), default)
         == if u >= 5 || a >= 0x1_0000_0000 then None
            else Some(Lettered(letter, if u == 0 then default else u, a))
  {
    LetterKinds(letter);
  }

  /** Two numbers are universe and account, within their ranges; universe 0 is the default one. */
  lemma TwoNumbers(letter: char, u: uint64, a: uint64, default: universe)
    requires Known(letter)
    ensures Parsed(Bracketed(letter, Two(u, a)), default)
         == if u >= 5 || a >= 0x1_0000_0000 then None
            else Some(Lettered(letter, if u == 0 then default else u, a))
  {
    TwoScanned(u, a, KindOf(letter), []);
    BracketedMeant(letter, Two(u, a), default);
    LetterKinds(letter);
    AssembledTwo(letter, u, a, default);
    OneTwoThree(u, a, 0);
  }

  /** A third number is the instance, for the two letters that take one; the others refuse it. */
  lemma ThreeNumbers(letter: char, u: uint64, a: uint64, i: uint64, default: universe)
    requires Known(letter)
    ensures Parsed(Bracketed(letter, Three(u, a, i)), default)
         == if (letter != 'A' && letter != 'a') || u >= 5 || a >= 0x1_0000_0000 || i >= 0x10_0000 then None
            else if letter == 'A' && a == 0 then Some(Lettered(letter, if u == 0 then default else u, a))
            else Some(Lettered(letter, if u == 0 then default else u, a).(instance := i))
  {
    ThreeScanned(u, a, i, KindOf(letter));
    BracketedMeant(letter, Three(u, a, i), default);
  }

  /** An anonymous game server's instance may stand in parentheses instead, behind account and universe. */
  lemma InstanceInParentheses(letter: char, u: uint64, a: uint64, i: uint64, default: universe)
    requires Known(letter) && i < 0x10_0000
    ensures Parsed(Bracketed(letter, InParentheses(u, a, i)), default)
         == if letter == 'A' then Parsed(Bracketed('A', Three(u, a, i)), default) else None
  {
    LetterKinds(letter);
    ParenthesesScanned(u, a, i, KindOf(letter), []);
    BracketedMeant(letter, InParentheses(u, a, i), default);
    ThreeNumbers('A', u, a, i, default);
  }

  /** Or behind the account alone. */
  lemma InstanceBehind(letter: char, a: uint64, i: uint64, default: universe)
    requires Known(letter) && i < 0x10_0000
    ensures Parsed(Bracketed(letter, Behind(a, i)), default)
         == if letter != 'A' || a >= 0x1_0000_0000 then None
            else if a == 0 then Some(Id(default, 4, 0, 0)) else Some(Id(default, 4, i, a))
  {
    BehindScanned(a, i, KindOf(letter), []);
    BracketedMeant(letter, Behind(a, i), default);
    assert [] + [a] == [a];
  }

  lemma ThirdScanned(u: uint64, a: uint64, i: uint64, kind: Kind)
    requires i < 0x10_0000 && kind.maxValues >= 2
    ensures Plain(DecimalText(u) + (":" + InParentheses(u, a, i)))
    ensures ScanFrom(DecimalText(u) + (":" + InParentheses(u, a, i)), 0, kind, false, []) == Bad
  {
    ParenthesesScanned(u, a, i, kind, [u]);
    After(':', InParentheses(u, a, i));
    NumberThen(u, ":" + InParentheses(u, a, i), kind, []);    assert [] + [u] == [u];
  }

  /** But not behind a third number. */
  lemma InstanceTwice(letter: char, u: uint64, a: uint64, i: uint64, default: universe)
    requires Known(letter) && i < 0x10_0000
    ensures Parsed(Bracketed(letter, DecimalText(u) + (":" + InParentheses(u, a, i))), default) == None
  {
    ThirdScanned(u, a, i, KindOf(letter));
    BracketedMeant(letter, DecimalText(u) + (":" + InParentheses(u, a, i)), default);
  }

  // ---------- nothing else ----------

  predicate NumberChar(c: char) {
    IsDecimal(c) || c == ':' || c == '(' || c == ')'
  }

  /** From `from` to `to` there is nothing but numbers and what separates them, and there the text ends. */
  ghost predicate OnlyNumbers(s: string, from: nat, to: nat, bracket: bool) {
    && from <= to <= |s| && (forall i :: from <= i < to ==> NumberChar(s[i]))
    && (if bracket then to < |s| && s[to] == ']' && CharAt(s, to + 1) == '\0' else CharAt(s, to) == '\0')
  }

  lemma {:induction false} DigitsOnly(s: string, pos: nat, limit: uint64, val: uint64)
    requires DecimalFrom(s, pos, limit, val).Some? && pos <= |s|
    ensures DecimalFrom(s, pos, limit, val).value.1 <= |s|
    ensures forall i :: pos <= i < DecimalFrom(s, pos, limit, val).value.1 ==> IsDecimal(s[i])
    decreases |s| - pos
  {
    if IsDecimal(CharAt(s, pos)) {
      DigitsOnly(s, pos + 1, limit, Next(val, DecimalValue(CharAt(s, pos))));
    }
  }

  lemma NumberOnly(s: string, pos: nat, limit: uint64)
    requires Decimal(s, pos, limit).Some?
    ensures pos < Decimal(s, pos, limit).value.1 <= |s|
    ensures forall i :: pos <= i < Decimal(s, pos, limit).value.1 ==> IsDecimal(s[i])
  {
    assert pos < |s|;
    DigitsOnly(s, pos, limit, 0);
  }

  lemma {:induction false} ScanOnly(s: string, pos: nat, kind: Kind, bracket: bool, values: seq<uint64>)
    returns (e: nat)
    requires ScanFrom(s, pos, kind, bracket, values).Good?
    ensures pos < e && OnlyNumbers(s, pos, e, bracket)
    decreases |s| - pos
  {
    var (v, end) := Decimal(s, pos, UINT64_MAX).value;
    NumberOnly(s, pos, UINT64_MAX);
    ScanBegun(s, pos, kind, bracket, values);
    if CharAt(s, end) == '(' && kind.prefix == 'A' {
      var (i, last) := Decimal(s, end + 1, INSTANCE_MASK).value;
      NumberOnly(s, end + 1, INSTANCE_MASK);
      e := last + 1;
    } else if CharAt(s, end) != ':' {
      e := end;
    } else {
      e := ScanOnly(s, end + 1, kind, bracket, values + [v]);
    }
  }

  /**
   * Whatever the parser takes is a known letter or none, numbers and separators, and nothing behind them
   * but the bracket that was there in front.
   */
  lemma NothingElse(s: string, default: universe) returns (from: nat, to: nat)
    requires Parsed(s, default).Some?
    ensures var b := if CharAt(s, 0) == '[' then 1 else 0;
      && (if IsDecimal(CharAt(s, b)) then from == b else Known(CharAt(s, b)) && b < from <= b + 2)
      && from < to && OnlyNumbers(s, from, to, b == 1)
  {
    var b := if CharAt(s, 0) == '[' then 1 else 0;
    var kind := KindOf(CharAt(s, b));
    from := NumbersStart(s, b, kind);
    to := ScanOnly(s, from, kind, b == 1, []);
  }
}
