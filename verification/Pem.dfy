/** Finding the body of a PEM-like text between its BEGIN and END markers. */
module Pem {
  import opened Common

  predicate IsSpace(c: char) {
    c == ' ' || 9 <= c as int <= 13
  }

  predicate IsBlank(c: char) {
    c == ' ' || c == '\t'
  }

  predicate IsDash(c: char) {
    c == '-'
  }

  /** Characters that may belong to the type named in a marker. */
  predicate IsTypeChar(c: char) {
    c != '-' && c != '\0' && c != '\r' && c != '\n'
  }

  predicate IsBodyChar(c: char) {
    c != '-'
  }

  function Upper(c: char): char {
    if 'a' <= c <= 'z' then (c as int - 32) as char else c
  }

  /** Equality of strings, letter case aside. */
  predicate SameNoCase(a: string, b: string) {
    |a| == |b| && forall i :: 0 <= i < |a| ==> Upper(a[i]) == Upper(b[i])
  }

  /** The classes of characters, spelled out; letter case is that of ASCII. */
  lemma Characters(c: char, d: char)
    ensures IsSpace(c) <==> c in " \t\n\r" || c as int in {11, 12}
    ensures IsBlank(c) <==> c in " \t"
    ensures IsTypeChar(c) <==> c !in "-\0\r\n"
    ensures SameNoCase([c], [d]) <==>
      c == d || ('a' <= c <= 'z' && c as int == d as int + 32) || ('a' <= d <= 'z' && d as int == c as int + 32)
  {
    assert SameNoCase([c], [d]) ==> Upper([c][0]) == Upper([d][0]);
  }

  predicate AtEnd(text: string, pos: nat) {
    pos >= |text| || text[pos] == '\0'
  }

  /** The first position from `pos` on whose character does not satisfy `p`. */
  function SkipWhile(text: string, pos: nat, p: char -> bool): (r: nat)
    requires pos <= |text|
    ensures pos <= r <= |text|
    decreases |text| - pos
  {
    if pos < |text| && p(text[pos]) then SkipWhile(text, pos + 1, p) else pos
  }

  method Skip(text: string, pos: nat, p: char -> bool) returns (r: nat)
    requires pos <= |text|
    ensures r == SkipWhile(text, pos, p)
  {
    r := pos;
    while r < |text| && p(text[r])
      invariant pos <= r <= |text|
      invariant SkipWhile(text, r, p) == SkipWhile(text, pos, p)
    {
      r := r + 1;
    }
  }

  lemma {:induction false} SkipRun(text: string, pos: nat, end: nat, p: char -> bool)
    requires pos <= end <= |text|
    requires forall i :: pos <= i < end ==> p(text[i])
    requires end < |text| ==> !p(text[end])
    ensures SkipWhile(text, pos, p) == end
    decreases end - pos
  {
    if pos < end {
      SkipRun(text, pos + 1, end, p);
    }
  }

  /** The position after a marker at `pos`, past any space following it; `None` if it is not there. */
  function Marker(text: string, pos: nat, word: string, expectedType: string): (r: Option<nat>)
    requires pos <= |text|
    ensures r.Some? ==> pos <= r.value <= |text|
  {
    var dashes := SkipWhile(text, pos, IsSpace);
    if AtEnd(text, dashes) || text[dashes] != '-' then None
    else
      var blanks := SkipWhile(text, dashes, IsDash);
      if AtEnd(text, blanks) then None
      else
        var name := SkipWhile(text, blanks, IsBlank);
        if AtEnd(text, name) || name + |word| >= |text| || !SameNoCase(text[name..name + |word|], word) then None
        else MarkerType(text, name + |word|, expectedType)
  }

  /** The second half of a marker: the type and the closing dashes. */
  function MarkerType(text: string, pos: nat, expectedType: string): (r: Option<nat>)
    requires pos <= |text|
    ensures r.Some? ==> pos <= r.value <= |text|
  {
    var start := SkipWhile(text, pos, IsBlank);
    if AtEnd(text, start) then None
    else
      var end := SkipWhile(text, start, IsTypeChar);
      if end >= |text| || text[end] != '-' then None
      else if start + |expectedType| > end || !SameNoCase(text[start..start + |expectedType|], expectedType) then None
      else Some(SkipWhile(text, SkipWhile(text, end, IsDash), IsSpace))
  }

  method ParseHeaderOrFooter(text: string, pos: nat, word: string, expectedType: string) returns (r: Option<nat>)
    requires pos <= |text|
    ensures r == Marker(text, pos, word, expectedType)
  {
    var at := Skip(text, pos, IsSpace);
    if at >= |text| || text[at] == '\0' || text[at] != '-' {
      return None;
    }
    at := Skip(text, at, IsDash);
    if at >= |text| || text[at] == '\0' {
      return None;
    }
    at := Skip(text, at, IsBlank);
    if at >= |text| || text[at] == '\0' {
      return None;
    }
    if at + |word| >= |text| || !SameNoCase(text[at..at + |word|], word) {
      return None;
    }
    r := ParseType(text, at + |word|, expectedType);
  }

  method ParseType(text: string, pos: nat, expectedType: string) returns (r: Option<nat>)
    requires pos <= |text|
    ensures r == MarkerType(text, pos, expectedType)
  {
    var start := Skip(text, pos, IsBlank);
    if start >= |text| || text[start] == '\0' {
      return None;
    }
    var at := Skip(text, start, IsTypeChar);
    if at >= |text| || text[at] != '-' {
      return None;
    }
    if start + |expectedType| > at || !SameNoCase(text[start..start + |expectedType|], expectedType) {
      return None;
    }
    at := Skip(text, at, IsDash);
    at := Skip(text, at, IsSpace);
    r := Some(at);
  }

  /** Start and end of the body: from the BEGIN marker to the first dash, where an END marker follows. */
  function Body(text: string, expectedType: string): (r: Option<(nat, nat)>)
    ensures r.Some? ==> r.value.0 <= r.value.1 <= |text|
  {
    match Marker(text, 0, "BEGIN", expectedType)
    case None => None
    case Some(start) =>
      var end := SkipWhile(text, start, IsBodyChar);
      if end >= |text| || Marker(text, end, "END", expectedType).None? then None else Some((start, end))
  }

  method LocatePEMBody(text: string, expectedType: string) returns (r: Option<(nat, nat)>)
    ensures r == Body(text, expectedType)
  {
    if |text| == 0 {
      return None;
    }
    var begin := ParseHeaderOrFooter(text, 0, "BEGIN", expectedType);
    if begin.None? {
      return None;
    }
    var end := Skip(text, begin.value, IsBodyChar);
    if end >= |text| {
      return None;
    }
    var footer := ParseHeaderOrFooter(text, end, "END", expectedType);
    if footer.None? {
      return None;
    }
    r := Some((begin.value, end));
  }

  // ---------- exactly what is found ----------

  /** From `a` to `b` every character satisfies `p`, and the one at `b`, if there is one, does not. */
  ghost predicate WholeRun(text: string, a: nat, b: nat, p: char -> bool) {
    && a <= b <= |text|
    && (forall i :: a <= i < b ==> p(text[i]))
    && (b < |text| ==> !p(text[b]))
  }

  lemma {:induction false} SkipIsWholeRun(text: string, a: nat, b: nat, p: char -> bool)
    requires a <= |text|
    ensures SkipWhile(text, a, p) == b <==> WholeRun(text, a, b, p)
    decreases |text| - a
  {
    if a < |text| && p(text[a]) {
      SkipIsWholeRun(text, a + 1, b, p);
    }
  }

  /** Where the parts of a marker are: dashes, a word, a name and dashes again. */
  datatype Parts = Parts(dashes: nat, gap: nat, word: nat, name: nat, close: nat, tail: nat)

  ghost predicate WordAt(text: string, pos: nat, word: string) {
    pos + |word| <= |text| && SameNoCase(text[pos..pos + |word|], word)
  }

  /** A name of a marker, its dashes and what is passed after them; the name starts with the type. */
  ghost predicate NamePart(text: string, from: nat, type_: string, end: nat, p: Parts) {
    && WholeRun(text, from, p.name, IsBlank)
    && WholeRun(text, p.name, p.close, IsTypeChar) && p.close < |text| && text[p.close] == '-'
    && p.name + |type_| <= p.close && WordAt(text, p.name, type_)
    && WholeRun(text, p.close, p.tail, IsDash) && WholeRun(text, p.tail, end, IsSpace)
  }

  /** Space, at least one dash, blanks, the word, blanks, a name that starts with the type, dashes, space. */
  ghost predicate MarkerParts(text: string, from: nat, word: string, type_: string, end: nat, p: Parts) {
    && WholeRun(text, from, p.dashes, IsSpace) && p.dashes < p.gap
    && WholeRun(text, p.dashes, p.gap, IsDash)
    && WholeRun(text, p.gap, p.word, IsBlank)
    && p.word + |word| < |text| && text[p.word] != '\0' && WordAt(text, p.word, word)
    && NamePart(text, p.word + |word|, type_, end, p)
  }

  ghost predicate IsMarker(text: string, from: nat, word: string, type_: string, end: nat) {
    exists p :: MarkerParts(text, from, word, type_, end, p)
  }

  lemma NamePartIff(text: string, from: nat, type_: string, end: nat, p: Parts)
    requires from <= |text|
    requires p.name == SkipWhile(text, from, IsBlank) && p.close == SkipWhile(text, p.name, IsTypeChar)
    requires p.tail == SkipWhile(text, p.close, IsDash)
    ensures MarkerType(text, from, type_) == Some(end) <==> NamePart(text, from, type_, end, p)
  {
    SkipIsWholeRun(text, from, p.name, IsBlank);
    SkipIsWholeRun(text, p.name, p.close, IsTypeChar);
    SkipIsWholeRun(text, p.close, p.tail, IsDash);
    SkipIsWholeRun(text, p.tail, end, IsSpace);
  }

  /** The parts of a text, as the parser passes them. */
  function PartsOf(text: string, from: nat, word: string): Parts
    requires from <= |text|
  {
    var dashes := SkipWhile(text, from, IsSpace);
    var gap := SkipWhile(text, dashes, IsDash);
    var at := SkipWhile(text, gap, IsBlank);
    var name := if at + |word| <= |text| then SkipWhile(text, at + |word|, IsBlank) else |text|;
    var close := SkipWhile(text, name, IsTypeChar);
    Parts(dashes, gap, at, name, close, SkipWhile(text, close, IsDash))
  }

  lemma PartsUnique(text: string, from: nat, word: string, type_: string, end: nat, p: Parts)
    requires from <= |text| && MarkerParts(text, from, word, type_, end, p)
    ensures p == PartsOf(text, from, word)
  {
    SkipIsWholeRun(text, from, p.dashes, IsSpace);
    SkipIsWholeRun(text, p.dashes, p.gap, IsDash);
    SkipIsWholeRun(text, p.gap, p.word, IsBlank);
    SkipIsWholeRun(text, p.word + |word|, p.name, IsBlank);
    SkipIsWholeRun(text, p.name, p.close, IsTypeChar);
    SkipIsWholeRun(text, p.close, p.tail, IsDash);
  }

  lemma PartsIff(text: string, from: nat, word: string, type_: string, end: nat)
    requires from <= |text|
    ensures Marker(text, from, word, type_) == Some(end)
       <==> MarkerParts(text, from, word, type_, end, PartsOf(text, from, word))
  {
    var p := PartsOf(text, from, word);
    SkipIsWholeRun(text, from, p.dashes, IsSpace);
    SkipIsWholeRun(text, p.dashes, p.gap, IsDash);
    SkipIsWholeRun(text, p.gap, p.word, IsBlank);
    if p.word + |word| <= |text| {
      NamePartIff(text, p.word + |word|, type_, end, p);
    }
  }

  /** A marker is found, and passed up to `end`, exactly if the text splits into the parts of one. */
  lemma MarkerIff(text: string, from: nat, word: string, type_: string, end: nat)
    requires from <= |text|
    ensures Marker(text, from, word, type_) == Some(end) <==> IsMarker(text, from, word, type_, end)
  {
    PartsIff(text, from, word, type_, end);
    if p :| MarkerParts(text, from, word, type_, end, p) {
      PartsUnique(text, from, word, type_, end, p);
    }
  }

  ghost predicate AnyMarker(text: string, from: nat, word: string, type_: string) {
    exists end :: IsMarker(text, from, word, type_, end)
  }

  lemma AnyMarkerIff(text: string, from: nat, word: string, type_: string)
    requires from <= |text|
    ensures Marker(text, from, word, type_).Some? <==> AnyMarker(text, from, word, type_)
  {
    var r := Marker(text, from, word, type_);
    if r.Some? {
      MarkerIff(text, from, word, type_, r.value);
    }
    if end: nat :| IsMarker(text, from, word, type_, end) {
      MarkerIff(text, from, word, type_, end);
    }
  }

  lemma BodySplit(text: string, type_: string, start: nat, end: nat)
    ensures Body(text, type_) == Some((start, end)) <==>
      && Marker(text, 0, "BEGIN", type_) == Some(start) && end == SkipWhile(text, start, IsBodyChar)
      && end < |text| && Marker(text, end, "END", type_).Some?
  {
  }

  /**
   * The body found is exactly what lies, without a dash, between a BEGIN marker at the start of the text
   * and an END marker, both of the type asked for.
   */
  lemma BodyIff(text: string, type_: string, start: nat, end: nat)
    ensures Body(text, type_) == Some((start, end)) <==>
      && IsMarker(text, 0, "BEGIN", type_, start)
      && WholeRun(text, start, end, IsBodyChar) && end < |text|
      && AnyMarker(text, end, "END", type_)
  {
    BodySplit(text, type_, start, end);
    MarkerIff(text, 0, "BEGIN", type_, start);
    if start <= |text| {
      SkipIsWholeRun(text, start, end, IsBodyChar);
    }
    if end <= |text| {
      AnyMarkerIff(text, end, "END", type_);
    }
  }

  // ---------- what is written can be found ----------

  function MarkerText(word: string, type_: string): string {
    "-----" + word + " " + type_ + "-----"
  }

  /** Types and words that a marker can hold: they end where they should. */
  ghost predicate MarkerName(name: string) {
    && name != "" && !IsBlank(name[0])
    && forall i :: 0 <= i < |name| ==> IsTypeChar(name[i])
  }

  ghost predicate AllSpace(s: string) {
    forall i :: 0 <= i < |s| ==> IsSpace(s[i])
  }

  /** `part` is found in `text` at `pos`. */
  ghost predicate At(text: string, pos: nat, part: string) {
    pos + |part| <= |text| && forall i :: 0 <= i < |part| ==> text[pos + i] == part[i]
  }

  lemma AtSplit(text: string, pos: nat, a: string, b: string)
    requires At(text, pos, a + b)
    ensures At(text, pos, a) && At(text, pos + |a|, b)
  {
    forall i | 0 <= i < |a| ensures text[pos + i] == a[i] {
      assert (a + b)[i] == a[i];
    }
    forall i | 0 <= i < |b| ensures text[pos + |a| + i] == b[i] {
      assert (a + b)[|a| + i] == b[i] && text[pos + (|a| + i)] == b[i];
    }
  }

  lemma AtSlice(text: string, pos: nat, part: string)
    requires At(text, pos, part)
    ensures text[pos..pos + |part|] == part
  {
  }

  /** `text` from `end` on is `gap` space characters, then something else that is not a dash. */
  ghost predicate GapAt(text: string, end: nat, gap: nat) {
    && end + gap <= |text|
    && AllSpace(text[end..end + gap])
    && (end + gap < |text| ==> !IsSpace(text[end + gap]) && text[end + gap] != '-')
  }

  lemma DashesFound(text: string, pos: nat)
    requires At(text, pos, "-----") && (pos + 5 < |text| ==> text[pos + 5] != '-')
    ensures SkipWhile(text, pos, IsDash) == pos + 5
  {
    forall i | pos <= i < pos + 5 ensures IsDash(text[i]) {
      assert text[pos + (i - pos)] == "-----"[i - pos];
    }
    SkipRun(text, pos, pos + 5, IsDash);
  }

  lemma GapFound(text: string, end: nat, gap: nat)
    requires GapAt(text, end, gap)
    ensures SkipWhile(text, end, IsSpace) == end + gap
  {
    forall i | end <= i < end + gap ensures IsSpace(text[i]) {
      assert text[end..end + gap][i - end] == text[i];
    }
    SkipRun(text, end, end + gap, IsSpace);
  }

  lemma SpaceIsNoDash(text: string, end: nat, gap: nat)
    requires GapAt(text, end, gap) && end < |text|
    ensures text[end] != '-'
  {
    if gap > 0 {
      assert IsSpace(text[end..end + gap][0]);
    }
  }

  lemma TypeSeen(text: string, pos: nat, type_: string)
    requires MarkerName(type_) && At(text, pos, " ") && At(text, pos + 1, type_)
    requires At(text, pos + 1 + |type_|, "-----")
    ensures MarkerType(text, pos, type_)
         == Some(SkipWhile(text, SkipWhile(text, pos + 1 + |type_|, IsDash), IsSpace))
  {
    var t, e := pos + 1, pos + 1 + |type_|;
    assert text[pos + 0] == " "[0] && text[t + 0] == type_[0] && text[e + 0] == "-----"[0];
    SkipRun(text, pos, t, IsBlank);
    forall i | t <= i < e ensures IsTypeChar(text[i]) {
      assert text[t + (i - t)] == type_[i - t];
    }
    SkipRun(text, t, e, IsTypeChar);
    AtSlice(text, t, type_);
  }

  lemma TypeFound(text: string, pos: nat, type_: string, gap: nat)
    requires MarkerName(type_) && At(text, pos, " ") && At(text, pos + 1, type_)
    requires var e := pos + 1 + |type_|; At(text, e, "-----") && GapAt(text, e + 5, gap)
    ensures MarkerType(text, pos, type_) == Some(pos + |type_| + 6 + gap)
  {
    var e := pos + 1 + |type_|;
    TypeSeen(text, pos, type_);
    if e + 5 < |text| {
      SpaceIsNoDash(text, e + 5, gap);
    }
    DashesFound(text, e);
    GapFound(text, e + 5, gap);
  }

  lemma MarkerTextParts(text: string, pos: nat, word: string, type_: string)
    requires At(text, pos, MarkerText(word, type_))
    ensures At(text, pos, "-----") && At(text, pos + 5, word) && At(text, pos + 5 + |word|, " ")
    ensures At(text, pos + 6 + |word|, type_) && At(text, pos + 6 + |word| + |type_|, "-----")
  {
    AtSplit(text, pos, "-----" + word + " " + type_, "-----");
    AtSplit(text, pos, "-----" + word + " ", type_);
    AtSplit(text, pos, "-----" + word, " ");
    AtSplit(text, pos, "-----", word);
  }

  lemma MarkerFromWord(text: string, from: nat, pos: nat, word: string, type_: string)
    requires from <= |text| && SkipWhile(text, from, IsSpace) == pos
    requires MarkerName(word) && At(text, pos, "-----") && At(text, pos + 5, word)
    requires pos + 5 + |word| < |text|
    ensures Marker(text, from, word, type_) == MarkerType(text, pos + 5 + |word|, type_)
  {
    var w := pos + 5;
    assert text[pos + 0] == "-----"[0] && text[w + 0] == word[0];
    DashesFound(text, pos);
    SkipRun(text, w, w, IsBlank);
    AtSlice(text, w, word);
  }

  /** A marker is found where it stands, past space before it, and the parser moves past the space behind it. */
  lemma MarkerFound(text: string, from: nat, pos: nat, word: string, type_: string, gap: nat)
    requires MarkerName(word) && MarkerName(type_) && from <= |text| && SkipWhile(text, from, IsSpace) == pos
    requires At(text, pos, MarkerText(word, type_)) && GapAt(text, pos + |MarkerText(word, type_)|, gap)
    ensures Marker(text, from, word, type_) == Some(pos + |MarkerText(word, type_)| + gap)
  {
    MarkerTextParts(text, pos, word, type_);
    TypeFound(text, pos + 5 + |word|, type_, gap);
    MarkerFromWord(text, from, pos, word, type_);
  }

  lemma MarkerSeen(text: string, pos: nat, word: string, type_: string)
    requires MarkerName(word) && MarkerName(type_) && At(text, pos, MarkerText(word, type_))
    ensures Marker(text, pos, word, type_).Some? && text[pos] == '-'
  {
    MarkerTextParts(text, pos, word, type_);
    assert text[pos + 0] == "-----"[0];
    SkipRun(text, pos, pos, IsSpace);
    TypeSeen(text, pos + 5 + |word|, type_);
    MarkerFromWord(text, pos, pos, word, type_);
  }

  /** A body between two markers, with space before and after the first and anything after the second. */
  function Framed(type_: string, gap0: string, gap1: string, body: string, rest: string): string {
    gap0 + MarkerText("BEGIN", type_) + gap1 + body + MarkerText("END", type_) + rest
  }

  /** The parts of such a text are where they should be, the body at `start`. */
  ghost predicate FramedAt(text: string, type_: string, gap0: string, gap1: string, body: string, start: nat) {
    var h, f := MarkerText("BEGIN", type_), MarkerText("END", type_);
    && At(text, 0, gap0) && At(text, |gap0|, h) && At(text, |gap0| + |h|, gap1)
    && start == |gap0| + |h| + |gap1| && At(text, start, body) && At(text, start + |body|, f)
  }

  lemma FramedParts(type_: string, gap0: string, gap1: string, body: string, rest: string)
    ensures var h := MarkerText("BEGIN", type_);
      FramedAt(Framed(type_, gap0, gap1, body, rest), type_, gap0, gap1, body, |gap0| + |h| + |gap1|)
  {
    var text, h, f := Framed(type_, gap0, gap1, body, rest), MarkerText("BEGIN", type_), MarkerText("END", type_);
    assert At(text, 0, text);
    AtSplit(text, 0, gap0 + h + gap1 + body + f, rest);
    AtSplit(text, 0, gap0 + h + gap1 + body, f);
    AtSplit(text, 0, gap0 + h + gap1, body);
    AtSplit(text, 0, gap0 + h, gap1);
    AtSplit(text, 0, gap0, h);
  }

  lemma GapFromAt(text: string, end: nat, gap: string)
    requires At(text, end, gap) && AllSpace(gap)
    requires end + |gap| < |text| ==> !IsSpace(text[end + |gap|]) && text[end + |gap|] != '-'
    ensures GapAt(text, end, |gap|)
  {
    AtSlice(text, end, gap);
  }

  lemma SpaceRun(text: string, gap: string)
    requires At(text, 0, gap) && AllSpace(gap) && |gap| < |text| && text[|gap|] == '-'
    ensures SkipWhile(text, 0, IsSpace) == |gap|
  {
    forall i | 0 <= i < |gap| ensures IsSpace(text[i]) {
      assert text[0 + i] == gap[i];
    }
    SkipRun(text, 0, |gap|, IsSpace);
  }

  lemma BodyRun(text: string, start: nat, body: string)
    requires At(text, start, body) && forall i :: 0 <= i < |body| ==> IsBodyChar(body[i])
    requires start + |body| < |text| && text[start + |body|] == '-'
    ensures SkipWhile(text, start, IsBodyChar) == start + |body|
  {
    forall i | start <= i < start + |body| ensures IsBodyChar(text[i]) {
      assert text[start + (i - start)] == body[i - start];
    }
    SkipRun(text, start, start + |body|, IsBodyChar);
  }

  lemma Words()
    ensures MarkerName("BEGIN") && MarkerName("END")
  {
  }

  lemma MarkerStarts(text: string, pos: nat, word: string, type_: string)
    requires At(text, pos, MarkerText(word, type_))
    ensures pos < |text| && text[pos] == '-'
  {
    assert text[pos + 0] == MarkerText(word, type_)[0];
  }

  /** A body that markers can hold: it starts with something that is not space, and it has no dash. */
  ghost predicate BodyText(body: string) {
    body != "" && !IsSpace(body[0]) && forall i :: 0 <= i < |body| ==> IsBodyChar(body[i])
  }

  lemma HeaderFound(text: string, type_: string, gap0: string, gap1: string, body: string, start: nat)
    requires MarkerName(type_) && AllSpace(gap0) && AllSpace(gap1) && BodyText(body)
    requires FramedAt(text, type_, gap0, gap1, body, start)
    ensures Marker(text, 0, "BEGIN", type_) == Some(start)
  {
    Words();
    MarkerStarts(text, |gap0|, "BEGIN", type_);
    SpaceRun(text, gap0);
    assert text[start + 0] == body[0];
    GapFromAt(text, start - |gap1|, gap1);
    MarkerFound(text, 0, |gap0|, "BEGIN", type_, |gap1|);
  }

  /** The body found in `text` is exactly `body`. */
  ghost predicate Holds(text: string, type_: string, body: string) {
    var found := Body(text, type_);
    found.Some? && text[found.value.0..found.value.1] == body
  }

  lemma BodyFromMarkers(text: string, type_: string, start: nat, body: string)
    requires At(text, start, body) && BodyText(body)
    requires Marker(text, 0, "BEGIN", type_) == Some(start)
    requires var end := start + |body|;
      end < |text| && text[end] == '-' && Marker(text, end, "END", type_).Some?
    ensures Holds(text, type_, body)
  {
    BodyRun(text, start, body);
    AtSlice(text, start, body);
  }

  lemma FoundBetween(text: string, type_: string, gap0: string, gap1: string, body: string, start: nat)
    requires MarkerName(type_) && AllSpace(gap0) && AllSpace(gap1) && BodyText(body)
    requires FramedAt(text, type_, gap0, gap1, body, start)
    ensures Holds(text, type_, body)
  {
    HeaderFound(text, type_, gap0, gap1, body, start);
    Words();
    MarkerSeen(text, start + |body|, "END", type_);
    BodyFromMarkers(text, type_, start, body);
  }

  /** Such a body is found between its markers, whatever follows them. */
  lemma FramedBodyFound(type_: string, gap0: string, gap1: string, body: string, rest: string)
    requires MarkerName(type_) && AllSpace(gap0) && AllSpace(gap1) && BodyText(body)
    ensures Holds(Framed(type_, gap0, gap1, body, rest), type_, body)
  {
    FramedParts(type_, gap0, gap1, body, rest);
    var start := |gap0| + |MarkerText("BEGIN", type_)| + |gap1|;
    FoundBetween(Framed(type_, gap0, gap1, body, rest), type_, gap0, gap1, body, start);
  }
}
