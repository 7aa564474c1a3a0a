/**
 The 8.3 names given to new files: derived from the long name, with a numeric tail chosen
 while the directory is searched.
 */
module ShortNames {
  import opened Basics
  import opened DirEntries

  const SPACE: Unit := 0x20
  const DOT: Unit := 0x2E
  const TILDE: Unit := 0x7E
  const UNDERSCORE: Unit := 0x5F

  datatype Short = Short(filename: Text, extension: Text)

  /** The units kept in an 8.3 name; the range from the quote to the underscore is one of the source's own. */
  predicate IsKept(u: Unit) {
    u == 0x21 || 0x23 <= u <= 0x26 || 0x27 <= u <= 0x5F || u == 0x60 || u == 0x7B || u == 0x7D || u == 0x7E
  }

  function WithoutSpaces(t: Text): (r: Text)
    ensures SPACE !in r
  {
    if t == [] then [] else (if t[0] == SPACE then [] else [t[0]]) + WithoutSpaces(t[1..])
  }

  function WithoutLeadingDots(t: Text): (r: Text)
    ensures |r| <= |t| && r == t[|t| - |r|..]
  {
    if t != [] && t[0] == DOT then WithoutLeadingDots(t[1..]) else t
  }

  function Replaced(t: Text): (r: Text)
    ensures |r| == |t| && forall i :: 0 <= i < |r| ==> IsKept(r[i])
  {
    seq(|t|, i requires 0 <= i < |t| => if IsKept(t[i]) then t[i] else UNDERSCORE)
  }

  function WithoutDots(t: Text): (r: Text)
    ensures forall u :: u in r ==> u in t && u != DOT
  {
    if t == [] then [] else (if t[0] == DOT then [] else [t[0]]) + WithoutDots(t[1..])
  }

  /** The position after the last dot. */
  function AfterLastDot(t: Text): (n: nat)
    ensures n <= |t| && DOT !in t[n..] && (n == 0 ==> DOT !in t) && (n > 0 ==> t[n - 1] == DOT)
  {
    if t == [] then 0
    else if t[|t| - 1] == DOT then |t|
    else
      var n := AfterLastDot(t[..|t| - 1]);
      assert t[n..] == t[..|t| - 1][n..] + [t[|t| - 1]];
      n
  }

  function Spaces(n: nat): (t: Text)
    ensures |t| == n && forall i :: 0 <= i < n ==> t[i] == SPACE
  {
    seq(n, _ => SPACE)
  }

  function Fitted(t: Text, n: nat): (r: Text)
    ensures |r| == n
  {
    if |t| > n then t[..n] else t + Spaces(n - |t|)
  }

  /** `shortname`, from the name in upper case. */
  function ShortOf(up: Text): (s: Short)
    ensures |s.filename| == 8 && |s.extension| == 3
  {
    var t := Replaced(WithoutLeadingDots(WithoutSpaces(up)));
    var n := AfterLastDot(t);
    if n == 0 then Short(Fitted(t, 8), Fitted([], 3))
    else Short(Fitted(WithoutDots(t[..n]), 8), Fitted(t[n..], 3))
  }

  /** A text of printable ASCII units followed by spaces only. */
  ghost predicate IsField(t: Text) {
    && (forall i :: 0 <= i < |t| ==> IsKept(t[i]) || t[i] == SPACE)
    && (forall i, j :: 0 <= i <= j < |t| && t[i] == SPACE ==> t[j] == SPACE)
  }

  lemma FittedIsField(t: Text, n: nat)
    requires forall u :: u in t ==> IsKept(u)
    ensures IsField(Fitted(t, n))
  {
    var r := Fitted(t, n);
    forall i | 0 <= i < |r| ensures if i < |t| then IsKept(r[i]) else r[i] == SPACE {
      if i < |t| {
        assert r[i] == t[i] && t[i] in t;
      }
    }
  }

  lemma ShortIsFields(up: Text)
    ensures IsField(ShortOf(up).filename) && IsField(ShortOf(up).extension)
  {
    var t := Replaced(WithoutLeadingDots(WithoutSpaces(up)));
    var n := AfterLastDot(t);
    FittedIsField(t, 8);
    FittedIsField([], 3);
    FittedIsField(WithoutDots(t[..n]), 8);
    FittedIsField(t[n..], 3);
  }

  // ----- what the fields hold

  /** Units that may stand in either field. */
  predicate Conforms(t: Text) {
    forall i :: 0 <= i < |t| ==> IsKept(t[i]) && t[i] != DOT
  }

  lemma {:induction false} NoSpaces(t: Text)
    requires SPACE !in t
    ensures WithoutSpaces(t) == t
  {
    if t != [] {
      assert SPACE !in t[1..];
      NoSpaces(t[1..]);
      assert t == [t[0]] + t[1..];
    }
  }

  lemma {:induction false} NoDots(t: Text)
    requires DOT !in t
    ensures WithoutDots(t) == t
  {
    if t != [] {
      assert DOT !in t[1..];
      NoDots(t[1..]);
      assert t == [t[0]] + t[1..];
    }
  }

  lemma HeadOfAppend(a: Text, b: Text)
    requires a != []
    ensures (a + b)[0] == a[0] && (a + b)[1..] == a[1..] + b
  {
  }

  lemma Associates(a: Text, b: Text, c: Text)
    ensures a + b + c == a + (b + c)
  {
  }

  lemma {:induction false} WithoutSpacesAppend(a: Text, b: Text)
    ensures WithoutSpaces(a + b) == WithoutSpaces(a) + WithoutSpaces(b)
  {
    if a == [] {
      assert a + b == b;
    } else {
      HeadOfAppend(a, b);
      WithoutSpacesAppend(a[1..], b);
      Associates(if a[0] == SPACE then [] else [a[0]], WithoutSpaces(a[1..]), WithoutSpaces(b));
    }
  }

  lemma {:induction false} WithoutDotsAppend(a: Text, b: Text)
    ensures WithoutDots(a + b) == WithoutDots(a) + WithoutDots(b)
  {
    if a == [] {
      assert a + b == b;
    } else {
      HeadOfAppend(a, b);
      WithoutDotsAppend(a[1..], b);
      Associates(if a[0] == DOT then [] else [a[0]], WithoutDots(a[1..]), WithoutDots(b));
    }
  }

  lemma SpaceAlone(u: Unit)
    ensures WithoutSpaces([u]) == if u == SPACE then [] else [u]
    ensures WithoutDots([u]) == if u == DOT then [] else [u]
  {
    assert [u][1..] == [];
  }

  /** The last dot of a text is the one behind which there is none. */
  lemma {:induction false} LastDotIs(a: Text, b: Text)
    requires DOT !in b
    ensures AfterLastDot(a + [DOT] + b) == |a| + 1
    decreases |b|
  {
    var t := a + [DOT] + b;
    if b == [] {
      assert t[|t| - 1] == DOT;
    } else {
      assert t[|t| - 1] == b[|b| - 1] && t[..|t| - 1] == a + [DOT] + b[..|b| - 1];
      LastDotIs(a, b[..|b| - 1]);
    }
  }

  lemma {:induction false} NoLastDot(t: Text)
    requires DOT !in t
    ensures AfterLastDot(t) == 0
  {
    if t != [] {
      assert t[|t| - 1] in t && DOT !in t[..|t| - 1];
      NoLastDot(t[..|t| - 1]);
    }
  }

  /** The name as it is cut into its fields. */
  function Cleaned(up: Text): Text {
    Replaced(WithoutLeadingDots(WithoutSpaces(up)))
  }

  lemma CleanedIsShort(up: Text, other: Text)
    requires Cleaned(up) == Cleaned(other)
    ensures ShortOf(up) == ShortOf(other)
  {
  }

  lemma FieldsOf(up: Text)
    ensures var t := Cleaned(up);
      var n := AfterLastDot(t);
      ShortOf(up) == if n == 0 then Short(Fitted(t, 8), Fitted([], 3))
                     else Short(Fitted(WithoutDots(t[..n]), 8), Fitted(t[n..], 3))
  {
  }

  lemma AlreadyClean(t: Text)
    requires forall i :: 0 <= i < |t| ==> IsKept(t[i])
    requires t == [] || t[0] != DOT
    ensures Cleaned(t) == t
  {
    forall i | 0 <= i < |t| ensures t[i] != SPACE {
    }
    NoSpaces(t);
  }

  /** Up to eight units of a stem, its dots left out, and up to three of an extension, each padded with spaces. */
  lemma ShortOfStemAndExtension(stem: Text, ext: Text)
    requires stem != [] && stem[0] != DOT && (forall i :: 0 <= i < |stem| ==> IsKept(stem[i])) && Conforms(ext)
    ensures ShortOf(stem + [DOT] + ext) == Short(Fitted(WithoutDots(stem), 8), Fitted(ext, 3))
  {
    hide ShortOf, Cleaned, AfterLastDot, WithoutDots, Fitted;
    var t := stem + [DOT] + ext;
    AlreadyClean(t);
    FieldsOf(t);
    LastDotIs(stem, ext);
    assert t[..|stem| + 1] == stem + [DOT] && t[|stem| + 1..] == ext;
    WithoutDotsAppend(stem, [DOT]);
    SpaceAlone(DOT);
    assert WithoutDots(stem) + [] == WithoutDots(stem);
  }

  lemma ShortOfStem(stem: Text)
    requires Conforms(stem)
    ensures ShortOf(stem) == Short(Fitted(stem, 8), Spaces(3))
  {
    hide ShortOf, Cleaned, AfterLastDot, WithoutDots;
    AlreadyClean(stem);
    FieldsOf(stem);
    NoLastDot(stem);
    assert Fitted([], 3) == Spaces(3);
  }

  /** Spaces count for nothing. */
  lemma SpacesAreDropped(a: Text, b: Text)
    ensures ShortOf(a + [SPACE] + b) == ShortOf(a + b)
  {
    hide ShortOf, WithoutSpaces, WithoutLeadingDots, Replaced;
    WithoutSpacesAppend(a + [SPACE], b);
    WithoutSpacesAppend(a, [SPACE]);
    WithoutSpacesAppend(a, b);
    SpaceAlone(SPACE);
    assert WithoutSpaces(a) + [] == WithoutSpaces(a);
    CleanedIsShort(a + [SPACE] + b, a + b);
  }

  /** Nor do dots at the start. */
  lemma LeadingDotsAreDropped(b: Text)
    ensures ShortOf([DOT] + b) == ShortOf(b)
  {
    hide ShortOf, WithoutSpaces, Replaced;
    WithoutSpacesAppend([DOT], b);
    SpaceAlone(DOT);
    var t := WithoutSpaces([DOT] + b);
    assert t[0] == DOT && t[1..] == WithoutSpaces(b);
    CleanedIsShort([DOT] + b, b);
  }

  /** A unit that cannot be kept counts as an underscore. */
  lemma OthersBecomeUnderscores(a: Text, u: Unit, b: Text)
    requires u != SPACE && !IsKept(u)
    ensures ShortOf(a + [u] + b) == ShortOf(a + [UNDERSCORE] + b)
  {
    hide ShortOf, WithoutSpaces, WithoutLeadingDots, Replaced;
    WithoutSpacesAppend(a + [u], b);
    WithoutSpacesAppend(a, [u]);
    WithoutSpacesAppend(a + [UNDERSCORE], b);
    WithoutSpacesAppend(a, [UNDERSCORE]);
    SpaceAlone(u);
    SpaceAlone(UNDERSCORE);
    ReplacedSame(WithoutSpaces(a), u, WithoutSpaces(b));
    CleanedIsShort(a + [u] + b, a + [UNDERSCORE] + b);
  }

  lemma {:induction false} ReplacedSame(a: Text, u: Unit, b: Text)
    requires !IsKept(u)
    ensures Replaced(WithoutLeadingDots(a + [u] + b)) == Replaced(WithoutLeadingDots(a + [UNDERSCORE] + b))
  {
    hide Replaced;
    var x, y := a + [u] + b, a + [UNDERSCORE] + b;
    if a != [] && a[0] == DOT {
      assert x[1..] == a[1..] + [u] + b && y[1..] == a[1..] + [UNDERSCORE] + b;
      ReplacedSame(a[1..], u, b);
    } else {
      ReplacedHere(a, u, b);
      assert x[0] == (if a == [] then u else a[0]) && y[0] == if a == [] then UNDERSCORE else a[0];
    }
  }

  lemma ReplacedHere(a: Text, u: Unit, b: Text)
    requires !IsKept(u)
    ensures Replaced(a + [u] + b) == Replaced(a + [UNDERSCORE] + b)
  {
    hide WithoutLeadingDots;
    var x, y := a + [u] + b, a + [UNDERSCORE] + b;
    forall i | 0 <= i < |x| ensures Replaced(x)[i] == Replaced(y)[i] {
      assert i != |a| ==> x[i] == y[i];
    }
  }

  // ----- numeric tails

  predicate IsDigit(u: Unit) {
    0x30 <= u <= 0x39
  }

  function Decimal(n: nat): (t: Text)
    ensures |t| > 0 && forall i :: 0 <= i < |t| ==> IsDigit(t[i])
  {
    if n < 10 then [0x30 + n] else Decimal(n / 10) + [(0x30 + n % 10) as Unit]
  }

  function Value(t: Text): nat
    requires forall i :: 0 <= i < |t| ==> IsDigit(t[i])
  {
    if t == [] then 0
    else
      assert IsDigit(t[|t| - 1]);
      10 * Value(t[..|t| - 1]) + (t[|t| - 1] as int - 0x30)
  }

  lemma {:induction false} ValueOfDecimal(n: nat)
    ensures Value(Decimal(n)) == n
  {
    if n < 10 {
      assert Decimal(n)[..0] == [];
    } else {
      ValueOfDecimal(n / 10);
      assert Decimal(n)[..|Decimal(n)| - 1] == Decimal(n / 10);
    }
  }

  /** The number of leading digits. */
  function Digits(t: Text): (n: nat)
    ensures n <= |t| && (forall i :: 0 <= i < n ==> IsDigit(t[i])) && (n < |t| ==> !IsDigit(t[n]))
  {
    if t == [] || !IsDigit(t[0]) then 0 else 1 + Digits(t[1..])
  }

  predicate IsTail(t: Text, i: nat) {
    i + 1 < |t| && t[i] == TILDE && IsDigit(t[i + 1])
  }

  /** The last tilde followed by a digit, if there is one before `n`. */
  function LastTail(t: Text, n: nat): (i: Option<nat>)
    requires n <= |t|
    ensures i.Some? ==> i.value < n && IsTail(t, i.value) && forall j :: i.value < j < n ==> !IsTail(t, j)
    ensures i.None? ==> forall j :: 0 <= j < n ==> !IsTail(t, j)
  {
    if n == 0 then None else if IsTail(t, n - 1) then Some(n - 1) else LastTail(t, n - 1)
  }

  predicate IsLineEnd(u: Unit) {
    u == 0x0A || u == 0x0D || u == 0x2028 || u == 0x2029
  }

  function Line(t: Text): (n: nat)
    ensures n <= |t| && (n < |t| ==> IsLineEnd(t[n])) && forall i :: 0 <= i < n ==> !IsLineEnd(t[i])
  {
    if t == [] || IsLineEnd(t[0]) then 0 else 1 + Line(t[1..])
  }

  datatype Tail = Tail(stem: Text, number: nat)

  /** The match of (.*)~(\\d+): in the first line that has one, as far to the right as possible. */
  function MatchTail(t: Text): Option<Tail>
    decreases |t|
  {
    var n := Line(t);
    var i := LastTail(t[..n], n);
    if i.Some? then
      var digits := t[i.value + 1..n][..Digits(t[i.value + 1..n])];
      Some(Tail(t[..i.value], Value(digits)))
    else if n < |t| then MatchTail(t[n + 1..])
    else None
  }

  /** The stem and the number an existing file reserves. */
  function Reserved(filename: Text): Tail {
    var m := MatchTail(filename);
    if m.Some? then m.value else Tail(filename, 1)
  }

  /** A filename without a tail reserves number 1, with all of it as the stem. */
  lemma NoTailReservesOne(filename: Text)
    requires TILDE !in filename
    ensures Reserved(filename) == Tail(filename, 1)
  {
    NoTailNoMatch(filename);
  }

  lemma {:induction false} NoTailNoMatch(t: Text)
    requires TILDE !in t
    ensures MatchTail(t).None?
    decreases |t|
  {
    var n := Line(t);
    var i := LastTail(t[..n], n);
    if n < |t| {
      NoTailNoMatch(t[n + 1..]);
    }
  }

  function MaxTail(base: Short, filename: Text, extension: Text, maxTail: nat): (r: nat)
    ensures r >= maxTail
  {
    var d := Reserved(filename);
    if base.extension == extension && d.stem <= base.filename && d.number + 1 > maxTail then d.number + 1 else maxTail
  }

  function FirstSpace(t: Text): (n: nat)
    ensures n <= |t| && (n < |t| ==> t[n] == SPACE) && forall i :: 0 <= i < n ==> t[i] != SPACE
  {
    if t == [] || t[0] == SPACE then 0 else 1 + FirstSpace(t[1..])
  }

  /** The filename with the tail; None when there is no room for it. */
  function WithTail(filename: Text, tail: nat): (r: Option<Text>)
    requires |filename| == 8
    ensures r.Some? ==> |r.value| == 8
  {
    if tail == 0 then Some(filename)
    else
      var suffix := [TILDE] + Decimal(tail);
      if |suffix| > 8 then None
      else
        var endIdx := FirstSpace(filename);
        var sufIdx := if endIdx < 8 - |suffix| then endIdx else 8 - |suffix|;
        Some(filename[..sufIdx] + suffix + filename[sufIdx + |suffix|..])
  }

  // ----- the tail that is chosen

  lemma DigitsOf(t: Text, n: nat)
    requires n <= |t| && (forall i :: 0 <= i < n ==> IsDigit(t[i])) && (n < |t| ==> !IsDigit(t[n]))
    ensures Digits(t) == n
  {
  }

  /** A text without line ends is one line. */
  lemma OneLine(t: Text)
    requires forall i :: 0 <= i < |t| ==> !IsLineEnd(t[i])
    ensures Line(t) == |t|
  {
  }

  lemma MatchInLine(t: Text, s: nat)
    requires (forall i :: 0 <= i < |t| ==> !IsLineEnd(t[i])) && IsTail(t, s)
    requires forall i :: s < i < |t| ==> !IsTail(t, i)
    ensures MatchTail(t) == Some(Tail(t[..s], Value(t[s + 1..][..Digits(t[s + 1..])])))
  {
    hide Value, Digits, Line, IsDigit, LastTail;
    OneLine(t);
    assert t[..|t|] == t;
    assert t[s + 1..|t|] == t[s + 1..];
    var i := LastTail(t, |t|);
    assert i == Some(s);
  }

  lemma TailParts(stem: Text, digits: Text, after: Text)
    requires |digits| > 0 && (forall i :: 0 <= i < |digits| ==> IsDigit(digits[i]))
    requires forall i :: 0 <= i < |stem| ==> !IsLineEnd(stem[i])
    requires forall i :: 0 <= i < |after| ==> after[i] == SPACE
    ensures var t, s := stem + ([TILDE] + digits) + after, |stem|;
      && s < |t| && t[..s] == stem && t[s + 1..] == digits + after && IsTail(t, s)
      && (forall i :: 0 <= i < |t| ==> !IsLineEnd(t[i])) && (forall i :: s < i < |t| ==> !IsTail(t, i))
  {
    var t, s := stem + ([TILDE] + digits) + after, |stem|;
    forall i | 0 <= i < |t| ensures !IsLineEnd(t[i]) && (s < i ==> t[i] != TILDE) {
      if i < s {
        assert t[i] == stem[i];
      } else if s < i <= s + |digits| {
        assert t[i] == digits[i - s - 1];
      } else if s + |digits| < i {
        assert t[i] == after[i - s - 1 - |digits|];
      }
    }
    assert t[s + 1] == digits[0];
  }

  /** A filename with a tail reserves that tail. */
  lemma TailIsReserved(stem: Text, tail: nat, after: Text)
    requires forall i :: 0 <= i < |stem| ==> !IsLineEnd(stem[i])
    requires forall i :: 0 <= i < |after| ==> after[i] == SPACE
    ensures Reserved(stem + ([TILDE] + Decimal(tail)) + after) == Tail(stem, tail)
  {
    hide MatchTail, Decimal, Digits;
    var digits := Decimal(tail);
    var t := stem + ([TILDE] + digits) + after;
    TailParts(stem, digits, after);
    MatchInLine(t, |stem|);
    DigitsOf(digits + after, |digits|);
    assert (digits + after)[..|digits|] == digits;
    ValueOfDecimal(tail);
  }

  lemma FieldHasNoLineEnd(t: Text)
    requires IsField(t)
    ensures forall i :: 0 <= i < |t| ==> !IsLineEnd(t[i]) && 0x20 <= t[i] <= 0x7E
  {
  }

  /** The filename chosen keeps as much of the base as there is room for, which a file of that name reserves. */
  lemma WithTailReserves(filename: Text, tail: nat) returns (stem: Text)
    requires |filename| == 8 && IsField(filename) && tail > 0 && WithTail(filename, tail).Some?
    ensures stem <= filename && Reserved(WithTail(filename, tail).value) == Tail(stem, tail)
    ensures stem == filename[..FirstSpace(filename)] || |stem| + 1 + |Decimal(tail)| == 8
  {
    hide Reserved, Decimal, MatchTail;
    var suffix := [TILDE] + Decimal(tail);
    var endIdx := FirstSpace(filename);
    var sufIdx := if endIdx < 8 - |suffix| then endIdx else 8 - |suffix|;
    stem := filename[..sufIdx];
    FieldHasNoLineEnd(filename);
    TailIsReserved(stem, tail, filename[sufIdx + |suffix|..]);
  }

  /** The name that a file without a tail is given is reserved by a file that has it. */
  lemma BaseReserves(base: Short, tail: nat)
    requires IsField(base.filename)
    ensures MaxTail(base, base.filename, base.extension, tail) > 0
  {
    hide MatchTail;
    FieldHasNoLineEnd(base.filename);
    var m := MatchTail(base.filename);
    if m.Some? {
      StemIsPrefix(base.filename);
    }
  }

  lemma {:induction false} StemIsPrefix(t: Text)
    requires MatchTail(t).Some? && forall i :: 0 <= i < |t| ==> !IsLineEnd(t[i])
    ensures MatchTail(t).value.stem <= t
  {
    OneLine(t);
    assert t[..|t|] == t;
  }

  // ----- searching a directory

  /** A text field of an entry ends at its first null byte; bytes above 127 are taken as units. */
  function Decode(b: Bytes): (t: Text)
    ensures |t| <= |b| && forall i :: 0 <= i < |t| ==> t[i] == b[i]
    ensures (forall i :: 0 <= i < |b| ==> b[i] != 0) ==> |t| == |b|
  {
    if b == [] || b[0] == 0 then [] else [b[0] as Unit] + Decode(b[1..])
  }

  function Trimmed(t: Text): Text {
    if t != [] && t[|t| - 1] == SPACE then Trimmed(t[..|t| - 1]) else t
  }

  predicate ValidEntry(e: Entry) {
    |e.raw| == 11 && (e.name.ShortName? ==> e.name.raw == e.raw)
  }

  /** `Name.filename`, in which the iterator has put back the first unit of a name that it shows. */
  function FileName(e: Entry): Text
    requires ValidEntry(e)
  {
    var t := Decode(e.raw[..8]);
    if e.name.ShortName? && e.raw[0] == 0x05 then [0xE5 as Unit] + t[1..] else t
  }

  function Extension(e: Entry): Text
    requires ValidEntry(e)
  {
    Decode(e.raw[8..])
  }

  function ShownName(e: Entry): Text
    requires ValidEntry(e) && !e.name.Bogus?
  {
    if e.name.LongName? then e.name.text
    else
      var nam, ext := Trimmed(FileName(e)), Trimmed(Extension(e));
      if ext == [] then nam else nam + [DOT] + ext
  }

  /** A first byte of 5 stands for 0xE5, which would say that the entry is free, unless a long name is shown. */
  lemma FiveStandsForE5(raw: Bytes, position: nat, text: Text)
    requires |raw| == 11 && raw[0] == 0x05
    ensures FileName(Entry(ShortName(raw), raw, position)) == [0xE5 as Unit] + Decode(raw[1..8])
    ensures FileName(Entry(LongName(text), raw, position)) == [0x05 as Unit] + Decode(raw[1..8])
  {
    assert raw[..8][1..] == raw[1..8];
  }

  lemma {:induction false} TrimmedSpaces(t: Text, n: nat)
    requires t == [] || t[|t| - 1] != SPACE
    ensures Trimmed(t + Spaces(n)) == t
  {
    if n == 0 {
      assert t + Spaces(0) == t;
    } else {
      var padded := t + Spaces(n);
      assert padded[|padded| - 1] == SPACE && padded[..|padded| - 1] == t + Spaces(n - 1);
      TrimmedSpaces(t, n - 1);
    }
  }

  /** A name that is one of the 8.3 kind already is what its entry shows when there is no long name. */
  lemma ConformingNameIsShown(stem: Text, ext: Text, position: nat)
    requires 0 < |stem| <= 8 && |ext| <= 3 && Conforms(stem) && Conforms(ext)
    ensures NewRaw(stem + [DOT] + ext, 0).Some?
    ensures var raw := NewRaw(stem + [DOT] + ext, 0).value;
      ShownName(Entry(ShortName(raw), raw, position)) == if ext == [] then stem else stem + [DOT] + ext
  {
    hide ShortOf, RawName, FileName, Extension, Trimmed, Fitted, IsField, Decode;
    var up := stem + [DOT] + ext;
    ShortOfStemAndExtension(stem, ext);
    NoDots(stem);
    FittedShort(stem, 8);
    FittedShort(ext, 3);
    ShortIsFields(up);
    var filename, extension := ShortOf(up).filename, ShortOf(up).extension;
    var raw := NewRaw(up, 0).value;
    assert raw == RawName(filename, extension);
    var e := Entry(ShortName(raw), raw, position);
    RawIsRead(e, filename, extension);
    TrimmedSpaces(stem, 8 - |stem|);
    TrimmedSpaces(ext, 3 - |ext|);
  }

  lemma FittedShort(t: Text, n: nat)
    requires |t| <= n
    ensures Fitted(t, n) == t + Spaces(n - |t|)
  {
  }

  /** `Fails`: an entry whose name is not a text is compared. */
  datatype Search = Exists(entry: Entry) | Missing(tail: nat) | Fails

  /** The search for a name before it is created. */
  function Find(upper: Text -> Text, entries: seq<Entry>, name: Text, maxTail: nat): Search
    requires forall e :: e in entries ==> ValidEntry(e)
  {
    if entries == [] then Missing(maxTail)
    else
      var e := entries[0];
      if e.name.Bogus? then Fails
      else if upper(ShownName(e)) == upper(name) then Exists(e)
      else Find(upper, entries[1..], name, MaxTail(ShortOf(upper(name)), FileName(e), Extension(e), maxTail))
  }

  /** No matter of case apart, none of the first `k` entries has the name. */
  ghost predicate NoneNamed(upper: Text -> Text, entries: seq<Entry>, name: Text, k: nat)
    requires (forall e :: e in entries ==> ValidEntry(e)) && k <= |entries|
  {
    forall j :: 0 <= j < k ==> !entries[j].name.Bogus? && upper(ShownName(entries[j])) != upper(name)
  }

  /** The first entry decides that has the name, whatever its case, or that cannot be compared. */
  lemma {:induction false} FirstNamedDecides(upper: Text -> Text, entries: seq<Entry>, name: Text, maxTail: nat)
      returns (k: nat)
    requires forall e :: e in entries ==> ValidEntry(e)
    ensures k <= |entries| && NoneNamed(upper, entries, name, k)
    ensures match Find(upper, entries, name, maxTail)
      case Missing(_) => k == |entries|
      case Exists(e) =>
        k < |entries| && entries[k] == e && !e.name.Bogus? && upper(ShownName(e)) == upper(name)
      case Fails => k < |entries| && entries[k].name.Bogus?
    decreases |entries|
  {
    hide ShownName, MaxTail, ShortOf, FileName, Extension;
    if entries == [] || entries[0].name.Bogus? || upper(ShownName(entries[0])) == upper(name) {
      k := 0;
    } else {
      var rest := entries[1..];
      var longer := MaxTail(ShortOf(upper(name)), FileName(entries[0]), Extension(entries[0]), maxTail);
      k := FirstNamedDecides(upper, rest, name, longer);
      k := k + 1;
      forall j | 0 <= j < k ensures !entries[j].name.Bogus? && upper(ShownName(entries[j])) != upper(name) {
        assert j > 0 ==> entries[j] == rest[j - 1];
      }
    }
  }

  /** The bytes of the 8.3 name. */
  function RawName(filename: Text, extension: Text): (raw: Bytes)
    requires IsField(filename) && IsField(extension)
    ensures |raw| == |filename| + |extension|
    ensures filename != [] ==> raw[0] != DONE_FLAG && raw[0] != FREE_FLAG
  {
    FieldHasNoLineEnd(filename);
    FieldHasNoLineEnd(extension);
    seq(|filename| + |extension|, i requires 0 <= i < |filename| + |extension| =>
      if i < |filename| then filename[i] as Byte else extension[i - |filename|] as Byte)
  }

  lemma WithTailIsField(filename: Text, tail: nat)
    requires |filename| == 8 && IsField(filename) && WithTail(filename, tail).Some?
    ensures IsField(WithTail(filename, tail).value)
  {
    if tail > 0 {
      var suffix := [TILDE] + Decimal(tail);
      var endIdx := FirstSpace(filename);
      var sufIdx := if endIdx < 8 - |suffix| then endIdx else 8 - |suffix|;
      var r := WithTail(filename, tail).value;
      forall i | 0 <= i < 8 ensures if i < sufIdx + |suffix| then IsKept(r[i]) else r[i] == SPACE {
        if i < sufIdx {
          assert r[i] == filename[i];
        } else if i < sufIdx + |suffix| {
          assert r[i] == suffix[i - sufIdx];
        } else {
          assert r[i] == filename[i];
        }
      }
    }
  }

  /** The 8.3 name of a file that is created; None when the tail does not fit. */
  function NewRaw(up: Text, tail: nat): (raw: Option<Bytes>)
    ensures raw.Some? ==> ValidRaw(raw.value)
  {
    var base := ShortOf(up);
    ShortIsFields(up);
    var filename := WithTail(base.filename, tail);
    if filename.None? then None
    else
      WithTailIsField(base.filename, tail);
      Some(RawName(filename.value, base.extension))
  }

  lemma DecodeWhole(b: Bytes, t: Text)
    requires |b| == |t| && forall i :: 0 <= i < |b| ==> b[i] == t[i] != 0
    ensures Decode(b) == t
  {
  }

  /** An entry with these bytes shows this filename and this extension. */
  lemma RawIsRead(e: Entry, filename: Text, extension: Text)
    requires ValidEntry(e) && |filename| == 8 && |extension| == 3 && IsField(filename) && IsField(extension)
    requires e.raw == RawName(filename, extension)
    ensures FileName(e) == filename && Extension(e) == extension
  {
    FieldHasNoLineEnd(filename);
    FieldHasNoLineEnd(extension);
    DecodeWhole(e.raw[..8], filename);
    DecodeWhole(e.raw[8..], extension);
  }

  /** The search passes every entry, and the tail only grows. */
  lemma {:induction false} TailCovers(upper: Text -> Text, entries: seq<Entry>, name: Text, maxTail: nat, k: nat)
    requires (forall e :: e in entries ==> ValidEntry(e)) && k < |entries|
    requires Find(upper, entries, name, maxTail).Missing?
    ensures Find(upper, entries, name, maxTail).tail
         >= MaxTail(ShortOf(upper(name)), FileName(entries[k]), Extension(entries[k]), 0)
    ensures Find(upper, entries, name, maxTail).tail >= maxTail
  {
    hide MatchTail, FileName, Extension, ShortOf;
    var next := MaxTail(ShortOf(upper(name)), FileName(entries[0]), Extension(entries[0]), maxTail);
    if k > 0 {
      TailCovers(upper, entries[1..], name, next, k - 1);
    } else if |entries| > 1 {
      TailCovers(upper, entries[1..], name, next, 0);
    }
  }

  /** ... and no further than one beyond a number that is taken. */
  lemma {:induction false} TailIsReached(upper: Text -> Text, entries: seq<Entry>, name: Text, maxTail: nat)
      returns (k: nat)
    requires forall e :: e in entries ==> ValidEntry(e)
    requires Find(upper, entries, name, maxTail).Missing? && Find(upper, entries, name, maxTail).tail > maxTail
    ensures k < |entries| && var base := ShortOf(upper(name));
      var taken := Reserved(FileName(entries[k]));
      && Extension(entries[k]) == base.extension && taken.stem <= base.filename
      && Find(upper, entries, name, maxTail).tail == taken.number + 1
    decreases |entries|
  {
    hide FileName, Extension, ShortOf, Reserved;
    var next := MaxTail(ShortOf(upper(name)), FileName(entries[0]), Extension(entries[0]), maxTail);
    if Find(upper, entries[1..], name, next).tail > next {
      k := TailIsReached(upper, entries[1..], name, next);
      k := k + 1;
    } else {
      assert Find(upper, entries, name, maxTail).tail == next by {
        FindOnlyGrows(upper, entries[1..], name, next);
      }
      k := 0;
    }
  }

  lemma {:induction false} FindOnlyGrows(upper: Text -> Text, entries: seq<Entry>, name: Text, maxTail: nat)
    requires forall e :: e in entries ==> ValidEntry(e)
    requires Find(upper, entries, name, maxTail).Missing?
    ensures maxTail <= Find(upper, entries, name, maxTail).tail
    decreases |entries|
  {
    hide FileName, Extension, ShortOf, Reserved;
    if entries != [] {
      var next := MaxTail(ShortOf(upper(name)), FileName(entries[0]), Extension(entries[0]), maxTail);
      FindOnlyGrows(upper, entries[1..], name, next);
    }
  }

  // ----- main results

  /** No existing file has the 8.3 name given to a new one. */
  lemma ShortNameIsFresh(upper: Text -> Text, entries: seq<Entry>, name: Text, k: nat)
    requires (forall e :: e in entries ==> ValidEntry(e)) && k < |entries|
    requires Find(upper, entries, name, 0).Missing?
    requires NewRaw(upper(name), Find(upper, entries, name, 0).tail).Some?
    ensures entries[k].raw != NewRaw(upper(name), Find(upper, entries, name, 0).tail).value
  {
    hide MatchTail, FileName, Extension, ShortOf, Find;
    var tail := Find(upper, entries, name, 0).tail;
    var base := ShortOf(upper(name));
    ShortIsFields(upper(name));
    WithTailIsField(base.filename, tail);
    var filename := WithTail(base.filename, tail).value;
    if entries[k].raw == RawName(filename, base.extension) {
      RawIsRead(entries[k], filename, base.extension);
      TailCovers(upper, entries, name, 0, k);
      if tail > 0 {
        var stem := WithTailReserves(base.filename, tail);
      } else {
        BaseReserves(base, 0);
      }
    }
  }

  function Pow10(k: nat): nat {
    if k == 0 then 1 else 10 * Pow10(k - 1)
  }

  lemma {:induction false} DecimalLength(n: nat, k: nat)
    requires k > 0
    ensures |Decimal(n)| <= k <==> n < Pow10(k)
  {
    if k == 1 {
      assert Pow10(1) == 10;
    } else if n >= 10 {
      DecimalLength(n / 10, k - 1);
    } else {
      PowAbove(k);
    }
  }

  lemma {:induction false} PowAbove(k: nat)
    requires k > 0
    ensures Pow10(k) >= 10
  {
    if k > 1 {
      PowAbove(k - 1);
    }
  }

  /** Creation is refused for want of room exactly from the ten millionth tail on. */
  lemma RefusedIff(up: Text, tail: nat)
    ensures NewRaw(up, tail).None? <==> tail >= 10_000_000
  {
    DecimalLength(tail, 7);
    assert Pow10(3) == 1000 && Pow10(7) == 10_000_000;
  }

  // ----- creating files in a directory

  datatype Created = Found(entry: Entry) | NameTooLong | Throws | Writes(target: nat, raw: Bytes, data: Bytes)

  function Files(dir: Bytes): (entries: seq<Entry>)
    ensures forall e :: e in entries ==> ValidEntry(e)
  {
    ScanIsValid(dir, 0, NoLong);
    Scan(dir, 0, NoLong).entries
  }

  lemma {:induction false} ScanIsValid(dir: Bytes, p: nat, long: Long)
    ensures forall e :: e in Scan(dir, p, long).entries ==> ValidEntry(e)
    decreases |dir| - p
  {
    if AtEntry(dir, p) {
      ScanIsValid(dir, p + ENTRY_SIZE, LongAfter(long, dir[p..p + ENTRY_SIZE]));
    }
  }

  predicate ValidName(name: Text) {
    0 < |name| <= 255 && 0 !in name
  }

  /** A search, then, if nothing is found, what is written and where. */
  function Create(upper: Text -> Text, dir: Bytes, name: Text, rest: Rest): Created
    requires ValidName(name) && ValidRest(rest)
  {
    match Find(upper, Files(dir), name, 0)
    case Exists(e) => Found(e)
    case Fails => Throws
    case Missing(tail) =>
      var raw := NewRaw(upper(name), tail);
      if raw.None? then NameTooLong
      else Writes(Scan(dir, 0, NoLong).end, raw.value, FileBytes(name, raw.value, rest))
  }

  lemma {:induction false} FindAppended(upper: Text -> Text, entries: seq<Entry>, name: Text, maxTail: nat, e: Entry)
    requires (forall d :: d in entries ==> ValidEntry(d)) && ValidEntry(e)
    requires Find(upper, entries, name, maxTail).Missing? && e.name == LongName(name)
    ensures forall d :: d in entries + [e] ==> ValidEntry(d)
    ensures Find(upper, entries + [e], name, maxTail) == Exists(e)
  {
    hide MaxTail, ShortOf, FileName, Extension;
    if entries == [] {
      assert entries + [e] == [e];
    } else {
      assert (entries + [e])[1..] == entries[1..] + [e];
      FindAppended(upper, entries[1..], name,
        MaxTail(ShortOf(upper(name)), FileName(entries[0]), Extension(entries[0]), maxTail), e);
    }
  }

  /** The outcome of a creation: `dir'` is any directory in which the data has been written. */
  ghost predicate IsCreated(upper: Text -> Text, dir: Bytes, name: Text, rest: Rest, dir': Bytes)
    requires ValidName(name) && ValidRest(rest)
  {
    var c := Create(upper, dir, name, rest);
    c.Writes? && Written(dir, c.target, c.data, dir')
  }

  /**
   In any directory, a file that is created is listed under its name after the others,
   which are untouched, with an 8.3 name of its own, and is found again.
   */
  lemma CreatedFileIsListed(upper: Text -> Text, dir: Bytes, dir': Bytes, name: Text, rest: Rest) returns (e: Entry)
    requires ValidName(name) && ValidRest(rest) && IsCreated(upper, dir, name, rest, dir')
    ensures Files(dir') == Files(dir) + [e] && e.name == LongName(name)
    ensures forall d :: d in Files(dir) ==> d.raw != e.raw
    ensures Find(upper, Files(dir'), name, 0) == Exists(e)
    ensures e.position == Scan(dir, 0, NoLong).end + ENTRY_SIZE * Top(name)
  {
    hide Scan, NewRaw, Find, FileBytes, NameBack;
    var raw := Create(upper, dir, name, rest).raw;
    AddedFileIsRead(dir, dir', name, raw, rest);
    NameBackIff(name, raw);
    e := Entry(LongName(name), raw, Scan(dir, 0, NoLong).end + ENTRY_SIZE * Top(name));
    forall d | d in Files(dir) ensures d.raw != raw {
      var k :| 0 <= k < |Files(dir)| && Files(dir)[k] == d;
      ShortNameIsFresh(upper, Files(dir), name, k);
    }
    FindAppended(upper, Files(dir), name, 0, e);
  }

  /** A run of creations, whatever is left in the last cluster by each of them. */
  ghost predicate IsRun(upper: Text -> Text, dirs: seq<Bytes>, names: seq<Text>, rests: seq<Rest>) {
    && |dirs| == |names| + 1 && |rests| == |names|
    && forall i :: 0 <= i < |names| ==> CreatedAt(upper, dirs, names, rests, i)
  }

  ghost predicate CreatedAt(upper: Text -> Text, dirs: seq<Bytes>, names: seq<Text>, rests: seq<Rest>, i: nat)
    requires |dirs| == |names| + 1 && |rests| == |names| && i < |names|
  {
    ValidName(names[i]) && ValidRest(rests[i]) && IsCreated(upper, dirs[i], names[i], rests[i], dirs[i + 1])
  }

  ghost predicate DistinctRaws(entries: seq<Entry>) {
    forall i, j :: 0 <= i < j < |entries| ==> entries[i].raw != entries[j].raw
  }

  /** The listing after the creation of `names`, when it was `first` before. */
  ghost predicate Listing(now: seq<Entry>, first: seq<Entry>, names: seq<Text>) {
    && |now| == |first| + |names|
    && now[..|first|] == first
    && (forall i :: 0 <= i < |names| ==> now[|first| + i].name == LongName(names[i]))
    && (DistinctRaws(first) ==> DistinctRaws(now))
  }

  lemma ListingGrows(now: seq<Entry>, first: seq<Entry>, names: seq<Text>, e: Entry, name: Text)
    requires Listing(now, first, names) && e.name == LongName(name) && forall d :: d in now ==> d.raw != e.raw
    ensures Listing(now + [e], first, names + [name])
  {
    assert (now + [e])[..|first|] == now[..|first|];
  }

  lemma ShorterRun(upper: Text -> Text, dirs: seq<Bytes>, names: seq<Text>, rests: seq<Rest>)
    requires IsRun(upper, dirs, names, rests) && names != []
    ensures var n := |names| - 1;
      IsRun(upper, dirs[..n + 1], names[..n], rests[..n]) && CreatedAt(upper, dirs, names, rests, n)
  {
    hide ValidName, ValidRest, IsCreated;
    var n := |names| - 1;
    var before, names', rests' := dirs[..n + 1], names[..n], rests[..n];
    forall i | 0 <= i < n ensures CreatedAt(upper, before, names', rests', i) {
      assert CreatedAt(upper, dirs, names, rests, i);
    }
    assert CreatedAt(upper, dirs, names, rests, n);
  }

  /**
   After any run of creations exactly their names are listed after the old ones, in order, and no two
   8.3 names are the same.
   */
  lemma {:induction false} NamesAreListedInOrder(upper: Text -> Text, dirs: seq<Bytes>, names: seq<Text>,
                                                 rests: seq<Rest>)
    requires IsRun(upper, dirs, names, rests)
    ensures Listing(Files(dirs[|names|]), Files(dirs[0]), names)
    decreases |names|
  {
    hide Files, Listing, IsCreated;
    if names == [] {
      NothingCreated(Files(dirs[0]));
    } else {
      var n := |names| - 1;
      var names' := names[..n];
      ShorterRun(upper, dirs, names, rests);
      NamesAreListedInOrder(upper, dirs[..n + 1], names', rests[..n]);
      LastCreation(upper, dirs, names, rests);
    }
  }

  lemma LastCreation(upper: Text -> Text, dirs: seq<Bytes>, names: seq<Text>, rests: seq<Rest>)
    requires |dirs| == |names| + 1 && |rests| == |names| && names != []
    requires CreatedAt(upper, dirs, names, rests, |names| - 1)
    requires Listing(Files(dirs[|names| - 1]), Files(dirs[0]), names[..|names| - 1])
    ensures Listing(Files(dirs[|names|]), Files(dirs[0]), names)
  {
    hide Files, Listing, IsCreated, Find;
    var n := |names| - 1;
    var e := CreatedFileIsListed(upper, dirs[n], dirs[n + 1], names[n], rests[n]);
    ListingGrows(Files(dirs[n]), Files(dirs[0]), names[..n], e, names[n]);
    assert names == names[..n] + [names[n]];
  }

  lemma NothingCreated(first: seq<Entry>)
    ensures Listing(first, first, [])
  {
  }

  // ----- the search loop

  method FindInDirectory(upper: Text -> Text, dir: Bytes, sectorSize: nat, name: Text) returns (s: Search, target: nat)
    requires sectorSize > 0 && sectorSize % ENTRY_SIZE == 0 && |dir| % sectorSize == 0
    ensures s == Find(upper, Files(dir), name, 0)
    ensures s.Missing? ==> target == Scan(dir, 0, NoLong).end
  {
    hide Scan, MaxTail, ShortOf, FileName, Extension, ShownName;
    var matchName, tailName := upper(name), ShortOf(upper(name));
    var maxTail := 0;
    var iter := new DirIterator(dir, sectorSize);
    ghost var left := Files(dir);
    ghost var all := Scan(dir, 0, NoLong);
    while true
      invariant iter.Valid() && fresh(iter) && iter.dir == dir && iter.Left() == all.(entries := left)
      invariant forall e :: e in left ==> ValidEntry(e)
      invariant Find(upper, Files(dir), name, 0) == Find(upper, left, name, maxTail)
      decreases |left|
    {
      var entry := iter.Next();
      if entry.None? {
        return Missing(maxTail), iter.Position();
      }
      var e := entry.value;
      assert e in left;
      left := left[1..];
      if e.name.Bogus? {
        return Fails, 0;
      }
      if upper(ShownName(e)) == matchName {
        return Exists(e), 0;
      }
      maxTail := MaxTail(tailName, FileName(e), Extension(e), maxTail);
    }
  }
}
