/**
 Parsing what was printed: which trees the parser can build, which of them come back when
 they are printed and parsed again, and what happens to the others.
 */
module ComplexMatcherRoundTrip {
  import opened Basics
  import opened ComplexMatcher

  predicate GlobText(l: Language, v: Text) {
    v != [] && forall i :: 0 <= i < |v| ==> v[i] == STAR || l.raw(v[i])
  }

  /** The trees a term can be parsed to. */
  predicate TermTree(l: Language, n: Node) {
    match n
    case Null => false
    case And(children) => |children| >= 2 && forall c :: c in children ==> TermTree(l, c)
    case Or(children) => |children| >= 2 && forall c :: c in children ==> TermTree(l, c)
    case Not(child) => TermTree(l, child)
    case Property(_, child) => TermTree(l, child)
    case TruthyProperty(_) => true
    case Str(_) => true
    case NumberOrString(value) => GlobText(l, value) && l.number(value).Some?
    case Glob(value) => GlobText(l, value) && STAR in value && l.number(value).None?
    case Comparison(operator, number) => operator in OPERATORS && Canonical(l, number)
  }

  predicate Tree(l: Language, n: Node) {
    n == Null || TermTree(l, n)
  }

  /** The text of every compared number is made of raw characters. */
  predicate RawNumbers(l: Language, n: Node) {
    match n
    case And(children) => forall c :: c in children ==> RawNumbers(l, c)
    case Or(children) => forall c :: c in children ==> RawNumbers(l, c)
    case Not(child) => RawNumbers(l, child)
    case Property(_, child) => RawNumbers(l, child)
    case Comparison(_, number) => AllRaw(l, number)
    case _ => true
  }

  /** A text that is printed without quotes is made of raw units. */
  predicate PlainText(l: Language, v: Text) {
    Bare(l, v) ==> AllRaw(l, v)
  }

  /** So is every name and every string of the tree that is. */
  predicate PlainTexts(l: Language, n: Node) {
    match n
    case And(children) => forall c :: c in children ==> PlainTexts(l, c)
    case Or(children) => forall c :: c in children ==> PlainTexts(l, c)
    case Not(child) => PlainTexts(l, child)
    case Property(name, child) => PlainText(l, name) && PlainTexts(l, child)
    case TruthyProperty(name) => PlainText(l, name)
    case Str(value) => PlainText(l, value)
    case _ => true
  }

  // ----- reading text at a position

  /** `t` is written at `pos`. */
  ghost predicate At(s: Text, pos: nat, t: Text) {
    pos + |t| <= |s| && forall i {:trigger t[i]} :: 0 <= i < |t| ==> s[pos + i] == t[i]
  }

  lemma AtSplit(s: Text, pos: nat, t: Text, u: Text)
    requires At(s, pos, t + u)
    ensures At(s, pos, t) && At(s, pos + |t|, u)
  {
    forall i | 0 <= i < |t| ensures s[pos + i] == t[i] {
      assert (t + u)[i] == t[i];
    }
    forall i | 0 <= i < |u| ensures s[pos + |t| + i] == u[i] {
      assert (t + u)[|t| + i] == u[i];
    }
  }

  lemma AtChar(s: Text, pos: nat, t: Text, i: nat)
    requires At(s, pos, t) && i < |t|
    ensures pos + i < |s| && s[pos + i] == t[i]
  {
  }

  lemma SpanIs(f: Unit -> bool, s: Text, pos: nat, end: nat)
    requires pos <= end <= |s|
    requires forall i :: pos <= i < end ==> f(s[i])
    requires end < |s| ==> !f(s[end])
    ensures Span(f, s, pos) == end
  {
  }

  /** The first character of a printed term. */
  predicate Starter(l: Language, c: Unit) {
    l.raw(c) || IsHigh(c) || c in OPENERS + [QUOTE, STAR]
  }

  /** What can follow a printed term: nothing, a closing parenthesis, or a space and another term. */
  predicate Follows(l: Language, s: Text, pos: nat) {
    && pos <= |s|
    && (pos < |s| ==> s[pos] == CLOSE || (s[pos] == SPACE && pos + 1 < |s| && Starter(l, s[pos + 1])))
  }

  lemma StarterIsSolid(l: Language, c: Unit)
    requires Valid(l) && Starter(l, c)
    ensures !l.space(c) && c != COLON && c != QUERY && c != CLOSE && c != EQUAL
  {
  }

  /** After such a place, skipping spaces leads to the end, a parenthesis or the next term. */
  lemma SpacesAfter(l: Language, s: Text, pos: nat)
    requires Valid(l) && Follows(l, s, pos)
    ensures SkipSpaces(l, s, pos) == if Peek(s, pos, SPACE) then pos + 1 else pos
    ensures !Peek(s, SkipSpaces(l, s, pos), COLON)
  {
    if Peek(s, pos, SPACE) {
      StarterIsSolid(l, s[pos + 1]);
      SpanIs(l.space, s, pos, pos + 1);
    } else {
      assert pos < |s| ==> s[pos] == CLOSE && CLOSE in SYMBOLS;
      SpanIs(l.space, s, pos, pos);
    }
  }

  lemma NoSpaces(l: Language, s: Text, pos: nat)
    requires Valid(l) && pos <= |s| && (pos < |s| ==> s[pos] in SYMBOLS || Starter(l, s[pos]))
    ensures SkipSpaces(l, s, pos) == pos
  {
    if pos < |s| && Starter(l, s[pos]) {
      StarterIsSolid(l, s[pos]);
    }
    SpanIs(l.space, s, pos, pos);
  }

  // ----- strings

  function EscapeOne(c: Unit): Text {
    if c == BACKSLASH || c == QUOTE then [BACKSLASH, c] else [c]
  }

  lemma QuotedBodyStep(c: Unit, s: Text, pos: nat)
    requires At(s, pos, EscapeOne(c))
    ensures var rest := QuotedBody(s, pos + |EscapeOne(c)|); QuotedBody(s, pos) == (rest.0, [c] + rest.1)
  {
    AtChar(s, pos, EscapeOne(c), 0);
    if |EscapeOne(c)| == 2 {
      AtChar(s, pos, EscapeOne(c), 1);
    }
  }

  lemma QuotedBodyEnds(s: Text, pos: nat)
    requires At(s, pos, Escape([]) + [QUOTE])
    ensures Escape([]) == [] && QuotedBody(s, pos) == (pos + 1, [])
  {
    AtChar(s, pos, Escape([]) + [QUOTE], 0);
  }

  lemma EscapeStep(v: Text)
    requires v != []
    ensures Escape(v) == EscapeOne(v[0]) + Escape(v[1..])
  {
  }

  lemma {:induction false} QuotedBodyReads(v: Text, s: Text, pos: nat)
    requires At(s, pos, Escape(v) + [QUOTE])
    ensures QuotedBody(s, pos) == (pos + |Escape(v)| + 1, v)
  {
    hide EscapeOne, At, Escape, QuotedBody;
    if v == [] {
      QuotedBodyEnds(s, pos);
    } else {
      var first, more := EscapeOne(v[0]), Escape(v[1..]);
      EscapeStep(v);
      assert (first + more) + [QUOTE] == first + (more + [QUOTE]);
      AtSplit(s, pos, first, more + [QUOTE]);
      QuotedBodyReads(v[1..], s, pos + |first|);
      QuotedBodyStep(v[0], s, pos);
      assert [v[0]] + v[1..] == v;
    }
  }

  lemma {:induction false} NothingToEscape(v: Text)
    requires QUOTE !in v && BACKSLASH !in v
    ensures Escape(v) == v
  {
    if v != [] {
      assert v[0] in v;
      assert forall c :: c in v[1..] ==> c in v;
      NothingToEscape(v[1..]);
    }
  }

  lemma FormatCases(l: Language, v: Text)
    requires Valid(l)
    ensures FormatString(l, v) == if Bare(l, v) then v else [QUOTE] + Escape(v) + [QUOTE]
    ensures Bare(l, v) ==> v != []
    ensures FormatString(l, v) != [] && Starter(l, FormatString(l, v)[0])
  {
    if l.number(v).Some? {
      NothingToEscape(v);
    }
  }

  lemma QuotedReads(v: Text, s: Text, pos: nat)
    requires At(s, pos, [QUOTE] + Escape(v) + [QUOTE])
    ensures QuotedString(s, pos) == Ok(pos + |Escape(v)| + 2, v)
  {
    assert [QUOTE] + Escape(v) + [QUOTE] == [QUOTE] + (Escape(v) + [QUOTE]);
    AtSplit(s, pos, [QUOTE], Escape(v) + [QUOTE]);
    AtChar(s, pos, [QUOTE], 0);
    QuotedBodyReads(v, s, pos + 1);
  }

  lemma NoQuote(s: Text, pos: nat, t: Text)
    requires At(s, pos, t) && t != [] && t[0] != QUOTE
    ensures QuotedString(s, pos) == Fail
  {
    AtChar(s, pos, t, 0);
  }

  lemma RawReads(l: Language, v: Text, s: Text, pos: nat)
    requires v != [] && AllRaw(l, v) && At(s, pos, v)
    requires pos + |v| < |s| ==> !l.raw(s[pos + |v|])
    ensures RawString(l, s, pos) == Ok(pos + |v|, v)
  {
    forall i | pos <= i < pos + |v| ensures l.raw(s[i]) {
      AtChar(s, pos, v, i - pos);
    }
    SpanIs(l.raw, s, pos, pos + |v|);
    assert s[pos..pos + |v|] == v;
  }

  /** A formatted name reads back as that name, provided no raw character follows it. */
  lemma NameReads(l: Language, v: Text, s: Text, pos: nat)
    requires Valid(l) && PlainText(l, v) && At(s, pos, FormatString(l, v))
    requires var end := pos + |FormatString(l, v)|; end < |s| ==> !l.raw(s[end])
    ensures PropertyName(l, s, pos) == Ok(pos + |FormatString(l, v)|, v)
  {
    hide At, Escape, RawText, AllRaw, FormatString, QuotedString, RawString;
    FormatCases(l, v);
    if Bare(l, v) {
      BareIsNoQuote(l, v);
      NoQuote(s, pos, v);
      RawReads(l, v, s, pos);
    } else {
      QuotedReads(v, s, pos);
    }
  }

  lemma BareIsNoQuote(l: Language, v: Text)
    requires Valid(l) && AllRaw(l, v) && v != []
    ensures v[0] != QUOTE
  {
    assert QUOTE in SYMBOLS;
  }

  // ----- which alternative applies

  /** None of the alternatives introduced by a symbol applies. */
  lemma NoSymbol(l: Language, s: Text, pos: nat)
    requires pos <= |s| && (pos < |s| ==> s[pos] !in OPENERS)
    ensures Parens(l, s, pos) == OrTerm(l, s, pos) == NotTerm(l, s, pos) == ComparisonTerm(l, s, pos) == Fail
  {
  }

  lemma TakesParens(l: Language, s: Text, pos: nat)
    requires Peek(s, pos, OPEN) && !Parens(l, s, pos).Fail?
    ensures Alternatives(l, s, pos) == Parens(l, s, pos)
  {
    hide Parens, OrTerm, NotTerm, ComparisonTerm, PropertyTerm, TruthyTerm, ValueTerm;
  }

  lemma TakesOr(l: Language, s: Text, pos: nat)
    requires Peek(s, pos, BAR) && !OrTerm(l, s, pos).Fail?
    ensures Alternatives(l, s, pos) == OrTerm(l, s, pos)
  {
    hide OrTerm, NotTerm, ComparisonTerm, PropertyTerm, TruthyTerm, ValueTerm, Repeat1;
  }

  lemma TakesNot(l: Language, s: Text, pos: nat)
    requires Peek(s, pos, BANG) && !NotTerm(l, s, pos).Fail?
    ensures Alternatives(l, s, pos) == NotTerm(l, s, pos)
  {
    hide NotTerm, ComparisonTerm, PropertyTerm, TruthyTerm, ValueTerm, Repeat1;
  }

  lemma TakesComparison(l: Language, s: Text, pos: nat)
    requires (Peek(s, pos, LESS) || Peek(s, pos, MORE)) && !ComparisonTerm(l, s, pos).Fail?
    ensures Alternatives(l, s, pos) == ComparisonTerm(l, s, pos)
  {
    hide ComparisonTerm, PropertyTerm, TruthyTerm, ValueTerm, Repeat1, Term;
  }

  lemma TakesProperty(l: Language, s: Text, pos: nat)
    requires pos <= |s| && (pos < |s| ==> s[pos] !in OPENERS) && !PropertyTerm(l, s, pos).Fail?
    ensures Alternatives(l, s, pos) == PropertyTerm(l, s, pos)
  {
    hide Parens, OrTerm, NotTerm, ComparisonTerm, PropertyTerm, TruthyTerm, ValueTerm;
    NoSymbol(l, s, pos);
  }

  /** A name not followed by a colon is no property. */
  lemma NoProperty(l: Language, s: Text, pos: nat)
    requires pos <= |s|
    requires var name := PropertyName(l, s, pos);
      name.Ok? ==> name.pos <= |s| && !Peek(s, SkipSpaces(l, s, name.pos), COLON)
    ensures PropertyTerm(l, s, pos) == Fail
  {
    hide PropertyName, SkipSpaces;
  }

  lemma TakesTruthy(l: Language, s: Text, pos: nat)
    requires pos <= |s| && (pos < |s| ==> s[pos] !in OPENERS)
    requires PropertyTerm(l, s, pos).Fail? && !TruthyTerm(l, s, pos).Fail?
    ensures Alternatives(l, s, pos) == TruthyTerm(l, s, pos)
  {
    hide Parens, OrTerm, NotTerm, ComparisonTerm, PropertyTerm, TruthyTerm, ValueTerm;
    NoSymbol(l, s, pos);
  }

  /** A name that is followed neither by a colon nor by a question mark is a value. */
  lemma TakesValue(l: Language, s: Text, pos: nat)
    requires pos <= |s| && (pos < |s| ==> s[pos] !in OPENERS)
    requires var name := PropertyName(l, s, pos);
      name.Ok? ==> name.pos <= |s| && !Peek(s, SkipSpaces(l, s, name.pos), COLON) && !Peek(s, name.pos, QUERY)
    ensures Alternatives(l, s, pos) == ValueTerm(l, s, pos)
  {
    hide Parens, OrTerm, NotTerm, ComparisonTerm, PropertyTerm, ValueTerm, PropertyName;
    NoSymbol(l, s, pos);
    NoProperty(l, s, pos);
  }

  lemma TermIs(l: Language, s: Text, pos: nat)
    requires pos <= |s|
    ensures Term(l, s, pos) ==
      match Alternatives(l, s, pos)
      case Ok(end, node) => if end <= |s| then Ok(SkipSpaces(l, s, end), node) else Fail
      case Fail => Fail
      case Throw => Throw
  {
    hide Alternatives;
  }

  lemma TermFails(l: Language, s: Text, pos: nat)
    requires Valid(l) && AtEndOfTerms(s, pos)
    ensures Term(l, s, pos) == Fail
  {
    hide Term, Alternatives;
    assert CLOSE in SYMBOLS;
    SpanIs(l.raw, s, pos, pos);
    SpanIs(GlobChar(l), s, pos, pos);
    TakesValue(l, s, pos);
    TermIs(l, s, pos);
  }

  // ----- terms without children

  /** What parsing a printed term gives: the term back, or an exception when a compared number is not raw. */
  function Outcome(l: Language, n: Node, s: Text, end: nat): Result<Node>
    requires end <= |s|
  {
    if RawNumbers(l, n) then Ok(SkipSpaces(l, s, end), n) else Throw
  }

  lemma RawEnd(l: Language, v: Text, s: Text, pos: nat)
    requires Valid(l) && GlobText(l, v) && At(s, pos, v) && Follows(l, s, pos + |v|)
    ensures var end := Span(l.raw, s, pos);
      end == pos + |v| || (end < pos + |v| && s[end] == STAR)
  {
    var end := Span(l.raw, s, pos);
    assert pos + |v| < |s| ==> !l.raw(s[pos + |v|]) by {
      assert CLOSE in SYMBOLS;
    }
    if end < pos + |v| {
      AtChar(s, pos, v, end - pos);
    }
  }

  lemma WordReads(l: Language, v: Text, s: Text, pos: nat)
    requires Valid(l) && GlobText(l, v) && At(s, pos, v) && Follows(l, s, pos + |v|)
    ensures Term(l, s, pos)
         == Ok(SkipSpaces(l, s, pos + |v|), if l.number(v).None? then NewGlob(v) else NumberOrString(v))
  {
    hide Term, Alternatives, PropertyTerm, TruthyTerm;
    assert s[pos] !in OPENERS + [QUOTE] by {
      AtChar(s, pos, v, 0);
    }
    NoQuote(s, pos, v);
    var name := PropertyName(l, s, pos);
    if name.Ok? {
      WordIsNoName(l, v, s, pos);
    }
    TakesValue(l, s, pos);
    GlobReads(l, v, s, pos);
    TermIs(l, s, pos);
  }

  lemma WordIsNoName(l: Language, v: Text, s: Text, pos: nat)
    requires Valid(l) && GlobText(l, v) && At(s, pos, v) && Follows(l, s, pos + |v|)
    ensures var end := Span(l.raw, s, pos);
      !Peek(s, SkipSpaces(l, s, end), COLON) && !Peek(s, end, QUERY)
  {
    var end := Span(l.raw, s, pos);
    RawEnd(l, v, s, pos);
    SpacesAfter(l, s, pos + |v|);
    if end < pos + |v| {
      NoSpaces(l, s, end);
    }
  }

  lemma GlobReads(l: Language, v: Text, s: Text, pos: nat)
    requires Valid(l) && GlobText(l, v) && At(s, pos, v) && Follows(l, s, pos + |v|)
    ensures GlobPattern(l, s, pos) == Ok(pos + |v|, v)
  {
    assert CLOSE in SYMBOLS;
    forall i | pos <= i < pos + |v| ensures GlobChar(l)(s[i]) {
      AtChar(s, pos, v, i - pos);
    }
    SpanIs(GlobChar(l), s, pos, pos + |v|);
    assert s[pos..pos + |v|] == v;
  }

  lemma QuotedTermReads(l: Language, v: Text, s: Text, pos: nat)
    requires Valid(l) && At(s, pos, [QUOTE] + Escape(v) + [QUOTE])
    requires Follows(l, s, pos + |Escape(v)| + 2)
    ensures Term(l, s, pos) == Ok(SkipSpaces(l, s, pos + |Escape(v)| + 2), Str(v))
  {
    hide Term, Alternatives, PropertyTerm, TruthyTerm;
    AtChar(s, pos, [QUOTE] + Escape(v) + [QUOTE], 0);
    QuotedReads(v, s, pos);
    SpacesAfter(l, s, pos + |Escape(v)| + 2);
    TakesValue(l, s, pos);
    TermIs(l, s, pos);
  }

  lemma BareStrReads(l: Language, v: Text, s: Text, pos: nat)
    requires Valid(l) && Bare(l, v) && AllRaw(l, v) && At(s, pos, v) && Follows(l, s, pos + |v|)
    ensures Term(l, s, pos) == Ok(SkipSpaces(l, s, pos + |v|), Str(v))
  {
    hide Term, Escape, Follows, At, SkipSpaces, FormatString;
    assert STAR in SYMBOLS;
    WordReads(l, v, s, pos);
  }

  lemma StrReads(l: Language, v: Text, s: Text, pos: nat)
    requires Valid(l) && PlainText(l, v) && At(s, pos, FormatString(l, v)) && Follows(l, s, pos + |FormatString(l, v)|)
    ensures Term(l, s, pos) == Ok(SkipSpaces(l, s, pos + |FormatString(l, v)|), Str(v))
  {
    hide Term, Escape, Follows, At, FormatString, SkipSpaces, Bare, Valid;
    FormatCases(l, v);
    if Bare(l, v) {
      BareStrReads(l, v, s, pos);
    } else {
      QuotedTermReads(l, v, s, pos);
    }
  }

  lemma TruthyTermReads(l: Language, name: Text, text: Text, s: Text, pos: nat)
    requires Valid(l) && PlainText(l, name) && text == FormatString(l, name) && At(s, pos, text)
      && At(s, pos + |text|, [QUERY])
    ensures TruthyTerm(l, s, pos) == Ok(pos + |text| + 1, TruthyProperty(name)) && PropertyTerm(l, s, pos) == Fail
  {
    hide PropertyTerm;
    AtChar(s, pos + |text|, [QUERY], 0);
    assert QUERY in SYMBOLS;
    NameReads(l, name, s, pos);
    NoSpaces(l, s, pos + |text|);
    NoProperty(l, s, pos);
  }

  lemma FormatIsNoSymbol(l: Language, name: Text, s: Text, pos: nat)
    requires Valid(l) && At(s, pos, FormatString(l, name))
    ensures pos < |s| && s[pos] !in OPENERS
  {
    FormatCases(l, name);
    AtChar(s, pos, FormatString(l, name), 0);
  }

  lemma TruthyReads(l: Language, name: Text, text: Text, s: Text, pos: nat)
    requires Valid(l) && PlainText(l, name) && text == FormatString(l, name) && At(s, pos, text + [QUERY])
    ensures Term(l, s, pos) == Ok(SkipSpaces(l, s, pos + |text| + 1), TruthyProperty(name))
  {
    hide Term, Alternatives, PropertyTerm, TruthyTerm, Valid;
    AtSplit(s, pos, text, [QUERY]);
    FormatIsNoSymbol(l, name, s, pos);
    TruthyTermReads(l, name, text, s, pos);
    TakesTruthy(l, s, pos);
    TermIs(l, s, pos);
  }

  lemma OperatorReads(l: Language, operator: Text, number: Text, s: Text, pos: nat)
    requires Valid(l) && operator in OPERATORS && Canonical(l, number)
    requires At(s, pos, operator) && At(s, pos + |operator|, number)
    ensures Operator(s, pos) == operator
  {
    AtChar(s, pos, operator, 0);
    AtChar(s, pos + |operator|, number, 0);
    assert EQUAL in SYMBOLS;
    if |operator| == 2 {
      AtChar(s, pos, operator, 1);
    }
  }

  lemma PrefixReads(l: Language, number: Text, s: Text, pos: nat)
    requires Valid(l) && Canonical(l, number) && At(s, pos, number) && !AllRaw(l, number)
    ensures RawString(l, s, pos).Ok? && RawString(l, s, pos).value == RawPrefix(l, number)
  {
    var k := Span(l.raw, number, 0);
    forall i | 0 <= i < |number| ensures s[pos + i] == number[i] {
      AtChar(s, pos, number, i);
    }
    forall i | pos <= i < pos + k ensures l.raw(s[i]) {
      assert l.raw(number[i - pos]);
    }
    SpanIs(l.raw, s, pos, pos + k);
    assert s[pos..pos + k] == number[..k];
  }

  lemma NumberReads(l: Language, number: Text, s: Text, pos: nat)
    requires Valid(l) && Canonical(l, number) && At(s, pos, number) && Follows(l, s, pos + |number|)
    ensures RawString(l, s, pos).Ok?
    ensures if AllRaw(l, number) then RawString(l, s, pos) == Ok(pos + |number|, number)
            else l.number(RawString(l, s, pos).value).None?
  {
    hide RawString;
    if AllRaw(l, number) {
      assert CLOSE in SYMBOLS;
      RawReads(l, number, s, pos);
    } else {
      PrefixReads(l, number, s, pos);
    }
  }

  lemma ComparisonTermReads(l: Language, operator: Text, number: Text, s: Text, pos: nat)
    requires Valid(l) && operator in OPERATORS && Canonical(l, number)
    requires At(s, pos, operator) && At(s, pos + |operator|, number) && Follows(l, s, pos + |operator| + |number|)
    ensures ComparisonTerm(l, s, pos)
         == if AllRaw(l, number) then Ok(pos + |operator| + |number|, Comparison(operator, number)) else Throw
  {
    hide Operator, RawString, Valid, AllRaw;
    OperatorReads(l, operator, number, s, pos);
    NumberReads(l, number, s, pos + |operator|);
  }

  lemma ComparisonReads(l: Language, n: Node, s: Text, pos: nat)
    requires Valid(l) && n.Comparison? && TermTree(l, n)
    requires At(s, pos, n.operator + n.number) && Follows(l, s, pos + |n.operator + n.number|)
    ensures Term(l, s, pos) == Outcome(l, n, s, pos + |n.operator + n.number|)
  {
    hide Term, Alternatives, ComparisonTerm, Valid;
    AtSplit(s, pos, n.operator, n.number);
    AtChar(s, pos, n.operator, 0);
    ComparisonTermReads(l, n.operator, n.number, s, pos);
    TakesComparison(l, s, pos);
    TermIs(l, s, pos);
  }

  // ----- first characters

  lemma {:induction false} PrintStarts(l: Language, n: Node)
    requires Valid(l) && TermTree(l, n)
    ensures Print(l, n, true) != [] && Starter(l, Print(l, n, true)[0])
  {
    match n
    case Property(name, _) => FormatCases(l, name);
    case TruthyProperty(name) => FormatCases(l, name);
    case Str(value) => FormatCases(l, value);
    case _ =>
  }

  lemma TermsStart(l: Language, terms: seq<Node>)
    requires Valid(l) && terms != [] && forall c :: c in terms ==> TermTree(l, c)
    ensures PrintTerms(l, terms) != [] && Starter(l, PrintTerms(l, terms)[0])
  {
    PrintStarts(l, terms[0]);
  }

  lemma SpacesTwice(l: Language, s: Text, pos: nat)
    requires pos <= |s|
    ensures SkipSpaces(l, s, SkipSpaces(l, s, pos)) == SkipSpaces(l, s, pos)
  {
    SpanIs(l.space, s, SkipSpaces(l, s, pos), SkipSpaces(l, s, pos));
  }

  /** No space is skipped in front of a printed term. */
  lemma SolidAt(l: Language, text: Text, s: Text, pos: nat)
    requires Valid(l) && At(s, pos, text) && text != [] && Starter(l, text[0])
    ensures SkipSpaces(l, s, pos) == pos
  {
    AtChar(s, pos, text, 0);
    NoSpaces(l, s, pos);
  }

  // ----- terms with children, given how the children read

  lemma NotReads(l: Language, child: Node, text: Text, s: Text, pos: nat)
    requires Valid(l) && At(s, pos, [BANG]) && At(s, pos + 1, text) && text != [] && Starter(l, text[0])
    requires Term(l, s, pos + 1) == Outcome(l, child, s, pos + 1 + |text|)
    ensures Term(l, s, pos) == Outcome(l, Not(child), s, pos + 1 + |text|)
  {
    hide Term, Alternatives;
    AtChar(s, pos, [BANG], 0);
    SolidAt(l, text, s, pos + 1);
    SpacesTwice(l, s, pos + 1 + |text|);
    TakesNot(l, s, pos);
    TermIs(l, s, pos);
  }

  lemma PropertyTermReads(l: Language, name: Text, child: Node, key: Text, text: Text, s: Text, pos: nat)
    requires Valid(l) && PlainText(l, name) && key == FormatString(l, name) && text != [] && Starter(l, text[0])
    requires At(s, pos, key) && At(s, pos + |key|, [COLON]) && At(s, pos + |key| + 1, text)
    requires Term(l, s, pos + |key| + 1) == Outcome(l, child, s, pos + |key| + 1 + |text|)
    ensures PropertyTerm(l, s, pos)
         == match Outcome(l, child, s, pos + |key| + 1 + |text|)
            case Ok(end, node) => Ok(end, Property(name, node))
            case _ => Throw
  {
    hide Term, RawNumbers;
    AtChar(s, pos + |key|, [COLON], 0);
    assert COLON in SYMBOLS;
    NameReads(l, name, s, pos);
    NoSpaces(l, s, pos + |key|);
    SolidAt(l, text, s, pos + |key| + 1);
  }

  lemma PropertyReads(l: Language, name: Text, child: Node, key: Text, text: Text, s: Text, pos: nat)
    requires Valid(l) && PlainText(l, name) && key == FormatString(l, name) && text != [] && Starter(l, text[0])
    requires At(s, pos, key) && At(s, pos + |key|, [COLON]) && At(s, pos + |key| + 1, text)
    requires Term(l, s, pos + |key| + 1) == Outcome(l, child, s, pos + |key| + 1 + |text|)
    ensures Term(l, s, pos) == Outcome(l, Property(name, child), s, pos + |key| + 1 + |text|)
  {
    hide Term, Alternatives, PropertyTerm, Valid, FormatString;
    FormatIsNoSymbol(l, name, s, pos);
    PropertyTermReads(l, name, child, key, text, s, pos);
    SpacesTwice(l, s, pos + |key| + 1 + |text|);
    TakesProperty(l, s, pos);
    TermIs(l, s, pos);
  }

  predicate AllRawNumbers(l: Language, terms: seq<Node>) {
    forall c :: c in terms ==> RawNumbers(l, c)
  }

  predicate AtEndOfTerms(s: Text, pos: nat) {
    pos <= |s| && (pos < |s| ==> s[pos] == CLOSE)
  }

  function TermsOutcome(l: Language, terms: seq<Node>, end: nat): Result<seq<Node>> {
    if AllRawNumbers(l, terms) then Ok(end, terms) else Throw
  }

  lemma AndReads(l: Language, children: seq<Node>, text: Text, s: Text, pos: nat)
    requires Valid(l) && |children| >= 2 && text != [] && Starter(l, text[0])
    requires At(s, pos, [OPEN]) && At(s, pos + 1, text) && At(s, pos + 1 + |text|, [CLOSE])
    requires Repeat(l, s, pos + 1) == TermsOutcome(l, children, pos + 1 + |text|)
    ensures Term(l, s, pos) == Outcome(l, And(children), s, pos + |text| + 2)
  {
    hide Term, Alternatives, Repeat;
    AtChar(s, pos, [OPEN], 0);
    AtChar(s, pos + 1 + |text|, [CLOSE], 0);
    SolidAt(l, text, s, pos + 1);
    TakesParens(l, s, pos);
    TermIs(l, s, pos);
  }

  /** The two symbols that open a disjunction, and no space around them. */
  lemma OrOpens(l: Language, text: Text, s: Text, pos: nat)
    requires Valid(l) && text != [] && Starter(l, text[0])
    requires At(s, pos, [BAR, OPEN]) && At(s, pos + 2, text) && At(s, pos + 2 + |text|, [CLOSE])
    ensures Peek(s, pos, BAR) && SkipSpaces(l, s, pos + 1) == pos + 1
    ensures Peek(s, pos + 1, OPEN) && SkipSpaces(l, s, pos + 2) == pos + 2
    ensures Peek(s, pos + 2 + |text|, CLOSE)
  {
    AtChar(s, pos, [BAR, OPEN], 0);
    AtChar(s, pos, [BAR, OPEN], 1);
    AtChar(s, pos + 2 + |text|, [CLOSE], 0);
    NoSpaces(l, s, pos + 1);
    SolidAt(l, text, s, pos + 2);
  }

  lemma OrTermReads(l: Language, children: seq<Node>, text: Text, s: Text, pos: nat)
    requires Valid(l) && text != [] && Starter(l, text[0]) && children != []
    requires At(s, pos, [BAR, OPEN]) && At(s, pos + 2, text) && At(s, pos + 2 + |text|, [CLOSE])
    requires Repeat(l, s, pos + 2) == TermsOutcome(l, children, pos + 2 + |text|)
    ensures OrTerm(l, s, pos) == if AllRawNumbers(l, children) then Ok(pos + |text| + 3, NewOr(children)) else Throw
  {
    hide Repeat, AllRawNumbers, Valid, SkipSpaces, NewOr, At, Starter;
    OrOpens(l, text, s, pos);
  }

  lemma OrReads(l: Language, children: seq<Node>, text: Text, s: Text, pos: nat)
    requires Valid(l) && |children| >= 2 && text != [] && Starter(l, text[0])
    requires At(s, pos, [BAR, OPEN]) && At(s, pos + 2, text) && At(s, pos + 2 + |text|, [CLOSE])
    requires Repeat(l, s, pos + 2) == TermsOutcome(l, children, pos + 2 + |text|)
    ensures Term(l, s, pos) == Outcome(l, Or(children), s, pos + |text| + 3)
  {
    hide Term, Alternatives, Repeat, OrTerm, Valid;
    AtChar(s, pos, [BAR, OPEN], 0);
    OrTermReads(l, children, text, s, pos);
    TakesOr(l, s, pos);
    TermIs(l, s, pos);
  }

  /** One more term in front of a list. */
  lemma ConsReads(l: Language, n: Node, rest: seq<Node>, s: Text, pos: nat, next: nat, end: nat)
    requires pos < next <= |s|
    requires Term(l, s, pos) == if RawNumbers(l, n) then Ok(next, n) else Throw
    requires Repeat(l, s, next) == TermsOutcome(l, rest, end)
    ensures Repeat(l, s, pos) == TermsOutcome(l, [n] + rest, end)
  {
    hide Term, RawNumbers;
    assert AllRawNumbers(l, [n] + rest) <==> RawNumbers(l, n) && AllRawNumbers(l, rest);
  }

  lemma RepeatEnds(l: Language, s: Text, pos: nat)
    requires Valid(l) && AtEndOfTerms(s, pos)
    ensures Repeat(l, s, pos) == Ok(pos, [])
  {
    hide Term;
    TermFails(l, s, pos);
  }

  // ----- printed terms

  lemma {:induction false} TermReads(l: Language, n: Node, s: Text, pos: nat)
    requires Valid(l) && TermTree(l, n) && PlainTexts(l, n)
    requires At(s, pos, Print(l, n, true)) && Follows(l, s, pos + |Print(l, n, true)|)
    ensures Term(l, s, pos) == Outcome(l, n, s, pos + |Print(l, n, true)|)
    decreases n, 2
  {
    hide Term, Valid, Follows, At, GlobText, Canonical;
    match n
    case And(_) => AndTreeReads(l, n, s, pos);
    case Or(_) => OrTreeReads(l, n, s, pos);
    case Not(_) => NotTreeReads(l, n, s, pos);
    case Property(_, _) => PropertyTreeReads(l, n, s, pos);
    case TruthyProperty(name) => TruthyReads(l, name, FormatString(l, name), s, pos);
    case Str(value) => StrReads(l, value, s, pos);
    case NumberOrString(value) => WordReads(l, value, s, pos);
    case Glob(value) => WordReads(l, value, s, pos);
    case Comparison(_, _) => ComparisonReads(l, n, s, pos);
  }

  lemma {:induction false} AndTreeReads(l: Language, n: Node, s: Text, pos: nat)
    requires Valid(l) && n.And? && TermTree(l, n) && PlainTexts(l, n) && At(s, pos, Print(l, n, true))
    ensures Term(l, s, pos) == Outcome(l, n, s, pos + |Print(l, n, true)|)
    decreases n, 1
  {
    hide Term, Repeat, Valid;
    var text := PrintTerms(l, n.children);
    assert Print(l, n, true) == [OPEN] + text + [CLOSE];
    GroupSplits([OPEN], text, s, pos);
    TermsStart(l, n.children);
    TermsRead(l, n.children, s, pos + 1);
    AndReads(l, n.children, text, s, pos);
  }

  lemma {:induction false} OrTreeReads(l: Language, n: Node, s: Text, pos: nat)
    requires Valid(l) && n.Or? && TermTree(l, n) && PlainTexts(l, n) && At(s, pos, Print(l, n, true))
    ensures Term(l, s, pos) == Outcome(l, n, s, pos + |Print(l, n, true)|)
    decreases n, 1
  {
    hide Term, Repeat, Valid;
    var text := PrintTerms(l, n.children);
    assert Print(l, n, true) == [BAR, OPEN] + text + [CLOSE];
    GroupSplits([BAR, OPEN], text, s, pos);
    TermsStart(l, n.children);
    TermsRead(l, n.children, s, pos + 2);
    OrReads(l, n.children, text, s, pos);
  }

  lemma {:induction false} NotTreeReads(l: Language, n: Node, s: Text, pos: nat)
    requires Valid(l) && n.Not? && TermTree(l, n) && PlainTexts(l, n)
    requires At(s, pos, Print(l, n, true)) && Follows(l, s, pos + |Print(l, n, true)|)
    ensures Term(l, s, pos) == Outcome(l, n, s, pos + |Print(l, n, true)|)
    decreases n, 1
  {
    hide Term, Valid;
    var text := Print(l, n.child, true);
    assert Print(l, n, true) == [BANG] + text;
    AtSplit(s, pos, [BANG], text);
    PrintStarts(l, n.child);
    TermReads(l, n.child, s, pos + 1);
    NotReads(l, n.child, text, s, pos);
  }

  lemma {:induction false} PropertyTreeReads(l: Language, n: Node, s: Text, pos: nat)
    requires Valid(l) && n.Property? && TermTree(l, n) && PlainTexts(l, n)
    requires At(s, pos, Print(l, n, true)) && Follows(l, s, pos + |Print(l, n, true)|)
    ensures Term(l, s, pos) == Outcome(l, n, s, pos + |Print(l, n, true)|)
    decreases n, 1
  {
    hide Term, Valid, FormatString;
    var key, text := FormatString(l, n.name), Print(l, n.child, true);
    assert Print(l, n, true) == key + ([COLON] + text);
    AtSplit(s, pos, key, [COLON] + text);
    AtSplit(s, pos + |key|, [COLON], text);
    PrintStarts(l, n.child);
    TermReads(l, n.child, s, pos + |key| + 1);
    PropertyReads(l, n.name, n.child, key, text, s, pos);
  }

  lemma GroupSplits(open: Text, text: Text, s: Text, pos: nat)
    requires At(s, pos, open + text + [CLOSE])
    ensures At(s, pos, open) && At(s, pos + |open|, text) && At(s, pos + |open| + |text|, [CLOSE])
    ensures AtEndOfTerms(s, pos + |open| + |text|)
  {
    assert open + text + [CLOSE] == open + (text + [CLOSE]);
    AtSplit(s, pos, open, text + [CLOSE]);
    AtSplit(s, pos + |open|, text, [CLOSE]);
    AtChar(s, pos + |open| + |text|, [CLOSE], 0);
  }

  lemma {:induction false} TermsRead(l: Language, terms: seq<Node>, s: Text, pos: nat)
    requires Valid(l) && terms != [] && forall c :: c in terms ==> TermTree(l, c) && PlainTexts(l, c)
    requires At(s, pos, PrintTerms(l, terms)) && AtEndOfTerms(s, pos + |PrintTerms(l, terms)|)
    ensures Repeat(l, s, pos) == TermsOutcome(l, terms, pos + |PrintTerms(l, terms)|)
    decreases terms, 0
  {
    hide Term, Repeat, Print, TermTree, Valid;
    if |terms| == 1 {
      LastTermReads(l, terms[0], s, pos);
      assert terms == [terms[0]];
    } else {
      var first, rest := Print(l, terms[0], true), PrintTerms(l, terms[1..]);
      TermsStart(l, terms[1..]);
      assert PrintTerms(l, terms) == first + ([SPACE] + rest);
      var next := pos + |first| + 1;
      assert At(s, pos, first) && At(s, next, rest) && Peek(s, pos + |first|, SPACE) by {
        AtSplit(s, pos, first, [SPACE] + rest);
        AtSplit(s, pos + |first|, [SPACE], rest);
        AtChar(s, pos + |first|, [SPACE], 0);
      }
      AtChar(s, next, rest, 0);
      TermReads(l, terms[0], s, pos);
      SpacesAfter(l, s, pos + |first|);
      TermsRead(l, terms[1..], s, next);
      assert terms == [terms[0]] + terms[1..];
      ConsReads(l, terms[0], terms[1..], s, pos, next, next + |rest|);
    }
  }

  lemma {:induction false} LastTermReads(l: Language, n: Node, s: Text, pos: nat)
    requires Valid(l) && TermTree(l, n) && PlainTexts(l, n)
    requires At(s, pos, Print(l, n, true)) && AtEndOfTerms(s, pos + |Print(l, n, true)|)
    ensures Repeat(l, s, pos) == TermsOutcome(l, [n], pos + |Print(l, n, true)|)
    decreases n, 3
  {
    hide Term, Repeat, TermTree, Valid, At, Print;
    var end := pos + |Print(l, n, true)|;
    PrintStarts(l, n);
    TermReads(l, n, s, pos);
    SpacesAfter(l, s, end);
    RepeatEnds(l, s, end);
    assert [n] + [] == [n];
    ConsReads(l, n, [], s, pos, end, end);
  }

  // ----- texts that do not come back

  /** No term starts there, and no parenthesis closes. */
  ghost predicate Stuck(l: Language, s: Text, pos: nat) {
    pos < |s| && s[pos] != CLOSE && Term(l, s, pos) == Fail
  }

  /** A term that gets stuck: at its start, or after a part that was taken for the whole. */
  ghost predicate Blocked(l: Language, s: Text, pos: nat, r: Result<Node>) {
    match r
    case Throw => true
    case Fail => Stuck(l, s, pos)
    case Ok(end, _) => Stuck(l, s, end)
  }

  ghost predicate BlockedTerms(l: Language, s: Text, r: Result<seq<Node>>) {
    match r
    case Throw => true
    case Fail => false
    case Ok(end, _) => Stuck(l, s, end)
  }

  /** No name and no value starts there. */
  lemma NoWord(l: Language, s: Text, pos: nat)
    requires pos < |s| && !l.raw(s[pos]) && s[pos] !in [QUOTE, STAR, LESS, MORE]
    ensures ComparisonTerm(l, s, pos) == PropertyTerm(l, s, pos) == TruthyTerm(l, s, pos) == ValueTerm(l, s, pos)
      == Fail
  {
    hide Term, SkipSpaces;
    SpanIs(l.raw, s, pos, pos);
    SpanIs(GlobChar(l), s, pos, pos);
  }

  /** What is neither an opener nor the start of a word starts no term. */
  lemma NoTerm(l: Language, s: Text, pos: nat)
    requires pos < |s| && !l.raw(s[pos]) && s[pos] !in OPENERS + [QUOTE, STAR, CLOSE]
    ensures Stuck(l, s, pos)
  {
    hide Term, Alternatives, Parens, OrTerm, NotTerm, ComparisonTerm, PropertyTerm, TruthyTerm, ValueTerm;
    NoSymbol(l, s, pos);
    NoWord(l, s, pos);
    NoAlternative(l, s, pos);
    TermIs(l, s, pos);
  }

  lemma NoAlternative(l: Language, s: Text, pos: nat)
    requires pos <= |s| && Parens(l, s, pos).Fail? && OrTerm(l, s, pos).Fail? && NotTerm(l, s, pos).Fail?
    requires ComparisonTerm(l, s, pos).Fail? && PropertyTerm(l, s, pos).Fail? && TruthyTerm(l, s, pos).Fail?
    requires ValueTerm(l, s, pos).Fail?
    ensures Alternatives(l, s, pos) == Fail
  {
    hide Parens, OrTerm, NotTerm, ComparisonTerm, PropertyTerm, TruthyTerm, ValueTerm;
  }

  /** An opener whose own alternative fails. */
  lemma OpenerFails(l: Language, s: Text, pos: nat)
    requires Valid(l) && pos < |s| && s[pos] in [OPEN, BAR, BANG]
    requires Parens(l, s, pos).Fail? && OrTerm(l, s, pos).Fail? && NotTerm(l, s, pos).Fail?
    ensures Stuck(l, s, pos)
  {
    hide Term, Alternatives, Parens, OrTerm, NotTerm, ComparisonTerm, PropertyTerm, TruthyTerm, ValueTerm;
    assert s[pos] in SYMBOLS;
    NoWord(l, s, pos);
    NoAlternative(l, s, pos);
    TermIs(l, s, pos);
  }

  lemma OtherOpeners(l: Language, s: Text, pos: nat)
    requires pos < |s|
    ensures s[pos] != OPEN ==> Parens(l, s, pos) == Fail
    ensures s[pos] != BAR ==> OrTerm(l, s, pos) == Fail
    ensures s[pos] != BANG ==> NotTerm(l, s, pos) == Fail
  {
  }

  /** The first unit that is not raw in a text of raw characters is half of a pair. */
  lemma {:induction false} FirstNotRaw(l: Language, v: Text) returns (k: nat)
    requires RawText(l, v) && !AllRaw(l, v)
    ensures k < |v| && IsHigh(v[k]) && forall i :: 0 <= i < k ==> l.raw(v[i])
  {
    if |v| > 1 && IsHigh(v[0]) && IsLow(v[1]) {
      k := 0;
    } else {
      assert AllRaw(l, v[1..]) ==> AllRaw(l, v) by {
        assert v == [v[0]] + v[1..];
      }
      k := FirstNotRaw(l, v[1..]);
      k := k + 1;
    }
  }

  /** A text without quotes that is not made of raw units is read up to its first pair. */
  lemma BareBlocks(l: Language, v: Text, s: Text, pos: nat)
    requires Valid(l) && !PlainText(l, v) && At(s, pos, v)
    ensures Blocked(l, s, pos, Term(l, s, pos))
  {
    hide Term, At, RawText, AllRaw;
    var k := FirstNotRaw(l, v);
    AtChar(s, pos, v, k);
    HalfIsStuck(l, s, pos + k);
    if k > 0 {
      forall i | pos <= i < pos + k ensures l.raw(s[i]) {
        AtChar(s, pos, v, i - pos);
      }
      WordEndsAt(l, s, pos, pos + k);
    }
  }

  lemma HalfIsStuck(l: Language, s: Text, pos: nat)
    requires Valid(l) && pos < |s| && IsHigh(s[pos])
    ensures Stuck(l, s, pos)
  {
    hide Stuck;
    NoTerm(l, s, pos);
  }

  /** Raw units up to half of a pair are a value. */
  lemma WordEndsAt(l: Language, s: Text, pos: nat, end: nat)
    requires Valid(l) && pos < end < |s| && IsHigh(s[end]) && forall i :: pos <= i < end ==> l.raw(s[i])
    ensures Term(l, s, pos).Ok? && Term(l, s, pos).pos == end
  {
    hide Term, Alternatives;
    assert QUOTE in SYMBOLS && STAR in SYMBOLS && s[pos] !in OPENERS + [QUOTE];
    SpanIs(l.raw, s, pos, end);
    SpanIs(GlobChar(l), s, pos, end);
    SpanIs(l.space, s, end, end);
    TakesValue(l, s, pos);
    TermIs(l, s, pos);
  }

  lemma {:induction false} TermBlocks(l: Language, n: Node, s: Text, pos: nat)
    requires Valid(l) && TermTree(l, n) && !PlainTexts(l, n) && At(s, pos, Print(l, n, true))
    ensures Blocked(l, s, pos, Term(l, s, pos))
    decreases n, 2
  {
    hide Term, Stuck, Valid, At, GlobText, Canonical, PlainText, FormatString;
    match n
    case And(_) => AndBlocks(l, n, s, pos);
    case Or(_) => OrBlocks(l, n, s, pos);
    case Not(_) => NotBlocks(l, n, s, pos);
    case Property(_, _) => PropertyBlocks(l, n, s, pos);
    case TruthyProperty(name) => NameBlocks(l, name, [QUERY], s, pos);
    case Str(value) =>
      assert FormatString(l, value) + [] == FormatString(l, value);
      NameBlocks(l, value, [], s, pos);
    case _ =>
  }

  lemma NameBlocks(l: Language, name: Text, after: Text, s: Text, pos: nat)
    requires Valid(l) && !PlainText(l, name) && At(s, pos, FormatString(l, name) + after)
    ensures Blocked(l, s, pos, Term(l, s, pos))
  {
    hide Term, Blocked, At, RawText, AllRaw;
    AtSplit(s, pos, FormatString(l, name), after);
    BareBlocks(l, name, s, pos);
  }

  lemma {:induction false} AndBlocks(l: Language, n: Node, s: Text, pos: nat)
    requires Valid(l) && n.And? && TermTree(l, n) && !PlainTexts(l, n) && At(s, pos, Print(l, n, true))
    ensures Blocked(l, s, pos, Term(l, s, pos))
    decreases n, 1
  {
    hide Term, Repeat, Stuck, Valid, At, PlainTexts;
    UnplainChild(l, n);
    var text := PrintTerms(l, n.children);
    assert Print(l, n, true) == [OPEN] + text + [CLOSE];
    GroupSplits([OPEN], text, s, pos);
    AtChar(s, pos, [OPEN], 0);
    TermsStart(l, n.children);
    SolidAt(l, text, s, pos + 1);
    TermsBlock(l, n.children, s, pos + 1);
    ParensBlock(l, s, pos);
  }

  lemma UnplainChild(l: Language, n: Node)
    requires (n.And? || n.Or?) && TermTree(l, n) && !PlainTexts(l, n)
    ensures n.children != [] && (forall c :: c in n.children ==> TermTree(l, c))
    ensures exists c :: c in n.children && !PlainTexts(l, c)
  {
  }

  lemma ParensBlock(l: Language, s: Text, pos: nat)
    requires Valid(l) && pos < |s| && s[pos] == OPEN && SkipSpaces(l, s, pos + 1) == pos + 1
    requires BlockedTerms(l, s, Repeat(l, s, pos + 1))
    ensures Blocked(l, s, pos, Term(l, s, pos))
  {
    hide Term, Repeat, Alternatives;
    var parens := Parens(l, s, pos);
    if parens.Throw? {
      TakesParens(l, s, pos);
      TermIs(l, s, pos);
    } else {
      OtherOpeners(l, s, pos);
      OpenerFails(l, s, pos);
    }
  }

  lemma {:induction false} OrBlocks(l: Language, n: Node, s: Text, pos: nat)
    requires Valid(l) && n.Or? && TermTree(l, n) && !PlainTexts(l, n) && At(s, pos, Print(l, n, true))
    ensures Blocked(l, s, pos, Term(l, s, pos))
    decreases n, 1
  {
    hide Term, Repeat, Stuck, Valid, At, PlainTexts;
    UnplainChild(l, n);
    var text := PrintTerms(l, n.children);
    assert Print(l, n, true) == [BAR, OPEN] + text + [CLOSE];
    GroupSplits([BAR, OPEN], text, s, pos);
    TermsStart(l, n.children);
    OrOpens(l, text, s, pos);
    TermsBlock(l, n.children, s, pos + 2);
    OrBlock(l, s, pos);
  }

  lemma OrBlock(l: Language, s: Text, pos: nat)
    requires Valid(l) && Peek(s, pos, BAR) && SkipSpaces(l, s, pos + 1) == pos + 1
    requires Peek(s, pos + 1, OPEN) && SkipSpaces(l, s, pos + 2) == pos + 2
    requires BlockedTerms(l, s, Repeat(l, s, pos + 2))
    ensures Blocked(l, s, pos, Term(l, s, pos))
  {
    hide Term, Repeat, Alternatives;
    if OrTerm(l, s, pos).Throw? {
      TakesOr(l, s, pos);
      TermIs(l, s, pos);
    } else {
      OtherOpeners(l, s, pos);
      OpenerFails(l, s, pos);
    }
  }

  lemma {:induction false} NotBlocks(l: Language, n: Node, s: Text, pos: nat)
    requires Valid(l) && n.Not? && TermTree(l, n) && !PlainTexts(l, n) && At(s, pos, Print(l, n, true))
    ensures Blocked(l, s, pos, Term(l, s, pos))
    decreases n, 1
  {
    hide Term, Stuck, Valid, At;
    var text := Print(l, n.child, true);
    assert Print(l, n, true) == [BANG] + text;
    AtSplit(s, pos, [BANG], text);
    AtChar(s, pos, [BANG], 0);
    PrintStarts(l, n.child);
    SolidAt(l, text, s, pos + 1);
    TermBlocks(l, n.child, s, pos + 1);
    NotBlock(l, s, pos);
  }

  lemma NotBlock(l: Language, s: Text, pos: nat)
    requires Valid(l) && pos < |s| && s[pos] == BANG && SkipSpaces(l, s, pos + 1) == pos + 1
    requires Blocked(l, s, pos + 1, Term(l, s, pos + 1))
    ensures Blocked(l, s, pos, Term(l, s, pos))
  {
    hide Term, Alternatives;
    if NotTerm(l, s, pos).Fail? {
      OtherOpeners(l, s, pos);
      OpenerFails(l, s, pos);
    } else {
      TakesNot(l, s, pos);
      TermIs(l, s, pos);
      if Term(l, s, pos + 1).Ok? {
        TermEndsSolid(l, s, pos + 1);
      }
    }
  }

  /** The spaces behind a term have been skipped. */
  lemma TermEndsSolid(l: Language, s: Text, pos: nat)
    requires pos <= |s| && Term(l, s, pos).Ok?
    ensures SkipSpaces(l, s, Term(l, s, pos).pos) == Term(l, s, pos).pos
  {
    hide Alternatives;
    TermIs(l, s, pos);
    var r := Alternatives(l, s, pos);
    SpacesTwice(l, s, r.pos);
  }

  lemma {:induction false} PropertyBlocks(l: Language, n: Node, s: Text, pos: nat)
    requires Valid(l) && n.Property? && TermTree(l, n) && !PlainTexts(l, n) && At(s, pos, Print(l, n, true))
    ensures Blocked(l, s, pos, Term(l, s, pos))
    decreases n, 1
  {
    hide Term, Stuck, Valid, At, FormatString, PlainText;
    var key, text := FormatString(l, n.name), Print(l, n.child, true);
    assert Print(l, n, true) == key + ([COLON] + text);
    if !PlainText(l, n.name) {
      NameBlocks(l, n.name, [COLON] + text, s, pos);
    } else {
      AtSplit(s, pos, key, [COLON] + text);
      AtSplit(s, pos + |key|, [COLON], text);
      AtChar(s, pos + |key|, [COLON], 0);
      PrintStarts(l, n.child);
      SolidAt(l, text, s, pos + |key| + 1);
      TermBlocks(l, n.child, s, pos + |key| + 1);
      PropertyBlock(l, n.name, s, pos);
    }
  }

  lemma PropertyBlock(l: Language, name: Text, s: Text, pos: nat)
    requires Valid(l) && PlainText(l, name) && At(s, pos, FormatString(l, name))
    requires var colon := pos + |FormatString(l, name)|;
      Peek(s, colon, COLON) && SkipSpaces(l, s, colon + 1) == colon + 1
        && Blocked(l, s, colon + 1, Term(l, s, colon + 1))
    ensures Blocked(l, s, pos, Term(l, s, pos))
  {
    hide Term, Alternatives, Stuck, FormatString, At;
    var colon := pos + |FormatString(l, name)|;
    KeyReads(l, name, s, pos);
    FormatIsNoSymbol(l, name, s, pos);
    if PropertyTerm(l, s, pos).Fail? {
      KeyIsValue(l, name, s, pos);
      ColonIsStuck(l, s, colon);
    } else {
      TakesProperty(l, s, pos);
      TermIs(l, s, pos);
      if Term(l, s, colon + 1).Ok? {
        TermEndsSolid(l, s, colon + 1);
      }
    }
  }

  lemma KeyReads(l: Language, name: Text, s: Text, pos: nat)
    requires Valid(l) && PlainText(l, name) && At(s, pos, FormatString(l, name))
    requires Peek(s, pos + |FormatString(l, name)|, COLON)
    ensures var colon := pos + |FormatString(l, name)|;
      PropertyName(l, s, pos) == Ok(colon, name) && SkipSpaces(l, s, colon) == colon
  {
    hide PropertyName, FormatString, At;
    assert COLON in SYMBOLS;
    NameReads(l, name, s, pos);
    NoSpaces(l, s, pos + |FormatString(l, name)|);
  }

  lemma ColonIsStuck(l: Language, s: Text, pos: nat)
    requires Valid(l) && Peek(s, pos, COLON)
    ensures Stuck(l, s, pos)
  {
    hide Stuck;
    assert COLON in SYMBOLS;
    NoTerm(l, s, pos);
  }

  /** A name in front of a colon is taken for a value when it cannot be a property. */
  lemma KeyIsValue(l: Language, name: Text, s: Text, pos: nat)
    requires Valid(l) && PlainText(l, name) && At(s, pos, FormatString(l, name))
    requires var colon := pos + |FormatString(l, name)|; Peek(s, colon, COLON)
    requires PropertyTerm(l, s, pos).Fail?
    ensures Term(l, s, pos).Ok? && Term(l, s, pos).pos == pos + |FormatString(l, name)|
  {
    hide Term, Alternatives, PropertyTerm, FormatString, At, PropertyName, ValueTerm;
    var colon := pos + |FormatString(l, name)|;
    KeyReads(l, name, s, pos);
    FormatIsNoSymbol(l, name, s, pos);
    NoSymbol(l, s, pos);
    NameIsValue(l, name, s, pos);
    LastAlternative(l, s, pos);
    TermIs(l, s, pos);
  }

  lemma LastAlternative(l: Language, s: Text, pos: nat)
    requires pos <= |s| && Parens(l, s, pos).Fail? && OrTerm(l, s, pos).Fail? && NotTerm(l, s, pos).Fail?
    requires ComparisonTerm(l, s, pos).Fail? && PropertyTerm(l, s, pos).Fail? && TruthyTerm(l, s, pos).Fail?
    ensures Alternatives(l, s, pos) == ValueTerm(l, s, pos)
  {
    hide Parens, OrTerm, NotTerm, ComparisonTerm, PropertyTerm, TruthyTerm, ValueTerm;
  }

  lemma NameIsValue(l: Language, name: Text, s: Text, pos: nat)
    requires Valid(l) && PlainText(l, name) && At(s, pos, FormatString(l, name))
    requires Peek(s, pos + |FormatString(l, name)|, COLON)
    ensures ValueTerm(l, s, pos).Ok? && ValueTerm(l, s, pos).pos == pos + |FormatString(l, name)|
  {
    hide At, RawText, AllRaw, FormatString;
    FormatCases(l, name);
    assert COLON in SYMBOLS && QUOTE in SYMBOLS;
    if Bare(l, name) {
      BareIsRaw(l, name, s, pos);
      NoQuote(s, pos, name);
      SpanIs(GlobChar(l), s, pos, pos + |name|);
    } else {
      QuotedReads(name, s, pos);
    }
  }

  lemma BareIsRaw(l: Language, v: Text, s: Text, pos: nat)
    requires PlainText(l, v) && Bare(l, v) && v != [] && At(s, pos, v)
    ensures l.raw(v[0]) && pos + |v| <= |s| && forall i :: pos <= i < pos + |v| ==> l.raw(s[i])
  {
    hide RawText;
    forall i | pos <= i < pos + |v| ensures l.raw(s[i]) {
      AtChar(s, pos, v, i - pos);
    }
  }

  lemma {:induction false} TermsBlock(l: Language, terms: seq<Node>, s: Text, pos: nat)
    requires Valid(l) && terms != [] && (forall c :: c in terms ==> TermTree(l, c))
    requires (exists c :: c in terms && !PlainTexts(l, c)) && At(s, pos, PrintTerms(l, terms))
    ensures BlockedTerms(l, s, Repeat(l, s, pos))
    decreases terms, 0
  {
    hide Term, Repeat, Print, TermTree, Valid, At, PlainTexts, Stuck;
    var first := Print(l, terms[0], true);
    var after := if |terms| == 1 then [] else [SPACE] + PrintTerms(l, terms[1..]);
    assert PrintTerms(l, terms) == first + after;
    AtSplit(s, pos, first, after);
    if !PlainTexts(l, terms[0]) {
      TermBlocks(l, terms[0], s, pos);
      FirstBlocks(l, s, pos);
    } else {
      var rest := PrintTerms(l, terms[1..]);
      var next := pos + |first| + 1;
      AtSplit(s, pos + |first|, [SPACE], rest);
      AtChar(s, pos + |first|, [SPACE], 0);
      TermsStart(l, terms[1..]);
      AtChar(s, next, rest, 0);
      TermReads(l, terms[0], s, pos);
      SpacesAfter(l, s, pos + |first|);
      TermsBlock(l, terms[1..], s, next);
      RestBlocks(l, terms[0], s, pos, next);
    }
  }

  lemma FirstBlocks(l: Language, s: Text, pos: nat)
    requires pos <= |s| && Blocked(l, s, pos, Term(l, s, pos))
    ensures BlockedTerms(l, s, Repeat(l, s, pos))
  {
    hide Term;
    if Term(l, s, pos).Ok? {
      assert Repeat(l, s, Term(l, s, pos).pos) == Ok(Term(l, s, pos).pos, []);
    }
  }

  lemma RestBlocks(l: Language, n: Node, s: Text, pos: nat, next: nat)
    requires pos < next <= |s| && Term(l, s, pos) == (if RawNumbers(l, n) then Ok(next, n) else Throw)
    requires BlockedTerms(l, s, Repeat(l, s, next))
    ensures BlockedTerms(l, s, Repeat(l, s, pos))
  {
    hide Term, RawNumbers, Stuck;
  }

  // ----- the round trip

  /**
   A tree comes back from its text exactly when its compared numbers are raw and the texts
   that it prints without quotes are made of raw units; otherwise the parser throws.
   */
  lemma RoundTripIff(l: Language, n: Node)
    requires Valid(l) && Tree(l, n)
    ensures var text := Print(l, n, false);
      if RawNumbers(l, n) && PlainTexts(l, n) then Parse(l, text) == Ok(|text|, n) else !Parse(l, text).Ok?
  {
    hide Term, Repeat, Valid, Print, PrintTerms, RawNumbers, PlainTexts, AllRawNumbers, Starter, TermTree, Stuck;
    var text := Print(l, n, false);
    if n == Null {
      NullPrints(l);
      RepeatEnds(l, text, 0);
    } else {
      var terms := if n.And? then n.children else [n];
      TopTerms(l, n, terms);
      TermsStart(l, terms);
      SolidAt(l, text, text, 0);
      if PlainTexts(l, n) {
        TermsRead(l, terms, text, 0);
      } else {
        TermsBlock(l, terms, text, 0);
        if Repeat(l, text, 0).Ok? {
          StuckInside(l, text, Repeat(l, text, 0));
        }
      }
    }
  }

  lemma StuckInside(l: Language, s: Text, r: Result<seq<Node>>)
    requires BlockedTerms(l, s, r) && r.Ok?
    ensures r.pos < |s|
  {
  }

  lemma NullPrints(l: Language)
    ensures Print(l, Null, false) == [] && RawNumbers(l, Null) && PlainTexts(l, Null)
  {
  }

  /** The terms of a whole text. */
  lemma TopTerms(l: Language, n: Node, terms: seq<Node>)
    requires Tree(l, n) && n != Null && terms == if n.And? then n.children else [n]
    ensures terms != [] && (forall c :: c in terms ==> TermTree(l, c))
    ensures n == if |terms| == 1 then terms[0] else And(terms)
    ensures PrintTerms(l, terms) == Print(l, n, false)
    ensures AllRawNumbers(l, terms) <==> RawNumbers(l, n)
    ensures (forall c :: c in terms ==> PlainTexts(l, c)) <==> PlainTexts(l, n)
  {
  }

  // ----- what the parser builds

  /** The parser only builds such trees. */
  lemma {:induction false} TermIsTree(l: Language, s: Text, pos: nat)
    requires Valid(l) && pos <= |s| && Term(l, s, pos).Ok?
    ensures TermTree(l, Term(l, s, pos).value)
    decreases |s| - pos, 2
  {
    hide Alternatives, SkipSpaces, Valid, TermTree;
    AlternativeIsTree(l, s, pos);
  }

  lemma {:induction false} TermsAreTrees(l: Language, s: Text, pos: nat, c: Node)
    requires Valid(l) && pos <= |s| && Repeat(l, s, pos).Ok? && c in Repeat(l, s, pos).value
    ensures TermTree(l, c)
    decreases |s| - pos, 3
  {
    hide Term, Valid, TermTree;
    var first := Term(l, s, pos);
    if c == first.value {
      TermIsTree(l, s, pos);
    } else {
      TermsAreTrees(l, s, first.pos, c);
    }
  }

  lemma {:induction false} AlternativeIsTree(l: Language, s: Text, pos: nat)
    requires Valid(l) && pos <= |s| && Alternatives(l, s, pos).Ok?
    ensures TermTree(l, Alternatives(l, s, pos).value)
    decreases |s| - pos, 1
  {
    hide Valid, Parens, OrTerm, NotTerm, PropertyTerm, ComparisonTerm, TruthyTerm, ValueTerm;
    if Parens(l, s, pos).Ok? {
      ParensIsTree(l, s, pos);
    }
    if OrTerm(l, s, pos).Ok? {
      OrIsTree(l, s, pos);
    }
    if NotTerm(l, s, pos).Ok? {
      NotIsTree(l, s, pos);
    }
    if PropertyTerm(l, s, pos).Ok? {
      PropertyIsTree(l, s, pos);
    }
    LeavesAreTrees(l, s, pos);
  }

  lemma ComparisonIsTree(l: Language, s: Text, pos: nat)
    requires Valid(l) && pos <= |s|
    ensures ComparisonTerm(l, s, pos).Ok? ==> TermTree(l, ComparisonTerm(l, s, pos).value)
  {
    hide GlobText, SkipSpaces, Span;
  }

  lemma ValueIsTree(l: Language, s: Text, pos: nat)
    requires pos <= |s|
    ensures ValueTerm(l, s, pos).Ok? ==> TermTree(l, ValueTerm(l, s, pos).value)
  {
    hide QuotedString;
    if ValueTerm(l, s, pos).Ok? && !QuotedString(s, pos).Ok? {
      GlobIsText(l, s, pos);
    }
  }

  lemma GlobIsText(l: Language, s: Text, pos: nat)
    requires pos <= |s| && GlobPattern(l, s, pos).Ok?
    ensures GlobText(l, GlobPattern(l, s, pos).value)
  {
    var text := GlobPattern(l, s, pos).value;
    forall i | 0 <= i < |text| ensures text[i] == STAR || l.raw(text[i]) {
      assert GlobChar(l)(s[pos + i]);
    }
  }

  lemma LeavesAreTrees(l: Language, s: Text, pos: nat)
    requires Valid(l) && pos <= |s|
    ensures ComparisonTerm(l, s, pos).Ok? ==> TermTree(l, ComparisonTerm(l, s, pos).value)
    ensures TruthyTerm(l, s, pos).Ok? ==> TermTree(l, TruthyTerm(l, s, pos).value)
    ensures ValueTerm(l, s, pos).Ok? ==> TermTree(l, ValueTerm(l, s, pos).value)
  {
    hide ComparisonTerm, ValueTerm, Valid;
    ComparisonIsTree(l, s, pos);
    ValueIsTree(l, s, pos);
  }

  lemma {:induction false} ParensIsTree(l: Language, s: Text, pos: nat)
    requires Valid(l) && pos <= |s| && Parens(l, s, pos).Ok?
    ensures TermTree(l, Parens(l, s, pos).value)
    decreases |s| - pos, 0
  {
    hide Repeat, Valid, Term;
    var open := SkipSpaces(l, s, pos + 1);
    forall c | c in Repeat(l, s, open).value ensures TermTree(l, c) {
      TermsAreTrees(l, s, open, c);
    }
  }

  lemma {:induction false} OrIsTree(l: Language, s: Text, pos: nat)
    requires Valid(l) && pos <= |s| && OrTerm(l, s, pos).Ok?
    ensures TermTree(l, OrTerm(l, s, pos).value)
    decreases |s| - pos, 0
  {
    hide Repeat, Valid, Term;
    var open := SkipSpaces(l, s, SkipSpaces(l, s, pos + 1) + 1);
    forall c | c in Repeat(l, s, open).value ensures TermTree(l, c) {
      TermsAreTrees(l, s, open, c);
    }
  }

  lemma {:induction false} NotIsTree(l: Language, s: Text, pos: nat)
    requires Valid(l) && pos <= |s| && NotTerm(l, s, pos).Ok?
    ensures TermTree(l, NotTerm(l, s, pos).value)
    decreases |s| - pos, 0
  {
    hide Term, Valid;
    TermIsTree(l, s, SkipSpaces(l, s, pos + 1));
  }

  lemma {:induction false} PropertyIsTree(l: Language, s: Text, pos: nat)
    requires Valid(l) && pos <= |s| && PropertyTerm(l, s, pos).Ok?
    ensures TermTree(l, PropertyTerm(l, s, pos).value)
    decreases |s| - pos, 0
  {
    hide Term, Valid, PropertyName;
    var name := PropertyName(l, s, pos);
    TermIsTree(l, s, SkipSpaces(l, s, SkipSpaces(l, s, name.pos) + 1));
  }

  lemma ParseIsTree(l: Language, s: Text)
    requires Valid(l) && Parse(l, s).Ok?
    ensures Tree(l, Parse(l, s).value)
  {
    hide Repeat, Valid;
    var start := SkipSpaces(l, s, 0);
    forall c | c in Repeat(l, s, start).value ensures TermTree(l, c) {
      TermsAreTrees(l, s, start, c);
    }
  }

  /** Printing is a normal form: whatever was parsed, its text parses to the same tree, or throws. */
  lemma PrintIsStable(l: Language, s: Text)
    requires Valid(l) && Parse(l, s).Ok?
    ensures var n := Parse(l, s).value; var text := Print(l, n, false);
      if RawNumbers(l, n) && PlainTexts(l, n) then Parse(l, text) == Ok(|text|, n) else !Parse(l, text).Ok?
  {
    hide Parse;
    ParseIsTree(l, s);
    RoundTripIff(l, Parse(l, s).value);
  }

  /** A tree that comes back is the only one with its text. */
  lemma PrintIsInjective(l: Language, n: Node, n': Node)
    requires Valid(l) && Tree(l, n) && Tree(l, n') && RawNumbers(l, n) && PlainTexts(l, n)
    requires Print(l, n, false) == Print(l, n', false)
    ensures n == n'
  {
    hide Parse, Print;
    RoundTripIff(l, n);
    RoundTripIff(l, n');
  }

  // ----- an instance

  predicate Digit(c: Unit) {
    0x30 <= c <= 0x39
  }

  predicate Digits(v: Text) {
    forall i :: 0 <= i < |v| ==> Digit(v[i])
  }

  function StripZeros(v: Text): Text {
    if |v| > 1 && v[0] == 0x30 then StripZeros(v[1..]) else v
  }

  const PLUS: Unit := 0x2B

  /** 1e21 and 1e+21 */
  const BIG: Text := [0x31, 0x65, 0x32, 0x31]
  const BIG_WRITTEN: Text := [0x31, 0x65, PLUS, 0x32, 0x31]

  /** A letter outside the basic plane, U+10428. */
  const DESERET: Text := [0xD801, 0xDC28]

  /** ASCII letters and digits and the Deseret letters; decimal integers and one number with an exponent. */
  function Sample(): Language {
    Language(
      (c: Unit) => Digit(c) || 0x61 <= c <= 0x7A || 0x41 <= c <= 0x5A || c in [0x5F, 0x2D, 0x2E, 0x24],
      (high: Unit, low: Unit) => high == 0xD801 && low <= 0xDC4F,
      (c: Unit) => c in [SPACE, 0x09, 0x0A, 0x0D],
      (v: Text) => if v == [] then Some([0x30])
           else if v == BIG || v == BIG_WRITTEN then Some(BIG_WRITTEN)
           else if Digits(v) then Some(StripZeros(v))
           else None)
  }

  lemma {:induction false} StrippedIsStable(v: Text)
    requires v != [] && Digits(v)
    ensures var t := StripZeros(v); t != [] && StripZeros(t) == t && Digits(t)
  {
    if |v| > 1 && v[0] == 0x30 {
      StrippedIsStable(v[1..]);
    }
  }

  lemma RawPrefixOfBig()
    ensures RawPrefix(Sample(), BIG_WRITTEN) == BIG_WRITTEN[..2] && !Digits(BIG_WRITTEN[..2])
  {
    SpanIs(Sample().raw, BIG_WRITTEN, 0, 2);
    assert BIG_WRITTEN[..2][1] == 0x65;
  }

  lemma SampleNumbers(v: Text)
    requires Sample().number(v).Some?
    ensures var t := Sample().number(v).value;
      && t != [] && Sample().number(t) == Some(t) && Digit(t[0])
      && (t == BIG_WRITTEN || AllRaw(Sample(), t))
    ensures QUOTE !in v && BACKSLASH !in v && STAR !in v
  {
    if v != [] && v != BIG && v != BIG_WRITTEN {
      StrippedIsStable(v);
      assert !Digits(BIG) && !Digits(BIG_WRITTEN) by {
        assert !Digit(BIG[1]) && !Digit(BIG_WRITTEN[1]);
      }
    }
  }

  lemma SampleUnits(c: Unit)
    ensures Sample().raw(c) ==> !Sample().space(c) && c !in SYMBOLS
    ensures c in SYMBOLS || IsHigh(c) || IsLow(c) ==> !Sample().space(c)
    ensures IsHigh(c) || IsLow(c) ==> !Sample().raw(c)
  {
  }

  /** What is asked of the host language can be met. */
  lemma SampleIsValid()
    ensures Valid(Sample())
  {
    hide Sample;
    var l := Sample();
    forall c: Unit
      ensures l.raw(c) ==> !l.space(c) && c !in SYMBOLS
      ensures c in SYMBOLS || IsHigh(c) || IsLow(c) ==> !l.space(c)
      ensures IsHigh(c) || IsLow(c) ==> !l.raw(c)
    {
      SampleUnits(c);
    }
    SampleBasics();
    forall v: Text | l.number(v).Some?
      ensures Canonical(l, l.number(v).value) && QUOTE !in v && BACKSLASH !in v && STAR !in v
    {
      SampleNumbers(v);
    }
    forall t: Text | Canonical(l, t)
      ensures t != [] && l.raw(t[0]) && (AllRaw(l, t) || l.number(RawPrefix(l, t)).None?)
    {
      SampleNumbers(t);
      RawPrefixOfBig();
    }
  }

  lemma SampleBasics()
    ensures Sample().space(SPACE) && Sample().number([]) == Some([0x30]) && Sample().number(BIG_WRITTEN[..2]).None?
    ensures forall c: Unit :: Digit(c) ==> Sample().raw(c)
  {
    assert BIG_WRITTEN[..2][1] == 0x65;
  }

  lemma OneTermParses(l: Language, s: Text, n: Node)
    requires Valid(l) && SkipSpaces(l, s, 0) == 0 && Term(l, s, 0) == Ok(|s|, n) && n != Null
    ensures Parse(l, s) == Ok(|s|, n)
  {
    hide Term;
    RepeatEnds(l, s, |s|);
    assert [n] + [] == [n];
  }

  lemma SampleValues()
    ensures Sample().number(DESERET).None? && RawText(Sample(), DESERET) && !AllRaw(Sample(), DESERET)
    ensures Sample().number(BIG) == Sample().number(BIG_WRITTEN) == Some(BIG_WRITTEN)
    ensures AllRaw(Sample(), BIG) && !AllRaw(Sample(), BIG_WRITTEN)
  {
    var l := Sample();
    assert DESERET[2..] == [];
    assert !l.raw(DESERET[0]) && !l.raw(BIG_WRITTEN[2]);
    assert !Digits(DESERET) by {
      assert !Digit(DESERET[0]);
    }
  }

  /** A letter outside the basic plane: it is parsed within quotes, printed without them, and not parsed again. */
  lemma PairDoesNotComeBack()
    ensures Parse(Sample(), [QUOTE] + DESERET + [QUOTE]) == Ok(4, Str(DESERET))
    ensures Print(Sample(), Str(DESERET), false) == DESERET && !Parse(Sample(), DESERET).Ok?
  {
    hide Sample, Term, Parse, RawText, AllRaw, Escape, SkipSpaces;
    var l, s := Sample(), [QUOTE] + DESERET + [QUOTE];
    SampleIsValid();
    SampleValues();
    NothingToEscape(DESERET);
    QuotedTermReads(l, DESERET, s, 0);
    NoSpaces(l, s, 0);
    NoSpaces(l, s, 4);
    OneTermParses(l, s, Str(DESERET));
    RoundTripIff(l, Str(DESERET));
  }

  /** A number that is written with an exponent: the text printed throws. */
  lemma BigNumberDoesNotComeBack()
    ensures Parse(Sample(), [MORE] + BIG) == Ok(5, Comparison([MORE], BIG_WRITTEN))
    ensures Print(Sample(), Comparison([MORE], BIG_WRITTEN), false) == [MORE] + BIG_WRITTEN
    ensures !Parse(Sample(), [MORE] + BIG_WRITTEN).Ok?
  {
    hide Sample, Term, Alternatives, Parse, AllRaw, SkipSpaces, RawString;
    var l, s, n := Sample(), [MORE] + BIG, Comparison([MORE], BIG_WRITTEN);
    SampleIsValid();
    SampleValues();
    RawReads(l, BIG, s, 1);
    TakesComparison(l, s, 0);
    TermIs(l, s, 0);
    NoSpaces(l, s, 0);
    NoSpaces(l, s, 5);
    OneTermParses(l, s, n);
    RoundTripIff(l, n);
  }
}
