/**
 The query language: its printer and its parser, a grammar with ordered alternatives.

 Positions are those of the source: a quoted string cut short by the end of the input right
 after a backslash leaves the position one past the end, where nothing matches any more.
 Regular expressions are not part of this model: the alternative fails.
 */
module ComplexMatcher {
  import opened Basics

  const OPEN: Unit := 0x28
  const CLOSE: Unit := 0x29
  const BAR: Unit := 0x7C
  const BANG: Unit := 0x21
  const LESS: Unit := 0x3C
  const EQUAL: Unit := 0x3D
  const MORE: Unit := 0x3E
  const COLON: Unit := 0x3A
  const QUERY: Unit := 0x3F
  const QUOTE: Unit := 0x22
  const BACKSLASH: Unit := 0x5C
  const STAR: Unit := 0x2A
  const SLASH: Unit := 0x2F
  const SPACE: Unit := 0x20

  /** What can open a term that is neither a name nor a value. */
  const OPENERS: Text := [OPEN, BAR, BANG, LESS, MORE]
  const OPERATORS: seq<Text> := [[LESS], [LESS, EQUAL], [MORE], [MORE, EQUAL]]

  /**
   The facts of the host language the code rests on: the test for a character that may be
   written without quotes, on a unit alone and on a surrogate pair, which units are white
   space, and `number`, which gives `String(+s)`, or None when `+s` is not a number.
   */
  datatype Language = Language(raw: Unit -> bool, rawPair: (Unit, Unit) -> bool, space: Unit -> bool,
                               number: Text -> Option<Text>)

  predicate IsHigh(c: Unit) {
    0xD800 <= c < 0xDC00
  }

  predicate IsLow(c: Unit) {
    0xDC00 <= c < 0xE000
  }

  const SYMBOLS: Text := [OPEN, CLOSE, BAR, BANG, LESS, MORE, EQUAL, COLON, QUERY, QUOTE, BACKSLASH, STAR, SLASH]

  predicate AllRaw(l: Language, v: Text) {
    forall i :: 0 <= i < |v| ==> l.raw(v[i])
  }

  /** The longest prefix of `v` made of raw characters. */
  function RawPrefix(l: Language, v: Text): Text {
    v[..Span(l.raw, v, 0)]
  }

  ghost predicate Valid(l: Language) {
    && (forall c :: l.raw(c) ==> !l.space(c) && c !in SYMBOLS)
    && (forall c :: c in SYMBOLS ==> !l.space(c))
    && l.space(SPACE)
    // half a surrogate pair has no case
    && (forall c :: IsHigh(c) || IsLow(c) ==> !l.raw(c) && !l.space(c))
    // the empty text is a number, and no number has a quote, a backslash or a star in it
    && l.number([]).Some?
    && (forall v :: l.number(v).Some?
         ==> Canonical(l, l.number(v).value) && QUOTE !in v && BACKSLASH !in v && STAR !in v)
    // a canonical number starts with a raw character; if it is not raw throughout ("1e+21"), what precedes is no number
    && (forall t :: Canonical(l, t) ==> t != [] && l.raw(t[0]) && (AllRaw(l, t) || l.number(RawPrefix(l, t)).None?))
  }

  /** `t` is the text of a number. */
  predicate Canonical(l: Language, t: Text) {
    l.number(t) == Some(t)
  }

  datatype Node =
    | Null
    | And(children: seq<Node>)
    | Or(children: seq<Node>)
    | Not(child: Node)
    | Property(name: Text, child: Node)
    | TruthyProperty(name: Text)
    | Str(value: Text)
    | NumberOrString(value: Text)
    | Glob(value: Text)
    | Comparison(operator: Text, number: Text)

  /** The constructors of `And` and `Or` return an only child as it is. */
  function NewAnd(children: seq<Node>): Node {
    if |children| == 1 then children[0] else And(children)
  }

  function NewOr(children: seq<Node>): Node {
    if |children| == 1 then children[0] else Or(children)
  }

  function NewGlob(value: Text): Node {
    if STAR in value then Glob(value) else Str(value)
  }

  // ----- the printer

  function Escape(v: Text): Text {
    if v == [] then []
    else (if v[0] == BACKSLASH || v[0] == QUOTE then [BACKSLASH, v[0]] else [v[0]]) + Escape(v[1..])
  }

  /** `isRawString`: it goes from one code point to the next, whereas the parser goes from unit to unit. */
  predicate RawText(l: Language, v: Text) {
    if v == [] then true
    else if |v| > 1 && IsHigh(v[0]) && IsLow(v[1]) then l.rawPair(v[0], v[1]) && RawText(l, v[2..])
    else l.raw(v[0]) && RawText(l, v[1..])
  }

  /** Written without quotes: neither a number nor in need of them. */
  predicate Bare(l: Language, v: Text) {
    l.number(v).None? && RawText(l, v)
  }

  function FormatString(l: Language, v: Text): Text {
    if l.number(v).None? then if RawText(l, v) then v else [QUOTE] + Escape(v) + [QUOTE]
    else [QUOTE] + v + [QUOTE]
  }

  function Print(l: Language, n: Node, nested: bool): Text
    decreases n, 1
  {
    match n
    case Null => []
    case And(children) => if nested then [OPEN] + PrintTerms(l, children) + [CLOSE] else PrintTerms(l, children)
    case Or(children) => [BAR, OPEN] + PrintTerms(l, children) + [CLOSE]
    case Not(child) => [BANG] + Print(l, child, true)
    case Property(name, child) => FormatString(l, name) + [COLON] + Print(l, child, true)
    case TruthyProperty(name) => FormatString(l, name) + [QUERY]
    case Str(value) => FormatString(l, value)
    case NumberOrString(value) => value
    case Glob(value) => value
    case Comparison(operator, number) => operator + number
  }

  function PrintTerms(l: Language, terms: seq<Node>): Text
    decreases terms, 0
  {
    if terms == [] then []
    else if |terms| == 1 then Print(l, terms[0], true)
    else Print(l, terms[0], true) + [SPACE] + PrintTerms(l, terms[1..])
  }

  // ----- the parser

  /** Throw: building a comparison with something that is not a number. */
  datatype Result<+T> = Ok(pos: nat, value: T) | Fail | Throw

  function Span(f: Unit -> bool, s: Text, pos: nat): (end: nat)
    requires pos <= |s|
    ensures pos <= end <= |s|
    ensures forall i :: pos <= i < end ==> f(s[i])
    ensures end < |s| ==> !f(s[end])
    decreases |s| - pos
  {
    if pos < |s| && f(s[pos]) then Span(f, s, pos + 1) else pos
  }

  predicate Peek(s: Text, pos: nat, c: Unit) {
    pos < |s| && s[pos] == c
  }

  function SkipSpaces(l: Language, s: Text, pos: nat): nat
    requires pos <= |s|
  {
    Span(l.space, s, pos)
  }

  function GlobChar(l: Language): Unit -> bool {
    (c: Unit) => c == STAR || l.raw(c)
  }

  function RawString(l: Language, s: Text, pos: nat): Result<Text>
    requires pos <= |s|
  {
    var end := Span(l.raw, s, pos);
    if end == pos then Fail else Ok(end, s[pos..end])
  }

  function GlobPattern(l: Language, s: Text, pos: nat): Result<Text>
    requires pos <= |s|
  {
    var end := Span(GlobChar(l), s, pos);
    if end == pos then Fail else Ok(end, s[pos..end])
  }

  /** What follows the opening quote: the position after the closing one and the characters in between. */
  function QuotedBody(s: Text, pos: nat): (r: (nat, Text))
    requires pos <= |s|
    ensures pos <= r.0 <= |s| + 1
    decreases |s| - pos
  {
    if pos == |s| then (pos, [])
    else if s[pos] == QUOTE then (pos + 1, [])
    else if s[pos] != BACKSLASH then
      var rest := QuotedBody(s, pos + 1);
      (rest.0, [s[pos]] + rest.1)
    else if pos + 1 < |s| then
      var rest := QuotedBody(s, pos + 2);
      (rest.0, [s[pos + 1]] + rest.1)
    else (pos + 2, [])
  }

  function QuotedString(s: Text, pos: nat): Result<Text> {
    if !Peek(s, pos, QUOTE) then Fail
    else
      var body := QuotedBody(s, pos + 1);
      Ok(body.0, body.1)
  }

  function PropertyName(l: Language, s: Text, pos: nat): (r: Result<Text>)
    requires pos <= |s|
    ensures r.Ok? ==> pos < r.pos <= |s| + 1
  {
    var quoted := QuotedString(s, pos);
    if quoted.Ok? then quoted else RawString(l, s, pos)
  }

  function Operator(s: Text, pos: nat): (operator: Text)
    ensures operator in [[]] + OPERATORS
  {
    if Peek(s, pos, LESS) || Peek(s, pos, MORE) then
      if Peek(s, pos + 1, EQUAL) then [s[pos], EQUAL] else [s[pos]]
    else []
  }

  function ComparisonTerm(l: Language, s: Text, pos: nat): (r: Result<Node>)
    requires pos <= |s|
    ensures r.Ok? ==> pos < r.pos <= |s|
  {
    var operator := Operator(s, pos);
    if operator == [] then Fail
    else
      match RawString(l, s, pos + |operator|)
      case Ok(end, text) =>
        if l.number(text).None? then Throw else Ok(end, Comparison(operator, l.number(text).value))
      case _ => Fail
  }

  function TruthyTerm(l: Language, s: Text, pos: nat): (r: Result<Node>)
    requires pos <= |s|
    ensures r.Ok? ==> pos < r.pos <= |s|
  {
    var name := PropertyName(l, s, pos);
    if name.Ok? && Peek(s, name.pos, QUERY) then Ok(name.pos + 1, TruthyProperty(name.value)) else Fail
  }

  function ValueTerm(l: Language, s: Text, pos: nat): (r: Result<Node>)
    requires pos <= |s|
    ensures r.Ok? ==> pos < r.pos <= |s| + 1
  {
    var quoted := QuotedString(s, pos);
    if quoted.Ok? then Ok(quoted.pos, Str(quoted.value))
    else
      match GlobPattern(l, s, pos)
      case Ok(end, text) => Ok(end, if l.number(text).None? then NewGlob(text) else NumberOrString(text))
      case _ => Fail
  }

  function Parens(l: Language, s: Text, pos: nat): (r: Result<Node>)
    requires pos <= |s|
    ensures r.Ok? ==> pos < r.pos <= |s|
    decreases |s| - pos, 0
  {
    if !Peek(s, pos, OPEN) then Fail
    else
      match Repeat1(l, s, SkipSpaces(l, s, pos + 1))
      case Ok(end, nodes) => if Peek(s, end, CLOSE) then Ok(end + 1, NewAnd(nodes)) else Fail
      case Fail => Fail
      case Throw => Throw
  }

  function OrTerm(l: Language, s: Text, pos: nat): (r: Result<Node>)
    requires pos <= |s|
    ensures r.Ok? ==> pos < r.pos <= |s|
    decreases |s| - pos, 0
  {
    if !Peek(s, pos, BAR) then Fail
    else
      var open := SkipSpaces(l, s, pos + 1);
      if !Peek(s, open, OPEN) then Fail
      else
        match Repeat1(l, s, SkipSpaces(l, s, open + 1))
        case Ok(end, nodes) => if Peek(s, end, CLOSE) then Ok(end + 1, NewOr(nodes)) else Fail
        case Fail => Fail
        case Throw => Throw
  }

  function NotTerm(l: Language, s: Text, pos: nat): (r: Result<Node>)
    requires pos <= |s|
    ensures r.Ok? ==> pos < r.pos <= |s|
    decreases |s| - pos, 0
  {
    if !Peek(s, pos, BANG) then Fail
    else
      match Term(l, s, SkipSpaces(l, s, pos + 1))
      case Ok(end, node) => Ok(end, Not(node))
      case Fail => Fail
      case Throw => Throw
  }

  function PropertyTerm(l: Language, s: Text, pos: nat): (r: Result<Node>)
    requires pos <= |s|
    ensures r.Ok? ==> pos < r.pos <= |s|
    decreases |s| - pos, 0
  {
    var name := PropertyName(l, s, pos);
    if !name.Ok? || name.pos > |s| then Fail
    else
      var colon := SkipSpaces(l, s, name.pos);
      if !Peek(s, colon, COLON) then Fail
      else
        match Term(l, s, SkipSpaces(l, s, colon + 1))
        case Ok(end, node) => Ok(end, Property(name.value, node))
        case Fail => Fail
        case Throw => Throw
  }

  /** The ordered alternatives: the first one that does not fail decides. */
  function Alternatives(l: Language, s: Text, pos: nat): (r: Result<Node>)
    requires pos <= |s|
    ensures r.Ok? ==> pos < r.pos <= |s| + 1
    decreases |s| - pos, 1
  {
    var parens := Parens(l, s, pos);
    if !parens.Fail? then parens else
    var or := OrTerm(l, s, pos);
    if !or.Fail? then or else
    var not := NotTerm(l, s, pos);
    if !not.Fail? then not else
    var comparison := ComparisonTerm(l, s, pos);
    if !comparison.Fail? then comparison else
    var property := PropertyTerm(l, s, pos);
    if !property.Fail? then property else
    var truthy := TruthyTerm(l, s, pos);
    if !truthy.Fail? then truthy else
    ValueTerm(l, s, pos)
  }

  function Term(l: Language, s: Text, pos: nat): (r: Result<Node>)
    requires pos <= |s|
    ensures r.Ok? ==> pos < r.pos <= |s|
    decreases |s| - pos, 2
  {
    match Alternatives(l, s, pos)
    case Ok(end, node) => if end <= |s| then Ok(SkipSpaces(l, s, end), node) else Fail
    case Fail => Fail
    case Throw => Throw
  }

  /** Every term consumes something, so the repetition ends. */
  function Repeat(l: Language, s: Text, pos: nat): (r: Result<seq<Node>>)
    requires pos <= |s|
    ensures !r.Fail? && (r.Ok? ==> pos <= r.pos <= |s|)
    decreases |s| - pos, 3
  {
    match Term(l, s, pos)
    case Fail => Ok(pos, [])
    case Throw => Throw
    case Ok(end, node) =>
      match Repeat(l, s, end)
      case Ok(end', nodes) => Ok(end', [node] + nodes)
      case Throw => Throw
  }

  function Repeat1(l: Language, s: Text, pos: nat): (r: Result<seq<Node>>)
    requires pos <= |s|
    ensures r.Ok? ==> pos < r.pos <= |s| && r.value != []
    decreases |s| - pos, 4
  {
    var r := Repeat(l, s, pos);
    if r.Ok? && r.value == [] then Fail else r
  }

  function Parse(l: Language, s: Text): Result<Node> {
    match Repeat(l, s, SkipSpaces(l, s, 0))
    case Ok(end, nodes) => if end < |s| then Fail else Ok(end, if nodes == [] then Null else NewAnd(nodes))
    case Throw => Throw
  }

  // ----- the loops of the source

  /** `isRawString`, as the loop over the code points. */
  method IsRawString(l: Language, v: Text) returns (raw: bool)
    ensures raw == RawText(l, v)
  {
    var i := 0;
    while i < |v|
      invariant i <= |v| && RawText(l, v) == RawText(l, v[i..])
    {
      if i + 1 < |v| && IsHigh(v[i]) && IsLow(v[i + 1]) {
        assert v[i..][2..] == v[i + 2..];
        if !l.rawPair(v[i], v[i + 1]) {
          return false;
        }
        i := i + 2;
      } else {
        assert v[i..][1..] == v[i + 1..];
        if !l.raw(v[i]) {
          return false;
        }
        i := i + 1;
      }
    }
    raw := true;
  }

  /** `rawString`, `globPattern`: the characters are accumulated one at a time. */
  method ReadWhile(f: Unit -> bool, s: Text, start: nat) returns (r: Result<Text>)
    requires start <= |s|
    ensures r == var end := Span(f, s, start); if end == start then Fail else Ok(end, s[start..end])
  {
    var pos, value := start, [];
    while pos < |s| && f(s[pos])
      invariant start <= pos <= |s|
      invariant value == s[start..pos]
      invariant Span(f, s, pos) == Span(f, s, start)
    {
      value := value + [s[pos]];
      pos := pos + 1;
    }
    r := if value == [] then Fail else Ok(pos, value);
  }

  /** The body opened at `start` has been read up to `pos`, giving `value` so far. */
  ghost predicate QuotedSoFar(s: Text, start: nat, pos: nat, value: Text, closed: bool)
    requires start <= |s|
  {
    && start <= pos <= |s| + 1
    && var body := QuotedBody(s, start);
       if closed || pos > |s| then body == (pos, value)
       else body.0 == QuotedBody(s, pos).0 && body.1 == value + QuotedBody(s, pos).1
  }

  lemma QuotedMore(s: Text, start: nat, pos: nat, value: Text)
    requires start <= pos < |s| && QuotedSoFar(s, start, pos, value, false)
    ensures
      if s[pos] == QUOTE then QuotedSoFar(s, start, pos + 1, value, true)
      else if s[pos] != BACKSLASH then QuotedSoFar(s, start, pos + 1, value + [s[pos]], false)
      else if pos + 1 < |s| then QuotedSoFar(s, start, pos + 2, value + [s[pos + 1]], false)
      else QuotedSoFar(s, start, pos + 2, value, false)
  {
    if s[pos] != QUOTE && s[pos] != BACKSLASH {
      assert value + ([s[pos]] + QuotedBody(s, pos + 1).1) == value + [s[pos]] + QuotedBody(s, pos + 1).1;
    } else if s[pos] == BACKSLASH && pos + 1 < |s| {
      assert value + ([s[pos + 1]] + QuotedBody(s, pos + 2).1) == value + [s[pos + 1]] + QuotedBody(s, pos + 2).1;
    } else {
      assert value + [] == value;
    }
  }

  lemma QuotedEnds(s: Text, start: nat, pos: nat, value: Text, closed: bool)
    requires start <= |s| && QuotedSoFar(s, start, pos, value, closed) && (closed || pos >= |s|)
    ensures QuotedBody(s, start) == (pos, value)
  {
    assert value + [] == value;
  }

  /** `quotedString`: a backslash lets the next character through, whatever it is. */
  method ReadQuoted(s: Text, start: nat) returns (r: Result<Text>)
    ensures r == QuotedString(s, start)
  {
    hide QuotedBody;
    if !(start < |s| && s[start] == QUOTE) {
      return Fail;
    }
    var pos, value, closed := start + 1, [], false;
    assert [] + QuotedBody(s, start + 1).1 == QuotedBody(s, start + 1).1;
    while pos < |s| && !closed
      invariant QuotedSoFar(s, start + 1, pos, value, closed)
      decreases |s| + 1 - pos, !closed
    {
      QuotedMore(s, start + 1, pos, value);
      var c := s[pos];
      pos := pos + 1;
      if c == QUOTE {
        closed := true;
      } else if c != BACKSLASH {
        value := value + [c];
      } else {
        // past the end the source reads `undefined`, which `join` renders as nothing
        if pos < |s| {
          value := value + [s[pos]];
        }
        pos := pos + 1;
      }
    }
    QuotedEnds(s, start + 1, pos, value, closed);
    r := Ok(pos, value);
  }

  /** `repeat`: first the `min` mandatory terms, then as many more as there are. */
  method ReadTerms(l: Language, s: Text, start: nat, min: nat) returns (r: Result<seq<Node>>)
    requires start <= |s| && min <= 1
    ensures r == if min == 0 then Repeat(l, s, start) else Repeat1(l, s, start)
  {
    var pos, nodes: seq<Node> := start, [];
    var i := 0;
    PrependNone(Repeat(l, s, start));
    while i < min
      invariant i == |nodes| <= min && start <= pos <= |s|
      invariant Repeat(l, s, start) == Prepend(nodes, Repeat(l, s, pos))
    {
      var t := Term(l, s, pos);
      match t
      case Fail => return Fail;
      case Throw => return Throw;
      case Ok(end, node) =>
        PrependMore(l, s, pos, nodes);
        i, nodes, pos := i + 1, nodes + [node], end;
    }
    var more := true;
    while more
      invariant start <= pos <= |s| && min <= |nodes|
      invariant Repeat(l, s, start) == Prepend(nodes, Repeat(l, s, pos))
      invariant !more ==> Term(l, s, pos).Fail?
      decreases |s| - pos, more
    {
      var t := Term(l, s, pos);
      match t
      case Fail => more := false;
      case Throw => return Throw;
      case Ok(end, node) =>
        PrependMore(l, s, pos, nodes);
        nodes, pos := nodes + [node], end;
    }
    r := Ok(pos, nodes);
    assert nodes + [] == nodes;
  }

  function Prepend(nodes: seq<Node>, r: Result<seq<Node>>): Result<seq<Node>> {
    match r
    case Ok(end, rest) => Ok(end, nodes + rest)
    case _ => r
  }

  lemma PrependNone(r: Result<seq<Node>>)
    ensures Prepend([], r) == r
  {
    assert r.Ok? ==> [] + r.value == r.value;
  }

  lemma PrependMore(l: Language, s: Text, pos: nat, nodes: seq<Node>)
    requires pos <= |s| && Term(l, s, pos).Ok?
    ensures var t := Term(l, s, pos);
      Prepend(nodes, Repeat(l, s, pos)) == Prepend(nodes + [t.value], Repeat(l, s, t.pos))
  {
    hide Term;
    var t := Term(l, s, pos);
    match Repeat(l, s, t.pos)
    case Ok(end, rest) => assert nodes + ([t.value] + rest) == nodes + [t.value] + rest;
    case _ =>
  }
}
