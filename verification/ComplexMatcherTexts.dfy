/** White space between the parts of a query, and the text of a whole query with most kinds of terms in it. */
module ComplexMatcherTexts {
  import opened Basics
  import opened ComplexMatcher
  import opened ComplexMatcherRoundTrip

  // ----- white space

  /** White space from `p` up to `q` and no further; there may be none. */
  ghost predicate Gap(l: Language, s: Text, p: nat, q: nat) {
    p <= q <= |s| && (forall i :: p <= i < q ==> l.space(s[i])) && (q < |s| ==> !l.space(s[q]))
  }

  lemma GapIsSkipped(l: Language, s: Text, p: nat, q: nat)
    requires Gap(l, s, p, q)
    ensures SkipSpaces(l, s, p) == q
  {
    SpanIs(l.space, s, p, q);
  }

  /** Around the colon of a property. */
  lemma SpacesInProperty(l: Language, s: Text, pos: nat, name: Text, p: nat, colon: nat, r: nat, child: Node, end: nat)
    requires pos <= |s| && PropertyName(l, s, pos) == Ok(p, name) && Gap(l, s, p, colon) && Peek(s, colon, COLON)
    requires Gap(l, s, colon + 1, r) && Term(l, s, r) == Ok(end, child)
    ensures PropertyTerm(l, s, pos) == Ok(end, Property(name, child))
  {
    hide Term, PropertyName, SkipSpaces;
    GapIsSkipped(l, s, p, colon);
    GapIsSkipped(l, s, colon + 1, r);
  }

  /** Behind a negation. */
  lemma SpacesInNot(l: Language, s: Text, pos: nat, r: nat, child: Node, end: nat)
    requires Peek(s, pos, BANG) && Gap(l, s, pos + 1, r) && Term(l, s, r) == Ok(end, child)
    ensures NotTerm(l, s, pos) == Ok(end, Not(child))
  {
    hide Term, SkipSpaces;
    GapIsSkipped(l, s, pos + 1, r);
  }

  /** Behind an opening parenthesis; each term takes the white space behind it. */
  lemma SpacesInParens(l: Language, s: Text, pos: nat, r: nat, terms: seq<Node>, end: nat)
    requires Peek(s, pos, OPEN) && Gap(l, s, pos + 1, r)
    requires Repeat(l, s, r) == Ok(end, terms) && terms != [] && Peek(s, end, CLOSE)
    ensures Parens(l, s, pos) == Ok(end + 1, NewAnd(terms))
  {
    hide Repeat, SkipSpaces;
    GapIsSkipped(l, s, pos + 1, r);
  }

  /** Between the bar and the parenthesis, and behind it. */
  lemma SpacesInOr(l: Language, s: Text, pos: nat, open: nat, r: nat, terms: seq<Node>, end: nat)
    requires Peek(s, pos, BAR) && Gap(l, s, pos + 1, open) && Peek(s, open, OPEN) && Gap(l, s, open + 1, r)
    requires Repeat(l, s, r) == Ok(end, terms) && terms != [] && Peek(s, end, CLOSE)
    ensures OrTerm(l, s, pos) == Ok(end + 1, NewOr(terms))
  {
    hide Repeat, SkipSpaces;
    GapIsSkipped(l, s, pos + 1, open);
    GapIsSkipped(l, s, open + 1, r);
  }

  /** Behind a term. */
  lemma SpacesBehindTerm(l: Language, s: Text, pos: nat, end: nat, q: nat, node: Node)
    requires pos <= |s| && Alternatives(l, s, pos) == Ok(end, node) && Gap(l, s, end, q)
    ensures Term(l, s, pos) == Ok(q, node)
  {
    hide Alternatives, SkipSpaces;
    GapIsSkipped(l, s, end, q);
  }

  /** Before the first term. */
  lemma SpacesBeforeAll(l: Language, s: Text, q: nat, terms: seq<Node>)
    requires Gap(l, s, 0, q) && Repeat(l, s, q) == Ok(|s|, terms) && terms != []
    ensures Parse(l, s) == Ok(|s|, NewAnd(terms))
  {
    hide Repeat, SkipSpaces;
    GapIsSkipped(l, s, 0, q);
  }

  // ----- a whole query

  /** ASCII text in units. */
  function Of(s: string): (t: Text)
    requires forall i :: 0 <= i < |s| ==> s[i] < '\U{0080}'
    ensures |t| == |s|
  {
    seq(|s|, i requires 0 <= i < |s| => s[i] as int)
  }

  predicate Ascii(s: string) {
    forall i :: 0 <= i < |s| ==> s[i] < '\U{0080}'
  }

  predicate IsWord(s: string) {
    s != "" && forall i :: 0 <= i < |s| ==> 'a' <= s[i] <= 'z' || 'A' <= s[i] <= 'Z'
  }

  lemma WordIsPrinted(w: string)
    requires IsWord(w)
    ensures Ascii(w) && AllRaw(Sample(), Of(w)) && FormatString(Sample(), Of(w)) == Of(w)
    ensures Bare(Sample(), Of(w)) && Sample().number(Of(w)).None?
  {
    var l, v := Sample(), Of(w);
    assert !Digit(v[0]);
    assert v != BIG && v != BIG_WRITTEN by {
      assert BIG[0] == 0x31 && BIG_WRITTEN[0] == 0x31;
    }
    UnitsAreRawText(l, v);
  }

  lemma {:induction false} UnitsAreRawText(l: Language, v: Text)
    requires AllRaw(l, v) && forall i :: 0 <= i < |v| ==> !IsHigh(v[i])
    ensures RawText(l, v)
  {
    if v != [] {
      UnitsAreRawText(l, v[1..]);
    }
  }

  /** The query of the tests, without its regular expression. */
  function Query(): Node {
    And([Str(Of("foo")),
         Not(Str(Of("\\ \""))),
         Property(Of("name"), Or([Str(Of("wonderwoman")), Str(Of("batman"))])),
         TruthyProperty(Of("hasCape")),
         Property(Of("age"), NumberOrString(Of("32"))),
         Glob(Of("chi*go"))])
  }

  const NOT_TEXT: string := "!\"\\\\ \\\"\""
  const NAME_TEXT: string := "name" + ":|(" + "wonderwoman" + " " + "batman" + ")"
  const QUERY_TEXT: string :=
    "foo" + (" " + (NOT_TEXT + (" " + (NAME_TEXT + (" " + ("hasCape?" + (" " + ("age:32" + (" " + "chi*go")))))))))

  lemma NotIsPrinted()
    ensures Print(Sample(), Not(Str(Of("\\ \""))), true) == Of(NOT_TEXT)
  {
    var l, v := Sample(), Of("\\ \"");
    assert v == [BACKSLASH, SPACE, QUOTE];
    assert !Digits(v) by {
      assert !Digit(v[0]);
    }
    assert !RawText(l, v);
    assert v[1..] == [SPACE, QUOTE] && v[1..][1..] == [QUOTE] && [QUOTE][1..] == [];
    assert Escape([QUOTE]) == [BACKSLASH, QUOTE] + [];
    assert Escape(v[1..]) == [SPACE] + Escape([QUOTE]);
    assert Escape(v) == [BACKSLASH, BACKSLASH] + Escape(v[1..]);
    assert Escape(v) == [BACKSLASH, BACKSLASH, SPACE, BACKSLASH, QUOTE];
    assert Of(NOT_TEXT) == [BANG, QUOTE, BACKSLASH, BACKSLASH, SPACE, BACKSLASH, QUOTE, QUOTE];
  }

  lemma TwoTerms(l: Language, a: Node, b: Node)
    ensures PrintTerms(l, [a, b]) == Print(l, a, true) + [SPACE] + Print(l, b, true)
  {
    assert [a, b][1..] == [b];
  }

  lemma AlternativesArePrinted(l: Language, name: Text, a: Text, b: Text)
    requires FormatString(l, name) == name && FormatString(l, a) == a && FormatString(l, b) == b
    ensures Print(l, Property(name, Or([Str(a), Str(b)])), true)
         == name + [COLON] + ([BAR, OPEN] + (a + [SPACE] + b) + [CLOSE])
  {
    hide FormatString;
    TwoTerms(l, Str(a), Str(b));
  }

  lemma NameText()
    ensures Ascii(NAME_TEXT)
    ensures Of(NAME_TEXT)
         == Of("name") + [COLON] + ([BAR, OPEN] + (Of("wonderwoman") + [SPACE] + Of("batman")) + [CLOSE])
  {
  }

  lemma PropertyIsPrinted()
    ensures Ascii(NAME_TEXT)
    ensures Print(Sample(), Property(Of("name"), Or([Str(Of("wonderwoman")), Str(Of("batman"))])), true)
         == Of(NAME_TEXT)
  {
    hide FormatString, Sample, Print, Of, Bare, AllRaw;
    WordIsPrinted("name");
    WordIsPrinted("wonderwoman");
    WordIsPrinted("batman");
    AlternativesArePrinted(Sample(), Of("name"), Of("wonderwoman"), Of("batman"));
    NameText();
  }

  lemma OthersText()
    ensures Of("hasCape?") == Of("hasCape") + [QUERY] && Of("age:32") == Of("age") + [COLON] + Of("32")
  {
    assert "hasCape?" == "hasCape" + "?" && "age:32" == "age" + ":" + "32";
  }

  lemma OthersArePrinted()
    ensures Print(Sample(), TruthyProperty(Of("hasCape")), true) == Of("hasCape?")
    ensures Print(Sample(), Property(Of("age"), NumberOrString(Of("32"))), true) == Of("age:32")
    ensures Print(Sample(), Str(Of("foo")), true) == Of("foo")
  {
    hide FormatString, Sample, Of, Bare, AllRaw;
    WordIsPrinted("hasCape");
    WordIsPrinted("age");
    WordIsPrinted("foo");
    OthersText();
  }

  lemma SixTerms(l: Language, ts: seq<Node>)
    requires |ts| == 6
    ensures PrintTerms(l, ts) ==
      Print(l, ts[0], true) + [SPACE] + (Print(l, ts[1], true) + [SPACE] + (Print(l, ts[2], true) + [SPACE]
        + (Print(l, ts[3], true) + [SPACE] + (Print(l, ts[4], true) + [SPACE] + Print(l, ts[5], true)))))
  {
    hide Print;
    var r1, r2, r3 := ts[1..], ts[2..], ts[3..];
    assert r1[1..] == r2 && r2[1..] == r3 && r3[1..] == ts[4..] && ts[4..] == [ts[4], ts[5]];
    TwoTerms(l, ts[4], ts[5]);
    assert PrintTerms(l, r3) == Print(l, ts[3], true) + [SPACE] + PrintTerms(l, ts[4..]);
    assert PrintTerms(l, r2) == Print(l, ts[2], true) + [SPACE] + PrintTerms(l, r3);
    assert PrintTerms(l, r1) == Print(l, ts[1], true) + [SPACE] + PrintTerms(l, r2);
  }

  lemma SpacedText(a: string, b: string)
    requires Ascii(a) && Ascii(b)
    ensures Ascii(a + (" " + b)) && Of(a + (" " + b)) == Of(a) + [SPACE] + Of(b)
  {
  }

  lemma QueryText()
    ensures Ascii(QUERY_TEXT)
    ensures Of(QUERY_TEXT) ==
      Of("foo") + [SPACE] + (Of(NOT_TEXT) + [SPACE] + (Of(NAME_TEXT) + [SPACE]
        + (Of("hasCape?") + [SPACE] + (Of("age:32") + [SPACE] + Of("chi*go")))))
  {
    hide Of;
    NameText();
    SpacedText("age:32", "chi*go");
    var last := "age:32" + (" " + "chi*go");
    SpacedText("hasCape?", last);
    SpacedText(NAME_TEXT, "hasCape?" + (" " + last));
    SpacedText(NOT_TEXT, NAME_TEXT + (" " + ("hasCape?" + (" " + last))));
    SpacedText("foo", NOT_TEXT + (" " + (NAME_TEXT + (" " + ("hasCape?" + (" " + last))))));
  }

  /** It is printed as the tests have it: no parentheses around the whole, quotes only where they are needed. */
  lemma QueryIsPrinted()
    ensures Ascii(QUERY_TEXT) && Print(Sample(), Query(), false) == Of(QUERY_TEXT)
  {
    hide FormatString, Sample, Of, PrintTerms;
    NotIsPrinted();
    PropertyIsPrinted();
    OthersArePrinted();
    SixTerms(Sample(), Query().children);
    QueryText();
  }

  lemma QueryIsTree()
    ensures Tree(Sample(), Query()) && RawNumbers(Sample(), Query()) && PlainTexts(Sample(), Query())
  {
    hide FormatString, RawText, AllRaw, Bare, Of, Sample;
    WordIsPrinted("foo");
    WordIsPrinted("name");
    WordIsPrinted("wonderwoman");
    WordIsPrinted("batman");
    WordIsPrinted("hasCape");
    WordIsPrinted("age");
    NotBare();
    ValuesAreTrees();
    NamesAreTree(Sample(), Of("wonderwoman"), Of("batman"));
    forall c | c in Query().children
      ensures TermTree(Sample(), c) && RawNumbers(Sample(), c) && PlainTexts(Sample(), c)
    {
    }
  }

  lemma NamesAreTree(l: Language, a: Text, b: Text)
    requires PlainText(l, a) && PlainText(l, b)
    ensures var names := Or([Str(a), Str(b)]); TermTree(l, names) && RawNumbers(l, names) && PlainTexts(l, names)
  {
  }

  lemma NotBare()
    ensures !Bare(Sample(), Of("\\ \""))
  {
    assert Of("\\ \"")[0] == BACKSLASH;
  }

  lemma ValuesAreTrees()
    ensures TermTree(Sample(), NumberOrString(Of("32"))) && TermTree(Sample(), Glob(Of("chi*go")))
  {
    var l, n, g := Sample(), Of("32"), Of("chi*go");
    assert n == [0x33, 0x32] && g == [0x63, 0x68, 0x69, 0x2A, 0x67, 0x6F];
    assert !Digit(g[0]);
    assert STAR in g by {
      assert g[3] == STAR;
    }
  }

  /** ... and parsed as they have it. */
  lemma QueryIsParsed()
    ensures Ascii(QUERY_TEXT) && Parse(Sample(), Of(QUERY_TEXT)) == Ok(|QUERY_TEXT|, Query())
  {
    hide Sample, Print, Parse, Tree, RawNumbers, PlainTexts;
    SampleIsValid();
    QueryIsTree();
    QueryIsPrinted();
    RoundTripIff(Sample(), Query());
  }

  // ----- two units for one code point

  function CodePoint(high: Unit, low: Unit): int {
    0x1_0000 + (high as int - 0xD800) * 0x400 + (low as int - 0xDC00)
  }

  /** The pairs stand for the code points outside the basic plane, each for one, and for all of them. */
  lemma PairsAreCodePoints(high: Unit, low: Unit)
    requires IsHigh(high) && IsLow(low)
    ensures 0x1_0000 <= CodePoint(high, low) <= 0x10_FFFF
    ensures forall h, l :: IsHigh(h) && IsLow(l) && CodePoint(h, l) == CodePoint(high, low) ==> h == high && l == low
  {
  }

  lemma CodePointHasPair(c: int) returns (high: Unit, low: Unit)
    requires 0x1_0000 <= c <= 0x10_FFFF
    ensures IsHigh(high) && IsLow(low) && CodePoint(high, low) == c
  {
    high, low := 0xD800 + (c - 0x1_0000) / 0x400, 0xDC00 + (c - 0x1_0000) % 0x400;
  }

  // ----- the other cases of the tests

  predicate Returns(text: string, node: Node) {
    Ascii(text) && Parse(Sample(), Of(text)) == Ok(|text|, node) && Print(Sample(), node, false) == Of(text)
  }

  lemma OneTermReturns(text: string, node: Node)
    requires Ascii(text) && Tree(Sample(), node) && RawNumbers(Sample(), node) && PlainTexts(Sample(), node)
    requires Print(Sample(), node, false) == Of(text)
    ensures Returns(text, node)
  {
    hide Sample, Print, Parse, Tree, RawNumbers, PlainTexts;
    SampleIsValid();
    RoundTripIff(Sample(), node);
  }

  /** The four comparisons. */
  lemma ComparisonsReturn()
    ensures Returns(">42", Comparison(Of(">"), Of("42"))) && Returns(">=42", Comparison(Of(">="), Of("42")))
    ensures Returns("<42", Comparison(Of("<"), Of("42"))) && Returns("<=42", Comparison(Of("<="), Of("42")))
  {
    hide Returns;
    ComparisonReturns(">");
    ComparisonReturns(">=");
    ComparisonReturns("<");
    ComparisonReturns("<=");
    assert ">" + "42" == ">42" && ">=" + "42" == ">=42" && "<" + "42" == "<42" && "<=" + "42" == "<=42";
  }

  lemma ComparisonReturns(operator: string)
    requires operator in {">", ">=", "<", "<="}
    ensures Returns(operator + "42", Comparison(Of(operator), Of("42")))
  {
    hide Returns, Parse;
    var n := Of("42");
    assert n == [0x34, 0x32];
    assert Of(">") == [MORE] && Of(">=") == [MORE, EQUAL] && Of("<") == [LESS] && Of("<=") == [LESS, EQUAL];
    assert Of(operator) in OPERATORS;
    assert Of(operator + "42") == Of(operator) + n;
    OneTermReturns(operator + "42", Comparison(Of(operator), n));
  }

  /** Without quotes it is a number or a string, with quotes a string. */
  lemma NumbersAndStringsReturn()
    ensures Returns("32", NumberOrString(Of("32"))) && Returns("\"32\"", Str(Of("32"))) && Returns("", Null)
  {
    hide Returns, Parse, RawText;
    ValuesAreTrees();
    OneTermReturns("32", NumberOrString(Of("32")));
    OneTermReturns("", Null);
    var v := Of("32");
    assert v == [0x33, 0x32];
    assert Of("\"32\"") == [QUOTE] + v + [QUOTE];
    OneTermReturns("\"32\"", Str(v));
  }

  /** A nested conjunction keeps its parentheses. */
  lemma NestedReturns()
    ensures Returns("!(foo bar)", Not(And([Str(Of("foo")), Str(Of("bar"))])))
  {
    hide FormatString, RawText, AllRaw, Bare, Sample, Returns;
    WordIsPrinted("foo");
    WordIsPrinted("bar");
    var l, terms := Sample(), [Str(Of("foo")), Str(Of("bar"))];
    TwoTerms(l, terms[0], terms[1]);
    assert Of("!(foo bar)") == [BANG] + ([OPEN] + (Of("foo") + [SPACE] + Of("bar")) + [CLOSE]) by {
      assert "!(foo bar)" == "!(" + "foo" + " " + "bar" + ")";
    }
    assert forall c :: c in terms ==> TermTree(l, c) && RawNumbers(l, c) && PlainTexts(l, c);
    OneTermReturns("!(foo bar)", Not(And(terms)));
  }
}
