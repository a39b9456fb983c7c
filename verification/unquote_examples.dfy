/**
 * The unquoting cases of the parser's unit tests
 * (tests/Unit/Core/Parser/TemplateParserTest.php, lines 211-216). Each
 * expected text is cut at its quotes and backslashes into pieces; the input
 * is those pieces escaped one by one and put between quotes, so the
 * round-trip lemmas of `Quoting` give the expected result.
 */
module UnquoteExamples {
  import opened Texts
  import opened Quoting

  /** Line 211: `"no quotes here"` unquotes to `no quotes here`. */
  const Input1: string := Concat(["\"", "no quotes here", "\""])
  const Expected1: string := Concat(["no quotes here"])
  const Text1: seq<Piece> := [Run("no quotes here")]

  lemma EscapedPieces1()
    ensures EscapeEach('"', Text1) == ["no quotes here"]
  {
  }

  lemma InputIsEscaped1()
    ensures Input1 == Concat([['"']] + EscapeEach('"', Text1) + [['"']])
  {
    EscapedPieces1();
    assert [['"']] + ["no quotes here"] + [['"']] == ["\"", "no quotes here", "\""];
  }

  lemma ExpectedIsText1()
    ensures Expected1 == Concat(TextEach('"', Text1))
  {
    assert TextEach('"', Text1) == ["no quotes here"];
  }

  lemma PlainRuns1()
    ensures PlainRuns('"', Text1)
  {
    assert Plain('"', "no quotes here");
  }

  lemma UnquotePieces1()
    ensures Unquote(Concat([['"']] + EscapeEach('"', Text1) + [['"']])) == Concat(TextEach('"', Text1))
  {
    PlainRuns1();
    UnquoteQuotedPieces('"', Text1);
  }

  lemma UnquoteExample1()
    ensures Unquote(Input1) == Expected1
  {
    InputIsEscaped1();
    ExpectedIsText1();
    UnquotePieces1();
  }

  /** Line 212: `'no quotes here'` unquotes to `no quotes here`. */
  const Input2: string := Concat(["'", "no quotes here", "'"])
  const Expected2: string := Concat(["no quotes here"])
  const Text2: seq<Piece> := [Run("no quotes here")]

  lemma EscapedPieces2()
    ensures EscapeEach('\'', Text2) == ["no quotes here"]
  {
  }

  lemma InputIsEscaped2()
    ensures Input2 == Concat([['\'']] + EscapeEach('\'', Text2) + [['\'']])
  {
    EscapedPieces2();
    assert [['\'']] + ["no quotes here"] + [['\'']] == ["'", "no quotes here", "'"];
  }

  lemma ExpectedIsText2()
    ensures Expected2 == Concat(TextEach('\'', Text2))
  {
    assert TextEach('\'', Text2) == ["no quotes here"];
  }

  lemma PlainRuns2()
    ensures PlainRuns('\'', Text2)
  {
    assert Plain('\'', "no quotes here");
  }

  lemma UnquotePieces2()
    ensures Unquote(Concat([['\'']] + EscapeEach('\'', Text2) + [['\'']])) == Concat(TextEach('\'', Text2))
  {
    PlainRuns2();
    UnquoteQuotedPieces('\'', Text2);
  }

  lemma UnquoteExample2()
    ensures Unquote(Input2) == Expected2
  {
    InputIsEscaped2();
    ExpectedIsText2();
    UnquotePieces2();
  }

  /** Line 213: `'this "string" had \'quotes\' in it'` unquotes to `this "string" had 'quotes' in it`. */
  const Input3: string := Concat(["'", "this \"string\" had ", "\\'", "quotes", "\\'", " in it", "'"])
  const Expected3: string := Concat(["this \"string\" had ", "'", "quotes", "'", " in it"])
  const Text3: seq<Piece> := [Run("this \"string\" had "), QuoteMark, Run("quotes"), QuoteMark, Run(" in it")]

  lemma EscapedPieces3()
    ensures EscapeEach('\'', Text3) == ["this \"string\" had ", "\\'", "quotes", "\\'", " in it"]
  {
  }

  lemma InputIsEscaped3()
    ensures Input3 == Concat([['\'']] + EscapeEach('\'', Text3) + [['\'']])
  {
    EscapedPieces3();
    assert [['\'']] + ["this \"string\" had ", "\\'", "quotes", "\\'", " in it"] + [['\'']] == ["'", "this \"string\" had ", "\\'", "quotes", "\\'", " in it", "'"];
  }

  lemma ExpectedIsText3()
    ensures Expected3 == Concat(TextEach('\'', Text3))
  {
    assert TextEach('\'', Text3) == ["this \"string\" had ", "'", "quotes", "'", " in it"];
  }

  lemma PlainRuns3()
    ensures PlainRuns('\'', Text3)
  {
    assert Plain('\'', "this \"string\" had ");
    assert Plain('\'', "quotes");
    assert Plain('\'', " in it");
  }

  lemma UnquotePieces3()
    ensures Unquote(Concat([['\'']] + EscapeEach('\'', Text3) + [['\'']])) == Concat(TextEach('\'', Text3))
  {
    PlainRuns3();
    UnquoteQuotedPieces('\'', Text3);
  }

  lemma UnquoteExample3()
    ensures Unquote(Input3) == Expected3
  {
    InputIsEscaped3();
    ExpectedIsText3();
    UnquotePieces3();
  }

  /** Line 214: `"this \"string\" had 'quotes' in it"` unquotes to `this "string" had 'quotes' in it`. */
  const Input4: string := Concat(["\"", "this ", "\\\"", "string", "\\\"", " had 'quotes' in it", "\""])
  const Expected4: string := Concat(["this ", "\"", "string", "\"", " had 'quotes' in it"])
  const Text4: seq<Piece> := [Run("this "), QuoteMark, Run("string"), QuoteMark, Run(" had 'quotes' in it")]

  lemma EscapedPieces4()
    ensures EscapeEach('"', Text4) == ["this ", "\\\"", "string", "\\\"", " had 'quotes' in it"]
  {
  }

  lemma InputIsEscaped4()
    ensures Input4 == Concat([['"']] + EscapeEach('"', Text4) + [['"']])
  {
    EscapedPieces4();
    assert [['"']] + ["this ", "\\\"", "string", "\\\"", " had 'quotes' in it"] + [['"']] == ["\"", "this ", "\\\"", "string", "\\\"", " had 'quotes' in it", "\""];
  }

  lemma ExpectedIsText4()
    ensures Expected4 == Concat(TextEach('"', Text4))
  {
    assert TextEach('"', Text4) == ["this ", "\"", "string", "\"", " had 'quotes' in it"];
  }

  lemma PlainRuns4()
    ensures PlainRuns('"', Text4)
  {
    assert Plain('"', "this ");
    assert Plain('"', "string");
    assert Plain('"', " had 'quotes' in it");
  }

  lemma UnquotePieces4()
    ensures Unquote(Concat([['"']] + EscapeEach('"', Text4) + [['"']])) == Concat(TextEach('"', Text4))
  {
    PlainRuns4();
    UnquoteQuotedPieces('"', Text4);
  }

  lemma UnquoteExample4()
    ensures Unquote(Input4) == Expected4
  {
    InputIsEscaped4();
    ExpectedIsText4();
    UnquotePieces4();
  }

  /** Line 215: `"a weird \"string\" 'with' *freaky* \\stuff`, which lacks its closing quote, unquotes to `a weird "string" 'with' *freaky* \stuff`. */
  const Input5: string := Concat(["\"", "a weird ", "\\\"", "string", "\\\"", " 'with' *freaky* ", "\\\\", "stuff"])
  const Expected5: string := Concat(["a weird ", "\"", "string", "\"", " 'with' *freaky* ", "\\", "stuff"])
  const Text5: seq<Piece> := [Run("a weird "), QuoteMark, Run("string"), QuoteMark, Run(" 'with' *freaky* "), BackslashMark, Run("stuff")]

  lemma EscapedPieces5()
    ensures EscapeEach('"', Text5) == ["a weird ", "\\\"", "string", "\\\"", " 'with' *freaky* ", "\\\\", "stuff"]
  {
  }

  lemma InputIsEscaped5()
    ensures Input5 == Concat([['"']] + EscapeEach('"', Text5))
  {
    EscapedPieces5();
    assert [['"']] + ["a weird ", "\\\"", "string", "\\\"", " 'with' *freaky* ", "\\\\", "stuff"] == ["\"", "a weird ", "\\\"", "string", "\\\"", " 'with' *freaky* ", "\\\\", "stuff"];
  }

  lemma ExpectedIsText5()
    ensures Expected5 == Concat(TextEach('"', Text5))
  {
    assert TextEach('"', Text5) == ["a weird ", "\"", "string", "\"", " 'with' *freaky* ", "\\", "stuff"];
  }

  lemma PlainRuns5()
    ensures PlainRuns('"', Text5)
  {
    assert Plain('"', "a weird ");
    assert Plain('"', "string");
    assert Plain('"', " 'with' *freaky* ");
    assert Plain('"', "stuff");
  }

  lemma UnquotePieces5()
    ensures Unquote(Concat([['"']] + EscapeEach('"', Text5))) == Concat(TextEach('"', Text5))
  {
    PlainRuns5();
    UnquoteUnterminatedPieces('"', Text5);
  }

  lemma UnquoteExample5()
    ensures Unquote(Input5) == Expected5
  {
    InputIsEscaped5();
    ExpectedIsText5();
    UnquotePieces5();
  }

  /** Line 216: `'\'escaped quoted string in string\''` unquotes to `'escaped quoted string in string'`. */
  const Input6: string := Concat(["'", "\\'", "escaped quoted string in string", "\\'", "'"])
  const Expected6: string := Concat(["'", "escaped quoted string in string", "'"])
  const Text6: seq<Piece> := [QuoteMark, Run("escaped quoted string in string"), QuoteMark]

  lemma EscapedPieces6()
    ensures EscapeEach('\'', Text6) == ["\\'", "escaped quoted string in string", "\\'"]
  {
  }

  lemma InputIsEscaped6()
    ensures Input6 == Concat([['\'']] + EscapeEach('\'', Text6) + [['\'']])
  {
    EscapedPieces6();
    assert [['\'']] + ["\\'", "escaped quoted string in string", "\\'"] + [['\'']] == ["'", "\\'", "escaped quoted string in string", "\\'", "'"];
  }

  lemma ExpectedIsText6()
    ensures Expected6 == Concat(TextEach('\'', Text6))
  {
    assert TextEach('\'', Text6) == ["'", "escaped quoted string in string", "'"];
  }

  lemma PlainRuns6()
    ensures PlainRuns('\'', Text6)
  {
    assert Plain('\'', "escaped quoted string in string");
  }

  lemma UnquotePieces6()
    ensures Unquote(Concat([['\'']] + EscapeEach('\'', Text6) + [['\'']])) == Concat(TextEach('\'', Text6))
  {
    PlainRuns6();
    UnquoteQuotedPieces('\'', Text6);
  }

  lemma UnquoteExample6()
    ensures Unquote(Input6) == Expected6
  {
    InputIsEscaped6();
    ExpectedIsText6();
    UnquotePieces6();
  }
}
