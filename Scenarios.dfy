/** Runs of the lexer on concrete inputs. */
module LexerScenarios {
  import opened Scanning
  import opened Events
  import opened LexerSpec
  import opened LexerProperties
  import opened LexerRoundTrips

  /** `;` is taken by no construct, so an iteration consumes nothing and the
      source goes round forever. */
  lemma SemicolonLoops()
    ensures Lex(";") == Fail(Loops)
  {
    IdleHeadLoops(Initial(";"));
  }

  /** Two selectors sharing one declaration. */
  lemma TwoSelectors()
    ensures Lex("h1, h2 { color: red; }")
      == Ok([StartSelector(["h1", "h2"]), Rule("color", "red"), EndSelector(["h1", "h2"])])
  {
    var g := ["h1", "h2"];
    var rules := [Rule("color", "red")];
    TwoSelectorsWritten();
    BlockRoundTrip(g, " ", rules, [" "]);
    Three(StartSelector(g), rules[0], EndSelector(g));
  }

  lemma TwoSelectorsWritten()
    ensures WellWritten(["h1", "h2"], " ", [Rule("color", "red")], [" "])
    ensures BlockText(["h1", "h2"], " ", [Rule("color", "red")], [" "]) == "h1, h2 { color: red; }"
  {
    TwoSelectorsGroup();
    ColorRule();
    assert AllWhitespace(" ");
  }

  lemma TwoSelectorsGroup()
    ensures AllPlainSelectors(["h1", "h2"]) && GroupText(["h1", "h2"]) == "h1, h2"
  {
    var g := ["h1", "h2"];
    assert IsPlainSelector(g[0]) && IsPlainSelector(g[1]);
    assert GroupText(g[1..]) == "h2";
  }

  lemma ColorRule()
    ensures AllScanned([Rule("color", "red")])
    ensures DeclsText([Rule("color", "red")], [" "]) == "color: red; "
  {
    assert IsScannedRule(Rule("color", "red"));
  }

  /** One selector with two declarations over several lines. */
  lemma MultiLineBlock()
    ensures Lex(".box {\n  display: flex;\n  justify-content: center;\n}")
      == Ok([StartSelector([".box"]), Rule("display", "flex"),
             Rule("justify-content", "center"), EndSelector([".box"])])
  {
    var g := [".box"];
    var rules := [Rule("display", "flex"), Rule("justify-content", "center")];
    MultiLineWritten();
    BlockRoundTrip(g, "\n  ", rules, ["\n  ", "\n"]);
    Four(StartSelector(g), rules[0], rules[1], EndSelector(g));
  }

  lemma MultiLineWritten()
    ensures WellWritten([".box"], "\n  ", [Rule("display", "flex"), Rule("justify-content", "center")], ["\n  ", "\n"])
    ensures BlockText([".box"], "\n  ", [Rule("display", "flex"), Rule("justify-content", "center")], ["\n  ", "\n"])
      == ".box {\n  display: flex;\n  justify-content: center;\n}"
  {
    MultiLineRules();
    assert IsPlainSelector(".box");
    assert AllWhitespace("\n  ") && AllWhitespace("\n");
    MultiLineText();
  }

  lemma MultiLineRules()
    ensures IsScannedRule(Rule("display", "flex")) && IsScannedRule(Rule("justify-content", "center"))
    ensures RuleText(Rule("display", "flex")) == "display: flex;"
    ensures RuleText(Rule("justify-content", "center")) == "justify-content: center;"
  {
    DisplayRule();
    JustifyRule();
  }

  lemma DisplayRule()
    ensures IsScannedRule(Rule("display", "flex")) && RuleText(Rule("display", "flex")) == "display: flex;"
  {
  }

  lemma JustifyRule()
    ensures IsScannedRule(Rule("justify-content", "center"))
    ensures RuleText(Rule("justify-content", "center")) == "justify-content: center;"
  {
  }

  lemma MultiLineText()
    requires IsScannedRule(Rule("display", "flex")) && IsScannedRule(Rule("justify-content", "center"))
    ensures AllScanned([Rule("display", "flex"), Rule("justify-content", "center")])
    ensures BlockText([".box"], "\n  ", [Rule("display", "flex"), Rule("justify-content", "center")], ["\n  ", "\n"])
      == ".box {\n  display: flex;\n  justify-content: center;\n}"
  {
    MultiLineRules();
    OneSelectorTwoRules(".box", "\n  ", Rule("display", "flex"), Rule("justify-content", "center"), "\n  ", "\n");
    BoxText();
  }

  /** A block of one selector and two declarations, written out flat. */
  lemma OneSelectorTwoRules(t: string, lead: string, r1: Event, r2: Event, s1: string, s2: string)
    requires IsScannedRule(r1) && IsScannedRule(r2)
    ensures AllScanned([r1, r2])
    ensures BlockText([t], lead, [r1, r2], [s1, s2])
      == t + " " + "{" + lead + RuleText(r1) + s1 + RuleText(r2) + s2 + "}"
  {
    assert [r1, r2][1..] == [r2];
    assert [s1, s2][1..] == [s2];
    assert DeclsText([r2], [s2]) == RuleText(r2) + s2 + [];
  }

  lemma BoxText()
    ensures ".box" + " " + "{" + "\n  " + "display: flex;" + "\n  " + "justify-content: center;" + "\n" + "}"
      == ".box {\n  display: flex;\n  justify-content: center;\n}"
  {
    BoxTextStart();
    BoxTextMiddle();
  }

  lemma BoxTextMiddle()
    ensures ".box {\n  display: flex;\n  " + "justify-content: center;"
      == ".box {\n  display: flex;\n  justify-content: center;"
  {
  }

  lemma BoxTextStart()
    ensures ".box" + " " + "{" + "\n  " + "display: flex;" + "\n  " == ".box {\n  display: flex;\n  "
  {
    assert ".box" + " " + "{" + "\n  " == ".box {\n  ";
    assert ".box {\n  " + "display: flex;" == ".box {\n  display: flex;";
  }

  /** `/* hello */` followed by a newline is the comment ` hello `, its
      spaces kept; the newline goes with the closing `/`. */
  lemma HelloComment(s: State)
    requires s.content == "/* hello */\n"
    ensures ParseComment(s) == Ok(s.(content := [], data := s.data + [Comment(" hello ")]))
  {
    assert s.content == "/*" + " hello " + "*/" + ['\n'] + [];
    CommentRoundTrip(s, " hello ", '\n', []);
  }

  /** `/* x */` with nothing after it cannot be consumed. */
  lemma CommentAtEnd(s: State)
    requires s.content == "/* x */"
    ensures ParseComment(s) == Fail(CommentNotClosed)
  {
    assert s.content == "/*" + " x " + "*/";
    CommentAtEndFails(s, " x ");
  }

  lemma Three<T>(x: T, y: T, z: T)
    ensures [x] + [y] + [z] == [x, y, z]
  {
  }

  lemma Four<T>(w: T, x: T, y: T, z: T)
    ensures [w] + [x, y] + [z] == [w, x, y, z]
  {
  }
}
