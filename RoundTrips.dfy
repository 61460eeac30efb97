/** Text written the way the lexer expects it is read back as what was
    written: a selector group, a list of declarations, and a whole block. */
module LexerRoundTrips {
  import opened Scanning
  import opened Events
  import opened LexerSpec
  import opened LexerProperties

  // ---------------------------------------------------------------------
  // Selector groups (src/lib.rs:83-105)

  /** A selector as the dispatch loop starts one: a token whose first
      character is one that starts a selector. */
  predicate IsPlainSelector(t: string) {
    t != [] && IsSelectorHead(t[0]) && IsSelectorToken(t)
  }

  predicate AllPlainSelectors(g: seq<string>) {
    forall i :: 0 <= i < |g| ==> IsPlainSelector(g[i])
  }

  /** A selector group written out with `, ` between its selectors. */
  function GroupText(g: seq<string>): string
    requires g != []
    decreases |g|
  {
    if |g| == 1 then g[0] else g[0] + ", " + GroupText(g[1..])
  }

  lemma GroupTextHead(g: seq<string>)
    requires g != [] && g[0] != []
    ensures GroupText(g) != [] && GroupText(g)[0] == g[0][0]
  {
  }

  /** A selector followed by a space and then the end of the group. */
  lemma TokenThenSpace(t: string, rest: string)
    requires IsPlainSelector(t)
    requires rest == [] || rest[0] == '{'
    ensures t + " " + rest != [] && (t + " " + rest)[0] != '{'
    ensures SelectorStep(t + " " + rest) == (t, rest)
  {
    var c := t + (" " + rest);
    assert t + " " + rest == c;
    ScanStops(t, " " + rest, SelectorChar);
    assert c[..|t|] == t;
    assert c[|t|..] == " " + rest;
    TrimWhitespaceRun(" ", rest);
  }

  /** A selector followed by `, ` and the next selector. */
  lemma TokenThenComma(t: string, tail: string)
    requires IsPlainSelector(t)
    requires tail != [] && !IsWhitespace(tail[0])
    ensures t + (", " + tail) != [] && (t + (", " + tail))[0] != '{'
    ensures SelectorStep(t + (", " + tail)) == (t, tail)
  {
    var c := t + (", " + tail);
    ScanStops(t, ", " + tail, SelectorChar);
    assert c[..|t|] == t;
    assert c[|t|..] == ", " + tail;
    TrimNoWhitespaceHead(", " + tail);
    assert (", " + tail)[1..] == " " + tail;
    TrimWhitespaceRun(" ", tail);
  }

  /** The selector loop reads a written group back, selector by selector,
      and stops on the `{` after it. */
  lemma {:induction false} GroupRoundTrip(acc: seq<string>, g: seq<string>, rest: string)
    requires g != [] && AllPlainSelectors(g)
    requires rest == [] || rest[0] == '{'
    ensures SelectorLoop(acc, GroupText(g) + " " + rest) == (acc + g, rest)
    decreases |g|
  {
    var t := g[0];
    assert IsPlainSelector(t);
    if |g| == 1 {
      TokenThenSpace(t, rest);
      assert GroupText(g) == t;
      assert SelectorLoop(acc, t + " " + rest) == SelectorLoop(acc + [t], rest);
      assert g == [t];
    } else {
      var tail := GroupText(g[1..]) + " " + rest;
      assert AllPlainSelectors(g[1..]) by {
        assert forall i :: 0 <= i < |g| - 1 ==> g[1..][i] == g[i + 1];
      }
      assert g[1..][0] == g[1];
      GroupTextHead(g[1..]);
      assert IsPlainSelector(g[1]);
      TokenThenComma(t, tail);
      Reassoc(t, ", ", GroupText(g[1..]), " ", rest);
      assert SelectorLoop(acc, t + (", " + tail)) == SelectorLoop(acc + [t], tail);
      GroupRoundTrip(acc + [t], g[1..], rest);
      ConsSplit(acc, g);
    }
  }

  lemma Reassoc<T>(a: seq<T>, b: seq<T>, c: seq<T>, d: seq<T>, e: seq<T>)
    ensures a + b + c + d + e == a + (b + (c + d + e))
  {
    assert a + b + c + d + e == a + (b + (c + d + e));
  }

  lemma ConsSplit<T>(acc: seq<T>, g: seq<T>)
    requires g != []
    ensures acc + [g[0]] + g[1..] == acc + g
  {
    assert [g[0]] + g[1..] == g;
  }

  // ---------------------------------------------------------------------
  // Declarations (src/lib.rs:112-135)

  /** A declaration written as `name: value;`. */
  function RuleText(r: Event): string
    requires r.Rule?
  {
    r.name + ": " + r.value + ";"
  }

  predicate AllScanned(rules: seq<Event>) {
    forall i :: 0 <= i < |rules| ==> IsScannedRule(rules[i])
  }

  predicate AllWhitespaceRuns(seps: seq<string>) {
    forall i :: 0 <= i < |seps| ==> AllWhitespace(seps[i])
  }

  /** Declarations written one after another, each followed by its run of
      whitespace. */
  function DeclsText(rules: seq<Event>, seps: seq<string>): string
    requires AllScanned(rules) && |seps| == |rules|
    decreases |rules|
  {
    if rules == [] then [] else RuleText(rules[0]) + seps[0] + DeclsText(rules[1..], seps[1..])
  }

  /** Written declarations followed by a `}` start with neither whitespace
      nor, unless there are none, a `}`. */
  lemma DeclsTextHead(rules: seq<Event>, seps: seq<string>, rest: string)
    requires AllScanned(rules) && |seps| == |rules|
    ensures var c := DeclsText(rules, seps) + ("}" + rest);
      c != [] && !IsWhitespace(c[0]) && (c[0] == '}' <==> rules == [])
  {
    if rules != [] {
      var r := rules[0];
      assert IsScannedRule(r);
      var c := DeclsText(rules, seps) + ("}" + rest);
      assert c[0] == RuleText(r)[0];
      assert RuleText(r)[0] == if r.name == [] then ':' else r.name[0];
    }
  }

  /** The first declaration of a written list. */
  lemma FirstDeclaration(rules: seq<Event>, seps: seq<string>, rest: string)
    requires AllScanned(rules) && |seps| == |rules| && AllWhitespaceRuns(seps) && rules != []
    ensures var c := DeclsText(rules, seps) + ("}" + rest);
      c != [] && ScanDeclaration(c)
        == Declared(rules[0], DeclsText(rules[1..], seps[1..]) + ("}" + rest))
  {
    var r := rules[0];
    assert IsScannedRule(r);
    TailsWritten(rules, seps);
    var after := DeclsText(rules[1..], seps[1..]) + ("}" + rest);
    assert AllWhitespace(" ");
    DeclarationRoundTrip(r.name, [], " ", r.value, seps[0] + after);
    DeclReassoc(r.name, r.value, seps[0], DeclsText(rules[1..], seps[1..]), "}" + rest);
    DeclsTextHead(rules[1..], seps[1..], rest);
    TrimWhitespaceRun(seps[0], after);
  }

  lemma DeclReassoc(name: string, value: string, sep: string, d: string, x: string)
    ensures name + [] + [':'] + " " + value + [';'] + (sep + (d + x))
      == name + ": " + value + ";" + sep + d + x
  {
    assert ": " == [':'] + " ";
    assert ";" == [';'];
    assert name + [] + [':'] + " " + value + [';'] + (sep + (d + x))
      == name + ": " + value + ";" + sep + d + x;
  }

  /** The declaration loop reads written declarations back as their `Rule`s,
      in order, and stops on the `}` after them. */
  lemma {:induction false} RulesRoundTrip(s: State, rules: seq<Event>, seps: seq<string>, rest: string)
    requires AllScanned(rules) && |seps| == |rules| && AllWhitespaceRuns(seps)
    requires s.content == DeclsText(rules, seps) + ("}" + rest)
    ensures RulesLoop(s) == Ok(s.(content := "}" + rest, data := s.data + rules))
    decreases |rules|
  {
    if rules == [] {
      assert s.content == "}" + rest;
      assert s.data + rules == s.data;
    } else {
      var next := s.(content := DeclsText(rules[1..], seps[1..]) + ("}" + rest), data := s.data + [rules[0]]);
      RulesStep(s, rules, seps, rest);
      RulesRoundTrip(next, rules[1..], seps[1..], rest);
      ConsSplit(s.data, rules);
    }
  }

  /** One declaration of `RulesRoundTrip`. */
  lemma RulesStep(s: State, rules: seq<Event>, seps: seq<string>, rest: string)
    requires AllScanned(rules) && |seps| == |rules| && AllWhitespaceRuns(seps) && rules != []
    requires s.content == DeclsText(rules, seps) + ("}" + rest)
    ensures AllScanned(rules[1..]) && AllWhitespaceRuns(seps[1..])
    ensures RulesLoop(s) == RulesLoop(s.(content := DeclsText(rules[1..], seps[1..]) + ("}" + rest),
                                          data := s.data + [rules[0]]))
  {
    TailsWritten(rules, seps);
    DeclsTextHead(rules, seps, rest);
    FirstDeclaration(rules, seps, rest);
    RulesLoopDeclared(s, rules[0], DeclsText(rules[1..], seps[1..]) + ("}" + rest));
  }

  lemma TailsWritten(rules: seq<Event>, seps: seq<string>)
    requires AllScanned(rules) && AllWhitespaceRuns(seps) && rules != [] && seps != []
    ensures AllScanned(rules[1..]) && AllWhitespaceRuns(seps[1..])
  {
    assert forall i :: 0 <= i < |rules| - 1 ==> rules[1..][i] == rules[i + 1];
    assert forall i :: 0 <= i < |seps| - 1 ==> seps[1..][i] == seps[i + 1];
  }

  // ---------------------------------------------------------------------
  // A whole block (src/lib.rs:35-76)

  /** A block written as `group {lead declarations}`. */
  function BlockText(g: seq<string>, lead: string, rules: seq<Event>, seps: seq<string>): string
    requires g != [] && AllScanned(rules) && |seps| == |rules|
  {
    GroupText(g) + " " + ("{" + lead + (DeclsText(rules, seps) + "}"))
  }

  /** The conditions under which a written block is read back. */
  predicate WellWritten(g: seq<string>, lead: string, rules: seq<Event>, seps: seq<string>) {
    g != [] && AllPlainSelectors(g) && AllWhitespace(lead)
    && AllScanned(rules) && |seps| == |rules| && AllWhitespaceRuns(seps)
  }

  /** The selector block of an iteration on a written group opens it. */
  lemma GroupOpens(s: State, g: seq<string>, body: string)
    requires g != [] && AllPlainSelectors(g)
    requires body == [] || body[0] == '{'
    requires s.content == GroupText(g) + " " + body
    ensures SelectorStage(s)
      == s.(content := body, data := s.data + [StartSelector(g)], stack := s.stack + [g])
  {
    GroupHead(g, body);
    SelectorStageStarts(s);
    GroupCollects(g, body);
    StartSelectorOf(s, g, body);
  }

  lemma GroupHead(g: seq<string>, body: string)
    requires g != [] && AllPlainSelectors(g)
    ensures GroupText(g) + " " + body != [] && IsSelectorHead((GroupText(g) + " " + body)[0])
  {
    assert IsPlainSelector(g[0]);
    GroupTextHead(g);
  }

  lemma GroupCollects(g: seq<string>, body: string)
    requires g != [] && AllPlainSelectors(g)
    requires body == [] || body[0] == '{'
    ensures SelectorLoop([], GroupText(g) + " " + body) == (g, body)
  {
    GroupRoundTrip([], g, body);
    assert [] + g == g;
  }

  /** The rules block of an iteration on a written body reads its
      declarations and stops on the `}` that closes them. */
  lemma BodyRules(s: State, lead: string, rules: seq<Event>, seps: seq<string>, tail: string)
    requires AllWhitespace(lead) && AllScanned(rules) && |seps| == |rules| && AllWhitespaceRuns(seps)
    requires s.content == "{" + lead + (DeclsText(rules, seps) + ("}" + tail))
    ensures RulesStage(s) == Ok(s.(content := "}" + tail, data := s.data + rules))
  {
    RulesStageOpens(s);
    BodyTrim(lead, rules, seps, tail);
    RulesRoundTrip(s.(content := DeclsText(rules, seps) + ("}" + tail)), rules, seps, tail);
  }

  /** What `parse_rules` leaves of a written body after its `{`. */
  lemma BodyTrim(lead: string, rules: seq<Event>, seps: seq<string>, tail: string)
    requires AllWhitespace(lead) && AllScanned(rules) && |seps| == |rules|
    ensures var c := "{" + lead + (DeclsText(rules, seps) + ("}" + tail));
      c != [] && c[0] == '{' && Trim(c[1..]) == DeclsText(rules, seps) + ("}" + tail)
  {
    var decls := DeclsText(rules, seps) + ("}" + tail);
    DropOpening(lead, decls);
    DeclsTextHead(rules, seps, tail);
    TrimWhitespaceRun(lead, decls);
  }

  lemma DropOpening(lead: string, x: string)
    ensures ("{" + lead + x)[0] == '{' && ("{" + lead + x)[1..] == lead + x
  {
    assert "{" + lead + x == ['{'] + (lead + x);
  }

  /** The closing block of an iteration on a `}` closes the group on top. */
  lemma BlockCloses(s: State, g: seq<string>, tail: string)
    requires s.content == "}" + tail && s.stack != [] && s.stack[|s.stack| - 1] == g
    ensures EndStage(s)
      == s.(content := tail, data := s.data + [EndSelector(g)], stack := s.stack[..|s.stack| - 1])
  {
    TrimNoWhitespaceHead(s.content);
    assert TrimState(s) == s;
    assert s.content[1..] == tail;
  }

  /** A written block lexes to the `StartSelector` of its group, its rules
      in order and the `EndSelector` of the same group. */
  lemma BlockRoundTrip(g: seq<string>, lead: string, rules: seq<Event>, seps: seq<string>)
    requires WellWritten(g, lead, rules, seps)
    ensures Lex(BlockText(g, lead, rules, seps)) == Ok([StartSelector(g)] + rules + [EndSelector(g)])
  {
    var text := BlockText(g, lead, rules, seps);
    var s := Initial(text);
    assert text + ([] + []) == text;
    BlockStep(s, g, lead, rules, seps, [], []);
    var events := [StartSelector(g)] + rules + [EndSelector(g)];
    assert s.data + events == events;
    RunOneStep(s, s.(content := [], data := events));
  }

  /** An iteration on a written block, whatever came before it, followed by
      whitespace and then the end of the input or anything that is neither
      whitespace nor `/`: the block's events are appended, its group is
      opened and closed again, and the buffer is left at what follows. */
  lemma BlockStep(s: State, g: seq<string>, lead: string, rules: seq<Event>, seps: seq<string>,
                  after: string, next: string)
    requires WellWritten(g, lead, rules, seps) && AllWhitespace(after)
    requires next == [] || (!IsWhitespace(next[0]) && next[0] != '/')
    requires s.content == BlockText(g, lead, rules, seps) + (after + next)
    ensures ParseStep(s)
      == Ok(s.(content := next, data := s.data + ([StartSelector(g)] + rules + [EndSelector(g)])))
  {
    var s2 := BlockOpens(s, g, lead, rules, seps, after + next);
    var s4 := BlockEnds(s2, g, s.stack, after, next);
    StepOf(s, s2, s4);
    BlockData(s.data, [StartSelector(g)], rules, [EndSelector(g)]);
    assert s4 == s.(content := next, data := s.data + ([StartSelector(g)] + rules + [EndSelector(g)]));
  }

  lemma BlockData(d: seq<Event>, a: seq<Event>, b: seq<Event>, c: seq<Event>)
    ensures d + a + b + c == d + (a + b + c)
  {
  }

  /** An iteration whose first two and last two blocks are known. */
  lemma StepOf(s: State, s2: State, s4: State)
    requires RulesStage(SelectorStage(s)) == Ok(s2) && CommentStage(EndStage(s2)) == Ok(s4)
    ensures ParseStep(s) == Ok(s4)
  {
  }

  /** The first two blocks of an iteration on a written block: the group is
      opened and the declarations are read up to the closing `}`. */
  lemma BlockOpens(s: State, g: seq<string>, lead: string, rules: seq<Event>, seps: seq<string>, tail: string)
    returns (s2: State)
    requires WellWritten(g, lead, rules, seps)
    requires s.content == BlockText(g, lead, rules, seps) + tail
    ensures s2 == s.(content := "}" + tail, data := s.data + [StartSelector(g)] + rules, stack := s.stack + [g])
    ensures RulesStage(SelectorStage(s)) == Ok(s2)
  {
    var decls := DeclsText(rules, seps);
    var body := "{" + lead + (decls + ("}" + tail));
    BlockThen(GroupText(g), lead, decls, tail);
    DropOpening(lead, decls + ("}" + tail));
    var s1 := s.(content := body, data := s.data + [StartSelector(g)], stack := s.stack + [g]);
    GroupOpens(s, g, body);
    BodyRules(s1, lead, rules, seps, tail);
    s2 := s1.(content := "}" + tail, data := s1.data + rules);
  }

  /** The last two blocks of an iteration on the `}` of a written block: the
      group is closed and the whitespace after it is trimmed. */
  lemma BlockEnds(s2: State, g: seq<string>, st: seq<seq<string>>, after: string, next: string)
    returns (s4: State)
    requires s2.content == "}" + (after + next) && s2.stack == st + [g]
    requires AllWhitespace(after)
    requires next == [] || (!IsWhitespace(next[0]) && next[0] != '/')
    ensures s4 == s2.(content := next, data := s2.data + [EndSelector(g)], stack := st)
    ensures CommentStage(EndStage(s2)) == Ok(s4)
  {
    assert (st + [g])[..|st|] == st;
    BlockCloses(s2, g, after + next);
    var s3 := s2.(content := after + next, data := s2.data + [EndSelector(g)], stack := st);
    TrimWhitespaceRun(after, next);
    s4 := s3.(content := next);
    assert CommentStage(s3) == Ok(s4);
  }

  /** Text after a written block moves inside its braces' closing part. */
  lemma BlockThen(group: string, lead: string, decls: string, tail: string)
    ensures group + " " + ("{" + lead + (decls + "}")) + tail
      == group + " " + ("{" + lead + (decls + ("}" + tail)))
  {
  }

  /** A run whose first iteration drains the buffer. */
  lemma RunOneStep(s: State, r: State)
    requires s.content != [] && ParseStep(s) == Ok(r) && r.content == []
    ensures ParseAll(s) == Ok(r)
  {
  }

  // ---------------------------------------------------------------------
  // A style sheet of blocks one after another (src/lib.rs:35-76)

  /** A block as it stands in a style sheet, with the whitespace after it. */
  datatype WrittenBlock = WrittenBlock(
    group: seq<string>, lead: string, rules: seq<Event>, seps: seq<string>, after: string)

  predicate AllWellWritten(bs: seq<WrittenBlock>)
    decreases |bs|
  {
    bs == []
    || (WellWritten(bs[0].group, bs[0].lead, bs[0].rules, bs[0].seps) && AllWhitespace(bs[0].after)
        && AllWellWritten(bs[1..]))
  }

  /** The blocks written out one after another. */
  function SheetText(bs: seq<WrittenBlock>): string
    requires AllWellWritten(bs)
    decreases |bs|
  {
    if bs == [] then []
    else BlockText(bs[0].group, bs[0].lead, bs[0].rules, bs[0].seps) + (bs[0].after + SheetText(bs[1..]))
  }

  /** The events of a block: its group opened, its rules, its group closed. */
  function BlockEvents(b: WrittenBlock): seq<Event> {
    [StartSelector(b.group)] + b.rules + [EndSelector(b.group)]
  }

  function SheetEvents(bs: seq<WrittenBlock>): seq<Event>
    decreases |bs|
  {
    if bs == [] then [] else BlockEvents(bs[0]) + SheetEvents(bs[1..])
  }

  /** A written sheet starts with a selector, which is neither whitespace
      nor the `/` of a comment. */
  lemma SheetHead(bs: seq<WrittenBlock>)
    requires AllWellWritten(bs)
    ensures SheetText(bs) == [] || (!IsWhitespace(SheetText(bs)[0]) && SheetText(bs)[0] != '/')
  {
    if bs != [] {
      var b := bs[0];
      var body := "{" + b.lead + (DeclsText(b.rules, b.seps) + "}");
      GroupHead(b.group, body);
      assert SheetText(bs)[0] == (GroupText(b.group) + " " + body)[0];
    }
  }

  /** The lexer reads written blocks back one iteration per block, from any
      state: their events are appended in order and every group it opens it
      closes again, so the stack ends as it started. */
  lemma {:induction false} SheetRun(s: State, bs: seq<WrittenBlock>)
    requires AllWellWritten(bs) && s.content == SheetText(bs)
    ensures ParseAll(s) == Ok(s.(content := [], data := s.data + SheetEvents(bs)))
    decreases |bs|
  {
    if bs == [] {
      assert s.data + [] == s.data;
    } else {
      var s1 := SheetStep(s, bs);
      RunStep(s, s1);
      SheetRun(s1, bs[1..]);
      SheetEventsCons(s.data, bs);
    }
  }

  lemma SheetEventsCons(d: seq<Event>, bs: seq<WrittenBlock>)
    requires bs != []
    ensures d + BlockEvents(bs[0]) + SheetEvents(bs[1..]) == d + SheetEvents(bs)
  {
    Assoc(d, BlockEvents(bs[0]), SheetEvents(bs[1..]));
  }

  lemma Assoc<T>(a: seq<T>, b: seq<T>, c: seq<T>)
    ensures a + b + c == a + (b + c)
  {
  }

  /** The iteration on the first block of a written sheet. */
  lemma SheetStep(s: State, bs: seq<WrittenBlock>) returns (s1: State)
    requires AllWellWritten(bs) && bs != [] && s.content == SheetText(bs)
    ensures AllWellWritten(bs[1..])
    ensures s1 == s.(content := SheetText(bs[1..]), data := s.data + BlockEvents(bs[0]))
    ensures s.content != [] && |s1.content| < |s.content| && ParseStep(s) == Ok(s1)
  {
    var b := bs[0];
    SheetHead(bs[1..]);
    BlockStep(s, b.group, b.lead, b.rules, b.seps, b.after, SheetText(bs[1..]));
    s1 := s.(content := SheetText(bs[1..]), data := s.data + BlockEvents(b));
    GroupHead(b.group, "{" + b.lead + (DeclsText(b.rules, b.seps) + "}"));
  }

  /** A run past an iteration that consumed input. */
  lemma RunStep(s: State, s1: State)
    requires s.content != [] && ParseStep(s) == Ok(s1) && |s1.content| < |s.content|
    ensures ParseAll(s) == ParseAll(s1)
  {
  }

  /** A style sheet of written blocks lexes to the events of its blocks in
      order, leaves no group open and reports nothing. */
  lemma SheetRoundTrip(bs: seq<WrittenBlock>)
    requires AllWellWritten(bs)
    ensures ParseAll(Initial(SheetText(bs))) == Ok(State([], SheetEvents(bs), [], []))
    ensures Lex(SheetText(bs)) == Ok(SheetEvents(bs))
  {
    SheetRun(Initial(SheetText(bs)), bs);
    assert [] + SheetEvents(bs) == SheetEvents(bs);
  }

  /** `N` written blocks give exactly `N` `StartSelector`s and `N`
      `EndSelector`s, paired last-opened first-closed, with no group left
      open. */
  lemma SheetPairs(bs: seq<WrittenBlock>)
    requires AllWellWritten(bs)
    ensures Open(SheetEvents(bs)) == Some([])
    ensures Starts(SheetEvents(bs)) == |bs| && Ends(SheetEvents(bs)) == |bs|
  {
    SheetRoundTrip(bs);
    RunNested(SheetText(bs));
    SheetCounts(bs);
  }

  lemma {:induction false} SheetCounts(bs: seq<WrittenBlock>)
    requires AllWellWritten(bs)
    ensures Starts(SheetEvents(bs)) == |bs| && Ends(SheetEvents(bs)) == |bs|
    decreases |bs|
  {
    if bs != [] {
      var b := bs[0];
      SheetCounts(bs[1..]);
      BlockCounts(b);
      CountsAppend(BlockEvents(b), SheetEvents(bs[1..]));
    }
  }

  /** A written block opens one group and closes one. */
  lemma BlockCounts(b: WrittenBlock)
    requires AllScanned(b.rules)
    ensures Starts(BlockEvents(b)) == 1 && Ends(BlockEvents(b)) == 1
  {
    ScannedAgree(b.rules);
    ScannedRulesAreNoSelectors(b.rules);
    NoSelectorCounts(b.rules);
    CountsAppend([StartSelector(b.group)], b.rules);
    CountsAppend([StartSelector(b.group)] + b.rules, [EndSelector(b.group)]);
    assert Starts([StartSelector(b.group)]) == 1 && Ends([StartSelector(b.group)]) == 0 by {
      assert [StartSelector(b.group)][..0] == [];
    }
    assert Starts([EndSelector(b.group)]) == 0 && Ends([EndSelector(b.group)]) == 1 by {
      assert [EndSelector(b.group)][..0] == [];
    }
  }

  /** The two ways of saying that every rule is a scanned rule agree. */
  lemma {:induction false} ScannedAgree(rules: seq<Event>)
    ensures AllScanned(rules) <==> AllScannedRules(rules)
    decreases |rules|
  {
    if rules != [] {
      ScannedAgree(rules[1..]);
      assert forall i :: 0 <= i < |rules| - 1 ==> rules[1..][i] == rules[i + 1];
      if AllScannedRules(rules) {
        forall i | 0 <= i < |rules| ensures IsScannedRule(rules[i]) {
          if i > 0 {
            assert rules[i] == rules[1..][i - 1];
          }
        }
      }
    }
  }
}
