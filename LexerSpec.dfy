/** What each method of the lexer (src/lib.rs:22-210) does to the lexer's
    state, as functions from the state before to the state after. The class
    in Lexer.dfy is proved to compute exactly these. */
module LexerSpec {
  import opened Scanning
  import opened Events

  /** The diagnostics the source writes to standard error and goes on. */
  datatype Warning =
    | MissingColon     // "expecting `:`", src/lib.rs:122
    | UnpairedClose    // "invalid clsoing selector", src/lib.rs:145

  /** The ways a run ends without returning events. */
  datatype Fault =
    | EmptyBeforeBrace   // `self.content[0]` on an empty buffer, src/lib.rs:117
    | EmptyBeforeColon   // `self.content[0]` on an empty buffer, src/lib.rs:121
    | MissingSemicolon   // `take_slice(0, 1)` on an empty buffer, src/lib.rs:129
    | CommentNotClosed   // `take_slice(0, 2)` with under two characters left, src/lib.rs:171
    | CommentSplitsChar  // `comment[..len - 1]` cuts a multi-byte character, src/lib.rs:175
    | Loops              // an outer iteration that changes nothing repeats forever, src/lib.rs:36-73

  datatype Result<T> = Ok(value: T) | Fail(fault: Fault) {
    predicate IsFailure() {
      Fail?
    }

    function PropagateFailure<U>(): Result<U>
      requires Fail?
    {
      Fail(fault)
    }

    function Extract(): T
      requires Ok?
    {
      value
    }
  }

  /** The fields of `Lexer` (src/lib.rs:16-20), plus the diagnostics. */
  datatype State = State(
    content: seq<char>,          // the input not yet consumed
    data: seq<Event>,            // the events emitted so far
    stack: seq<seq<string>>,     // the selector groups still open
    warnings: seq<Warning>)      // what went to standard error

  /** `Lexer::new` (src/lib.rs:26-32). */
  function Initial(text: string): State {
    State(text, [], [], [])
  }

  /** The stack holds exactly the groups opened and not yet closed, and every
      `EndSelector` emitted closed the group on top. */
  predicate Nested(s: State) {
    Open(s.data) == Some(s.stack)
  }

  /** `r` follows from `s` by consuming input and appending events. */
  predicate Advances(s: State, r: State) {
    IsSuffix(r.content, s.content) && IsPrefix(s.data, r.data) && IsPrefix(s.warnings, r.warnings)
  }

  lemma AdvancesTrans(s: State, t: State, u: State)
    requires Advances(s, t) && Advances(t, u)
    ensures Advances(s, u)
  {
    SuffixTrans(u.content, t.content, s.content);
    PrefixTrans(s.data, t.data, u.data);
    PrefixTrans(s.warnings, t.warnings, u.warnings);
  }

  function TrimState(s: State): State {
    s.(content := Trim(s.content))
  }

  /** What the dispatch loop (src/lib.rs:42-45) takes for the start of a
      selector. */
  predicate IsSelectorHead(c: char) {
    c == '*' || c == '.' || c == '#' || IsAlphabetic(c)
  }

  /** A selector token holds none of the characters that end one. */
  predicate IsSelectorToken(t: string) {
    forall k :: 0 <= k < |t| ==> t[k] != ' ' && t[k] != ',' && t[k] != '{'
  }

  /** Every selector of the group is a token. */
  predicate AllTokens(group: seq<string>) {
    group == [] || (AllTokens(group[..|group| - 1]) && IsSelectorToken(group[|group| - 1]))
  }

  lemma AllTokensPush(group: seq<string>, t: string)
    ensures AllTokens(group + [t]) <==> AllTokens(group) && IsSelectorToken(t)
  {
    assert (group + [t])[..|group|] == group;
  }

  // ---------------------------------------------------------------------
  // parse_start_selector (src/lib.rs:83-105)

  /** The comma that may follow a selector, with the whitespace after it
      (src/lib.rs:92-95). */
  function SkipComma(c: seq<char>): (r: seq<char>)
    ensures IsSuffix(r, c)
  {
    if c != [] && c[0] == ',' then
      SuffixTrans(Trim(c[1..]), c[1..], c);
      Trim(c[1..])
    else
      c
  }

  /** One pass of the loop at src/lib.rs:87-98: the selector token taken and
      the buffer left after it, its whitespace and at most one comma. */
  function SelectorStep(c: seq<char>): (string, seq<char>)
    requires c != [] && c[0] != '{'
  {
    var n := ScanLen(c, SelectorChar);
    (c[..n], SkipComma(Trim(c[n..])))
  }

  /** A pass takes a token. */
  lemma SelectorStepToken(c: seq<char>)
    requires c != [] && c[0] != '{'
    ensures IsSelectorToken(SelectorStep(c).0)
  {
    var n := ScanLen(c, SelectorChar);
    ScanStateless(c, SelectorChar);
    forall k | 0 <= k < n ensures c[..n][k] == c[k] { }
  }

  /** A pass consumes at least one character. */
  lemma SelectorStepShrinks(c: seq<char>)
    requires c != [] && c[0] != '{'
    ensures IsSuffix(SelectorStep(c).1, c) && |SelectorStep(c).1| < |c|
  {
    var n := ScanLen(c, SelectorChar);
    var c1 := Trim(c[n..]);
    SuffixTrans(c1, c[n..], c);
    SuffixTrans(SkipComma(c1), c1, c);
    if n == 0 {
      assert c[n..] == c;
      if c[0] == ',' {
        TrimNoWhitespaceHead(c);
      }
    }
  }

  /** The loop at src/lib.rs:87-98, started with `selectors` already
      collected: the selectors it ends with and the buffer it leaves, which
      is empty or on a `{`. */
  function SelectorLoop(selectors: seq<string>, c: seq<char>): (r: (seq<string>, seq<char>))
    ensures IsSuffix(r.1, c) && (r.1 == [] || r.1[0] == '{')
    ensures AllTokens(selectors) ==> AllTokens(r.0)
    ensures |selectors| <= |r.0|
    ensures c != [] && c[0] != '{' ==> |selectors| < |r.0| && |r.1| < |c|
    decreases |c|
  {
    if c == [] || c[0] == '{' then (selectors, c)
    else
      var (token, rest) := SelectorStep(c);
      SelectorStepShrinks(c);
      SelectorStepToken(c);
      AllTokensPush(selectors, token);
      var r := SelectorLoop(selectors + [token], rest);
      SuffixTrans(r.1, rest, c);
      r
  }

  /** `parse_start_selector`: emits one `StartSelector` and pushes the same
      group. */
  function ParseStartSelector(s: State): State {
    var (group, rest) := SelectorLoop([], s.content);
    s.(content := rest, data := s.data + [StartSelector(group)], stack := s.stack + [group])
  }

  /** `parse_start_selector` emits and pushes the group its loop collects. */
  lemma StartSelectorOf(s: State, group: seq<string>, rest: seq<char>)
    requires SelectorLoop([], s.content) == (group, rest)
    ensures ParseStartSelector(s)
      == s.(content := rest, data := s.data + [StartSelector(group)], stack := s.stack + [group])
  {
  }

  /** `parse_start_selector` consumes input up to a `{` or the end, emits one
      `StartSelector` whose group it also pushes, made of tokens, and not
      empty when there was input before the `{`. */
  lemma StartSelectorOutcome(s: State)
    ensures Advances(s, ParseStartSelector(s)) && ParseStartSelector(s).warnings == s.warnings
    ensures ParseStartSelector(s).data == s.data + [StartSelector(SelectorLoop([], s.content).0)]
    ensures ParseStartSelector(s).stack == s.stack + [SelectorLoop([], s.content).0]
    ensures AllTokens(SelectorLoop([], s.content).0)
    ensures ParseStartSelector(s).content == [] || ParseStartSelector(s).content[0] == '{'
    ensures s.content != [] && s.content[0] != '{' ==>
      |ParseStartSelector(s).content| < |s.content| && SelectorLoop([], s.content).0 != []
    ensures Nested(s) ==> Nested(ParseStartSelector(s))
  {
    PrefixOfAppend(s.data, [StartSelector(SelectorLoop([], s.content).0)]);
    OpenPush(s.data, SelectorLoop([], s.content).0);
  }

  // ---------------------------------------------------------------------
  // parse_rules (src/lib.rs:112-135)

  /** A `Rule` as `parse_rules` emits it: a name of letters and `-`, a value
      with no `;` that does not start with whitespace. */
  predicate IsScannedRule(e: Event) {
    e.Rule?
    && (forall k :: 0 <= k < |e.name| ==> IsAlphabetic(e.name[k]) || e.name[k] == '-')
    && (forall k :: 0 <= k < |e.value| ==> e.value[k] != ';')
    && (e.value == [] || !IsWhitespace(e.value[0]))
  }

  predicate AllScannedRules(events: seq<Event>) {
    events == [] || (IsScannedRule(events[0]) && AllScannedRules(events[1..]))
  }

  lemma {:induction false} ScannedRulesAreNoSelectors(events: seq<Event>)
    requires AllScannedRules(events)
    ensures NoSelectorEvents(events)
    decreases |events|
  {
    if events != [] {
      ScannedRulesAreNoSelectors(events[1..]);
    }
  }

  /** What a completed declaration loop leaves: only `Rule`s appended, the
      stack untouched, and the buffer on the `}` that ends the block or on
      whatever stood where a `:` was expected, which is then reported. */
  predicate RulesOutcome(s: State, r: State) {
    Advances(s, r) && r.stack == s.stack
    && AllScannedRules(r.data[|s.data|..])
    && r.content != []
    && ((r.content[0] == '}' && r.warnings == s.warnings)
        || (r.content[0] != ':' && r.warnings == s.warnings + [MissingColon]))
  }

  /** How one pass of the declaration loop ends. */
  datatype Declaration =
    | Declared(rule: Event, rest: seq<char>)  // a `Rule` and the buffer after its `;`
    | NoColon(rest: seq<char>)                // no `:` after the name: the loop stops
    | Broken(fault: Fault)                    // the buffer ran out

  /** One pass of the loop at src/lib.rs:118-133 on a non-empty buffer: the
      name, the `:`, the value up to the `;`, the `;`. */
  function ScanDeclaration(c: seq<char>): Declaration
    requires c != []
  {
    var n := ScanLen(c, NameChar);
    var c1 := Trim(c[n..]);
    if c1 == [] then Broken(EmptyBeforeColon)
    else if c1[0] != ':' then NoColon(c1)
    else
      var c2 := Trim(c1[1..]);
      var m := ScanLen(c2, ValueChar);
      var c3 := c2[m..];
      if c3 == [] then Broken(MissingSemicolon)
      else Declared(Rule(c[..n], c2[..m]), Trim(c3[1..]))
  }

  /** A declaration is a name of letters and `-` and a value with no `;`
      that does not start with whitespace; the buffer runs out only before
      the `:` or before the `;`. */
  lemma DeclarationShape(c: seq<char>)
    requires c != []
    ensures ScanDeclaration(c).Declared? ==> IsScannedRule(ScanDeclaration(c).rule)
    ensures ScanDeclaration(c).Broken? ==>
      ScanDeclaration(c).fault == EmptyBeforeColon || ScanDeclaration(c).fault == MissingSemicolon
  {
    var n := ScanLen(c, NameChar);
    var c1 := Trim(c[n..]);
    if c1 != [] && c1[0] == ':' {
      NameScan(c);
      ValueScan(Trim(c1[1..]));
    }
  }

  /** A declaration consumes at least its `:` and its `;`; a missing `:`
      leaves the buffer on whatever stood where it was expected. */
  lemma DeclarationConsumes(c: seq<char>)
    requires c != []
    ensures ScanDeclaration(c).Declared? ==>
      IsSuffix(ScanDeclaration(c).rest, c) && |ScanDeclaration(c).rest| < |c|
    ensures ScanDeclaration(c).NoColon? ==>
      IsSuffix(ScanDeclaration(c).rest, c) && ScanDeclaration(c).rest != []
      && ScanDeclaration(c).rest[0] != ':'
  {
    var n := ScanLen(c, NameChar);
    var c1 := Trim(c[n..]);
    SuffixTrans(c1, c[n..], c);
    if c1 != [] && c1[0] != ':' {
      assert ScanDeclaration(c) == NoColon(c1);
    } else if c1 != [] {
      var c2 := Trim(c1[1..]);
      var m := ScanLen(c2, ValueChar);
      var c3 := c2[m..];
      if c3 != [] {
        assert ScanDeclaration(c) == Declared(Rule(c[..n], c2[..m]), Trim(c3[1..]));
        ValueConsumes(c1[1..]);
        SuffixTrans(c1[1..], c1, c);
        SuffixTrans(Trim(c3[1..]), c1[1..], c);
      }
    }
  }

  /** The part of a declaration after its `:`: the value and its `;`. */
  lemma ValueConsumes(c: seq<char>)
    requires Trim(c)[ScanLen(Trim(c), ValueChar)..] != []
    ensures IsSuffix(Trim(Trim(c)[ScanLen(Trim(c), ValueChar)..][1..]), c)
  {
    var c2 := Trim(c);
    var c3 := c2[ScanLen(c2, ValueChar)..];
    SuffixTrans(c3, c2, c);
    SuffixTrans(c3[1..], c3, c);
    SuffixTrans(Trim(c3[1..]), c3[1..], c);
  }

  /** The loop at src/lib.rs:117-134. It fails when the buffer runs out
      before a `}`, a `:` or a `;` is found. */
  function RulesLoop(s: State): Result<State>
    decreases |s.content|
  {
    if s.content == [] then Fail(EmptyBeforeBrace)
    else if s.content[0] == '}' then Ok(s)
    else
      match ScanDeclaration(s.content)
      case Broken(f) => Fail(f)
      case NoColon(rest) => Ok(s.(content := rest, warnings := s.warnings + [MissingColon]))
      case Declared(rule, rest) =>
        DeclarationConsumes(s.content);
        RulesLoop(s.(content := rest, data := s.data + [rule]))
  }

  /** Past a complete declaration the loop goes on with its `Rule` emitted. */
  lemma RulesLoopDeclared(s: State, rule: Event, rest: seq<char>)
    requires s.content != [] && s.content[0] != '}'
    requires ScanDeclaration(s.content) == Declared(rule, rest)
    ensures RulesLoop(s) == RulesLoop(s.(content := rest, data := s.data + [rule]))
  {
  }

  lemma AppendScanned(pre: seq<Event>, rule: Event, events: seq<Event>)
    requires IsScannedRule(rule) && IsPrefix(pre + [rule], events)
    requires AllScannedRules(events[|pre| + 1..])
    ensures AllScannedRules(events[|pre|..])
  {
    assert events[|pre|] == (pre + [rule])[|pre|];
    assert events[|pre|..][1..] == events[|pre| + 1..];
  }

  /** A completed declaration loop consumes input, appends events and leaves
      the stack alone. */
  lemma {:induction false} RulesLoopAdvances(s: State)
    ensures RulesLoop(s).Ok? ==> Advances(s, RulesLoop(s).value) && RulesLoop(s).value.stack == s.stack
    decreases |s.content|
  {
    if s.content != [] && s.content[0] != '}' {
      var c := s.content;
      DeclarationConsumes(c);
      if ScanDeclaration(c).Declared? {
        var next := s.(content := ScanDeclaration(c).rest, data := s.data + [ScanDeclaration(c).rule]);
        RulesLoopAdvances(next);
        if RulesLoop(next).Ok? {
          AdvancesTrans(s, next, RulesLoop(next).value);
        }
      }
    }
  }

  /** Every event a completed declaration loop appends is a well-formed
      `Rule`. */
  lemma {:induction false} RulesLoopRules(s: State)
    ensures RulesLoop(s).Ok? ==>
      |s.data| <= |RulesLoop(s).value.data| && AllScannedRules(RulesLoop(s).value.data[|s.data|..])
    decreases |s.content|
  {
    if s.content != [] && s.content[0] != '}' {
      var c := s.content;
      DeclarationConsumes(c);
      if ScanDeclaration(c).Declared? {
        var next := s.(content := ScanDeclaration(c).rest, data := s.data + [ScanDeclaration(c).rule]);
        RulesLoopRules(next);
        DeclaredRules(s, next);
      }
    }
  }

  /** The step of `RulesLoopRules` past one declaration. */
  lemma DeclaredRules(s: State, next: State)
    requires s.content != [] && s.content[0] != '}' && ScanDeclaration(s.content).Declared?
    requires next == s.(content := ScanDeclaration(s.content).rest, data := s.data + [ScanDeclaration(s.content).rule])
    requires RulesLoop(next).Ok? ==>
      |next.data| <= |RulesLoop(next).value.data| && AllScannedRules(RulesLoop(next).value.data[|next.data|..])
    ensures RulesLoop(s).Ok? ==>
      |s.data| <= |RulesLoop(s).value.data| && AllScannedRules(RulesLoop(s).value.data[|s.data|..])
  {
    assert RulesLoop(s) == RulesLoop(next);
    DeclarationShape(s.content);
    RulesLoopAdvances(next);
    if RulesLoop(next).Ok? {
      AppendScanned(s.data, ScanDeclaration(s.content).rule, RulesLoop(next).value.data);
    }
  }

  /** A completed declaration loop stops on the `}` that closes the block,
      or on the character where a `:` was missing, which it reports. */
  lemma {:induction false} RulesLoopStops(s: State)
    ensures RulesLoop(s).Ok? ==>
      var t := RulesLoop(s).value;
      t.content != []
      && ((t.content[0] == '}' && t.warnings == s.warnings)
          || (t.content[0] != ':' && t.warnings == s.warnings + [MissingColon]))
    decreases |s.content|
  {
    if s.content != [] && s.content[0] != '}' {
      var c := s.content;
      DeclarationConsumes(c);
      if ScanDeclaration(c).Declared? {
        RulesLoopStops(s.(content := ScanDeclaration(c).rest, data := s.data + [ScanDeclaration(c).rule]));
      }
    }
  }

  /** The declaration loop fails only where the source indexes or slices
      an empty buffer: before a `}`, before a `:` or before a `;`. */
  lemma {:induction false} RulesLoopFaults(s: State)
    ensures RulesLoop(s).Fail? ==>
      RulesLoop(s).fault == EmptyBeforeBrace || RulesLoop(s).fault == EmptyBeforeColon
      || RulesLoop(s).fault == MissingSemicolon
    decreases |s.content|
  {
    if s.content != [] && s.content[0] != '}' {
      var c := s.content;
      DeclarationShape(c);
      DeclarationConsumes(c);
      if ScanDeclaration(c).Declared? {
        RulesLoopFaults(s.(content := ScanDeclaration(c).rest, data := s.data + [ScanDeclaration(c).rule]));
      }
    }
  }

  lemma RulesLoopOutcome(s: State)
    ensures RulesLoop(s).Ok? ==> RulesOutcome(s, RulesLoop(s).value)
  {
    RulesLoopAdvances(s);
    RulesLoopRules(s);
    RulesLoopStops(s);
  }

  /** `parse_rules`: consumes the `{` and runs the declaration loop. */
  function ParseRules(s: State): Result<State>
    requires |s.content| >= 1
  {
    RulesLoop(s.(content := Trim(s.content[1..])))
  }

  /** `parse_rules` consumes at least its `{`, appends only well-formed
      `Rule`s, leaves the stack alone and stops on the `}` or on the missing
      `:`; it fails only where the buffer runs out. */
  lemma ParseRulesOutcome(s: State)
    requires |s.content| >= 1
    ensures ParseRules(s).Ok? ==>
      RulesOutcome(s, ParseRules(s).value) && |ParseRules(s).value.content| < |s.content|
    ensures ParseRules(s).Fail? ==>
      ParseRules(s).fault == EmptyBeforeBrace || ParseRules(s).fault == EmptyBeforeColon
      || ParseRules(s).fault == MissingSemicolon
  {
    var t := s.(content := Trim(s.content[1..]));
    assert ParseRules(s) == RulesLoop(t);
    RulesLoopOutcome(t);
    RulesLoopFaults(t);
    if RulesLoop(t).Ok? {
      var r := RulesLoop(t).value;
      SuffixTrans(t.content, s.content[1..], s.content);
      SuffixTrans(r.content, t.content, s.content);
    }
  }

  /** Appending only `Rule`s keeps the stack paired with the events. */
  lemma RulesKeepNested(s: State, r: State)
    requires RulesOutcome(s, r) && Nested(s)
    ensures Nested(r)
  {
    assert r.data == s.data + r.data[|s.data|..];
    ScannedRulesAreNoSelectors(r.data[|s.data|..]);
    OpenIgnoresOthers(s.data, r.data[|s.data|..]);
  }

  // ---------------------------------------------------------------------
  // parse_end_selector (src/lib.rs:139-147)

  /** `parse_end_selector`: consumes one character and closes the group on
      top of the stack; with no group open it only reports. */
  function ParseEndSelector(s: State): State
    requires |s.content| >= 1
  {
    var c := s.content[1..];
    if s.stack != [] then
      s.(content := c, data := s.data + [EndSelector(s.stack[|s.stack| - 1])], stack := s.stack[..|s.stack| - 1])
    else
      s.(content := c, warnings := s.warnings + [UnpairedClose])
  }

  /** `parse_end_selector` pops the most recently opened group and emits an
      `EndSelector` carrying it, or with no group open reports and emits
      nothing; either way the stack stays paired with the events. */
  lemma EndSelectorOutcome(s: State)
    requires |s.content| >= 1
    ensures ParseEndSelector(s).content == s.content[1..]
    ensures s.stack != [] ==>
      ParseEndSelector(s).stack == s.stack[..|s.stack| - 1]
      && ParseEndSelector(s).data == s.data + [EndSelector(s.stack[|s.stack| - 1])]
      && ParseEndSelector(s).warnings == s.warnings
    ensures s.stack == [] ==>
      ParseEndSelector(s).stack == [] && ParseEndSelector(s).data == s.data
      && ParseEndSelector(s).warnings == s.warnings + [UnpairedClose]
    ensures Nested(s) ==> Nested(ParseEndSelector(s))
    ensures Advances(s, ParseEndSelector(s))
  {
    if s.stack != [] {
      PrefixOfAppend(s.data, [EndSelector(s.stack[|s.stack| - 1])]);
      if Nested(s) {
        OpenPop(s.data, s.stack[|s.stack| - 1]);
      }
    } else {
      PrefixOfAppend(s.warnings, [UnpairedClose]);
    }
  }

  // ---------------------------------------------------------------------
  // parse_comment (src/lib.rs:154-178)

  /** `parse_comment`: drops the two characters that open the comment,
      scans up to the first `/` met while exactly one `*` has been counted,
      consumes that `/` and the character after it, and emits the scanned
      text without its last character. */
  function ParseComment(s: State): Result<State>
    requires |s.content| >= 2
  {
    var c := s.content[2..];
    var n := ScanLen(c, CommentChar(0));
    CommentScan(c, 0);
    assert c[..0] == [];
    if |c[n..]| < 2 then Fail(CommentNotClosed)
    else if c[n - 1] as int >= 0x80 then Fail(CommentSplitsChar)
    else Ok(s.(content := c[n..][2..], data := s.data + [Comment(c[..n - 1])]))
  }

  /** Slicing after the first two characters. */
  lemma DropTwoThenTake(x: seq<char>, k: nat)
    requires 2 <= k <= |x|
    ensures x[2..k] == x[2..][..k - 2]
  {
  }

  /** A comment is the text after the opening two characters up to, and
      without, the character before the first `/` met while exactly one `*`
      has been counted; the `/` and the character after it are consumed. It
      fails only when fewer than two characters are left at the `/`, or the
      last character scanned is not a single byte. */
  lemma CommentOutcome(s: State)
    requires |s.content| >= 2
    ensures ParseComment(s).Ok? ==>
      ParseComment(s).value.stack == s.stack && ParseComment(s).value.warnings == s.warnings
      && |ParseComment(s).value.data| == |s.data| + 1 && IsPrefix(s.data, ParseComment(s).value.data)
      && ParseComment(s).value.data[|s.data|].Comment?
    ensures ParseComment(s).Ok? ==>
      var text := ParseComment(s).value.data[|s.data|].text;
      |text| + 5 <= |s.content|
      && text == s.content[2..|text| + 2]
      && s.content[|text| + 3] == '/' && Stars(s.content[2..|text| + 3]) == 1
      && (forall k :: 2 <= k < |text| + 3 ==> !(s.content[k] == '/' && Stars(s.content[2..k]) == 1))
      && ParseComment(s).value.content == s.content[|text| + 5..]
    ensures ParseComment(s).Fail? ==>
      ParseComment(s).fault == CommentNotClosed || ParseComment(s).fault == CommentSplitsChar
    ensures ParseComment(s).Ok? && Nested(s) ==> Nested(ParseComment(s).value)
  {
    var c := s.content[2..];
    var n := ScanLen(c, CommentChar(0));
    CommentScan(c, 0);
    if ParseComment(s).Ok? {
      var r := ParseComment(s).value;
      PrefixOfAppend(s.data, [Comment(c[..n - 1])]);
      OpenIgnoresOthers(s.data, [Comment(c[..n - 1])]);
      forall k | 2 <= k <= n + 2
        ensures s.content[2..k] == c[..k - 2]
      {
        DropTwoThenTake(s.content, k);
      }
    }
  }

  // ---------------------------------------------------------------------
  // parse (src/lib.rs:35-76)

  /** Each block of an iteration first trims the buffer (src/lib.rs:37, 50,
      58, 66). */
  lemma TrimStateAdvances(s: State)
    ensures Advances(s, TrimState(s))
    ensures |TrimState(s).content| == |s.content| ==> TrimState(s) == s
    ensures Nested(TrimState(s)) == Nested(s)
  {
    assert s.content[0..] == s.content;
  }

  /** The selector block of an iteration (src/lib.rs:37-48). */
  function SelectorStage(s: State): State {
    var t := TrimState(s);
    if t.content != [] && IsSelectorHead(t.content[0]) then ParseStartSelector(t) else t
  }

  /** On the start of a selector the selector block parses one. */
  lemma SelectorStageStarts(s: State)
    requires s.content != [] && IsSelectorHead(s.content[0])
    ensures SelectorStage(s) == ParseStartSelector(s)
  {
    TrimNoWhitespaceHead(s.content);
    assert TrimState(s) == s;
  }

  /** The rules block of an iteration (src/lib.rs:50-56). */
  function RulesStage(s: State): Result<State> {
    var t := TrimState(s);
    if t.content != [] && t.content[0] == '{' then ParseRules(t) else Ok(t)
  }

  /** On a `{` the rules block parses the declarations after it. */
  lemma RulesStageOpens(s: State)
    requires s.content != [] && s.content[0] == '{'
    ensures RulesStage(s) == ParseRules(s)
  {
    TrimNoWhitespaceHead(s.content);
    assert TrimState(s) == s;
  }

  /** The closing block of an iteration (src/lib.rs:58-64). */
  function EndStage(s: State): State {
    var t := TrimState(s);
    if t.content != [] && t.content[0] == '}' then ParseEndSelector(t) else t
  }

  /** The comment block of an iteration (src/lib.rs:66-72). */
  function CommentStage(s: State): Result<State> {
    var t := TrimState(s);
    if |t.content| > 1 && t.content[0] == '/' && t.content[1] == '*' then ParseComment(t) else Ok(t)
  }

  /** What every block of an iteration guarantees: it only consumes input
      and appends events, it changes nothing when it consumes nothing, and it
      keeps the stack paired with the events. */
  predicate Block(s: State, r: State) {
    Advances(s, r) && (|r.content| == |s.content| ==> r == s) && (Nested(s) ==> Nested(r))
  }

  lemma BlockTrans(s: State, t: State, u: State)
    requires Block(s, t) && Block(t, u)
    ensures Block(s, u)
  {
    AdvancesTrans(s, t, u);
  }

  lemma SelectorStageBlock(s: State)
    ensures Block(s, SelectorStage(s))
  {
    var t := TrimState(s);
    TrimStateAdvances(s);
    if t.content != [] && IsSelectorHead(t.content[0]) {
      StartSelectorBlock(t);
      BlockTrans(s, t, ParseStartSelector(t));
    }
  }

  lemma StartSelectorBlock(t: State)
    requires t.content != [] && IsSelectorHead(t.content[0])
    ensures Block(t, ParseStartSelector(t))
  {
    StartSelectorOutcome(t);
  }

  lemma RulesStageBlock(s: State)
    ensures RulesStage(s).Ok? ==> Block(s, RulesStage(s).value)
  {
    var t := TrimState(s);
    TrimStateAdvances(s);
    if t.content != [] && t.content[0] == '{' && ParseRules(t).Ok? {
      ParseRulesOutcome(t);
      AdvancesTrans(s, t, ParseRules(t).value);
      if Nested(t) {
        RulesKeepNested(t, ParseRules(t).value);
      }
    }
  }

  lemma EndStageBlock(s: State)
    ensures Block(s, EndStage(s))
  {
    var t := TrimState(s);
    TrimStateAdvances(s);
    if t.content != [] && t.content[0] == '}' {
      EndSelectorOutcome(t);
      AdvancesTrans(s, t, ParseEndSelector(t));
    }
  }

  lemma CommentStageBlock(s: State)
    ensures CommentStage(s).Ok? ==> Block(s, CommentStage(s).value)
  {
    var t := TrimState(s);
    TrimStateAdvances(s);
    if |t.content| > 1 && t.content[0] == '/' && t.content[1] == '*' && ParseComment(t).Ok? {
      CommentOutcome(t);
      AdvancesTrans(s, t, ParseComment(t).value);
    }
  }

  /** One iteration of the dispatch loop (src/lib.rs:37-72): each construct
      is tried in turn, each behind its own test of the head. */
  function ParseStep(s: State): Result<State> {
    var s2 := SelectorStage(s);
    var s4 :- RulesStage(s2);
    CommentStage(EndStage(s4))
  }

  /** An iteration only consumes input and appends events; one that
      consumes nothing changes nothing, so the source would repeat it
      forever; and the stack stays paired with the events. */
  lemma ParseStepBlock(s: State)
    ensures ParseStep(s).Ok? ==> Block(s, ParseStep(s).value)
  {
    var s2 := SelectorStage(s);
    var r4 := RulesStage(s2);
    if r4.Ok? {
      var s6 := EndStage(r4.value);
      var r := CommentStage(s6);
      assert ParseStep(s) == r;
      if r.Ok? {
        SelectorStageBlock(s);
        RulesStageBlock(s2);
        EndStageBlock(r4.value);
        CommentStageBlock(s6);
        BlockChain(s, s2, r4.value, s6, r.value);
      }
    }
  }

  lemma BlockChain(s1: State, s2: State, s3: State, s4: State, s5: State)
    requires Block(s1, s2) && Block(s2, s3) && Block(s3, s4) && Block(s4, s5)
    ensures Block(s1, s5)
  {
    BlockTrans(s1, s2, s3);
    BlockTrans(s1, s3, s4);
    BlockTrans(s1, s4, s5);
  }

  /** `parse`: iterates until the buffer is empty; an iteration that
      consumes nothing would repeat forever, which is reported as `Loops`. */
  function ParseAll(s: State): Result<State>
    decreases |s.content|
  {
    if s.content == [] then Ok(s)
    else
      var s1 :- ParseStep(s);
      if |s1.content| < |s.content| then ParseAll(s1) else Fail(Loops)
  }

  /** A run ends with the buffer drained, every earlier event and warning
      kept, and the stack holding exactly the groups still open, each
      `EndSelector` having closed the group on top. */
  lemma {:induction false} ParseAllBlock(s: State)
    ensures ParseAll(s).Ok? ==> Block(s, ParseAll(s).value) && ParseAll(s).value.content == []
    decreases |s.content|
  {
    if s.content != [] {
      ParseStepBlock(s);
      if ParseStep(s).Ok? {
        var s1 := ParseStep(s).value;
        if |s1.content| < |s.content| {
          assert ParseAll(s) == ParseAll(s1);
          ParseAllBlock(s1);
          if ParseAll(s1).Ok? {
            BlockTrans(s, s1, ParseAll(s1).value);
          }
        }
      }
    }
  }

  /** An iteration fails only by one of the panics of `parse_rules` or
      `parse_comment`. */
  lemma ParseStepFaults(s: State)
    ensures ParseStep(s).Fail? ==> ParseStep(s).fault != Loops
  {
    var s2 := SelectorStage(s);
    RulesStageFaults(s2);
    if RulesStage(s2).Ok? {
      CommentStageFaults(EndStage(RulesStage(s2).value));
      assert ParseStep(s) == CommentStage(EndStage(RulesStage(s2).value));
    }
  }

  /** The rules block fails only with one of the three panics of `parse_rules`. */
  lemma RulesStageFaults(s: State)
    ensures RulesStage(s).Fail? ==>
      RulesStage(s).fault == EmptyBeforeBrace || RulesStage(s).fault == EmptyBeforeColon
        || RulesStage(s).fault == MissingSemicolon
  {
    var t := TrimState(s);
    if t.content != [] && t.content[0] == '{' {
      ParseRulesOutcome(t);
    }
  }

  /** A comment fails only with one of the two panics of `parse_comment`. */
  lemma CommentStageFaults(s: State)
    ensures CommentStage(s).Fail? ==>
      CommentStage(s).fault == CommentNotClosed || CommentStage(s).fault == CommentSplitsChar
  {
    var t := TrimState(s);
    if |t.content| > 1 && t.content[0] == '/' && t.content[1] == '*' {
      CommentOutcome(t);
    }
  }

  /** A run that reports `Loops` takes one more iteration without a panic,
      and the run from the state after it reports `Loops` again; so the
      source's `while` loop, which stops only on an empty buffer or a panic,
      never ends from `s`. */
  lemma LoopsPersist(s: State)
    ensures ParseAll(s) == Fail(Loops) ==>
      s.content != [] && ParseStep(s).Ok? && ParseAll(ParseStep(s).value) == Fail(Loops)
  {
    if s.content != [] && ParseAll(s) == Fail(Loops) {
      ParseStepFaults(s);
      ParseStepBlock(s);
      if |ParseStep(s).value.content| >= |s.content| {
        StuckIsFixpoint(s);
      }
    }
  }

  /** When the run from `s` reports `Loops`, there is a state with input left,
      whose buffer is a suffix of the buffer of `s` and whose events extend
      those of `s`, that an iteration leaves unchanged and from which the run
      reports `Loops` again. */
  lemma {:induction false} LoopsIsFixpoint(s: State)
    ensures ParseAll(s) == Fail(Loops) ==>
      exists t: State :: Advances(s, t) && t.content != [] && ParseStep(t) == Ok(t)
        && ParseAll(t) == Fail(Loops)
    decreases |s.content|
  {
    if s.content != [] && ParseAll(s) == Fail(Loops) {
      ParseStepFaults(s);
      ParseStepBlock(s);
      var s1 := ParseStep(s).value;
      if |s1.content| < |s.content| {
        assert ParseAll(s) == ParseAll(s1);
        LoopsIsFixpoint(s1);
        var t :| Advances(s1, t) && t.content != [] && ParseStep(t) == Ok(t) && ParseAll(t) == Fail(Loops);
        AdvancesTrans(s, s1, t);
      } else {
        StuckIsFixpoint(s);
        AdvancesRefl(s);
      }
    }
  }

  lemma AdvancesRefl(s: State)
    ensures Advances(s, s)
  {
    assert s.content[0..] == s.content;
  }

  /** An iteration that consumes nothing leaves the state as it was. */
  lemma StuckIsFixpoint(s: State)
    requires ParseStep(s).Ok? && |ParseStep(s).value.content| >= |s.content|
    ensures ParseStep(s) == Ok(s)
  {
    ParseStepBlock(s);
  }

  /** The events of `Lexer::new(text).parse()`. */
  function Lex(text: string): Result<seq<Event>> {
    var s :- ParseAll(Initial(text));
    Ok(s.data)
  }
}
