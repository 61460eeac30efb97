/** Properties of a whole run of the lexer and of its construct parsers on
    inputs of a known shape. */
module LexerProperties {
  import opened Scanning
  import opened Events
  import opened LexerSpec

  // ---------------------------------------------------------------------
  // A whole run (src/lib.rs:35-76)

  /** A run that returns has drained the buffer, and its stack holds exactly
      the groups opened and not closed: as many as `StartSelector` events
      minus `EndSelector` events. */
  lemma RunNested(text: string)
    ensures ParseAll(Initial(text)).Ok? ==>
      var r := ParseAll(Initial(text)).value;
      r.content == [] && Open(r.data) == Some(r.stack)
      && |r.stack| + Ends(r.data) == Starts(r.data)
  {
    ParseAllBlock(Initial(text));
    if ParseAll(Initial(text)).Ok? {
      OpenDepth(ParseAll(Initial(text)).value.data);
    }
  }

  /** In the events of a run that returns, each `EndSelector` carries the
      group of the most recent `StartSelector` not yet closed before it. */
  lemma RunClosesInOrder(text: string, i: nat)
    requires ParseAll(Initial(text)).Ok?
    requires i < |ParseAll(Initial(text)).value.data|
    requires ParseAll(Initial(text)).value.data[i].EndSelector?
    ensures var events := ParseAll(Initial(text)).value.data;
      Open(events[..i]).Some? && Open(events[..i]).value != []
      && Open(events[..i]).value[|Open(events[..i]).value| - 1] == events[i].selectors
  {
    RunNested(text);
    EndClosesTop(ParseAll(Initial(text)).value.data, i);
  }

  /** A run keeps every event it emitted: the events of any later state of
      a run extend those of an earlier one, and the buffer only shrinks. */
  lemma RunAppends(s: State)
    ensures ParseAll(s).Ok? ==>
      IsPrefix(s.data, ParseAll(s).value.data) && IsSuffix(ParseAll(s).value.content, s.content)
  {
    ParseAllBlock(s);
  }

  /** A buffer whose head no construct takes (not whitespace, not the start
      of a selector, not a brace, not the start of a comment) makes an
      iteration change nothing, so the source repeats it forever. */
  lemma IdleHeadLoops(s: State)
    requires s.content != [] && !IsWhitespace(s.content[0]) && !IsSelectorHead(s.content[0])
    requires s.content[0] != '{' && s.content[0] != '}'
    requires !(|s.content| > 1 && s.content[0] == '/' && s.content[1] == '*')
    ensures ParseStep(s) == Ok(s) && ParseAll(s) == Fail(Loops)
  {
    TrimNoWhitespaceHead(s.content);
    assert TrimState(s) == s;
    assert SelectorStage(s) == s;
    assert RulesStage(s) == Ok(s);
    assert EndStage(s) == s;
    assert CommentStage(s) == Ok(s);
  }

  // ---------------------------------------------------------------------
  // Scanning a prefix of known shape

  /** A predicate without state that accepts all of `t` and rejects the
      first character after it takes exactly `t`. */
  lemma {:induction false} ScanStops(t: seq<char>, u: seq<char>, sc: Scanner)
    requires !sc.CommentChar?
    requires forall k :: 0 <= k < |t| ==> Accepts(sc, t[k])
    requires u == [] || !Accepts(sc, u[0])
    ensures ScanLen(t + u, sc) == |t|
    decreases |t|
  {
    if t == [] {
      assert t + u == u;
    } else {
      assert (t + u)[1..] == t[1..] + u;
      ScanStops(t[1..], u, sc);
    }
  }

  /** Every character of `w` is whitespace. */
  predicate AllWhitespace(w: seq<char>) {
    forall k :: 0 <= k < |w| ==> IsWhitespace(w[k])
  }

  /** A well-formed declaration `name ws1 : ws2 value ; rest` is read back as
      `Rule(name, value)`, the value keeping any whitespace before its `;`,
      and the loop goes on at `rest` without its leading whitespace. */
  lemma DeclarationRoundTrip(name: string, ws1: string, ws2: string, value: string, rest: string)
    requires forall k :: 0 <= k < |name| ==> IsAlphabetic(name[k]) || name[k] == '-'
    requires AllWhitespace(ws1) && AllWhitespace(ws2)
    requires forall k :: 0 <= k < |value| ==> value[k] != ';'
    requires value == [] || !IsWhitespace(value[0])
    ensures ScanDeclaration(name + ws1 + [':'] + ws2 + value + [';'] + rest)
      == Declared(Rule(name, value), Trim(rest))
  {
    var afterColon := ws2 + value + ([';'] + rest);
    var c := name + (ws1 + ([':'] + afterColon));
    assert name + ws1 + [':'] + ws2 + value + [';'] + rest == c;
    NamePart(name, ws1, afterColon);
    assert ([':'] + afterColon)[1..] == afterColon;
    ValuePart(ws2, value, rest);
    DeclaredFrom(c, |name|, [':'] + afterColon, Trim(afterColon), |value|, rest);
  }

  /** How `ScanDeclaration` reads a buffer whose parts are known. */
  lemma DeclaredFrom(c: seq<char>, n: nat, c1: seq<char>, c2: seq<char>, m: nat, rest: seq<char>)
    requires c != [] && n <= |c| && ScanLen(c, NameChar) == n && Trim(c[n..]) == c1
    requires c1 != [] && c1[0] == ':' && Trim(c1[1..]) == c2
    requires m <= |c2| && ScanLen(c2, ValueChar) == m && c2[m..] == [';'] + rest
    ensures ScanDeclaration(c) == Declared(Rule(c[..n], c2[..m]), Trim(rest))
  {
    assert c2[m..][1..] == rest;
  }

  /** The name of a declaration, and the whitespace before its `:`. */
  lemma NamePart(name: string, ws1: string, afterColon: string)
    requires forall k :: 0 <= k < |name| ==> IsAlphabetic(name[k]) || name[k] == '-'
    requires AllWhitespace(ws1)
    ensures var c := name + (ws1 + ([':'] + afterColon));
      ScanLen(c, NameChar) == |name| && c[..|name|] == name
      && Trim(c[|name|..]) == [':'] + afterColon
  {
    var afterName := ws1 + ([':'] + afterColon);
    assert afterName[0] == if ws1 == [] then ':' else ws1[0];
    ScanStops(name, afterName, NameChar);
    assert (name + afterName)[|name|..] == afterName;
    assert (name + afterName)[..|name|] == name;
    TrimWhitespaceRun(ws1, [':'] + afterColon);
  }

  /** The value of a declaration after the whitespace that follows its `:`. */
  lemma ValuePart(ws2: string, value: string, rest: string)
    requires AllWhitespace(ws2)
    requires forall k :: 0 <= k < |value| ==> value[k] != ';'
    requires value == [] || !IsWhitespace(value[0])
    ensures var c2 := Trim(ws2 + value + ([';'] + rest));
      ScanLen(c2, ValueChar) == |value| && c2[..|value|] == value
      && c2[|value|..] == [';'] + rest
  {
    var x := value + ([';'] + rest);
    ValueTrim(ws2, value, rest);
    ValueStops(value, rest);
    assert x[..|value|] == value;
    assert x[|value|..] == [';'] + rest;
  }

  lemma ValueTrim(ws2: string, value: string, rest: string)
    requires AllWhitespace(ws2)
    requires value == [] || !IsWhitespace(value[0])
    ensures Trim(ws2 + value + ([';'] + rest)) == value + ([';'] + rest)
  {
    var x := value + ([';'] + rest);
    assert ws2 + value + ([';'] + rest) == ws2 + x;
    assert x[0] == if value == [] then ';' else value[0];
    TrimWhitespaceRun(ws2, x);
  }

  lemma ValueStops(value: string, rest: string)
    requires forall k :: 0 <= k < |value| ==> value[k] != ';'
    ensures ScanLen(value + ([';'] + rest), ValueChar) == |value|
  {
    ScanStops(value, [';'] + rest, ValueChar);
  }

  // ---------------------------------------------------------------------
  // Comments (src/lib.rs:154-178)

  /** Text without a `*` does not stop the comment scan. */
  lemma {:induction false} CommentScanSkips(t: seq<char>, u: seq<char>)
    requires forall k :: 0 <= k < |t| ==> t[k] != '*'
    ensures ScanLen(t + u, CommentChar(0)) == |t| + ScanLen(u, CommentChar(0))
    decreases |t|
  {
    if t == [] {
      assert t + u == u;
    } else {
      assert (t + u)[1..] == t[1..] + u;
      CommentScanSkips(t[1..], u);
    }
  }

  /** A comment `/*t*/` whose text holds no `*` is emitted as `Comment(t)`,
      and the character right after it is consumed along with the `/`. */
  lemma CommentRoundTrip(s: State, t: string, x: char, rest: string)
    requires forall k :: 0 <= k < |t| ==> t[k] != '*'
    requires s.content == "/*" + t + "*/" + [x] + rest
    ensures ParseComment(s) == Ok(s.(content := rest, data := s.data + [Comment(t)]))
  {
    var tail := "*/" + [x] + rest;
    var c := s.content[2..];
    assert c == t + tail;
    CommentScanSkips(t, tail);
    assert ScanLen(tail, CommentChar(0)) == 1 by {
      assert tail[1..] == "/" + [x] + rest;
    }
    var n := |t| + 1;
    assert c[n..] == "/" + [x] + rest;
    assert c[n..][2..] == rest;
    assert c[..n - 1] == t;
    assert c[n - 1] == '*';
  }

  /** A comment `/*t*/` at the very end of the input makes `parse_comment`
      fail: it wants one more character after the closing `/`. */
  lemma CommentAtEndFails(s: State, t: string)
    requires forall k :: 0 <= k < |t| ==> t[k] != '*'
    requires s.content == "/*" + t + "*/"
    ensures ParseComment(s) == Fail(CommentNotClosed)
  {
    var tail := "*/";
    var c := s.content[2..];
    assert c == t + tail;
    CommentScanSkips(t, tail);
    assert ScanLen(tail, CommentChar(0)) == 1 by {
      assert tail[1..] == "/";
    }
    assert c[|t| + 1..] == "/";
  }
}
