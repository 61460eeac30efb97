/** The `Lexer` object of src/lib.rs:16-210: a buffer of characters that its
    methods consume from the front while they append events and push and pop
    selector groups. Each method is proved to leave the object in the state
    the matching function of `LexerSpec` computes. */
module CssLexer {
  import opened Scanning
  import opened Events
  import opened LexerSpec

  /** How a method ended: normally, or by the panic `fault`. */
  datatype Status = Normal | Panic(fault: Fault)

  class Lexer {
    var content: seq<char>
    var data: seq<Event>
    var stack: seq<seq<string>>
    var warnings: seq<Warning>

    /** The fields as a value. */
    function Snapshot(): State
      reads this
    {
      State(content, data, stack, warnings)
    }

    /** The outcome of a method that ended with `st`. */
    function After(st: Status): Result<State>
      reads this
    {
      if st.Panic? then Fail(st.fault) else Ok(Snapshot())
    }

    /** `Lexer::new` (src/lib.rs:26-32). */
    constructor (contents: string)
      ensures Snapshot() == Initial(contents)
    {
      content := contents;
      data := [];
      stack := [];
      warnings := [];
    }

    /** `take_slice` (src/lib.rs:204-209): returns `content[from..to]` and
        drops everything before `to`. Out of range, the source panics. */
    method TakeSlice(from: nat, to: nat) returns (slice: string)
      requires from <= to <= |content|
      modifies this
      ensures slice == old(content)[from..to] && content == old(content)[to..]
      ensures data == old(data) && stack == old(stack) && warnings == old(warnings)
    {
      slice := content[from..to];
      content := content[to..];
    }

    /** `take_while_from` (src/lib.rs:191-202): the characters from `start`
        on that the scanner accepts, one call of the predicate per
        character, and the buffer after them. */
    method TakeWhileFrom(start: nat, sc: Scanner) returns (taken: string)
      requires start <= |content|
      modifies this
      ensures taken == old(content)[start..start + ScanLen(old(content)[start..], sc)]
      ensures content == old(content)[start + ScanLen(old(content)[start..], sc)..]
      ensures data == old(data) && stack == old(stack) && warnings == old(warnings)
    {
      var i := start;
      var cur := sc;
      while i < |content|
        invariant start <= i <= |content|
        invariant ScanLen(content[start..], sc) == (i - start) + ScanLen(content[i..], cur)
        decreases |content| - i
      {
        var (go, next) := Step(cur, content[i]);
        if !go {
          break;
        }
        assert content[i..][1..] == content[i + 1..];
        cur := next;
        i := i + 1;
      }
      taken := TakeSlice(start, i);
    }

    /** `take_while` (src/lib.rs:184-189). */
    method TakeWhile(sc: Scanner) returns (taken: string)
      modifies this
      ensures taken == old(content)[..ScanLen(old(content), sc)]
      ensures content == old(content)[ScanLen(old(content), sc)..]
      ensures data == old(data) && stack == old(stack) && warnings == old(warnings)
    {
      assert content[0..] == content;
      taken := TakeWhileFrom(0, sc);
    }

    /** `trim_whitespaces` (src/lib.rs:180-182). */
    method TrimWhitespaces()
      modifies this
      ensures Snapshot() == TrimState(old(Snapshot()))
    {
      TrimIsTakeWhile(content);
      var _ := TakeWhile(Whitespace);
    }

    /** One pass of the loop of `parse_start_selector` (src/lib.rs:88-95):
        a selector, then its whitespace and at most one comma. */
    method TakeSelector() returns (selector: string)
      requires content != [] && content[0] != '{'
      modifies this
      ensures (selector, content) == SelectorStep(old(content))
      ensures data == old(data) && stack == old(stack) && warnings == old(warnings)
    {
      selector := TakeWhile(SelectorChar);
      TrimWhitespaces();
      if content != [] && content[0] == ',' {
        var _ := TakeSlice(0, 1);
        TrimWhitespaces();
      }
    }

    /** `parse_start_selector` (src/lib.rs:83-105). */
    method ParseStartSelector()
      modifies this
      ensures Snapshot() == LexerSpec.ParseStartSelector(old(Snapshot()))
    {
      var selectors: seq<string> := [];
      while content != [] && content[0] != '{'
        invariant SelectorLoop(selectors, content) == SelectorLoop([], old(content))
        invariant data == old(data) && stack == old(stack) && warnings == old(warnings)
        decreases |content|
      {
        SelectorStepShrinks(content);
        var selector := TakeSelector();
        selectors := selectors + [selector];
      }
      assert SelectorLoop([], old(content)) == (selectors, content);
      data := data + [StartSelector(selectors)];
      stack := stack + [selectors];
    }

    /** `parse_end_selector` (src/lib.rs:139-147). */
    method ParseEndSelector()
      requires |content| >= 1
      modifies this
      ensures Snapshot() == LexerSpec.ParseEndSelector(old(Snapshot()))
    {
      var _ := TakeSlice(0, 1);
      if stack != [] {
        var selector := stack[|stack| - 1];
        stack := stack[..|stack| - 1];
        data := data + [EndSelector(selector)];
      } else {
        warnings := warnings + [UnpairedClose];
      }
    }

    /** One pass of the loop of `parse_rules` up to its `;`
        (src/lib.rs:118-129): the name, the `:`, the value, the `;`. */
    method TakeDeclaration() returns (d: Declaration)
      requires content != []
      modifies this
      ensures d == ScanDeclaration(old(content))
      ensures d.Declared? ==> Trim(content) == d.rest
      ensures d.NoColon? ==> content == d.rest
      ensures data == old(data) && stack == old(stack) && warnings == old(warnings)
    {
      var name := TakeWhile(NameChar);
      TrimWhitespaces();
      if content == [] {
        return Broken(EmptyBeforeColon);
      }
      if content[0] != ':' {
        return NoColon(content);
      }
      var _ := TakeSlice(0, 1);
      TrimWhitespaces();
      var value := TakeWhile(ValueChar);
      if content == [] {
        return Broken(MissingSemicolon);
      }
      var _ := TakeSlice(0, 1);
      return Declared(Rule(name, value), Trim(content));
    }

    /** One pass of the loop of `parse_rules` (src/lib.rs:118-133): a
        declaration and its `Rule`, or the report of a missing `:` that ends
        the loop (`done`), or a panic. */
    method RulesPass() returns (st: Status, done: bool)
      requires content != [] && content[0] != '}'
      modifies this
      ensures done ==> After(st) == RulesLoop(old(Snapshot()))
      ensures !done ==> st == Normal && RulesLoop(Snapshot()) == RulesLoop(old(Snapshot()))
      ensures !done ==> |content| < |old(content)|
    {
      DeclarationConsumes(content);
      var d := TakeDeclaration();
      match d
      case Broken(f) =>
        return Panic(f), true;
      case NoColon(_) =>
        warnings := warnings + [MissingColon];
        return Normal, true;
      case Declared(rule, _) =>
        data := data + [rule];
        TrimWhitespaces();
        return Normal, false;
    }

    /** `parse_rules` (src/lib.rs:112-135). It is only called on a buffer
        that starts with `{`. */
    method ParseRules() returns (st: Status)
      requires |content| >= 1
      modifies this
      ensures After(st) == LexerSpec.ParseRules(old(Snapshot()))
    {
      var _ := TakeSlice(0, 1);
      TrimWhitespaces();
      ghost var start := Snapshot();
      assert LexerSpec.ParseRules(old(Snapshot())) == RulesLoop(start);
      while content == [] || content[0] != '}'
        invariant RulesLoop(Snapshot()) == RulesLoop(start)
        decreases |content|
      {
        if content == [] {
          return Panic(EmptyBeforeBrace);
        }
        var done;
        st, done := RulesPass();
        if done {
          return st;
        }
      }
      return Normal;
    }

    /** `parse_comment` (src/lib.rs:154-178). It is only called on a buffer
        that starts with the two characters that open a comment. */
    method ParseComment() returns (st: Status)
      requires |content| >= 2
      modifies this
      ensures After(st) == LexerSpec.ParseComment(old(Snapshot()))
    {
      var _ := TakeSlice(0, 2);
      ghost var c := content;
      CommentScan(c, 0);
      assert c[..0] == [];
      var comment := TakeWhile(CommentChar(0));
      if |content| < 2 {
        return Panic(CommentNotClosed);
      }
      var _ := TakeSlice(0, 2);
      if comment[|comment| - 1] as int >= 0x80 {
        return Panic(CommentSplitsChar);
      }
      assert comment[..|comment| - 1] == c[..|comment| - 1];
      data := data + [Comment(comment[..|comment| - 1])];
      return Normal;
    }

    /** The selector block of an iteration of `parse` (src/lib.rs:37-48). */
    method SelectorBlock()
      modifies this
      ensures Snapshot() == SelectorStage(old(Snapshot()))
    {
      TrimWhitespaces();
      if content != [] && IsSelectorHead(content[0]) {
        ParseStartSelector();
      }
    }

    /** The rules block of an iteration of `parse` (src/lib.rs:50-56). */
    method RulesBlock() returns (st: Status)
      modifies this
      ensures After(st) == RulesStage(old(Snapshot()))
    {
      TrimWhitespaces();
      st := Normal;
      if content != [] && content[0] == '{' {
        st := ParseRules();
      }
    }

    /** The closing block of an iteration of `parse` (src/lib.rs:58-64). */
    method EndBlock()
      modifies this
      ensures Snapshot() == EndStage(old(Snapshot()))
    {
      TrimWhitespaces();
      if content != [] && content[0] == '}' {
        ParseEndSelector();
      }
    }

    /** The comment block of an iteration of `parse` (src/lib.rs:66-72). */
    method CommentBlock() returns (st: Status)
      modifies this
      ensures After(st) == CommentStage(old(Snapshot()))
    {
      TrimWhitespaces();
      st := Normal;
      if |content| > 1 && content[0] == '/' && content[1] == '*' {
        st := ParseComment();
      }
    }

    /** `parse` (src/lib.rs:35-76): dispatches on the head of the buffer
        until the buffer is empty, and returns the events. Where the source
        would go round forever on an iteration that consumes nothing, this
        stops with `Panic(Loops)`. */
    method Parse() returns (st: Status, events: seq<Event>)
      modifies this
      ensures After(st) == ParseAll(old(Snapshot()))
      ensures events == data
    {
      while content != []
        invariant ParseAll(Snapshot()) == ParseAll(old(Snapshot()))
        decreases |content|
      {
        ghost var s0 := Snapshot();
        var length := |content|;
        SelectorBlock();
        st := RulesBlock();
        if st.Panic? {
          assert ParseStep(s0) == Fail(st.fault);
          return st, data;
        }
        EndBlock();
        st := CommentBlock();
        if st.Panic? {
          assert ParseStep(s0) == Fail(st.fault);
          return st, data;
        }
        assert ParseStep(s0) == Ok(Snapshot());
        if |content| >= length {
          return Panic(Loops), data;
        }
      }
      return Normal, data;
    }
  }
}
