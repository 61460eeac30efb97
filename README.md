# css-parser-rs lexer, modelled in Dafny

css-parser-rs turns the text of a simplified CSS style sheet into a flat list
of events:

- `StartSelector(group)` when a selector group opens a block;
- `Rule(name, value)` for each `name: value;` declaration;
- `EndSelector(group)` when the `}` closes the block of that group;
- `Comment(text)` for each `/* ... */` comment.

All of this lives in one object, `Lexer` (src/lib.rs). It has three fields:

- a buffer of characters that its methods consume from the front;
- the events emitted so far;
- a stack of the selector groups still open.

`parse` goes round a loop until the buffer is empty. Each iteration trims
whitespace and then tries four constructs in a fixed order: a selector start,
a declaration block, a closing brace and a comment. Each construct is tried
behind its own test of the head of the buffer.

The project has six modules:

- `Scanning` (Scanning.dfy) models the scanning primitives:
  - `take_while`, with its `FnMut` predicates written as the `Scanner`
    datatype (the comment predicate carries its count of `*`);
  - `trim_whitespaces`;
  - the Unicode `White_Space` set.
- `Events` (Events.dfy) defines the events and `Open`. `Open` replays the
  events against a stack of groups and says whether every `EndSelector`
  closed the group on top.
- `LexerSpec` (LexerSpec.dfy) gives each method of `Lexer` as a function
  from the state before to the state after. The lemmas beside them state:
  - what each construct consumes and emits;
  - that every iteration only consumes input and appends events;
  - that the stack stays paired with the events;
  - on which inputs the source panics or never stops.
- `CssLexer` (Lexer.dfy) holds the class `Lexer`. Its fields are those of
  the source. Its methods run the same loops step by step, and each is
  proved to leave exactly the state that the matching `LexerSpec` function
  computes.
- `LexerProperties` (Properties.dfy) and `LexerRoundTrips` (RoundTrips.dfy)
  prove properties of whole runs and read-back properties:
  - a declaration written as `name: value;` comes back as its `Rule`;
  - a comment comes back as its `Comment`;
  - a whole written block `a, b { x: 1; y: 2; }` lexes to its
    `StartSelector`, its `Rule`s and its `EndSelector`;
  - any number of written blocks, one after another, lex to the events of
    each block in turn. Each group is closed right after it is opened, and
    no group is left open at the end.
- `LexerScenarios` (Scenarios.dfy) works out the outcome of concrete inputs
  from those general lemmas.

Where the source panics, the model returns `Fail(fault)` with the reason.
There are five such reasons:

- indexing an empty buffer before a `}`;
- indexing an empty buffer before a `:`;
- slicing past the end for the `;`;
- slicing past the end for the end of a comment;
- cutting a multi-byte character off a comment.

Where the outer loop would go round forever, the model returns
`Fail(Loops)`. This happens when an iteration consumes nothing, for example
on a `;` at top level. `LoopsPersist` proves that from a state where the
run reports `Loops`, the buffer still holds input, the next iteration does
not panic, and the run from the state after it reports `Loops` again. The
source's `while` loop stops only on an empty buffer or a panic, so from such
a state it never ends. `StuckIsFixpoint` proves that an iteration that
consumes nothing leaves the state exactly as it was.

The two diagnostics that the source writes with `eprintln!` are appended to
a `warnings` field.

A comment does not behave as a plain reading of its code comments
suggests, and the model follows the code. The scan keeps the closing `*` in
the scanned text and stops on the `/`. `take_slice(0, 2)` then removes that
`/` *and the character after it*. So `/* hello */\n` gives
`Comment(" hello ")` and consumes the newline. `/* x */` at the very end of
the input, and `/**/` alone, panic because there is no second character to
take (`CommentAtEndFails`, `LexerScenarios.CommentAtEnd`). A `*/` seen after
two or more `*` have been counted, as in `/** x */`, does not stop the scan.
The character dropped from the end of the text is whatever was scanned last,
which is the closing `*` only when that `*` stands right before the `/`. For
example, `/* * a /x` gives `Comment(" * a")`: the space before the `/` is
dropped and the earlier `*` is kept.

The operations are specified by functions on a `State` value. Their
contracts are stated by the lemmas and methods in the table below.

- `LexerSpec.ParseAll` is the `while` loop of `parse` (src/lib.rs:35-76).
- `LexerSpec.ParseStep` is one iteration of it (src/lib.rs:36-73).
- `LexerSpec.RulesLoop` is the declaration loop of `parse_rules`
  (src/lib.rs:117-134).
- `LexerSpec.ScanDeclaration` reads one declaration (src/lib.rs:118-129).
- `LexerSpec.SelectorStep` is one pass of the selector loop
  (src/lib.rs:88-95).
- `Scanning.Step` is one call of the closures passed to `take_while`
  (src/lib.rs:88, 118, 128, 159-171, 181).
- `Scanning.IsWhitespace` is Rust's `char::is_whitespace`, the Unicode
  White_Space property, used at src/lib.rs:181.

## Model

| member | source | states |
|---|---|---|
| CssLexer.Lexer.constructor | src/lib.rs:26-32 | a new lexer holds the whole input, no events, no open group and no diagnostics |
| CssLexer.Lexer.TakeSlice | src/lib.rs:204-209 | returns the characters from `from` to `to` and leaves the buffer after `to`, the other fields unchanged |
| CssLexer.Lexer.TakeWhileFrom | src/lib.rs:191-202 | the loop calls the predicate once per character from `start`; it returns exactly the characters the scanner accepts and leaves the buffer after them |
| CssLexer.Lexer.TakeWhile | src/lib.rs:184-189 | takes the prefix the scanner accepts and leaves the rest |
| CssLexer.Lexer.TrimWhitespaces | src/lib.rs:180-182 | leaves the buffer with its leading whitespace removed, the other fields unchanged |
| CssLexer.Lexer.TakeSelector | src/lib.rs:88-95 | one pass of the selector loop: a token up to a space, comma or `{`, then whitespace and at most one comma with the whitespace after it |
| CssLexer.Lexer.ParseStartSelector | src/lib.rs:83-105 | the loop collects the group up to a `{` or the end of input; the group is appended as a `StartSelector` and pushed on the stack |
| CssLexer.Lexer.ParseEndSelector | src/lib.rs:139-147 | consumes the `}` and pops the top group into an `EndSelector`; with no group open it only reports |
| CssLexer.Lexer.TakeDeclaration | src/lib.rs:118-129 | reads a name, whitespace, a `:`, whitespace, a value up to `;`, and the `;`; it reports a missing `:` and a buffer that runs out |
| CssLexer.Lexer.RulesPass | src/lib.rs:118-133 | one pass of the declaration loop: emits the `Rule` and consumes input, or ends the loop with the `parse_rules` result |
| CssLexer.Lexer.ParseRules | src/lib.rs:112-135 | consumes the `{` and runs the declaration loop to the `}`, to the missing `:`, or to the panic on an empty buffer |
| CssLexer.Lexer.ParseComment | src/lib.rs:154-178 | drops `/*`, scans with the counting predicate, consumes two more characters and emits the text without its last character, or panics |
| CssLexer.Lexer.SelectorBlock | src/lib.rs:37-48 | trims, then starts a selector exactly when the head is `*`, `.`, `#` or a letter |
| CssLexer.Lexer.RulesBlock | src/lib.rs:50-56 | trims, then parses declarations exactly when the head is `{` |
| CssLexer.Lexer.EndBlock | src/lib.rs:58-64 | trims, then closes a selector exactly when the head is `}` |
| CssLexer.Lexer.CommentBlock | src/lib.rs:66-72 | trims, then parses a comment exactly when the buffer starts with `/*` |
| CssLexer.Lexer.Parse | src/lib.rs:35-76 | iterates the four blocks until the buffer is empty and returns the events; it ends with the outcome `ParseAll` gives, including each panic and the endless loop |
| Scanning.ScanLen | src/lib.rs:197-199 | `take_while` never takes more characters than the buffer holds |
| Scanning.ScanStateless | src/lib.rs:184-202 | with a stateless predicate, `take_while` takes the longest prefix on which the predicate holds |
| Scanning.NameScan | src/lib.rs:118 | a property name is made of letters and `-` only |
| Scanning.ValueScan | src/lib.rs:128 | a property value holds no `;`, and the scan stops only on a `;` or at the end |
| Scanning.CommentScan | src/lib.rs:157-169 | the comment scan stops at the first `/` seen while exactly one `*` has been counted, and nowhere else |
| Scanning.Trim | src/lib.rs:180-182 | trimming leaves a suffix of the buffer that starts with a non-whitespace character or is empty |
| Scanning.TrimDropsWhitespace | src/lib.rs:180-182 | trimming removes whitespace characters only |
| Scanning.TrimIsTakeWhile | src/lib.rs:180-182 | trimming is `take_while` with the whitespace predicate |
| Scanning.TrimNoWhitespaceHead | src/lib.rs:180-182 | trimming a buffer that does not start with whitespace changes nothing |
| Scanning.TrimIdempotent | src/lib.rs:180-182 | trimming twice is the same as trimming once |
| Scanning.TrimWhitespaceRun | src/lib.rs:180-182 | trimming a whitespace run followed by a non-whitespace character leaves exactly what follows the run |
| Events.OpenDepth | src/lib.rs:103-104 | with properly paired events, the open groups number the `StartSelector`s minus the `EndSelector`s |
| Events.OpenPrefix | src/lib.rs:142-143 | a prefix of properly paired events is properly paired |
| Events.EndClosesTop | src/lib.rs:142-143 | in properly paired events each `EndSelector` carries the most recent group still open before it |
| Events.OpenIgnoresOthers | src/lib.rs:131 | events that neither open nor close a group leave the open groups unchanged |
| Events.CountsAppend | src/lib.rs:103-104 | the groups opened and closed by two lists of events in a row are the sums of those of each |
| Events.NoSelectorCounts | src/lib.rs:131 | events that neither open nor close a group count as no opening and no closing |
| LexerSpec.SkipComma | src/lib.rs:92-95 | skipping the comma and its whitespace only removes characters from the front |
| LexerSpec.SelectorStepToken | src/lib.rs:88 | a selector token holds no space, comma or `{` |
| LexerSpec.SelectorStepShrinks | src/lib.rs:87-98 | each pass of the selector loop consumes at least one character, so the loop ends |
| LexerSpec.SelectorLoop | src/lib.rs:87-98 | the selector loop stops on a `{` or at the end, keeps every selector a token, and collects at least one selector when there was input before the `{` |
| LexerSpec.StartSelectorOutcome | src/lib.rs:83-105 | emits exactly one `StartSelector` and pushes the same group; it stops on `{` or the end, consumes input when the head is not `{`, and keeps the stack paired with the events |
| LexerSpec.ScannedRulesAreNoSelectors | src/lib.rs:131 | declarations open and close no group |
| LexerSpec.DeclarationShape | src/lib.rs:118-131 | an emitted rule has a name of letters and `-` and a value with no `;` and no leading whitespace; a declaration fails only before the `:` or the `;` |
| LexerSpec.DeclarationConsumes | src/lib.rs:118-133 | a complete declaration consumes input; a missing `:` leaves the buffer on the character where the `:` was expected |
| LexerSpec.ValueConsumes | src/lib.rs:125-133 | what follows a value's `;` is a suffix of the buffer |
| LexerSpec.RulesLoopAdvances | src/lib.rs:117-134 | the declaration loop only consumes input and appends events and diagnostics, and it never touches the stack |
| LexerSpec.RulesLoopRules | src/lib.rs:117-134 | every event the declaration loop appends is a `Rule` of the scanned shape |
| LexerSpec.RulesLoopStops | src/lib.rs:117-124 | the loop ends on the `}`, or on the character where a `:` was missing, and reports the missing `:` |
| LexerSpec.RulesLoopFaults | src/lib.rs:117-129 | the loop fails only by running out of input before a `}`, a `:` or a `;` |
| LexerSpec.RulesLoopOutcome | src/lib.rs:117-134 | gathers the three loop facts above |
| LexerSpec.ParseRulesOutcome | src/lib.rs:112-135 | `parse_rules` consumes at least its `{`, appends only well-formed `Rule`s, leaves the stack alone, stops on `}` or a missing `:`, and fails only on an exhausted buffer |
| LexerSpec.RulesKeepNested | src/lib.rs:131 | a declaration block keeps the stack paired with the events |
| LexerSpec.EndSelectorOutcome | src/lib.rs:139-147 | consumes one character and pops the top group into an `EndSelector`, or reports an unpaired `}` and emits nothing; the pairing is kept |
| LexerSpec.CommentOutcome | src/lib.rs:154-178 | a comment's text is the input after `/*` up to the character before the stopping `/`; the `/` and one more character are consumed; the only failures are a missing terminator and a split character |
| LexerSpec.TrimStateAdvances | src/lib.rs:180-182 | a trim only consumes input and changes nothing when nothing is consumed |
| LexerSpec.SelectorStageStarts | src/lib.rs:41-47 | on `*`, `.`, `#` or a letter the first block parses a selector start |
| LexerSpec.RulesStageOpens | src/lib.rs:54-55 | on a `{` the second block parses declarations |
| LexerSpec.SelectorStageBlock | src/lib.rs:37-48 | the selector block consumes input or changes nothing, and keeps the pairing |
| LexerSpec.StartSelectorBlock | src/lib.rs:83-105 | a selector start consumes input, appends and keeps the pairing |
| LexerSpec.RulesStageBlock | src/lib.rs:50-56 | the rules block consumes input or changes nothing, and keeps the pairing |
| LexerSpec.EndStageBlock | src/lib.rs:58-64 | the closing block consumes input or changes nothing, and keeps the pairing |
| LexerSpec.CommentStageBlock | src/lib.rs:66-72 | the comment block consumes input or changes nothing, and keeps the pairing |
| LexerSpec.ParseStepBlock | src/lib.rs:37-72 | an iteration only consumes input and appends; one that consumes nothing changes nothing; the pairing is kept |
| LexerSpec.ParseAllBlock | src/lib.rs:35-76 | a run that returns drains the buffer, keeps every earlier event and diagnostic, and keeps the stack paired with the events |
| LexerSpec.ParseStepFaults | src/lib.rs:37-72 | an iteration fails only by a panic of `parse_rules` or `parse_comment` |
| LexerSpec.RulesStageFaults | src/lib.rs:50-56 | the rules block fails only with one of the three panics of `parse_rules`: an empty buffer before the `}`, an empty buffer before the `:`, or no `;` |
| LexerSpec.CommentStageFaults | src/lib.rs:66-72 | the comment block fails only with one of the two panics of `parse_comment`: no second character after the end of the comment, or a slice that cuts a multi-byte character |
| LexerSpec.LoopsPersist | src/lib.rs:35-76 | from a state where the run reports an endless loop, the buffer still holds input, the next iteration does not panic, and the run from the state after it loops again, so the `while` loop never ends |
| LexerSpec.LoopsIsFixpoint | src/lib.rs:36-73 | when a run reports an endless loop, there is a state with input left, whose buffer is a suffix of the starting buffer and whose events extend the starting events, that an iteration leaves unchanged and from which the run loops again |
| LexerSpec.StuckIsFixpoint | src/lib.rs:36-73 | an iteration that consumes nothing leaves the state exactly as it was |
| LexerProperties.RunNested | src/lib.rs:35-76 | after a run that returns, the buffer is empty and the stack holds exactly the open groups, as many as `StartSelector`s minus `EndSelector`s |
| LexerProperties.RunClosesInOrder | src/lib.rs:142-143 | in the events of a run, each `EndSelector` carries the group of the latest `StartSelector` not yet closed |
| LexerProperties.RunAppends | src/lib.rs:35-76 | a run keeps every event already emitted and only consumes its buffer |
| LexerProperties.IdleHeadLoops | src/lib.rs:36-73 | a head that none of the four tests accepts, such as `;` or `:`, makes the loop repeat forever |
| LexerProperties.ScanStops | src/lib.rs:191-202 | a stateless scan over a run it accepts, followed by a character it rejects, takes exactly that run |
| LexerProperties.DeclarationRoundTrip | src/lib.rs:118-133 | `name ws : ws value ; rest` is read back as `Rule(name, value)`, with the buffer at `rest` without its leading whitespace |
| LexerProperties.CommentScanSkips | src/lib.rs:159-169 | text without `*` never stops the comment scan |
| LexerProperties.CommentRoundTrip | src/lib.rs:154-178 | `/*t*/x rest`, where `t` has no `*`, emits `Comment(t)` and leaves `rest`, consuming `x` too |
| LexerProperties.CommentAtEndFails | src/lib.rs:171 | `/*t*/` at the end of the input panics, because the source takes two characters after the scan |
| LexerRoundTrips.GroupTextHead | src/lib.rs:41-45 | a written group starts with the first character of its first selector |
| LexerRoundTrips.TokenThenSpace | src/lib.rs:88-90 | a selector followed by a space and then a `{` or the end is taken as one token |
| LexerRoundTrips.TokenThenComma | src/lib.rs:88-95 | a selector followed by `, ` is taken as one token, and the comma and the space are dropped |
| LexerRoundTrips.GroupRoundTrip | src/lib.rs:87-98 | the selector loop reads a group written as `a, b, c ` back as the same selectors, in order |
| LexerRoundTrips.DeclsTextHead | src/lib.rs:117 | written declarations followed by `}` start with neither whitespace nor `}` unless they are empty |
| LexerRoundTrips.FirstDeclaration | src/lib.rs:118-133 | the first written declaration is scanned as its own `Rule`, and the next one follows |
| LexerRoundTrips.RulesRoundTrip | src/lib.rs:117-134 | the declaration loop reads written declarations back as their `Rule`s, in order, and stops on the `}` |
| LexerRoundTrips.RulesStep | src/lib.rs:117-134 | one written declaration advances the loop to the rest of the list |
| LexerRoundTrips.GroupOpens | src/lib.rs:37-48 | from any state, the selector block on a written group emits and pushes exactly that group and stops on the `{` |
| LexerRoundTrips.GroupCollects | src/lib.rs:87-98 | the selector loop from an empty group collects the written group |
| LexerRoundTrips.BodyRules | src/lib.rs:50-56 | the rules block on a written body emits its `Rule`s and leaves the buffer at its `}`, whatever follows it |
| LexerRoundTrips.BodyTrim | src/lib.rs:113-115 | after the `{` and the leading whitespace, the declarations themselves are left, with whatever follows them |
| LexerRoundTrips.BlockCloses | src/lib.rs:58-64 | the closing block on a `}` pops the group on top into an `EndSelector` and leaves what follows the `}` |
| LexerRoundTrips.BlockStep | src/lib.rs:37-72 | from any state, one iteration on a written block followed by whitespace appends the block's events, leaves the stack as it was, and stops at the next text when that text is neither whitespace nor `/` |
| LexerRoundTrips.BlockOpens | src/lib.rs:37-56 | the first two blocks of an iteration on a written block open its group and read its declarations up to the `}` |
| LexerRoundTrips.BlockEnds | src/lib.rs:58-72 | the last two blocks close the group on the `}` and trim the whitespace after it, leaving the next block |
| LexerRoundTrips.BlockRoundTrip | src/lib.rs:35-76 | a written block `group { declarations }` lexes to its `StartSelector`, its `Rule`s in order and its `EndSelector` |
| LexerRoundTrips.SheetHead | src/lib.rs:41-45 | a written sheet starts with a selector, so it is neither whitespace nor the start of a comment |
| LexerRoundTrips.SheetStep | src/lib.rs:37-72 | one iteration reads the first block of a written sheet and consumes input |
| LexerRoundTrips.SheetRun | src/lib.rs:35-76 | from any state, a run over written blocks appends the events of each block in order and leaves the stack and the diagnostics as they were |
| LexerRoundTrips.SheetRoundTrip | src/lib.rs:35-76 | a style sheet of written blocks lexes to the events of its blocks in order, with no group left open and no diagnostic |
| LexerRoundTrips.SheetPairs | src/lib.rs:35-76 | `N` written blocks give exactly `N` `StartSelector`s and `N` `EndSelector`s, paired last-opened first-closed, with no group left open |
| LexerRoundTrips.SheetCounts | src/lib.rs:103-104 | the events of `N` written blocks open `N` groups and close `N` |
| LexerRoundTrips.BlockCounts | src/lib.rs:103-104 | a written block opens one group and closes one |
| LexerRoundTrips.ScannedAgree | src/lib.rs:131 | the rules that the declaration loop emits are described the same way in the run lemmas and in the read-back lemmas |
| LexerScenarios.SemicolonLoops | src/lib.rs:36-73 | `;` on its own makes the lexer loop forever |
| LexerScenarios.TwoSelectors | src/lib.rs:35-76 | `h1, h2 { color: red; }` lexes to `StartSelector([h1, h2])`, `Rule(color, red)` and `EndSelector([h1, h2])` |
| LexerScenarios.MultiLineBlock | src/lib.rs:35-76 | a block over four lines with two declarations lexes to the group, both rules and the closing event |
| LexerScenarios.HelloComment | src/lib.rs:154-178 | `/* hello */` followed by a newline is `Comment(" hello ")`, and the newline is consumed with it |
| LexerScenarios.CommentAtEnd | src/lib.rs:171 | `/* x */` at the end of the input panics |

## Left out

- The example driver `main.rs` is not part of this model. It reads a file, calls
  `parse` and prints each event, which is all I/O.
- The `eprintln!` diagnostics (src/lib.rs:122, 145) are recorded in a
  `warnings` field instead of being written to standard error.
- Scanning.IsAlphabetic: the lexer uses Rust's `char::is_alphabetic`
  (src/lib.rs:45, 118), which also accepts non-ASCII letters. The model
  accepts the ASCII letters only, because the full Unicode `Alphabetic`
  table is not modelled.
- The comment's `*` counter is an `i32` (src/lib.rs:157). It would overflow
  after 2^31 stars, and a debug build would panic there. The model counts
  with an unbounded `nat`.
- CssLexer.Lexer.Parse: the source never returns when an iteration consumes
  nothing. The model stops and reports `Loops` instead. `LoopsPersist`
  proves that the source's loop does not end from a state where the model
  reports `Loops`, and `StuckIsFixpoint` proves that the iteration leaves
  that state unchanged.
- CssLexer.Lexer.TakeSlice: requires its range to lie inside the buffer.
  The source panics otherwise. The two calls that can go out of range
  (src/lib.rs:129, 171) are guarded by their callers, which report the
  panic as a `Fault`.
- CssLexer.Lexer.ParseRules, CssLexer.Lexer.ParseEndSelector,
  CssLexer.Lexer.ParseComment: each requires the one or two head characters
  that `parse` tests before calling it (src/lib.rs:54, 62, 70). The source
  never calls them in any other state.
- CssLexer.Lexer.ParseComment: the source cuts the comment's last character
  off a UTF-8 `String` by byte length (src/lib.rs:175). The model treats
  that cut as a panic exactly when the last character is not ASCII. It does
  not model the bytes themselves.
- The copying `to_vec` of each `take_slice`, the `clone` of the group
  (src/lib.rs:103) and the `Debug` derive (src/lib.rs:3) have no effect on
  behaviour and are not modelled. The returned `&[Event]` borrow is
  returned as a sequence.
