/** The character classes the lexer tests and the scanning primitive behind
    its `take_while` (src/lib.rs:184-202) and `trim_whitespaces`
    (src/lib.rs:180-182), as functions on the character buffer. */
module Scanning {

  /** `a` is what is left of `b` after cutting some prefix off it. */
  predicate IsSuffix<T(==)>(a: seq<T>, b: seq<T>) {
    |a| <= |b| && a == b[|b| - |a|..]
  }

  /** `a` is `b` before anything was appended to it. */
  predicate IsPrefix<T(==)>(a: seq<T>, b: seq<T>) {
    |a| <= |b| && a == b[..|a|]
  }

  lemma SuffixTrans<T>(a: seq<T>, b: seq<T>, c: seq<T>)
    requires IsSuffix(a, b) && IsSuffix(b, c)
    ensures IsSuffix(a, c)
  {
    assert c[|c| - |b|..][|b| - |a|..] == c[|c| - |a|..];
  }

  lemma PrefixTrans<T>(a: seq<T>, b: seq<T>, c: seq<T>)
    requires IsPrefix(a, b) && IsPrefix(b, c)
    ensures IsPrefix(a, c)
  {
    assert c[..|b|][..|a|] == c[..|a|];
  }

  lemma PrefixOfAppend<T>(a: seq<T>, b: seq<T>)
    ensures IsPrefix(a, a + b)
  {
    assert (a + b)[..|a|] == a;
  }

  /** Rust's `char::is_whitespace`: the characters with the Unicode
      White_Space property. */
  predicate IsWhitespace(c: char) {
    ('\t' <= c <= '\r') || c == ' ' || c == '\U{85}' || c == '\U{A0}'
    || c == '\U{1680}' || ('\U{2000}' <= c <= '\U{200A}')
    || c == '\U{2028}' || c == '\U{2029}' || c == '\U{202F}'
    || c == '\U{205F}' || c == '\U{3000}'
  }

  /** Rust's `char::is_alphabetic`, restricted to the ASCII letters. */
  predicate IsAlphabetic(c: char) {
    ('a' <= c <= 'z') || ('A' <= c <= 'Z')
  }

  /** The predicates the lexer hands to `take_while`. The source passes
      closures; the one at src/lib.rs:159-169 mutates a captured counter of
      `*` characters, which is the `stars` field of `CommentChar`. */
  datatype Scanner =
    | Whitespace            // `x.is_whitespace()`, src/lib.rs:181
    | SelectorChar          // `x != ' ' && x != ',' && x != '{'`, src/lib.rs:88
    | NameChar              // `x.is_alphabetic() || x == '-'`, src/lib.rs:118
    | ValueChar             // `x != ';'`, src/lib.rs:128
    | CommentChar(stars: nat)

  /** One call of the predicate on `c`: whether the scan goes on, and the
      predicate's state for the next character. */
  function Step(sc: Scanner, c: char): (bool, Scanner) {
    match sc
    case Whitespace => (IsWhitespace(c), sc)
    case SelectorChar => (c != ' ' && c != ',' && c != '{', sc)
    case NameChar => (IsAlphabetic(c) || c == '-', sc)
    case ValueChar => (c != ';', sc)
    case CommentChar(n) =>
      if c == '*' then (true, CommentChar(n + 1))
      else if c == '/' && n == 1 then (false, sc)
      else (true, sc)
  }

  predicate Accepts(sc: Scanner, c: char) {
    Step(sc, c).0
  }

  /** How many characters `take_while` takes from the head of `s`: the loop of
      `take_while_from` (src/lib.rs:195-199) run from index 0. */
  function ScanLen(s: seq<char>, sc: Scanner): (n: nat)
    ensures n <= |s|
    decreases |s|
  {
    if s == [] then 0
    else
      var (go, next) := Step(sc, s[0]);
      if go then 1 + ScanLen(s[1..], next) else 0
  }

  /** For a predicate without state, `take_while` takes the longest prefix on
      which the predicate holds at every position. */
  lemma {:induction false} ScanStateless(s: seq<char>, sc: Scanner)
    requires !sc.CommentChar?
    ensures forall k :: 0 <= k < ScanLen(s, sc) ==> Accepts(sc, s[k])
    ensures ScanLen(s, sc) < |s| ==> !Accepts(sc, s[ScanLen(s, sc)])
  {
    if s != [] && Accepts(sc, s[0]) {
      ScanStateless(s[1..], sc);
      forall k | 1 <= k < ScanLen(s, sc) ensures Accepts(sc, s[k]) {
        assert s[k] == s[1..][k - 1];
      }
    }
  }

  /** A property name as `parse_rules` takes it (src/lib.rs:118) is made of
      letters and `-` only. */
  lemma NameScan(c: seq<char>)
    ensures forall k :: 0 <= k < ScanLen(c, NameChar) ==>
      IsAlphabetic(c[..ScanLen(c, NameChar)][k]) || c[..ScanLen(c, NameChar)][k] == '-'
  {
    ScanStateless(c, NameChar);
    var n := ScanLen(c, NameChar);
    assert forall k :: 0 <= k < n ==> c[..n][k] == c[k];
  }

  /** A property value as `parse_rules` takes it (src/lib.rs:128) holds no
      `;`, and a `;` follows it unless the buffer ran out. */
  lemma ValueScan(c: seq<char>)
    ensures forall k :: 0 <= k < ScanLen(c, ValueChar) ==> c[..ScanLen(c, ValueChar)][k] != ';'
    ensures ScanLen(c, ValueChar) < |c| ==> c[ScanLen(c, ValueChar)] == ';'
  {
    ScanStateless(c, ValueChar);
    var n := ScanLen(c, ValueChar);
    assert forall k :: 0 <= k < n ==> c[..n][k] == c[k];
  }

  /** The number of `*` characters in `t`. */
  function Stars(t: seq<char>): nat {
    if t == [] then 0 else (if t[0] == '*' then 1 else 0) + Stars(t[1..])
  }

  /** The comment scan started with `m` stars already counted stops at the
      first `/` met while exactly one star has been counted in all, whether
      or not that star is next to the `/`; it runs to the end of `s` when
      there is no such `/`. */
  lemma {:induction false} CommentScan(s: seq<char>, m: nat)
    ensures forall k :: 0 <= k < ScanLen(s, CommentChar(m)) ==>
      !(s[k] == '/' && m + Stars(s[..k]) == 1)
    ensures ScanLen(s, CommentChar(m)) < |s| ==>
      s[ScanLen(s, CommentChar(m))] == '/' && m + Stars(s[..ScanLen(s, CommentChar(m))]) == 1
  {
    if s != [] {
      var next := if s[0] == '*' then m + 1 else m;
      if Accepts(CommentChar(m), s[0]) {
        CommentScan(s[1..], next);
        forall k | 1 <= k <= |s|
          ensures m + Stars(s[..k]) == next + Stars(s[1..][..k - 1])
        {
          assert s[..k][1..] == s[1..][..k - 1];
        }
        forall k | 1 <= k < ScanLen(s, CommentChar(m))
          ensures !(s[k] == '/' && m + Stars(s[..k]) == 1)
        {
          assert s[k] == s[1..][k - 1];
        }
      } else {
        assert s[..0] == [];
      }
    }
  }

  /** The buffer with its leading whitespace dropped: a suffix of the input,
      cut after a run of whitespace, that is empty or starts with a
      non-whitespace character. */
  function Trim(s: seq<char>): (r: seq<char>)
    ensures IsSuffix(r, s)
    ensures r == [] || !IsWhitespace(r[0])
    decreases |s|
  {
    if s != [] && IsWhitespace(s[0]) then
      var r := Trim(s[1..]);
      assert s[1..][|s| - 1 - |r|..] == s[|s| - |r|..];
      r
    else
      s
  }

  /** What `Trim` drops is whitespace only. */
  lemma {:induction false} TrimDropsWhitespace(s: seq<char>)
    ensures forall k :: 0 <= k < |s| - |Trim(s)| ==> IsWhitespace(s[k])
    decreases |s|
  {
    if s != [] && IsWhitespace(s[0]) {
      TrimDropsWhitespace(s[1..]);
      assert forall k :: 1 <= k < |s| - |Trim(s)| ==> s[k] == s[1..][k - 1];
    }
  }

  /** `trim_whitespaces` (src/lib.rs:180-182) is `take_while` with
      `is_whitespace`: what it leaves is `Trim` of the buffer. */
  lemma {:induction false} TrimIsTakeWhile(s: seq<char>)
    ensures s[ScanLen(s, Whitespace)..] == Trim(s)
    decreases |s|
  {
    if s != [] && IsWhitespace(s[0]) {
      TrimIsTakeWhile(s[1..]);
      assert s[1..][ScanLen(s[1..], Whitespace)..] == s[ScanLen(s, Whitespace)..];
    }
  }

  /** Trimming a buffer that is empty or starts with a non-whitespace
      character leaves it as it is. */
  lemma TrimNoWhitespaceHead(s: seq<char>)
    requires s == [] || !IsWhitespace(s[0])
    ensures Trim(s) == s
  {
  }

  /** Trimming twice is trimming once. */
  lemma TrimIdempotent(s: seq<char>)
    ensures Trim(Trim(s)) == Trim(s)
  {
    TrimNoWhitespaceHead(Trim(s));
  }

  /** Trimming a run of whitespace followed by a non-whitespace start removes
      exactly that run. */
  lemma TrimWhitespaceRun(ws: seq<char>, rest: seq<char>)
    requires forall k :: 0 <= k < |ws| ==> IsWhitespace(ws[k])
    requires rest == [] || !IsWhitespace(rest[0])
    ensures Trim(ws + rest) == rest
  {
    var s := ws + rest;
    TrimDropsWhitespace(s);
    assert rest != [] ==> s[|ws|] == rest[0];
    assert s[|ws|..] == rest;
  }
}
