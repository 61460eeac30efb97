/** The events the lexer emits (src/lib.rs:2-13) and the discipline that
    pairs each closing selector with the group it closes. */
module Events {

  datatype Option<T> = None | Some(value: T)

  datatype Event =
    | StartSelector(selectors: seq<string>)  // a selector group opens a block
    | EndSelector(selectors: seq<string>)    // the block of that group closes
    | Rule(name: string, value: string)      // one `name: value;` declaration
    | Comment(text: string)                  // one `/* ... */` comment

  /** The selector groups left open after `events`, replayed from an empty
      stack: a `StartSelector` pushes its group and an `EndSelector` must
      carry the group on top, which it pops. `None` when some `EndSelector`
      does not close the most recently opened group that is still open. */
  function Open(events: seq<Event>): Option<seq<seq<string>>>
    decreases |events|
  {
    if events == [] then Some([])
    else
      match Open(events[..|events| - 1])
      case None => None
      case Some(st) =>
        match events[|events| - 1]
        case StartSelector(g) => Some(st + [g])
        case EndSelector(g) =>
          if st != [] && st[|st| - 1] == g then Some(st[..|st| - 1]) else None
        case _ => Some(st)
  }

  /** A `StartSelector` pushes its group onto the open groups. */
  lemma OpenPush(events: seq<Event>, g: seq<string>)
    ensures Open(events + [StartSelector(g)]) ==
      if Open(events).Some? then Some(Open(events).value + [g]) else None
  {
    assert (events + [StartSelector(g)])[..|events|] == events;
  }

  /** An `EndSelector` carrying the group on top pops it. */
  lemma OpenPop(events: seq<Event>, g: seq<string>)
    requires Open(events).Some? && Open(events).value != []
    requires Open(events).value[|Open(events).value| - 1] == g
    ensures Open(events + [EndSelector(g)]) == Some(Open(events).value[..|Open(events).value| - 1])
  {
    assert (events + [EndSelector(g)])[..|events|] == events;
  }

  function Starts(events: seq<Event>): nat
    decreases |events|
  {
    if events == [] then 0
    else Starts(events[..|events| - 1]) + if events[|events| - 1].StartSelector? then 1 else 0
  }

  function Ends(events: seq<Event>): nat
    decreases |events|
  {
    if events == [] then 0
    else Ends(events[..|events| - 1]) + if events[|events| - 1].EndSelector? then 1 else 0
  }

  /** When the events are properly paired, the number of groups still open is
      the number of groups opened minus the number closed. */
  lemma {:induction false} OpenDepth(events: seq<Event>)
    requires Open(events).Some?
    ensures |Open(events).value| + Ends(events) == Starts(events)
  {
    if events != [] {
      OpenDepth(events[..|events| - 1]);
    }
  }

  /** Properly paired events stay properly paired when cut short. */
  lemma {:induction false} OpenPrefix(events: seq<Event>, n: nat)
    requires Open(events).Some? && n <= |events|
    ensures Open(events[..n]).Some?
    decreases |events|
  {
    if n < |events| {
      assert events[..|events| - 1][..n] == events[..n];
      OpenPrefix(events[..|events| - 1], n);
    } else {
      assert events[..n] == events;
    }
  }

  /** In properly paired events each `EndSelector` carries exactly the group
      of the most recent `StartSelector` not yet closed before it. */
  lemma EndClosesTop(events: seq<Event>, i: nat)
    requires Open(events).Some? && i < |events| && events[i].EndSelector?
    ensures Open(events[..i]).Some?
    ensures var st := Open(events[..i]).value;
      st != [] && st[|st| - 1] == events[i].selectors
  {
    OpenPrefix(events, i + 1);
    assert events[..i + 1][..i] == events[..i];
  }

  /** None of `events` opens or closes a selector group. */
  predicate NoSelectorEvents(events: seq<Event>) {
    events == []
    || (!events[0].StartSelector? && !events[0].EndSelector? && NoSelectorEvents(events[1..]))
  }

  /** Appending events that neither open nor close a group leaves the open
      groups as they were. */
  lemma {:induction false} OpenIgnoresOthers(events: seq<Event>, more: seq<Event>)
    requires NoSelectorEvents(more)
    ensures Open(events + more) == Open(events)
    decreases |more|
  {
    if more == [] {
      assert events + more == events;
    } else {
      var next := events + [more[0]];
      assert next[..|next| - 1] == events;
      assert events + more == next + more[1..];
      OpenIgnoresOthers(next, more[1..]);
    }
  }

  /** Counting the groups opened and closed splits over a concatenation. */
  lemma {:induction false} CountsAppend(a: seq<Event>, b: seq<Event>)
    ensures Starts(a + b) == Starts(a) + Starts(b) && Ends(a + b) == Ends(a) + Ends(b)
    decreases |b|
  {
    if b == [] {
      assert a + b == a;
    } else {
      var b0 := b[..|b| - 1];
      assert (a + b)[..|a + b| - 1] == a + b0;
      assert (a + b)[|a + b| - 1] == b[|b| - 1];
      CountsAppend(a, b0);
    }
  }

  /** Events that open and close no group count none of either. */
  lemma {:induction false} NoSelectorCounts(events: seq<Event>)
    requires NoSelectorEvents(events)
    ensures Starts(events) == 0 && Ends(events) == 0
    decreases |events|
  {
    if events != [] {
      NoSelectorCounts(events[1..]);
      assert events == [events[0]] + events[1..];
      CountsAppend([events[0]], events[1..]);
      assert [events[0]][..0] == [];
    }
  }
}
