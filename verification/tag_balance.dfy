// _TagBalance of app/services/theme_pack.py: the stack machine that decides whether Telegram would
// accept a text as HTML. The tokeniser is not modelled; its output is a sequence of tag events.
module TagBalance {

  datatype TagEvent = Open(tag: string) | Close(tag: string)

  const TELEGRAM_HTML_TAGS := {
    "b", "strong", "i", "em", "u", "ins", "s", "strike", "del", "span", "tg-spoiler", "a", "code", "pre",
    "blockquote", "tg-emoji"
  }

  // ---- what a well-formed text is -----------------------------------------------------------

  /** A forest of properly nested elements. */
  datatype Forest = Leaf | Element(tag: string, inside: Forest, after: Forest)

  function Flatten(f: Forest): seq<TagEvent> {
    match f
    case Leaf => []
    case Element(tag, inside, after) => [Open(tag)] + Flatten(inside) + [Close(tag)] + Flatten(after)
  }

  predicate UsesOnly(f: Forest, allowed: set<string>) {
    match f
    case Leaf => true
    case Element(tag, inside, after) => tag in allowed && UsesOnly(inside, allowed) && UsesOnly(after, allowed)
  }

  ghost predicate WellFormed(events: seq<TagEvent>) {
    exists f :: Flatten(f) == events && UsesOnly(f, TELEGRAM_HTML_TAGS)
  }

  // ---- the machine --------------------------------------------------------------------------

  datatype Machine = Machine(stack: seq<string>, broken: bool)

  function Step(m: Machine, e: TagEvent): Machine {
    match e
    case Open(tag) => Machine(m.stack + [tag], m.broken || tag !in TELEGRAM_HTML_TAGS)
    case Close(tag) =>
      if m.stack == [] || m.stack[|m.stack| - 1] != tag then m.(broken := true)
      else m.(stack := m.stack[..|m.stack| - 1])
  }

  function Feed(m: Machine, events: seq<TagEvent>): Machine
    decreases events
  {
    if events == [] then m else Feed(Step(m, events[0]), events[1..])
  }

  class Parser {
    var stack: seq<string>
    var broken: bool

    function State(): Machine
      reads this
    {
      Machine(stack, broken)
    }

    constructor ()
      ensures State() == Machine([], false)
    {
      stack, broken := [], false;
    }

    method HandleStartTag(tag: string)
      modifies this
      ensures State() == Step(old(State()), Open(tag))
    {
      if tag !in TELEGRAM_HTML_TAGS {
        broken := true;
      }
      stack := stack + [tag];
    }

    method HandleEndTag(tag: string)
      modifies this
      ensures State() == Step(old(State()), Close(tag))
    {
      if |stack| == 0 || stack[|stack| - 1] != tag {
        broken := true;
        return;
      }
      stack := stack[..|stack| - 1];
    }
  }

  /** html_is_broken, decided by the machine and stated by the grammar. */
  method HtmlIsBroken(events: seq<TagEvent>) returns (broken: bool)
    ensures broken <==> !WellFormed(events)
  {
    var parser := new Parser();
    for n := 0 to |events|
      invariant Feed(Machine([], false), events) == Feed(parser.State(), events[n..])
    {
      match events[n]
      case Open(tag) => parser.HandleStartTag(tag);
      case Close(tag) => parser.HandleEndTag(tag);
      assert events[n..][1..] == events[n + 1..];
    }
    MachineAcceptsExactlyTheGrammar(events);
    return parser.broken || |parser.stack| > 0;
  }

  // ---- the machine accepts exactly the grammar ----------------------------------------------

  lemma {:induction false} FeedConcat(m: Machine, a: seq<TagEvent>, b: seq<TagEvent>)
    ensures Feed(m, a + b) == Feed(Feed(m, a), b)
    decreases a
  {
    if a == [] {
      assert a + b == b;
    } else {
      FeedConcat(Step(m, a[0]), a[1..], b);
      assert (a + b)[1..] == a[1..] + b;
    }
  }

  lemma {:induction false} BrokenStays(m: Machine, events: seq<TagEvent>)
    requires m.broken
    ensures Feed(m, events).broken
    decreases events
  {
    if events != [] {
      BrokenStays(Step(m, events[0]), events[1..]);
    }
  }

  /** A nested forest leaves any stack as it found it. */
  lemma {:induction false} ForestIsNeutral(m: Machine, f: Forest)
    requires UsesOnly(f, TELEGRAM_HTML_TAGS)
    ensures Feed(m, Flatten(f)) == m
    decreases f
  {
    match f
    case Leaf =>
    case Element(tag, inside, after) =>
      var open, close := [Open(tag)], [Close(tag)];
      var inner := m.(stack := m.stack + [tag]);
      FeedConcat(m, open + Flatten(inside) + close, Flatten(after));
      FeedConcat(m, open + Flatten(inside), close);
      FeedConcat(m, open, Flatten(inside));
      assert Feed(m, open) == inner;
      ForestIsNeutral(inner, inside);
      assert Step(inner, Close(tag)) == m;
      assert Feed(inner, close) == m;
      ForestIsNeutral(m, after);
  }

  /** A forest followed by closing tags of the innermost open elements, outermost last. */
  function Closing(stack: seq<string>, forests: seq<Forest>): seq<TagEvent>
    requires |forests| == |stack|
  {
    if stack == [] then []
    else
      var top := |stack| - 1;
      [Close(stack[top])] + Flatten(forests[top]) + Closing(stack[..top], forests[..top])
  }

  lemma Regroup<T>(o: seq<T>, a: seq<T>, c: seq<T>, b: seq<T>, r: seq<T>)
    ensures o + (a + (c + b + r)) == o + a + c + b + r
  {
  }

  lemma OpenThenClosing(stack: seq<string>, tag: string, inside: Forest, after: Forest, rest: seq<Forest>)
    requires |rest| == |stack|
    ensures [Open(tag)] + (Flatten(inside) + Closing(stack + [tag], rest + [after]))
         == Flatten(Element(tag, inside, after)) + Closing(stack, rest)
  {
    assert (stack + [tag])[..|stack|] == stack && (rest + [after])[..|rest|] == rest;
    assert Closing(stack + [tag], rest + [after]) == [Close(tag)] + Flatten(after) + Closing(stack, rest);
    Regroup([Open(tag)], Flatten(inside), [Close(tag)], Flatten(after), Closing(stack, rest));
  }

  lemma CloseThenClosing(stack: seq<string>, tag: string, first: Forest, rest: seq<Forest>)
    requires |rest| == |stack|
    ensures [Close(tag)] + (Flatten(first) + Closing(stack, rest)) == Closing(stack + [tag], rest + [first])
  {
    assert (stack + [tag])[..|stack|] == stack && (rest + [first])[..|rest|] == rest;
  }

  lemma CloseLevel(stack: seq<string>, tag: string, tail: seq<TagEvent>, f: Forest, fs: seq<Forest>)
    requires |fs| == |stack| && tail == Flatten(f) + Closing(stack, fs)
    ensures [Close(tag)] + tail == Flatten(Leaf) + Closing(stack + [tag], fs + [f])
  {
    CloseThenClosing(stack, tag, f, fs);
    var closing := Closing(stack + [tag], fs + [f]);
    assert Flatten(Leaf) == [] && [] + closing == closing;
  }

  lemma OpenLevel(stack: seq<string>, tag: string, tail: seq<TagEvent>, f: Forest, fs: seq<Forest>)
    requires |fs| == |stack| + 1 && tail == Flatten(f) + Closing(stack + [tag], fs)
    ensures [Open(tag)] + tail == Flatten(Element(tag, f, fs[|stack|])) + Closing(stack, fs[..|stack|])
  {
    var top := |stack|;
    assert fs[..top] + [fs[top]] == fs;
    OpenThenClosing(stack, tag, f, fs[top], fs[..top]);
  }

  /** Whatever the machine accepts from `stack` closes that stack, with a forest at every level. */
  lemma {:induction false} AcceptedIsForestThenClosing(stack: seq<string>, events: seq<TagEvent>)
    returns (first: Forest, rest: seq<Forest>)
    requires Feed(Machine(stack, false), events) == Machine([], false)
    ensures |rest| == |stack|
    ensures events == Flatten(first) + Closing(stack, rest)
    ensures UsesOnly(first, TELEGRAM_HTML_TAGS)
    ensures forall i :: 0 <= i < |rest| ==> UsesOnly(rest[i], TELEGRAM_HTML_TAGS)
    decreases |events|
  {
    if events == [] {
      return Leaf, [];
    }
    var m := Step(Machine(stack, false), events[0]);
    if m.broken {
      BrokenStays(m, events[1..]);
      assert false;
    }
    var f, fs := AcceptedIsForestThenClosing(m.stack, events[1..]);
    assert events == [events[0]] + events[1..];
    match events[0]
    case Open(tag) =>
      OpenLevel(stack, tag, events[1..], f, fs);
      first, rest := Element(tag, f, fs[|stack|]), fs[..|stack|];
    case Close(tag) =>
      assert m.stack + [tag] == stack;
      CloseLevel(m.stack, tag, events[1..], f, fs);
      first, rest := Leaf, fs + [f];
  }

  /** A lone element is accepted exactly for the tags Telegram knows. */
  lemma KnownTags(tag: string)
    ensures Feed(Machine([], false), [Open(tag), Close(tag)]) == Machine([], false) <==>
      tag in {"a", "b", "blockquote", "code", "del", "em", "i", "ins", "pre", "s", "span", "strike", "strong",
              "tg-emoji", "tg-spoiler", "u"}
  {
    var events := [Open(tag), Close(tag)];
    var m := Step(Machine([], false), Open(tag));
    assert events[1..] == [Close(tag)] && [Close(tag)][1..] == [];
    assert Feed(Machine([], false), events) == Feed(m, [Close(tag)]) == Feed(Step(m, Close(tag)), []);
  }

  /** Main result, both directions, for every event sequence. */
  lemma MachineAcceptsExactlyTheGrammar(events: seq<TagEvent>)
    ensures Feed(Machine([], false), events) == Machine([], false) <==> WellFormed(events)
  {
    if Feed(Machine([], false), events) == Machine([], false) {
      var f, rest := AcceptedIsForestThenClosing([], events);
      assert Closing([], rest) == [];
      assert events == Flatten(f);
    }
    if WellFormed(events) {
      var f :| Flatten(f) == events && UsesOnly(f, TELEGRAM_HTML_TAGS);
      ForestIsNeutral(Machine([], false), f);
    }
  }
}
