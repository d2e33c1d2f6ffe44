/** What the translation of Responses items keeps: order, calls, results, and runs of calls. */
module ResponsesOrder {
  import opened Prelude
  import opened Responses

  function OwnCalls(m: Message): seq<Call> {
    if m.calls.Some? then m.calls.value else []
  }

  /** All calls of a conversation, in order. */
  function CallsOf(ms: seq<Message>): seq<Call> {
    if ms == [] then [] else CallsOf(ms[..|ms| - 1]) + OwnCalls(ms[|ms| - 1])
  }

  function CallsIn(items: seq<Item>, wrap: string -> string): seq<Call>
    requires AllWellFormed(items)
  {
    if items == [] then []
    else
      var head :=
        if IsCall(items[0]) then [CallOf(items[0], wrap)]
        else if items[0].Plain? then OwnCalls(items[0].message)
        else [];
      head + CallsIn(items[1..], wrap)
  }

  function OwnResult(m: Message): seq<(Id, Content)> {
    if m.role == Tool then [(m.answers, m.content)] else []
  }

  /** All tool results of a conversation, in order. */
  function ResultsOf(ms: seq<Message>): seq<(Id, Content)> {
    if ms == [] then [] else ResultsOf(ms[..|ms| - 1]) + OwnResult(ms[|ms| - 1])
  }

  /** The tool results that an item brings: an output, or a plain message of a tool. */
  function ResultOf(item: Item): seq<(Id, Content)>
    requires WellFormed(item)
  {
    match item
    case CallOutput(id, text) => [(id.value, Text(text))]
    case Plain(m) =>
      if m.role == Tool then
        [(m.answers, if m.content.Parts? then Parts(Retyped(m.content.parts)) else m.content)]
      else []
    case _ => []
  }

  function ResultsIn(items: seq<Item>): seq<(Id, Content)>
    requires AllWellFormed(items)
  {
    if items == [] then [] else ResultOf(items[0]) + ResultsIn(items[1..])
  }

  lemma StepCalls(ms: seq<Message>, item: Item, wrap: string -> string)
    requires WellFormed(item)
    ensures CallsOf(Step(ms, item, wrap)) == CallsOf(ms) +
            (if IsCall(item) then [CallOf(item, wrap)] else if item.Plain? then OwnCalls(item.message) else [])
  {
    var r := Step(ms, item, wrap);
    if |r| == |ms| && r != [] {
      assert r[..|r| - 1] == ms[..|ms| - 1];
    } else if |r| > 0 {
      assert r[..|r| - 1] == ms;
    }
  }

  lemma StepResults(ms: seq<Message>, item: Item, wrap: string -> string)
    requires WellFormed(item)
    ensures ResultsOf(Step(ms, item, wrap)) == ResultsOf(ms) + ResultOf(item)
  {
    var r := Step(ms, item, wrap);
    if |r| == |ms| && r != [] {
      assert r[..|r| - 1] == ms[..|ms| - 1];
    } else if |r| > 0 {
      assert r[..|r| - 1] == ms;
    }
  }

  /** The calls of the messages are the calls of the items, in order. */
  lemma {:induction false} CallsKept(ms: seq<Message>, items: seq<Item>, wrap: string -> string)
    requires AllWellFormed(items)
    ensures Coerce(ms, items, wrap).Some?
    ensures CallsOf(Coerce(ms, items, wrap).value) == CallsOf(ms) + CallsIn(items, wrap)
    decreases |items|
  {
    hide Step, CallsOf, AllWellFormed, WellFormed;
    if items != [] {
      AllTail(items);
      StepCalls(ms, items[0], wrap);
      CallsKept(Step(ms, items[0], wrap), items[1..], wrap);
    }
  }

  /** The tool results of the messages are the outputs of the items, in order. */
  lemma {:induction false} ResultsKept(ms: seq<Message>, items: seq<Item>, wrap: string -> string)
    requires AllWellFormed(items)
    ensures Coerce(ms, items, wrap).Some?
    ensures ResultsOf(Coerce(ms, items, wrap).value) == ResultsOf(ms) + ResultsIn(items)
    decreases |items|
  {
    hide Step, ResultsOf, AllWellFormed, WellFormed;
    if items != [] {
      AllTail(items);
      StepResults(ms, items[0], wrap);
      ResultsKept(Step(ms, items[0], wrap), items[1..], wrap);
    }
  }

  // ---------------------------------------------------------------- runs of calls

  function Strip(items: seq<Item>): seq<Item> {
    if items == [] then []
    else (if items[0].Reasoning? then [] else [items[0]]) + Strip(items[1..])
  }

  lemma StripStep(items: seq<Item>)
    requires items != []
    ensures Strip(items) == if items[0].Reasoning? then Strip(items[1..]) else [items[0]] + Strip(items[1..])
  {
  }

  /** Reasoning items leave no trace; in particular they do not break a run of calls. */
  lemma {:induction false} ReasoningIgnored(ms: seq<Message>, items: seq<Item>, wrap: string -> string)
    ensures Coerce(ms, items, wrap) == Coerce(ms, Strip(items), wrap)
    decreases |items|
  {
    hide Step, WellFormed, Strip;
    if items == [] {
      StripNothing();
      return;
    }
    StripStep(items);
    if items[0].Reasoning? {
      ReasoningSkipped(ms, items, wrap);
      ReasoningIgnored(ms, items[1..], wrap);
    } else if WellFormed(items[0]) {
      ReasoningIgnored(Step(ms, items[0], wrap), items[1..], wrap);
    }
  }

  lemma StripNothing()
    ensures Strip([]) == []
  {
  }

  lemma ReasoningSkipped(ms: seq<Message>, items: seq<Item>, wrap: string -> string)
    requires items != [] && items[0].Reasoning?
    ensures Coerce(ms, items, wrap) == Coerce(ms, items[1..], wrap)
  {
  }

  /** Items of the Responses form: a plain message brings no calls of its own, and nothing is missing. */
  predicate Proper(item: Item) {
    WellFormed(item) && !item.Reasoning? && (item.Plain? ==> item.message.calls == None)
  }

  ghost predicate AllProper(items: seq<Item>) {
    forall i :: 0 <= i < |items| ==> Proper(items[i])
  }

  lemma ProperTail(items: seq<Item>, n: nat)
    requires AllProper(items) && n <= |items|
    ensures AllProper(items[n..]) && AllProper(items[..n])
  {
  }

  /** How many calls come first. */
  function Leading(items: seq<Item>): (n: nat)
    ensures n <= |items|
    ensures forall i :: 0 <= i < n ==> IsCall(items[i])
    ensures n < |items| ==> !IsCall(items[n])
  {
    if items == [] || !IsCall(items[0]) then 0 else 1 + Leading(items[1..])
  }

  function Called(items: seq<Item>, n: nat, wrap: string -> string): (r: seq<Call>)
    requires AllProper(items) && n <= |items|
    requires forall i :: 0 <= i < n ==> IsCall(items[i])
    ensures |r| == n && forall i :: 0 <= i < n ==> r[i] == CallOf(items[i], wrap)
  {
    seq(n, i requires 0 <= i < n => CallOf(items[i], wrap))
  }

  /** Reference form: every maximal run of calls is one message, every other item is one message. */
  function Grouped(items: seq<Item>, wrap: string -> string): seq<Message>
    requires AllProper(items)
    decreases |items|
  {
    if items == [] then []
    else if IsCall(items[0]) then
      var n := Leading(items);
      [CallsMessage(Called(items, n, wrap))] + Grouped(items[n..], wrap)
    else [MessageFor(items[0])] + Grouped(items[1..], wrap)
  }

  ghost predicate Closed(ms: seq<Message>) {
    ms == [] || !Open(ms[|ms| - 1])
  }

  lemma StepOpen(ms: seq<Message>, calls: seq<Call>, item: Item, wrap: string -> string)
    requires Proper(item) && IsCall(item)
    ensures Step(ms + [CallsMessage(calls)], item, wrap) == ms + [CallsMessage(calls + [CallOf(item, wrap)])]
  {
  }

  lemma StepClosed(ms: seq<Message>, item: Item, wrap: string -> string)
    requires Proper(item) && (IsCall(item) ==> Closed(ms))
    ensures IsCall(item) ==> Step(ms, item, wrap) == ms + [CallsMessage([CallOf(item, wrap)])]
    ensures !IsCall(item) ==> Step(ms, item, wrap) == ms + [MessageFor(item)] && Closed(Step(ms, item, wrap))
  {
  }

  lemma LeadingDrop(items: seq<Item>)
    requires |items| > 0 && IsCall(items[0])
    ensures Leading(items) == 1 + Leading(items[1..])
    ensures items[1..][Leading(items[1..])..] == items[Leading(items)..]
  {
    hide IsCall;
    assert forall n :: 0 <= n < |items| ==> items[1..][n..] == items[n + 1..];
  }

  lemma CalledCons(items: seq<Item>, n: nat, wrap: string -> string)
    requires AllProper(items) && |items| > 0 && n < |items|
    requires forall i :: 0 <= i <= n ==> IsCall(items[i])
    ensures AllProper(items[1..]) && forall i :: 0 <= i < n ==> IsCall(items[1..][i])
    ensures Called(items, n + 1, wrap) == [CallOf(items[0], wrap)] + Called(items[1..], n, wrap)
  {
    assert forall i :: 0 <= i < |items| - 1 ==> items[1..][i] == items[i + 1];
    hide CallOf, Proper;
  }

  lemma LeadingTail(items: seq<Item>, wrap: string -> string)
    requires AllProper(items) && |items| > 0 && IsCall(items[0])
    ensures AllProper(items[1..]) && Leading(items) == 1 + Leading(items[1..])
    ensures Called(items, Leading(items), wrap) == [CallOf(items[0], wrap)]
        + Called(items[1..], Leading(items[1..]), wrap)
    ensures items[1..][Leading(items[1..])..] == items[Leading(items)..]
  {
    hide IsCall, Called, CallOf, AllProper;
    LeadingDrop(items);
    CalledCons(items, Leading(items) - 1, wrap);
  }

  /** After an open message the leading run goes into it, and the rest is grouped. */
  lemma {:induction false} OpenGrouped(ms: seq<Message>, calls: seq<Call>, items: seq<Item>, wrap: string -> string)
    requires AllProper(items)
    ensures AllProper(items[Leading(items)..])
    ensures Coerce(ms + [CallsMessage(calls)], items, wrap) ==
            Some(ms + [CallsMessage(calls + Called(items, Leading(items), wrap))]
                + Grouped(items[Leading(items)..], wrap))
    decreases |items|, 2
  {
    hide AllProper, Step, Called, CallOf, MessageFor, CallsMessage, IsCall, Closed;
    ProperTail(items, Leading(items));
    var open := ms + [CallsMessage(calls)];
    if items == [] {
      CalledNone(items, wrap);
      assert calls + [] == calls;
      assert open + [] == open;
    } else {
      ProperHead(items);
      if IsCall(items[0]) {
        LeadingTail(items, wrap);
        StepOpen(ms, calls, items[0], wrap);
        OpenGrouped(ms, calls + [CallOf(items[0], wrap)], items[1..], wrap);
        assert calls + [CallOf(items[0], wrap)] + Called(items[1..], Leading(items[1..]), wrap)
            == calls + Called(items, Leading(items), wrap);
      } else {
        CalledNone(items, wrap);
        assert calls + [] == calls;
        assert items[0..] == items;
        OtherGrouped(open, items, wrap);
      }
    }
  }

  lemma ProperHead(items: seq<Item>)
    requires AllProper(items) && |items| > 0
    ensures Proper(items[0]) && AllProper(items[1..])
  {
  }

  lemma CalledNone(items: seq<Item>, wrap: string -> string)
    requires AllProper(items)
    ensures Called(items, 0, wrap) == []
  {
  }

  lemma {:induction false} OtherGrouped(ms: seq<Message>, items: seq<Item>, wrap: string -> string)
    requires AllProper(items) && |items| > 0 && !IsCall(items[0])
    ensures Coerce(ms, items, wrap) == Some(ms + Grouped(items, wrap))
    decreases |items|, 1
  {
    hide AllProper, Step, Called, CallOf, MessageFor, CallsMessage, Closed;
    ProperHead(items);
    StepClosed(ms, items[0], wrap);
    var m := MessageFor(items[0]);
    GroupedFrom(ms + [m], items[1..], wrap);
    assert ms + [m] + Grouped(items[1..], wrap) == ms + ([m] + Grouped(items[1..], wrap));
  }

  lemma {:induction false} GroupedFrom(ms: seq<Message>, items: seq<Item>, wrap: string -> string)
    requires AllProper(items) && Closed(ms)
    ensures Coerce(ms, items, wrap) == Some(ms + Grouped(items, wrap))
    decreases |items|, 2
  {
    hide AllProper, Step, Called, CallOf, MessageFor, CallsMessage, IsCall, Closed;
    if items == [] {
      assert ms + [] == ms;
    } else if !IsCall(items[0]) {
      OtherGrouped(ms, items, wrap);
    } else {
      ProperHead(items);
      StepClosed(ms, items[0], wrap);
      LeadingTail(items, wrap);
      OpenGrouped(ms, [CallOf(items[0], wrap)], items[1..], wrap);
      var m := CallsMessage(Called(items, Leading(items), wrap));
      assert ms + [m] + Grouped(items[Leading(items)..], wrap) == ms + ([m] + Grouped(items[Leading(items)..], wrap));
    }
  }

  ghost predicate ProperOrReasoning(items: seq<Item>) {
    forall i :: 0 <= i < |items| ==> items[i].Reasoning? || Proper(items[i])
  }

  lemma {:induction false} StripProper(items: seq<Item>)
    requires ProperOrReasoning(items)
    ensures AllProper(Strip(items))
  {
    hide Proper;
    if items != [] {
      StripProper(items[1..]);
    }
  }

  /** Item by item translation is grouping by maximal runs of calls, with reasoning items left out. */
  lemma CoerceIsGrouped(items: seq<Item>, wrap: string -> string)
    requires ProperOrReasoning(items)
    ensures AllProper(Strip(items))
    ensures Coerce([], items, wrap) == Some(Grouped(Strip(items), wrap))
  {
    hide ProperOrReasoning, AllProper, Step;
    StripProper(items);
    ReasoningIgnored([], items, wrap);
    GroupedFrom([], Strip(items), wrap);
    assert [] + Grouped(Strip(items), wrap) == Grouped(Strip(items), wrap);
  }

  // ---------------------------------------------------------------- single items

  /** What a call item becomes: same identifier and name, and its arguments or its wrapped input. */
  lemma CallExactly(item: Item, wrap: string -> string)
    requires WellFormed(item) && IsCall(item)
    ensures var c := CallOf(item, wrap);
            && Some(c.id) == item.id && Some(c.name) == item.name
            && (item.FunctionCall? ==> c.arguments == item.arguments)
            && (item.CustomCall? ==> c.arguments == wrap(item.input))
  {
  }

  /** What any other item becomes: an output is a tool message, a message keeps all but its text parts' kind. */
  lemma MessageExactly(item: Item)
    requires WellFormed(item) && (item.CallOutput? || item.Plain?)
    ensures var m := MessageFor(item);
            && (item.CallOutput? ==> m == Message(Tool, Text(item.text), None, item.id.value))
            && (item.Plain? ==>
                  && m.role == item.message.role && m.calls == item.message.calls && m.answers == item.message.answers
                  && (item.message.content.Parts? <==> m.content.Parts?)
                  && (!item.message.content.Parts? ==> m.content == item.message.content)
                  && (item.message.content.Parts? ==>
                        var before, after := item.message.content.parts, m.content.parts;
                        && |after| == |before|
                        && forall i :: 0 <= i < |before| ==>
                             && after[i].body == before[i].body
                             && after[i].kind == (if before[i].kind == InputText || before[i].kind == OutputText
                                                  then PlainText else before[i].kind)))
  {
  }
}
