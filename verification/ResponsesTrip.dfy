/** The way back: a chat reply becomes Responses output items, and those become chat messages again. */
module ResponsesTrip {
  import opened Prelude
  import opened Responses
  import opened ResponsesOrder

  /** Text of a custom input as JSON arguments, and the custom input that arguments hold, if any. */
  datatype Codec = Codec(wrap: string -> string, unwrap: string -> Option<string>)

  /** A reply of the upstream model; an absent or non-text field is empty. */
  datatype Reply = Reply(role: Role, reasoning: string, content: string, calls: seq<Call>)

  datatype Chat = NoChat | Broken | NoChoices | Choice(reply: Reply)

  datatype Status = Given | FailedStatus

  datatype Payload = Payload(status: Status, output: seq<Item>)

  /** The codec reads back what it wrote. */
  ghost predicate Lawful(c: Codec) {
    forall x :: c.unwrap(c.wrap(x)) == Some(x)
  }

  function CustomInput(c: Codec, arguments: string): string {
    match c.unwrap(arguments)
    case Some(x) => x
    case None => arguments
  }

  function ItemFor(call: Call, customs: set<string>, c: Codec): (r: Item)
    ensures Proper(r) && IsCall(r)
  {
    if call.name in customs then CustomCall(Some(call.id), Some(call.name), CustomInput(c, call.arguments))
    else FunctionCall(Some(call.id), Some(call.name), call.arguments)
  }

  function ItemsFor(calls: seq<Call>, customs: set<string>, c: Codec): (r: seq<Item>)
    ensures |r| == |calls| && forall i :: 0 <= i < |calls| ==> r[i] == ItemFor(calls[i], customs, c)
  {
    seq(|calls|, i requires 0 <= i < |calls| => ItemFor(calls[i], customs, c))
  }

  function ReasoningItems(r: Reply): seq<Item> {
    if r.reasoning != [] then [Reasoning(r.reasoning)] else []
  }

  function TextItems(r: Reply): seq<Item> {
    if r.content != [] then [Plain(Message(r.role, Parts([Part(OutputText, r.content)]), None, Null))] else []
  }

  function Output(r: Reply, customs: set<string>, c: Codec): seq<Item> {
    ReasoningItems(r) + TextItems(r) + ItemsFor(r.calls, customs, c)
  }

  /** A reply without any output is reported as failed, like an upstream error. */
  method ResponsesPayload(chat: Chat, customs: set<string>, c: Codec) returns (p: Payload)
    ensures p.output == if chat.Choice? then Output(chat.reply, customs, c) else []
    ensures p.status == FailedStatus <==> chat == Broken || (chat != NoChat && p.output == [])
    ensures chat.Choice? ==>
              (p.status == FailedStatus <==>
                 chat.reply.reasoning == [] && chat.reply.content == [] && chat.reply.calls == [])
  {
    if chat == NoChat {
      return Payload(Given, []);
    }
    if chat == Broken {
      return Payload(FailedStatus, []);
    }
    var output: seq<Item> := [];
    if chat.Choice? {
      var reply := chat.reply;
      if reply.reasoning != [] {
        output := output + [Reasoning(reply.reasoning)];
      }
      if reply.content != [] {
        output := output + [Plain(Message(reply.role, Parts([Part(OutputText, reply.content)]), None, Null))];
      }
      ghost var front := output;
      for i := 0 to |reply.calls|
        invariant output == front + ItemsFor(reply.calls[..i], customs, c)
      {
        output := output + [ItemFor(reply.calls[i], customs, c)];
        assert ItemsFor(reply.calls[..i + 1], customs, c) == ItemsFor(reply.calls[..i], customs, c)
            + [ItemFor(reply.calls[i], customs, c)];
      }
      assert reply.calls[..|reply.calls|] == reply.calls;
      assert front == ReasoningItems(reply) + TextItems(reply);
    }
    p := Payload(if output == [] then FailedStatus else Given, output);
  }

  // ---------------------------------------------------------------- there and back

  /** What a call becomes on its way out and in again. */
  function Trip(call: Call, customs: set<string>, c: Codec): Call {
    if call.name in customs then call.(arguments := c.wrap(CustomInput(c, call.arguments))) else call
  }

  function Trips(calls: seq<Call>, customs: set<string>, c: Codec): (r: seq<Call>)
    ensures |r| == |calls| && forall i :: 0 <= i < |calls| ==> r[i] == Trip(calls[i], customs, c)
  {
    seq(|calls|, i requires 0 <= i < |calls| => Trip(calls[i], customs, c))
  }

  /** The messages of a reply that comes back: its text as one part, its calls in one message. */
  function Back(r: Reply, calls: seq<Call>): seq<Message> {
    (if r.content != [] then [Message(r.role, Parts([Part(PlainText, r.content)]), None, Null)] else []) +
    (if calls != [] then [CallsMessage(calls)] else [])
  }

  lemma {:induction false} LeadingCalls(items: seq<Item>)
    requires forall i :: 0 <= i < |items| ==> IsCall(items[i])
    ensures Leading(items) == |items|
  {
    if items != [] {
      LeadingCalls(items[1..]);
    }
  }

  lemma {:induction false} StripCalls(items: seq<Item>)
    requires forall i :: 0 <= i < |items| ==> IsCall(items[i])
    ensures Strip(items) == items
  {
    if items != [] {
      StripCalls(items[1..]);
    }
  }

  /** A list of calls alone is grouped into one message. */
  lemma CallsGrouped(calls: seq<Call>, customs: set<string>, c: Codec)
    ensures AllProper(ItemsFor(calls, customs, c))
    ensures Grouped(ItemsFor(calls, customs, c), c.wrap) ==
            if calls == [] then [] else [CallsMessage(Trips(calls, customs, c))]
  {
    var items := ItemsFor(calls, customs, c);
    LeadingCalls(items);
    if calls != [] {
      forall i | 0 <= i < |calls|
        ensures Called(items, |items|, c.wrap)[i] == Trip(calls[i], customs, c)
      {
        assert items[i] == ItemFor(calls[i], customs, c);
      }
      assert Called(items, |items|, c.wrap) == Trips(calls, customs, c);
      assert items[|items|..] == [];
    }
  }

  lemma {:induction false} StripAppend(a: seq<Item>, b: seq<Item>)
    ensures Strip(a + b) == Strip(a) + Strip(b)
  {
    if a == [] {
      assert a + b == b;
    } else {
      assert (a + b)[1..] == a[1..] + b;
      StripAppend(a[1..], b);
    }
  }

  lemma OutputStripped(r: Reply, customs: set<string>, c: Codec)
    ensures Strip(Output(r, customs, c)) == TextItems(r) + ItemsFor(r.calls, customs, c)
  {
    hide ItemsFor;
    StripCalls(ItemsFor(r.calls, customs, c));
    StripAppend(ReasoningItems(r) + TextItems(r), ItemsFor(r.calls, customs, c));
    StripAppend(ReasoningItems(r), TextItems(r));
    assert Strip([]) == [];
  }

  /**
   * Coercing the output of a reply gives back its text and its calls: identifiers and names are
   * kept, and so are the arguments of every call that is not a custom one.
   */
  lemma RoundTrip(r: Reply, customs: set<string>, c: Codec)
    ensures Coerce([], Output(r, customs, c), c.wrap) == Some(Back(r, Trips(r.calls, customs, c)))
  {
    hide Trips, Output, Coerce;
    var items := ItemsFor(r.calls, customs, c);
    OutputStripped(r, customs, c);
    OutputProper(r, customs, c);
    CallsGrouped(r.calls, customs, c);
    CoerceIsGrouped(Output(r, customs, c), c.wrap);
    TextGrouped(r, items, c.wrap);
  }

  lemma OutputProper(r: Reply, customs: set<string>, c: Codec)
    ensures ProperOrReasoning(Output(r, customs, c))
  {
    hide Proper, IsCall;
    var all := Output(r, customs, c);
    assert forall i :: 0 <= i < |TextItems(r)| ==> Proper(TextItems(r)[i]) by {
      TextProper(r);
    }
  }

  lemma TextProper(r: Reply)
    ensures AllProper(TextItems(r))
  {
  }

  lemma TextGrouped(r: Reply, items: seq<Item>, wrap: string -> string)
    requires AllProper(items)
    ensures AllProper(TextItems(r) + items)
    ensures Grouped(TextItems(r) + items, wrap) ==
            (if r.content != [] then [Message(r.role, Parts([Part(PlainText, r.content)]), None, Null)] else [])
                + Grouped(items, wrap)
  {
    hide Leading, Called;
    var texts := TextItems(r) + items;
    if r.content != [] {
      assert texts[1..] == items;
      assert Retyped([Part(OutputText, r.content)]) == [Part(PlainText, r.content)];
    } else {
      assert texts == items;
    }
  }

  /** Custom calls settle after one trip: going out and in again changes neither items nor calls. */
  lemma FixedPoint(r: Reply, customs: set<string>, c: Codec)
    requires Lawful(c)
    ensures var once := r.(calls := Trips(r.calls, customs, c));
            && Trips(once.calls, customs, c) == once.calls
            && Output(once, customs, c) == Output(r, customs, c)
  {
    var calls := Trips(r.calls, customs, c);
    forall i | 0 <= i < |calls|
      ensures Trip(calls[i], customs, c) == calls[i]
      ensures ItemFor(calls[i], customs, c) == ItemFor(r.calls[i], customs, c)
    {
      assert c.unwrap(c.wrap(CustomInput(c, r.calls[i].arguments))) == Some(CustomInput(c, r.calls[i].arguments));
    }
    assert Trips(calls, customs, c) == calls;
    assert ItemsFor(calls, customs, c) == ItemsFor(r.calls, customs, c);
  }

  /** A custom call comes back as it was if and only if its arguments are the text of some input. */
  lemma UnchangedIff(call: Call, customs: set<string>, c: Codec)
    requires Lawful(c)
    ensures Trip(call, customs, c) == call <==>
            (call.name in customs ==> c.wrap(CustomInput(c, call.arguments)) == call.arguments)
    ensures call.name in customs ==>
              (Trip(call, customs, c) == call <==> exists x :: call.arguments == c.wrap(x))
  {
    if x :| call.arguments == c.wrap(x) {
      assert c.unwrap(c.wrap(x)) == Some(x);
    }
  }
}
