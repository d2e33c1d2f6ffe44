/** Translation of Responses input items into chat messages. */
module Responses {
  import opened Prelude

  datatype Role = System | Developer | User | Assistant | Tool | OtherRole

  /** An identifier that is there may still be null. */
  datatype Id = Null | Id(text: string)

  datatype PartKind = InputText | OutputText | PlainText | OtherPart

  datatype Part = Part(kind: PartKind, body: string)

  datatype Content = Nothing | Text(text: string) | Parts(parts: seq<Part>)

  datatype Call = Call(id: Id, name: string, arguments: string)

  datatype Message = Message(role: Role, content: Content, calls: Option<seq<Call>>, answers: Id)

  /** A field that is `None` is missing from the item. */
  datatype Item =
    | Reasoning(summary: string)
    | FunctionCall(id: Option<Id>, name: Option<string>, arguments: string)
    | CustomCall(id: Option<Id>, name: Option<string>, input: string)
    | CallOutput(id: Option<Id>, text: string)
    | Plain(message: Message)

  datatype Input = Whole(text: string) | Items(items: seq<Item>)

  predicate IsCall(item: Item) {
    item.FunctionCall? || item.CustomCall?
  }

  /** The fields that the translation reads unconditionally are there. */
  predicate WellFormed(item: Item) {
    && (IsCall(item) ==> item.id.Some? && item.name.Some?)
    && (item.CallOutput? ==> item.id.Some?)
  }

  /** `wrap` stands for the JSON text of an object that holds a custom input. */
  function CallOf(item: Item, wrap: string -> string): Call
    requires IsCall(item) && WellFormed(item)
  {
    Call(item.id.value, item.name.value, if item.FunctionCall? then item.arguments else wrap(item.input))
  }

  function CallsMessage(calls: seq<Call>): Message {
    Message(Assistant, Nothing, Some(calls), Null)
  }

  function Retyped(parts: seq<Part>): (r: seq<Part>)
    ensures |r| == |parts|
    ensures forall i :: 0 <= i < |parts| ==>
              r[i] == if parts[i].kind == InputText || parts[i].kind == OutputText
                      then Part(PlainText, parts[i].body) else parts[i]
  {
    seq(|parts|, i requires 0 <= i < |parts| =>
      if parts[i].kind in {InputText, OutputText} then parts[i].(kind := PlainText) else parts[i])
  }

  function MessageFor(item: Item): Message
    requires WellFormed(item) && (item.CallOutput? || item.Plain?)
  {
    match item
    case CallOutput(id, text) => Message(Tool, Text(text), None, id.value)
    case Plain(m) => if m.content.Parts? then m.(content := Parts(Retyped(m.content.parts))) else m
  }

  /** A message that takes further calls. */
  predicate Open(m: Message) {
    m.role == Assistant && m.calls.Some?
  }

  function Step(ms: seq<Message>, item: Item, wrap: string -> string): seq<Message>
    requires WellFormed(item)
  {
    if item.Reasoning? then ms
    else if IsCall(item) then
      if ms != [] && Open(ms[|ms| - 1]) then
        ms[|ms| - 1 := ms[|ms| - 1].(calls := Some(ms[|ms| - 1].calls.value + [CallOf(item, wrap)]))]
      else ms + [CallsMessage([CallOf(item, wrap)])]
    else ms + [MessageFor(item)]
  }

  /** Item by item; a missing field ends the translation without a result. */
  function Coerce(ms: seq<Message>, items: seq<Item>, wrap: string -> string): Option<seq<Message>>
    decreases |items|
  {
    if items == [] then Some(ms)
    else if !WellFormed(items[0]) then None
    else Coerce(Step(ms, items[0], wrap), items[1..], wrap)
  }

  ghost predicate AllWellFormed(items: seq<Item>) {
    forall i :: 0 <= i < |items| ==> WellFormed(items[i])
  }

  lemma AllTail(items: seq<Item>)
    requires |items| > 0
    ensures AllWellFormed(items) <==> WellFormed(items[0]) && AllWellFormed(items[1..])
  {
    assert items == [items[0]] + items[1..];
  }

  /** Translation fails exactly on a call without identifier or name, or an output without identifier. */
  lemma {:induction false} FailsExactly(ms: seq<Message>, items: seq<Item>, wrap: string -> string)
    ensures Coerce(ms, items, wrap).Some? <==> AllWellFormed(items)
    decreases |items|
  {
    hide Step, AllWellFormed, WellFormed;
    if items == [] {
      NothingMissing();
    } else {
      AllTail(items);
      if WellFormed(items[0]) {
        FailsExactly(Step(ms, items[0], wrap), items[1..], wrap);
      }
    }
  }

  lemma NothingMissing()
    ensures AllWellFormed([])
  {
  }

  // ---------------------------------------------------------------- the loop

  lemma {:induction false} CoerceSnoc(ms: seq<Message>, items: seq<Item>, item: Item, wrap: string -> string)
    ensures Coerce(ms, items + [item], wrap) ==
            match Coerce(ms, items, wrap)
            case None => None
            case Some(r) => if WellFormed(item) then Some(Step(r, item, wrap)) else None
    decreases |items|
  {
    hide Step, WellFormed;
    if items == [] {
      assert [item][1..] == [];
    } else {
      assert (items + [item])[1..] == items[1..] + [item];
      if WellFormed(items[0]) {
        CoerceSnoc(Step(ms, items[0], wrap), items[1..], item, wrap);
      }
    }
  }

  lemma {:induction false} CoerceFailsEarly(items: seq<Item>, i: nat, wrap: string -> string)
    requires i < |items| && !WellFormed(items[i])
    ensures Coerce([], items, wrap) == None
  {
    FailsExactly([], items, wrap);
  }

  method CoerceInput(input: Input, wrap: string -> string) returns (r: Option<seq<Message>>)
    ensures input.Whole? ==> r == Some([Message(User, Text(input.text), None, Null)])
    ensures input.Items? ==> r == Coerce([], input.items, wrap)
  {
    hide Coerce;
    if input.Whole? {
      return Some([Message(User, Text(input.text), None, Null)]);
    }
    var items := input.items;
    var ms: seq<Message> := [];
    NothingCoerced(wrap);
    for i := 0 to |items|
      invariant Coerce([], items[..i], wrap) == Some(ms)
    {
      CoerceSnoc([], items[..i], items[i], wrap);
      assert items[..i + 1] == items[..i] + [items[i]];
      if !WellFormed(items[i]) {
        CoerceFailsEarly(items, i, wrap);
        return None;
      }
      match items[i] {
        case Reasoning(_) =>
        case FunctionCall(_, _, _) =>
          ms := AppendCall(ms, items[i], wrap);
        case CustomCall(_, _, _) =>
          ms := AppendCall(ms, items[i], wrap);
        case CallOutput(id, text) =>
          ms := ms + [Message(Tool, Text(text), None, id.value)];
        case Plain(message) =>
          var copy := message;
          if copy.content.Parts? {
            copy := copy.(content := Parts(Retyped(copy.content.parts)));
          }
          ms := ms + [copy];
      }
    }
    assert items[..|items|] == items;
    r := Some(ms);
  }

  lemma NothingCoerced(wrap: string -> string)
    ensures Coerce([], [], wrap) == Some([])
  {
  }

  method AppendCall(ms: seq<Message>, item: Item, wrap: string -> string) returns (r: seq<Message>)
    requires IsCall(item) && WellFormed(item)
    ensures r == Step(ms, item, wrap)
  {
    var call := CallOf(item, wrap);
    if ms != [] && Open(ms[|ms| - 1]) {
      var last := ms[|ms| - 1];
      r := ms[|ms| - 1 := last.(calls := Some(last.calls.value + [call]))];
    } else {
      r := ms + [CallsMessage([call])];
    }
  }
}
