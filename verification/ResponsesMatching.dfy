/** Recognising a request that brings the results of the tools it was asked to run. */
module ResponsesMatching {
  import opened Prelude
  import opened Responses
  import opened ResponsesTrip

  predicate AsksForTools(m: Message) {
    m.role == Assistant && m.calls.Some? && m.calls.value != []
  }

  /** `blank` says which texts are white space only. */
  predicate Usable(id: Id, blank: string -> bool) {
    id.Id? && !blank(id.text)
  }

  /** One more than the position of the last assistant message with calls, or 0. */
  function LastAsk(ms: seq<Message>): (n: nat)
    ensures n <= |ms|
    ensures n > 0 ==> AsksForTools(ms[n - 1])
    ensures forall i :: n <= i < |ms| ==> !AsksForTools(ms[i])
  {
    if ms == [] then 0
    else if AsksForTools(ms[|ms| - 1]) then |ms|
    else LastAsk(ms[..|ms| - 1])
  }

  function Asked(calls: seq<Call>, blank: string -> bool): set<Id> {
    set call | call in calls && Usable(call.id, blank) :: call.id
  }

  function AnsweredBy(ms: seq<Message>, blank: string -> bool): set<Id> {
    set m | m in ms && Usable(m.answers, blank) :: m.answers
  }

  function HasMatchingToolResult(ms: seq<Message>, blank: string -> bool): bool {
    var n := LastAsk(ms);
    if n == 0 then false
    else if n == |ms| || exists m :: m in ms[n..] && m.role != Tool then false
    else Asked(ms[n - 1].calls.value, blank) * AnsweredBy(ms[n..], blank) != {}
  }

  /** The request at `at` is followed by tool results only, and the result at `k` answers call `c`. */
  ghost predicate Answers(ms: seq<Message>, at: nat, c: nat, k: nat, blank: string -> bool) {
    && at < k < |ms| && AsksForTools(ms[at]) && c < |ms[at].calls.value|
    && (forall i :: at < i < |ms| ==> ms[i].role == Tool)
    && ms[k].answers == ms[at].calls.value[c].id && Usable(ms[k].answers, blank)
  }

  lemma AnswerFound(ms: seq<Message>, at: nat, c: nat, k: nat, blank: string -> bool)
    requires Answers(ms, at, c, k, blank)
    ensures HasMatchingToolResult(ms, blank)
  {
    hide LastAsk, Usable;
    assert LastAsk(ms) == at + 1;
    assert ms[at + 1..][k - at - 1] == ms[k];
    assert ms[at].calls.value[c] in ms[at].calls.value;
    assert ms[k].answers in Asked(ms[at].calls.value, blank) * AnsweredBy(ms[at + 1..], blank);
  }

  lemma FindAnswer(ms: seq<Message>, blank: string -> bool) returns (at: nat, c: nat, k: nat)
    requires HasMatchingToolResult(ms, blank)
    ensures Answers(ms, at, c, k, blank)
  {
    hide LastAsk, Usable, Asked, AnsweredBy;
    var n := LastAsk(ms);
    at := n - 1;
    var id :| id in Asked(ms[at].calls.value, blank) * AnsweredBy(ms[n..], blank);
    c := AskedAt(ms[at].calls.value, blank, id);
    var j := AnsweredAt(ms[n..], blank, id);
    k := n + j;
    assert forall i :: n <= i < |ms| ==> ms[i] == ms[n..][i - n];
  }

  lemma AskedAt(calls: seq<Call>, blank: string -> bool, id: Id) returns (c: nat)
    requires id in Asked(calls, blank)
    ensures c < |calls| && calls[c].id == id && Usable(id, blank)
  {
    var call :| call in calls && Usable(call.id, blank) && call.id == id;
    c :| 0 <= c < |calls| && calls[c] == call;
  }

  lemma AnsweredAt(ms: seq<Message>, blank: string -> bool, id: Id) returns (j: nat)
    requires id in AnsweredBy(ms, blank)
    ensures j < |ms| && ms[j].answers == id
  {
    var m :| m in ms && Usable(m.answers, blank) && m.answers == id;
    j :| 0 <= j < |ms| && ms[j] == m;
  }

  /** True exactly when only tool results follow some request for tools and one of them answers it. */
  lemma MatchesIff(ms: seq<Message>, blank: string -> bool)
    ensures HasMatchingToolResult(ms, blank) <==> exists at: nat, c: nat, k: nat :: Answers(ms, at, c, k, blank)
  {
    hide HasMatchingToolResult, Answers;
    if at: nat, c: nat, k: nat :| Answers(ms, at, c, k, blank) {
      AnswerFound(ms, at, c, k, blank);
    }
    if HasMatchingToolResult(ms, blank) {
      var at, c, k := FindAnswer(ms, blank);
    }
  }

  // ---------------------------------------------------------------- a tool turn

  /** Outputs as items, and as the messages they become. */
  function OutputItems(outs: seq<(Id, string)>): (r: seq<Item>)
    ensures |r| == |outs| && forall i :: 0 <= i < |outs| ==> r[i] == CallOutput(Some(outs[i].0), outs[i].1)
  {
    seq(|outs|, i requires 0 <= i < |outs| => CallOutput(Some(outs[i].0), outs[i].1))
  }

  function ToolMessages(outs: seq<(Id, string)>): (r: seq<Message>)
    ensures |r| == |outs| && forall i :: 0 <= i < |outs| ==> r[i] == Message(Tool, Text(outs[i].1), None, outs[i].0)
  {
    seq(|outs|, i requires 0 <= i < |outs| => Message(Tool, Text(outs[i].1), None, outs[i].0))
  }

  lemma {:induction false} CoerceOutputs(ms: seq<Message>, outs: seq<(Id, string)>, wrap: string -> string)
    ensures Coerce(ms, OutputItems(outs), wrap) == Some(ms + ToolMessages(outs))
    decreases |outs|
  {
    if outs == [] {
      assert ms + [] == ms;
    } else {
      var m := Message(Tool, Text(outs[0].1), None, outs[0].0);
      assert OutputItems(outs)[1..] == OutputItems(outs[1..]);
      assert ToolMessages(outs) == [m] + ToolMessages(outs[1..]);
      CoerceOutputs(ms + [m], outs[1..], wrap);
      assert ms + [m] + ToolMessages(outs[1..]) == ms + ToolMessages(outs);
    }
  }

  lemma {:induction false} CoerceAppend(ms: seq<Message>, a: seq<Item>, b: seq<Item>, wrap: string -> string)
    requires Coerce(ms, a, wrap).Some?
    ensures Coerce(ms, a + b, wrap) == Coerce(Coerce(ms, a, wrap).value, b, wrap)
    decreases |a|
  {
    hide Step, WellFormed;
    if a == [] {
      assert a + b == b;
    } else {
      assert (a + b)[1..] == a[1..] + b;
      CoerceAppend(Step(ms, a[0], wrap), a[1..], b, wrap);
    }
  }

  ghost predicate SomeAnswer(calls: seq<Call>, outs: seq<(Id, string)>, blank: string -> bool) {
    exists i, j ::
      0 <= i < |calls| && 0 <= j < |outs| && calls[i].id == outs[j].0 && Usable(calls[i].id, blank)
  }

  function Turn(front: seq<Message>, calls: seq<Call>, outs: seq<(Id, string)>): seq<Message> {
    front + [CallsMessage(calls)] + ToolMessages(outs)
  }

  lemma TurnShape(front: seq<Message>, calls: seq<Call>, outs: seq<(Id, string)>)
    ensures var ms, n := Turn(front, calls, outs), |front|;
            && |ms| == n + 1 + |outs| && ms[n] == CallsMessage(calls)
            && (forall k :: n < k < |ms| ==> ms[k].role == Tool && ms[k].answers == outs[k - n - 1].0)
  {
    var ms, n := Turn(front, calls, outs), |front|;
    forall k | n < k < |ms|
      ensures ms[k] == ToolMessages(outs)[k - n - 1]
    {
    }
  }

  lemma TurnAnswered(front: seq<Message>, calls: seq<Call>, outs: seq<(Id, string)>, blank: string -> bool)
    requires calls != [] && SomeAnswer(calls, outs, blank)
    ensures HasMatchingToolResult(Turn(front, calls, outs), blank)
  {
    hide HasMatchingToolResult, Usable, Turn;
    TurnShape(front, calls, outs);
    var i, j :| 0 <= i < |calls| && 0 <= j < |outs| && calls[i].id == outs[j].0 && Usable(calls[i].id, blank);
    AnswerFound(Turn(front, calls, outs), |front|, i, |front| + 1 + j, blank);
  }

  lemma TurnUnanswered(front: seq<Message>, calls: seq<Call>, outs: seq<(Id, string)>, blank: string -> bool)
    requires calls != [] && HasMatchingToolResult(Turn(front, calls, outs), blank)
    ensures SomeAnswer(calls, outs, blank)
  {
    hide HasMatchingToolResult, Usable, Turn;
    TurnShape(front, calls, outs);
    var at, c, k := FindAnswer(Turn(front, calls, outs), blank);
    LaterAsk(Turn(front, calls, outs), at, |front|);
    assert calls[c].id == outs[k - |front| - 1].0;
  }

  lemma LaterAsk(ms: seq<Message>, at: nat, n: nat)
    requires at < |ms| && n < |ms| && AsksForTools(ms[at]) && AsksForTools(ms[n])
    requires forall i :: at < i < |ms| ==> ms[i].role == Tool
    requires forall i :: n < i < |ms| ==> ms[i].role == Tool
    ensures at == n
  {
  }

  /**
   * A client that sends a reply's output back, followed by its tool outputs, is recognised as
   * bringing a matching result exactly when an output answers one of the reply's calls.
   */
  lemma ToolTurn(r: Reply, customs: set<string>, c: Codec, outs: seq<(Id, string)>, blank: string -> bool)
    requires r.calls != []
    ensures Coerce([], Output(r, customs, c) + OutputItems(outs), c.wrap).Some?
    ensures HasMatchingToolResult(Coerce([], Output(r, customs, c) + OutputItems(outs), c.wrap).value, blank) <==>
            SomeAnswer(r.calls, outs, blank)
  {
    hide Coerce, Output, HasMatchingToolResult, Usable, Trip;
    var calls := Trips(r.calls, customs, c);
    RoundTrip(r, customs, c);
    CoerceAppend([], Output(r, customs, c), OutputItems(outs), c.wrap);
    CoerceOutputs(Back(r, calls), outs, c.wrap);
    var front := if r.content != [] then [Message(r.role, Parts([Part(PlainText, r.content)]), None, Null)] else [];
    assert Back(r, calls) == front + [CallsMessage(calls)];
    assert Coerce([], Output(r, customs, c) + OutputItems(outs), c.wrap) == Some(Turn(front, calls, outs));
    if SomeAnswer(calls, outs, blank) {
      TurnAnswered(front, calls, outs, blank);
    }
    if HasMatchingToolResult(Turn(front, calls, outs), blank) {
      TurnUnanswered(front, calls, outs, blank);
    }
    TripIds(r.calls, customs, c);
    SameAnswers(r.calls, calls, outs, blank);
  }

  lemma TripIds(calls: seq<Call>, customs: set<string>, c: Codec)
    ensures forall i :: 0 <= i < |calls| ==>
              Trips(calls, customs, c)[i].id == calls[i].id && Trips(calls, customs, c)[i].name == calls[i].name
  {
  }

  lemma SameAnswers(a: seq<Call>, b: seq<Call>, outs: seq<(Id, string)>, blank: string -> bool)
    requires |a| == |b| && forall i :: 0 <= i < |a| ==> a[i].id == b[i].id
    ensures SomeAnswer(a, outs, blank) <==> SomeAnswer(b, outs, blank)
  {
    hide Usable;
  }
}
