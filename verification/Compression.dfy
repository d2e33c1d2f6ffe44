/**
 * Message compression: a window that never opens inside a run of tool results, a policy prefix,
 * an anchored user message, de-duplication of redacted messages, and a budget for tool text.
 */
module Compression {
  import opened Prelude
  import opened Dedup

  datatype Message<B> = Message(role: string, content: string, rest: B)

  predicate IsTool<B>(m: Message<B>) { m.role == "tool" }
  predicate IsUser<B>(m: Message<B>) { m.role == "user" }
  predicate IsPolicy<B>(m: Message<B>) { m.role in {"system", "developer"} }

  /** What the module takes as given about redaction and fingerprints: both respect the role. */
  ghost predicate RolesKept<B(!new), F>(redact: Message<B> -> Message<B>, fingerprint: Message<B> -> F) {
    && (forall m :: redact(m).role == m.role)
    && (forall m, n :: fingerprint(m) == fingerprint(n) ==> m.role == n.role)
  }

  // ---------------------------------------------------------------- window

  /**
   * The start of the window, or nothing where the source indexes past the end: that happens
   * exactly when the retention limit is not positive and the computed start is not zero.
   */
  method WindowStart<B>(messages: seq<Message<B>>, limit: int) returns (start: Option<nat>)
    ensures start == None <==> limit <= 0 && |messages| - limit > 0
    ensures start.Some? ==>
              && start.value <= |messages|
              && (start.value > 0 ==> start.value < |messages| && !IsTool(messages[start.value]))
              && start.value <= (if |messages| - limit > 0 then |messages| - limit else 0)
              && (forall i :: start.value < i <= |messages| - limit ==> IsTool(messages[i]))
  {
    var s := if |messages| - limit > 0 then |messages| - limit else 0;
    if s > 0 && s >= |messages| {
      return None;
    }
    var from := s;
    while s > 0 && IsTool(messages[s])
      invariant 0 <= s <= from && (s > 0 ==> s < |messages|)
      invariant forall i :: s < i <= from ==> IsTool(messages[i])
    {
      s := s - 1;
    }
    start := Some(s);
  }

  /** The newest user message before the window. */
  function AnchorAt<B>(messages: seq<Message<B>>, start: nat): (a: int)
    requires start <= |messages|
    ensures -1 <= a < start
    ensures a >= 0 ==> IsUser(messages[a])
    ensures forall i :: a < i < start ==> !IsUser(messages[i])
  {
    if start == 0 then -1
    else if IsUser(messages[start - 1]) then start - 1
    else AnchorAt(messages, start - 1)
  }

  /** The length of the policy prefix before the window. */
  function PrefixLength<B>(messages: seq<Message<B>>, start: nat): (p: nat)
    requires start <= |messages|
    ensures p <= start
    ensures forall i :: 0 <= i < p ==> IsPolicy(messages[i])
    ensures p < start ==> !IsPolicy(messages[p])
    decreases start
  {
    if start == 0 then 0
    else
      var p := PrefixLength(messages, start - 1);
      if p == start - 1 && IsPolicy(messages[p]) then start else p
  }

  function Selected<B>(messages: seq<Message<B>>, start: nat): seq<Message<B>>
    requires start <= |messages|
  {
    var a := AnchorAt(messages, start);
    messages[..PrefixLength(messages, start)] + (if a >= 0 then [messages[a]] else []) + messages[start..]
  }

  function Redacted<B>(xs: seq<Message<B>>, redact: Message<B> -> Message<B>): (r: seq<Message<B>>)
    ensures |r| == |xs| && forall i :: 0 <= i < |xs| ==> r[i] == redact(xs[i])
  {
    seq(|xs|, i requires 0 <= i < |xs| => redact(xs[i]))
  }

  function Range(from: nat, to: nat): (r: seq<nat>)
    requires from <= to
    ensures |r| == to - from && forall i :: 0 <= i < |r| ==> r[i] == from + i
  {
    seq(to - from, i => from + i)
  }

  function Positions<B>(messages: seq<Message<B>>, start: nat): seq<nat>
    requires start <= |messages|
  {
    var a := AnchorAt(messages, start);
    Range(0, PrefixLength(messages, start)) + (if a >= 0 then [a as nat] else []) + Range(start, |messages|)
  }

  /** Prefix, anchor and window never overlap, so the selection keeps the original order. */
  lemma SelectedInOrder<B>(messages: seq<Message<B>>, start: nat) returns (keep: seq<nat>)
    requires start <= |messages|
    ensures Selects(messages, Selected(messages, start), keep)
    ensures keep == Positions(messages, start)
  {
    var p := PrefixLength(messages, start);
    keep := Positions(messages, start);
    assert forall i :: 0 <= i < p ==> IsPolicy(messages[i]) && !IsUser(messages[i]);
  }

  lemma SelectsCompose<T>(xs: seq<T>, ys: seq<T>, zs: seq<T>, outer: seq<nat>, inner: seq<nat>) returns (keep: seq<nat>)
    requires Selects(xs, ys, outer) && Selects(ys, zs, inner)
    ensures Selects(xs, zs, keep)
  {
    keep := seq(|inner|, i requires 0 <= i < |inner| => outer[inner[i]]);
  }

  // ---------------------------------------------------------------- tool budget

  function ToolCount<B>(xs: seq<Message<B>>): nat {
    if xs == [] then 0 else (if IsTool(xs[0]) then 1 else 0) + ToolCount(xs[1..])
  }

  function ToolText<B>(xs: seq<Message<B>>): nat {
    if xs == [] then 0 else (if IsTool(xs[0]) then |xs[0].content| else 0) + ToolText(xs[1..])
  }

  function Take(s: string, n: nat): (r: string)
    ensures |r| <= n
  {
    if |s| <= n then s else s[..n]
  }

  function Budget(maximum: nat, tools: nat): nat {
    maximum / (if tools > 1 then tools else 1)
  }

  function Trim<B>(m: Message<B>, compress: string -> string, budget: nat): Message<B> {
    if IsTool(m) then m.(content := Take(compress(m.content), budget)) else m
  }

  function Trimmed<B>(xs: seq<Message<B>>, compress: string -> string, budget: nat): (r: seq<Message<B>>)
    ensures |r| == |xs| && forall i :: 0 <= i < |xs| ==> r[i] == Trim(xs[i], compress, budget)
  {
    if xs == [] then [] else [Trim(xs[0], compress, budget)] + Trimmed(xs[1..], compress, budget)
  }

  lemma {:induction false} ToolTextBound<B>(xs: seq<Message<B>>, compress: string -> string, budget: nat)
    ensures ToolText(Trimmed(xs, compress, budget)) <= ToolCount(xs) * budget
  {
    if xs != [] {
      ToolTextBound(xs[1..], compress, budget);
      var t := Trimmed(xs, compress, budget);
      assert t[1..] == Trimmed(xs[1..], compress, budget);
      assert (ToolCount(xs[1..]) + 1) * budget == ToolCount(xs[1..]) * budget + budget;
    }
  }

  lemma BudgetFits(maximum: nat, tools: nat)
    ensures tools * Budget(maximum, tools) <= maximum
  {
    var d := if tools > 1 then tools else 1;
    assert maximum == d * (maximum / d) + maximum % d;
    if tools == 0 {
      assert tools * Budget(maximum, tools) == 0;
    }
  }

  // ---------------------------------------------------------------- the whole transformation

  ghost function Retained<B, F>(
      messages: seq<Message<B>>, start: nat, redact: Message<B> -> Message<B>,
      fingerprint: Message<B> -> F): seq<Message<B>>
    requires start <= |messages|
  {
    LastOf(Redacted(Selected(messages, start), redact), fingerprint)
  }

  method CountTools<B>(xs: seq<Message<B>>) returns (tools: nat)
    ensures tools == ToolCount(xs)
  {
    tools := 0;
    for i := 0 to |xs|
      invariant tools + ToolCount(xs[i..]) == ToolCount(xs)
    {
      assert xs[i..][1..] == xs[i + 1..];
      if IsTool(xs[i]) {
        tools := tools + 1;
      }
    }
  }

  method CompressMessages<B, F(==,!new)>(
      messages: seq<Message<B>>, window: int, maximum: nat, redact: Message<B> -> Message<B>,
      fingerprint: Message<B> -> F, compress: string -> string)
    returns (out: Option<seq<Message<B>>>, ghost start: nat)
    ensures out == None <==> window <= 0 && |messages| - window > 0
    ensures out.Some? ==>
              && start <= |messages| && (start > 0 ==> start < |messages| && !IsTool(messages[start]))
              && start <= (if |messages| - window > 0 then |messages| - window else 0)
              && (forall i :: start < i <= |messages| - window ==> IsTool(messages[i]))
              && var retained := Retained(messages, start, redact, fingerprint);
                 out.value == Trimmed(retained, compress, Budget(maximum, ToolCount(retained)))
  {
    var s := WindowStart(messages, window);
    start := 0;
    if s.None? {
      return None, 0;
    }
    start := s.value;
    var retained := KeepLast(Redacted(Selected(messages, s.value), redact), fingerprint);
    var tools := CountTools(retained);
    out := Some(Trimmed(retained, compress, Budget(maximum, tools)));
  }

  /** All tool text together stays within the limit. */
  lemma ToolTextWithinLimit<B>(retained: seq<Message<B>>, compress: string -> string, maximum: nat)
    ensures ToolText(Trimmed(retained, compress, Budget(maximum, ToolCount(retained)))) <= maximum
  {
    ToolTextBound(retained, compress, Budget(maximum, ToolCount(retained)));
    BudgetFits(maximum, ToolCount(retained));
  }

  /** What is retained is a subsequence of the redacted history with pairwise distinct fingerprints. */
  lemma RetainedInOrder<B, F>(
      messages: seq<Message<B>>, start: nat, redact: Message<B> -> Message<B>, fingerprint: Message<B> -> F)
    returns (keep: seq<nat>)
    requires start <= |messages|
    ensures Selects(Redacted(messages, redact), Retained(messages, start, redact, fingerprint), keep)
    ensures var r := Retained(messages, start, redact, fingerprint);
            forall i, j :: 0 <= i < j < |r| ==> fingerprint(r[i]) != fingerprint(r[j])
  {
    var selected := Redacted(Selected(messages, start), redact);
    var outer := SelectedInOrder(messages, start);
    assert Selects(Redacted(messages, redact), selected, outer);
    var inner := LastOfExact(selected, fingerprint);
    keep := SelectsCompose(Redacted(messages, redact), selected, LastOf(selected, fingerprint), outer, inner);
    LastOfDistinct(selected, fingerprint);
  }

  /** Where the newest user message of the history stands in the selection, with no user message behind it. */
  lemma NewestUserSelected<B>(messages: seq<Message<B>>, start: nat, u: nat) returns (at: nat)
    requires start <= |messages| && u < |messages| && IsUser(messages[u])
    requires forall i :: u < i < |messages| ==> !IsUser(messages[i])
    ensures at < |Selected(messages, start)| && Selected(messages, start)[at] == messages[u]
    ensures forall j :: at < j < |Selected(messages, start)| ==> !IsUser(Selected(messages, start)[j])
  {
    var p, a := PrefixLength(messages, start), AnchorAt(messages, start);
    var selected, b := Selected(messages, start), p + (if a >= 0 then 1 else 0);
    assert forall j :: b <= j < |selected| ==> selected[j] == messages[j - b + start];
    at := if u >= start then b + (u - start) else p;
  }

  /** The newest user message of the whole history always survives. */
  lemma NewestUserSurvives<B(!new), F>(
      messages: seq<Message<B>>, start: nat, u: nat, redact: Message<B> -> Message<B>,
      fingerprint: Message<B> -> F, compress: string -> string, budget: nat)
    requires start <= |messages| && u < |messages| && IsUser(messages[u])
    requires forall i :: u < i < |messages| ==> !IsUser(messages[i])
    requires RolesKept(redact, fingerprint)
    ensures redact(messages[u]) in Trimmed(Retained(messages, start, redact, fingerprint), compress, budget)
  {
    var at := NewestUserSelected(messages, start, u);
    var xs := Redacted(Selected(messages, start), redact);
    hide Selected;
    forall j | at + 1 <= j < |xs|
      ensures fingerprint(xs[j]) != fingerprint(xs[at])
    {
      assert xs[j].role == Selected(messages, start)[j].role && xs[at].role == messages[u].role;
    }
    LastSurvives(xs, fingerprint, at);
    var r := Retained(messages, start, redact, fingerprint);
    var i :| 0 <= i < |r| && r[i] == xs[at];
    assert Trimmed(r, compress, budget)[i] == r[i];
  }

  /** Trimming happens after de-duplication: two different tool results can become equal. */
  lemma TrimmingCanCollide()
    ensures var a := Message("tool", "x", 0);
            var b := Message("tool", "y", 0);
            var fingerprint := (m: Message<int>) => m;
            && LastOf([a, b], fingerprint) == [a, b]
            && var t := Trimmed([a, b], s => s, Budget(1, 2)); t[0] == t[1]
  {
    var a := Message("tool", "x", 0);
    var b := Message("tool", "y", 0);
    var fingerprint := (m: Message<int>) => m;
    assert a.content[0] != b.content[0];
    assert !Repeats([a, b], fingerprint, 0);
    assert [a, b][1..] == [b];
    assert LastOf([b], fingerprint) == [b];
  }

  ghost predicate Distinct<B, F>(xs: seq<Message<B>>, fingerprint: Message<B> -> F) {
    forall i, j :: 0 <= i < j < |xs| ==> fingerprint(xs[i]) != fingerprint(xs[j])
  }

  /** The fingerprint of a tool result is that of the whole message. */
  ghost predicate ToolsTold<B(!new), F>(fingerprint: Message<B> -> F) {
    forall m, n :: IsTool(m) && IsTool(n) && fingerprint(m) == fingerprint(n) ==> m == n
  }

  /** Two retained tool results that differ only in what trimming cuts away. */
  ghost predicate Collide<B>(a: Message<B>, b: Message<B>, compress: string -> string, budget: nat) {
    IsTool(a) && IsTool(b) && a.rest == b.rest && Take(compress(a.content), budget) == Take(compress(b.content), budget)
  }

  ghost predicate NoneCollide<B>(xs: seq<Message<B>>, compress: string -> string, budget: nat) {
    forall i, j :: 0 <= i < j < |xs| ==> !Collide(xs[i], xs[j], compress, budget)
  }

  /**
   * The output has no two equal fingerprints exactly when no two retained tool results agree in
   * everything but their text and in the text that the budget leaves of them.
   */
  lemma OutputDistinct<B(!new), F>(
      retained: seq<Message<B>>, redact: Message<B> -> Message<B>, fingerprint: Message<B> -> F,
      compress: string -> string, budget: nat)
    requires RolesKept(redact, fingerprint) && ToolsTold(fingerprint) && Distinct(retained, fingerprint)
    ensures Distinct(Trimmed(retained, compress, budget), fingerprint) <==> NoneCollide(retained, compress, budget)
  {
    var t := Trimmed(retained, compress, budget);
    forall i, j | 0 <= i < j < |t|
      ensures fingerprint(t[i]) == fingerprint(t[j]) <==> Collide(retained[i], retained[j], compress, budget)
    {
      assert t[i].role == retained[i].role && t[j].role == retained[j].role;
      if IsTool(t[i]) && IsTool(t[j]) {
        assert t[i] == t[j] <==> Collide(retained[i], retained[j], compress, budget);
      } else if !IsTool(t[i]) && !IsTool(t[j]) {
        assert t[i] == retained[i] && t[j] == retained[j];
      }
    }
  }

  /** What a caller can check: tool results that fit the budget as they are never become equal. */
  lemma ShortTextsStayDistinct<B(!new), F>(
      retained: seq<Message<B>>, redact: Message<B> -> Message<B>, fingerprint: Message<B> -> F,
      compress: string -> string, budget: nat)
    requires RolesKept(redact, fingerprint) && ToolsTold(fingerprint) && Distinct(retained, fingerprint)
    requires forall m :: m in retained && IsTool(m) ==> compress(m.content) == m.content && |m.content| <= budget
    ensures Trimmed(retained, compress, budget) == retained
    ensures Distinct(Trimmed(retained, compress, budget), fingerprint)
  {
  }
}
