/** What message compression keeps, position by position of the history, and what it does to each message. */
module CompressionKeeps {
  import opened Prelude
  import opened Dedup
  import opened Compression

  /**
   * Positions that are kept: the window, the policy messages at the very beginning, and the last
   * user message before the window.
   */
  ghost predicate Kept<B>(messages: seq<Message<B>>, start: nat, i: nat)
    requires i < |messages|
  {
    || start <= i
    || (forall j :: 0 <= j <= i ==> messages[j].role == "system" || messages[j].role == "developer")
    || (messages[i].role == "user" && forall j :: i < j < start && j < |messages| ==> messages[j].role != "user")
  }

  lemma PrefixExact<B>(messages: seq<Message<B>>, start: nat, i: nat)
    requires start <= |messages| && i < start
    ensures i < PrefixLength(messages, start) <==>
            forall j :: 0 <= j <= i ==> messages[j].role == "system" || messages[j].role == "developer"
  {
    var p := PrefixLength(messages, start);
    if p < start && p <= i {
      assert !IsPolicy(messages[p]);
    }
  }

  lemma AnchorExact<B>(messages: seq<Message<B>>, start: nat, i: nat)
    requires start <= |messages| && i < start
    ensures i == AnchorAt(messages, start) <==>
            messages[i].role == "user" && forall j :: i < j < start ==> messages[j].role != "user"
  {
    var a := AnchorAt(messages, start);
    assert a >= 0 ==> IsUser(messages[a]);
  }

  lemma KeptExact<B>(messages: seq<Message<B>>, start: nat, i: nat)
    requires start <= |messages| && i < |messages|
    ensures Kept(messages, start, i) <==>
            i >= start || i < PrefixLength(messages, start) || i == AnchorAt(messages, start)
  {
    if i < start {
      PrefixExact(messages, start, i);
      AnchorExact(messages, start, i);
    }
  }

  /** The selection takes exactly the kept positions, in order. */
  lemma SelectedExact<B>(messages: seq<Message<B>>, start: nat) returns (keep: seq<nat>)
    requires start <= |messages|
    ensures Selects(messages, Selected(messages, start), keep)
    ensures forall i :: 0 <= i < |messages| ==> (i in keep <==> Kept(messages, start, i))
  {
    keep := SelectedInOrder(messages, start);
    hide Kept, Selects, Selected;
    forall i | 0 <= i < |messages|
      ensures i in keep <==> Kept(messages, start, i)
    {
      KeptExact(messages, start, i);
      RangeMember(0, PrefixLength(messages, start), i);
      RangeMember(start, |messages|, i);
    }
  }

  lemma RangeMember(from: nat, to: nat, i: nat)
    requires from <= to
    ensures i in Range(from, to) <==> from <= i < to
  {
    if from <= i < to {
      assert Range(from, to)[i - from] == i;
    }
  }

  /** A later kept message says the same. */
  ghost predicate SaidAgain<B, F>(
      messages: seq<Message<B>>, start: nat, redact: Message<B> -> Message<B>, fingerprint: Message<B> -> F, i: nat)
    requires i < |messages|
  {
    exists j :: i < j < |messages| && Kept(messages, start, j) &&
      fingerprint(redact(messages[j])) == fingerprint(redact(messages[i]))
  }

  lemma RepeatsIsSaidAgain<B, F>(
      messages: seq<Message<B>>, start: nat, redact: Message<B> -> Message<B>, fingerprint: Message<B> -> F,
      outer: seq<nat>, p: nat)
    requires start <= |messages| && Selects(messages, Selected(messages, start), outer) && p < |outer|
    requires forall i :: 0 <= i < |messages| ==> (i in outer <==> Kept(messages, start, i))
    ensures Repeats(Redacted(Selected(messages, start), redact), fingerprint, p) <==>
            SaidAgain(messages, start, redact, fingerprint, outer[p])
  {
    var xs := Redacted(Selected(messages, start), redact);
    hide Selected, Kept;
    if Repeats(xs, fingerprint, p) {
      var q :| p + 1 <= q < |xs| && fingerprint(xs[q]) == fingerprint(xs[p]);
      assert outer[q] in outer && outer[p] < outer[q];
    }
    if SaidAgain(messages, start, redact, fingerprint, outer[p]) {
      var j :| outer[p] < j < |messages| && Kept(messages, start, j) &&
        fingerprint(redact(messages[j])) == fingerprint(redact(messages[outer[p]]));
      var q :| 0 <= q < |outer| && outer[q] == j;
      assert q > p;
      assert fingerprint(xs[q]) == fingerprint(xs[p]);
    }
  }

  /**
   * What is retained, exactly: the redacted messages at the kept positions whose content is not
   * said again at a later kept position, in the order of the history.
   */
  lemma RetainedExact<B, F>(
      messages: seq<Message<B>>, start: nat, redact: Message<B> -> Message<B>, fingerprint: Message<B> -> F)
    returns (keep: seq<nat>)
    requires start <= |messages|
    ensures Increasing(keep, |messages|) && |keep| == |Retained(messages, start, redact, fingerprint)|
    ensures forall k :: 0 <= k < |keep| ==>
              Retained(messages, start, redact, fingerprint)[k] == redact(messages[keep[k]])
    ensures forall i :: 0 <= i < |messages| ==>
              (i in keep <==> Kept(messages, start, i) && !SaidAgain(messages, start, redact, fingerprint, i))
  {
    var xs := Redacted(Selected(messages, start), redact);
    var outer := SelectedExact(messages, start);
    var inner := LastOfExact(xs, fingerprint);
    keep := seq(|inner|, k requires 0 <= k < |inner| => outer[inner[k]]);
    forall i | 0 <= i < |messages|
      ensures i in keep <==> Kept(messages, start, i) && !SaidAgain(messages, start, redact, fingerprint, i)
    {
      if i in outer {
        var p :| 0 <= p < |outer| && outer[p] == i;
        RepeatsIsSaidAgain(messages, start, redact, fingerprint, outer, p);
        Composed(outer, inner, keep, p);
      }
      assert forall k :: 0 <= k < |keep| ==> keep[k] == outer[inner[k]] && keep[k] in outer;
    }
  }

  lemma Composed(outer: seq<nat>, inner: seq<nat>, keep: seq<nat>, p: nat)
    requires forall i, j :: 0 <= i < j < |outer| ==> outer[i] < outer[j]
    requires p < |outer| && |keep| == |inner|
    requires forall k :: 0 <= k < |inner| ==> inner[k] < |outer| && keep[k] == outer[inner[k]]
    ensures outer[p] in keep <==> p in inner
  {
    if p in inner {
      var k :| 0 <= k < |inner| && inner[k] == p;
      assert keep[k] == outer[p];
    }
    if outer[p] in keep {
      var k :| 0 <= k < |keep| && keep[k] == outer[p];
      assert inner[k] == p;
      assert inner[k] in inner;
    }
  }

  /** Every kept message is still represented by one with its fingerprint. */
  lemma NothingForgotten<B, F>(
      messages: seq<Message<B>>, start: nat, redact: Message<B> -> Message<B>, fingerprint: Message<B> -> F, i: nat)
    returns (k: nat)
    requires start <= |messages| && i < |messages| && Kept(messages, start, i)
    ensures k < |Retained(messages, start, redact, fingerprint)|
    ensures fingerprint(Retained(messages, start, redact, fingerprint)[k]) == fingerprint(redact(messages[i]))
  {
    var outer := SelectedExact(messages, start);
    var xs := Redacted(Selected(messages, start), redact);
    var p :| 0 <= p < |outer| && outer[p] == i;
    LastOfDistinct(xs, fingerprint);
    assert xs[p] == redact(messages[i]);
    k :| 0 <= k < |LastOf(xs, fingerprint)| && fingerprint(LastOf(xs, fingerprint)[k]) == fingerprint(xs[p]);
  }

  // ---------------------------------------------------------------- tool text

  ghost function Tools<B>(xs: seq<Message<B>>): set<nat> {
    set i: nat | i < |xs| && xs[i].role == "tool"
  }

  lemma {:induction false} ToolCountSnoc<B>(xs: seq<Message<B>>, x: Message<B>)
    ensures ToolCount(xs + [x]) == ToolCount(xs) + (if IsTool(x) then 1 else 0)
  {
    if xs == [] {
      assert [x][1..] == [];
    } else {
      assert (xs + [x])[1..] == xs[1..] + [x];
      ToolCountSnoc(xs[1..], x);
    }
  }

  lemma ToolsSnoc<B>(xs: seq<Message<B>>, x: Message<B>)
    ensures Tools(xs + [x]) == Tools(xs) + if IsTool(x) then {|xs|} else {}
    ensures |xs| !in Tools(xs)
  {
    var ys := xs + [x];
    forall i: nat
      ensures i in Tools(ys) <==> i in Tools(xs) || (i == |xs| && IsTool(x))
    {
    }
  }

  lemma {:induction false} ToolCountIs<B>(xs: seq<Message<B>>)
    ensures ToolCount(xs) == |Tools(xs)|
  {
    if xs == [] {
      assert Tools(xs) == {};
    } else {
      hide Tools, ToolCount;
      var n := |xs| - 1;
      ToolCountIs(xs[..n]);
      ToolCountSnoc(xs[..n], xs[n]);
      ToolsSnoc(xs[..n], xs[n]);
      assert xs[..n] + [xs[n]] == xs;
    }
  }

  function Share(maximum: nat, tools: nat): nat {
    if tools <= 1 then maximum else maximum / tools
  }

  /**
   * What is done to each retained message: a tool result keeps the beginning of its compressed
   * text, as long as an equal share of the limit; every other message stays as it is.
   */
  lemma TrimmedExact<B>(retained: seq<Message<B>>, compress: string -> string, maximum: nat, k: nat)
    requires k < |retained|
    ensures var share := Share(maximum, |Tools(retained)|);
            var text := compress(retained[k].content);
            var out := Trimmed(retained, compress, Budget(maximum, ToolCount(retained)))[k];
            && (retained[k].role != "tool" ==> out == retained[k])
            && (retained[k].role == "tool" ==>
                  out == retained[k].(content := if |text| <= share then text else text[..share]))
  {
    ToolCountIs(retained);
  }
}
