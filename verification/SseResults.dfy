/** What an accepted capture looks like, and what its tool calls contain. */
module SseResults {
  import opened Prelude
  import opened SseFraming
  import opened SseCapture

  /** Two ways of cutting the same body at clean boundaries are captured alike. */
  lemma ChunkIndependence(a: seq<string>, b: seq<string>, read: string -> Reading)
    requires Join(a) == Join(b) && CleanCuts(a) && CleanCuts(b)
    ensures Whole(Join(Normalized(a)), read) == Whole(Join(Normalized(b)), read)
  {
    NormalizeChunks(a);
    NormalizeChunks(b);
  }

  // ---------------------------------------------------------------- acceptance

  /** What the data frames carry, in order. */
  function Payloads(frames: seq<string>): seq<string> {
    if frames == [] then []
    else if IsData(frames[0]) then [frames[0][6..]] + Payloads(frames[1..])
    else Payloads(frames[1..])
  }

  predicate Readable(payload: string, read: string -> Reading) {
    payload != DONE && read(payload).Chunk?
  }

  predicate AllReadable(ps: seq<string>, read: string -> Reading) {
    forall i :: 0 <= i < |ps| ==> Readable(ps[i], read)
  }

  /** Readable payloads and then the end marker, once, at the very end. */
  predicate Acceptable(ps: seq<string>, read: string -> Reading) {
    |ps| > 0 && ps[|ps| - 1] == DONE && AllReadable(ps[..|ps| - 1], read)
  }

  function EventFor(number: nat, payload: string, read: string -> Reading): Event
    requires payload == DONE || Readable(payload, read)
  {
    if payload == DONE then Event(number, Done, "")
    else Event(number, KindOf(read(payload)), read(payload).finish)
  }

  function FragmentsOf(ps: seq<string>, read: string -> Reading): seq<Fragment>
    requires AllReadable(ps, read)
  {
    if ps == [] then [] else read(ps[0]).fragments + FragmentsOf(ps[1..], read)
  }

  lemma {:induction false} AddAllAppend(calls: seq<Call>, a: seq<Fragment>, b: seq<Fragment>)
    ensures AddAll(calls, a + b) == AddAll(AddAll(calls, a), b)
    decreases |a|
  {
    if a == [] {
      assert a + b == b;
    } else {
      assert (a + b)[1..] == a[1..] + b;
      AddAllAppend(Add(calls, a[0]), a[1..], b);
    }
  }

  /** After the end marker only frames without data are tolerated. */
  lemma {:induction false} AfterDone(s: State, frames: seq<string>, read: string -> Reading)
    requires s.done
    ensures HandleAll(s, frames, read).Running? <==> Payloads(frames) == []
    ensures Payloads(frames) == [] ==> HandleAll(s, frames, read) == Running(s)
    decreases |frames|
  {
    if frames != [] && !IsData(frames[0]) {
      AfterDone(s, frames[1..], read);
    }
  }

  lemma AcceptableTail(ps: seq<string>, read: string -> Reading)
    requires |ps| > 0 && ps[0] != DONE
    ensures Acceptable(ps, read) <==> Readable(ps[0], read) && Acceptable(ps[1..], read)
    ensures AllReadable(ps, read) <==> Readable(ps[0], read) && AllReadable(ps[1..], read)
  {
    var n := |ps|;
    if n > 1 {
      assert ps[..n - 1] == [ps[0]] + ps[1..][..n - 2];
      assert ps[1..][n - 2] == ps[n - 1];
    }
    assert ps == [ps[0]] + ps[1..];
  }

  lemma NothingRead(read: string -> Reading)
    ensures AllReadable([], read) && !Acceptable([], read)
  {
  }

  /** Frames are handled without error exactly when their payloads are acceptable so far. */
  lemma {:induction false} Decides(s: State, frames: seq<string>, read: string -> Reading)
    requires !s.done
    ensures var ps, out := Payloads(frames), HandleAll(s, frames, read);
            && (out.Running? <==> AllReadable(ps, read) || Acceptable(ps, read))
            && (out.Running? && out.state.done <==> Acceptable(ps, read))
    decreases |frames|
  {
    hide AllReadable, Acceptable, AddAll, KindOf;
    var ps := Payloads(frames);
    if frames == [] {
      NothingRead(read);
    } else if !IsData(frames[0]) {
      Decides(s, frames[1..], read);
    } else if ps[0] == DONE {
      AfterDone(Finish(s), frames[1..], read);
      MarkerFirst(ps, read);
    } else {
      AcceptableTail(ps, read);
      if Readable(ps[0], read) {
        Decides(Note(s, read(ps[0])), frames[1..], read);
      }
    }
  }

  lemma MarkerFirst(ps: seq<string>, read: string -> Reading)
    requires |ps| > 0 && ps[0] == DONE
    ensures !AllReadable(ps, read)
    ensures Acceptable(ps, read) <==> ps == [DONE]
  {
    if |ps| > 1 {
      assert ps[..|ps| - 1][0] == DONE;
    }
  }

  /** The payloads before the end marker. */
  function Body(ps: seq<string>): seq<string> {
    if ps != [] && ps[|ps| - 1] == DONE then ps[..|ps| - 1] else ps
  }

  ghost predicate Fine(ps: seq<string>, read: string -> Reading) {
    AllReadable(ps, read) || Acceptable(ps, read)
  }

  lemma FineBody(ps: seq<string>, read: string -> Reading)
    requires Fine(ps, read)
    ensures AllReadable(Body(ps), read)
    ensures forall i :: 0 <= i < |ps| ==> ps[i] == DONE || Readable(ps[i], read)
  {
    if Acceptable(ps, read) {
      assert forall i :: 0 <= i < |ps| - 1 ==> ps[i] == ps[..|ps| - 1][i];
    }
  }

  /** One event per payload, numbered on from those of `s`. */
  ghost predicate Grown(s: State, t: State, ps: seq<string>, read: string -> Reading)
    requires Fine(ps, read)
  {
    FineBody(ps, read);
    && |t.events| == |s.events| + |ps|
    && (forall i :: 0 <= i < |s.events| ==> t.events[i] == s.events[i])
    && (forall i :: 0 <= i < |ps| ==> t.events[|s.events| + i] == EventFor(|s.events| + i + 1, ps[i], read))
  }

  lemma GrownNone(s: State, read: string -> Reading)
    ensures Fine([], read) && Grown(s, s, [], read)
  {
  }

  lemma GrownStep(s: State, m: State, t: State, ps: seq<string>, read: string -> Reading)
    requires |ps| > 0 && Fine(ps, read) && Fine(ps[1..], read)
    requires ps[0] == DONE || Readable(ps[0], read)
    requires m.events == s.events + [EventFor(|s.events| + 1, ps[0], read)]
    requires Grown(m, t, ps[1..], read)
    ensures Grown(s, t, ps, read)
  {
    hide Fine, EventFor;
    FineBody(ps, read);
    FineBody(ps[1..], read);
    var n := |s.events|;
    assert forall i :: 0 <= i < n ==> m.events[i] == s.events[i];
    assert t.events[n] == m.events[n];
    forall i | 0 < i < |ps|
      ensures t.events[n + i] == EventFor(n + i + 1, ps[i], read)
    {
      assert ps[1..][i - 1] == ps[i];
      assert t.events[|m.events| + (i - 1)] == EventFor(|m.events| + (i - 1) + 1, ps[1..][i - 1], read);
    }
  }

  /** What a run without error adds. */
  lemma {:induction false} Grows(s: State, frames: seq<string>, read: string -> Reading)
    requires !s.done && Fine(Payloads(frames), read)
    ensures HandleAll(s, frames, read).Running?
    ensures Grown(s, HandleAll(s, frames, read).state, Payloads(frames), read)
    decreases |frames|
  {
    hide AllReadable, Acceptable, AddAll, Grown;
    Decides(s, frames, read);
    var ps := Payloads(frames);
    if frames == [] {
      GrownNone(s, read);
    } else if !IsData(frames[0]) {
      Grows(s, frames[1..], read);
    } else if ps[0] == DONE {
      AfterDone(Finish(s), frames[1..], read);
      MarkerFirst(ps, read);
      GrownNone(Finish(s), read);
      GrownStep(s, Finish(s), Finish(s), ps, read);
    } else {
      AcceptableTail(ps, read);
      Grows(Note(s, read(ps[0])), frames[1..], read);
      GrownStep(s, Note(s, read(ps[0])), HandleAll(s, frames, read).state, ps, read);
    }
  }

  lemma {:induction false} CallsGrow(s: State, frames: seq<string>, read: string -> Reading)
    requires !s.done && Fine(Payloads(frames), read)
    ensures HandleAll(s, frames, read).Running?
    ensures AllReadable(Body(Payloads(frames)), read)
    ensures HandleAll(s, frames, read).state.calls == AddAll(s.calls, FragmentsOf(Body(Payloads(frames)), read))
    decreases |frames|
  {
    hide AllReadable, Acceptable, Body;
    Decides(s, frames, read);
    var ps := Payloads(frames);
    FineBody(ps, read);
    if frames == [] {
      BodyEnds();
    } else if !IsData(frames[0]) {
      CallsGrow(s, frames[1..], read);
    } else if ps[0] == DONE {
      AfterDone(Finish(s), frames[1..], read);
      MarkerFirst(ps, read);
      BodyEnds();
    } else {
      AcceptableTail(ps, read);
      CallsGrow(Note(s, read(ps[0])), frames[1..], read);
      BodyTail(ps);
      AddAllAppend(s.calls, read(ps[0]).fragments, FragmentsOf(Body(ps[1..]), read));
    }
  }

  lemma BodyEnds()
    ensures Body([]) == [] && Body([DONE]) == []
  {
  }

  lemma BodyTail(ps: seq<string>)
    requires |ps| > 0 && ps[0] != DONE
    ensures Body(ps) == [ps[0]] + Body(ps[1..])
    ensures Body(ps)[1..] == Body(ps[1..])
  {
    assert |ps| > 1 ==> ps[1..][|ps| - 2] == ps[|ps| - 1];
  }

  /**
   * A body is accepted if and only if nothing follows its last blank line and its payloads are
   * readable ones closed by exactly one end marker.
   */
  lemma AcceptedExactly(text: string, read: string -> Reading)
    ensures Whole(text, read).Captured? <==>
            Split(text).1 == "" && Acceptable(Payloads(Split(text).0), read)
  {
    hide Split, Acceptable, AllReadable, HandleAll;
    Decides(START, Split(text).0, read);
  }

  lemma NotBoth(ps: seq<string>, read: string -> Reading)
    ensures !(AllReadable(ps, read) && Acceptable(ps, read))
  {
    assert Acceptable(ps, read) ==> !Readable(ps[|ps| - 1], read);
  }

  /** The two framing errors come only after every complete frame has been handled. */
  lemma FramingErrors(text: string, read: string -> Reading)
    ensures Whole(text, read) == Failed(NotDone) <==>
            Split(text).1 == "" && AllReadable(Payloads(Split(text).0), read)
    ensures Whole(text, read) == Failed(Unframed) <==>
            Split(text).1 != "" && Fine(Payloads(Split(text).0), read)
  {
    hide Split, HandleAll, AllReadable, Acceptable;
    var frames := Split(text).0;
    Decides(START, frames, read);
    NotAFramingError(START, frames, read);
    NotBoth(Payloads(frames), read);
  }

  lemma {:induction false} NotAFramingError(s: State, frames: seq<string>, read: string -> Reading)
    ensures HandleAll(s, frames, read) != Raised(NotDone) && HandleAll(s, frames, read) != Raised(Unframed)
    decreases |frames|
  {
    if frames != [] && Handle(s, frames[0], read).Running? {
      NotAFramingError(Handle(s, frames[0], read).state, frames[1..], read);
    }
  }

  // ---------------------------------------------------------------- rejection

  /** Payload `k` is the first that cannot be handled, and `e` is why. */
  ghost predicate FaultAt(ps: seq<string>, k: nat, e: Error, read: string -> Reading) {
    && k < |ps|
    && match e
       case DuplicateDone => Acceptable(ps[..k], read) && ps[k] == DONE
       case BadEncoding => Fine(ps[..k], read) && ps[k] != DONE && read(ps[k]).Undecodable?
       case PayloadAfterDone => Acceptable(ps[..k], read) && ps[k] != DONE && !read(ps[k]).Undecodable?
       case BadJson => AllReadable(ps[..k], read) && ps[k] != DONE && read(ps[k]).Unparsable?
       case _ => false
  }

  ghost predicate Faulty(ps: seq<string>, e: Error, read: string -> Reading) {
    exists k :: FaultAt(ps, k, e, read)
  }

  lemma FaultShift(ps: seq<string>, k: nat, e: Error, read: string -> Reading)
    requires |ps| > 0 && Readable(ps[0], read) && FaultAt(ps[1..], k, e, read)
    ensures FaultAt(ps, k + 1, e, read)
  {
    hide AllReadable, Acceptable;
    assert ps[..k + 1][1..] == ps[1..][..k];
    AcceptableTail(ps[..k + 1], read);
  }

  lemma FaultHere(ps: seq<string>, read: string -> Reading)
    requires |ps| > 0 && ps[0] != DONE
    ensures read(ps[0]).Undecodable? ==> FaultAt(ps, 0, BadEncoding, read)
    ensures read(ps[0]).Unparsable? ==> FaultAt(ps, 0, BadJson, read)
  {
    assert ps[..0] == [];
  }

  /** After the end marker, the next payload is the fault. */
  lemma FaultAfterDone(ps: seq<string>, read: string -> Reading)
    requires |ps| > 1 && ps[0] == DONE
    ensures FaultAt(ps, 1, AfterDoneError(ps[1], read), read)
  {
    assert ps[..1] == [DONE];
  }

  function AfterDoneError(payload: string, read: string -> Reading): Error {
    if payload == DONE then DuplicateDone else if read(payload).Undecodable? then BadEncoding else PayloadAfterDone
  }

  lemma {:induction false} RaisesAfterDone(s: State, frames: seq<string>, read: string -> Reading)
    requires s.done && Payloads(frames) != []
    ensures HandleAll(s, frames, read) == Raised(AfterDoneError(Payloads(frames)[0], read))
    decreases |frames|
  {
    if !IsData(frames[0]) {
      RaisesAfterDone(s, frames[1..], read);
    }
  }

  lemma {:induction false} FirstFault(s: State, frames: seq<string>, read: string -> Reading) returns (k: nat)
    requires !s.done && HandleAll(s, frames, read).Raised?
    ensures FaultAt(Payloads(frames), k, HandleAll(s, frames, read).error, read)
    decreases |frames|
  {
    hide FaultAt, AddAll, KindOf, AllReadable, Acceptable;
    var ps := Payloads(frames);
    if !IsData(frames[0]) {
      k := FirstFault(s, frames[1..], read);
    } else if ps[0] == DONE {
      k := 1;
      AfterDone(Finish(s), frames[1..], read);
      RaisesAfterDone(Finish(s), frames[1..], read);
      FaultAfterDone(ps, read);
    } else if read(ps[0]).Chunk? {
      k := FirstFault(Note(s, read(ps[0])), frames[1..], read);
      FaultShift(ps, k, HandleAll(s, frames, read).error, read);
      k := k + 1;
    } else {
      k := 0;
      FaultHere(ps, read);
    }
  }

  lemma FineUpTo(ps: seq<string>, k: nat, j: nat, e: Error, read: string -> Reading)
    requires j < k <= |ps| && Fine(ps[..k], read)
    ensures !FaultAt(ps, j, e, read)
  {
    assert forall i :: 0 <= i < k - 1 ==> ps[..k][..k - 1][i] == ps[i];
    assert forall i :: 0 <= i < k ==> ps[..k][i] == ps[i];
    assert forall i :: 0 <= i < j ==> ps[..j][i] == ps[i];
  }

  lemma FaultFine(ps: seq<string>, k: nat, e: Error, read: string -> Reading)
    requires FaultAt(ps, k, e, read)
    ensures k < |ps| && Fine(ps[..k], read)
  {
  }

  lemma FaultUnique(ps: seq<string>, k: nat, e: Error, j: nat, d: Error, read: string -> Reading)
    requires FaultAt(ps, k, e, read) && FaultAt(ps, j, d, read)
    ensures k == j && e == d
  {
    FaultFine(ps, k, e, read);
    FaultFine(ps, j, d, read);
    if j < k {
      FineUpTo(ps, k, j, d, read);
    } else if k < j {
      FineUpTo(ps, j, k, e, read);
    } else {
      NotBoth(ps[..k], read);
    }
  }

  /** Each other error is raised exactly when the first payload that cannot be handled has that fault. */
  lemma FaultsExactly(text: string, e: Error, read: string -> Reading)
    requires e != Unframed && e != NotDone
    ensures Whole(text, read) == Failed(e) <==> Faulty(Payloads(Split(text).0), e, read)
  {
    hide Split, HandleAll, FaultAt, AllReadable, Acceptable;
    var frames := Split(text).0;
    var ps := Payloads(frames);
    Decides(START, frames, read);
    if HandleAll(START, frames, read).Raised? {
      var k := FirstFault(START, frames, read);
      var d := HandleAll(START, frames, read).error;
      assert Whole(text, read) == Failed(d);
      assert Faulty(ps, d, read);
      if Faulty(ps, e, read) {
        var j :| FaultAt(ps, j, e, read);
        FaultUnique(ps, k, d, j, e, read);
      }
    } else if j :| FaultAt(ps, j, e, read) {
      FaultFine(ps, j, e, read);
      assert ps[..|ps|] == ps;
      FineUpTo(ps, |ps|, j, e, read);
    }
  }

  /** Started, then one event per payload in order, the end marker last, then the end of the body. */
  lemma AcceptedShape(text: string, read: string -> Reading)
    requires Whole(text, read).Captured?
    ensures var ps, events := Payloads(Split(text).0), Whole(text, read).events;
            && Acceptable(ps, read)
            && |events| == |ps| + 2
            && events[0] == Event(1, Started, "")
            && (forall i :: 0 <= i < |ps| - 1 ==>
                  Readable(ps[i], read) && events[i + 1] == Event(i + 2, KindOf(read(ps[i])), read(ps[i]).finish))
            && events[|ps|] == Event(|ps| + 1, Done, "")
            && events[|ps| + 1] == Event(|ps| + 2, Eof, "")
  {
    hide Split, HandleAll, AllReadable, Acceptable;
    var frames := Split(text).0;
    var ps := Payloads(frames);
    AcceptedExactly(text, read);
    Grows(START, frames, read);
    ShapeFrom(ps, HandleAll(START, frames, read).state, read);
  }

  lemma ShapeFrom(ps: seq<string>, t: State, read: string -> Reading)
    requires Acceptable(ps, read) && Fine(ps, read) && Grown(START, t, ps, read)
    ensures |t.events| == |ps| + 1 && t.events[0] == Event(1, Started, "")
    ensures forall i :: 0 <= i < |ps| - 1 ==>
              Readable(ps[i], read) && t.events[i + 1] == Event(i + 2, KindOf(read(ps[i])), read(ps[i]).finish)
    ensures t.events[|ps|] == Event(|ps| + 1, Done, "")
  {
    FineBody(ps, read);
    forall i | 0 <= i < |ps| - 1
      ensures Readable(ps[i], read) && t.events[i + 1] == Event(i + 2, KindOf(read(ps[i])), read(ps[i]).finish)
    {
      assert ps[..|ps| - 1][i] == ps[i];
      assert t.events[|START.events| + i] == EventFor(i + 2, ps[i], read);
    }
    assert t.events[|START.events| + (|ps| - 1)] == EventFor(|ps| + 1, DONE, read);
  }

  // ---------------------------------------------------------------- tool calls

  function Indices(calls: seq<Call>): (r: seq<int>)
    ensures |r| == |calls|
  {
    seq(|calls|, i requires 0 <= i < |calls| => calls[i].index)
  }

  function Seen(fs: seq<Fragment>): (r: seq<int>)
    ensures |r| == |fs|
  {
    seq(|fs|, i requires 0 <= i < |fs| => fs[i].index)
  }

  /** Everything that was streamed for one index, in order. */
  function Total(fs: seq<Fragment>, index: int): (r: Call)
    ensures r.index == index
  {
    if fs == [] then Call(index, "", "", "")
    else
      var t := Total(fs[..|fs| - 1], index);
      var f := fs[|fs| - 1];
      if f.index == index then Extended(t, f) else t
  }

  /** One call per index in the order of first appearance, each with all its pieces joined. */
  ghost predicate Accumulates(fs: seq<Fragment>, calls: seq<Call>) {
    && FirstSeen(Seen(fs), Indices(calls))
    && forall i :: 0 <= i < |calls| ==> calls[i] == Total(fs, calls[i].index)
  }

  lemma NoDupTail<T>(x: T, ys: seq<T>)
    requires NoDup([x] + ys)
    ensures NoDup(ys) && x !in ys
  {
    var xs := [x] + ys;
    assert forall i :: 0 <= i < |ys| ==> xs[i + 1] == ys[i];
    assert xs[0] == x;
  }

  lemma {:induction false} AddAt(calls: seq<Call>, f: Fragment)
    requires NoDup(Indices(calls))
    ensures var r := Add(calls, f);
            && (f.index in Indices(calls) ==> |r| == |calls|)
            && (f.index !in Indices(calls) ==>
                  |r| == |calls| + 1 && r[|calls|] == Call(f.index, f.id, f.name, f.arguments))
            && (forall i :: 0 <= i < |calls| ==>
                  r[i] == if calls[i].index == f.index then Extended(calls[i], f) else calls[i])
  {
    hide NoDup, Extended;
    if calls != [] {
      var tail := calls[1..];
      assert Indices(calls) == [calls[0].index] + Indices(tail);
      NoDupTail(calls[0].index, Indices(tail));
      AddAt(tail, f);
      var r := Add(calls, f);
      assert f.index in Indices(calls) <==> f.index == calls[0].index || f.index in Indices(tail);
      forall i | 0 < i < |calls|
        ensures r[i] == if calls[i].index == f.index then Extended(calls[i], f) else calls[i]
      {
        assert tail[i - 1] == calls[i] && Indices(tail)[i - 1] == calls[i].index;
        assert r[i] == r[1..][i - 1];
      }
    }
  }

  lemma {:induction false} TotalAbsent(fs: seq<Fragment>, index: int)
    requires index !in Seen(fs)
    ensures Total(fs, index) == Call(index, "", "", "")
  {
    if fs != [] {
      var front := fs[..|fs| - 1];
      assert forall i :: 0 <= i < |front| ==> Seen(front)[i] == Seen(fs)[i];
      assert Seen(fs)[|fs| - 1] == fs[|fs| - 1].index;
      TotalAbsent(front, index);
    }
  }

  lemma AccumulatesStep(fs: seq<Fragment>, calls: seq<Call>, f: Fragment)
    requires Accumulates(fs, calls)
    ensures Accumulates(fs + [f], Add(calls, f))
  {
    hide FirstSeen, IndexOf, Add, Total, NoDup, Extended;
    var r := Add(calls, f);
    FirstSeenMembers(Seen(fs), Indices(calls), f.index);
    AddAt(calls, f);
    FirstSeenNext(Seen(fs), Indices(calls), f.index);
    assert Seen(fs + [f]) == Seen(fs) + [f.index];
    assert Indices(r) == if f.index in Indices(calls) then Indices(calls) else Indices(calls) + [f.index];
    forall i | 0 <= i < |r|
      ensures r[i] == Total(fs + [f], r[i].index)
    {
      if i < |calls| {
        TotalNext(fs, f, calls[i].index);
      } else {
        TotalFirst(fs, f);
      }
    }
  }

  lemma TotalFirst(fs: seq<Fragment>, f: Fragment)
    requires f.index !in Seen(fs)
    ensures Total(fs + [f], f.index) == Call(f.index, f.id, f.name, f.arguments)
  {
    TotalNext(fs, f, f.index);
    TotalAbsent(fs, f.index);
  }

  lemma TotalNext(fs: seq<Fragment>, f: Fragment, index: int)
    ensures Total(fs + [f], index) ==
            if f.index == index then Extended(Total(fs, index), f) else Total(fs, index)
  {
    assert (fs + [f])[..|fs|] == fs;
  }

  lemma AccumulatesNone()
    ensures Accumulates([], [])
  {
  }

  lemma {:induction false} AccumulatesAll(seen: seq<Fragment>, calls: seq<Call>, fs: seq<Fragment>)
    requires Accumulates(seen, calls)
    ensures Accumulates(seen + fs, AddAll(calls, fs))
    decreases |fs|
  {
    hide Accumulates, Add;
    if fs == [] {
      assert seen + fs == seen;
    } else {
      AccumulatesStep(seen, calls, fs[0]);
      AccumulatesAll(seen + [fs[0]], Add(calls, fs[0]), fs[1..]);
      assert seen + [fs[0]] + fs[1..] == seen + fs;
    }
  }

  /** The calls of an accepted capture are the accumulation of every fragment before the marker. */
  lemma CallsAccumulate(text: string, read: string -> Reading)
    requires Whole(text, read).Captured?
    ensures var body := Body(Payloads(Split(text).0));
            && AllReadable(body, read)
            && Accumulates(FragmentsOf(body, read), Whole(text, read).calls)
  {
    hide Split, HandleAll, Accumulates, AllReadable, Acceptable;
    var frames := Split(text).0;
    AcceptedExactly(text, read);
    CallsGrow(START, frames, read);
    var fs := FragmentsOf(Body(Payloads(frames)), read);
    AccumulatesNone();
    AccumulatesAll([], [], fs);
    assert [] + fs == fs;
  }

  /** The pieces that one index was sent, one after the other, as picked from each fragment. */
  function Joined(fs: seq<Fragment>, index: int, pick: Fragment -> string): string {
    if fs == [] then ""
    else (if fs[0].index == index then pick(fs[0]) else "") + Joined(fs[1..], index, pick)
  }

  lemma {:induction false} JoinedSnoc(fs: seq<Fragment>, f: Fragment, index: int, pick: Fragment -> string)
    ensures Joined(fs + [f], index, pick) == Joined(fs, index, pick) + (if f.index == index then pick(f) else "")
  {
    if fs == [] {
      assert [f][1..] == [];
    } else {
      assert (fs + [f])[1..] == fs[1..] + [f];
      JoinedSnoc(fs[1..], f, index, pick);
    }
  }

  /** What was streamed for an index is, field by field, the concatenation of its pieces in order. */
  lemma {:induction false} TotalJoined(fs: seq<Fragment>, index: int)
    ensures Total(fs, index).id == Joined(fs, index, (f: Fragment) => f.id)
    ensures Total(fs, index).name == Joined(fs, index, (f: Fragment) => f.name)
    ensures Total(fs, index).arguments == Joined(fs, index, (f: Fragment) => f.arguments)
  {
    if fs != [] {
      var n := |fs| - 1;
      TotalJoined(fs[..n], index);
      JoinedSnoc(fs[..n], fs[n], index, (f: Fragment) => f.id);
      JoinedSnoc(fs[..n], fs[n], index, (f: Fragment) => f.name);
      JoinedSnoc(fs[..n], fs[n], index, (f: Fragment) => f.arguments);
      assert fs[..n] + [fs[n]] == fs;
      hide Joined;
    }
  }

  /**
   * The tool calls of an accepted capture, written out: one for every index that occurs, by first
   * appearance, and each field of it the concatenation of that index's pieces in the order sent.
   */
  lemma CallsJoined(text: string, read: string -> Reading, i: nat)
    requires Whole(text, read).Captured? && i < |Whole(text, read).calls|
    ensures var body := Body(Payloads(Split(text).0));
            && AllReadable(body, read)
            && var fs, c := FragmentsOf(body, read), Whole(text, read).calls[i];
               && FirstSeen(Seen(fs), Indices(Whole(text, read).calls))
               && c.id == Joined(fs, c.index, (f: Fragment) => f.id)
               && c.name == Joined(fs, c.index, (f: Fragment) => f.name)
               && c.arguments == Joined(fs, c.index, (f: Fragment) => f.arguments)
  {
    CallsAccumulate(text, read);
    hide Split, HandleAll, AllReadable, Payloads, FirstSeen, Joined, Total;
    var fs := FragmentsOf(Body(Payloads(Split(text).0)), read);
    TotalJoined(fs, Whole(text, read).calls[i].index);
  }

  /** Which kind of event a payload becomes. */
  lemma KindExactly(c: Reading)
    requires c.Chunk?
    ensures KindOf(c) == FinalChoice <==> |c.finish| > 0
    ensures KindOf(c) == ToolCallDelta <==> |c.finish| == 0 && |c.fragments| > 0
    ensures KindOf(c) == ContentDelta <==> |c.finish| == 0 && |c.fragments| == 0 && c.hasContent
    ensures KindOf(c) == PlainChunk <==> |c.finish| == 0 && |c.fragments| == 0 && !c.hasContent
  {
  }

  // ---------------------------------------------------------------- cut line ends

  lemma MarkerFrame(read: string -> Reading)
    ensures Split(DATA + DONE + "\n\n") == ([DATA + DONE], "")
    ensures HandleAll(START, [DATA + DONE], read) == Running(Finish(START))
  {
    hide Split;
    var frame := DATA + DONE;
    NoNewlineTight(frame);
    RebuildSplits([frame], "");
    assert Rebuild([frame], "") == frame + "\n\n";
    assert frame[..6] == DATA && frame[6..] == DONE;
    AfterDone(Finish(START), [], read);
  }

  lemma NoNewlineTight(frame: string)
    requires '\n' !in frame
    ensures Tight(frame)
  {
    var b := frame + ['\n'];
    assert forall i :: 0 <= i < |frame| ==> b[i] == frame[i];
  }

  lemma BrokenPairNotBlank(frame: string)
    requires '\n' !in frame
    ensures Find(frame + "\n\r\n") == -1
  {
    var b := frame + "\n\r\n";
    assert forall i :: 0 <= i < |frame| ==> b[i] == frame[i];
    assert b[|frame|] == '\n' && b[|frame| + 1] == '\r' && b[|frame| + 2] == '\n';
  }

  lemma MarkerNormalized()
    ensures Normalize(DATA + DONE + "\n\r\n") == DATA + DONE + "\n\n"
    ensures Normalize(DATA + DONE + "\n\r") == DATA + DONE + "\n\r"
    ensures Normalize("\n") == "\n"
  {
    var line := DATA + DONE + "\n";
    NoCarriageReturn(line);
    assert Normalize("\r\n") == "\n" + Normalize("\r\n"[2..]);
    NormalizeAppend(line, "\r\n");
    assert line + "\r\n" == DATA + DONE + "\n\r\n";
    NormalizeAppend(line, "\r");
    assert line + "\r" == DATA + DONE + "\n\r";
  }

  lemma JoinOne(a: string)
    ensures Join([a]) == a && Normalized([a]) == [Normalize(a)] && CleanCuts([a])
  {
  }

  lemma JoinTwo(a: string, b: string)
    ensures Join([a, b]) == a + b && Normalized([a, b]) == [Normalize(a), Normalize(b)]
    ensures CleanCuts([a, b]) <==> !CutsPair(a, b)
  {
    hide Normalize;
    JoinOne(b);
    assert [a, b][1..] == [b];
  }

  /** A chunk boundary inside a CR LF pair can turn an accepted body into an unframed one. */
  lemma CutPairMatters(read: string -> Reading)
    ensures var whole, cut := [DATA + DONE + "\n\r\n"], [DATA + DONE + "\n\r", "\n"];
            && Join(whole) == Join(cut) && CleanCuts(whole) && !CleanCuts(cut)
            && Whole(Join(Normalized(whole)), read).Captured?
            && Whole(Join(Normalized(cut)), read) == Failed(Unframed)
  {
    hide Join, Normalized, Normalize, CleanCuts, Split, HandleAll;
    var line := DATA + DONE;
    JoinOne(line + "\n\r\n");
    JoinTwo(line + "\n\r", "\n");
    assert line + "\n\r" + "\n" == line + "\n\r\n";
    MarkerNormalized();
    JoinOne(line + "\n\n");
    JoinTwo(line + "\n\r", "\n");
    MarkerFrame(read);
    BrokenPairNotBlank(line);
    SplitUnfold(line + "\n\r\n");
    NoFrames(read);
  }
}
