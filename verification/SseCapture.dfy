/** The capture loop: frames become numbered events and accumulated tool calls. */
module SseCapture {
  import opened Prelude
  import opened SseFraming

  datatype Kind = Started | FinalChoice | ToolCallDelta | ContentDelta | PlainChunk | Done | Eof

  datatype Event = Event(number: nat, kind: Kind, finish: string)

  /** One piece of a streamed tool call; an absent piece is the empty string. */
  datatype Fragment = Fragment(index: int, id: string, name: string, arguments: string)

  datatype Call = Call(index: int, id: string, name: string, arguments: string)

  /** What decoding and parsing a payload other than the end marker gives. */
  datatype Reading =
    | Undecodable
    | Unparsable
    | Chunk(finish: string, fragments: seq<Fragment>, hasContent: bool)

  datatype Error = BadEncoding | BadJson | DuplicateDone | PayloadAfterDone | Unframed | NotDone

  datatype State = State(done: bool, events: seq<Event>, calls: seq<Call>)

  datatype Outcome = Running(state: State) | Raised(error: Error)

  datatype Capture = Captured(events: seq<Event>, calls: seq<Call>) | Failed(error: Error)

  const DATA: string := "data: "
  const DONE: string := "[DONE]"

  predicate IsData(frame: string) {
    |frame| >= 6 && frame[..6] == DATA
  }

  function KindOf(c: Reading): Kind
    requires c.Chunk?
  {
    if c.finish != [] then FinalChoice
    else if c.fragments != [] then ToolCallDelta
    else if c.hasContent then ContentDelta
    else PlainChunk
  }

  function Extended(c: Call, f: Fragment): (r: Call)
    ensures r.index == c.index
  {
    Call(c.index, c.id + f.id, c.name + f.name, c.arguments + f.arguments)
  }

  /** Pieces with the same index are appended; a new index starts a new call at the end. */
  function Add(calls: seq<Call>, f: Fragment): seq<Call> {
    if calls == [] then [Call(f.index, f.id, f.name, f.arguments)]
    else if calls[0].index == f.index then
      [Extended(calls[0], f)] + calls[1..]
    else [calls[0]] + Add(calls[1..], f)
  }

  function AddAll(calls: seq<Call>, fs: seq<Fragment>): seq<Call>
    decreases |fs|
  {
    if fs == [] then calls else AddAll(Add(calls, fs[0]), fs[1..])
  }

  function Note(s: State, c: Reading): State
    requires c.Chunk?
  {
    s.(calls := AddAll(s.calls, c.fragments), events := s.events + [Event(|s.events| + 1, KindOf(c), c.finish)])
  }

  function Finish(s: State): State {
    s.(done := true, events := s.events + [Event(|s.events| + 1, Done, "")])
  }

  function Handle(s: State, frame: string, read: string -> Reading): Outcome {
    if !IsData(frame) then Running(s)
    else if frame[6..] == DONE then
      if s.done then Raised(DuplicateDone) else Running(Finish(s))
    else if read(frame[6..]).Undecodable? then Raised(BadEncoding)
    else if s.done then Raised(PayloadAfterDone)
    else if read(frame[6..]).Unparsable? then Raised(BadJson)
    else Running(Note(s, read(frame[6..])))
  }

  function HandleAll(s: State, frames: seq<string>, read: string -> Reading): Outcome
    decreases |frames|
  {
    if frames == [] then Running(s)
    else
      match Handle(s, frames[0], read)
      case Running(t) => HandleAll(t, frames[1..], read)
      case Raised(e) => Raised(e)
  }

  lemma {:induction false} HandleAppend(s: State, a: seq<string>, b: seq<string>, read: string -> Reading)
    ensures HandleAll(s, a + b, read) ==
            match HandleAll(s, a, read)
            case Running(t) => HandleAll(t, b, read)
            case Raised(e) => Raised(e)
    decreases |a|
  {
    hide Handle;
    if a == [] {
      assert a + b == b;
    } else {
      assert (a + b)[1..] == a[1..] + b;
      if Handle(s, a[0], read).Running? {
        HandleAppend(Handle(s, a[0], read).state, a[1..], b, read);
      }
    }
  }

  const START: State := State(false, [Event(1, Started, "")], [])

  function Close(out: Outcome, rest: string): Capture {
    match out
    case Raised(e) => Failed(e)
    case Running(s) =>
      if rest != [] then Failed(Unframed)
      else if !s.done then Failed(NotDone)
      else Captured(s.events + [Event(|s.events| + 1, Eof, "")], s.calls)
  }

  /** The capture of a body that arrives as one piece of already normalised text. */
  function Whole(text: string, read: string -> Reading): Capture {
    Close(HandleAll(START, Split(text).0, read), Split(text).1)
  }

  // ---------------------------------------------------------------- the loops

  /** The inner loop: every complete frame of the buffer is handled, up to the first error. */
  method HandleBuffer(s: State, buffer: string, read: string -> Reading) returns (out: Outcome, rest: string)
    ensures out == HandleAll(s, Split(buffer).0, read)
    ensures out.Running? ==> rest == Split(buffer).1
  {
    hide Split, Find, Handle;
    rest := buffer;
    out := Running(s);
    SplitUnfold(rest);
    while Find(rest) >= 0
      invariant out.Running? && Split(buffer).1 == Split(rest).1
      invariant HandleAll(s, Split(buffer).0, read) == HandleAll(out.state, Split(rest).0, read)
      decreases |rest|
    {
      SplitUnfold(rest);
      var frame := rest[..Find(rest)];
      rest := rest[Find(rest) + 2..];
      assert ([frame] + Split(rest).0)[1..] == Split(rest).0;
      out := Handle(out.state, frame, read);
      if out.Raised? {
        return;
      }
    }
    SplitUnfold(rest);
  }

  lemma {:induction false} JoinSnoc(chunks: seq<string>, i: nat)
    requires i < |chunks|
    ensures Join(Normalized(chunks[..i + 1])) == Join(Normalized(chunks[..i])) + Normalize(chunks[i])
    decreases i
  {
    hide Normalize;
    assert Normalized(chunks[..i + 1])[1..] == Normalized(chunks[..i + 1][1..]);
    assert chunks[..i + 1][1..] == chunks[1..][..i];
    if i > 0 {
      assert Normalized(chunks[..i])[1..] == Normalized(chunks[..i][1..]);
      assert chunks[..i][1..] == chunks[1..][..i - 1];
      JoinSnoc(chunks[1..], i - 1);
    }
  }

  lemma {:induction false} JoinSplit(chunks: seq<string>, i: nat)
    requires i <= |chunks|
    ensures Join(Normalized(chunks)) == Join(Normalized(chunks[..i])) + Join(Normalized(chunks[i..]))
    decreases |chunks| - i
  {
    hide Normalize;
    if i == |chunks| {
      assert chunks[..i] == chunks;
    } else {
      JoinSplit(chunks, i + 1);
      JoinSnoc(chunks, i);
      assert chunks[i..][1..] == chunks[i + 1..];
      assert Normalized(chunks[i..])[1..] == Normalized(chunks[i + 1..]);
    }
  }

  /** The frames of a longer text are handled after those of its beginning. */
  lemma HandleMore(a: string, b: string, read: string -> Reading)
    ensures HandleAll(START, Split(a + b).0, read) ==
            match HandleAll(START, Split(a).0, read)
            case Running(t) => HandleAll(t, Split(Split(a).1 + b).0, read)
            case Raised(e) => Raised(e)
  {
    hide Split, HandleAll;
    SplitAppend(a, b);
    HandleAppend(START, Split(a).0, Split(Split(a).1 + b).0, read);
  }

  lemma NoFrames(read: string -> Reading)
    ensures HandleAll(START, [], read) == Running(START)
  {
  }

  /**
   * The loop over chunks computes the capture of the concatenated text; when no chunk boundary
   * cuts a CR LF pair, that is the capture of the whole normalised body.
   */
  method Run(chunks: seq<string>, read: string -> Reading) returns (r: Capture)
    ensures r == Whole(Join(Normalized(chunks)), read)
    ensures CleanCuts(chunks) ==> r == Whole(Normalize(Join(chunks)), read)
  {
    hide Split, HandleAll, Normalize, CleanCuts;
    NormalizeChunks(chunks);
    var out := Running(START);
    var buffer := "";
    assert Split("") == ([], "") by { SplitUnfold(""); }
    assert HandleAll(START, [], read) == Running(START) by { NoFrames(read); }
    for i := 0 to |chunks|
      invariant out.Running?
      invariant out == HandleAll(START, Split(Join(Normalized(chunks[..i]))).0, read)
      invariant buffer == Split(Join(Normalized(chunks[..i]))).1
    {
      ghost var before := Join(Normalized(chunks[..i]));
      JoinSnoc(chunks, i);
      HandleMore(before, Normalize(chunks[i]), read);
      SplitAppend(before, Normalize(chunks[i]));
      out, buffer := HandleBuffer(out.state, buffer + Normalize(chunks[i]), read);
      if out.Raised? {
        JoinSplit(chunks, i + 1);
        HandleMore(Join(Normalized(chunks[..i + 1])), Join(Normalized(chunks[i + 1..])), read);
        return Failed(out.error);
      }
    }
    assert chunks[..|chunks|] == chunks;
    r := Close(out, buffer);
  }
}
