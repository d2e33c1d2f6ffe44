/**
 * Incremental framing of a server-sent event stream (a subset of section 9.2 of the WHATWG HTML
 * standard): chunks are normalised one by one, appended to a buffer, and cut at blank lines.
 */
module SseFraming {

  /** Where the first blank line starts, or -1. */
  function Find(b: string): (i: int)
    ensures -1 <= i < |b| - 1 || i == -1
    ensures i >= 0 ==> b[i] == '\n' && b[i + 1] == '\n'
  {
    if |b| < 2 then -1
    else if b[0] == '\n' && b[1] == '\n' then 0
    else
      var i := Find(b[1..]);
      if i == -1 then -1 else i + 1
  }

  lemma {:induction false} FindFirst(b: string, i: nat)
    requires i + 1 < |b| && b[i] == '\n' && b[i + 1] == '\n'
    ensures 0 <= Find(b) <= i
  {
    if i > 0 {
      FindFirst(b[1..], i - 1);
    }
  }

  /** All complete frames of a buffer, and what remains after the last blank line. */
  function Split(b: string): (r: (seq<string>, string))
    ensures |r.1| <= |b| && Find(r.1) == -1
    decreases |b|
  {
    var i := Find(b);
    if i == -1 then ([], b)
    else
      var (frames, rest) := Split(b[i + 2..]);
      ([b[..i]] + frames, rest)
  }

  lemma {:induction false} FindAppend(b: string, c: string)
    requires Find(b) >= 0
    ensures Find(b + c) == Find(b)
  {
    if !(b[0] == '\n' && b[1] == '\n') {
      assert (b + c)[1..] == b[1..] + c;
      FindAppend(b[1..], c);
    }
  }

  lemma SplitUnfold(b: string)
    ensures var i := Find(b);
            Split(b) == if i == -1 then ([], b) else ([b[..i]] + Split(b[i + 2..]).0, Split(b[i + 2..]).1)
  {
  }

  /** Cutting early never changes the frames: a later chunk only continues the remainder. */
  lemma {:induction false} SplitAppend(b: string, c: string)
    ensures Split(b + c) == (Split(b).0 + Split(Split(b).1 + c).0, Split(Split(b).1 + c).1)
    decreases |b|
  {
    hide Split, Find;
    var i := Find(b);
    SplitUnfold(b);
    if i == -1 {
      assert [] + Split(b + c).0 == Split(b + c).0;
    } else {
      FindAppend(b, c);
      SplitUnfold(b + c);
      assert (b + c)[i + 2..] == b[i + 2..] + c;
      assert (b + c)[..i] == b[..i];
      SplitAppend(b[i + 2..], c);
      assert ([b[..i]] + Split(b[i + 2..]).0) + Split(Split(b).1 + c).0
          == [b[..i]] + (Split(b[i + 2..]).0 + Split(Split(b).1 + c).0);
    }
  }

  const BLANK: string := "\n\n"

  function Rebuild(frames: seq<string>, rest: string): string {
    if frames == [] then rest else frames[0] + BLANK + Rebuild(frames[1..], rest)
  }

  /** No blank line inside, nor one that the closing blank line would make start earlier. */
  predicate Tight(frame: string) {
    Find(frame + ['\n']) == -1
  }

  lemma {:induction false} TightFind(frame: string, more: string)
    requires Tight(frame)
    ensures Find(frame + BLANK + more) == |frame|
  {
    var b := frame + BLANK + more;
    FindFirst(b, |frame|);
    var i := Find(b);
    if i < |frame| {
      assert (frame + ['\n'])[i] == b[i] && (frame + ['\n'])[i + 1] == b[i + 1];
      FindFirst(frame + ['\n'], i);
    }
  }

  lemma {:induction false} CutTight(b: string)
    requires Find(b) >= 0
    ensures Tight(b[..Find(b)])
    ensures b == b[..Find(b)] + BLANK + b[Find(b) + 2..]
  {
    var i := Find(b);
    var j := Find(b[..i] + ['\n']);
    if j >= 0 {
      assert b[j] == '\n' && b[j + 1] == '\n';
      FindFirst(b, j);
    }
  }

  /** The split is the one way to write a text as frames closed by their first blank line. */
  lemma {:induction false} SplitExact(b: string, frames: seq<string>, rest: string)
    ensures Split(b) == (frames, rest) <==>
            b == Rebuild(frames, rest) && Find(rest) == -1 && forall i :: 0 <= i < |frames| ==> Tight(frames[i])
    decreases |b|, |frames|
  {
    SplitRebuilds(b);
    if b == Rebuild(frames, rest) && Find(rest) == -1 && forall i :: 0 <= i < |frames| ==> Tight(frames[i]) {
      RebuildSplits(frames, rest);
    }
  }

  lemma {:induction false} SplitRebuilds(b: string)
    ensures b == Rebuild(Split(b).0, Split(b).1)
    ensures forall i :: 0 <= i < |Split(b).0| ==> Tight(Split(b).0[i])
    decreases |b|
  {
    hide Split, Find, Tight;
    SplitUnfold(b);
    if Find(b) >= 0 {
      CutTight(b);
      SplitRebuilds(b[Find(b) + 2..]);
      assert Split(b).0[1..] == Split(b[Find(b) + 2..]).0;
    }
  }

  lemma {:induction false} RebuildSplits(frames: seq<string>, rest: string)
    requires Find(rest) == -1 && forall i :: 0 <= i < |frames| ==> Tight(frames[i])
    ensures Split(Rebuild(frames, rest)) == (frames, rest)
  {
    hide Split, Find, Tight;
    var b := Rebuild(frames, rest);
    SplitUnfold(b);
    if frames != [] {
      var more := Rebuild(frames[1..], rest);
      TightFind(frames[0], more);
      assert b[..|frames[0]|] == frames[0] && b[|frames[0]| + 2..] == more;
      RebuildSplits(frames[1..], rest);
      assert [frames[0]] + frames[1..] == frames;
    }
  }

  // ---------------------------------------------------------------- line ends

  /** Every CR LF pair becomes a LF. */
  function Normalize(b: string): (r: string)
    ensures |r| <= |b|
  {
    if b == [] then []
    else if |b| >= 2 && b[0] == '\r' && b[1] == '\n' then ['\n'] + Normalize(b[2..])
    else [b[0]] + Normalize(b[1..])
  }

  lemma NormalizeRules(b: string)
    ensures b == [] ==> Normalize(b) == []
    ensures |b| >= 2 && b[0] == '\r' && b[1] == '\n' ==> Normalize(b) == ['\n'] + Normalize(b[2..])
    ensures |b| >= 1 && (|b| == 1 || b[0] != '\r' || b[1] != '\n') ==> Normalize(b) == [b[0]] + Normalize(b[1..])
  {
  }

  predicate CutsPair(a: string, b: string) {
    a != [] && b != [] && a[|a| - 1] == '\r' && b[0] == '\n'
  }

  lemma {:induction false} NormalizeAppend(a: string, b: string)
    requires !CutsPair(a, b)
    ensures Normalize(a + b) == Normalize(a) + Normalize(b)
    decreases |a|
  {
    if a == [] {
      assert a + b == b;
    } else if |a| >= 2 && a[0] == '\r' && a[1] == '\n' {
      assert (a + b)[2..] == a[2..] + b;
      NormalizeAppend(a[2..], b);
    } else {
      assert (a + b)[1..] == a[1..] + b;
      NormalizeAppend(a[1..], b);
    }
  }

  /** A CR at the end of one chunk survives when its LF starts the next. */
  lemma {:induction false} NormalizeCut(a: string, b: string)
    requires CutsPair(a, b)
    ensures |Normalize(a + b)| == |Normalize(a)| + |Normalize(b)| - 1
    decreases |a|
  {
    if |a| == 1 {
      assert (a + b)[2..] == b[1..];
      assert |Normalize(a)| == 1;
      assert |Normalize(b)| == 1 + |Normalize(b[1..])|;
    } else if a[0] == '\r' && a[1] == '\n' {
      assert (a + b)[2..] == a[2..] + b;
      NormalizeCut(a[2..], b);
    } else {
      assert (a + b)[1..] == a[1..] + b;
      NormalizeCut(a[1..], b);
    }
  }

  lemma {:induction false} NoCarriageReturn(b: string)
    requires '\r' !in b
    ensures Normalize(b) == b
  {
    if b != [] {
      NoCarriageReturn(b[1..]);
    }
  }

  function Join(chunks: seq<string>): string {
    if chunks == [] then [] else chunks[0] + Join(chunks[1..])
  }

  function Normalized(chunks: seq<string>): (r: seq<string>)
    ensures |r| == |chunks|
  {
    if chunks == [] then [] else [Normalize(chunks[0])] + Normalized(chunks[1..])
  }

  /** No chunk boundary falls between the two characters of a CR LF pair. */
  predicate CleanCuts(chunks: seq<string>) {
    chunks == [] || (!CutsPair(chunks[0], Join(chunks[1..])) && CleanCuts(chunks[1..]))
  }

  /**
   * Normalising chunk by chunk is the same as normalising the whole body if and only if no
   * boundary cuts a CR LF pair; otherwise the parser sees a longer text.
   */
  lemma {:induction false} NormalizeChunks(chunks: seq<string>)
    ensures Join(Normalized(chunks)) == Normalize(Join(chunks)) <==> CleanCuts(chunks)
    ensures |Join(Normalized(chunks))| >= |Normalize(Join(chunks))|
    ensures !CleanCuts(chunks) ==> |Join(Normalized(chunks))| > |Normalize(Join(chunks))|
  {
    if chunks != [] {
      NormalizeChunks(chunks[1..]);
      if CutsPair(chunks[0], Join(chunks[1..])) {
        NormalizeCut(chunks[0], Join(chunks[1..]));
      } else {
        NormalizeAppend(chunks[0], Join(chunks[1..]));
      }
      assert Normalized(chunks)[1..] == Normalized(chunks[1..]);
    }
  }

  lemma {:induction false} CleanWithoutReturns(chunks: seq<string>)
    requires forall i :: 0 <= i < |chunks| ==> '\r' !in chunks[i]
    ensures CleanCuts(chunks)
  {
    if chunks != [] {
      CleanWithoutReturns(chunks[1..]);
    }
  }
}
