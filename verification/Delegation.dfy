/** The delegate runtime on values: guarded launches, worker permits and cancellation of stale work. */
module Delegation {
  import opened Prelude

  datatype Effort = Fast | Low | Medium | High | ExtraHigh

  datatype Role = Reasoner | Planner | Reviewer | Frontier

  datatype Artifact = Artifact(id: string, kind: string, uri: string, hash: string)

  datatype Snapshot = Snapshot(taskVersion: int, head: string, tree: string, decisionVersion: int,
      artifacts: seq<Artifact>)

  datatype Staleness = Current | PartiallyStale | Stale

  /** Whether a claim is a fact or an observation, and what it says. */
  datatype Claim = Claim(evidential: bool, statement: string)

  datatype Finding = Finding(
    claims: seq<Claim>, corrective: bool, invalidates: seq<string>, direction: string, actions: seq<string>)

  datatype Outcome = Found(finding: Finding) | Broke(kind: string, message: string) | Cancelled

  /** A worker first waits for a permit, then works, then ends. */
  datatype Task = Waiting | Working | Ended(outcome: Outcome)

  datatype Handle = Handle(
    id: string, role: Role, from: Snapshot, mark: string, depth: int, relevant: bool, cancelling: bool, task: Task)

  /** `mark` stands for the digest of role, semantic key and snapshot. */
  datatype Config = Config(
    effort: Effort, concurrent: int, delegations: int, maxDepth: int,
    roleBudget: Role -> int, threshold: Role -> int, cooldown: real,
    mark: (Role, string, Snapshot) -> string)

  datatype State = State(
    handles: seq<Handle>, counts: map<Role, nat>, recent: map<string, real>, launched: nat, free: int)

  /** A request to delegate, with the two clock readings it may take. */
  datatype Call = Call(
    role: Role, from: Snapshot, key: string, signal: int, depth: int, relevant: bool, checked: real, recorded: real)

  function Classify(from: Snapshot, current: Snapshot): (r: Staleness)
    ensures r == Stale <==> from.head != current.head || from.tree != current.tree
    ensures r == Current <==> from == current
  {
    if from == current then Current
    else if from.head == current.head && from.tree == current.tree then PartiallyStale
    else Stale
  }

  function Permits(cfg: Config): int {
    if cfg.concurrent > 1 then cfg.concurrent else 1
  }

  function Initial(cfg: Config): State {
    State([], map[], map[], 0, Permits(cfg))
  }

  function Count(counts: map<Role, nat>, role: Role): nat {
    if role in counts then counts[role] else 0
  }

  function MarkOf(cfg: Config, c: Call): string {
    cfg.mark(c.role, c.key, c.from)
  }

  predicate Activates(cfg: Config, s: State, role: Role, signal: int) {
    && cfg.effort != Fast
    && signal >= cfg.threshold(role)
    && s.launched < cfg.delegations
    && Count(s.counts, role) < cfg.roleBudget(role)
  }

  predicate Cooled(cfg: Config, s: State, c: Call) {
    MarkOf(cfg, c) in s.recent ==> c.checked - s.recent[MarkOf(cfg, c)] >= cfg.cooldown
  }

  predicate Admits(cfg: Config, s: State, c: Call) {
    && Activates(cfg, s, c.role, c.signal)
    && c.depth <= cfg.maxDepth && (c.role == Frontier ==> c.depth == 1)
    && Cooled(cfg, s, c)
  }

  // ---------------------------------------------------------------- handle names

  function Padded(n: nat): (r: string)
    ensures |r| >= 4 && forall i :: 0 <= i < |r| ==> '0' <= r[i] <= '9'
  {
    Zeros(if |Digits(n)| < 4 then 4 - |Digits(n)| else 0) + Digits(n)
  }

  function Zeros(k: nat): (r: string)
    ensures |r| == k && forall i :: 0 <= i < k ==> r[i] == '0'
  {
    if k == 0 then [] else ['0'] + Zeros(k - 1)
  }

  function Prefix(mark: string): string {
    if |mark| > 12 then mark[..12] else mark
  }

  function Name(n: nat, mark: string): string {
    "delegate_" + (Padded(n) + "_" + Prefix(mark))
  }

  function Value(digits: string): int {
    if digits == [] then 0 else 10 * Value(digits[..|digits| - 1]) + (digits[|digits| - 1] as int - '0' as int)
  }

  lemma {:induction false} DigitsValue(n: nat)
    ensures Value(Digits(n)) == n
  {
    if n >= 10 {
      DigitsValue(n / 10);
      assert Digits(n)[..|Digits(n)| - 1] == Digits(n / 10);
    }
  }

  lemma {:induction false} ZerosValue(k: nat)
    ensures Value(Zeros(k)) == 0
    decreases k
  {
    if k > 0 {
      ZerosValue(k - 1);
      assert Zeros(k)[..k - 1] == Zeros(k - 1);
    }
  }

  lemma {:induction false} LeadingZeros(z: string, d: string)
    requires Value(z) == 0
    ensures Value(z + d) == Value(d)
    decreases |d|
  {
    if d == [] {
      assert z + d == z;
    } else {
      LeadingZeros(z, d[..|d| - 1]);
      assert (z + d)[..|z + d| - 1] == z + d[..|d| - 1];
    }
  }

  lemma PaddedValue(n: nat)
    ensures Value(Padded(n)) == n
  {
    var k := if |Digits(n)| < 4 then 4 - |Digits(n)| else 0;
    ZerosValue(k);
    LeadingZeros(Zeros(k), Digits(n));
    DigitsValue(n);
  }

  lemma {:induction false} BeforeUnderscore(a: string, x: string, b: string, y: string)
    requires '_' !in a && '_' !in b
    requires a + "_" + x == b + "_" + y
    ensures a == b
  {
    var s := a + "_" + x;
    assert s[|a|] == '_' && s[|b|] == '_';
    assert forall i :: 0 <= i < |a| ==> s[i] == a[i];
    assert forall i :: 0 <= i < |b| ==> s[i] == b[i];
    assert s[..|a|] == a && s[..|b|] == b;
  }

  /** Handles with different numbers never share a name, whatever their digests. */
  lemma NameDistinct(n: nat, m: nat, a: string, b: string)
    requires n != m
    ensures Name(n, a) != Name(m, b)
  {
    if Name(n, a) == Name(m, b) {
      assert Name(n, a)[9..] == Padded(n) + "_" + Prefix(a);
      assert Name(m, b)[9..] == Padded(m) + "_" + Prefix(b);
      BeforeUnderscore(Padded(n), Prefix(a), Padded(m), Prefix(b));
      PaddedValue(n);
      PaddedValue(m);
    }
  }

  // ---------------------------------------------------------------- steps

  /** Assignment to a dictionary kept in insertion order: an equal key is overwritten in place. */
  function Put(hs: seq<Handle>, h: Handle): seq<Handle> {
    if hs == [] then [h]
    else if hs[0].id == h.id then [h] + hs[1..]
    else [hs[0]] + Put(hs[1..], h)
  }

  function NewHandle(cfg: Config, s: State, c: Call): Handle {
    Handle(Name(s.launched + 1, MarkOf(cfg, c)), c.role, c.from, MarkOf(cfg, c), c.depth, c.relevant, false, Waiting)
  }

  function Launch(cfg: Config, s: State, c: Call): State {
    State(
      Put(s.handles, NewHandle(cfg, s, c)),
      s.counts[c.role := Count(s.counts, c.role) + 1],
      s.recent[MarkOf(cfg, c) := c.recorded],
      s.launched + 1,
      s.free)
  }

  function Spawned(cfg: Config, s: State, c: Call): State {
    if Admits(cfg, s, c) then Launch(cfg, s, c) else s
  }

  predicate Pending(h: Handle) {
    !h.task.Ended?
  }

  predicate Obsolete(h: Handle, current: Snapshot) {
    Pending(h) && Classify(h.from, current) == Stale
  }

  function Marked(h: Handle, current: Snapshot): Handle {
    if Obsolete(h, current) then h.(cancelling := true) else h
  }

  function MarkedAll(hs: seq<Handle>, current: Snapshot): (r: seq<Handle>)
    ensures |r| == |hs| && forall i :: 0 <= i < |hs| ==> r[i] == Marked(hs[i], current)
  {
    seq(|hs|, i requires 0 <= i < |hs| => Marked(hs[i], current))
  }

  /**
   * What can happen: a call to delegate, a worker that takes a permit, a task that ends (a task
   * that still waits ends only by cancellation), and a cancellation of obsolete work.
   */
  datatype Step =
    | Spawn(call: Call)
    | Begin(at: nat)
    | End(at: nat, outcome: Outcome)
    | CancelObsolete(current: Snapshot)

  predicate Enabled(s: State, step: Step) {
    match step
    case Begin(at) => at < |s.handles| && s.handles[at].task == Waiting && s.free > 0
    case End(at, outcome) =>
      && at < |s.handles|
      && (|| s.handles[at].task == Working
          || (s.handles[at].task == Waiting && s.handles[at].cancelling && outcome == Cancelled))
    case _ => true
  }

  function Apply(cfg: Config, s: State, step: Step): State
    requires Enabled(s, step)
  {
    match step
    case Spawn(call) => Spawned(cfg, s, call)
    case Begin(at) =>
      s.(handles := s.handles[at := s.handles[at].(task := Working)], free := s.free - 1)
    case End(at, outcome) =>
      s.(handles := s.handles[at := s.handles[at].(task := Ended(outcome))],
         free := if s.handles[at].task == Working then s.free + 1 else s.free)
    case CancelObsolete(current) => s.(handles := MarkedAll(s.handles, current))
  }

  // ---------------------------------------------------------------- the invariant

  function Tally(hs: seq<Handle>, p: Handle -> bool): (n: nat)
    ensures n <= |hs|
  {
    if hs == [] then 0 else (if p(hs[0]) then 1 else 0) + Tally(hs[1..], p)
  }

  lemma {:induction false} TallyAppend(hs: seq<Handle>, h: Handle, p: Handle -> bool)
    ensures Tally(hs + [h], p) == Tally(hs, p) + if p(h) then 1 else 0
  {
    if hs != [] {
      assert (hs + [h])[1..] == hs[1..] + [h];
      TallyAppend(hs[1..], h, p);
    }
  }

  lemma {:induction false} TallyUpdate(hs: seq<Handle>, at: nat, h: Handle, p: Handle -> bool)
    requires at < |hs|
    ensures Tally(hs[at := h], p) == Tally(hs, p) + (if p(h) then 1 else 0) - (if p(hs[at]) then 1 else 0)
  {
    if at > 0 {
      assert hs[at := h][1..] == hs[1..][at - 1 := h];
      TallyUpdate(hs[1..], at - 1, h, p);
    } else {
      assert hs[0 := h][1..] == hs[1..];
    }
  }

  lemma {:induction false} TallySame(hs: seq<Handle>, gs: seq<Handle>, p: Handle -> bool)
    requires |hs| == |gs| && forall i :: 0 <= i < |hs| ==> p(hs[i]) == p(gs[i])
    ensures Tally(hs, p) == Tally(gs, p)
  {
    if hs != [] {
      TallySame(hs[1..], gs[1..], p);
    }
  }

  function HasRole(role: Role): Handle -> bool {
    (h: Handle) => h.role == role
  }

  function IsWorking(): Handle -> bool {
    (h: Handle) => h.task == Working
  }

  /** The handle in position `i` was the launch number `i + 1`, made under the guards. */
  ghost predicate Sound(cfg: Config, h: Handle, i: nat) {
    && h.id == Name(i + 1, h.mark)
    && h.depth <= cfg.maxDepth
    && (h.role == Frontier ==> h.depth == 1)
  }

  ghost predicate Named(cfg: Config, s: State) {
    && |s.handles| == s.launched
    && (forall i :: 0 <= i < |s.handles| ==> Sound(cfg, s.handles[i], i))
  }

  ghost predicate Counted(cfg: Config, s: State) {
    && (s.launched > 0 ==> cfg.effort != Fast && s.launched <= cfg.delegations)
    && forall role ::
      && Count(s.counts, role) == Tally(s.handles, HasRole(role))
      && (Count(s.counts, role) > 0 ==> Count(s.counts, role) <= cfg.roleBudget(role))
  }

  ghost predicate Permitted(cfg: Config, s: State) {
    s.free >= 0 && s.free + Tally(s.handles, IsWorking()) == Permits(cfg)
  }

  ghost predicate Inv(cfg: Config, s: State) {
    Named(cfg, s) && Counted(cfg, s) && Permitted(cfg, s)
  }

  lemma {:induction false} PutFresh(hs: seq<Handle>, h: Handle)
    requires forall i :: 0 <= i < |hs| ==> hs[i].id != h.id
    ensures Put(hs, h) == hs + [h]
  {
    if hs != [] {
      PutFresh(hs[1..], h);
    }
  }

  /** A launch never overwrites an earlier handle. */
  lemma LaunchAppends(cfg: Config, s: State, c: Call)
    requires Named(cfg, s)
    ensures Launch(cfg, s, c).handles == s.handles + [NewHandle(cfg, s, c)]
  {
    hide Name;
    var h := NewHandle(cfg, s, c);
    forall i | 0 <= i < |s.handles|
      ensures s.handles[i].id != h.id
    {
      assert Sound(cfg, s.handles[i], i);
      NameDistinct(i + 1, s.launched + 1, s.handles[i].mark, h.mark);
    }
    PutFresh(s.handles, h);
  }

  lemma LaunchKeeps(cfg: Config, s: State, c: Call)
    requires Inv(cfg, s) && Admits(cfg, s, c)
    ensures Inv(cfg, Launch(cfg, s, c))
  {
    hide Put, Name, Tally;
    var t, h := Launch(cfg, s, c), NewHandle(cfg, s, c);
    LaunchAppends(cfg, s, c);
    assert Named(cfg, t);
    TallyAppend(s.handles, h, IsWorking());
    forall role
      ensures Count(t.counts, role) == Tally(t.handles, HasRole(role))
      ensures Count(t.counts, role) > 0 ==> Count(t.counts, role) <= cfg.roleBudget(role)
    {
      TallyAppend(s.handles, h, HasRole(role));
      assert Count(s.counts, role) == Tally(s.handles, HasRole(role));
    }
  }

  /** A step that only moves tasks keeps names and counts. */
  lemma SameHandles(cfg: Config, s: State, t: State)
    requires Named(cfg, s) && Counted(cfg, s)
    requires t.counts == s.counts && t.launched == s.launched && |t.handles| == |s.handles|
    requires forall i :: 0 <= i < |s.handles| ==>
               t.handles[i] == s.handles[i].(task := t.handles[i].task, cancelling := t.handles[i].cancelling)
    ensures Named(cfg, t) && Counted(cfg, t)
  {
    hide Name, Tally;
    forall i | 0 <= i < |t.handles|
      ensures Sound(cfg, t.handles[i], i)
    {
      assert Sound(cfg, s.handles[i], i);
    }
    forall role
      ensures Tally(t.handles, HasRole(role)) == Tally(s.handles, HasRole(role))
    {
      TallySame(s.handles, t.handles, HasRole(role));
    }
  }

  /** Budgets, handle names and worker permits are right after every step. */
  lemma StepKeeps(cfg: Config, s: State, step: Step)
    requires Inv(cfg, s) && Enabled(s, step)
    ensures Inv(cfg, Apply(cfg, s, step))
  {
    hide Named, Counted, Launch, Admits, Tally;
    var t := Apply(cfg, s, step);
    match step
    case Spawn(call) =>
      if Admits(cfg, s, call) {
        LaunchKeeps(cfg, s, call);
      }
    case Begin(at) =>
      SameHandles(cfg, s, t);
      TallyUpdate(s.handles, at, t.handles[at], IsWorking());
    case End(at, outcome) =>
      SameHandles(cfg, s, t);
      TallyUpdate(s.handles, at, t.handles[at], IsWorking());
    case CancelObsolete(current) =>
      SameHandles(cfg, s, t);
      TallySame(s.handles, t.handles, IsWorking());
  }
}
