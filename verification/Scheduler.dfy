/**
 * The admission scheduler's locked state and the three locked regions that change it
 * (admission, release with promotion, the operator gate), as functions on values.
 * The class in SchedulerObject.dfy is proved to compute exactly these functions.
 */
module Scheduler {
  import opened Prelude

  type Key = string
  type RequestId = string

  datatype Risk = Low | Medium | High | Critical
  datatype Selection = LocalPrimary | RemoteOverflow
  datatype LeaseState = Acquired | Queued | Overflow
  datatype Reason =
    | LocalUnavailable | LocalIdle | CrossKeyOverflow | SameKeyOverflow
    | HighRiskLocalOnly | LocalBusyQueue | RoundRobinPromoted

  datatype Admission = Admission(
    requestId: RequestId, apiKeyId: Key, selected: Selection, leaseOwner: Option<Key>,
    acquiredAt: Option<string>, leaseState: LeaseState, queuePosition: nat, epoch: nat,
    reason: Reason)

  /** A queued request; `ticket` is its sequence number and names its future. */
  datatype Ticketed<R, K> = Ticketed(requestId: R, apiKeyId: K, ticket: nat)

  type Entry = Ticketed<RequestId, Key>

  datatype Error =
    | InvalidKey | InvalidRequest | BelongsToAnotherKey | AlreadyQueued
    | LocalIsUnavailable | HighRiskQueueFull | LocalQueueFull

  datatype Outcome =
    | Admitted(admission: Admission)
    | Waiting(queued: Admission, entry: Entry)
    | Refused(error: Error)

  datatype Limits = Limits(capacity: nat, perKey: nat, total: nat)

  type Queues = map<Key, seq<Entry>>

  /** `owners` lists the values of the source's insertion-ordered dictionary. */
  datatype State = State(
    limits: Limits, owners: seq<Admission>, queues: Queues, rotation: seq<Key>,
    pins: map<RequestId, Admission>, tickets: nat, epoch: nat, localEnabled: bool)

  // ---------------------------------------------------------------- validation

  predicate KeyChar(c: char, first: bool) {
    'a' <= c <= 'z' || (!first && ('0' <= c <= '9' || c == '_' || c == '-'))
  }

  predicate ValidKey(k: Key) {
    1 <= |k| <= 32 && KeyChar(k[0], true) && forall i :: 1 <= i < |k| ==> KeyChar(k[i], false)
  }

  predicate ValidRequest(r: RequestId) {
    1 <= |r| <= 256
  }

  // ---------------------------------------------------------------- queues

  ghost predicate Waits(q: Queues, e: Entry) {
    e.apiKeyId in q && e in q[e.apiKeyId]
  }

  ghost predicate HasEntry(q: Queues, k: Key, r: RequestId) {
    k in q && exists i :: 0 <= i < |q[k]| && q[k][i].requestId == r
  }

  /** The number of queued requests over all keys. */
  ghost function Total(q: Queues): nat
    decreases |q|
  {
    if q == map[] then 0
    else
      var k :| k in q;
      assert |q - {k}| < |q| by { assert (q - {k}).Keys == q.Keys - {k}; }
      |q[k]| + Total(q - {k})
  }

  lemma {:induction false} TotalWithout(q: Queues, k: Key)
    requires k in q
    ensures Total(q) == |q[k]| + Total(q - {k})
    decreases |q|
  {
    var c :| c in q && Total(q) == |q[c]| + Total(q - {c});
    if c != k {
      var rest := q - {c};
      assert rest.Keys == q.Keys - {c};
      TotalWithout(rest, k);
      var both := q - {k};
      assert both.Keys == q.Keys - {k};
      TotalWithout(both, c);
      assert rest - {k} == both - {c};
    }
  }

  lemma TotalUpdate(q: Queues, k: Key, xs: seq<Entry>)
    ensures Total(q[k := xs]) == Total(q) + |xs| - (if k in q then |q[k]| else 0)
  {
    TotalWithout(q[k := xs], k);
    assert q[k := xs] - {k} == q - {k};
    if k in q {
      TotalWithout(q, k);
    } else {
      assert q - {k} == q;
    }
  }

  lemma {:induction false} TotalCoversKeys(q: Queues)
    requires forall k :: k in q ==> q[k] != []
    ensures |q| <= Total(q)
    decreases |q|
  {
    if q != map[] {
      var k :| k in q;
      TotalWithout(q, k);
      assert (q - {k}).Keys == q.Keys - {k};
      TotalCoversKeys(q - {k});
    }
  }

  function WithoutRequest(xs: seq<Entry>, r: RequestId): seq<Entry> {
    if xs == [] then []
    else if xs[0].requestId == r then WithoutRequest(xs[1..], r)
    else [xs[0]] + WithoutRequest(xs[1..], r)
  }

  lemma {:induction false} WithoutRequestAbsent(xs: seq<Entry>, r: RequestId)
    requires forall i :: 0 <= i < |xs| ==> xs[i].requestId != r
    ensures WithoutRequest(xs, r) == xs
  {
    if xs != [] {
      WithoutRequestAbsent(xs[1..], r);
    }
  }

  lemma {:induction false} WithoutRequestAt(xs: seq<Entry>, r: RequestId, i: nat)
    requires i < |xs| && xs[i].requestId == r
    requires forall j :: 0 <= j < |xs| && j != i ==> xs[j].requestId != r
    ensures WithoutRequest(xs, r) == xs[..i] + xs[i + 1..]
  {
    if i == 0 {
      WithoutRequestAbsent(xs[1..], r);
    } else {
      WithoutRequestAt(xs[1..], r, i - 1);
      assert xs[..i] + xs[i + 1..] == [xs[0]] + (xs[1..][..i - 1] + xs[1..][i..]);
    }
  }

  ghost function WaitingSet(q: Queues): set<Entry> {
    set k, e | k in q && e in q[k] && e.apiKeyId == k :: e
  }

  /** 1 + the number of requests that were queued before `e` and still wait, over all keys. */
  ghost function Rank(q: Queues, e: Entry): nat {
    |set x | x in WaitingSet(q) && x.ticket <= e.ticket|
  }

  /** The queue position shown for a request: 0 when it does not wait. */
  ghost function Position(q: Queues, r: RequestId): nat {
    if exists e :: Waits(q, e) && e.requestId == r
    then var e :| Waits(q, e) && e.requestId == r; Rank(q, e)
    else 0
  }

  // ---------------------------------------------------------------- steps

  function FirstOwner(owners: seq<Admission>): Option<Key> {
    if owners == [] then None else Some(owners[0].apiKeyId)
  }

  function IsHighRisk(risk: Risk): bool {
    risk == High || risk == Critical
  }

  /** A queued pin is shown with live owner, position and epoch; any other pin as stored. */
  ghost function CurrentPin(s: State, r: RequestId): Option<Admission> {
    if r !in s.pins then None
    else if s.pins[r].leaseState != Queued then Some(s.pins[r])
    else Some(s.pins[r].(leaseOwner := FirstOwner(s.owners), queuePosition := Position(s.queues, r),
                         epoch := s.epoch))
  }

  function Pin(s: State, a: Admission): State {
    s.(pins := s.pins[a.requestId := a])
  }

  function Occupy(s: State, a: Admission): State {
    s.(owners := s.owners + [a], pins := s.pins[a.requestId := a], epoch := a.epoch)
  }

  function QueueOf(q: Queues, k: Key): seq<Entry> {
    if k in q then q[k] else []
  }

  function Enqueue(s: State, e: Entry): State {
    s.(tickets := e.ticket,
       queues := s.queues[e.apiKeyId := QueueOf(s.queues, e.apiKeyId) + [e]],
       rotation := if e.apiKeyId in s.queues then s.rotation else s.rotation + [e.apiKeyId])
  }

  function OverflowPin(s: State, k: Key, r: RequestId, now: string, why: Reason): Admission {
    Admission(r, k, RemoteOverflow, FirstOwner(s.owners), Some(now), Overflow, 0, s.epoch, why)
  }

  predicate OwnsSlot(owners: seq<Admission>, k: Key) {
    exists i :: 0 <= i < |owners| && owners[i].apiKeyId == k
  }

  datatype Ask = Ask(key: Key, request: RequestId, risk: Risk, flash: bool, local: bool, now: string)

  /** One admission attempt. */
  ghost function Admit(s: State, a: Ask): (State, Outcome) {
    if !ValidKey(a.key) then (s, Refused(InvalidKey))
    else if !ValidRequest(a.request) then (s, Refused(InvalidRequest))
    else if a.request in s.pins then (s, Rejoin(s, a))
    else if !(a.local && s.localEnabled) then
      if !a.flash then (s, Refused(LocalIsUnavailable))
      else
        var pin := OverflowPin(s, a.key, a.request, a.now, LocalUnavailable);
        (Pin(s, pin), Admitted(pin))
    else if |s.owners| < s.limits.capacity && s.queues == map[] then
      var pin := Admission(a.request, a.key, LocalPrimary, Some(a.key), Some(a.now), Acquired, 0,
                           s.epoch + 1, LocalIdle);
      (Occupy(s, pin), Admitted(pin))
    else if !IsHighRisk(a.risk) && a.flash && Total(s.queues) >= s.limits.total then
      var pin := OverflowPin(s, a.key, a.request, a.now,
                             if OwnsSlot(s.owners, a.key) then SameKeyOverflow else CrossKeyOverflow);
      (Pin(s, pin), Admitted(pin))
    else if |QueueOf(s.queues, a.key)| >= s.limits.perKey || Total(s.queues) >= s.limits.total then
      (s, Refused(if IsHighRisk(a.risk) then HighRiskQueueFull else LocalQueueFull))
    else
      var e := Ticketed(a.request, a.key, s.tickets + 1);
      var t := Enqueue(s, e);
      var pin := Admission(a.request, a.key, LocalPrimary, FirstOwner(s.owners), None, Queued,
                           Position(t.queues, a.request), s.epoch,
                           if IsHighRisk(a.risk) then HighRiskLocalOnly else LocalBusyQueue);
      (Pin(t, pin), Waiting(pin, e))
  }

  /** A request that is already pinned keeps its pin; it may not change key or wait twice. */
  ghost function Rejoin(s: State, a: Ask): Outcome
    requires a.request in s.pins
  {
    var pin := s.pins[a.request];
    if pin.apiKeyId != a.key then Refused(BelongsToAnotherKey)
    else if pin.leaseState == Queued then Refused(AlreadyQueued)
    else Admitted(pin)
  }

  /** The key that just released does not go first when another key waits. */
  function Turn(rotation: seq<Key>, last: Key): (r: seq<Key>)
    ensures |r| == |rotation|
  {
    if |rotation| > 1 && rotation[0] == last then rotation[1..] + [rotation[0]] else rotation
  }

  datatype Grant = Grant(entry: Entry, admission: Admission)

  predicate CanPromote(s: State) {
    forall k :: k in s.rotation ==> k in s.queues && s.queues[k] != []
  }

  function Promoted(e: Entry, epoch: nat, now: string): Admission {
    Admission(e.requestId, e.apiKeyId, LocalPrimary, Some(e.apiKeyId), Some(now), Acquired, 0, epoch,
              RoundRobinPromoted)
  }

  function DropHead(s: State, order: seq<Key>): State
    requires order != [] && order[0] in s.queues && s.queues[order[0]] != []
  {
    var k := order[0];
    var rest := s.queues[k][1..];
    s.(queues := if rest == [] then s.queues - {k} else s.queues[k := rest],
       rotation := if rest == [] then order[1..] else order[1..] + [k])
  }

  function Promote(s: State, last: Key, now: string): (State, Option<Grant>)
    requires CanPromote(s)
  {
    if s.rotation == [] then (s, None)
    else
      var order := Turn(s.rotation, last);
      assert order[0] in s.rotation;
      var e := s.queues[order[0]][0];
      var pin := Promoted(e.(apiKeyId := order[0]), s.epoch + 1, now);
      (Occupy(DropHead(s, order), pin), Some(Grant(e, pin)))
  }

  function Unpin(s: State, r: RequestId): State {
    s.(pins := s.pins - {r})
  }

  function Withdraw(s: State, k: Key, r: RequestId): State {
    if k !in s.queues then s
    else
      var rest := WithoutRequest(s.queues[k], r);
      if rest == [] then s.(queues := s.queues - {k}, rotation := Except(s.rotation, k))
      else s.(queues := s.queues[k := rest])
  }

  function OwnerAt(owners: seq<Admission>, r: RequestId): (i: int)
    ensures -1 <= i < |owners|
    ensures i >= 0 ==> owners[i].requestId == r
    ensures i == -1 <==> forall j :: 0 <= j < |owners| ==> owners[j].requestId != r
  {
    if owners == [] then -1
    else if owners[0].requestId == r then 0
    else
      var i := OwnerAt(owners[1..], r);
      if i == -1 then -1 else i + 1
  }

  function Vacate(s: State, i: nat): State
    requires i < |s.owners|
  {
    s.(owners := s.owners[..i] + s.owners[i + 1..])
  }

  /** Releasing any pin; an owner's slot passes to the next key in the rotation. */
  function Release(s: State, r: RequestId, now: string): (State, bool, Option<Grant>)
    requires CanPromote(s)
  {
    if r !in s.pins then (s, false, None)
    else
      var pin := s.pins[r];
      var i := OwnerAt(s.owners, r);
      if i >= 0 then
        var (t, grant) := Promote(Vacate(Unpin(s, r), i), s.owners[i].apiKeyId, now);
        (t, true, grant)
      else if pin.leaseState == Queued then (Withdraw(Unpin(s, r), pin.apiKeyId, r), true, None)
      else (Unpin(s, r), true, None)
  }

  function Initial(limits: Limits): State {
    State(limits, [], map[], [], map[], 0, 0, true)
  }
}
