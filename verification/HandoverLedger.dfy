/**
 * Who is responsible for each pin while admissions travel through futures: an abstract ledger
 * of pins, queued entries, live calls and callers that hold an admission.
 */
module HandoverLedger {
  import opened Prelude
  import Scheduler

  type Place<R, K> = Scheduler.Ticketed<R, K>

  /** The future of a queued call: unresolved, about to be resolved by the loop, or resolved. */
  datatype Phase<A> = Pending | Scheduled(grant: A) | Resolved(grant: A)

  datatype Waiter<R, K, A> = Waiter(place: Place<R, K>, phase: Phase<A>)

  /** A caller that was handed an admission and has not released it yet. */
  datatype Holder<R, A> = Holder(request: R, admission: A)

  /**
   * `queued` are the entries standing in some queue; `waiters` are the calls still inside
   * `acquire`, by ticket; `held` are the callers with an admission, numbered as they were handed
   * one, so that two callers with one request are two holders.
   */
  datatype Ledger<R, K(==), A> = Ledger(
    pins: map<R, A>, queued: set<Place<R, K>>, tickets: nat,
    waiters: map<nat, Waiter<R, K, A>>, held: map<nat, Holder<R, A>>, handed: nat)

  ghost predicate AwaitedIn<R(!new), K, A>(ws: map<nat, Waiter<R, K, A>>, r: R) {
    exists n :: n in ws && ws[n].place.requestId == r
  }

  ghost predicate Awaited<R(!new), K, A>(b: Ledger<R, K, A>, r: R) {
    AwaitedIn(b.waiters, r)
  }

  ghost predicate QueueSound<R(!new), K(!new), A>(b: Ledger<R, K, A>) {
    forall e :: e in b.queued ==>
      && e.ticket <= b.tickets && e.requestId in b.pins
      && e.ticket in b.waiters && b.waiters[e.ticket] == Waiter(e, Pending)
  }

  /** A live call either stands in the queue or is about to receive the slot pinned to it. */
  ghost predicate WaitersSound<R(!new), K(!new), A>(b: Ledger<R, K, A>) {
    forall n :: n in b.waiters ==>
      var w := b.waiters[n];
      && w.place.ticket == n <= b.tickets && w.place.requestId in b.pins
      && (if w.phase.Pending? then w.place in b.queued else b.pins[w.place.requestId] == w.phase.grant)
  }

  ghost predicate OneWaiterEach<R(!new), K, A>(ws: map<nat, Waiter<R, K, A>>) {
    forall m, n :: m in ws && n in ws && ws[m].place.requestId == ws[n].place.requestId ==> m == n
  }

  ghost predicate HeldBy<R(!new), A>(held: map<nat, Holder<R, A>>, r: R) {
    exists c :: c in held && held[c].request == r
  }

  ghost predicate OneHolderEach<R(!new), A>(held: map<nat, Holder<R, A>>) {
    forall c, d :: c in held && d in held && held[c].request == held[d].request ==> c == d
  }

  /** What a caller holds is exactly what is pinned, and nobody else is waiting for it. */
  ghost predicate HeldSound<R(!new), K, A>(b: Ledger<R, K, A>) {
    forall c :: c in b.held ==>
      var h := b.held[c];
      c < b.handed && h.request in b.pins && b.pins[h.request] == h.admission && !Awaited(b, h.request)
  }

  /** Every pin is in the hands of a caller or of a live call. */
  ghost predicate NothingLost<R(!new), K, A>(b: Ledger<R, K, A>) {
    forall r :: r in b.pins ==> HeldBy(b.held, r) || Awaited(b, r)
  }

  /** Pins and callers correspond: every pin has one caller or live call, and every one of them has a pin. */
  ghost predicate Balanced<R(!new), K(!new), A>(b: Ledger<R, K, A>) {
    && QueueSound(b) && WaitersSound(b) && OneWaiterEach(b.waiters)
    && OneHolderEach(b.held) && HeldSound(b) && NothingLost(b)
  }

  // ---------------------------------------------------------------- movements

  /** One more caller has an admission. */
  ghost function HandOut<R, K, A>(b: Ledger<R, K, A>, r: R, pin: A): Ledger<R, K, A> {
    b.(held := b.held[b.handed := Holder(r, pin)], handed := b.handed + 1)
  }

  /** A caller is told its admission: a new pin, or the one its request already has. */
  ghost function Admitted<R, K, A>(b: Ledger<R, K, A>, r: R, pin: A): Ledger<R, K, A> {
    HandOut(b.(pins := b.pins[r := pin]), r, pin)
  }

  /** A caller starts to wait with the next ticket. */
  ghost function Enqueued<R, K, A>(b: Ledger<R, K, A>, e: Place<R, K>, pin: A): Ledger<R, K, A> {
    b.(pins := b.pins[e.requestId := pin], tickets := e.ticket, queued := b.queued + {e},
       waiters := b.waiters[e.ticket := Waiter(e, Pending)])
  }

  datatype Award<R, K, A> = Award(place: Place<R, K>, pin: A)

  function AwardWaiters<R, K, A>(
      ws: map<nat, Waiter<R, K, A>>, award: Option<Award<R, K, A>>): map<nat, Waiter<R, K, A>> {
    if award.Some? && award.value.place.ticket in ws then
      ws[award.value.place.ticket := ws[award.value.place.ticket].(phase := Scheduled(award.value.pin))]
    else ws
  }

  ghost function PinsLeft<R, K, A>(pins: map<R, A>, r: R, award: Option<Award<R, K, A>>): map<R, A> {
    if award.Some? then (pins - {r})[award.value.place.requestId := award.value.pin] else pins - {r}
  }

  ghost function QueueLeft<R(!new), K(!new), A>(
      queued: set<Place<R, K>>, r: R, award: Option<Award<R, K, A>>): set<Place<R, K>> {
    set e | e in queued && e.requestId != r && (award.Some? ==> e != award.value.place)
  }

  /** The pin of `r` goes; a freed slot is awarded to a queued entry. */
  ghost function Released<R(!new), K(!new), A>(
      b: Ledger<R, K, A>, r: R, award: Option<Award<R, K, A>>): Ledger<R, K, A> {
    b.(pins := PinsLeft(b.pins, r, award), queued := QueueLeft(b.queued, r, award),
       waiters := AwardWaiters(b.waiters, award))
  }

  function ResolveCall<R, K, A>(ws: map<nat, Waiter<R, K, A>>, n: nat): map<nat, Waiter<R, K, A>> {
    if n in ws && ws[n].phase.Scheduled? then ws[n := ws[n].(phase := Resolved(ws[n].phase.grant))] else ws
  }

  ghost function Resolve<R, K, A>(b: Ledger<R, K, A>, n: nat): Ledger<R, K, A> {
    b.(waiters := ResolveCall(b.waiters, n))
  }

  ghost function Return<R, K, A>(b: Ledger<R, K, A>, n: nat): Ledger<R, K, A> {
    if n in b.waiters && b.waiters[n].phase.Resolved? then
      HandOut(b.(waiters := b.waiters - {n}), b.waiters[n].place.requestId, b.waiters[n].phase.grant)
    else b
  }

  ghost function Leave<R, K, A>(b: Ledger<R, K, A>, n: nat): Ledger<R, K, A> {
    b.(waiters := b.waiters - {n})
  }

  ghost function Relinquish<R, K, A>(b: Ledger<R, K, A>, c: nat): Ledger<R, K, A> {
    b.(held := b.held - {c})
  }

  /** The ledger without whoever holds `r` and without whoever waits for `r`. */
  ghost function Forgotten<R, K, A>(b: Ledger<R, K, A>, r: R): Ledger<R, K, A> {
    b.(waiters := map n | n in b.waiters && b.waiters[n].place.requestId != r :: b.waiters[n],
       held := map c | c in b.held && b.held[c].request != r :: b.held[c])
  }

  // ---------------------------------------------------------------- what keeps the balance

  lemma HandOutHeld<R(!new), K, A>(b: Ledger<R, K, A>, r: R, pin: A)
    requires forall c :: c in b.held ==> c < b.handed
    ensures var c := HandOut(b, r, pin);
            && (forall x :: HeldBy(c.held, x) <==> HeldBy(b.held, x) || x == r)
            && (OneHolderEach(c.held) <==> OneHolderEach(b.held) && !HeldBy(b.held, r))
  {
    var d := HandOut(b, r, pin);
    assert b.handed in d.held && d.held[b.handed].request == r;
    forall x | HeldBy(b.held, x)
      ensures HeldBy(d.held, x)
    {
      var m :| m in b.held && b.held[m].request == x;
      assert d.held[m].request == x;
    }
    if OneHolderEach(d.held) {
      assert forall m :: m in b.held ==> d.held[m] == b.held[m];
    }
  }

  /** Handing out an admission is safe exactly when its request has no pin yet. */
  lemma AdmittedBalance<R(!new), K(!new), A>(b: Ledger<R, K, A>, r: R, pin: A)
    requires Balanced(b) && (r in b.pins ==> b.pins[r] == pin)
    ensures Balanced(Admitted(b, r, pin)) <==> r !in b.pins
  {
    HandOutHeld(b.(pins := b.pins[r := pin]), r, pin);
    AdmittedPins(b, r, pin);
    assert Admitted(b, r, pin).held[b.handed].request == r;
    hide AwaitedIn, OneWaiterEach, OneHolderEach, HeldBy, QueueSound, WaitersSound;
    if r in b.pins {
      assert HeldBy(b.held, r) || Awaited(b, r);
    } else {
      UnpinnedFree(b, r);
    }
  }

  lemma UnpinnedFree<R(!new), K(!new), A>(b: Ledger<R, K, A>, r: R)
    requires Balanced(b) && r !in b.pins
    ensures !HeldBy(b.held, r) && !Awaited(b, r)
  {
    if Awaited(b, r) { AwaitedPinned(b, r); }
  }

  lemma AdmittedPins<R(!new), K(!new), A>(b: Ledger<R, K, A>, r: R, pin: A)
    requires QueueSound(b) && WaitersSound(b)
    requires r in b.pins ==> b.pins[r] == pin
    ensures QueueSound(Admitted(b, r, pin)) && WaitersSound(Admitted(b, r, pin))
    ensures forall x :: Awaited(Admitted(b, r, pin), x) <==> Awaited(b, x)
  {
    if Awaited(b, r) { AwaitedPinned(b, r); }
  }

  lemma AwaitedPinned<R(!new), K(!new), A>(b: Ledger<R, K, A>, r: R)
    requires WaitersSound(b) && Awaited(b, r)
    ensures r in b.pins
  {
  }

  lemma EnqueuedAwaited<R(!new), K, A>(b: Ledger<R, K, A>, e: Place<R, K>, pin: A, x: R)
    requires e.ticket !in b.waiters
    ensures Awaited(Enqueued(b, e, pin), x) <==> Awaited(b, x) || x == e.requestId
  {
    var c := Enqueued(b, e, pin);
    assert c.waiters[e.ticket].place.requestId == e.requestId;
    if Awaited(b, x) {
      var m :| m in b.waiters && b.waiters[m].place.requestId == x;
      assert c.waiters[m].place.requestId == x;
    }
  }

  lemma EnqueuedSound<R(!new), K(!new), A>(b: Ledger<R, K, A>, e: Place<R, K>, pin: A)
    requires QueueSound(b) && WaitersSound(b) && OneWaiterEach(b.waiters)
    requires e.requestId !in b.pins && e.ticket == b.tickets + 1
    ensures var c := Enqueued(b, e, pin);
            QueueSound(c) && WaitersSound(c) && OneWaiterEach(c.waiters) && e.ticket !in b.waiters
  {
  }

  lemma EnqueuedBalance<R(!new), K(!new), A>(b: Ledger<R, K, A>, e: Place<R, K>, pin: A)
    requires Balanced(b) && e.requestId !in b.pins && e.ticket == b.tickets + 1
    ensures Balanced(Enqueued(b, e, pin))
  {
    var c := Enqueued(b, e, pin);
    EnqueuedSound(b, e, pin);
    forall x ensures Awaited(c, x) <==> Awaited(b, x) || x == e.requestId { EnqueuedAwaited(b, e, pin, x); }
    hide Awaited, QueueSound, WaitersSound, OneWaiterEach, OneHolderEach, HeldBy;
  }

  lemma AwaitedSame<R(!new), K, A>(ws: map<nat, Waiter<R, K, A>>, vs: map<nat, Waiter<R, K, A>>)
    requires ws.Keys == vs.Keys
    requires forall n :: n in ws ==> vs[n].place == ws[n].place
    ensures forall x :: AwaitedIn(vs, x) <==> AwaitedIn(ws, x)
    ensures OneWaiterEach(ws) ==> OneWaiterEach(vs)
  {
    forall x ensures AwaitedIn(vs, x) <==> AwaitedIn(ws, x) {
      if AwaitedIn(ws, x) {
        var n :| n in ws && ws[n].place.requestId == x;
        assert n in vs;
      }
      if AwaitedIn(vs, x) {
        var n :| n in vs && vs[n].place.requestId == x;
        assert n in ws;
      }
    }
  }

  lemma HoldersSame<R(!new), K, A>(b: Ledger<R, K, A>, c: Ledger<R, K, A>)
    requires HeldSound(b) && NothingLost(b) && c.pins == b.pins && c.held == b.held && c.handed == b.handed
    requires forall x :: Awaited(c, x) <==> Awaited(b, x)
    ensures HeldSound(c) && NothingLost(c)
  {
    hide Awaited;
  }

  lemma ResolveSound<R(!new), K(!new), A>(b: Ledger<R, K, A>, n: nat)
    requires QueueSound(b) && WaitersSound(b)
    ensures QueueSound(Resolve(b, n)) && WaitersSound(Resolve(b, n))
  {
  }

  lemma ResolveBalance<R(!new), K(!new), A>(b: Ledger<R, K, A>, n: nat)
    requires Balanced(b)
    ensures Balanced(Resolve(b, n))
  {
    hide QueueSound, WaitersSound, OneWaiterEach, OneHolderEach, HeldSound, NothingLost, AwaitedIn;
    var c := Resolve(b, n);
    assert c.waiters.Keys == b.waiters.Keys;
    AwaitedSame(b.waiters, c.waiters);
    HoldersSame(b, c);
    ResolveSound(b, n);
  }

  lemma LeaveAwaited<R(!new), K, A>(ws: map<nat, Waiter<R, K, A>>, n: nat, x: R)
    requires OneWaiterEach(ws) && n in ws
    ensures AwaitedIn(ws - {n}, x) <==> AwaitedIn(ws, x) && x != ws[n].place.requestId
  {
    if AwaitedIn(ws, x) {
      var m :| m in ws && ws[m].place.requestId == x;
      assert m != n ==> (ws - {n})[m].place.requestId == x;
    }
  }

  lemma ReturnSound<R(!new), K(!new), A>(b: Ledger<R, K, A>, n: nat)
    requires QueueSound(b) && WaitersSound(b) && OneWaiterEach(b.waiters)
    requires n in b.waiters && b.waiters[n].phase.Resolved?
    ensures QueueSound(Return(b, n)) && WaitersSound(Return(b, n)) && OneWaiterEach(Return(b, n).waiters)
    ensures b.waiters[n].place.requestId in b.pins
    ensures b.pins[b.waiters[n].place.requestId] == b.waiters[n].phase.grant
  {
  }

  lemma NotHeldTwice<R(!new), K(!new), A>(b: Ledger<R, K, A>, n: nat)
    requires Balanced(b) && n in b.waiters
    ensures !HeldBy(b.held, b.waiters[n].place.requestId)
  {
    assert Awaited(b, b.waiters[n].place.requestId);
  }

  /** The caller that stops waiting is the one that now holds. */
  lemma HandOutHolders<R(!new), K, A>(b: Ledger<R, K, A>, c: Ledger<R, K, A>, r: R, pin: A)
    requires HeldSound(b) && NothingLost(b)
    requires c.pins == b.pins && c.held == b.held[b.handed := Holder(r, pin)] && c.handed == b.handed + 1
    requires r in b.pins && b.pins[r] == pin
    requires forall x :: Awaited(c, x) <==> Awaited(b, x) && x != r
    requires forall x :: HeldBy(c.held, x) <==> HeldBy(b.held, x) || x == r
    ensures HeldSound(c) && NothingLost(c)
  {
    hide Awaited, HeldBy;
  }

  lemma ReturnBalance<R(!new), K(!new), A>(b: Ledger<R, K, A>, n: nat)
    requires Balanced(b)
    ensures Balanced(Return(b, n))
  {
    if n in b.waiters && b.waiters[n].phase.Resolved? {
      var r, pin := b.waiters[n].place.requestId, b.waiters[n].phase.grant;
      NotHeldTwice(b, n);
      HandOutHeld(b, r, pin);
      ReturnSound(b, n);
      hide QueueSound, WaitersSound, OneWaiterEach, OneHolderEach, AwaitedIn, HeldBy, HeldSound, NothingLost;
      forall x ensures AwaitedIn(b.waiters - {n}, x) <==> AwaitedIn(b.waiters, x) && x != r {
        LeaveAwaited(b.waiters, n, x);
      }
      HandOutHolders(b, Return(b, n), r, pin);
    }
  }

  lemma ForgottenAwaited<R(!new), K, A>(b: Ledger<R, K, A>, r: R)
    ensures forall x :: Awaited(Forgotten(b, r), x) <==> Awaited(b, x) && x != r
    ensures OneWaiterEach(b.waiters) ==> OneWaiterEach(Forgotten(b, r).waiters)
  {
    var c := Forgotten(b, r);
    forall x | Awaited(b, x) && x != r ensures Awaited(c, x) {
      var n :| n in b.waiters && b.waiters[n].place.requestId == x;
      assert c.waiters[n].place.requestId == x;
    }
  }

  lemma ForgottenHeld<R(!new), K, A>(b: Ledger<R, K, A>, r: R)
    ensures forall x :: HeldBy(Forgotten(b, r).held, x) <==> HeldBy(b.held, x) && x != r
    ensures OneHolderEach(b.held) ==> OneHolderEach(Forgotten(b, r).held)
  {
    var f := Forgotten(b, r);
    forall x | HeldBy(b.held, x) && x != r ensures HeldBy(f.held, x) {
      var c :| c in b.held && b.held[c].request == x;
      assert f.held[c].request == x;
    }
  }

  ghost predicate AwardFits<R, K, A>(b: Ledger<R, K, A>, r: R, award: Option<Award<R, K, A>>) {
    award.Some? ==> award.value.place in b.queued && award.value.place.requestId != r
  }

  lemma ReleaseSound<R(!new), K(!new), A>(b: Ledger<R, K, A>, r: R, award: Option<Award<R, K, A>>)
    requires QueueSound(b) && WaitersSound(b) && OneWaiterEach(b.waiters) && AwardFits(b, r, award)
    ensures var c := Released(Forgotten(b, r), r, award);
            QueueSound(c) && WaitersSound(c)
  {
    var f := Forgotten(b, r);
    var c := Released(f, r, award);
    forall e | e in c.queued
      ensures e.ticket <= c.tickets && e.requestId in c.pins
      ensures e.ticket in c.waiters && c.waiters[e.ticket] == Waiter(e, Pending)
    {
      assert e in b.queued && b.waiters[e.ticket] == Waiter(e, Pending);
      assert f.waiters[e.ticket] == Waiter(e, Pending);
    }
    forall n | n in c.waiters
      ensures var w := c.waiters[n];
              && w.place.ticket == n <= c.tickets && w.place.requestId in c.pins
              && (if w.phase.Pending? then w.place in c.queued else c.pins[w.place.requestId] == w.phase.grant)
    {
      assert n in b.waiters && c.waiters[n].place == b.waiters[n].place;
    }
  }

  lemma ReleaseAwaited<R(!new), K(!new), A>(b: Ledger<R, K, A>, r: R, award: Option<Award<R, K, A>>)
    requires OneWaiterEach(b.waiters)
    ensures var c := Released(Forgotten(b, r), r, award);
            OneWaiterEach(c.waiters) && forall x :: Awaited(c, x) <==> Awaited(b, x) && x != r
  {
    var f := Forgotten(b, r);
    var c := Released(f, r, award);
    assert c.waiters.Keys == f.waiters.Keys;
    hide AwaitedIn, OneWaiterEach;
    ForgottenAwaited(b, r);
    AwaitedSame(f.waiters, c.waiters);
  }

  lemma QueuedAwaited<R(!new), K(!new), A>(b: Ledger<R, K, A>, e: Place<R, K>)
    requires QueueSound(b) && e in b.queued
    ensures Awaited(b, e.requestId)
  {
  }

  lemma ReleaseHolders<R(!new), K, A>(b: Ledger<R, K, A>, c: Ledger<R, K, A>, r: R, award: Option<Award<R, K, A>>)
    requires HeldSound(b) && NothingLost(b)
    requires c.pins == PinsLeft(b.pins, r, award) && c.held == Forgotten(b, r).held && c.handed == b.handed
    requires forall x :: HeldBy(c.held, x) <==> HeldBy(b.held, x) && x != r
    requires forall x :: Awaited(c, x) <==> Awaited(b, x) && x != r
    requires award.Some? ==> award.value.place.requestId != r && Awaited(b, award.value.place.requestId)
    ensures HeldSound(c) && NothingLost(c)
  {
    hide Awaited, HeldBy;
  }

  /** Releasing a request together with its caller loses nothing: the freed slot is handed on. */
  lemma ReleaseBalance<R(!new), K(!new), A>(b: Ledger<R, K, A>, r: R, award: Option<Award<R, K, A>>)
    requires Balanced(b) && AwardFits(b, r, award)
    ensures Balanced(Released(Forgotten(b, r), r, award))
  {
    hide AwaitedIn, WaitersSound, OneWaiterEach, OneHolderEach, HeldSound, NothingLost, QueueSound, HeldBy;
    hide PinsLeft, QueueLeft;
    if award.Some? {
      QueuedAwaited(b, award.value.place);
    }
    ReleaseSound(b, r, award);
    ReleaseAwaited(b, r, award);
    ForgottenHeld(b, r);
    ReleaseHolders(b, Released(Forgotten(b, r), r, award), r, award);
  }

  /** In a balanced ledger the holder that lets go is all there is to forget about its request. */
  lemma HolderIsAll<R(!new), K(!new), A>(b: Ledger<R, K, A>, c: nat)
    requires Balanced(b) && c in b.held
    ensures Relinquish(b, c) == Forgotten(b, b.held[c].request)
  {
    var r := b.held[c].request;
    assert !Awaited(b, r);
    assert b.waiters == map n | n in b.waiters && b.waiters[n].place.requestId != r :: b.waiters[n];
    assert b.held - {c} == map d | d in b.held && b.held[d].request != r :: b.held[d];
  }

  /** So is the call that leaves. */
  lemma CallerIsAll<R(!new), K(!new), A>(b: Ledger<R, K, A>, n: nat)
    requires Balanced(b) && n in b.waiters
    ensures Leave(b, n) == Forgotten(b, b.waiters[n].place.requestId)
  {
    var r := b.waiters[n].place.requestId;
    NotHeldTwice(b, n);
    assert b.waiters - {n} == map m | m in b.waiters && b.waiters[m].place.requestId != r :: b.waiters[m];
    assert b.held == map c | c in b.held && b.held[c].request != r :: b.held[c];
  }

  // ---------------------------------------------------------------- what breaks it

  /** Releasing a pinned request by anybody but its caller leaves that caller with nothing behind it. */
  lemma ForeignReleaseBreaks<R(!new), K(!new), A>(b: Ledger<R, K, A>, r: R, award: Option<Award<R, K, A>>)
    requires Balanced(b) && r in b.pins && AwardFits(b, r, award)
    ensures !Balanced(Released(b, r, award))
  {
    var c := Released(b, r, award);
    assert r !in c.pins;
    if Awaited(b, r) {
      var n :| n in b.waiters && b.waiters[n].place.requestId == r;
      assert n in c.waiters && c.waiters[n].place.requestId == r;
    } else {
      assert HeldBy(b.held, r);
    }
  }

  /** A call that disappears without a release takes its pin, or its slot, with it for good. */
  lemma LeaveBreaks<R(!new), K(!new), A>(b: Ledger<R, K, A>, n: nat)
    requires Balanced(b) && n in b.waiters
    ensures !Balanced(Leave(b, n))
  {
    var r := b.waiters[n].place.requestId;
    assert Awaited(b, r);
    LeaveAwaited(b.waiters, n, r);
    assert r in b.pins && !HeldBy(b.held, r);
  }

  /** When no call is inside `acquire` and nobody holds an admission, no pin is left. */
  lemma Quiescent<R(!new), K(!new), A>(b: Ledger<R, K, A>)
    requires Balanced(b) && b.waiters == map[] && b.held == map[]
    ensures b.pins == map[] && b.queued == {}
  {
    assert forall r :: r in b.pins ==> Awaited(b, r);
    assert forall e :: e in b.queued ==> e.ticket in b.waiters;
  }
}
