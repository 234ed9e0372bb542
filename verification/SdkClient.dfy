/** client::impl: application threads post ready and tick events, which are coalesced per kind, and
    one worker thread sends them.  Every method below is one critical section of the mutex. */
module SdkClient {
  import opened Wrappers

  datatype Kind = ReadyEvent | TickEvent

  datatype Channel = Channel(pending: bool, sequence: nat, sent: nat, coalesced: nat)

  /** What the worker is sending: the kind and the sequence number it captured. */
  datatype Sending = Sending(kind: Kind, captured: nat)

  datatype State = State(ready: Channel, tick: Channel, sending: Option<Sending>, stopped: bool)
  {
    function Of(kind: Kind): Channel {
      if kind == ReadyEvent then ready else tick
    }

    function With(kind: Kind, channel: Channel): State {
      if kind == ReadyEvent then this.(ready := channel) else this.(tick := channel)
    }

    predicate Flushed() {
      !ready.pending && !tick.pending && sending == None
    }
  }

  const INITIAL := State(Channel(false, 0, 0, 0), Channel(false, 0, 0, 0), None, false)

  datatype Event = Enqueue(kind: Kind) | Pick | SendOk | SendFail | Close

  predicate Enabled(s: State, e: Event) {
    match e
    case Enqueue(_) => true
    case Pick => !s.stopped && s.sending == None && (s.ready.pending || s.tick.pending)
    case SendOk => s.sending.Some?
    case SendFail => s.sending.Some?
    case Close => true
  }

  function Posted(c: Channel): Channel {
    c.(sequence := c.sequence + 1, pending := true, coalesced := if c.pending then c.coalesced + 1 else c.coalesced)
  }

  function Delivered(c: Channel, captured: nat): Channel {
    c.(sent := c.sent + 1, pending := if c.sequence == captured then false else c.pending)
  }

  function Step(s: State, e: Event): State
    requires Enabled(s, e)
  {
    match e
    case Enqueue(kind) => if s.stopped then s else s.With(kind, Posted(s.Of(kind)))
    case Pick =>
      var kind := if s.ready.pending then ReadyEvent else TickEvent;
      s.(sending := Some(Sending(kind, s.Of(kind).sequence)))
    case SendOk =>
      var sending := s.sending.value;
      s.With(sending.kind, Delivered(s.Of(sending.kind), sending.captured)).(sending := None)
    case SendFail => s.(sending := None)
    case Close =>
      if s.stopped then s
      else s.(stopped := true, ready := s.ready.(pending := false), tick := s.tick.(pending := false))
  }

  // ----- Runs

  /** The events can happen in this order. */
  ghost predicate Possible(events: seq<Event>)
    decreases |events|, 0
  {
    events == [] ||
    (Possible(events[..|events| - 1]) && Enabled(After(events[..|events| - 1]), events[|events| - 1]))
  }

  ghost function After(events: seq<Event>): State
    requires Possible(events)
    decreases |events|, 1
  {
    if events == [] then INITIAL else Step(After(events[..|events| - 1]), events[|events| - 1])
  }

  ghost predicate NoClose(events: seq<Event>) {
    forall i :: 0 <= i < |events| ==> events[i] != Close
  }

  /** The sequence number captured by the last successful send of a kind; 0 before the first. */
  ghost function LastCapture(events: seq<Event>, kind: Kind): nat
    requires Possible(events)
  {
    if events == [] then 0
    else
      var init := events[..|events| - 1];
      var s := After(init);
      if events[|events| - 1] == SendOk && s.sending.value.kind == kind
      then s.sending.value.captured
      else LastCapture(init, kind)
  }

  ghost predicate Consistent(s: State, kind: Kind, last: nat) {
    var c := s.Of(kind);
    && (c.pending <==> last < c.sequence) && last <= c.sequence
    && (s.sending.Some? && s.sending.value.kind == kind ==> last < s.sending.value.captured <= c.sequence)
    && c.sequence - c.coalesced - (if c.pending then 1 else 0) <= c.sent <= last
  }

  /** Without close, a kind is pending exactly when the last successful send captured an older
      sequence number; captures grow, and the counters add up. */
  lemma {:induction false} PendingIffStale(events: seq<Event>, kind: Kind)
    requires Possible(events) && NoClose(events)
    ensures !After(events).stopped && Consistent(After(events), kind, LastCapture(events, kind))
  {
    if events != [] {
      var init := events[..|events| - 1];
      PendingIffStale(init, kind);
      assert events[|events| - 1] != Close;
    }
  }

  /** Every successful send captures more than the one before it. */
  lemma CapturesIncrease(events: seq<Event>, kind: Kind)
    requires Possible(events + [SendOk]) && NoClose(events) && Possible(events)
    requires After(events).sending.Some? && After(events).sending.value.kind == kind
    ensures LastCapture(events + [SendOk], kind) > LastCapture(events, kind)
  {
    PendingIffStale(events, kind);
    assert (events + [SendOk])[..|events|] == events;
  }

  lemma {:induction false} PossiblePrefix(events: seq<Event>, n: nat)
    requires Possible(events) && n <= |events|
    ensures Possible(events[..n])
    decreases |events| - n
  {
    if n < |events| {
      PossiblePrefix(events, n + 1);
      assert events[..n + 1][..n] == events[..n];
    } else {
      assert events[..n] == events;
    }
  }

  ghost function At(events: seq<Event>, n: nat): State
    requires Possible(events) && n <= |events|
  {
    PossiblePrefix(events, n);
    After(events[..n])
  }

  lemma AtNext(events: seq<Event>, n: nat)
    requires Possible(events) && n < |events|
    ensures Enabled(At(events, n), events[n]) && At(events, n + 1) == Step(At(events, n), events[n])
  {
    PossiblePrefix(events, n);
    PossiblePrefix(events, n + 1);
    assert events[..n + 1][..n] == events[..n];
  }

  lemma {:induction false} SequenceGrows(events: seq<Event>, kind: Kind, m: nat, n: nat)
    requires Possible(events) && m <= n <= |events|
    ensures At(events, m).Of(kind).sequence <= At(events, n).Of(kind).sequence
    decreases n - m
  {
    if m < n {
      SequenceGrows(events, kind, m, n - 1);
      AtNext(events, n - 1);
    }
  }

  /** From the pick at `j` up to `n` the worker has been sending what it captured at `j`. */
  ghost predicate SendingSince(events: seq<Event>, j: nat, n: nat, sending: Sending)
    requires Possible(events)
  {
    && j < n <= |events| && events[j] == Pick
    && sending.captured == At(events, j).Of(sending.kind).sequence
    && forall m :: j < m <= n ==> At(events, m).sending == Some(sending)
  }

  lemma {:induction false} PickOfSending(events: seq<Event>, n: nat) returns (j: nat)
    requires Possible(events) && n <= |events| && At(events, n).sending.Some?
    ensures SendingSince(events, j, n, At(events, n).sending.value)
  {
    assert events[..0] == [];
    AtNext(events, n - 1);
    if events[n - 1] == Pick {
      j := n - 1;
    } else {
      j := PickOfSending(events, n - 1);
    }
  }

  /** The send that set `LastCapture`. */
  lemma {:induction false} SendOfCapture(events: seq<Event>, kind: Kind, n: nat) returns (j: nat, l: nat)
    requires Possible(events) && n <= |events| && Possible(events[..n]) && LastCapture(events[..n], kind) > 0
    ensures j < l < n && events[l] == SendOk
    ensures SendingSince(events, j, l, Sending(kind, LastCapture(events[..n], kind)))
  {
    assert events[..0] == [];
    AtNext(events, n - 1);
    PossiblePrefix(events, n - 1);
    assert events[..n][..n - 1] == events[..n - 1];
    if events[n - 1] == SendOk && At(events, n - 1).sending.value.kind == kind {
      l := n - 1;
      j := PickOfSending(events, n - 1);
    } else {
      j, l := SendOfCapture(events, kind, n - 1);
    }
  }

  /** When flush reports success, every event posted before has been covered by a successful send
      that was picked after it was posted. */
  lemma FlushCoversAll(events: seq<Event>, i: nat) returns (j: nat, l: nat)
    requires Possible(events) && NoClose(events) && After(events).Flushed()
    requires i < |events| && events[i].Enqueue?
    ensures i < j < l < |events| && events[l] == SendOk
    ensures exists sending: Sending :: sending.kind == events[i].kind && SendingSince(events, j, l, sending)
  {
    var kind, n := events[i].kind, |events|;
    assert events[..n] == events;
    PendingIffStale(events, kind);
    assert NoClose(events[..i]);
    NotStopped(events, i);
    AtNext(events, i);
    SequenceGrows(events, kind, i + 1, n);
    var last := LastCapture(events[..n], kind);
    j, l := SendOfCapture(events, kind, n);
    assert SendingSince(events, j, l, Sending(kind, last));
    if j <= i { SequenceGrows(events, kind, j, i); }
  }

  /** In every run a tick is only picked while no ready event is pending. */
  lemma ReadyGoesFirst(events: seq<Event>, j: nat)
    requires Possible(events) && j < |events| && events[j] == Pick
    ensures var s, s' := At(events, j), At(events, j + 1);
      && s'.sending.Some? && s.Of(s'.sending.value.kind).pending
      && s'.sending.value.captured == s.Of(s'.sending.value.kind).sequence
      && (s'.sending.value.kind == TickEvent ==> !s.ready.pending)
  {
    AtNext(events, j);
  }

  // ----- The counters

  /** Events of a kind that were taken in, and those among them that found one pending. */
  ghost function Posts(events: seq<Event>, kind: Kind): nat
    requires Possible(events)
  {
    if events == [] then 0
    else
      var init := events[..|events| - 1];
      Posts(init, kind) + if events[|events| - 1] == Enqueue(kind) && !After(init).stopped then 1 else 0
  }

  ghost function RepeatedPosts(events: seq<Event>, kind: Kind): nat
    requires Possible(events)
  {
    if events == [] then 0
    else
      var init := events[..|events| - 1];
      RepeatedPosts(init, kind) +
      if events[|events| - 1] == Enqueue(kind) && !After(init).stopped && After(init).Of(kind).pending then 1 else 0
  }

  /** Successful sends of a kind. */
  ghost function Sends(events: seq<Event>, kind: Kind): nat
    requires Possible(events)
  {
    if events == [] then 0
    else
      var init := events[..|events| - 1];
      Sends(init, kind) +
      if events[|events| - 1] == SendOk && After(init).sending.Some? && After(init).sending.value.kind == kind then 1 else 0
  }

  /** In every run, closed or not, the counters count exactly these. */
  lemma {:induction false} CountersExact(events: seq<Event>, kind: Kind)
    requires Possible(events)
    ensures After(events).Of(kind).sequence == Posts(events, kind)
    ensures After(events).Of(kind).coalesced == RepeatedPosts(events, kind)
    ensures After(events).Of(kind).sent == Sends(events, kind)
  {
    if events != [] { CountersExact(events[..|events| - 1], kind); }
  }

  // ----- Runs with close

  /** Event `i` is covered by a successful send that was picked after it was posted. */
  ghost predicate Covered(events: seq<Event>, i: nat)
    requires Possible(events) && i < |events| && events[i].Enqueue?
  {
    exists j: nat, l: nat, captured: nat {:trigger SendingSince(events, j, l, Sending(events[i].kind, captured))} ::
      i < j && l < |events| && events[l] == SendOk && SendingSince(events, j, l, Sending(events[i].kind, captured))
  }

  /** Event `i` was taken in: the client had not been closed yet. */
  ghost predicate Accepted(events: seq<Event>, i: nat, kind: Kind)
    requires Possible(events)
  {
    i < |events| && events[i] == Enqueue(kind) && !At(events, i).stopped
  }

  /** Every event of the kind that was taken in is covered. */
  ghost predicate NothingLost(events: seq<Event>, kind: Kind)
    requires Possible(events)
  {
    forall i: nat :: Accepted(events, i, kind) ==> Covered(events, i)
  }

  ghost function CaptureAt(events: seq<Event>, n: nat, kind: Kind): nat
    requires Possible(events) && n <= |events|
  {
    PossiblePrefix(events, n);
    LastCapture(events[..n], kind)
  }

  lemma CaptureNext(events: seq<Event>, n: nat, kind: Kind)
    requires Possible(events) && n < |events|
    ensures CaptureAt(events, n + 1, kind) ==
      if events[n] == SendOk && At(events, n).sending.Some? && At(events, n).sending.value.kind == kind
      then At(events, n).sending.value.captured else CaptureAt(events, n, kind)
  {
    PossiblePrefix(events, n);
    PossiblePrefix(events, n + 1);
    AtNext(events, n);
    assert events[..n + 1][..n] == events[..n];
  }

  /** With or without close: captures never exceed what was posted and never fall. */
  lemma {:induction false} CapturesBounded(events: seq<Event>, n: nat, kind: Kind)
    requires Possible(events) && n <= |events|
    ensures CaptureAt(events, n, kind) <= At(events, n).Of(kind).sequence
    ensures var sending := At(events, n).sending;
      sending.Some? && sending.value.kind == kind ==>
        CaptureAt(events, n, kind) <= sending.value.captured <= At(events, n).Of(kind).sequence
  {
    if n == 0 {
      assert events[..0] == [];
    } else {
      CapturesBounded(events, n - 1, kind);
      CaptureNext(events, n - 1, kind);
      AtNext(events, n - 1);
    }
  }

  lemma {:induction false} CapturesRise(events: seq<Event>, m: nat, n: nat, kind: Kind)
    requires Possible(events) && m <= n <= |events|
    ensures CaptureAt(events, m, kind) <= CaptureAt(events, n, kind)
    decreases n - m
  {
    if m < n {
      CapturesRise(events, m, n - 1, kind);
      CaptureNext(events, n - 1, kind);
      CapturesBounded(events, n - 1, kind);
    }
  }

  /** The last event of a kind that was taken in, after which the sequence number stays. */
  lemma {:induction false} LastAccepted(events: seq<Event>, n: nat, kind: Kind) returns (i: nat)
    requires Possible(events) && n <= |events| && At(events, n).Of(kind).sequence > 0
    ensures i < n && Accepted(events, i, kind)
    ensures At(events, i + 1).Of(kind).sequence == At(events, n).Of(kind).sequence
  {
    assert events[..0] == [];
    AtNext(events, n - 1);
    if events[n - 1] == Enqueue(kind) && !At(events, n - 1).stopped {
      i := n - 1;
    } else {
      i := LastAccepted(events, n - 1, kind);
    }
  }

  /** In every run: nothing is lost if and only if the last successful send captured the latest event. */
  lemma NothingLostIffCaptured(events: seq<Event>, kind: Kind)
    requires Possible(events)
    ensures NothingLost(events, kind) <==> LastCapture(events, kind) == After(events).Of(kind).sequence
  {
    var n := |events|;
    assert events[..n] == events;
    CapturesBounded(events, n, kind);
    if LastCapture(events, kind) == After(events).Of(kind).sequence {
      forall i: nat | Accepted(events, i, kind) ensures Covered(events, i) {
        CapturedCovers(events, i, kind);
      }
    }
    if NothingLost(events, kind) && After(events).Of(kind).sequence > 0 {
      var i := LastAccepted(events, n, kind);
      CoveredIsCaptured(events, i, kind);
    }
  }

  lemma CapturedCovers(events: seq<Event>, i: nat, kind: Kind)
    requires Possible(events) && Accepted(events, i, kind)
    requires LastCapture(events, kind) == After(events).Of(kind).sequence
    ensures Covered(events, i)
  {
    var n := |events|;
    assert events[..n] == events;
    AtNext(events, i);
    SequenceGrows(events, kind, i + 1, n);
    var j, l := SendOfCapture(events, kind, n);
    if j <= i { SequenceGrows(events, kind, j, i); }
    assert SendingSince(events, j, l, Sending(kind, LastCapture(events, kind)));
  }

  lemma CoveredIsCaptured(events: seq<Event>, i: nat, kind: Kind)
    requires Possible(events) && Accepted(events, i, kind) && Covered(events, i)
    ensures At(events, i + 1).Of(kind).sequence <= LastCapture(events, kind)
  {
    var j: nat, l: nat, captured: nat :|
      i < j && l < |events| && events[l] == SendOk && SendingSince(events, j, l, Sending(kind, captured));
    SequenceGrows(events, kind, i + 1, j);
    CaptureNext(events, l, kind);
    CapturesRise(events, l + 1, |events|, kind);
    assert events[..|events|] == events;
  }

  ghost predicate FirstClose(events: seq<Event>, c: nat) {
    c < |events| && events[c] == Close && NoClose(events[..c])
  }

  /** The send under way at `c` was reported as successful before `n`. */
  ghost predicate SentAfter(events: seq<Event>, c: nat, n: nat) {
    exists l :: c < l < n && l < |events| && events[l] == SendOk
  }

  /** After close nothing is posted and nothing picked; the send under way may still come to its end. */
  lemma {:induction false} AfterClose(events: seq<Event>, c: nat, n: nat, kind: Kind)
    requires Possible(events) && FirstClose(events, c) && c < n <= |events|
    ensures At(events, n).stopped && At(events, n).Of(kind).sequence == At(events, c).Of(kind).sequence
    ensures At(events, n).sending in {None, At(events, c).sending}
    ensures SentAfter(events, c, n) ==> At(events, c).sending.Some? && At(events, n).sending == None
    ensures CaptureAt(events, n, kind) ==
      if SentAfter(events, c, n) && At(events, c).sending.Some? && At(events, c).sending.value.kind == kind
      then At(events, c).sending.value.captured else CaptureAt(events, c, kind)
    decreases n
  {
    AtNext(events, n - 1);
    CaptureNext(events, n - 1, kind);
    if n - 1 == c {
      NotStopped(events, c);
    } else {
      AfterClose(events, c, n - 1, kind);
      assert SentAfter(events, c, n) <==> SentAfter(events, c, n - 1) || events[n - 1] == SendOk;
    }
  }

  lemma NotStopped(events: seq<Event>, c: nat)
    requires Possible(events) && c <= |events| && NoClose(events[..c])
    ensures !At(events, c).stopped
  {
    PossiblePrefix(events, c);
    PendingIffStale(events[..c], ReadyEvent);
  }

  /** Close takes the pending flags back.  A closed run has still lost no event of a kind if and only if
      none was pending at the close, or the latest one was just being sent and that send succeeds. */
  lemma CloseLosesNothingIff(events: seq<Event>, c: nat, kind: Kind)
    requires Possible(events) && FirstClose(events, c)
    ensures NothingLost(events, kind) <==>
      || !At(events, c).Of(kind).pending
      || (At(events, c).sending == Some(Sending(kind, At(events, c).Of(kind).sequence)) && SentAfter(events, c, |events|))
  {
    var n := |events|;
    assert events[..n] == events;
    NothingLostIffCaptured(events, kind);
    AfterClose(events, c, n, kind);
    PossiblePrefix(events, c);
    PendingIffStale(events[..c], kind);
  }

  /** A flush that succeeds right before the close makes sure that nothing is lost. */
  lemma FlushThenClose(events: seq<Event>, c: nat, kind: Kind)
    requires Possible(events) && FirstClose(events, c) && At(events, c).Flushed()
    ensures NothingLost(events, kind)
  {
    CloseLosesNothingIff(events, c, kind);
  }

  /** Without the flush before it, a flush after the close succeeds although nothing was ever sent. */
  lemma CloseForgets()
    ensures Possible([Enqueue(TickEvent), Close]) && After([Enqueue(TickEvent), Close]).Flushed()
    ensures After([Enqueue(TickEvent), Close]).tick.sent == 0
    ensures !NothingLost([Enqueue(TickEvent), Close], TickEvent)
  {
    var events := [Enqueue(TickEvent), Close];
    assert events[..1] == [Enqueue(TickEvent)] && events[..1][..0] == [];
    CloseLosesNothingIff(events, 1, TickEvent);
  }

  // ----- The object

  datatype EnqueueResult = Queued | Coalesced | Stopped | Disabled

  class Client {
    const enabled: bool
    var running: bool
    var stopped: bool
    var sending: bool
    var pendingReady: bool
    var pendingTick: bool
    var readySequence: nat
    var tickSequence: nat
    var readySent: nat
    var tickSent: nat
    var readyCoalesced: nat
    var tickCoalesced: nat
    // the worker's local variables while it is sending
    var readyEvent: bool
    var sequence: nat

    ghost function Now(): State
      reads this
    {
      State(
        Channel(pendingReady, readySequence, readySent, readyCoalesced),
        Channel(pendingTick, tickSequence, tickSent, tickCoalesced),
        if sending then Some(Sending(if readyEvent then ReadyEvent else TickEvent, sequence)) else None,
        stopped)
    }

    constructor (enabled: bool)
      ensures this.enabled == enabled && Now() == INITIAL && running == enabled
    {
      this.enabled, running := enabled, enabled;
      stopped, sending, pendingReady, pendingTick := false, false, false, false;
      readySequence, tickSequence, readySent, tickSent, readyCoalesced, tickCoalesced := 0, 0, 0, 0, 0, 0;
      readyEvent, sequence := false, 0;
    }

    method Post(ready: bool) returns (result: EnqueueResult)
      modifies this
      ensures !enabled || old(stopped) ==> Now() == old(Now())
      ensures enabled ==> Now() == Step(old(Now()), Enqueue(if ready then ReadyEvent else TickEvent))
      ensures result ==
        if old(stopped) then Stopped
        else if !enabled then Disabled
        else if old(Now()).Of(if ready then ReadyEvent else TickEvent).pending then Coalesced
        else Queued
    {
      if stopped { return Stopped; }
      if !enabled { return Disabled; }
      if ready {
        readySequence := readySequence + 1;
        if pendingReady {
          readyCoalesced := readyCoalesced + 1;
          return Coalesced;
        }
        pendingReady := true;
      } else {
        tickSequence := tickSequence + 1;
        if pendingTick {
          tickCoalesced := tickCoalesced + 1;
          return Coalesced;
        }
        pendingTick := true;
      }
      result := Queued;
    }

    /** The worker wakes up and takes the next event; ready events go first. */
    method WorkerPick()
      requires Enabled(Now(), Pick)
      modifies this
      ensures Now() == Step(old(Now()), Pick)
    {
      readyEvent := pendingReady;
      sequence := if readyEvent then readySequence else tickSequence;
      sending := true;
    }

    method WorkerSent()
      requires Enabled(Now(), SendOk)
      modifies this
      ensures Now() == Step(old(Now()), SendOk)
    {
      if readyEvent {
        readySent := readySent + 1;
        if readySequence == sequence { pendingReady := false; }
      } else {
        tickSent := tickSent + 1;
        if tickSequence == sequence { pendingTick := false; }
      }
      sending := false;
    }

    method WorkerFailed()
      requires Enabled(Now(), SendFail)
      modifies this
      ensures Now() == Step(old(Now()), SendFail)
    {
      sending := false;
    }

    /** What flush returns if it is woken, times out, or does not wait at all. */
    method Flush() returns (done: bool)
      ensures done <==> !enabled || Now().Flushed()
    {
      if !enabled { return true; }
      done := !pendingReady && !pendingTick && !sending;
    }

    method Stop()
      modifies this
      ensures Now() == Step(old(Now()), Close)
    {
      if stopped { return; }
      stopped, running, pendingReady, pendingTick := true, false, false, false;
    }
  }
}
