/**
 * The latest-only spectrum queue: a worker thread puts each new event into a queue of capacity one,
 * displacing a stale one when it finds the queue full, while the frontend drains the same queue.
 * Every access to the queue, the stop flag and the child's output is one step.
 */
module SpectrumQueue {
  import opened Basics

  datatype Event<F> = Frame(spectrum: F) | Stopped

  /** Where the worker is; while it sends, its event is the last one produced. */
  datatype Worker = Top | Reading | Offering | Displacing | Retrying | Gone

  /** Events are named by their position in `produced`; the last five fields are history. */
  datatype State<F> = State(
    queue: Option<nat>,
    worker: Worker,
    stopping: bool,
    draining: bool,
    latest: Option<nat>,
    disconnected: bool,
    produced: seq<Event<F>>,
    received: seq<nat>,
    displaced: set<nat>,
    unsent: set<nat>,
    shown: seq<nat>)

  datatype Action<F> =
    | CheckStop            // the head of the worker's loop
    | ReadFrame(spectrum: F)
    | ReadFails            // the child's output ended
    | Offer                // the first attempt to send
    | Displace             // take whatever is stale
    | Retry                // the second attempt to send
    | BeginDrain
    | Receive              // one attempt to receive while draining
    | Stop                 // shutdown raises the flag

  /** What a drain returns when it ends: the latest frame, if any, or that the stream has stopped. */
  datatype Reply = Latest(frame: Option<nat>) | StreamStopped

  function Init<F>(): State<F> {
    State(None, Top, false, false, None, false, [], [], {}, {}, [])
  }

  predicate Enabled<F>(s: State<F>, a: Action<F>) {
    match a
    case CheckStop => s.worker.Top?
    case ReadFrame(_) => s.worker.Reading?
    case ReadFails => s.worker.Reading?
    case Offer => s.worker.Offering?
    case Displace => s.worker.Displacing?
    case Retry => s.worker.Retrying?
    case BeginDrain => !s.draining
    case Receive => s.draining
    case Stop => !s.draining
  }

  predicate Sending<F>(s: State<F>) { s.worker.Offering? || s.worker.Displacing? || s.worker.Retrying? }

  /** What the references in a state need to make sense. */
  predicate Located<F>(s: State<F>) {
    && (s.queue.Some? ==> s.queue.value < |s.produced|)
    && (Sending(s) ==> s.produced != [])
  }

  /** After sending, the worker goes around its loop, or ends if what it sent was the last event. */
  function AfterSend<F>(s: State<F>): Worker
    requires s.produced != []
  {
    if s.produced[|s.produced| - 1].Stopped? then Gone else Top
  }

  function Apply<F>(s: State<F>, a: Action<F>): State<F>
    requires Enabled(s, a) && Located(s)
  {
    match a
    case CheckStop => s.(worker := if s.stopping then Gone else Reading)
    case ReadFrame(spectrum) => s.(produced := s.produced + [Frame(spectrum)], worker := Offering)
    case ReadFails =>
      if s.stopping then s.(worker := Gone) else s.(produced := s.produced + [Stopped], worker := Offering)
    case Offer =>
      if s.queue.Some? then s.(worker := Displacing)
      else s.(queue := Some(|s.produced| - 1), worker := AfterSend(s))
    case Displace =>
      s.(queue := None, worker := Retrying,
         displaced := s.displaced + if s.queue.Some? then {s.queue.value} else {})
    case Retry =>
      if s.queue.Some? then s.(worker := AfterSend(s), unsent := s.unsent + {|s.produced| - 1})
      else s.(queue := Some(|s.produced| - 1), worker := AfterSend(s))
    case BeginDrain =>
      if s.disconnected then s else s.(draining := true, latest := None)
    case Receive =>
      if s.queue.Some? then
        var taken := s.(queue := None, received := s.received + [s.queue.value]);
        if s.produced[s.queue.value].Frame? then taken.(latest := s.queue)
        else taken.(draining := false, disconnected := true)
      else if s.worker.Gone? then s.(draining := false, disconnected := true)
      else s.(draining := false, shown := s.shown + if s.latest.Some? then [s.latest.value] else [])
    case Stop => s.(stopping := true)
  }

  /** What the step makes the frontend's current drain return, if it ends it. */
  function ReplyTo<F>(s: State<F>, a: Action<F>): Option<Reply>
    requires Enabled(s, a) && Located(s)
  {
    match a
    case BeginDrain => if s.disconnected then Some(StreamStopped) else None
    case Receive =>
      if s.queue.Some? then (if s.produced[s.queue.value].Frame? then None else Some(StreamStopped))
      else if s.worker.Gone? then Some(StreamStopped)
      else Some(Latest(s.latest))
    case _ => None
  }

  // ----- What every step keeps -----

  function Newest<F>(s: State<F>): int { |s.produced| - 1 }

  function Last(ps: seq<nat>): nat
    requires ps != []
  {
    ps[|ps| - 1]
  }

  /** An event is held by the queue, or by the worker that is about to send it. */
  predicate Held<F>(s: State<F>, p: nat) {
    s.queue == Some(p) || (Sending(s) && p == Newest(s))
  }

  ghost predicate Increasing(ps: seq<nat>) {
    forall i, j :: 0 <= i < j < |ps| ==> ps[i] < ps[j]
  }

  /** Nothing is lost or duplicated: each event is held, received, or displaced by a newer one. */
  ghost predicate Accounted<F>(s: State<F>) {
    && s.unsent == {}
    && (forall p: nat :: p < |s.produced| <==> Held(s, p) || p in s.received || p in s.displaced)
    && (forall p: nat :: p in s.displaced ==> !Held(s, p) && p !in s.received && p < Newest(s))
    && (forall p: nat :: p in s.received ==> !Held(s, p))
    && (s.queue.Some? && Sending(s) ==> s.queue.value < Newest(s))
    && (s.worker.Retrying? ==> s.queue.None?)
  }

  ghost predicate Ordered<F>(s: State<F>) {
    && Increasing(s.received)
    && (forall p :: p in s.received ==> p <= Newest(s))
    && (s.queue.Some? ==> forall p :: p in s.received ==> p < s.queue.value)
    && (Sending(s) ==> forall p :: p in s.received ==> p < Newest(s))
  }

  /** The final event is produced last, and is not followed by another. */
  ghost predicate Final<F>(s: State<F>) {
    && (forall p :: 0 <= p < Newest(s) ==> s.produced[p].Frame?)
    && (s.produced != [] && s.produced[Newest(s)].Stopped? ==> Sending(s) || s.worker.Gone?)
    && (s.worker.Gone? && !s.stopping ==> s.produced != [] && s.produced[Newest(s)].Stopped?)
  }

  /** The newest event is held, or is the one received last. */
  ghost predicate NewestHere<F>(s: State<F>) {
    s.produced != [] ==> Held(s, Newest(s)) || (s.received != [] && Last(s.received) == Newest(s))
  }

  /** The frames shown are received ones in order, and the last one received is shown next or was shown last. */
  ghost predicate Presented<F>(s: State<F>) {
    && Increasing(s.shown)
    && (forall p :: p in s.shown ==> p in s.received && p < |s.produced| && s.produced[p].Frame?)
    && (s.draining ==> !s.disconnected)
    && (s.draining && s.latest.Some? ==>
          && s.received != [] && s.latest.value == Last(s.received) < |s.produced| && s.produced[s.latest.value].Frame?
          && (s.shown != [] ==> Last(s.shown) < s.latest.value))
    && (!s.disconnected && s.received == [] ==> s.shown == [])
    && (!s.disconnected && s.received != [] && !(s.draining && s.latest.Some?) ==>
          s.shown != [] && Last(s.shown) == Last(s.received))
    && (forall p :: p in s.received && p < |s.produced| && s.produced[p].Stopped? ==> s.disconnected)
    && (s.disconnected ==> s.worker.Gone? || (s.produced != [] && s.produced[Newest(s)].Stopped?))
  }

  ghost predicate Inv<F>(s: State<F>) {
    Located(s) && Accounted(s) && Ordered(s) && Final(s) && NewestHere(s) && Presented(s)
  }

  lemma InitInv<F>()
    ensures Inv(Init<F>())
  {
    assert Init<F>().produced == [];
  }

  lemma LocatedStep<F>(s: State<F>, a: Action<F>)
    requires Inv(s) && Enabled(s, a)
    ensures Located(Apply(s, a))
  {
  }

  lemma PositionKept<F>(s: State<F>, a: Action<F>, p: nat)
    requires Located(s) && Accounted(s) && Enabled(s, a)
    ensures var t := Apply(s, a);
      p < |t.produced| <==> Held(t, p) || p in t.received || p in t.displaced
  {
    assert p < |s.produced| <==> Held(s, p) || p in s.received || p in s.displaced;
  }

  lemma AccountedStep<F>(s: State<F>, a: Action<F>)
    requires Inv(s) && Enabled(s, a)
    ensures Accounted(Apply(s, a))
  {
    hide Final, NewestHere, Presented, Increasing;
    var t := Apply(s, a);
    assert s.unsent == {} && Located(s);
    forall p: nat
      ensures p < |t.produced| <==> Held(t, p) || p in t.received || p in t.displaced
    {
      PositionKept(s, a, p);
    }
  }

  lemma OrderedStep<F>(s: State<F>, a: Action<F>)
    requires Inv(s) && Enabled(s, a)
    ensures Ordered(Apply(s, a))
  {
    hide Final, NewestHere, Presented;
    var t := Apply(s, a);
    forall p | p in t.received
      ensures p <= Newest(t) && (t.queue.Some? ==> p < t.queue.value) && (Sending(t) ==> p < Newest(t))
    {
      assert p in s.received || s.queue == Some(p);
    }
    if a.Receive? && s.queue.Some? {
      forall i | 0 <= i < |s.received|
        ensures s.received[i] < s.queue.value
      {
        assert s.received[i] in s.received;
      }
    }
  }

  lemma FinalStep<F>(s: State<F>, a: Action<F>)
    requires Inv(s) && Enabled(s, a)
    ensures Final(Apply(s, a))
  {
    hide NewestHere, Presented, Ordered, Accounted;
  }

  lemma NewestHereStep<F>(s: State<F>, a: Action<F>)
    requires Inv(s) && Enabled(s, a)
    ensures NewestHere(Apply(s, a))
  {
    hide Final, Presented;
    if s.received != [] {
      assert Last(s.received) in s.received;
    }
  }

  /** Receiving a frame moves the presentation forward. */
  lemma FrameReceived<F>(s: State<F>)
    requires Inv(s) && s.draining && s.queue.Some? && s.produced[s.queue.value].Frame?
    ensures Presented(Apply(s, Receive))
  {
    hide Final, NewestHere, Accounted;
    if s.shown != [] {
      assert Last(s.shown) in s.shown;
    }
  }

  /** A drain that finds the queue empty while the worker lives shows its latest frame. */
  lemma FrameShown<F>(s: State<F>)
    requires Inv(s) && s.draining && s.queue.None? && !s.worker.Gone?
    ensures Presented(Apply(s, Receive))
  {
    hide Accounted, NewestHere, Ordered, Final;
    if s.latest.Some? {
      assert Last(s.received) in s.received;
      forall i | 0 <= i < |s.shown|
        ensures s.shown[i] < s.latest.value
      {
        assert s.shown[i] <= Last(s.shown);
      }
    }
  }

  /** The worker's steps and the flags present nothing. */
  lemma NothingReceived<F>(s: State<F>, a: Action<F>)
    requires Inv(s) && Enabled(s, a) && !a.Receive?
    ensures Presented(Apply(s, a))
  {
    hide Accounted, NewestHere, Increasing;
  }

  lemma PresentedStep<F>(s: State<F>, a: Action<F>)
    requires Inv(s) && Enabled(s, a)
    ensures Presented(Apply(s, a))
  {
    hide Accounted, NewestHere;
    if !a.Receive? {
      NothingReceived(s, a);
    } else if s.queue.Some? && s.produced[s.queue.value].Frame? {
      FrameReceived(s);
    } else if s.queue.None? && !s.worker.Gone? {
      FrameShown(s);
    }
  }

  /** Every step of the worker and of the frontend, in any interleaving, keeps the invariant. */
  lemma StepInv<F>(s: State<F>, a: Action<F>)
    requires Inv(s) && Enabled(s, a)
    ensures Inv(Apply(s, a))
  {
    LocatedStep(s, a);
    AccountedStep(s, a);
    OrderedStep(s, a);
    FinalStep(s, a);
    NewestHereStep(s, a);
    PresentedStep(s, a);
  }

  // ----- Whole runs -----

  ghost predicate Reaches<F>(s: State<F>, actions: seq<Action<F>>, t: State<F>)
    decreases |actions|
  {
    if actions == [] then s == t
    else Enabled(s, actions[0]) && Located(s) && Reaches(Apply(s, actions[0]), actions[1..], t)
  }

  lemma {:induction false} RunInv<F>(s: State<F>, actions: seq<Action<F>>, t: State<F>)
    requires Inv(s) && Reaches(s, actions, t)
    ensures Inv(t)
    decreases |actions|
  {
    hide Inv;
    if actions != [] {
      StepInv(s, actions[0]);
      RunInv(Apply(s, actions[0]), actions[1..], t);
    }
  }

  ghost predicate Reachable<F(!new)>(t: State<F>) {
    exists actions :: Reaches(Init(), actions, t)
  }

  lemma ReachableInv<F(!new)>(t: State<F>)
    requires Reachable(t)
    ensures Inv(t)
  {
    var actions :| Reaches(Init(), actions, t);
    InitInv<F>();
    RunInv(Init(), actions, t);
  }

  /** The second attempt always finds room, so no event is ever dropped for want of it. */
  lemma RetryFindsRoom<F(!new)>(t: State<F>)
    requires Reachable(t)
    ensures t.worker.Retrying? ==> t.queue == None
    ensures t.unsent == {}
  {
    ReachableInv(t);
  }

  /**
   * Every produced event is held, received or displaced, and only one of these. A displaced one is
   * a frame with a newer event behind it; the final event is never displaced.
   */
  lemma NothingLost<F(!new)>(t: State<F>, p: nat)
    requires Reachable(t) && p < |t.produced|
    ensures Held(t, p) || p in t.received || p in t.displaced
    ensures !(Held(t, p) && p in t.received) && !(Held(t, p) && p in t.displaced) && !(p in t.received && p in t.displaced)
    ensures p in t.displaced ==> t.produced[p].Frame? && p + 1 < |t.produced|
    ensures t.produced[p].Stopped? ==> p == Newest(t) && (Held(t, p) || p in t.received)
  {
    ReachableInv(t);
  }

  /** The frontend receives, and shows, an in-order subsequence of what was produced. */
  lemma ReceivedInOrder<F(!new)>(t: State<F>)
    requires Reachable(t)
    ensures Increasing(t.received) && Increasing(t.shown)
    ensures forall p :: p in t.received ==> p < |t.produced|
    ensures forall p :: p in t.shown ==> p in t.received && t.produced[p].Frame?
  {
    ReachableInv(t);
  }

  /** Unless the worker is in the middle of sending, the newest event is queued or the last received. */
  lemma NewestKept<F(!new)>(t: State<F>)
    requires Reachable(t) && t.produced != [] && !Sending(t)
    ensures t.queue == Some(|t.produced| - 1) || (t.received != [] && Last(t.received) == |t.produced| - 1)
  {
    ReachableInv(t);
  }

  /**
   * A drain that ends while the worker is not sending returns the newest frame produced so far, or
   * nothing when the newest one was already shown by an earlier drain.
   */
  lemma DrainIsFresh<F(!new)>(t: State<F>)
    requires Reachable(t) && Located(t) && t.draining && t.produced != [] && !Sending(t)
    requires ReplyTo(t, Receive).Some? && ReplyTo(t, Receive).value.Latest?
    ensures ReplyTo(t, Receive) == Some(Latest(Some(|t.produced| - 1)))
         || (ReplyTo(t, Receive) == Some(Latest(None)) && t.shown != [] && Last(t.shown) == |t.produced| - 1)
  {
    ReachableInv(t);
  }

  /** A drain says that the stream stopped only when it has, and unless asked to stop, the worker said so. */
  lemma StopIsGenuine<F(!new)>(t: State<F>, a: Action<F>)
    requires Reachable(t) && Located(t) && Enabled(t, a) && ReplyTo(t, a) == Some(StreamStopped)
    ensures t.worker.Gone? || (t.produced != [] && t.produced[Newest(t)].Stopped?)
    ensures !t.stopping ==> t.produced != [] && t.produced[Newest(t)].Stopped?
  {
    ReachableInv(t);
  }

  /** Once the worker has ended, a drain reports it after receiving at most one leftover event. */
  lemma EndIsReported<F(!new)>(t: State<F>)
    requires Reachable(t) && t.worker.Gone? && t.draining
    ensures Located(t) && Located(Apply(t, Receive))
    ensures ReplyTo(t, Receive) == Some(StreamStopped)
         || (ReplyTo(t, Receive) == None && Apply(t, Receive).draining && ReplyTo(Apply(t, Receive), Receive) == Some(StreamStopped))
  {
    ReachableInv(t);
  }

  /** After that, every later drain reports it at once, whatever else happens. */
  lemma {:induction false} EndIsPermanent<F>(s: State<F>, actions: seq<Action<F>>, t: State<F>)
    requires Inv(s) && s.disconnected && Reaches(s, actions, t)
    ensures Located(t) && t.disconnected && !t.draining && ReplyTo(t, BeginDrain) == Some(StreamStopped) && t.shown == s.shown
    decreases |actions|
  {
    if actions == [] {
      assert Presented(s);
    } else {
      var next := Apply(s, actions[0]);
      StepInv(s, actions[0]);
      assert next.disconnected && next.shown == s.shown by {
        assert Presented(s);
      }
      EndIsPermanent(next, actions[1..], t);
    }
  }

  // ----- The two operations on the queue itself -----

  class Channel<T> {
    var slot: Option<T>

    constructor ()
      ensures slot == None
    {
      slot := None;
    }

    method TrySend(event: T) returns (sent: bool)
      modifies this
      ensures sent == old(slot).None?
      ensures slot == if sent then Some(event) else old(slot)
    {
      sent := slot.None?;
      if sent {
        slot := Some(event);
      }
    }

    method TryRecv() returns (event: Option<T>)
      modifies this
      ensures event == old(slot) && slot == None
    {
      event := slot;
      slot := None;
    }

    /**
     * Sends the newest event; `taken1` and `taken2` say whether the frontend empties the queue before
     * the stale event is taken and before the second attempt. The event is always queued, and what was
     * queued went to exactly one side.
     */
    method SendLatest(event: T, taken1: bool, taken2: bool)
      returns (toFrontend: Option<T>, stale: Option<T>)
      modifies this
      ensures slot == Some(event)
      ensures old(slot).None? ==> toFrontend == None && stale == None
      ensures old(slot).Some? ==> (toFrontend, stale) == if taken1 then (old(slot), None) else (None, old(slot))
    {
      toFrontend, stale := None, None;
      var sent := TrySend(event);
      if !sent {
        if taken1 {
          toFrontend := TryRecv();
        }
        stale := TryRecv();
        if taken2 {
          var nothing := TryRecv();
          assert nothing == None;
        }
        sent := TrySend(event);
      }
    }
  }

  datatype Poll<F> = Got(event: Event<F>) | Empty | Disconnected

  datatype Drained<F> = Spectrum(latest: Option<F>) | Ended

  /** A receive outcome that lets the draining loop go on. */
  predicate GoesOn<F>(p: Poll<F>) { p.Got? && p.event.Frame? }

  class SpectrumStream<F> {
    var disconnected: bool

    constructor ()
      ensures !disconnected
    {
      disconnected := false;
    }

    /**
     * Receives until the queue is empty or the stream has ended; `polls` are the outcomes up to the
     * first that ends the loop. Nothing is received from a stream known to have ended.
     */
    method DrainLatest(polls: seq<Poll<F>>) returns (r: Drained<F>)
      requires polls != [] && !GoesOn(polls[|polls| - 1])
      requires forall i :: 0 <= i < |polls| - 1 ==> GoesOn(polls[i])
      modifies this
      ensures disconnected == (old(disconnected) || !polls[|polls| - 1].Empty?)
      ensures disconnected ==> r == Ended
      ensures !disconnected && |polls| == 1 ==> r == Spectrum(None)
      ensures !disconnected && |polls| > 1 ==>
        exists spectrum :: polls[|polls| - 2] == Got(Frame(spectrum)) && r == Spectrum(Some(spectrum))
    {
      if disconnected {
        return Ended;
      }
      var latest := None;
      var i := 0;
      while i < |polls|
        invariant 0 <= i < |polls| && disconnected == old(disconnected)
        invariant forall k :: 0 <= k < i ==> GoesOn(polls[k])
        invariant i == 0 ==> latest == None
        invariant i > 0 ==> latest.Some? && polls[i - 1] == Got(Frame(latest.value))
      {
        match polls[i] {
          case Got(Frame(spectrum)) =>
            latest := Some(spectrum);
          case Empty =>
            return Spectrum(latest);
          case _ =>
            disconnected := true;
            return Ended;
        }
        i := i + 1;
      }
      r := Ended;
    }
  }
}
