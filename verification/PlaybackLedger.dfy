/**
 The mutex-protected part of the original-byte playback cache: which blocks are
 missing, being fetched or ready, and the three critical sections that change it.

 Each section is a method of `SharedState` with a specification function beside it;
 the interleaving model uses the specification functions as its atomic steps.
 */
module PlaybackLedger {
  import opened Basics

  const BLOCK_BYTES: nat := 1024 * 1024
  const MAX_FETCHES: nat := 2

  datatype BlockState = Missing | Fetching | Ready

  /** Validators of one exact effective URL. */
  datatype Identity = Identity(url: Url, etag: string, length: nat, contentType: string)

  datatype Ledger = Ledger(
    identity: Option<Identity>,
    initializing: bool,
    disabled: bool,
    blocks: seq<BlockState>,
    fetching: nat,
    reservation: Option<nat>)

  /** What an elected thread was asked to fetch; no expectation means the first request. */
  datatype Job = Job(target: nat, expected: Option<Identity>)

  /** Outcome of one pass of the `block` loop under the state lock. */
  datatype Verdict = Refuse | Serve(identity: Identity) | Fetch(job: Job) | Wait

  /** The number of blocks covering `length` bytes. */
  function BlockCount(length: nat): nat {
    (length + BLOCK_BYTES - 1) / BLOCK_BYTES
  }

  const EMPTY := Ledger(None, false, false, [], 0, None)

  function Decide(s: Ledger, index: nat): Verdict {
    var initialize := s.identity.None? && !s.initializing;
    var known := index < |s.blocks|;
    if s.disabled then Refuse
    else if known && s.blocks[index].Ready? then
      if s.identity.Some? then Serve(s.identity.value) else Refuse
    else if initialize then Fetch(Job(0, None))
    else if s.identity.Some? && known && s.blocks[index].Missing? && s.fetching < MAX_FETCHES then
      Fetch(Job(index, s.identity))
    else if s.identity.Some? && index >= |s.blocks| then Refuse
    else Wait
  }

  function AfterElection(s: Ledger, job: Job): Ledger
    requires job.expected.Some? ==> job.target < |s.blocks|
  {
    if job.expected.None? then s.(initializing := true, fetching := s.fetching + 1)
    else s.(blocks := s.blocks[job.target := Fetching], fetching := s.fetching + 1)
  }

  /** Success is kept only when the cache is neither disabled nor stopped. */
  ghost predicate Kept(s: Ledger, outcome: Option<Identity>, stopped: bool) {
    outcome.Some? && !s.disabled && !stopped
  }

  ghost function Settled(s: Ledger, job: Job, outcome: Option<Identity>, stopped: bool): Ledger
    requires 0 < s.fetching
    requires Kept(s, outcome, stopped) ==>
      job.target < if job.expected.None? then BlockCount(outcome.value.length) else |s.blocks|
  {
    var s0 := s.(fetching := s.fetching - 1,
                 initializing := if job.expected.None? then false else s.initializing);
    if !Kept(s, outcome, stopped) then s0.(disabled := true)
    else if job.expected.None? then
      s0.(identity := outcome,
          blocks := seq(BlockCount(outcome.value.length), i => if i == job.target then Ready else Missing))
    else s0.(blocks := s0.blocks[job.target := Ready])
  }

  ghost predicate Complete(s: Ledger, stopped: bool) {
    && !stopped && !s.disabled && s.blocks != []
    && forall i :: 0 <= i < |s.blocks| ==> s.blocks[i] == Ready
  }

  /** The state behind the mutex. Each method is one critical section. */
  class SharedState {
    var identity: Option<Identity>
    var initializing: bool
    var disabled: bool
    var blocks: seq<BlockState>
    var fetching: nat
    var reservation: Option<nat>

    ghost function View(): Ledger
      reads this
    {
      Ledger(identity, initializing, disabled, blocks, fetching, reservation)
    }

    constructor ()
      ensures View() == EMPTY
    {
      identity := None;
      initializing := false;
      disabled := false;
      blocks := [];
      fetching := 0;
      reservation := None;
    }

    /** One locked pass of the `block` loop: serve, refuse, wait, or elect this thread. */
    method Poll(index: nat) returns (v: Verdict)
      modifies this
      ensures v == Decide(old(View()), index)
      ensures View() == if v.Fetch? then AfterElection(old(View()), v.job) else old(View())
    {
      if disabled {
        return Refuse;
      }
      var initialize := identity.None? && !initializing;
      if index < |blocks| && blocks[index] == Ready {
        if identity.None? {
          return Refuse;
        }
        return Serve(identity.value);
      }
      var canFetch := identity.Some? && index < |blocks| && blocks[index] == Missing && fetching < MAX_FETCHES;
      if initialize || canFetch {
        var target := if initialize then 0 else index;
        v := Fetch(Job(target, identity));
        if initialize {
          initializing := true;
        } else {
          blocks := blocks[target := Fetching];
        }
        fetching := fetching + 1;
        return;
      }
      if identity.Some? && index >= |blocks| {
        return Refuse;
      }
      v := Wait;
    }

    /** Stores the budget reservation made by the initializing thread. */
    method Attach(length: nat)
      modifies this`reservation
      ensures View() == old(View()).(reservation := Some(length))
    {
      reservation := Some(length);
    }

    /** The section after a fetch: publish the block, or disable the cache for good. */
    method Settle(job: Job, outcome: Option<Identity>, stopped: bool)
      requires 0 < fetching
      requires Kept(View(), outcome, stopped) ==>
        job.target < if job.expected.None? then BlockCount(outcome.value.length) else |blocks|
      modifies this
      ensures View() == Settled(old(View()), job, outcome, stopped)
    {
      fetching := fetching - 1;
      if job.expected.None? {
        initializing := false;
      }
      if outcome.Some? && !disabled && !stopped {
        if job.expected.None? {
          blocks := seq(BlockCount(outcome.value.length), _ => Missing);
          identity := outcome;
        }
        blocks := blocks[job.target := Ready];
        assert job.expected.None? ==>
          blocks == seq(BlockCount(outcome.value.length), i => if i == job.target then Ready else Missing);
      } else {
        disabled := true;
      }
    }

    /** The length leased to a caller, only once every block is ready. */
    method Completed(stopped: bool) returns (length: Option<nat>)
      ensures length.Some? <==> Complete(View(), stopped) && identity.Some?
      ensures length.Some? ==> length.value == identity.value.length
    {
      if stopped || disabled || |blocks| == 0 {
        return None;
      }
      var i := 0;
      while i < |blocks|
        invariant 0 <= i <= |blocks|
        invariant forall k :: 0 <= k < i ==> blocks[k] == Ready
      {
        if blocks[i] != Ready {
          return None;
        }
        i := i + 1;
      }
      if identity.None? {
        return None;
      }
      length := Some(identity.value.length);
    }
  }
}
