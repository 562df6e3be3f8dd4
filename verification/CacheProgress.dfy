/**
 * Progress of the playback cache: in no run do fetches take more than a fixed number of steps for
 * each block; and from every reachable state in which nothing has failed, whatever its clients are
 * in the middle of, some run completes the file.
 */
module CacheProgress {
  import opened Basics
  import opened PlaybackLedger
  import opened CacheProtocol
  import opened CacheSafety
  import CacheBudget
  import CacheInvariant

  /** Some run leads from one state to another. */
  ghost predicate Leads(o: Origin, c: Cache, d: Cache) {
    exists cs, acts :: Run(o, cs, acts) && cs[0] == c && cs[|acts|] == d
  }

  lemma LeadsNowhere(o: Origin, c: Cache)
    ensures Leads(o, c, c)
  {
    var acts: seq<Action> := [];
    assert Run(o, [c], acts) && [c][0] == c && [c][|acts|] == c;
  }

  lemma LeadsOn(o: Origin, c: Cache, d: Cache, a: Action)
    requires Leads(o, c, d) && Enabled(o, d, a)
    ensures Leads(o, c, Apply(o, d, a))
  {
    hide Enabled, Apply;
    var cs, acts :| Run(o, cs, acts) && cs[0] == c && cs[|acts|] == d;
    var cs', acts' := cs + [Apply(o, d, a)], acts + [a];
    assert Run(o, cs', acts') && cs'[0] == c && cs'[|acts'|] == Apply(o, d, a);
  }

  // ----- A bound on the fetching in every run -----

  /** The steps of one fetch: ten, and at most one write for each byte of a block. */
  const FETCH_STEPS: nat := BLOCK_BYTES + 10

  /** The steps a fetch in this phase can still take. */
  function Remaining(p: Phase): nat {
    match p
    case Elected(_) => BLOCK_BYTES + 9
    case Downloading(_) => BLOCK_BYTES + 8
    case Downloaded(_, _, bytes) => |bytes| + 7
    case Cleared(_, _, bytes) => |bytes| + 6
    case Charged(_, _, bytes) => |bytes| + 5
    case Locked(_, _, bytes) => |bytes| + 4
    case Admitted(_, _, bytes) => |bytes| + 3
    case Opened(_, _, bytes, written) => if written <= |bytes| then |bytes| - written + 2 else 2
    case Finished(_, _) => 1
    case _ => 0
  }

  predicate FetchStep(a: Action) {
    a.Elect? || a.Checkout? || a.Download? || a.Clear? || a.Charge? || a.LockDisk? || a.Admit? || a.Open?
    || a.OpenUnsized? || a.Write? || a.Close? || a.Fail? || a.Settle?
  }

  function FetchSteps(acts: seq<Action>): nat {
    if acts == [] then 0
    else FetchSteps(acts[..|acts| - 1]) + if FetchStep(acts[|acts| - 1]) then 1 else 0
  }

  ghost function Work(clients: map<Tid, Phase>): map<Tid, nat> {
    map t | t in clients :: Remaining(clients[t])
  }

  ghost function TotalWork(c: Cache): nat {
    CacheBudget.Sum(Work(c.clients))
  }

  /** Moving one client changes the total by the change of what it can still do. */
  lemma WorkMoves(clients: map<Tid, Phase>, t: Tid, p: Phase)
    requires t in clients
    ensures CacheBudget.Sum(Work(clients[t := p])) + Remaining(clients[t]) == CacheBudget.Sum(Work(clients)) + Remaining(p)
  {
    hide Remaining;
    CacheBudget.SumWithout(Work(clients), t);
    CacheBudget.SumPut(Work(clients), t, Remaining(p));
    assert Work(clients[t := p]) == Work(clients)[t := Remaining(p)];
  }

  lemma BlockSize(o: Origin, job: Job, got: Identity, bytes: seq<Byte>)
    requires Accepted(o, job, got, bytes)
    ensures |bytes| <= BLOCK_BYTES
  {
  }

  /** A fetch step uses up at least one of the steps left; electing provides the whole allowance. */
  ghost predicate Paid(c: Cache, d: Cache, a: Action)
    requires FetchStep(a)
  {
    && a.t in c.clients && a.t in d.clients && d.clients == c.clients[a.t := d.clients[a.t]]
    && Remaining(d.clients[a.t]) + 1 <= Remaining(c.clients[a.t]) + (if a.Elect? then FETCH_STEPS else 0)
    && |d.elected| == |c.elected| + (if a.Elect? then 1 else 0)
  }

  lemma ObtainingPaid(o: Origin, c: Cache, a: Action)
    requires Enabled(o, c, a) && (a.Elect? || a.Checkout? || a.Download? || a.Clear? || a.Charge?)
    ensures Paid(c, Apply(o, c, a), a)
  {
    if a.Download? {
      BlockSize(o, c.clients[a.t].job, a.got, a.bytes);
    }
    hide Accepted, Decide, AfterElection;
  }

  lemma WritingPaid(o: Origin, c: Cache, a: Action)
    requires Enabled(o, c, a) && (a.LockDisk? || a.Admit? || a.Open? || a.OpenUnsized? || a.Write?)
    ensures Paid(c, Apply(o, c, a), a)
  {
    hide WriteAt;
  }

  lemma EndingPaid(o: Origin, c: Cache, a: Action)
    requires Enabled(o, c, a) && (a.Close? || a.Fail? || a.Settle?)
    ensures Paid(c, Apply(o, c, a), a)
  {
    hide Settled, Kept;
  }

  lemma FetchPaid(o: Origin, c: Cache, a: Action)
    requires Enabled(o, c, a) && FetchStep(a)
    ensures Paid(c, Apply(o, c, a), a)
  {
    hide Enabled, Apply, Paid;
    if a.Elect? || a.Checkout? || a.Download? || a.Clear? || a.Charge? {
      ObtainingPaid(o, c, a);
    } else if a.Close? || a.Fail? || a.Settle? {
      EndingPaid(o, c, a);
    } else {
      WritingPaid(o, c, a);
    }
  }

  predicate ReadStep(a: Action) {
    a.ReadStart? || a.ReadLock? || a.ReadAdmit? || a.ReadDone? || a.ReadFail?
  }

  lemma ReadEffect(o: Origin, c: Cache, a: Action)
    requires Enabled(o, c, a) && ReadStep(a)
    ensures var d := Apply(o, c, a);
      && d.elected == c.elected
      && a.t in c.clients && a.t in d.clients && d.clients == c.clients[a.t := d.clients[a.t]]
      && Remaining(c.clients[a.t]) == Remaining(d.clients[a.t]) == 0
  {
    hide Decide;
  }

  lemma OutsideEffect(o: Origin, c: Cache, a: Action)
    requires Enabled(o, c, a) && !FetchStep(a) && !ReadStep(a)
    ensures var d := Apply(o, c, a);
      && d.elected == c.elected
      && d.clients == if a.Connect? then c.clients[a.t := Idle] else if a.Disconnect? then c.clients - {a.t} else c.clients
    ensures a.Connect? ==> a.t !in c.clients
    ensures a.Disconnect? ==> a.t in c.clients && c.clients[a.t].Idle?
  {
    hide Decide, Complete;
  }

  lemma IdleRemains()
    ensures Remaining(Idle) == 0
  {
  }

  /** Other steps move, add or remove only clients that are not fetching. */
  lemma OtherEffect(o: Origin, c: Cache, a: Action)
    requires Enabled(o, c, a) && !FetchStep(a)
    ensures Apply(o, c, a).elected == c.elected
    ensures TotalWork(Apply(o, c, a)) == TotalWork(c)
  {
    var d := Apply(o, c, a);
    hide Enabled, Apply, Remaining;
    if ReadStep(a) {
      ReadEffect(o, c, a);
      WorkMoves(c.clients, a.t, d.clients[a.t]);
    } else {
      OutsideEffect(o, c, a);
      IdleRemains();
      if a.Connect? {
        assert Work(d.clients) - {a.t} == Work(c.clients);
        CacheBudget.SumWithout(Work(d.clients), a.t);
      } else if a.Disconnect? {
        CacheBudget.SumWithout(Work(c.clients), a.t);
        assert Work(c.clients) - {a.t} == Work(d.clients);
      }
    }
  }

  /** At every moment of every run, the steps taken and still to be taken are paid for by elections. */
  lemma {:induction false} WorkPaid(o: Origin, cs: seq<Cache>, acts: seq<Action>, i: nat)
    requires History(o, cs, acts) && i <= |acts|
    ensures FetchSteps(acts[..i]) + TotalWork(cs[i]) <= FETCH_STEPS * |cs[i].elected|
    decreases i
  {
    hide Enabled, Apply, Remaining;
    if i == 0 {
      assert Work(START.clients) == map[];
    } else {
      WorkPaid(o, cs, acts, i - 1);
      var c, a := cs[i - 1], acts[i - 1];
      assert acts[..i][..i - 1] == acts[..i - 1];
      if FetchStep(a) {
        FetchPaid(o, c, a);
        WorkMoves(c.clients, a.t, cs[i].clients[a.t]);
      } else {
        OtherEffect(o, c, a);
      }
    }
  }

  function Below(n: nat): (r: set<nat>)
    ensures |r| == n && forall x: nat :: x in r <==> x < n
  {
    if n == 0 then {} else Below(n - 1) + {n - 1}
  }

  function Elements(s: seq<nat>): (r: set<nat>)
    ensures forall x :: x in r <==> x in s
  {
    if s == [] then {}
    else
      assert s == s[..|s| - 1] + [s[|s| - 1]];
      Elements(s[..|s| - 1]) + {s[|s| - 1]}
  }

  lemma {:induction false} DistinctElements(s: seq<nat>)
    requires forall i, j :: 0 <= i < j < |s| ==> s[i] != s[j]
    ensures |Elements(s)| == |s|
  {
    if s != [] {
      DistinctElements(s[..|s| - 1]);
    }
  }

  lemma DistinctBelow(s: seq<nat>, n: nat)
    requires forall i :: 0 <= i < |s| ==> s[i] < n
    requires forall i, j :: 0 <= i < j < |s| ==> s[i] != s[j]
    ensures |s| <= n
  {
    DistinctElements(s);
    SubsetSize(Elements(s), Below(n));
  }

  /**
   In every run the fetches of a cache take together at most a fixed number of steps for each block
   of the file, and before the file is identified at most those of one fetch.
   */
  lemma FetchingBounded(o: Origin, cs: seq<Cache>, acts: seq<Action>, i: nat)
    requires History(o, cs, acts) && i <= |acts|
    ensures var blocks := if cs[i].ledger.identity.None? then 1 else BlockCount(cs[i].ledger.identity.value.length);
      |cs[i].elected| <= blocks && FetchSteps(acts[..i]) <= FETCH_STEPS * blocks
  {
    hide Inv, Enabled, Apply;
    WorkPaid(o, cs, acts, i);
    Reached(o, cs, acts, i);
    ElectionsBounded(o, cs[i]);
  }

  lemma ElectionsBounded(o: Origin, c: Cache)
    requires Inv(o, c)
    ensures |c.elected| <= if c.ledger.identity.None? then 1 else BlockCount(c.ledger.identity.value.length)
  {
    hide JobsInv, NoOrphans, CountInv, DiskInv, FileInv, PhasesInv, Known;
    if c.ledger.identity.None? {
      assert forall j :: 0 <= j < |c.elected| ==> c.elected[j] < 1;
      DistinctBelow(c.elected, 1);
    } else {
      DistinctBelow(c.elected, |c.ledger.blocks|);
    }
  }

  // ----- From every state in which nothing has failed, the file can be completed -----

  /** Neither stopped nor disabled, and no fetch in flight has failed. */
  ghost predicate Sound(c: Cache) {
    !c.stop && !c.ledger.disabled && forall t :: t in c.clients && c.clients[t].Finished? ==> c.clients[t].outcome.Some?
  }

  /** Somebody can still ask. */
  predicate Alive(c: Cache) { c.listening || c.clients != map[] }

  /** The payload exists before the file is identified only while the initializing thread is past creating it. */
  ghost predicate FreshFile(c: Cache) {
    c.ledger.identity.None? && !c.ledger.disabled && c.file.Some? ==>
      exists t :: t in c.clients && (c.clients[t].Opened? || c.clients[t].Finished?)
  }

  lemma FreshFileStep(o: Origin, c: Cache, a: Action)
    requires Inv(o, c) && FreshFile(c) && Enabled(o, c, a)
    ensures FreshFile(Apply(o, c, a))
  {
    var d := Apply(o, c, a);
    if a.Settle? {
      hide LedgerInv, NoOrphans, CountInv, DiskInv, FileInv, PhasesInv, HistoryInv;
      CacheInvariant.JobKnown(c, a.t);
    } else if d.ledger.identity.None? && !d.ledger.disabled && d.file.Some? {
      if a.Open? || a.OpenUnsized? {
        assert d.clients[a.t].Opened? || d.clients[a.t].Finished?;
      } else {
        hide Apply, Enabled;
        FileKept(o, c, a);
        var t :| t in c.clients && (c.clients[t].Opened? || c.clients[t].Finished?);
        assert t in d.clients && (d.clients[t].Opened? || d.clients[t].Finished?);
      }
    }
  }

  lemma FileKept(o: Origin, c: Cache, a: Action)
    requires Enabled(o, c, a) && !a.Settle? && !a.Open? && !a.OpenUnsized?
    ensures var d := Apply(o, c, a);
      && (d.file.Some? ==> c.file.Some?)
      && d.ledger.identity == c.ledger.identity && d.ledger.disabled == c.ledger.disabled
      && forall t :: t in c.clients && (c.clients[t].Opened? || c.clients[t].Finished?) ==>
           t in d.clients && (d.clients[t].Opened? || d.clients[t].Finished?)
  {
    hide Accepted, Decide, Complete, WriteAt;
  }

  // The measure of what is left to do, most significant part first.

  function Unidentified(c: Cache): nat { if c.ledger.identity.None? then 1 else 0 }

  function MissingOf(blocks: seq<BlockState>): set<nat> {
    set i: nat | i < |blocks| && blocks[i] == Missing
  }

  function ToElect(c: Cache): nat {
    if c.ledger.identity.Some? then |MissingOf(c.ledger.blocks)| else if c.ledger.initializing then 0 else 1
  }

  predicate Reading(p: Phase) { p.ReadWaiting? || p.ReadLocked? || p.ReadAdmitted? }

  ghost function Readers(c: Cache): set<Tid> {
    set t | t in c.clients && Reading(c.clients[t])
  }

  function Deserted(c: Cache): nat { if c.clients == map[] then 1 else 0 }

  ghost predicate Shrinks(c: Cache, d: Cache) {
    || Unidentified(d) < Unidentified(c)
    || (Unidentified(d) == Unidentified(c)
        && (|| ToElect(d) < ToElect(c)
            || (ToElect(d) == ToElect(c)
                && (|| TotalWork(d) < TotalWork(c)
                    || (TotalWork(d) == TotalWork(c)
                        && (|| |Readers(d)| < |Readers(c)|
                            || (|Readers(d)| == |Readers(c)| && Deserted(d) < Deserted(c))))))))
  }

  /** What has been downloaded so far, if anything, is of this identity. */
  predicate Brings(p: Phase, id: Identity) {
    match p
    case Downloaded(_, got, _) => got == id
    case Cleared(_, got, _) => got == id
    case Charged(_, got, _) => got == id
    case Locked(_, got, _) => got == id
    case Admitted(_, got, _) => got == id
    case Opened(_, got, _, _) => got == id
    case Finished(_, outcome) => outcome.None? || outcome.value == id
    case _ => true
  }

  /** The cache has identified this representation, or is open to it. */
  ghost predicate Expects(c: Cache, id: Identity) {
    if c.ledger.identity.Some? then c.ledger.identity.value == id
    else forall t :: t in c.clients ==> Brings(c.clients[t], id)
  }

  /** A step forward that spoils nothing. */
  ghost predicate Advances(o: Origin, id: Identity, c: Cache, a: Action) {
    && Enabled(o, c, a)
    && var d := Apply(o, c, a);
    Sound(d) && Alive(d) && Shrinks(c, d) && (Expects(c, id) ==> Expects(d, id))
  }

  /** Moving one client to a phase that has not failed. */
  lemma MovedWell(id: Identity, c: Cache, d: Cache, t: Tid)
    requires Sound(c) && t in c.clients && t in d.clients && d.clients == c.clients[t := d.clients[t]]
    requires d.stop == c.stop && d.ledger.disabled == c.ledger.disabled && d.ledger.identity == c.ledger.identity
    requires d.clients[t].Finished? ==> d.clients[t].outcome.Some?
    requires c.ledger.identity.None? && Brings(c.clients[t], id) ==> Brings(d.clients[t], id)
    ensures Sound(d) && Alive(d) && (Expects(c, id) ==> Expects(d, id))
  {
    hide Brings;
  }

  /** The steps of a fetch that goes well, between election and publication. */
  predicate GoesOn(a: Action) {
    a.Checkout? || a.Download? || a.Clear? || a.Charge? || a.LockDisk? || a.Admit? || a.Open? || a.Write? || a.Close?
  }

  lemma GoesWell(o: Origin, id: Identity, c: Cache, a: Action)
    requires Enabled(o, c, a) && GoesOn(a) && (a.Download? && c.ledger.identity.None? ==> a.got == id)
    ensures var d := Apply(o, c, a);
      && a.t in c.clients && a.t in d.clients
      && (d.clients[a.t].Finished? ==> d.clients[a.t].outcome.Some?)
      && (c.ledger.identity.None? && Brings(c.clients[a.t], id) ==> Brings(d.clients[a.t], id))
  {
    hide Accepted, WriteAt;
  }

  /** A step inside one fetch. */
  lemma FetchAdvances(o: Origin, id: Identity, c: Cache, a: Action)
    requires Inv(o, c) && Sound(c) && Enabled(o, c, a) && GoesOn(a)
    requires a.Download? && c.ledger.identity.None? ==> a.got == id
    ensures Advances(o, id, c, a)
  {
    hide Inv, Apply, Enabled, Remaining, Brings, Sound, Alive, Expects, TotalWork;
    var d := Apply(o, c, a);
    FetchPaid(o, c, a);
    GoesWell(o, id, c, a);
    StepKeepsLedger(o, c, a);
    StopKept(o, c, a);
    MovedWell(id, c, d, a.t);
    LessWork(c, d, a.t);
  }

  lemma LessWork(c: Cache, d: Cache, t: Tid)
    requires t in c.clients && t in d.clients && d.clients == c.clients[t := d.clients[t]]
    requires Remaining(d.clients[t]) < Remaining(c.clients[t])
    ensures TotalWork(d) < TotalWork(c)
  {
    hide Remaining;
    WorkMoves(c.clients, t, d.clients[t]);
  }

  lemma StopKept(o: Origin, c: Cache, a: Action)
    requires Enabled(o, c, a) && FetchStep(a)
    ensures Apply(o, c, a).stop == c.stop
  {
    hide Accepted, Decide, WriteAt, AfterElection, Settled;
  }

  /** The client inside the disk section goes on, or if it is a reader, leaves. */
  lemma DiskMove(o: Origin, id: Identity, c: Cache) returns (a: Action)
    requires Inv(o, c) && FreshFile(c) && Sound(c) && c.disk.Some?
    ensures Advances(o, id, c, a)
  {
    var t := c.disk.value;
    DiskHolder(o, c);
    SimplyReady(o, c, t);
    hide Inv, Advances, PhaseOk, FreshFile, Apply, Enabled, Remaining, Brings;
    match c.clients[t]
    case Locked(_, _, _) =>
      a := Admit(t);
      FetchAdvances(o, id, c, a);
    case Admitted(job, _, _) =>
      a := Open(t);
      OpenReady(o, c, t);
      FetchAdvances(o, id, c, a);
    case Opened(job, got, bytes, written) =>
      a := if written < |bytes| then Write(t, |bytes| - written) else Close(t);
      WriteReady(o, c, t);
      FetchAdvances(o, id, c, a);
    case _ =>
      a := ReadFail(t);
      ReaderLeaves(o, id, c, t);
  }

  lemma DiskHolder(o: Origin, c: Cache)
    requires Inv(o, c) && c.disk.Some?
    ensures c.disk.value in c.clients && OnDisk(c.clients[c.disk.value]) && PhaseOk(o, c, c.clients[c.disk.value])
  {
    hide LedgerInv, JobsInv, NoOrphans, CountInv, FileInv, HistoryInv, PhaseOk;
  }

  lemma OpenReady(o: Origin, c: Cache, t: Tid)
    requires Inv(o, c) && FreshFile(c) && Sound(c) && t in c.clients && c.clients[t].Admitted?
    ensures Enabled(o, c, Open(t))
  {
    hide NoOrphans, CountInv, PhasesInv, HistoryInv;
    CacheInvariant.JobKnown(c, t);
    forall u | u in c.clients && (c.clients[u].Opened? || c.clients[u].Finished?)
      ensures u in Flying(c)
    {
    }
  }

  lemma WriteReady(o: Origin, c: Cache, t: Tid)
    requires t in c.clients && c.clients[t].Opened? && PhaseOk(o, c, c.clients[t])
    ensures var p := c.clients[t];
      if p.written < |p.bytes| then Enabled(o, c, Write(t, |p.bytes| - p.written)) else Enabled(o, c, Close(t))
  {
  }

  lemma ReaderLeaves(o: Origin, id: Identity, c: Cache, t: Tid)
    requires Sound(c) && t in c.clients && Reading(c.clients[t])
    ensures Advances(o, id, c, ReadFail(t))
  {
    var d := Apply(o, c, ReadFail(t));
    ReadEffect(o, c, ReadFail(t));
    OtherEffect(o, c, ReadFail(t));
    assert Readers(d) == Readers(c) - {t} && t in Readers(c);
    assert d.ledger == c.ledger;
  }

  /** With the disk free, a fetch in flight goes on. */
  lemma FlightMove(o: Origin, id: Identity, c: Cache, t: Tid) returns (a: Action)
    requires Inv(o, c) && Sound(c) && Known(o, id) && c.disk.None? && t in Flying(c)
    ensures Advances(o, id, c, a)
  {
    assert t in c.clients && InFlight(c.clients[t]) && !OnDisk(c.clients[t]);
    SimplyReady(o, c, t);
    hide Inv, Advances, Apply, Accepted, Known, Enabled;
    match c.clients[t]
    case Elected(_) =>
      a := Checkout(t);
      AgentFree(o, c, t);
      FetchAdvances(o, id, c, a);
    case Downloading(job) =>
      var got := if job.expected.None? then id else job.expected.value;
      BlockThere(o, id, c, t);
      a := Download(t, got, Block(o, got, job.target));
      FetchAdvances(o, id, c, a);
    case Downloaded(_, _, _) =>
      a := Clear(t);
      FetchAdvances(o, id, c, a);
    case Cleared(job, _, _) =>
      a := if job.expected.None? then Charge(t) else LockDisk(t);
      FetchAdvances(o, id, c, a);
    case Charged(_, _, _) =>
      a := LockDisk(t);
      FetchAdvances(o, id, c, a);
    case Finished(_, _) =>
      a := Action.Settle(t);
      SettleAdvances(o, id, c, t);
  }

  /** Steps that need nothing but the phase, a cache that has not stopped and a free disk. */
  lemma SimplyReady(o: Origin, c: Cache, t: Tid)
    requires t in c.clients && !c.stop
    ensures c.clients[t].Downloaded? ==> Enabled(o, c, Clear(t))
    ensures c.clients[t].Cleared? && c.clients[t].job.expected.None? ==> Enabled(o, c, Charge(t))
    ensures c.clients[t].Cleared? && c.clients[t].job.expected.Some? && c.disk.None? ==> Enabled(o, c, LockDisk(t))
    ensures c.clients[t].Charged? && c.disk.None? ==> Enabled(o, c, LockDisk(t))
    ensures c.clients[t].Locked? ==> Enabled(o, c, Admit(t))
  {
  }

  lemma AgentFree(o: Origin, c: Cache, t: Tid)
    requires Inv(o, c) && t in c.clients && c.clients[t].Elected?
    ensures Enabled(o, c, Checkout(t))
  {
    hide LedgerInv, JobsInv, NoOrphans, DiskInv, FileInv, PhasesInv, HistoryInv;
    SubsetSize(Leasing(c) + {t}, Flying(c));
  }

  ghost function Block(o: Origin, id: Identity, k: nat): (b: seq<Byte>)
    requires Known(o, id) && BlockStart(k) < id.length
    ensures BlockStart(k) + |b| <= id.length
  {
    Rep(o, id)[BlockStart(k)..BlockEnd(k, id.length)]
  }

  lemma BlocksCover(length: nat, k: nat)
    ensures BlockStart(k) < length <==> k < BlockCount(length)
  {
  }

  lemma BlockThere(o: Origin, id: Identity, c: Cache, t: Tid)
    requires Inv(o, c) && Known(o, id) && t in c.clients && c.clients[t].Downloading?
    ensures var job := c.clients[t].job;
      var got := if job.expected.None? then id else job.expected.value;
      && Known(o, got) && BlockStart(job.target) < got.length
      && Enabled(o, c, Download(t, got, Block(o, got, job.target)))
  {
    hide NoOrphans, CountInv, DiskInv, FileInv, PhasesInv, HistoryInv;
    CacheInvariant.JobKnown(c, t);
    var job := c.clients[t].job;
    if job.expected.Some? {
      BlocksCover(job.expected.value.length, job.target);
    }
  }

  lemma SettleReady(o: Origin, c: Cache, t: Tid)
    requires Inv(o, c) && Sound(c) && t in c.clients && c.clients[t].Finished?
    ensures Enabled(o, c, Action.Settle(t)) && Kept(c.ledger, c.clients[t].outcome, c.stop)
    ensures JobOk(c.ledger, c.clients[t].job)
  {
    hide NoOrphans, DiskInv, FileInv, HistoryInv;
    CacheInvariant.JobKnown(c, t);
    assert PhaseOk(o, c, c.clients[t]) && t in Flying(c);
    BlocksCover(c.clients[t].outcome.value.length, c.clients[t].job.target);
  }

  /** A finished fetch publishes its block. */
  lemma SettleAdvances(o: Origin, id: Identity, c: Cache, t: Tid)
    requires Inv(o, c) && Sound(c) && t in c.clients && c.clients[t].Finished?
    ensures Advances(o, id, c, Action.Settle(t))
  {
    var a := Action.Settle(t);
    SettleReady(o, c, t);
    FetchPaid(o, c, a);
    StopKept(o, c, a);
    SettleEffect(o, c, t);
    hide Inv, Apply, Enabled, Remaining, TotalWork, MissingOf, Settled, Kept, JobOk, Sound, Alive, Expects;
    SettledWell(id, c, Apply(o, c, a), t);
    LessWork(c, Apply(o, c, a), t);
  }

  lemma SettledWell(id: Identity, c: Cache, d: Cache, t: Tid)
    requires Sound(c) && t in c.clients && c.clients[t].Finished? && t in d.clients && d.clients[t].Idle?
    requires d.clients == c.clients[t := d.clients[t]] && d.stop == c.stop && !d.ledger.disabled
    requires d.ledger.identity == if c.ledger.identity.Some? then c.ledger.identity else c.clients[t].outcome
    ensures Sound(d) && Alive(d) && (Expects(c, id) ==> Expects(d, id))
  {
  }

  lemma SettleEffect(o: Origin, c: Cache, t: Tid)
    requires Enabled(o, c, Action.Settle(t)) && Kept(c.ledger, c.clients[t].outcome, c.stop)
    requires JobOk(c.ledger, c.clients[t].job)
    ensures var d := Apply(o, c, Action.Settle(t));
      && d.clients[t].Idle? && !d.ledger.disabled
      && d.ledger.identity == (if c.ledger.identity.Some? then c.ledger.identity else c.clients[t].outcome)
      && (c.ledger.identity.Some? ==> MissingOf(d.ledger.blocks) == MissingOf(c.ledger.blocks))
  {
  }

  /** With nobody fetching and nobody reading, an idle client is elected for a block that is missing. */
  lemma ElectMove(o: Origin, id: Identity, c: Cache, t: Tid) returns (a: Action)
    requires Inv(o, c) && Sound(c) && !Complete(c.ledger, c.stop)
    requires Flying(c) == {} && t in c.clients && c.clients[t].Idle?
    ensures Advances(o, id, c, a)
  {
    var index := Wanted(o, c);
    a := Elect(t, index);
    hide Inv, Decide, Shrinks;
    var d := Apply(o, c, a);
    ElectShrinks(o, c, t, index);
    assert d.clients[t].Elected?;
    MovedWell(id, c, d, t);
  }

  /** A block that somebody has to fetch. */
  lemma Wanted(o: Origin, c: Cache) returns (index: nat)
    requires Inv(o, c) && Sound(c) && !Complete(c.ledger, c.stop) && Flying(c) == {}
    ensures Decide(c.ledger, index) == Fetch(Job(index, c.ledger.identity))
    ensures if c.ledger.identity.None? then !c.ledger.initializing
            else index < |c.ledger.blocks| && c.ledger.blocks[index] == Missing
  {
    hide DiskInv, FileInv, PhasesInv, HistoryInv;
    index := 0;
    if c.ledger.identity.Some? {
      BlocksCover(c.ledger.identity.value.length, 0);
      index :| 0 <= index < |c.ledger.blocks| && c.ledger.blocks[index] != Ready;
    }
  }

  lemma ElectShrinks(o: Origin, c: Cache, t: Tid, index: nat)
    requires Enabled(o, c, Elect(t, index)) && Decide(c.ledger, index) == Fetch(Job(index, c.ledger.identity))
    requires if c.ledger.identity.None? then !c.ledger.initializing
             else index < |c.ledger.blocks| && c.ledger.blocks[index] == Missing
    ensures Shrinks(c, Apply(o, c, Elect(t, index)))
  {
    var d := Apply(o, c, Elect(t, index));
    hide Decide;
    if c.ledger.identity.Some? {
      assert MissingOf(d.ledger.blocks) == MissingOf(c.ledger.blocks) - {index};
      assert index in MissingOf(c.ledger.blocks);
    }
  }

  /** From every sound state that is not complete there is a step forward. */
  lemma NextMove(o: Origin, id: Identity, c: Cache) returns (a: Action)
    requires Inv(o, c) && FreshFile(c) && Sound(c) && Alive(c) && Known(o, id) && !Complete(c.ledger, c.stop)
    ensures Advances(o, id, c, a)
  {
    hide Inv, FreshFile, Sound, Known, Complete, Advances;
    if c.disk.Some? {
      a := DiskMove(o, id, c);
    } else if t :| t in Flying(c) {
      a := FlightMove(o, id, c, t);
    } else if t :| t in Readers(c) {
      ReaderLeaves(o, id, c, t);
      a := ReadFail(t);
    } else if t :| t in c.clients {
      assert t !in Flying(c) && t !in Readers(c);
      assert Flying(c) == {};
      a := ElectMove(o, id, c, t);
    } else {
      a := Connect(0);
      ConnectAdvances(o, id, c);
    }
  }

  lemma ConnectAdvances(o: Origin, id: Identity, c: Cache)
    requires Sound(c) && Alive(c) && c.clients == map[]
    ensures Advances(o, id, c, Connect(0))
  {
    OtherEffect(o, c, Connect(0));
    var d := Apply(o, c, Connect(0));
    assert Readers(d) == Readers(c) == {};
    assert 0 in d.clients;
  }

  lemma {:induction false} Completes(o: Origin, id: Identity, s: Cache, c: Cache) returns (d: Cache)
    requires Inv(o, c) && FreshFile(c) && Sound(c) && Alive(c) && Known(o, id) && Leads(o, s, c)
    ensures Leads(o, s, d) && Inv(o, d) && Complete(d.ledger, d.stop)
    ensures Expects(c, id) ==> Expects(d, id)
    decreases Unidentified(c), ToElect(c), TotalWork(c), |Readers(c)|, Deserted(c)
  {
    if Complete(c.ledger, c.stop) {
      d := c;
    } else {
      var a := NextMove(o, id, c);
      var next := Apply(o, c, a);
      CacheInvariant.StepInv(o, c, a);
      FreshFileStep(o, c, a);
      LeadsOn(o, s, c, a);
      hide Inv, FreshFile, Sound, Alive, Known, Complete, Expects, Leads, Apply, Enabled,
        Unidentified, ToElect, TotalWork, Readers, Deserted;
      d := Completes(o, id, s, next);
    }
  }

  lemma {:induction false} FreshReached(o: Origin, cs: seq<Cache>, acts: seq<Action>, i: nat)
    requires History(o, cs, acts) && i < |cs|
    ensures FreshFile(cs[i])
    decreases i
  {
    if i > 0 {
      FreshReached(o, cs, acts, i - 1);
      Reached(o, cs, acts, i - 1);
      hide Inv, FreshFile, Enabled, Apply;
      FreshFileStep(o, cs[i - 1], acts[i - 1]);
    }
  }

  /**
   From every reachable state that is neither stopped nor disabled, with a listener or a client, and
   in which no fetch in flight has failed, some run completes the file: as the identified
   representation if there is one, or as any the cache is still open to.
   */
  lemma CompletionAlwaysPossible(o: Origin, cs: seq<Cache>, acts: seq<Action>, i: nat, id: Identity)
    requires History(o, cs, acts) && i < |cs| && Sound(cs[i]) && Alive(cs[i]) && Known(o, id)
    ensures exists d :: Leads(o, cs[i], d) && Complete(d.ledger, d.stop) && (Expects(cs[i], id) ==> d.ledger.identity == Some(id))
  {
    hide Sound, Alive, Known, Enabled, Apply, Leads;
    Reached(o, cs, acts, i);
    FreshReached(o, cs, acts, i);
    LeadsNowhere(o, cs[i]);
    hide FreshFile, History;
    var d := Completes(o, id, cs[i], cs[i]);
    assert d.ledger.blocks != [] ==> d.ledger.identity.Some?;
  }

  /** In particular a fresh cache can complete every representation the limits admit, and lease its file. */
  lemma CompletionReachable(o: Origin, id: Identity)
    requires Known(o, id)
    ensures exists cs: seq<Cache>, acts: seq<Action> :: (
      && History(o, cs, acts)
      && Complete(cs[|acts|].ledger, cs[|acts|].stop)
      && cs[|acts|].ledger.identity == Some(id)
      && cs[|acts|].file == Some(Rep(o, id))
      && Enabled(o, cs[|acts|], Lease))
  {
    hide Inv, Enabled, Apply, Known, Complete;
    var none: seq<Action> := [];
    assert History(o, [START], none);
    CompletionAlwaysPossible(o, [START], none, 0, id);
    var d :| Leads(o, START, d) && Complete(d.ledger, d.stop) && d.ledger.identity == Some(id);
    var cs, acts :| Run(o, cs, acts) && cs[0] == START && cs[|acts|] == d;
    CompletedIsOriginal(o, cs, acts, |acts|);
    MayLease(o, cs, acts, |acts|);
  }

  lemma MayLease(o: Origin, cs: seq<Cache>, acts: seq<Action>, i: nat)
    requires History(o, cs, acts) && i < |cs| && Complete(cs[i].ledger, cs[i].stop) && cs[i].ledger.identity.Some?
    ensures Enabled(o, cs[i], Lease)
  {
    assert DiskInv(cs[i]) by {
      hide Apply, Enabled;
      Reached(o, cs, acts, i);
      hide LedgerInv, JobsInv, NoOrphans, CountInv, FileInv, PhasesInv, HistoryInv, DiskInv;
    }
    hide Apply, Complete, History;
  }
}
