/**
 The invariant of the playback cache holds initially and is kept by every step.

 Steps that only move one client between phases share `QuietInv`; election, the
 initializing client's steps, writes, settling and retirement have their own lemmas.
 */
module CacheInvariant {
  import opened Basics
  import opened PlaybackLedger
  import opened CacheProtocol

  lemma StartInv(o: Origin)
    ensures Inv(o, START)
  {
    assert Flying(START) == {} && Leasing(START) == {};
  }

  lemma FlyingAfter(c: Cache, d: Cache, t: Tid, p: Phase)
    requires d.clients == c.clients[t := p]
    ensures Flying(d) == if InFlight(p) then Flying(c) + {t} else Flying(c) - {t}
    ensures Leasing(d) == if p.Downloading? then Leasing(c) + {t} else Leasing(c) - {t}
  {
  }

  lemma KeepJobs(c: Cache, d: Cache)
    requires JobsInv(c) && NoOrphans(c)
    requires d.ledger.(reservation := c.ledger.reservation) == c.ledger
    requires Flying(d) == Flying(c)
    requires forall t :: t in Flying(c) ==> d.clients[t].job == c.clients[t].job
    ensures JobsInv(d) && NoOrphans(d)
  {
    forall i | 0 <= i < |d.ledger.blocks| && d.ledger.blocks[i] == Fetching && !d.ledger.disabled
      ensures exists t :: t in Flying(d) && d.clients[t].job.target == i
    {
      var t :| t in Flying(c) && c.clients[t].job.target == i;
      assert t in Flying(d) && d.clients[t].job.target == i;
    }
  }

  ghost predicate Moved(c: Cache, d: Cache, t: Tid) {
    && t in c.clients && t in d.clients
    && d.clients == c.clients[t := d.clients[t]]
  }

  /** The disk lock passes between free and `t` exactly as `t` enters and leaves the disk section. */
  ghost predicate DiskPassed(c: Cache, d: Cache, t: Tid) {
    && t in d.clients
    && (OnDisk(d.clients[t]) <==> d.disk == Some(t))
    && (d.disk == c.disk || (c.disk.None? && d.disk == Some(t)) || (c.disk == Some(t) && d.disk.None?))
    && d.stop == c.stop && d.owner == c.owner
  }

  lemma KeepDisk(c: Cache, d: Cache, t: Tid)
    requires DiskInv(c) && Moved(c, d, t) && DiskPassed(c, d, t)
    ensures DiskInv(d)
  {
  }

  lemma KeepCounts(c: Cache, d: Cache, t: Tid)
    requires CountInv(c) && Moved(c, d, t)
    requires d.ledger.fetching == c.ledger.fetching
    requires InFlight(d.clients[t]) == InFlight(c.clients[t])
    requires d.agents == c.agents
      + (if c.clients[t].Downloading? then 1 else 0) - (if d.clients[t].Downloading? then 1 else 0)
    ensures CountInv(d)
  {
    FlyingAfter(c, d, t, d.clients[t]);
    assert d.clients.Keys == c.clients.Keys;
    assert Flying(d) == Flying(c);
    if c.clients[t].Downloading? {
      assert t in Leasing(c);
    } else {
      assert t !in Leasing(c);
    }
  }

  lemma KeepPhases(o: Origin, c: Cache, d: Cache, t: Tid)
    requires PhasesInv(o, c) && Moved(c, d, t)
    requires d.ledger == c.ledger && d.file == c.file && d.owner == c.owner
    requires PhaseOk(o, d, d.clients[t])
    ensures PhasesInv(o, d)
  {
    forall u | u in d.clients
      ensures PhaseOk(o, d, d.clients[u])
    {
      if u != t {
        assert PhaseOk(o, c, c.clients[u]);
      }
    }
  }

  /** A step that moves one client and leaves the ledger, the file, the owner and the history alone. */
  ghost predicate Quiet(c: Cache, d: Cache, t: Tid) {
    && Moved(c, d, t)
    && d.ledger == c.ledger && d.file == c.file && d.owner == c.owner
    && d.elected == c.elected && d.served == c.served
    && InFlight(d.clients[t]) == InFlight(c.clients[t])
    && (InFlight(d.clients[t]) ==> d.clients[t].job == c.clients[t].job)
    && d.agents == c.agents
         + (if c.clients[t].Downloading? then 1 else 0) - (if d.clients[t].Downloading? then 1 else 0)
  }

  lemma KeepRecords(o: Origin, c: Cache, d: Cache)
    requires LedgerInv(o, c) && FileInv(o, c) && HistoryInv(o, c)
    requires d.ledger == c.ledger && d.file == c.file && d.owner == c.owner
    requires d.elected == c.elected && d.served == c.served
    ensures LedgerInv(o, d) && FileInv(o, d) && HistoryInv(o, d)
  {
  }

  lemma QuietInv(o: Origin, c: Cache, d: Cache, t: Tid)
    requires Inv(o, c) && Quiet(c, d, t) && DiskPassed(c, d, t)
    requires PhaseOk(o, d, d.clients[t])
    ensures Inv(o, d)
  {
    hide LedgerInv, JobsInv, NoOrphans, CountInv, DiskInv, FileInv, PhasesInv, HistoryInv, PhaseOk;
    KeepRecords(o, c, d);
    KeepDisk(c, d, t);
    KeepCounts(c, d, t);
    KeepPhases(o, c, d, t);
    FlyingAfter(c, d, t, d.clients[t]);
    KeepJobs(c, d);
  }

  /** A fetch in flight is for the recorded identity, or is the only one there is. */
  lemma JobKnown(c: Cache, t: Tid)
    requires JobsInv(c) && t in c.clients && InFlight(c.clients[t])
    ensures JobOk(c.ledger, c.clients[t].job)
    ensures c.ledger.identity.None? ==> Flying(c) == {t}
  {
    assert t in Flying(c);
    if c.ledger.identity.None? {
      forall u | u in Flying(c)
        ensures u == t
      {
        assert JobOk(c.ledger, c.clients[u].job);
      }
    }
  }

  lemma CheckoutStep(o: Origin, c: Cache, t: Tid)
    requires Inv(o, c) && Enabled(o, c, Checkout(t))
    ensures Inv(o, Apply(o, c, Checkout(t)))
  {
    hide LedgerInv, JobsInv, NoOrphans, CountInv, FileInv, HistoryInv;
    QuietInv(o, c, Apply(o, c, Checkout(t)), t);
  }

  lemma DownloadStep(o: Origin, c: Cache, t: Tid, got: Identity, bytes: seq<Byte>)
    requires Inv(o, c) && Enabled(o, c, Download(t, got, bytes))
    ensures Inv(o, Apply(o, c, Download(t, got, bytes)))
  {
    hide LedgerInv, JobsInv, NoOrphans, CountInv, FileInv, HistoryInv;
    QuietInv(o, c, Apply(o, c, Download(t, got, bytes)), t);
  }

  lemma ClearStep(o: Origin, c: Cache, t: Tid)
    requires Inv(o, c) && Enabled(o, c, Clear(t))
    ensures Inv(o, Apply(o, c, Clear(t)))
  {
    hide LedgerInv, JobsInv, NoOrphans, CountInv, FileInv, HistoryInv;
    QuietInv(o, c, Apply(o, c, Clear(t)), t);
  }

  lemma AdmitStep(o: Origin, c: Cache, t: Tid)
    requires Inv(o, c) && Enabled(o, c, Admit(t))
    ensures Inv(o, Apply(o, c, Admit(t)))
  {
    hide LedgerInv, JobsInv, NoOrphans, CountInv, FileInv, HistoryInv;
    QuietInv(o, c, Apply(o, c, Admit(t)), t);
  }

  lemma CloseStep(o: Origin, c: Cache, t: Tid)
    requires Inv(o, c) && Enabled(o, c, Close(t))
    ensures Inv(o, Apply(o, c, Close(t)))
  {
    hide LedgerInv, JobsInv, NoOrphans, CountInv, FileInv, HistoryInv;
    QuietInv(o, c, Apply(o, c, Close(t)), t);
  }

  lemma FailStep(o: Origin, c: Cache, t: Tid)
    requires Inv(o, c) && Enabled(o, c, Fail(t))
    ensures Inv(o, Apply(o, c, Fail(t)))
  {
    hide LedgerInv, JobsInv, NoOrphans, CountInv, FileInv, HistoryInv;
    QuietInv(o, c, Apply(o, c, Fail(t)), t);
  }

  lemma ReadStartStep(o: Origin, c: Cache, t: Tid, start: nat, end: nat)
    requires Inv(o, c) && Enabled(o, c, ReadStart(t, start, end))
    ensures Inv(o, Apply(o, c, ReadStart(t, start, end)))
  {
    hide LedgerInv, JobsInv, NoOrphans, CountInv, FileInv, HistoryInv;
    QuietInv(o, c, Apply(o, c, ReadStart(t, start, end)), t);
  }

  lemma ReadLockStep(o: Origin, c: Cache, t: Tid)
    requires Inv(o, c) && Enabled(o, c, ReadLock(t))
    ensures Inv(o, Apply(o, c, ReadLock(t)))
  {
    hide LedgerInv, JobsInv, NoOrphans, CountInv, FileInv, HistoryInv;
    QuietInv(o, c, Apply(o, c, ReadLock(t)), t);
  }

  lemma ReadAdmitStep(o: Origin, c: Cache, t: Tid)
    requires Inv(o, c) && Enabled(o, c, ReadAdmit(t))
    ensures Inv(o, Apply(o, c, ReadAdmit(t)))
  {
    hide LedgerInv, JobsInv, NoOrphans, CountInv, FileInv, HistoryInv;
    QuietInv(o, c, Apply(o, c, ReadAdmit(t)), t);
  }

  lemma ReadFailStep(o: Origin, c: Cache, t: Tid)
    requires Inv(o, c) && Enabled(o, c, ReadFail(t))
    ensures Inv(o, Apply(o, c, ReadFail(t)))
  {
    hide LedgerInv, JobsInv, NoOrphans, CountInv, FileInv, HistoryInv;
    QuietInv(o, c, Apply(o, c, ReadFail(t)), t);
  }

  lemma LockDiskStep(o: Origin, c: Cache, t: Tid)
    requires Inv(o, c) && Enabled(o, c, LockDisk(t))
    ensures Inv(o, Apply(o, c, LockDisk(t)))
  {
    hide JobsInv, NoOrphans, CountInv, FileInv, HistoryInv;
    JobKnown(c, t);
    QuietInv(o, c, Apply(o, c, LockDisk(t)), t);
  }

  lemma ReopenStep(o: Origin, c: Cache, t: Tid)
    requires Inv(o, c) && Enabled(o, c, Open(t)) && c.clients[t].job.expected.Some?
    ensures Inv(o, Apply(o, c, Open(t)))
  {
    hide JobsInv, NoOrphans, CountInv, HistoryInv;
    JobKnown(c, t);
    QuietInv(o, c, Apply(o, c, Open(t)), t);
  }

  // Election

  lemma ElectJobs(c: Cache, t: Tid, index: nat, d: Cache)
    requires JobsInv(c) && NoOrphans(c)
    requires c.ledger.identity.None? ==> c.ledger.blocks == []
    requires At(c, t) && c.clients[t].Idle? && Decide(c.ledger, index).Fetch?
    requires d.clients == c.clients[t := Elected(Decide(c.ledger, index).job)]
    requires d.ledger == AfterElection(c.ledger, Decide(c.ledger, index).job)
    ensures JobsInv(d) && NoOrphans(d)
    ensures Flying(d) == Flying(c) + {t} && t !in Flying(c)
    ensures c.ledger.identity.None? ==> Flying(c) == {}
  {
    var job := Decide(c.ledger, index).job;
    FlyingAfter(c, d, t, Elected(job));
    forall u | u in Flying(c)
      ensures c.ledger.identity.Some? && c.clients[u].job.target != job.target && JobOk(d.ledger, d.clients[u].job)
    {
      assert JobOk(c.ledger, c.clients[u].job);
    }
    forall i | 0 <= i < |d.ledger.blocks| && d.ledger.blocks[i] == Fetching && !d.ledger.disabled
      ensures exists u :: u in Flying(d) && d.clients[u].job.target == i
    {
      if i == job.target && job.expected.Some? {
        assert t in Flying(d) && d.clients[t].job.target == i;
      } else {
        var u :| u in Flying(c) && c.clients[u].job.target == i;
        assert u in Flying(d) && d.clients[u].job.target == i;
      }
    }
  }

  /** What an election changes. */
  ghost predicate ElectedBy(c: Cache, d: Cache, t: Tid, index: nat) {
    && At(c, t) && c.clients[t].Idle? && Decide(c.ledger, index).Fetch?
    && d.clients == c.clients[t := Elected(Decide(c.ledger, index).job)]
    && d.ledger == AfterElection(c.ledger, Decide(c.ledger, index).job)
    && d == c.(clients := d.clients, ledger := d.ledger, elected := c.elected + [Decide(c.ledger, index).job.target])
  }

  lemma ElectEffect(o: Origin, c: Cache, t: Tid, index: nat)
    requires Enabled(o, c, Elect(t, index))
    ensures ElectedBy(c, Apply(o, c, Elect(t, index)), t, index)
  {
  }

  /** What a client's phase relies on: ready blocks that stay ready, and everything else unchanged. */
  lemma PhaseKept(o: Origin, c: Cache, d: Cache, p: Phase)
    requires PhaseOk(o, c, p)
    requires d.owner == c.owner && d.file == c.file
    requires d.ledger.identity == c.ledger.identity && d.ledger.reservation == c.ledger.reservation
    requires |d.ledger.blocks| == |c.ledger.blocks|
    requires forall i :: 0 <= i < |c.ledger.blocks| && c.ledger.blocks[i] == Ready ==> d.ledger.blocks[i] == Ready
    ensures PhaseOk(o, d, p)
  {
    hide Accepted, Known, BlockHolds;
  }

  lemma ElectPhases(o: Origin, c: Cache, d: Cache, t: Tid, index: nat)
    requires LedgerInv(o, c) && PhasesInv(o, c) && ElectedBy(c, d, t, index)
    ensures PhasesInv(o, d)
  {
    assert PhaseOk(o, d, d.clients[t]);
    hide PhaseOk, LedgerInv;
    forall u | u in d.clients
      ensures PhaseOk(o, d, d.clients[u])
    {
      if u != t {
        PhaseKept(o, c, d, c.clients[u]);
      }
    }
  }

  lemma ElectRecords(o: Origin, c: Cache, d: Cache, t: Tid, index: nat)
    requires LedgerInv(o, c) && FileInv(o, c) && HistoryInv(o, c) && ElectedBy(c, d, t, index)
    ensures LedgerInv(o, d) && FileInv(o, d) && HistoryInv(o, d)
  {
  }

  lemma ElectCounts(c: Cache, d: Cache, t: Tid, index: nat)
    requires CountInv(c) && t in c.clients && c.clients[t].Idle? && Decide(c.ledger, index).Fetch?
    requires t !in Flying(c) && (c.ledger.identity.None? ==> Flying(c) == {})
    requires d.clients == c.clients[t := Elected(Decide(c.ledger, index).job)] && d.agents == c.agents
    requires d.ledger == AfterElection(c.ledger, Decide(c.ledger, index).job)
    ensures CountInv(d)
  {
    FlyingAfter(c, d, t, d.clients[t]);
    assert d.clients.Keys == c.clients.Keys;
    assert Leasing(d) == Leasing(c);
  }

  lemma ElectStep(o: Origin, c: Cache, t: Tid, index: nat)
    requires Inv(o, c) && Enabled(o, c, Elect(t, index))
    ensures Inv(o, Apply(o, c, Elect(t, index)))
  {
    var d := Apply(o, c, Elect(t, index));
    ElectEffect(o, c, t, index);
    assert c.ledger.identity.None? ==> c.ledger.blocks == [];
    hide LedgerInv, JobsInv, NoOrphans, FileInv, HistoryInv, PhasesInv, CountInv, DiskInv, Apply, Enabled,
      Decide, AfterElection;
    ElectRecords(o, c, d, t, index);
    ElectPhases(o, c, d, t, index);
    ElectJobs(c, t, index, d);
    ElectCounts(c, d, t, index);
    KeepDisk(c, d, t);
  }

  // Initialization: until an identity is recorded, only one client is doing anything

  lemma Alone(o: Origin, c: Cache, t: Tid)
    requires LedgerInv(o, c) && JobsInv(c) && PhasesInv(o, c)
    requires t in c.clients && InFlight(c.clients[t]) && c.clients[t].job.expected.None?
    ensures c.ledger.identity.None? && Flying(c) == {t}
    ensures forall u :: u in c.clients && u != t ==> c.clients[u].Idle?
  {
    JobKnown(c, t);
    forall u | u in c.clients && u != t
      ensures c.clients[u].Idle?
    {
      assert u !in Flying(c);
      assert PhaseOk(o, c, c.clients[u]);
    }
  }

  /** Steps of the initializing client on the reservation and the new file. */
  lemma InitInv(o: Origin, c: Cache, d: Cache, t: Tid)
    requires Inv(o, c) && Moved(c, d, t)
    requires InFlight(c.clients[t]) && InFlight(d.clients[t]) && c.clients[t].job.expected.None?
    requires c.clients[t].job == d.clients[t].job
    requires !c.clients[t].Downloading? && !d.clients[t].Downloading?
    requires d.ledger.(reservation := c.ledger.reservation) == c.ledger
    requires d.agents == c.agents && d.elected == c.elected && d.served == c.served && d.owner == c.owner
    requires DiskPassed(c, d, t)
    requires PhaseOk(o, d, d.clients[t])
    ensures Inv(o, d)
  {
    Alone(o, c, t);
    JobKnown(c, t);
    assert LedgerInv(o, d) && FileInv(o, d) && HistoryInv(o, d);
    assert forall u :: u in d.clients && u != t ==> PhaseOk(o, d, d.clients[u]);
    hide LedgerInv, JobsInv, NoOrphans, CountInv, DiskInv, FileInv, HistoryInv, PhaseOk;
    KeepDisk(c, d, t);
    KeepCounts(c, d, t);
    FlyingAfter(c, d, t, d.clients[t]);
    KeepJobs(c, d);
  }

  lemma ChargeStep(o: Origin, c: Cache, t: Tid)
    requires Inv(o, c) && Enabled(o, c, Charge(t))
    ensures Inv(o, Apply(o, c, Charge(t)))
  {
    hide LedgerInv, JobsInv, NoOrphans, CountInv, FileInv, HistoryInv;
    InitInv(o, c, Apply(o, c, Charge(t)), t);
  }

  lemma CreateStep(o: Origin, c: Cache, t: Tid)
    requires Inv(o, c) && Enabled(o, c, Open(t)) && c.clients[t].job.expected.None?
    ensures Inv(o, Apply(o, c, Open(t)))
  {
    hide LedgerInv, JobsInv, NoOrphans, CountInv, FileInv, HistoryInv;
    InitInv(o, c, Apply(o, c, Open(t)), t);
  }

  lemma OpenUnsizedStep(o: Origin, c: Cache, t: Tid)
    requires Inv(o, c) && Enabled(o, c, OpenUnsized(t))
    ensures Inv(o, Apply(o, c, OpenUnsized(t)))
  {
    hide LedgerInv, JobsInv, NoOrphans, CountInv, FileInv, HistoryInv;
    InitInv(o, c, Apply(o, c, OpenUnsized(t)), t);
  }

  // Writing

  /** Two targets of one file lie in disjoint byte ranges. */
  lemma BlocksDisjoint(i: nat, j: nat, length: nat)
    requires i != j && BlockStart(i) < length && BlockStart(j) < length
    ensures BlockEnd(i, length) <= BlockStart(j) || BlockEnd(j, length) <= BlockStart(i)
  {
  }

  lemma WriteOther(o: Origin, id: Identity, file: seq<Byte>, i: nat, target: nat, at: nat, chunk: seq<Byte>)
    requires Known(o, id) && BlockHolds(o, id, Some(file), i)
    requires i != target && BlockStart(target) <= at && BlockStart(target) < id.length
    requires at + |chunk| <= BlockEnd(target, id.length)
    ensures BlockHolds(o, id, Some(WriteAt(file, at, chunk)), i)
  {
    BlocksDisjoint(i, target, id.length);
    WriteElsewhere(file, at, chunk, BlockStart(i), BlockEnd(i, id.length));
  }

  /** The effect of one `Write`, stated on the parts that change. */
  ghost predicate Wrote(c: Cache, d: Cache, t: Tid, n: nat) {
    && t in c.clients && c.clients[t].Opened? && c.file.Some?
    && var p := c.clients[t];
    && p.written + n <= |p.bytes| && BlockStart(p.job.target) + |p.bytes| <= |c.file.value|
    && d.clients == c.clients[t := Opened(p.job, p.got, p.bytes, p.written + n)]
    && d.ledger == c.ledger && d.owner == c.owner
    && d.file == Some(WriteAt(c.file.value, BlockStart(p.job.target) + p.written,
                              p.bytes[p.written..p.written + n]))
  }

  lemma WriteOwn(o: Origin, c: Cache, d: Cache, t: Tid, n: nat)
    requires Wrote(c, d, t, n) && PhaseOk(o, c, c.clients[t])
    ensures PhaseOk(o, d, d.clients[t]) && |d.file.value| == |c.file.value|
  {
    var p := c.clients[t];
    WriteExtends(c.file.value, BlockStart(p.job.target), p.bytes, p.written, n);
  }

  /** Another client's finished block is untouched. */
  lemma WritePeer(o: Origin, c: Cache, d: Cache, t: Tid, n: nat, u: Tid)
    requires Wrote(c, d, t, n) && u in c.clients && u != t && !c.clients[u].Opened? && !c.clients[u].Admitted?
    requires PhaseOk(o, c, c.clients[t]) && PhaseOk(o, c, c.clients[u])
    requires InFlight(c.clients[u]) ==> c.clients[u].job.target != c.clients[t].job.target
    ensures PhaseOk(o, d, d.clients[u])
  {
    var p, q := c.clients[t], c.clients[u];
    if q.Finished? && q.outcome.Some? && !c.owner.Retired? {
      WriteOther(o, q.outcome.value, c.file.value, q.job.target, p.job.target,
                 BlockStart(p.job.target) + p.written, p.bytes[p.written..p.written + n]);
    }
  }

  lemma WritePhases(o: Origin, c: Cache, d: Cache, t: Tid, n: nat)
    requires JobsInv(c) && DiskInv(c) && PhasesInv(o, c) && Wrote(c, d, t, n)
    ensures PhasesInv(o, d)
  {
    hide PhaseOk, WriteAt, JobOk;
    WriteOwn(o, c, d, t, n);
    forall u | u in d.clients && u != t
      ensures PhaseOk(o, d, d.clients[u])
    {
      assert !OnDisk(c.clients[u]);
      if InFlight(c.clients[u]) {
        assert t in Flying(c) && u in Flying(c);
      }
      WritePeer(o, c, d, t, n, u);
    }
  }

  lemma WriteFile(o: Origin, c: Cache, d: Cache, t: Tid, n: nat)
    requires LedgerInv(o, c) && FileInv(o, c) && Wrote(c, d, t, n)
    requires PhaseOk(o, c, c.clients[t]) && JobOk(c.ledger, c.clients[t].job)
    ensures LedgerInv(o, d) && FileInv(o, d)
  {
    var p, s := c.clients[t], c.ledger;
    if s.identity.Some? && !c.owner.Retired? {
      forall i | 0 <= i < |s.blocks| && s.blocks[i] == Ready
        ensures BlockHolds(o, s.identity.value, d.file, i)
      {
        WriteOther(o, s.identity.value, c.file.value, i, p.job.target,
                   BlockStart(p.job.target) + p.written, p.bytes[p.written..p.written + n]);
      }
    }
  }

  lemma WriteEffect(o: Origin, c: Cache, t: Tid, n: nat)
    requires DiskInv(c) && Enabled(o, c, Write(t, n))
    ensures var d := Apply(o, c, Write(t, n));
      && Wrote(c, d, t, n) && DiskPassed(c, d, t) && Moved(c, d, t) && d.ledger == c.ledger
      && d.agents == c.agents && d.elected == c.elected && d.served == c.served
      && InFlight(c.clients[t]) && InFlight(d.clients[t]) && d.clients[t].job == c.clients[t].job
      && !c.clients[t].Downloading? && !d.clients[t].Downloading?
  {
  }

  lemma KeepHistory(o: Origin, c: Cache, d: Cache)
    requires LedgerInv(o, c) && HistoryInv(o, c)
    requires d.ledger == c.ledger && d.elected == c.elected && d.served == c.served
    ensures LedgerInv(o, d) && HistoryInv(o, d)
  {
  }

  lemma WriteStep(o: Origin, c: Cache, t: Tid, n: nat)
    requires Inv(o, c) && Enabled(o, c, Write(t, n))
    ensures Inv(o, Apply(o, c, Write(t, n)))
  {
    hide Apply, Enabled, LedgerInv, JobsInv, NoOrphans, CountInv, DiskInv, FileInv, HistoryInv, PhaseOk,
      DiskPassed, JobOk, Wrote, Moved, InFlight, OnDisk, Flying, Leasing;
    var d := Apply(o, c, Write(t, n));
    WriteEffect(o, c, t, n);
    WriteShared(o, c, d, t, n);
    KeepHistory(o, c, d);
    WriteFile(o, c, d, t, n);
    WritePhases(o, c, d, t, n);
    KeepDisk(c, d, t);
  }

  /** A write leaves the jobs and the counts alone. */
  lemma WriteShared(o: Origin, c: Cache, d: Cache, t: Tid, n: nat)
    requires JobsInv(c) && NoOrphans(c) && CountInv(c) && Moved(c, d, t) && d.ledger == c.ledger && d.agents == c.agents
    requires InFlight(c.clients[t]) && InFlight(d.clients[t]) && d.clients[t].job == c.clients[t].job
    requires !c.clients[t].Downloading? && !d.clients[t].Downloading?
    ensures JobsInv(d) && NoOrphans(d) && CountInv(d) && JobOk(c.ledger, c.clients[t].job)
  {
    hide JobsInv, NoOrphans, CountInv, JobOk, InFlight;
    JobKnown(c, t);
    KeepCounts(c, d, t);
    FlyingAfter(c, d, t, d.clients[t]);
    KeepJobs(c, d);
  }

  // Settling a fetch

  /** The effect of one `Settle`, stated on the parts that change. */
  ghost predicate SettledBy(c: Cache, d: Cache, t: Tid) {
    && t in c.clients && c.clients[t].Finished? && 0 < c.ledger.fetching
    && d.clients == c.clients[t := Idle]
    && var p := c.clients[t];
    && (Kept(c.ledger, p.outcome, c.stop) ==>
          p.job.target < if p.job.expected.None? then BlockCount(p.outcome.value.length) else |c.ledger.blocks|)
    && d.ledger == Settled(c.ledger, p.job, p.outcome, c.stop)
    && d.file == c.file && d.owner == c.owner && d.stop == c.stop && d.disk == c.disk && d.agents == c.agents
    && d.elected == c.elected && d.served == c.served
  }

  lemma SettleJobs(c: Cache, d: Cache, t: Tid)
    requires JobsInv(c) && NoOrphans(c) && SettledBy(c, d, t)
    requires c.ledger.identity.Some? ==> !c.ledger.initializing
    ensures JobsInv(d) && NoOrphans(d)
    ensures Flying(d) == Flying(c) - {t} && t in Flying(c)
  {
    FlyingAfter(c, d, t, Idle);
    assert t in Flying(c);
    JobKnown(c, t);
    var p := c.clients[t];
    forall u | u in Flying(d)
      ensures JobOk(d.ledger, d.clients[u].job)
    {
      assert JobOk(c.ledger, c.clients[u].job) && c.clients[u].job.target != p.job.target;
    }
    forall i | 0 <= i < |d.ledger.blocks| && d.ledger.blocks[i] == Fetching && !d.ledger.disabled
      ensures exists u :: u in Flying(d) && d.clients[u].job.target == i
    {
      var u :| u in Flying(c) && c.clients[u].job.target == i;
      assert u in Flying(d) && d.clients[u].job.target == i;
    }
  }

  lemma SettleCounts(c: Cache, d: Cache, t: Tid)
    requires CountInv(c) && SettledBy(c, d, t) && t in Flying(c) && Flying(d) == Flying(c) - {t}
    ensures CountInv(d)
  {
    FlyingAfter(c, d, t, Idle);
    assert Leasing(d) == Leasing(c);
    assert d.clients.Keys == c.clients.Keys;
  }

  lemma SettleRecords(o: Origin, c: Cache, d: Cache, t: Tid)
    requires LedgerInv(o, c) && FileInv(o, c) && SettledBy(c, d, t) && DiskInv(c)
    requires PhaseOk(o, c, c.clients[t]) && JobOk(c.ledger, c.clients[t].job)
    ensures LedgerInv(o, d) && FileInv(o, d)
  {
  }

  lemma SettleHistory(o: Origin, c: Cache, d: Cache, t: Tid)
    requires LedgerInv(o, c) && LedgerInv(o, d) && HistoryInv(o, c) && SettledBy(c, d, t)
    requires JobOk(c.ledger, c.clients[t].job)
    ensures HistoryInv(o, d)
  {
  }

  lemma SettlePhases(o: Origin, c: Cache, d: Cache, t: Tid)
    requires LedgerInv(o, c) && JobsInv(c) && PhasesInv(o, c) && SettledBy(c, d, t)
    ensures PhasesInv(o, d)
  {
    JobKnown(c, t);
    if c.ledger.identity.None? {
      Alone(o, c, t);
    } else {
      forall u | u in d.clients
        ensures PhaseOk(o, d, d.clients[u])
      {
        if u != t {
          PhaseKept(o, c, d, c.clients[u]);
        }
      }
    }
  }

  lemma SettleEffect(o: Origin, c: Cache, t: Tid)
    requires LedgerInv(o, c) && DiskInv(c) && Enabled(o, c, Action.Settle(t))
    ensures SettledBy(c, Apply(o, c, Action.Settle(t)), t)
    ensures Moved(c, Apply(o, c, Action.Settle(t)), t) && DiskPassed(c, Apply(o, c, Action.Settle(t)), t)
    ensures c.ledger.identity.Some? ==> !c.ledger.initializing
    ensures t in c.clients && InFlight(c.clients[t])
  {
    hide Settled, Kept;
  }

  lemma SettleStep(o: Origin, c: Cache, t: Tid)
    requires Inv(o, c) && Enabled(o, c, Action.Settle(t))
    ensures Inv(o, Apply(o, c, Action.Settle(t)))
  {
    hide Apply, Enabled, LedgerInv, JobsInv, NoOrphans, CountInv, DiskInv, FileInv, HistoryInv, PhaseOk, JobOk,
      Settled, Kept, SettledBy, DiskPassed, Moved;
    var d := Apply(o, c, Action.Settle(t));
    SettleEffect(o, c, t);
    JobKnown(c, t);
    SettleJobs(c, d, t);
    SettleCounts(c, d, t);
    SettleRecords(o, c, d, t);
    SettleHistory(o, c, d, t);
    SettlePhases(o, c, d, t);
    KeepDisk(c, d, t);
  }

  // Reads, retirement and connections

  lemma ReadDoneQuiet(o: Origin, c: Cache, t: Tid)
    requires Inv(o, c) && Enabled(o, c, ReadDone(t))
    ensures Inv(o, Apply(o, c, ReadDone(t)).(served := c.served))
  {
    hide LedgerInv, JobsInv, NoOrphans, CountInv, FileInv, HistoryInv;
    QuietInv(o, c, Apply(o, c, ReadDone(t)).(served := c.served), t);
  }

  lemma ReadDoneStep(o: Origin, c: Cache, t: Tid)
    requires Inv(o, c) && Enabled(o, c, ReadDone(t))
    ensures Inv(o, Apply(o, c, ReadDone(t)))
  {
    hide LedgerInv, JobsInv, NoOrphans, CountInv, DiskInv, FileInv, PhasesInv, HistoryInv, Enabled, Apply;
    ReadDoneQuiet(o, c, t);
    ReadDoneHistory(o, c, t);
    SameButServed(o, Apply(o, c, ReadDone(t)).(served := c.served), Apply(o, c, ReadDone(t)));
  }

  lemma ReadDoneHistory(o: Origin, c: Cache, t: Tid)
    requires LedgerInv(o, c) && FileInv(o, c) && PhasesInv(o, c) && HistoryInv(o, c) && Enabled(o, c, ReadDone(t))
    ensures LedgerInv(o, Apply(o, c, ReadDone(t))) && HistoryInv(o, Apply(o, c, ReadDone(t)))
  {
    assert PhaseOk(o, c, c.clients[t]);
    ReadIsOriginal(o, c, t);
  }

  lemma SameButServed(o: Origin, c: Cache, d: Cache)
    requires JobsInv(c) && NoOrphans(c) && CountInv(c) && DiskInv(c) && PhasesInv(o, c)
    requires LedgerInv(o, c) && FileInv(o, c)
    requires d == c.(served := d.served)
    ensures JobsInv(d) && NoOrphans(d) && CountInv(d) && DiskInv(d) && PhasesInv(o, d)
    ensures LedgerInv(o, d) && FileInv(o, d)
  {
    KeepJobs(c, d);
    assert Leasing(d) == Leasing(c);
    forall t | t in d.clients
      ensures PhaseOk(o, d, d.clients[t])
    {
      assert PhaseOk(o, c, c.clients[t]);
    }
  }

  /** The bytes an admitted reader takes are those of the original. */
  lemma ReadIsOriginal(o: Origin, c: Cache, t: Tid)
    requires LedgerInv(o, c) && FileInv(o, c) && PhasesInv(o, c) && Enabled(o, c, ReadDone(t))
    ensures var p, id := c.clients[t], c.ledger.identity;
      && id.Some? && p.end < id.value.length
      && c.file.value[p.start..p.end + 1] == Rep(o, id.value)[p.start..p.end + 1]
  {
    var p := c.clients[t];
    assert PhaseOk(o, c, p);
    var id, i := c.ledger.identity.value, p.start / BLOCK_BYTES;
    assert BlockHolds(o, id, c.file, i);
    SubSlice(c.file.value, Rep(o, id), BlockStart(i), BlockEnd(i, id.length), p.start, p.end + 1);
  }

  lemma SubSlice(a: seq<Byte>, b: seq<Byte>, lo: nat, hi: nat, from: nat, to: nat)
    requires lo <= from <= to <= hi <= |a| && hi <= |b|
    requires a[lo..hi] == b[lo..hi]
    ensures a[from..to] == b[from..to]
  {
    forall k | from <= k < to
      ensures a[k] == b[k]
    {
      assert a[lo..hi][k - lo] == b[lo..hi][k - lo];
    }
  }

  /** Owner, connection and lease steps touch no fetch. */
  ghost predicate Outside(a: Action) {
    a.Connect? || a.Disconnect? || a.ListenerExit? || a.RetireStop? || a.RetireRemove?
    || a.Lease? || a.CloneLease? || a.DropLease?
  }

  ghost predicate OutsideOf(c: Cache, d: Cache) {
    && d.ledger == c.ledger && d.elected == c.elected && d.served == c.served
    && (d.file == c.file || d.owner.Retired?)
    && (c.owner.Retired? ==> d.owner.Retired?)
    && (d.owner.Retired? && !c.owner.Retired? ==> c.disk.None?)
    && (forall t :: t in d.clients ==> d.clients[t] == if t in c.clients then c.clients[t] else Idle)
    && (forall t :: t in c.clients && !c.clients[t].Idle? ==> t in d.clients)
  }

  lemma OutsideStep(o: Origin, c: Cache, a: Action)
    requires Inv(o, c) && Enabled(o, c, a) && Outside(a)
    ensures Inv(o, Apply(o, c, a))
  {
    hide LedgerInv, JobsInv, NoOrphans, CountInv, DiskInv, FileInv, PhasesInv, HistoryInv, Enabled, Apply;
    var d := Apply(o, c, a);
    if a.Connect? {
      ConnectEffect(o, c, a.t);
    } else if a.Disconnect? {
      DisconnectEffect(o, c, a.t);
    } else if a.RetireStop? || a.RetireRemove? {
      RetireEffect(o, c, a);
    } else {
      LeaseEffect(o, c, a);
    }
    hide Outside;
    OutsideRecords(o, c, d);
    SameClients(c, d);
    KeepJobs(c, d);
  }

  lemma ConnectEffect(o: Origin, c: Cache, t: Tid)
    requires CountInv(c) && DiskInv(c) && Enabled(o, c, Connect(t))
    ensures OutsideOf(c, Apply(o, c, Connect(t)))
    ensures CountInv(Apply(o, c, Connect(t))) && DiskInv(Apply(o, c, Connect(t)))
  {
    var d := Apply(o, c, Connect(t));
    SameClients(c, d);
    assert d.clients.Keys == c.clients.Keys + {t};
  }

  lemma DisconnectEffect(o: Origin, c: Cache, t: Tid)
    requires CountInv(c) && DiskInv(c) && Enabled(o, c, Disconnect(t))
    ensures OutsideOf(c, Apply(o, c, Disconnect(t)))
    ensures CountInv(Apply(o, c, Disconnect(t))) && DiskInv(Apply(o, c, Disconnect(t)))
  {
    var d := Apply(o, c, Disconnect(t));
    SameClients(c, d);
    assert d.clients.Keys == c.clients.Keys - {t};
  }

  lemma RetireEffect(o: Origin, c: Cache, a: Action)
    requires CountInv(c) && DiskInv(c) && Enabled(o, c, a) && (a.RetireStop? || a.RetireRemove?)
    ensures OutsideOf(c, Apply(o, c, a))
    ensures CountInv(Apply(o, c, a)) && DiskInv(Apply(o, c, a))
  {
    hide Decide, Kept, Settled, Accepted, AfterElection;
    SameClients(c, Apply(o, c, a));
  }

  lemma LeaseEffect(o: Origin, c: Cache, a: Action)
    requires CountInv(c) && DiskInv(c) && Enabled(o, c, a)
    requires a.ListenerExit? || a.Lease? || a.CloneLease? || a.DropLease?
    ensures OutsideOf(c, Apply(o, c, a))
    ensures CountInv(Apply(o, c, a)) && DiskInv(Apply(o, c, a))
  {
    hide Complete, Decide, Kept, Settled, Accepted, AfterElection;
    SameClients(c, Apply(o, c, a));
  }

  lemma SameClients(c: Cache, d: Cache)
    requires forall t :: t in d.clients ==> d.clients[t] == if t in c.clients then c.clients[t] else Idle
    requires forall t :: t in c.clients && !c.clients[t].Idle? ==> t in d.clients
    ensures Flying(d) == Flying(c) && Leasing(d) == Leasing(c)
  {
  }

  lemma OutsideRecords(o: Origin, c: Cache, d: Cache)
    requires LedgerInv(o, c) && FileInv(o, c) && HistoryInv(o, c) && PhasesInv(o, c) && DiskInv(c)
    requires OutsideOf(c, d)
    ensures LedgerInv(o, d) && FileInv(o, d) && HistoryInv(o, d) && PhasesInv(o, d)
  {
    forall t | t in d.clients
      ensures PhaseOk(o, d, d.clients[t])
    {
      if t in c.clients {
        assert PhaseOk(o, c, c.clients[t]);
        assert OnDisk(c.clients[t]) ==> c.disk == Some(t);
      }
    }
  }

  /** The invariant is inductive: any one step of any client or of the owner keeps it. */
  lemma StepInv(o: Origin, c: Cache, a: Action)
    requires Inv(o, c) && Enabled(o, c, a)
    ensures Inv(o, Apply(o, c, a))
  {
    hide Inv, Apply;
    match a
    case Elect(t, index) => ElectStep(o, c, t, index);
    case Checkout(t) => CheckoutStep(o, c, t);
    case Download(t, got, bytes) => DownloadStep(o, c, t, got, bytes);
    case Clear(t) => ClearStep(o, c, t);
    case Charge(t) => ChargeStep(o, c, t);
    case LockDisk(t) => LockDiskStep(o, c, t);
    case Admit(t) => AdmitStep(o, c, t);
    case Open(t) => if c.clients[t].job.expected.None? { CreateStep(o, c, t); } else { ReopenStep(o, c, t); }
    case OpenUnsized(t) => OpenUnsizedStep(o, c, t);
    case Write(t, n) => WriteStep(o, c, t, n);
    case Close(t) => CloseStep(o, c, t);
    case Fail(t) => FailStep(o, c, t);
    case Settle(t) => SettleStep(o, c, t);
    case ReadStart(t, start, end) => ReadStartStep(o, c, t, start, end);
    case ReadLock(t) => ReadLockStep(o, c, t);
    case ReadAdmit(t) => ReadAdmitStep(o, c, t);
    case ReadDone(t) => ReadDoneStep(o, c, t);
    case ReadFail(t) => ReadFailStep(o, c, t);
    case _ => OutsideStep(o, c, a);
  }
}
