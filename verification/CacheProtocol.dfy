/**
 Every interleaving of the clients of one playback cache.

 A state holds the locked ledger, the agent pool, the disk lock and the payload file,
 the owner's phase, and the phase of every client thread between two atomic steps.
 `elected` and `served` are history: the blocks handed to a fetcher and the bytes read for each client.
 */
module CacheProtocol {
  import opened Basics
  import opened PlaybackLedger

  type Tid = nat

  const MAX_FILE_BYTES: nat := 256 * 1024 * 1024
  const MAX_CLIENTS: nat := 4

  /** The bytes of each representation: one URL and one strong validator fix them. */
  type Origin = map<(Url, string), seq<Byte>>

  datatype Owner = Current | Stopping | Retired

  datatype Phase =
    | Idle
    | Elected(job: Job)
    | Downloading(job: Job)
    | Downloaded(job: Job, got: Identity, bytes: seq<Byte>)
    | Cleared(job: Job, got: Identity, bytes: seq<Byte>)
    | Charged(job: Job, got: Identity, bytes: seq<Byte>)
    | Locked(job: Job, got: Identity, bytes: seq<Byte>)
    | Admitted(job: Job, got: Identity, bytes: seq<Byte>)
    | Opened(job: Job, got: Identity, bytes: seq<Byte>, written: nat)
    | Finished(job: Job, outcome: Option<Identity>)
    | ReadWaiting(start: nat, end: nat)
    | ReadLocked(start: nat, end: nat)
    | ReadAdmitted(start: nat, end: nat)

  datatype Served = Served(client: Tid, start: nat, end: nat, bytes: seq<Byte>)

  datatype Cache = Cache(
    ledger: Ledger,
    stop: bool,
    agents: nat,
    disk: Option<Tid>,
    file: Option<seq<Byte>>,
    owner: Owner,
    listening: bool,
    clients: map<Tid, Phase>,
    leases: nat,
    elected: seq<nat>,
    served: seq<Served>)

  datatype Action =
    | Connect(t: Tid)
    | Disconnect(t: Tid)
    | ListenerExit
    | Elect(t: Tid, index: nat)
    | Checkout(t: Tid)
    | Download(t: Tid, got: Identity, bytes: seq<Byte>)
    | Clear(t: Tid)
    | Charge(t: Tid)
    | LockDisk(t: Tid)
    | Admit(t: Tid)
    | Open(t: Tid)
    | OpenUnsized(t: Tid)
    | Write(t: Tid, n: nat)
    | Close(t: Tid)
    | Fail(t: Tid)
    | Settle(t: Tid)
    | ReadStart(t: Tid, start: nat, end: nat)
    | ReadLock(t: Tid)
    | ReadAdmit(t: Tid)
    | ReadDone(t: Tid)
    | ReadFail(t: Tid)
    | RetireStop
    | RetireRemove(removed: bool)
    | Lease
    | CloneLease
    | DropLease

  const START := Cache(EMPTY, false, MAX_FETCHES, None, None, Current, true, map[], 0, [], [])

  // ----- What a successful fetch hands over -----

  ghost predicate Known(o: Origin, id: Identity) {
    && (id.url, id.etag) in o
    && |o[(id.url, id.etag)]| == id.length
    && 0 < id.length <= MAX_FILE_BYTES
  }

  ghost function Rep(o: Origin, id: Identity): seq<Byte>
    requires Known(o, id)
  {
    o[(id.url, id.etag)]
  }

  function BlockStart(i: nat): nat { i * BLOCK_BYTES }

  function BlockEnd(i: nat, length: nat): nat {
    if (i + 1) * BLOCK_BYTES <= length then (i + 1) * BLOCK_BYTES else length
  }

  predicate SameRepresentation(a: Identity, b: Identity) {
    a.url == b.url && a.etag == b.etag && a.length == b.length
  }

  /** The promise of `fetch_range`: the exact block of one representation, the expected one if any. */
  ghost predicate Accepted(o: Origin, job: Job, got: Identity, bytes: seq<Byte>) {
    && Known(o, got)
    && BlockStart(job.target) < got.length
    && bytes == Rep(o, got)[BlockStart(job.target)..BlockEnd(job.target, got.length)]
    && (job.expected.Some? ==> SameRepresentation(got, job.expected.value))
  }

  // ----- Steps -----

  predicate InFlight(p: Phase) {
    p.Elected? || p.Downloading? || p.Downloaded? || p.Cleared? || p.Charged?
    || p.Locked? || p.Admitted? || p.Opened? || p.Finished?
  }

  predicate OnDisk(p: Phase) {
    p.Locked? || p.Admitted? || p.Opened? || p.ReadLocked? || p.ReadAdmitted?
  }

  predicate At(c: Cache, t: Tid) { t in c.clients }

  function Move(c: Cache, t: Tid, p: Phase): Cache {
    c.(clients := c.clients[t := p])
  }

  /** Leaving a failed phase returns whatever it held: an agent or the disk lock. */
  function Failed(c: Cache, t: Tid): Cache
    requires At(c, t) && InFlight(c.clients[t])
  {
    var p := c.clients[t];
    Move(c, t, Finished(p.job, None)).(
      agents := if p.Downloading? then c.agents + 1 else c.agents,
      disk := if OnDisk(p) then None else c.disk)
  }

  ghost predicate Enabled(o: Origin, c: Cache, a: Action) {
    match a
    case Connect(t) => !At(c, t) && c.listening && |c.clients| < MAX_CLIENTS
    case Disconnect(t) => At(c, t) && c.clients[t].Idle?
    case ListenerExit => c.listening
    case Elect(t, index) => At(c, t) && c.clients[t].Idle? && Decide(c.ledger, index).Fetch?
    case Checkout(t) => At(c, t) && c.clients[t].Elected? && 0 < c.agents
    case Download(t, got, bytes) =>
      At(c, t) && c.clients[t].Downloading? && Accepted(o, c.clients[t].job, got, bytes)
    case Clear(t) => At(c, t) && c.clients[t].Downloaded? && !c.stop
    case Charge(t) => At(c, t) && c.clients[t].Cleared? && c.clients[t].job.expected.None?
    case LockDisk(t) =>
      && At(c, t) && c.disk.None?
      && (c.clients[t].Charged? || (c.clients[t].Cleared? && c.clients[t].job.expected.Some?))
    case Admit(t) => At(c, t) && c.clients[t].Locked? && !c.stop
    case Open(t) =>
      At(c, t) && c.clients[t].Admitted? && (c.clients[t].job.expected.None? <==> c.file.None?)
    case OpenUnsized(t) =>
      At(c, t) && c.clients[t].Admitted? && c.clients[t].job.expected.None? && c.file.None?
    case Write(t, n) =>
      && At(c, t) && c.clients[t].Opened? && c.file.Some? && 0 < n
      && c.clients[t].written + n <= |c.clients[t].bytes|
      && BlockStart(c.clients[t].job.target) + |c.clients[t].bytes| <= |c.file.value|
    case Close(t) => At(c, t) && c.clients[t].Opened? && c.clients[t].written == |c.clients[t].bytes|
    case Fail(t) => At(c, t) && InFlight(c.clients[t]) && !c.clients[t].Finished?
    case Settle(t) =>
      && At(c, t) && c.clients[t].Finished? && 0 < c.ledger.fetching
      && (Kept(c.ledger, c.clients[t].outcome, c.stop) ==>
            c.clients[t].job.target <
              if c.clients[t].job.expected.None? then BlockCount(c.clients[t].outcome.value.length)
              else |c.ledger.blocks|)
    case ReadStart(t, start, end) =>
      && At(c, t) && c.clients[t].Idle?
      && Decide(c.ledger, start / BLOCK_BYTES).Serve?
      && start <= end < Decide(c.ledger, start / BLOCK_BYTES).identity.length
      && start / BLOCK_BYTES == end / BLOCK_BYTES
    case ReadLock(t) => At(c, t) && c.clients[t].ReadWaiting? && c.disk.None?
    case ReadAdmit(t) => At(c, t) && c.clients[t].ReadLocked? && !c.stop
    case ReadDone(t) =>
      && At(c, t) && c.clients[t].ReadAdmitted? && c.file.Some?
      && c.clients[t].start <= c.clients[t].end < |c.file.value|
    case ReadFail(t) =>
      At(c, t) && (c.clients[t].ReadWaiting? || c.clients[t].ReadLocked? || c.clients[t].ReadAdmitted?)
    case RetireStop => c.owner.Current?
    case RetireRemove(_) => c.owner.Stopping? && c.disk.None?
    case Lease => c.owner.Current? && Complete(c.ledger, c.stop) && c.ledger.identity.Some?
    case CloneLease => 0 < c.leases
    case DropLease => 0 < c.leases
  }

  ghost function Apply(o: Origin, c: Cache, a: Action): Cache
    requires Enabled(o, c, a)
  {
    match a
    case Connect(t) => Move(c, t, Idle)
    case Disconnect(t) => c.(clients := c.clients - {t})
    case ListenerExit => c.(listening := false)
    case Elect(t, index) =>
      var job := Decide(c.ledger, index).job;
      Move(c, t, Elected(job)).(ledger := AfterElection(c.ledger, job), elected := c.elected + [job.target])
    case Checkout(t) => Move(c, t, Downloading(c.clients[t].job)).(agents := c.agents - 1)
    case Download(t, got, bytes) =>
      Move(c, t, Downloaded(c.clients[t].job, got, bytes)).(agents := c.agents + 1)
    case Clear(t) =>
      var p := c.clients[t];
      Move(c, t, Cleared(p.job, p.got, p.bytes))
    case Charge(t) =>
      var p := c.clients[t];
      Move(c, t, Charged(p.job, p.got, p.bytes)).(ledger := c.ledger.(reservation := Some(p.got.length)))
    case LockDisk(t) =>
      var p := c.clients[t];
      Move(c, t, Locked(p.job, p.got, p.bytes)).(disk := Some(t))
    case Admit(t) =>
      var p := c.clients[t];
      Move(c, t, Admitted(p.job, p.got, p.bytes))
    case Open(t) =>
      var p := c.clients[t];
      Move(c, t, Opened(p.job, p.got, p.bytes, 0)).(
        file := if p.job.expected.None? then Some(seq(p.got.length, _ => 0)) else c.file)
    case OpenUnsized(t) => Failed(c, t).(file := Some([]))
    case Write(t, n) =>
      var p := c.clients[t];
      Move(c, t, Opened(p.job, p.got, p.bytes, p.written + n)).(
        file := Some(WriteAt(c.file.value, BlockStart(p.job.target) + p.written,
                             p.bytes[p.written..p.written + n])))
    case Close(t) =>
      var p := c.clients[t];
      Move(c, t, Finished(p.job, Some(p.got))).(disk := None)
    case Fail(t) => Failed(c, t)
    case Settle(t) =>
      var p := c.clients[t];
      Move(c, t, Idle).(ledger := Settled(c.ledger, p.job, p.outcome, c.stop))
    case ReadStart(t, start, end) => Move(c, t, ReadWaiting(start, end))
    case ReadLock(t) =>
      var p := c.clients[t];
      Move(c, t, ReadLocked(p.start, p.end)).(disk := Some(t))
    case ReadAdmit(t) =>
      var p := c.clients[t];
      Move(c, t, ReadAdmitted(p.start, p.end))
    case ReadDone(t) =>
      var p := c.clients[t];
      Move(c, t, Idle).(disk := None,
        served := c.served + [Served(t, p.start, p.end, c.file.value[p.start..p.end + 1])])
    case ReadFail(t) =>
      Move(c, t, Idle).(disk := if c.clients[t].ReadWaiting? then c.disk else None)
    case RetireStop => c.(owner := Stopping, stop := true)
    case RetireRemove(removed) => c.(owner := Retired, file := if removed then None else c.file)
    case Lease => c.(leases := c.leases + 1)
    case CloneLease => c.(leases := c.leases + 1)
    case DropLease => c.(leases := c.leases - 1)
  }

  // ----- The invariant -----

  ghost function Flying(c: Cache): set<Tid> {
    set t | t in c.clients && InFlight(c.clients[t])
  }

  ghost function Leasing(c: Cache): set<Tid> {
    set t | t in c.clients && c.clients[t].Downloading?
  }

  ghost predicate LedgerInv(o: Origin, c: Cache) {
    var s := c.ledger;
    && (s.identity.None? ==> s.blocks == [])
    && (s.identity.Some? ==>
          && Known(o, s.identity.value) && |s.blocks| == BlockCount(s.identity.value.length)
          && !s.initializing && s.reservation == Some(s.identity.value.length))
    && (s.initializing ==> !s.disabled)
    && (s.identity.None? && !s.initializing && !s.disabled ==> s.reservation.None?)
  }

  ghost predicate JobOk(s: Ledger, job: Job) {
    && job.expected == s.identity
    && (s.identity.None? ==> job.target == 0 && s.initializing)
    && (s.identity.Some? ==> job.target < |s.blocks| && s.blocks[job.target] == Fetching)
  }

  ghost predicate JobsInv(c: Cache) {
    && (forall t :: t in Flying(c) ==> JobOk(c.ledger, c.clients[t].job))
    && (forall t, u :: t in Flying(c) && u in Flying(c) && t != u ==>
          c.clients[t].job.target != c.clients[u].job.target)
    && (c.ledger.initializing ==> Flying(c) != {})
  }

  /** A block under way is always somebody's: no client waits on a fetch nobody runs. */
  ghost predicate NoOrphans(c: Cache) {
    forall i :: 0 <= i < |c.ledger.blocks| && c.ledger.blocks[i] == Fetching && !c.ledger.disabled ==>
      exists t :: t in Flying(c) && c.clients[t].job.target == i
  }

  ghost predicate CountInv(c: Cache) {
    && c.ledger.fetching == |Flying(c)| <= MAX_FETCHES
    && c.agents + |Leasing(c)| == MAX_FETCHES
    && |c.clients| <= MAX_CLIENTS
  }

  ghost predicate DiskInv(c: Cache) {
    && (c.disk.Some? ==> c.disk.value in c.clients)
    && (forall t :: t in c.clients ==> (OnDisk(c.clients[t]) <==> c.disk == Some(t)))
    && (c.stop <==> !c.owner.Current?)
  }

  ghost predicate BlockHolds(o: Origin, id: Identity, file: Option<seq<Byte>>, i: nat)
    requires Known(o, id)
  {
    && file.Some? && |file.value| == id.length
    && BlockStart(i) < id.length
    && file.value[BlockStart(i)..BlockEnd(i, id.length)] == Rep(o, id)[BlockStart(i)..BlockEnd(i, id.length)]
  }

  ghost predicate FileInv(o: Origin, c: Cache)
    requires LedgerInv(o, c)
  {
    c.ledger.identity.Some? && !c.owner.Retired? ==>
      && c.file.Some? && |c.file.value| == c.ledger.identity.value.length
      && forall i :: 0 <= i < |c.ledger.blocks| && c.ledger.blocks[i] == Ready ==>
           BlockHolds(o, c.ledger.identity.value, c.file, i)
  }

  ghost predicate ReadOk(o: Origin, s: Ledger, start: nat, end: nat) {
    && s.identity.Some?
    && start <= end < s.identity.value.length
    && start / BLOCK_BYTES == end / BLOCK_BYTES < |s.blocks|
    && s.blocks[start / BLOCK_BYTES] == Ready
  }

  ghost predicate PhaseOk(o: Origin, c: Cache, p: Phase) {
    match p
    case Idle => true
    case Elected(job) => job.expected.None? ==> c.ledger.reservation.None?
    case Downloading(job) => job.expected.None? ==> c.ledger.reservation.None?
    case Downloaded(job, got, bytes) =>
      Accepted(o, job, got, bytes) && (job.expected.None? ==> c.ledger.reservation.None?)
    case Cleared(job, got, bytes) =>
      Accepted(o, job, got, bytes) && (job.expected.None? ==> c.ledger.reservation.None?)
    case Charged(job, got, bytes) =>
      && Accepted(o, job, got, bytes) && job.expected.None?
      && c.ledger.reservation == Some(got.length)
    case Locked(job, got, bytes) =>
      Accepted(o, job, got, bytes) && c.ledger.reservation == Some(got.length)
    case Admitted(job, got, bytes) =>
      && Accepted(o, job, got, bytes) && c.ledger.reservation == Some(got.length)
      && !c.owner.Retired?
    case Opened(job, got, bytes, written) =>
      && Accepted(o, job, got, bytes) && c.ledger.reservation == Some(got.length)
      && !c.owner.Retired?
      && written <= |bytes|
      && c.file.Some? && |c.file.value| == got.length
      && c.file.value[BlockStart(job.target)..BlockStart(job.target) + written] == bytes[..written]
    case Finished(job, outcome) =>
      outcome.Some? ==>
        && Known(o, outcome.value)
        && BlockStart(job.target) < outcome.value.length
        && (job.expected.Some? ==> SameRepresentation(outcome.value, job.expected.value))
        && c.ledger.reservation == Some(outcome.value.length)
        && (!c.owner.Retired? ==> BlockHolds(o, outcome.value, c.file, job.target))
    case ReadWaiting(start, end) => ReadOk(o, c.ledger, start, end)
    case ReadLocked(start, end) => ReadOk(o, c.ledger, start, end)
    case ReadAdmitted(start, end) => ReadOk(o, c.ledger, start, end) && !c.owner.Retired?
  }

  ghost predicate PhasesInv(o: Origin, c: Cache) {
    forall t :: t in c.clients ==> PhaseOk(o, c, c.clients[t])
  }

  ghost predicate HistoryInv(o: Origin, c: Cache)
    requires LedgerInv(o, c)
  {
    && (forall i, j :: 0 <= i < j < |c.elected| ==> c.elected[i] != c.elected[j])
    && (c.ledger.identity.None? ==>
          && (forall i :: 0 <= i < |c.elected| ==> c.elected[i] == 0)
          && (c.elected != [] ==> c.ledger.initializing || c.ledger.disabled)
          && c.served == [])
    && (c.ledger.identity.Some? ==>
          && (forall i :: 0 <= i < |c.elected| ==>
                c.elected[i] < |c.ledger.blocks| && c.ledger.blocks[c.elected[i]] != Missing)
          && (forall r :: r in c.served ==>
                && r.start <= r.end < c.ledger.identity.value.length
                && r.bytes == Rep(o, c.ledger.identity.value)[r.start..r.end + 1]))
  }

  ghost predicate Inv(o: Origin, c: Cache) {
    && LedgerInv(o, c)
    && JobsInv(c)
    && NoOrphans(c)
    && CountInv(c)
    && DiskInv(c)
    && FileInv(o, c)
    && PhasesInv(o, c)
    && HistoryInv(o, c)
  }
}
