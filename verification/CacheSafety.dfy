/** What holds over whole runs of the playback cache, for every interleaving of its clients. */
module CacheSafety {
  import opened Basics
  import opened PlaybackLedger
  import opened CacheProtocol
  import CacheInvariant

  ghost predicate Run(o: Origin, cs: seq<Cache>, acts: seq<Action>) {
    && |cs| == |acts| + 1
    && forall i :: 0 <= i < |acts| ==> Enabled(o, cs[i], acts[i]) && cs[i + 1] == Apply(o, cs[i], acts[i])
  }

  /** A run of a freshly started cache. */
  ghost predicate History(o: Origin, cs: seq<Cache>, acts: seq<Action>) {
    Run(o, cs, acts) && cs[0] == START
  }

  lemma {:induction false} Reached(o: Origin, cs: seq<Cache>, acts: seq<Action>, i: nat)
    requires History(o, cs, acts) && i < |cs|
    ensures Inv(o, cs[i])
    decreases i
  {
    hide Inv, Enabled, Apply;
    if i == 0 {
      CacheInvariant.StartInv(o);
    } else {
      Reached(o, cs, acts, i - 1);
      CacheInvariant.StepInv(o, cs[i - 1], acts[i - 1]);
    }
  }

  // ----- What one step, and so any run, can only move forward -----

  function Rank(b: BlockState): nat {
    match b case Missing => 0 case Fetching => 1 case Ready => 2
  }

  /** Every block is on disk and nothing has failed. */
  ghost predicate Whole(s: Ledger) {
    s.blocks != [] && !s.disabled && forall i :: 0 <= i < |s.blocks| ==> s.blocks[i] == Ready
  }

  ghost predicate Onward(c: Cache, d: Cache) {
    && (c.stop ==> d.stop)
    && (c.ledger.disabled ==> d.ledger.disabled)
    && (c.ledger.identity.Some? ==>
          && d.ledger.identity == c.ledger.identity
          && |d.ledger.blocks| == |c.ledger.blocks|
          && forall i :: 0 <= i < |c.ledger.blocks| ==> Rank(c.ledger.blocks[i]) <= Rank(d.ledger.blocks[i]))
    && (Whole(c.ledger) ==> Whole(d.ledger))
    && (c.owner.Retired? ==> d.owner.Retired? && d.file == c.file && d.served == c.served)
    && c.elected <= d.elected
    && c.served <= d.served
  }

  lemma OnwardTrans(b: Cache, c: Cache, d: Cache)
    requires Onward(b, c) && Onward(c, d)
    ensures Onward(b, d)
  {
    if b.ledger.identity.Some? {
      forall i | 0 <= i < |b.ledger.blocks|
        ensures Rank(b.ledger.blocks[i]) <= Rank(d.ledger.blocks[i])
      {
        assert Rank(b.ledger.blocks[i]) <= Rank(c.ledger.blocks[i]);
      }
    }
  }

  lemma QuietOnward(c: Cache, d: Cache)
    requires d.ledger.(reservation := c.ledger.reservation) == c.ledger
    requires c.stop ==> d.stop
    requires c.owner.Retired? ==> d.owner.Retired? && d.file == c.file && d.served == c.served
    requires c.elected == d.elected && c.served <= d.served
    ensures Onward(c, d)
  {
  }

  lemma ElectOnward(o: Origin, c: Cache, t: Tid, index: nat)
    requires Inv(o, c) && Enabled(o, c, Elect(t, index))
    ensures Onward(c, Apply(o, c, Elect(t, index)))
  {
    hide JobsInv, NoOrphans, CountInv, DiskInv, FileInv, PhasesInv, HistoryInv;
  }

  lemma SettleOnward(o: Origin, c: Cache, t: Tid)
    requires Inv(o, c) && Enabled(o, c, Action.Settle(t))
    ensures Onward(c, Apply(o, c, Action.Settle(t)))
  {
    hide NoOrphans, CountInv, DiskInv, FileInv, PhasesInv, HistoryInv;
    CacheInvariant.JobKnown(c, t);
  }

  lemma StepOnward(o: Origin, c: Cache, a: Action)
    requires Inv(o, c) && Enabled(o, c, a)
    ensures Onward(c, Apply(o, c, a))
  {
    if a.Elect? {
      hide Onward, Inv, Apply;
      ElectOnward(o, c, a.t, a.index);
    } else if a.Settle? {
      hide Onward, Inv, Apply;
      SettleOnward(o, c, a.t);
    } else {
      hide Onward;
      StepKeepsLedger(o, c, a);
      QuietOnward(c, Apply(o, c, a));
    }
  }

  lemma StepKeepsLedger(o: Origin, c: Cache, a: Action)
    requires Inv(o, c) && Enabled(o, c, a) && !a.Elect? && !a.Settle?
    ensures var d := Apply(o, c, a);
      && d.ledger.(reservation := c.ledger.reservation) == c.ledger
      && (c.stop ==> d.stop)
      && (c.owner.Retired? ==> d.owner.Retired? && d.file == c.file && d.served == c.served)
      && c.elected == d.elected && c.served <= d.served
  {
    if UsesFile(a) {
      hide Enabled, Apply, LedgerInv, JobsInv, NoOrphans, CountInv, DiskInv, FileInv, HistoryInv, PhaseOk, PhasesInv;
      InsidePayload(o, c, a);
      FileStepKeepsLedger(o, c, a);
    } else {
      hide Inv;
      OtherStepKeepsLedger(o, c, a);
    }
  }

  predicate Fetches(a: Action) {
    a.Checkout? || a.Download? || a.Clear? || a.Charge? || a.LockDisk? || a.Admit? || a.Close? || a.Fail?
  }

  lemma FetchStepKeepsLedger(o: Origin, c: Cache, a: Action)
    requires Enabled(o, c, a) && Fetches(a)
    ensures var d := Apply(o, c, a);
      && d.ledger.(reservation := c.ledger.reservation) == c.ledger
      && (!a.Charge? ==> d.ledger == c.ledger)
      && d.stop == c.stop && d.owner == c.owner && d.file == c.file
      && c.elected == d.elected && c.served == d.served
  {
    hide Accepted, Decide, OnDisk;
  }

  lemma OtherStepKeepsLedger(o: Origin, c: Cache, a: Action)
    requires Enabled(o, c, a) && !a.Elect? && !a.Settle? && !UsesFile(a)
    ensures var d := Apply(o, c, a);
      && d.ledger.(reservation := c.ledger.reservation) == c.ledger
      && (!a.Charge? ==> d.ledger == c.ledger)
      && (c.stop ==> d.stop)
      && (c.owner.Retired? ==> d.owner.Retired? && d.file == c.file && d.served == c.served)
      && c.elected == d.elected && c.served == d.served
  {
    if Fetches(a) {
      hide Apply, Enabled;
      FetchStepKeepsLedger(o, c, a);
    }
  }

  /** Steps that touch the payload: creating, opening, writing or reading it. */
  predicate UsesFile(a: Action) {
    a.Open? || a.OpenUnsized? || a.Write? || a.ReadDone?
  }

  /** No client is inside the payload once the owner has retired. */
  lemma FileStepKeepsLedger(o: Origin, c: Cache, a: Action)
    requires Enabled(o, c, a) && UsesFile(a) && PhaseOk(o, c, c.clients[a.t])
    ensures !c.owner.Retired?
    ensures var d := Apply(o, c, a);
      d.ledger == c.ledger && d.stop == c.stop && c.elected == d.elected && c.served <= d.served
  {
  }

  /** Over any stretch of a run the identity is set once, blocks only advance, and retirement is final. */
  lemma {:induction false} RunOnward(o: Origin, cs: seq<Cache>, acts: seq<Action>, i: nat, j: nat)
    requires History(o, cs, acts) && i <= j < |cs|
    ensures Onward(cs[i], cs[j])
    decreases j - i
  {
    hide Inv, Enabled, Apply;
    if i == j {
      QuietOnward(cs[i], cs[j]);
    } else {
      hide Onward;
      RunOnward(o, cs, acts, i, j - 1);
      Reached(o, cs, acts, j - 1);
      StepOnward(o, cs[j - 1], acts[j - 1]);
      OnwardTrans(cs[i], cs[j - 1], cs[j]);
    }
  }

  // ----- The original bytes -----

  lemma SlicesAgree(o: Origin, id: Identity, file: seq<Byte>)
    requires Known(o, id) && |file| == id.length
    requires forall i :: 0 <= i < BlockCount(id.length) ==> BlockHolds(o, id, Some(file), i)
    ensures file == Rep(o, id)
  {
    forall k | 0 <= k < |file|
      ensures file[k] == Rep(o, id)[k]
    {
      var i := k / BLOCK_BYTES;
      assert BlockHolds(o, id, Some(file), i);
      var lo, hi := BlockStart(i), BlockEnd(i, id.length);
      assert file[lo..hi][k - lo] == Rep(o, id)[lo..hi][k - lo];
    }
  }

  /** A completed cache holds the whole original: every byte, and no other. */
  lemma CompletedIsOriginal(o: Origin, cs: seq<Cache>, acts: seq<Action>, i: nat)
    requires History(o, cs, acts) && i < |cs| && Complete(cs[i].ledger, cs[i].stop)
    ensures cs[i].ledger.identity.Some? && Known(o, cs[i].ledger.identity.value)
    ensures cs[i].file == Some(Rep(o, cs[i].ledger.identity.value))
  {
    hide Enabled, Apply;
    Reached(o, cs, acts, i);
    var c := cs[i];
    hide JobsInv, NoOrphans, CountInv, PhasesInv, HistoryInv;
    SlicesAgree(o, c.ledger.identity.value, c.file.value);
  }

  /** Everything ever read for a client is the same range of the original. */
  lemma ServedIsOriginal(o: Origin, cs: seq<Cache>, acts: seq<Action>, i: nat, r: Served)
    requires History(o, cs, acts) && i < |cs| && r in cs[i].served
    ensures cs[i].ledger.identity.Some? && Known(o, cs[i].ledger.identity.value)
    ensures r.start <= r.end < cs[i].ledger.identity.value.length
    ensures r.bytes == Rep(o, cs[i].ledger.identity.value)[r.start..r.end + 1]
  {
    hide Enabled, Apply;
    Reached(o, cs, acts, i);
    hide JobsInv, NoOrphans, CountInv, DiskInv, FileInv, PhasesInv;
  }

  /** A completed original never fails afterwards: its leases are current exactly until the owner stops. */
  lemma CompletedStays(o: Origin, cs: seq<Cache>, acts: seq<Action>, i: nat, j: nat)
    requires History(o, cs, acts) && i <= j < |cs| && Complete(cs[i].ledger, cs[i].stop)
    ensures IsCurrent(cs[j]) <==> !cs[j].stop
    ensures Complete(cs[j].ledger, cs[j].stop) <==> !cs[j].stop
  {
    hide Enabled, Apply;
    RunOnward(o, cs, acts, i, j);
  }

  ghost predicate IsCurrent(c: Cache) {
    !c.stop && !c.ledger.disabled
  }

  /** Once a lease is stale it never becomes current again. */
  lemma StaleForever(o: Origin, cs: seq<Cache>, acts: seq<Action>, i: nat, j: nat)
    requires History(o, cs, acts) && i <= j < |cs| && !IsCurrent(cs[i])
    ensures !IsCurrent(cs[j]) && !Complete(cs[j].ledger, cs[j].stop)
  {
    hide Enabled, Apply;
    RunOnward(o, cs, acts, i, j);
  }

  /** After retirement no step of any fetch or read in flight creates, writes or reads the payload. */
  lemma RetirementIsFinal(o: Origin, cs: seq<Cache>, acts: seq<Action>, i: nat, j: nat)
    requires History(o, cs, acts) && i <= j < |cs| && cs[i].owner.Retired?
    ensures cs[j].owner.Retired? && cs[j].file == cs[i].file && cs[j].served == cs[i].served
    ensures !IsCurrent(cs[j]) && !Complete(cs[j].ledger, cs[j].stop)
    ensures j < |acts| ==> !UsesFile(acts[j])
  {
    hide Enabled, Apply;
    RunOnward(o, cs, acts, i, j);
    Reached(o, cs, acts, j);
    hide JobsInv, NoOrphans, CountInv, FileInv, HistoryInv, LedgerInv;
    if j < |acts| && UsesFile(acts[j]) {
      InsidePayload(o, cs[j], acts[j]);
      FileStepKeepsLedger(o, cs[j], acts[j]);
    }
  }

  lemma InsidePayload(o: Origin, c: Cache, a: Action)
    requires PhasesInv(o, c) && Enabled(o, c, a) && UsesFile(a)
    ensures PhaseOk(o, c, c.clients[a.t])
  {
  }

  // ----- Bounds, elections and waiting -----

  /** At most two fetches run, and a thread elected to fetch always finds an agent in the pool. */
  lemma FetchesBounded(o: Origin, cs: seq<Cache>, acts: seq<Action>, i: nat, t: Tid)
    requires History(o, cs, acts) && i < |cs|
    ensures |Flying(cs[i])| == cs[i].ledger.fetching <= MAX_FETCHES
    ensures |cs[i].clients| <= MAX_CLIENTS
    ensures t in cs[i].clients && cs[i].clients[t].Elected? ==> Enabled(o, cs[i], Checkout(t))
  {
    var c := cs[i];
    assert Inv(o, c) by {
      hide Enabled, Apply, Inv;
      Reached(o, cs, acts, i);
    }
    hide LedgerInv, JobsInv, NoOrphans, DiskInv, FileInv, PhasesInv, HistoryInv, History;
    if t in c.clients && c.clients[t].Elected? {
      SubsetSize(Leasing(c) + {t}, Flying(c));
    }
  }

  /** No block is handed to a fetcher twice; so the initial request is also made only once. */
  lemma ElectedOnce(o: Origin, cs: seq<Cache>, acts: seq<Action>, i: nat, j: nat)
    requires History(o, cs, acts) && i < j < |acts| && acts[i].Elect? && acts[j].Elect?
    ensures Decide(cs[i].ledger, acts[i].index).job.target != Decide(cs[j].ledger, acts[j].index).job.target
  {
    RunOnward(o, cs, acts, i + 1, j);
    var e := cs[i + 1].elected;
    assert e == cs[i].elected + [Decide(cs[i].ledger, acts[i].index).job.target];
    assert cs[j].elected[|e| - 1] == e[|e| - 1];
    assert cs[j + 1].elected == cs[j].elected + [Decide(cs[j].ledger, acts[j].index).job.target];
    Reached(o, cs, acts, j + 1);
    assert HistoryInv(o, cs[j + 1]);
    hide Enabled, Apply, LedgerInv, JobsInv, NoOrphans, CountInv, DiskInv, FileInv, PhasesInv, Onward;
    assert cs[j + 1].elected[|e| - 1] != cs[j + 1].elected[|cs[j].elected|];
  }

  /** A client that is told to wait always waits for a fetch that some thread is still running. */
  lemma WaitsForSomebody(o: Origin, cs: seq<Cache>, acts: seq<Action>, i: nat, index: nat)
    requires History(o, cs, acts) && i < |cs| && Decide(cs[i].ledger, index).Wait?
    ensures Flying(cs[i]) != {}
  {
    hide Enabled, Apply;
    Reached(o, cs, acts, i);
    hide FileInv, PhasesInv, HistoryInv, DiskInv;
    var s := cs[i].ledger;
    assert index < |s.blocks| && s.blocks[index] == Fetching ==>
      exists t :: t in Flying(cs[i]) && cs[i].clients[t].job.target == index;
  }

  /** The initializing thread is the only one to reserve, and it does so once. */
  lemma ReservesOnce(o: Origin, c: Cache, t: Tid)
    requires Inv(o, c) && Enabled(o, c, Charge(t))
    ensures c.ledger.reservation.None?
    ensures 0 < c.clients[t].got.length <= MAX_FILE_BYTES
  {
    hide LedgerInv, JobsInv, NoOrphans, CountInv, DiskInv, FileInv, HistoryInv;
    assert PhaseOk(o, c, c.clients[t]);
  }

  // ----- What a client is told, and what an election and a publication change -----

  /**
   In every reachable state: a client is refused exactly when the cache is disabled or the block lies
   outside the identified file; it is served exactly when the block is ready in a live cache; it waits
   exactly for the initialization or its own block under way, or because two fetches already run; and
   otherwise it is made to fetch, block 0 as long as the file is unidentified.
   */
  lemma VerdictMeaning(o: Origin, cs: seq<Cache>, acts: seq<Action>, i: nat, index: nat)
    requires History(o, cs, acts) && i < |cs|
    ensures var s, v := cs[i].ledger, Decide(cs[i].ledger, index);
      && (v == Refuse <==> s.disabled || (s.identity.Some? && index >= BlockCount(s.identity.value.length)))
      && (v.Serve? <==> !s.disabled && index < |s.blocks| && s.blocks[index] == Ready)
      && (v.Serve? ==> Some(v.identity) == s.identity)
      && (v == Wait <==>
            (!s.disabled && if s.identity.None? then s.initializing
                            else index < |s.blocks| && (s.blocks[index] == Fetching
                                                        || (s.blocks[index] == Missing && |Flying(cs[i])| == 2))))
      && (v.Fetch? <==>
            (!s.disabled && if s.identity.None? then !s.initializing
                            else index < |s.blocks| && s.blocks[index] == Missing && |Flying(cs[i])| < 2))
      && (v.Fetch? ==> v.job.expected == s.identity && v.job.target == if s.identity.None? then 0 else index)
  {
    hide Enabled, Apply;
    Reached(o, cs, acts, i);
    hide JobsInv, NoOrphans, DiskInv, FileInv, PhasesInv, HistoryInv, History;
  }

  /** An election marks exactly the elected block, or the initialization, and counts one more fetch. */
  lemma ElectionMeaning(o: Origin, cs: seq<Cache>, acts: seq<Action>, i: nat)
    requires History(o, cs, acts) && i < |acts| && acts[i].Elect?
    ensures var s, d := cs[i].ledger, cs[i + 1].ledger;
      && d.fetching == s.fetching + 1
      && d.identity == s.identity && d.disabled == s.disabled && d.reservation == s.reservation
      && if s.identity.None? then d.initializing && d.blocks == s.blocks
         else
           && d.initializing == s.initializing && |d.blocks| == |s.blocks|
           && forall k :: 0 <= k < |s.blocks| ==> d.blocks[k] == if k == acts[i].index then Fetching else s.blocks[k]
  {
    VerdictMeaning(o, cs, acts, i, acts[i].index);
    hide Decide, Inv;
  }

  /**
   A fetch that ends well in a cache neither stopped nor disabled makes its block ready, and the first
   one identifies the file with every other block missing. Any other end disables the cache and
   changes neither the identity nor a block.
   */
  lemma PublicationMeaning(o: Origin, cs: seq<Cache>, acts: seq<Action>, i: nat)
    requires History(o, cs, acts) && i < |acts| && acts[i].Settle?
    requires acts[i].t in cs[i].clients && cs[i].clients[acts[i].t].Finished?
    ensures var p, s, d := cs[i].clients[acts[i].t], cs[i].ledger, cs[i + 1].ledger;
      && d.fetching == s.fetching - 1 && d.reservation == s.reservation
      && (p.outcome.None? || s.disabled || cs[i].stop ==> d.disabled && d.identity == s.identity && d.blocks == s.blocks)
      && (p.outcome.Some? && !s.disabled && !cs[i].stop ==>
            && !d.disabled && !d.initializing
            && d.identity == (if s.identity.Some? then s.identity else p.outcome)
            && |d.blocks| == BlockCount(d.identity.value.length)
            && p.job.target < |d.blocks| && d.blocks[p.job.target] == Ready
            && (s.identity.Some? ==> |d.blocks| == |s.blocks|)
            && forall k :: 0 <= k < |d.blocks| && k != p.job.target ==>
                 d.blocks[k] == if k < |s.blocks| then s.blocks[k] else Missing)
  {
    var t := acts[i].t;
    assert Inv(o, cs[i]) by {
      hide Enabled, Apply, Inv;
      Reached(o, cs, acts, i);
    }
    hide NoOrphans, CountInv, DiskInv, FileInv, HistoryInv;
    CacheInvariant.JobKnown(cs[i], t);
    assert PhaseOk(o, cs[i], cs[i].clients[t]);
    hide PhasesInv, PhaseOk;
    assert Enabled(o, cs[i], acts[i]) && cs[i + 1] == Apply(o, cs[i], acts[i]);
  }
}
