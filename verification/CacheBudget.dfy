/**
 The global disk budget shared by all playback caches.

 `Budget` is the pair of atomic counters. The world holds every cache that is not yet
 freed, each running its own protocol; a cache is freed when its owner, its listener,
 its clients and its leases are all gone, which is when its permit and reservation drop.
 */
module CacheBudget {
  import opened Basics
  import opened Text
  import opened PlaybackLedger
  import opened CacheProtocol
  import CacheInvariant
  import CacheSafety

  const MAX_TOTAL_BYTES: nat := 512 * 1024 * 1024
  const MAX_ENTRIES: nat := 4

  function Fits(used: nat, length: nat): bool {
    used + length <= U64_MAX && used + length <= MAX_TOTAL_BYTES
  }

  class Budget {
    var entries: nat
    var bytes: nat

    constructor ()
      ensures entries == 0 && bytes == 0
    {
      entries, bytes := 0, 0;
    }

    /** Takes an entry permit if one is left. */
    method Permit() returns (ok: bool)
      modifies this`entries
      ensures ok <==> old(entries) < 4
      ensures entries == old(entries) + if ok then 1 else 0
    {
      ok := entries < MAX_ENTRIES;
      if ok {
        entries := entries + 1;
      }
    }

    /** Adds `length` unless the sum overflows or exceeds the maximum. */
    method Reserve(length: nat) returns (ok: bool)
      requires bytes <= U64_MAX && length <= U64_MAX
      modifies this`bytes
      ensures ok <==> Fits(old(bytes), length)
      ensures ok <==> old(bytes) + length <= 512 * 1024 * 1024
      ensures bytes == old(bytes) + if ok then length else 0
    {
      ok := false;
      if length <= U64_MAX - bytes {
        var sum := bytes + length;
        if sum <= MAX_TOTAL_BYTES {
          bytes := sum;
          ok := true;
        }
      }
    }

    /** Drops a reservation and a permit; the source subtracts without a check. */
    method Release(reservation: Option<nat>)
      requires 0 < entries
      requires reservation.Some? ==> reservation.value <= bytes
      modifies this
      ensures entries == old(entries) - 1
      ensures bytes == old(bytes) - if reservation.Some? then reservation.value else 0
    {
      entries := entries - 1;
      if reservation.Some? {
        bytes := bytes - reservation.value;
      }
    }
  }

  function Held(r: Option<nat>): nat {
    match r case None => 0 case Some(n) => n
  }

  type Id = nat

  /** `starting` counts the starts that hold a permit and have not yet succeeded or failed. */
  datatype World = World(caches: map<Id, Cache>, starting: nat, entries: nat, bytes: nat)

  datatype Event =
    | TakePermit
    | GiveUp
    | Begin(id: Id)
    | Local(id: Id, a: Action)
    | Reserve(id: Id, t: Tid)
    | Free(id: Id)

  const EMPTY_WORLD := World(map[], 0, 0, 0)

  /** Nobody holds the shared state any more. */
  predicate Released(c: Cache) {
    c.owner.Retired? && !c.listening && c.clients == map[] && c.leases == 0
  }

  ghost predicate Possible(o: Origin, w: World, e: Event) {
    match e
    case TakePermit => w.entries < MAX_ENTRIES
    case GiveUp => 0 < w.starting
    case Begin(id) => id !in w.caches && 0 < w.starting
    case Local(id, a) => id in w.caches && !a.Charge? && Enabled(o, w.caches[id], a)
    case Reserve(id, t) =>
      && id in w.caches && Enabled(o, w.caches[id], Charge(t))
      && Fits(w.bytes, w.caches[id].clients[t].got.length)
    case Free(id) => id in w.caches && Released(w.caches[id])
  }

  /** Counters are integers here, so that an unchecked subtraction below zero would show. */
  ghost predicate Happens(o: Origin, w: World, e: Event, v: World)
    requires Possible(o, w, e)
  {
    match e
    case TakePermit => v == w.(starting := w.starting + 1, entries := w.entries + 1)
    case GiveUp => v.entries as int == w.entries - 1 && v == w.(starting := w.starting - 1, entries := v.entries)
    case Begin(id) => v == w.(caches := w.caches[id := START], starting := w.starting - 1)
    case Local(id, a) => v == w.(caches := w.caches[id := Apply(o, w.caches[id], a)])
    case Reserve(id, t) =>
      v == w.(caches := w.caches[id := Apply(o, w.caches[id], Charge(t))],
              bytes := w.bytes + w.caches[id].clients[t].got.length)
    case Free(id) =>
      && v.caches == w.caches - {id} && v.starting == w.starting
      && v.entries as int == w.entries - 1
      && v.bytes as int == w.bytes - Held(w.caches[id].ledger.reservation)
  }

  // ----- The bytes held by all caches -----

  ghost function Sum(m: map<Id, nat>): nat {
    if m == map[] then 0 else
      var k :| k in m;
      m[k] + Sum(m - {k})
  }

  lemma {:induction false} SumWithout(m: map<Id, nat>, k: Id)
    requires k in m
    ensures Sum(m) == m[k] + Sum(m - {k})
    decreases |m|
  {
    var p :| p in m && Sum(m) == m[p] + Sum(m - {p});
    if p != k {
      assert |(m - {p}).Keys| < |m.Keys| by {
        assert (m - {p}).Keys == m.Keys - {p};
      }
      SumWithout(m - {p}, k);
      assert |(m - {k}).Keys| < |m.Keys| by {
        assert (m - {k}).Keys == m.Keys - {k};
      }
      SumWithout(m - {k}, p);
      assert m - {p} - {k} == m - {k} - {p};
    }
  }

  lemma SumPut(m: map<Id, nat>, k: Id, n: nat)
    ensures Sum(m[k := n]) == n + Sum(m - {k})
  {
    SumWithout(m[k := n], k);
    assert m[k := n] - {k} == m - {k};
  }

  ghost function Reservations(w: World): map<Id, nat> {
    map id | id in w.caches :: Held(w.caches[id].ledger.reservation)
  }

  ghost predicate Balanced(o: Origin, w: World) {
    && (forall id :: id in w.caches ==> Inv(o, w.caches[id]))
    && w.bytes == Sum(Reservations(w)) <= MAX_TOTAL_BYTES
    && w.entries == |w.caches| + w.starting <= MAX_ENTRIES
  }

  /** No step but the initializing thread's charge touches the reservation. */
  lemma LocalKeepsReservation(o: Origin, c: Cache, a: Action)
    requires Enabled(o, c, a) && !a.Charge?
    ensures Apply(o, c, a).ledger.reservation == c.ledger.reservation
  {
    if a.Elect? || a.Settle? {
      hide Accepted, Decide, WriteAt;
    } else if CacheSafety.UsesFile(a) {
      hide Accepted, Decide, Settled, AfterElection, WriteAt;
    } else {
      hide Apply, Enabled;
      CacheSafety.OtherStepKeepsLedger(o, c, a);
    }
  }

  ghost function HeldBy(w: World, id: Id): nat {
    if id in w.caches then Held(w.caches[id].ledger.reservation) else 0
  }

  /** Adding or replacing one cache moves the byte counter by the change of that cache's reservation. */
  lemma ReplaceSum(w: World, v: World, id: Id)
    requires w.bytes == Sum(Reservations(w))
    requires id in v.caches && v.caches == w.caches[id := v.caches[id]]
    requires v.bytes as int == w.bytes + HeldBy(v, id) - HeldBy(w, id)
    ensures v.bytes == Sum(Reservations(v))
  {
    hide Held;
    var m := Reservations(w);
    assert Reservations(v) == m[id := HeldBy(v, id)];
    SumPut(m, id, HeldBy(v, id));
    if id in m {
      SumWithout(m, id);
    } else {
      assert m - {id} == m;
    }
  }

  lemma ReplaceBalanced(o: Origin, w: World, v: World, id: Id)
    requires Balanced(o, w)
    requires id in v.caches && v.caches == w.caches[id := v.caches[id]] && Inv(o, v.caches[id])
    requires v.entries == w.entries && v.starting as int == w.starting - (if id in w.caches then 0 else 1)
    requires v.bytes as int == w.bytes + HeldBy(v, id) - HeldBy(w, id) && v.bytes <= MAX_TOTAL_BYTES
    ensures Balanced(o, v)
  {
    hide Inv, Sum, Held, Reservations;
    ReplaceSum(w, v, id);
    assert v.caches.Keys == w.caches.Keys + {id};
  }

  lemma FreeBalanced(o: Origin, w: World, v: World, id: Id)
    requires Balanced(o, w) && Possible(o, w, Free(id)) && Happens(o, w, Free(id), v)
    ensures Balanced(o, v)
  {
    hide Inv, Sum, Held;
    SumWithout(Reservations(w), id);
    assert Reservations(w) - {id} == Reservations(v);
    assert v.caches.Keys == w.caches.Keys - {id};
  }

  /** Each event of any cache keeps both counters equal to what is really held. */
  lemma EventBalanced(o: Origin, w: World, e: Event, v: World)
    requires Balanced(o, w) && Possible(o, w, e) && Happens(o, w, e, v)
    ensures Balanced(o, v)
  {
    hide Inv, Enabled, Apply, Sum, Held;
    match e
    case TakePermit =>
      assert Reservations(v) == Reservations(w);
    case GiveUp =>
      assert Reservations(v) == Reservations(w);
    case Begin(id) =>
      CacheInvariant.StartInv(o);
      StartHoldsNothing();
      hide Reservations;
      ReplaceBalanced(o, w, v, id);
    case Local(id, a) =>
      CacheInvariant.StepInv(o, w.caches[id], a);
      LocalKeepsReservation(o, w.caches[id], a);
      hide Reservations;
      ReplaceBalanced(o, w, v, id);
    case Reserve(id, t) =>
      CacheInvariant.StepInv(o, w.caches[id], Charge(t));
      ChargeHolds(o, w.caches[id], t);
      hide Reservations;
      ReplaceBalanced(o, w, v, id);
    case Free(id) =>
      FreeBalanced(o, w, v, id);
  }

  lemma StartHoldsNothing()
    ensures Held(START.ledger.reservation) == 0
  {
  }

  lemma ChargeHolds(o: Origin, c: Cache, t: Tid)
    requires Inv(o, c) && Enabled(o, c, Charge(t))
    ensures Held(c.ledger.reservation) == 0
    ensures Held(Apply(o, c, Charge(t)).ledger.reservation) == c.clients[t].got.length
  {
    hide LedgerInv, JobsInv, NoOrphans, CountInv, DiskInv, FileInv, PhasesInv, HistoryInv;
    CacheSafety.ReservesOnce(o, c, t);
  }

  ghost predicate Timeline(o: Origin, ws: seq<World>, es: seq<Event>) {
    && |ws| == |es| + 1 && ws[0] == EMPTY_WORLD
    && forall i :: 0 <= i < |es| ==> Possible(o, ws[i], es[i]) && Happens(o, ws[i], es[i], ws[i + 1])
  }

  /**
   Over every sequence of starts, failed or not, fetches, reservations, retirements and lease
   drops of any number of caches: bytes are the sum of live reservations and within the maximum,
   entries are the live permits and at most four, and when the last holder is gone both are zero.
   */
  lemma {:induction false} BudgetConserved(o: Origin, ws: seq<World>, es: seq<Event>, i: nat)
    requires Timeline(o, ws, es) && i < |ws|
    ensures Balanced(o, ws[i])
    ensures ws[i].caches == map[] ==> ws[i].entries == ws[i].starting && ws[i].bytes == 0
    decreases i
  {
    hide Inv, Possible, Happens;
    if i == 0 {
      assert Reservations(EMPTY_WORLD) == map[];
    } else {
      BudgetConserved(o, ws, es, i - 1);
      hide Balanced;
      EventBalanced(o, ws[i - 1], es[i - 1], ws[i]);
    }
    assert Balanced(o, ws[i]);
    assert ws[i].caches == map[] ==> Reservations(ws[i]) == map[];
  }

  /** Neither freeing a cache nor giving up a start takes a counter below zero. */
  lemma ReleaseNeverUnderflows(o: Origin, ws: seq<World>, es: seq<Event>, i: nat, id: Id)
    requires Timeline(o, ws, es) && i < |ws| && id in ws[i].caches
    ensures 0 < ws[i].entries && Held(ws[i].caches[id].ledger.reservation) <= ws[i].bytes
    ensures ws[i].starting <= ws[i].entries
  {
    hide Inv, Possible, Happens, Timeline, Held;
    BudgetConserved(o, ws, es, i);
    SumWithout(Reservations(ws[i]), id);
  }
}
