/**
 * What the clients of a playback cache are sent: the writing loop beside the interleaving model. A
 * client thread that has bytes to send looks at the stop flag, makes one write to its socket, which
 * may take only some of the bytes or none, and goes round again.
 */
module CacheDelivery {
  import opened Basics
  import opened PlaybackLedger
  import opened CacheProtocol
  import CacheInvariant
  import CacheSafety

  /** What a thread is in the middle of sending: file content or a header, and whether the flag was looked at. */
  datatype Outgoing = Outgoing(bytes: seq<Byte>, content: bool, cleared: bool)

  /** One successful write. */
  datatype Piece = Piece(client: Tid, bytes: seq<Byte>, content: bool)

  datatype State = State(cache: Cache, pending: map<Tid, Outgoing>, sent: seq<Piece>)

  datatype Event =
    | Act(a: Action)
    | Offer(t: Tid, header: seq<Byte>)
    | Look(t: Tid)
    | Write(t: Tid, n: nat)
    | Quit(t: Tid)

  const FRESH := State(START, map[], [])

  predicate ByClient(a: Action) {
    !(a.ListenerExit? || a.RetireStop? || a.RetireRemove? || a.Lease? || a.CloneLease? || a.DropLease?)
  }

  /** A thread does nothing else while it sends; a write may be refused for now, which takes no bytes. */
  ghost predicate Possible(o: Origin, s: State, e: Event) {
    match e
    case Act(a) => Enabled(o, s.cache, a) && (ByClient(a) ==> a.t !in s.pending)
    case Offer(t, header) => t in s.cache.clients && t !in s.pending
    case Look(t) => t in s.pending && !s.pending[t].cleared && s.pending[t].bytes != [] && !s.cache.stop
    case Write(t, n) => t in s.pending && s.pending[t].cleared && n <= |s.pending[t].bytes|
    case Quit(t) => t in s.pending
  }

  ghost function After(o: Origin, s: State, e: Event): State
    requires Possible(o, s, e)
  {
    match e
    case Act(a) =>
      var d := Apply(o, s.cache, a);
      s.(cache := d,
         pending := if a.ReadDone? then s.pending[a.t := Outgoing(d.served[|d.served| - 1].bytes, true, false)]
                    else s.pending)
    case Offer(t, header) => s.(pending := s.pending[t := Outgoing(header, false, false)])
    case Look(t) => s.(pending := s.pending[t := s.pending[t].(cleared := true)])
    case Write(t, n) =>
      var p := s.pending[t];
      s.(pending := if n == |p.bytes| then s.pending - {t} else s.pending[t := p.(bytes := p.bytes[n..], cleared := false)],
         sent := if n == 0 then s.sent else s.sent + [Piece(t, p.bytes[..n], p.content)])
    case Quit(t) => s.(pending := s.pending - {t})
  }

  ghost predicate Run(o: Origin, ss: seq<State>, es: seq<Event>) {
    && |ss| == |es| + 1 && ss[0] == FRESH
    && forall i :: 0 <= i < |es| ==> Possible(o, ss[i], es[i]) && ss[i + 1] == After(o, ss[i], es[i])
  }

  // ----- What is sent is the original -----

  /** The part of `whole` that starts at `lo`. */
  predicate StretchOf(whole: seq<Byte>, lo: nat, bytes: seq<Byte>) {
    lo + |bytes| <= |whole| && bytes == whole[lo..lo + |bytes|]
  }

  /** A stretch of a stretch is a stretch of the whole. */
  lemma Nested(whole: seq<Byte>, a: nat, middle: seq<Byte>, b: nat, inner: seq<Byte>)
    requires StretchOf(whole, a, middle) && StretchOf(middle, b, inner)
    ensures StretchOf(whole, a + b, inner)
  {
    var outer := whole[a + b..a + b + |inner|];
    forall k | 0 <= k < |inner|
      ensures inner[k] == outer[k]
    {
      assert inner[k] == middle[b + k] == whole[a + b + k];
    }
    assert inner == outer;
  }

  /** A stretch of something that was read for this client. */
  ghost predicate FromRead(c: Cache, t: Tid, bytes: seq<Byte>) {
    exists r, lo: nat :: r in c.served && r.client == t && StretchOf(r.bytes, lo, bytes)
  }

  ghost predicate Sourced(s: State) {
    && (forall t :: t in s.pending && s.pending[t].content ==> FromRead(s.cache, t, s.pending[t].bytes))
    && (forall i :: 0 <= i < |s.sent| && s.sent[i].content ==> FromRead(s.cache, s.sent[i].client, s.sent[i].bytes))
  }

  lemma PartFromRead(c: Cache, t: Tid, bytes: seq<Byte>, from: nat, to: nat)
    requires FromRead(c, t, bytes) && from <= to <= |bytes|
    ensures FromRead(c, t, bytes[from..to])
  {
    var r, lo: nat :| r in c.served && r.client == t && StretchOf(r.bytes, lo, bytes);
    assert StretchOf(bytes, from, bytes[from..to]);
    Nested(r.bytes, lo, bytes, from, bytes[from..to]);
  }

  lemma StillFromRead(c: Cache, d: Cache, t: Tid, bytes: seq<Byte>)
    requires FromRead(c, t, bytes) && c.served <= d.served
    ensures FromRead(d, t, bytes)
  {
    var r, lo: nat :| r in c.served && r.client == t && StretchOf(r.bytes, lo, bytes);
    assert r in d.served;
  }

  /** The effect of a cache step on what has been read. */
  lemma ServedGrows(o: Origin, c: Cache, a: Action)
    requires Inv(o, c) && Enabled(o, c, a)
    ensures c.served <= Apply(o, c, a).served && (c.stop ==> Apply(o, c, a).stop)
    ensures a.ReadDone? ==> var s := Apply(o, c, a).served; s != [] && s[|s| - 1].client == a.t
  {
    hide Inv;
    CacheSafety.StepOnward(o, c, a);
  }

  lemma SourcedStep(o: Origin, s: State, e: Event)
    requires Inv(o, s.cache) && Sourced(s) && Possible(o, s, e)
    ensures Sourced(After(o, s, e))
  {
    hide Inv, Enabled, Apply, FromRead;
    var d := After(o, s, e);
    if e.Act? {
      ServedGrows(o, s.cache, e.a);
      forall t, bytes | FromRead(s.cache, t, bytes)
        ensures FromRead(d.cache, t, bytes)
      {
        StillFromRead(s.cache, d.cache, t, bytes);
      }
      if e.a.ReadDone? {
        LastRead(d.cache);
      }
    } else if e.Write? {
      var p := s.pending[e.t];
      if p.content {
        PartFromRead(s.cache, e.t, p.bytes, 0, e.n);
        PartFromRead(s.cache, e.t, p.bytes, e.n, |p.bytes|);
        assert p.bytes[0..e.n] == p.bytes[..e.n] && p.bytes[e.n..|p.bytes|] == p.bytes[e.n..];
      }
    }
  }

  lemma LastRead(c: Cache)
    requires c.served != []
    ensures var r := c.served[|c.served| - 1]; FromRead(c, r.client, r.bytes)
  {
    var r := c.served[|c.served| - 1];
    assert r in c.served && StretchOf(r.bytes, 0, r.bytes);
  }

  lemma {:induction false} RunSourced(o: Origin, ss: seq<State>, es: seq<Event>, i: nat)
    requires Run(o, ss, es) && i < |ss|
    ensures Inv(o, ss[i].cache) && Sourced(ss[i])
    decreases i
  {
    hide Inv, Sourced, Enabled, Apply;
    if i == 0 {
      CacheInvariant.StartInv(o);
      NothingSent();
    } else {
      RunSourced(o, ss, es, i - 1);
      SourcedStep(o, ss[i - 1], es[i - 1]);
      if es[i - 1].Act? {
        CacheInvariant.StepInv(o, ss[i - 1].cache, es[i - 1].a);
      }
    }
  }

  lemma NothingSent()
    ensures Sourced(FRESH)
  {
  }

  /** Whatever was ever written to a socket as content is a stretch of the original. */
  lemma SentIsOriginal(o: Origin, ss: seq<State>, es: seq<Event>, i: nat, k: nat)
    requires Run(o, ss, es) && i < |ss| && k < |ss[i].sent| && ss[i].sent[k].content
    ensures ss[i].cache.ledger.identity.Some? && Known(o, ss[i].cache.ledger.identity.value)
    ensures exists lo: nat :: StretchOf(Rep(o, ss[i].cache.ledger.identity.value), lo, ss[i].sent[k].bytes)
  {
    hide Run;
    RunSourced(o, ss, es, i);
    var c, bytes := ss[i].cache, ss[i].sent[k].bytes;
    var r, lo: nat :| r in c.served && r.client == ss[i].sent[k].client && StretchOf(r.bytes, lo, bytes);
    hide JobsInv, NoOrphans, CountInv, DiskInv, FileInv, PhasesInv;
    assert HistoryInv(o, c);
    var rep := Rep(o, c.ledger.identity.value);
    assert StretchOf(rep, r.start, r.bytes);
    Nested(rep, r.start, r.bytes, lo, bytes);
  }

  // ----- What is sent once the owner has stopped the cache -----

  /** The writes of one client among some events. */
  function WritesOf(es: seq<Event>, t: Tid): nat {
    if es == [] then 0
    else WritesOf(es[..|es| - 1], t) + if es[|es| - 1].Write? && es[|es| - 1].t == t then 1 else 0
  }

  /** A client that has looked at the flag may write without looking again, once. */
  function Cleared(s: State, t: Tid): nat {
    if t in s.pending && s.pending[t].cleared then 1 else 0
  }

  lemma ClearedStep(o: Origin, s: State, e: Event, t: Tid)
    requires Inv(o, s.cache) && Possible(o, s, e) && s.cache.stop
    ensures var d := After(o, s, e);
      && d.cache.stop
      && Cleared(d, t) + (if e.Write? && e.t == t then 1 else 0) <= Cleared(s, t)
  {
    hide Inv, Enabled, Apply;
    if e.Act? {
      ServedGrows(o, s.cache, e.a);
    }
  }

  /**
   * After the owner has raised the stop flag each client makes at most one more write, and only if it
   * had looked at the flag before; so retirement is followed by at most one write for each client.
   */
  lemma {:induction false} OneWriteAfterStop(o: Origin, ss: seq<State>, es: seq<Event>, i: nat, j: nat, t: Tid)
    requires Run(o, ss, es) && i <= j < |ss| && ss[i].cache.stop
    ensures ss[j].cache.stop
    ensures WritesOf(es[i..j], t) + Cleared(ss[j], t) <= Cleared(ss[i], t) <= 1
    decreases j - i
  {
    hide Inv, Possible, After;
    if i < j {
      OneWriteAfterStop(o, ss, es, i, j - 1, t);
      RunSourced(o, ss, es, j - 1);
      ClearedStep(o, ss[j - 1], es[j - 1], t);
      assert es[i..j][..j - 1 - i] == es[i..j - 1];
    }
  }
}
