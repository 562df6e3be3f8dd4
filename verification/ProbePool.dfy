/**
 The parallel quality refresh of NPR services: workers take services from a shared queue,
 probe them, and send results over a channel, which are then merged into the quality cache.
 */
module ProbePool {
  import opened Basics
  import NprServices

  const WORKERS: nat := 4

  type Choice = NprServices.Choice

  /** Technical facts of a stream, as opaque values. */
  datatype Facts = Facts(codec: Option<nat>, bitrate: Option<nat>, sampleRate: Option<nat>, channels: Option<nat>)

  datatype Quality = Quality(url: string, probedOn: string, facts: Facts)

  datatype Unplayable = Unplayable(url: string, reason: string)

  datatype Cache = Cache(services: map<string, Quality>, unplayable: map<string, Unplayable>)

  /** The selected audio of a service and the ranked alternatives to probe. */
  datatype Service = Service(audio: Choice, alternatives: seq<Choice>)

  predicate HasQuality(f: Facts) {
    f.codec.Some? || f.bitrate.Some? || f.sampleRate.Some? || f.channels.Some?
  }

  /** What probing one alternative of a service, named by its position, yields in this refresh. */
  type Prober = (string, nat) -> Option<Facts>

  type Outcome = Option<(Choice, Facts)>

  /** The first alternative, from a position on, that can be probed. */
  function Probe(prober: Prober, guid: string, alternatives: seq<Choice>, from: nat): Outcome
    requires from <= |alternatives|
    decreases |alternatives| - from
  {
    if from == |alternatives| then None
    else match prober(guid, from)
      case Some(facts) => Some((alternatives[from], facts))
      case None => Probe(prober, guid, alternatives, from + 1)
  }

  // ----- The pool -----

  datatype Pool = Pool(queue: seq<string>, working: map<nat, string>, channel: seq<(string, Outcome)>)

  datatype Event = Take(worker: nat) | Send(worker: nat)

  function OutcomeOf(services: map<string, Service>, prober: Prober, guid: string): Outcome {
    if guid in services then Probe(prober, guid, services[guid].alternatives, 0) else None
  }

  predicate Possible(p: Pool, e: Event) {
    match e
    case Take(w) => w < WORKERS && w !in p.working && p.queue != []
    case Send(w) => w in p.working
  }

  function After(services: map<string, Service>, prober: Prober, p: Pool, e: Event): Pool
    requires Possible(p, e)
  {
    match e
    case Take(w) => Pool(p.queue[1..], p.working[w := p.queue[0]], p.channel)
    case Send(w) =>
      Pool(p.queue, p.working - {w}, p.channel + [(p.working[w], OutcomeOf(services, prober, p.working[w]))])
  }

  /** A run of the pool over a queue that lists every service once, in any order. */
  ghost predicate Run(services: map<string, Service>, prober: Prober, ps: seq<Pool>, es: seq<Event>) {
    && |ps| == |es| + 1
    && ps[0].working == map[] && ps[0].channel == []
    && (forall g :: g in ps[0].queue <==> g in services)
    && (forall i, j :: 0 <= i < j < |ps[0].queue| ==> ps[0].queue[i] != ps[0].queue[j])
    && forall i :: 0 <= i < |es| ==> Possible(ps[i], es[i]) && ps[i + 1] == After(services, prober, ps[i], es[i])
  }

  predicate Drained(p: Pool) { p.queue == [] && p.working == map[] }

  ghost predicate Working(p: Pool, g: string) {
    exists w :: w in p.working && p.working[w] == g
  }

  ghost predicate Delivered(channel: seq<(string, Outcome)>, g: string) {
    exists i :: 0 <= i < |channel| && channel[i].0 == g
  }

  /** Every service is in exactly one place: queued, being probed, or delivered with its outcome. */
  ghost predicate Inv(services: map<string, Service>, prober: Prober, p: Pool) {
    && (forall g :: g in services <==> g in p.queue || Working(p, g) || Delivered(p.channel, g))
    && (forall g :: g in p.queue ==> !Working(p, g) && !Delivered(p.channel, g))
    && (forall g :: Working(p, g) ==> !Delivered(p.channel, g))
    && (forall i, j :: 0 <= i < j < |p.queue| ==> p.queue[i] != p.queue[j])
    && (forall v, w :: v in p.working && w in p.working && v != w ==> p.working[v] != p.working[w])
    && (forall i, j :: 0 <= i < j < |p.channel| ==> p.channel[i].0 != p.channel[j].0)
    && (forall w :: w in p.working ==> w < WORKERS)
    && (forall i :: 0 <= i < |p.channel| ==> p.channel[i].1 == OutcomeOf(services, prober, p.channel[i].0))
  }

  lemma TakeMoves(p: Pool, w: nat, g: string, h: string)
    requires w !in p.working
    ensures Working(p.(working := p.working[w := g]), h) <==> h == g || Working(p, h)
  {
    var q := p.(working := p.working[w := g]);
    assert q.working[w] == g;
    if Working(p, h) {
      var v :| v in p.working && p.working[v] == h;
      assert v in q.working && q.working[v] == h;
    }
  }

  lemma SendMoves(p: Pool, w: nat, h: string)
    requires w in p.working
    requires forall v :: v in p.working && v != w ==> p.working[v] != p.working[w]
    ensures Working(p.(working := p.working - {w}), h) <==> h != p.working[w] && Working(p, h)
  {
    if Working(p, h) && h != p.working[w] {
      var v :| v in p.working && p.working[v] == h;
      assert v in p.working - {w};
    }
  }

  lemma DeliveredNext(channel: seq<(string, Outcome)>, g: string, o: Outcome, h: string)
    ensures Delivered(channel + [(g, o)], h) <==> Delivered(channel, h) || h == g
  {
    var next := channel + [(g, o)];
    assert next[|channel|].0 == g;
    if Delivered(channel, h) {
      var i :| 0 <= i < |channel| && channel[i].0 == h;
      assert next[i].0 == h;
    }
  }

  lemma TakeInv(services: map<string, Service>, prober: Prober, p: Pool, w: nat)
    requires Inv(services, prober, p) && Possible(p, Take(w))
    ensures Inv(services, prober, After(services, prober, p, Take(w)))
  {
    hide OutcomeOf, Working, Delivered;
    var q, g := After(services, prober, p, Take(w)), p.queue[0];
    assert p.queue == [g] + p.queue[1..];
    forall h: string ensures Working(q, h) <==> h == g || Working(p, h) {
      TakeMoves(p, w, g, h);
      SameWorking(q, p.(working := p.working[w := g]), h);
    }
    assert g in p.queue;
    forall v | v in p.working ensures p.working[v] != g {
      WorkingAt(p, v);
    }
  }

  lemma WorkingAt(p: Pool, v: nat)
    requires v in p.working
    ensures Working(p, p.working[v])
  {
  }

  lemma SameWorking(p: Pool, q: Pool, h: string)
    requires p.working == q.working
    ensures Working(p, h) <==> Working(q, h)
  {
  }

  lemma SendInv(services: map<string, Service>, prober: Prober, p: Pool, w: nat)
    requires Inv(services, prober, p) && Possible(p, Send(w))
    ensures Inv(services, prober, After(services, prober, p, Send(w)))
  {
    hide OutcomeOf, Working, Delivered;
    var q, g := After(services, prober, p, Send(w)), p.working[w];
    WorkingAt(p, w);
    forall h: string
      ensures Working(q, h) <==> h != g && Working(p, h)
      ensures Delivered(q.channel, h) <==> Delivered(p.channel, h) || h == g
    {
      SendMoves(p, w, h);
      SameWorking(q, p.(working := p.working - {w}), h);
      DeliveredNext(p.channel, g, OutcomeOf(services, prober, g), h);
    }
    forall i | 0 <= i < |p.channel| ensures p.channel[i].0 != g {
      DeliveredAt(p.channel, i);
    }
  }

  lemma DeliveredAt(channel: seq<(string, Outcome)>, i: nat)
    requires i < |channel|
    ensures Delivered(channel, channel[i].0)
  {
  }

  lemma {:induction false} RunInv(services: map<string, Service>, prober: Prober, ps: seq<Pool>, es: seq<Event>, i: nat)
    requires Run(services, prober, ps, es) && i < |ps|
    ensures Inv(services, prober, ps[i])
    decreases i
  {
    if i > 0 {
      RunInv(services, prober, ps, es, i - 1);
      hide Inv;
      match es[i - 1]
      case Take(w) => TakeInv(services, prober, ps[i - 1], w);
      case Send(w) => SendInv(services, prober, ps[i - 1], w);
    }
  }

  /** What the merge receives: one result for each service, in some order. */
  ghost predicate Delivery(services: map<string, Service>, prober: Prober, channel: seq<(string, Outcome)>) {
    && (forall g :: g in services <==> Delivered(channel, g))
    && (forall i, j :: 0 <= i < j < |channel| ==> channel[i].0 != channel[j].0)
    && forall i :: 0 <= i < |channel| ==> channel[i].1 == OutcomeOf(services, prober, channel[i].0)
  }

  /** However the workers are scheduled, a drained pool has delivered every service exactly once. */
  lemma DrainedDelivers(services: map<string, Service>, prober: Prober, ps: seq<Pool>, es: seq<Event>)
    requires Run(services, prober, ps, es) && Drained(ps[|es|])
    ensures Delivery(services, prober, ps[|es|].channel)
  {
    RunInv(services, prober, ps, es, |es|);
    hide OutcomeOf, Delivered;
  }

  /** Each service is taken once and sent once, so every run is bounded. */
  lemma {:induction false} RunBounded(services: map<string, Service>, prober: Prober, ps: seq<Pool>, es: seq<Event>, i: nat)
    requires Run(services, prober, ps, es) && i < |ps|
    ensures i + 2 * |ps[i].queue| + |ps[i].working| == 2 * |ps[0].queue|
    decreases i
  {
    if i > 0 {
      RunBounded(services, prober, ps, es, i - 1);
      var p, q := ps[i - 1], ps[i];
      match es[i - 1]
      case Take(w) => assert q.working.Keys == p.working.Keys + {w};
      case Send(w) => assert q.working.Keys == p.working.Keys - {w};
    }
  }

  /** A run that cannot go on has drained the pool, so no schedule loses or repeats a service. */
  lemma StuckIsDrained(services: map<string, Service>, prober: Prober, ps: seq<Pool>, es: seq<Event>)
    requires Run(services, prober, ps, es) && forall e :: !Possible(ps[|es|], e)
    ensures Drained(ps[|es|]) && Delivery(services, prober, ps[|es|].channel)
  {
    var p := ps[|es|];
    assert !Possible(p, Take(0));
    forall w: nat
      ensures w !in p.working
    {
      assert !Possible(p, Send(w));
    }
    assert p.working.Keys == {};
    DrainedDelivers(services, prober, ps, es);
  }

  // ----- The merge -----

  function Retained(existing: Cache, services: map<string, Service>): map<string, Quality> {
    map g | g in services && g in existing.services
            && existing.services[g].url == services[g].audio.url && HasQuality(existing.services[g].facts)
      :: existing.services[g]
  }

  /** A service whose probe brought usable facts. */
  predicate Fresh(services: map<string, Service>, prober: Prober, g: string) {
    var o := OutcomeOf(services, prober, g);
    o.Some? && HasQuality(o.value.1)
  }

  /** The cache after merging the results of the services in `done`. */
  function Merged(existing: Cache, services: map<string, Service>, prober: Prober, date: string, done: set<string>): Cache {
    Cache(
      map g | g in services && ((g in done && Fresh(services, prober, g)) || g in Retained(existing, services)) ::
        if g in done && Fresh(services, prober, g) then
          var o := OutcomeOf(services, prober, g).value;
          Quality(o.0.url, date, o.1)
        else Retained(existing, services)[g],
      map g | g in existing.unplayable && g in services
              && !(g in done && Fresh(services, prober, g)
                   && existing.unplayable[g].url == OutcomeOf(services, prober, g).value.0.url)
        :: existing.unplayable[g])
  }

  function Selected(services: map<string, Service>, prober: Prober, done: set<string>): map<string, Service> {
    map g | g in services ::
      if g in done && Fresh(services, prober, g) then services[g].(audio := OutcomeOf(services, prober, g).value.0)
      else services[g]
  }

  /** The refreshed cache as a function of the services, the old cache and the probes alone. */
  function Refreshed(existing: Cache, services: map<string, Service>, prober: Prober, date: string): Cache {
    Merged(existing, services, prober, date, services.Keys)
  }

  function Reselected(services: map<string, Service>, prober: Prober): map<string, Service> {
    Selected(services, prober, services.Keys)
  }

  /** The first alternative of the service that can be probed, with the facts found, not all of them missing. */
  ghost predicate Brings(services: map<string, Service>, prober: Prober, g: string, choice: Choice, facts: Facts) {
    && g in services && facts != Facts(None, None, None, None)
    && exists k: nat :: k < |services[g].alternatives|
         && services[g].alternatives[k] == choice && prober(g, k) == Some(facts)
         && forall i: nat :: i < k ==> prober(g, i).None?
  }

  /**
   What a refresh leaves of service `g`. An alternative that brought facts is recorded and selected, and
   lifts an exclusion of its URL. Otherwise an old record stays exactly when it has some fact and is for
   the service's URL, and the selection stays. Services that are gone leave neither cache.
   */
  ghost predicate Leaves(existing: Cache, services: map<string, Service>, prober: Prober, date: string,
                         cache: Cache, selected: map<string, Service>, g: string) {
    && (forall choice, facts :: Brings(services, prober, g, choice, facts) ==>
          && g in cache.services && cache.services[g] == Quality(choice.url, date, facts)
          && g in selected && selected[g] == Service(choice, services[g].alternatives))
    && ((forall choice, facts :: !Brings(services, prober, g, choice, facts)) ==>
          && (g in cache.services <==>
                (g in services && g in existing.services && existing.services[g].url == services[g].audio.url
                 && existing.services[g].facts != Facts(None, None, None, None)))
          && (g in cache.services ==> cache.services[g] == existing.services[g])
          && (g in selected <==> g in services)
          && (g in services ==> selected[g] == services[g]))
    && (g in cache.unplayable <==>
          (g in existing.unplayable && g in services
           && forall choice, facts :: Brings(services, prober, g, choice, facts) ==> choice.url != existing.unplayable[g].url))
    && (g in cache.unplayable ==> cache.unplayable[g] == existing.unplayable[g])
  }

  /** What probing finds is what an alternative brings, if any does. */
  lemma FreshMeaning(services: map<string, Service>, prober: Prober, g: string)
    ensures g in services && Fresh(services, prober, g) ==>
      var o := OutcomeOf(services, prober, g).value;
      Brings(services, prober, g, o.0, o.1)
    ensures forall choice, facts :: Brings(services, prober, g, choice, facts) ==>
      g in services && Fresh(services, prober, g) && OutcomeOf(services, prober, g) == Some((choice, facts))
  {
    if g in services {
      var alternatives := services[g].alternatives;
      ProbeIsFirst(prober, g, alternatives, 0);
      hide Probe;
      forall choice, facts | Brings(services, prober, g, choice, facts)
        ensures Fresh(services, prober, g) && OutcomeOf(services, prober, g) == Some((choice, facts))
      {
        var k: nat :| k < |alternatives| && alternatives[k] == choice && prober(g, k) == Some(facts)
                      && forall i: nat :: i < k ==> prober(g, i).None?;
        assert Probe(prober, g, alternatives, 0).Some?;
        var found, other := Probe(prober, g, alternatives, 0).value.0, Probe(prober, g, alternatives, 0).value.1;
        var j :| 0 <= j < |alternatives| && alternatives[j] == found && prober(g, j) == Some(other)
                 && forall i :: 0 <= i < j ==> prober(g, i).None?;
        assert j == k;
      }
    }
  }

  lemma RefreshedMeaning(existing: Cache, services: map<string, Service>, prober: Prober, date: string, g: string)
    ensures Leaves(existing, services, prober, date, Refreshed(existing, services, prober, date), Reselected(services, prober), g)
  {
    FreshMeaning(services, prober, g);
    hide OutcomeOf, Brings;
    if g in services && Fresh(services, prober, g) {
      var (choice, facts) := OutcomeOf(services, prober, g).value;
      assert Brings(services, prober, g, choice, facts);
      assert Reselected(services, prober)[g] == Service(choice, services[g].alternatives);
    }
    if g in existing.services {
      NoFacts(existing.services[g].facts);
    }
  }

  lemma NoFacts(f: Facts)
    ensures HasQuality(f) <==> f != Facts(None, None, None, None)
  {
  }

  /** The receiving loop. Its result depends on what was delivered and not on the order. */
  method Refresh(existing: Cache, services: map<string, Service>, prober: Prober, date: string,
                 channel: seq<(string, Outcome)>)
    returns (cache: Cache, selected: map<string, Service>)
    requires Delivery(services, prober, channel)
    ensures cache == Refreshed(existing, services, prober, date)
    ensures selected == Reselected(services, prober)
    ensures forall g: string :: Leaves(existing, services, prober, date, cache, selected, g)
  {
    hide Merged, Selected, OutcomeOf, Leaves;
    var quality := Retained(existing, services);
    var unplayable := map g | g in existing.unplayable && g in services :: existing.unplayable[g];
    selected := services;
    ghost var done: set<string> := {};
    NothingMerged(existing, services, prober, date);
    var i := 0;
    while i < |channel|
      invariant 0 <= i <= |channel|
      invariant done <= services.Keys
      invariant forall g :: g in done <==> Delivered(channel[..i], g)
      invariant Cache(quality, unplayable) == Merged(existing, services, prober, date, done)
      invariant selected == Selected(services, prober, done)
    {
      var (guid, outcome) := channel[i];
      DeliveredAt(channel, i);
      assert channel[..i + 1] == channel[..i] + [(guid, outcome)];
      forall g: string ensures Delivered(channel[..i + 1], g) <==> g in done || g == guid {
        DeliveredNext(channel[..i], guid, outcome, g);
      }
      MergeOne(existing, services, prober, date, done, guid);
      SelectOne(services, prober, done, guid);
      if outcome.Some? && HasQuality(outcome.value.1) {
        var choice, facts := outcome.value.0, outcome.value.1;
        quality := quality[guid := Quality(choice.url, date, facts)];
        if guid in unplayable && unplayable[guid].url == choice.url {
          unplayable := unplayable - {guid};
        }
        selected := selected[guid := services[guid].(audio := choice)];
      }
      done := done + {guid};
      i := i + 1;
    }
    assert channel[..i] == channel;
    assert done == services.Keys;
    cache := Cache(quality, unplayable);
    forall g: string ensures Leaves(existing, services, prober, date, cache, selected, g) {
      RefreshedMeaning(existing, services, prober, date, g);
    }
  }

  lemma NothingMerged(existing: Cache, services: map<string, Service>, prober: Prober, date: string)
    ensures Merged(existing, services, prober, date, {})
      == Cache(Retained(existing, services), map g | g in existing.unplayable && g in services :: existing.unplayable[g])
    ensures Selected(services, prober, {}) == services
  {
  }

  /** Merging one more service, as the loop body does it. */
  lemma MergeOne(existing: Cache, services: map<string, Service>, prober: Prober, date: string,
                 done: set<string>, guid: string)
    requires guid in services
    ensures var o, c := OutcomeOf(services, prober, guid), Merged(existing, services, prober, date, done);
      Merged(existing, services, prober, date, done + {guid}) ==
        if o.Some? && HasQuality(o.value.1) then
          Cache(c.services[guid := Quality(o.value.0.url, date, o.value.1)],
                if guid in c.unplayable && c.unplayable[guid].url == o.value.0.url
                then c.unplayable - {guid} else c.unplayable)
        else c
  {
    hide OutcomeOf, HasQuality;
  }

  lemma SelectOne(services: map<string, Service>, prober: Prober, done: set<string>, guid: string)
    requires guid in services
    ensures var o := OutcomeOf(services, prober, guid);
      Selected(services, prober, done + {guid}) ==
        if o.Some? && HasQuality(o.value.1)
        then Selected(services, prober, done)[guid := services[guid].(audio := o.value.0)]
        else Selected(services, prober, done)
  {
    hide OutcomeOf, HasQuality;
  }

  // ----- What the refreshed cache guarantees -----

  /** The rule `read_quality_cache` enforces: nobody is playable and unplayable at the same URL. */
  ghost predicate Consistent(c: Cache) {
    forall g :: g in c.services && g in c.unplayable ==> c.services[g].url != c.unplayable[g].url
  }

  /** A consistent cache stays consistent, and every quality record is for the finally selected audio URL. */
  lemma RefreshedConsistent(existing: Cache, services: map<string, Service>, prober: Prober, date: string)
    requires Consistent(existing)
    ensures Consistent(Refreshed(existing, services, prober, date))
    ensures forall g :: g in Refreshed(existing, services, prober, date).services ==>
      && g in services
      && Refreshed(existing, services, prober, date).services[g].url == Reselected(services, prober)[g].audio.url
      && HasQuality(Refreshed(existing, services, prober, date).services[g].facts)
  {
    hide OutcomeOf;
  }

  /** A fresh selection is the first alternative that could be probed, and all before it failed. */
  lemma {:induction false} ProbeIsFirst(prober: Prober, guid: string, alternatives: seq<Choice>, from: nat)
    requires from <= |alternatives|
    ensures match Probe(prober, guid, alternatives, from)
      case None => forall i :: from <= i < |alternatives| ==> prober(guid, i).None?
      case Some((choice, facts)) => (
        exists k :: from <= k < |alternatives| && alternatives[k] == choice && prober(guid, k) == Some(facts)
                    && forall i :: from <= i < k ==> prober(guid, i).None?)
    decreases |alternatives| - from
  {
    if from < |alternatives| && prober(guid, from).None? {
      ProbeIsFirst(prober, guid, alternatives, from + 1);
    }
  }
}
