/**
 Where automatic activity data may be written: the persistent tree while saving is on, a
 private session directory otherwise.

 `Store` is the object behind the reader/writer lock. The second half interleaves policy
 changes with operations that hold the read lease, over whole runs.
 */
module ActivityStorage {
  import opened Basics

  /** Generations are 64-bit and wrap. */
  const WRAP: nat := 0x1_0000_0000_0000_0000

  datatype Policy = Policy(enabled: Option<bool>, generation: nat, session: bool)

  type Path = seq<string>

  /** An activity path; an unmanaged one was made from a plain path and follows no policy. */
  datatype Handle = Handle(
    managed: bool,
    persistent: Path,
    relative: Path,
    generation: Option<nat>,
    privateOnly: bool)

  datatype Location = Persistent(path: Path) | Private(path: Path)

  const FRESH := Policy(None, 0, false)

  /** Saving is on until a preference says otherwise. */
  predicate Saving(p: Policy) {
    p.enabled.None? || p.enabled.value
  }

  function Join(h: Handle, child: Path): Handle {
    h.(persistent := h.persistent + child, relative := h.relative + child)
  }

  predicate MayPersist(p: Policy, h: Handle) {
    Saving(p) && !h.privateOnly && (h.generation.None? || h.generation.value == p.generation)
  }

  /** The path an operation would be given now; None when a session directory must be made first. */
  function Locate(p: Policy, h: Handle): Option<Location> {
    if !h.managed || MayPersist(p, h) then Some(Persistent(h.persistent))
    else if p.session then Some(Private(h.relative))
    else None
  }

  /**
   Where an operation writes. A handle follows the policy only if it is managed; it has its persistent
   path unless saving was turned off, it was captured in privacy, or it was captured in another
   generation; and then it has its place in the session directory, once there is one.
   */
  lemma LocateMeaning(p: Policy, h: Handle)
    ensures var persists := !h.managed
      || (p.enabled != Some(false) && !h.privateOnly && h.generation in {None, Some(p.generation)});
      Locate(p, h) ==
        if persists then Some(Persistent(h.persistent)) else if p.session then Some(Private(h.relative)) else None
  {
  }

  function Captured(p: Policy, h: Handle): Handle {
    if h.managed && h.generation.None? then h.(generation := Some(p.generation), privateOnly := !Saving(p)) else h
  }

  function Initialized(p: Policy, enabled: bool): Policy {
    if p.enabled.Some? then p else p.(enabled := Some(enabled))
  }

  function Prepared(p: Policy, made: bool): Policy {
    if made then p.(session := true) else p
  }

  /** A 64-bit counter after `n` steps. */
  function Wrapped(n: nat): nat { n % WRAP }

  /** Disabling needs a session directory; when that cannot be made nothing changes. */
  predicate Accepts(p: Policy, enabled: bool, made: bool) {
    enabled || p.session || made
  }

  predicate Changes(p: Policy, enabled: bool, made: bool) {
    Accepts(p, enabled, made) && p.enabled != Some(enabled)
  }

  function Switched(p: Policy, enabled: bool, made: bool): Policy {
    if !Accepts(p, enabled, made) then p
    else
      var q := if enabled then p else p.(session := true);
      if q.enabled != Some(enabled) then q.(generation := Wrapped(q.generation + 1), enabled := Some(enabled)) else q
  }

  // ----- The object -----

  class Store {
    var enabled: Option<bool>
    var generation: nat
    var session: bool

    ghost function View(): Policy
      reads this
    {
      Policy(enabled, generation, session)
    }

    constructor ()
      ensures View() == FRESH
    {
      enabled, generation, session := None, 0, false;
    }

    method Initialize(on: bool)
      modifies this`enabled
      ensures View() == Initialized(old(View()), on)
      ensures enabled == Some(if old(enabled).Some? then old(enabled).value else on)
    {
      if enabled.Some? {
        return;
      }
      enabled := Some(on);
    }

    /** `made` says whether a private directory could be created, should one be needed. */
    method PrepareSession(made: bool) returns (ok: bool)
      modifies this`session
      ensures ok <==> old(session) || made
      ensures View() == if ok then old(View()).(session := true) else old(View())
    {
      if !session && made {
        session := true;
      }
      ok := session;
    }

    method SetEnabled(on: bool, made: bool) returns (ok: bool)
      modifies this
      ensures ok <==> Accepts(old(View()), on, made)
      ensures View() == Switched(old(View()), on, made)
      ensures ok <==> on || old(session) || made
      ensures !ok ==> enabled == old(enabled) && generation == old(generation) && session == old(session)
      ensures ok ==>
        && enabled == Some(on) && session == (old(session) || !on)
        && generation == if old(enabled) == Some(on) then old(generation)
                         else (old(generation) + 1) % 0x1_0000_0000_0000_0000
    {
      if !on {
        var prepared := PrepareSession(made);
        if !prepared {
          return false;
        }
      }
      if enabled != Some(on) {
        generation := (generation + 1) % WRAP;
        enabled := Some(on);
      }
      ok := true;
    }

    method ForOperation(h: Handle) returns (operation: Handle)
      ensures operation == Captured(View(), h)
      ensures operation ==
        if h.managed && h.generation == None
        then Handle(true, h.persistent, h.relative, Some(generation), enabled == Some(false))
        else h
    {
      operation := h;
      if operation.generation.None? && h.managed {
        operation := operation.(generation := Some(generation), privateOnly := !(enabled.None? || enabled.value));
      }
    }

    /** Policy changes by other threads, in order. */
    method Meanwhile(changes: seq<(bool, bool)>)
      modifies this
      ensures View() == Applied(old(View()), changes)
    {
      var i := 0;
      while i < |changes|
        invariant 0 <= i <= |changes|
        invariant Applied(old(View()), changes) == Applied(View(), changes[i..])
      {
        var _ := SetEnabled(changes[i].0, changes[i].1);
        i := i + 1;
      }
    }

    /**
     The lookup loop. It goes round again only after making the session directory; in between it
     holds no lock, and others may change the policy before the directory is made and after. The
     path it ends with is the one the policy gives at that moment; it fails exactly when it needs a
     directory and none can be made, even if saving was enabled again meanwhile.
     */
    method WithPath(h: Handle, made: bool, before: seq<(bool, bool)>, after: seq<(bool, bool)>)
      returns (path: Option<Location>)
      modifies this
      ensures (path, View()) == Looked(old(View()), h, made, before, after)
      ensures path.Some? ==> path == Locate(View(), h)
      ensures Locate(old(View()), h).Some? ==> View() == old(View()) && path.Some?
      ensures Locate(old(View()), h).None? ==>
        var p := Applied(old(View()), before);
        if p.session || made then View() == Applied(Prepared(p, true), after) && path.Some?
        else View() == p && path.None?
    {
      if !h.managed {
        return Some(Persistent(h.persistent));
      }
      var others := 0;
      while true
        invariant others <= 1
        invariant others == 0 ==> View() == old(View())
        invariant others == 1 ==> Locate(old(View()), h).None? && session && (Applied(old(View()), before).session || made)
        invariant others == 1 ==> View() == Applied(Prepared(Applied(old(View()), before), true), after)
        decreases 1 - others
      {
        if (enabled.None? || enabled.value) && !h.privateOnly
           && (h.generation.None? || h.generation.value == generation) {
          return Some(Persistent(h.persistent));
        }
        if session {
          return Some(Private(h.relative));
        }
        Meanwhile(before);
        var ok := PrepareSession(made);
        if !ok {
          return None;
        }
        SessionKept(View(), after);
        Meanwhile(after);
        others := others + 1;
      }
    }
  }

  /** A sequence of policy changes, each with the outcome of making a directory. */
  function Applied(p: Policy, changes: seq<(bool, bool)>): Policy
    decreases |changes|
  {
    if changes == [] then p else Applied(Switched(p, changes[0].0, changes[0].1), changes[1..])
  }

  /** The outcome of a lookup, and the policy it leaves behind. */
  function Looked(p: Policy, h: Handle, made: bool, before: seq<(bool, bool)>, after: seq<(bool, bool)>): (Option<Location>, Policy) {
    if Locate(p, h).Some? then (Locate(p, h), p)
    else
      var q := Applied(p, before);
      if !q.session && !made then (None, q)
      else
        var r := Applied(Prepared(q, true), after);
        (Locate(r, h), r)
  }

  /**
   Saving was loaded as off, so no directory exists yet; while the lookup holds no lock it is
   enabled, but the directory cannot be made. The lookup fails although the policy it leaves
   behind gives the handle its persistent path.
   */
  lemma FailsWhileSaving(h: Handle)
    requires h.managed && !h.privateOnly && h.generation.None?
    ensures var (path, p) := Looked(Initialized(FRESH, false), h, false, [(true, false)], []);
      path == None && Saving(p) && Locate(p, h) == Some(Persistent(h.persistent))
  {
    var p := Initialized(FRESH, false);
    assert Locate(p, h).None?;
    assert [(true, false)][1..] == [];
    assert Applied(p, [(true, false)]) == Applied(Switched(p, true, false), []) == Switched(p, true, false);
  }

  lemma {:induction false} SessionKept(p: Policy, changes: seq<(bool, bool)>)
    ensures p.session ==> Applied(p, changes).session
    decreases |changes|
  {
    if changes != [] {
      SessionKept(Switched(p, changes[0].0, changes[0].1), changes[1..]);
    }
  }

  // ----- Runs -----

  datatype Running = Running(handle: Handle, location: Location)

  /** `changes` counts the policy changes so far and does not wrap. */
  datatype State = State(policy: Policy, changes: nat, running: map<nat, Running>)

  datatype Event =
    | Initialize(on: bool)
    | SetEnabled(on: bool, made: bool)
    | Prepare(made: bool)
    | Begin(op: nat, handle: Handle)
    | End(op: nat)

  const START := State(FRESH, 0, map[])

  /** Writers wait until every read lease is returned. */
  predicate Possible(s: State, e: Event) {
    match e
    case Initialize(_) => s.policy.enabled.Some? || s.running == map[]
    case SetEnabled(_, _) => s.running == map[]
    case Prepare(_) => s.running == map[]
    case Begin(op, h) => op !in s.running && Locate(s.policy, h).Some?
    case End(op) => op in s.running
  }

  function After(s: State, e: Event): State
    requires Possible(s, e)
  {
    match e
    case Initialize(on) => s.(policy := Initialized(s.policy, on))
    case SetEnabled(on, made) =>
      s.(policy := Switched(s.policy, on, made),
         changes := if Changes(s.policy, on, made) then s.changes + 1 else s.changes)
    case Prepare(made) => s.(policy := Prepared(s.policy, made))
    case Begin(op, h) => s.(running := s.running[op := Running(h, Locate(s.policy, h).value)])
    case End(op) => s.(running := s.running - {op})
  }

  ghost predicate Run(ss: seq<State>, es: seq<Event>) {
    && |ss| == |es| + 1 && ss[0] == START
    && forall i :: 0 <= i < |es| ==> Possible(ss[i], es[i]) && ss[i + 1] == After(ss[i], es[i])
  }

  ghost predicate Inv(s: State) {
    && s.policy.generation == Wrapped(s.changes)
    && forall op :: op in s.running ==>
         Locate(s.policy, s.running[op].handle) == Some(s.running[op].location)
  }

  lemma StepInv(s: State, e: Event)
    requires Inv(s) && Possible(s, e)
    ensures Inv(After(s, e))
  {
    if e.SetEnabled? && Changes(s.policy, e.on, e.made) {
      NextGeneration(s.changes);
    }
  }

  lemma NextGeneration(n: nat)
    ensures Wrapped(Wrapped(n) + 1) == Wrapped(n + 1)
  {
  }

  lemma {:induction false} RunInv(ss: seq<State>, es: seq<Event>, i: nat)
    requires Run(ss, es) && i < |ss|
    ensures Inv(ss[i])
    decreases i
  {
    if i > 0 {
      RunInv(ss, es, i - 1);
      StepInv(ss[i - 1], es[i - 1]);
    }
  }

  /** A running operation always has the path the policy gives it at this very moment. */
  lemma LeasesFollowPolicy(ss: seq<State>, es: seq<Event>, i: nat, op: nat)
    requires Run(ss, es) && i < |ss| && op in ss[i].running
    ensures Locate(ss[i].policy, ss[i].running[op].handle) == Some(ss[i].running[op].location)
    ensures !Saving(ss[i].policy) && ss[i].running[op].handle.managed ==> ss[i].running[op].location.Private?
  {
    RunInv(ss, es, i);
  }

  ghost predicate NeverEnabled(es: seq<Event>, i: nat, j: nat)
    requires i <= j <= |es|
  {
    forall k :: i <= k < j ==> !(es[k].SetEnabled? && es[k].on)
  }

  /** Until saving is enabled again, a state in which it is off stays off. */
  lemma {:induction false} StaysOff(ss: seq<State>, es: seq<Event>, i: nat, j: nat)
    requires Run(ss, es) && i <= j < |ss| && ss[i].policy.enabled == Some(false) && NeverEnabled(es, i, j)
    ensures ss[j].policy.enabled == Some(false)
    decreases j - i
  {
    if i < j {
      StaysOff(ss, es, i, j - 1);
    }
  }

  /**
   When disabling returns successfully no leased persistent operation is running, and none
   starts until saving is enabled again.
   */
  lemma DisabledMeansPrivate(ss: seq<State>, es: seq<Event>, i: nat, j: nat, op: nat)
    requires Run(ss, es) && i < j < |ss|
    requires es[i].SetEnabled? && !es[i].on && Accepts(ss[i].policy, false, es[i].made)
    requires NeverEnabled(es, i + 1, j)
    requires op in ss[j].running && ss[j].running[op].handle.managed
    ensures ss[j].running[op].location.Private?
  {
    StaysOff(ss, es, i + 1, j);
    LeasesFollowPolicy(ss, es, j, op);
  }

  // ----- Captured operations -----

  lemma {:induction false} ChangesOnward(ss: seq<State>, es: seq<Event>, i: nat, j: nat)
    requires Run(ss, es) && i <= j < |ss|
    ensures ss[i].changes <= ss[j].changes
    ensures ss[i].changes == ss[j].changes && ss[i].policy.enabled.Some? ==> ss[j].policy.enabled == ss[i].policy.enabled
    ensures ss[i].policy.session ==> ss[j].policy.session
    decreases j - i
  {
    if i < j {
      ChangesOnward(ss, es, i, j - 1);
    }
  }

  /**
   Exactly when a handle captured at moment i is given the persistent path at moment j: it was
   captured while saving was on, saving is on now, and the number of policy changes in between
   is a multiple of 2^64.
   */
  lemma CapturedPersists(ss: seq<State>, es: seq<Event>, i: nat, j: nat, h: Handle)
    requires Run(ss, es) && i <= j < |ss| && h.managed && h.generation.None?
    ensures ss[i].changes <= ss[j].changes
    ensures MayPersist(ss[j].policy, Captured(ss[i].policy, h))
      <==> Saving(ss[i].policy) && Saving(ss[j].policy) && (ss[j].changes - ss[i].changes) % WRAP == 0
  {
    RunInv(ss, es, i);
    RunInv(ss, es, j);
    ChangesOnward(ss, es, i, j);
    SameGeneration(ss[i].changes, ss[j].changes);
  }

  lemma SameGeneration(m: nat, n: nat)
    requires m <= n
    ensures m % WRAP == n % WRAP <==> (n - m) % WRAP == 0
  {
  }

  /**
   With fewer than 2^64 changes in between: a handle captured while saving was off, or before
   any policy change, is never given the persistent path again, and neither is any child of it.
   */
  lemma PrivateEpoch(ss: seq<State>, es: seq<Event>, i: nat, j: nat, h: Handle, child: Path)
    requires Run(ss, es) && i <= j < |ss| && h.managed && h.generation.None?
    requires ss[j].changes - ss[i].changes < WRAP
    requires !Saving(ss[i].policy) || ss[i].changes != ss[j].changes
    ensures var l := Locate(ss[j].policy, Join(Captured(ss[i].policy, h), child));
      l.None? || l == Some(Private(h.relative + child))
  {
    CapturedPersists(ss, es, i, j, h);
  }

  /** Capturing again later does not refresh an epoch, and joining does not lose it. */
  lemma EpochIsKept(p: Policy, q: Policy, h: Handle, child: Path)
    ensures Captured(q, Captured(p, h)) == Captured(p, h)
    ensures Join(Captured(p, h), child) == Captured(p, Join(h, child))
  {
  }

  // The bound of 2^64 changes is needed: that many flips bring the old generation back.

  function Flip(p: Policy): Policy {
    Switched(p, !Saving(p), true)
  }

  function Flips(p: Policy, n: nat): Policy {
    if n == 0 then p else Flip(Flips(p, n - 1))
  }

  predicate Even(n: nat) { n % 2 == 0 }

  lemma Flipped(q: Policy, n: nat)
    requires q.enabled == Some(Even(n))
    ensures Flip(q).enabled == Some(Even(n + 1)) && Flip(q).generation == Wrapped(q.generation + 1)
  {
  }

  lemma {:induction false} FlipsState(p: Policy, n: nat)
    requires p.enabled == Some(true) && p.generation < WRAP
    ensures Flips(p, n).enabled == Some(Even(n))
    ensures Flips(p, n).generation == Wrapped(p.generation + n)
  {
    if n > 0 {
      hide Wrapped, Flip, Even;
      FlipsState(p, n - 1);
      Flipped(Flips(p, n - 1), n - 1);
      NextGeneration(p.generation + n - 1);
    }
  }

  lemma WrapRevivesHandle(p: Policy, h: Handle)
    requires p.enabled == Some(true) && p.generation < WRAP && h.managed && h.generation.None?
    ensures Locate(Flips(p, WRAP), Captured(p, h)) == Some(Persistent(h.persistent))
  {
    hide Flips;
    FlipsState(p, WRAP);
  }

  /** Once a session directory exists the lookup loop never has to make another. */
  lemma SessionSuffices(ss: seq<State>, es: seq<Event>, i: nat, j: nat, h: Handle)
    requires Run(ss, es) && i <= j < |ss| && ss[i].policy.session
    ensures Locate(ss[j].policy, h).Some?
  {
    ChangesOnward(ss, es, i, j);
  }
}
