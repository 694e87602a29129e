/**
 Many helper processes sharing one port registry: allocate, deallocate and exit steps of
 one helper per slug (the startup lock of `main.rs`), interleaved with other processes
 that come and go.  Process ids of ended processes may be handed out again.
 */
module PortFleet {
  import opened Prelude
  import opened Ports

  /** A running helper and the ports it works with. */
  datatype Helper = Helper(pid: nat, held: Option<Allocation>)

  /** `alive` are all process ids in use on the host, `ever` those used so far. */
  datatype Fleet = Fleet(registry: seq<Entry>, helpers: map<bytes, Helper>, alive: set<nat>, ever: set<nat>)

  datatype Event =
    | Start(slug: bytes, pid: nat)
    | Exit(slug: bytes)
    | Allocate(slug: bytes)
    | Deallocate(slug: bytes)
    | OtherStarts(pid: nat)
    | OtherEnds(pid: nat)

  predicate IsHelperPid(s: Fleet, pid: nat) {
    exists slug :: slug in s.helpers && s.helpers[slug].pid == pid
  }

  ghost predicate Step(s: Fleet, e: Event, t: Fleet) {
    match e
    case Start(slug, pid) =>
      && slug !in s.helpers && pid !in s.alive
      && t == s.(helpers := s.helpers[slug := Helper(pid, None)], alive := s.alive + {pid}, ever := s.ever + {pid})
    case Exit(slug) =>
      && slug in s.helpers
      && t == s.(helpers := s.helpers - {slug}, alive := s.alive - {s.helpers[slug].pid})
    case Allocate(slug) =>
      && slug in s.helpers
      && var h := s.helpers[slug];
         var (r, after) := Allocated(s.registry, slug, h.pid, s.alive);
         t == s.(registry := after, helpers := s.helpers[slug := h.(held := if r.Some? then r else h.held)])
    case Deallocate(slug) =>
      && slug in s.helpers
      && t == s.(registry := Without(s.registry, slug),
                 helpers := s.helpers[slug := s.helpers[slug].(held := None)])
    case OtherStarts(pid) =>
      pid !in s.alive && t == s.(alive := s.alive + {pid}, ever := s.ever + {pid})
    case OtherEnds(pid) =>
      pid in s.alive && !IsHelperPid(s, pid) && t == s.(alive := s.alive - {pid})
  }

  ghost predicate Run(states: seq<Fleet>, events: seq<Event>) {
    && |states| == |events| + 1
    && (exists others :: states[0] == Fleet([], map[], others, others))
    && forall i :: 0 <= i < |events| ==> Step(states[i], events[i], states[i + 1])
  }

  /** What a caller of the allocator can look up first: a live entry for its slug, if there
      is one, carries its own process id. */
  ghost predicate OwnEntry(s: Fleet, slug: bytes) {
    slug in s.helpers ==>
      forall e :: e in s.registry && e.slug == slug && e.pid in s.alive ==> e.pid == s.helpers[slug].pid
  }

  ghost predicate AllocatesOwn(states: seq<Fleet>, events: seq<Event>) {
    |states| == |events| + 1 && forall i :: 0 <= i < |events| && events[i].Allocate? ==> OwnEntry(states[i], events[i].slug)
  }

  ghost predicate PidsNotReused(states: seq<Fleet>, events: seq<Event>) {
    |states| == |events| + 1 && forall i :: 0 <= i < |events| && (events[i].Start? || events[i].OtherStarts?) ==>
      events[i].pid !in states[i].ever
  }

  // ---------------------------------------------------------------------------
  // Safety while allocations are a helper's own
  // ---------------------------------------------------------------------------

  /** A live entry with the helper's own process id stands behind the ports. */
  ghost predicate Backed(s: Fleet, slug: bytes)
    requires slug in s.helpers
  {
    var h := s.helpers[slug];
    h.held.Some? ==> Entry(slug, h.held.value.slot, h.held.value.base, h.pid) in s.registry
  }

  ghost predicate HelpersAlive(s: Fleet) {
    && (forall slug :: slug in s.helpers ==> s.helpers[slug].pid in s.alive)
    && (forall a, b :: a in s.helpers && b in s.helpers && a != b ==> s.helpers[a].pid != s.helpers[b].pid)
  }

  ghost predicate SafeInv(s: Fleet) {
    && RegistryOk(s.registry) && HelpersAlive(s)
    && forall slug :: slug in s.helpers ==> Backed(s, slug)
  }

  lemma StepKeepsRegistry(s: Fleet, e: Event, t: Fleet)
    requires RegistryOk(s.registry) && HelpersAlive(s) && Step(s, e, t)
    ensures RegistryOk(t.registry) && HelpersAlive(t)
  {
    if e.Allocate? {
      AllocationKeepsOk(s.registry, e.slug, s.helpers[e.slug].pid, s.alive);
    } else if e.Deallocate? {
      WithoutKeepsOk(s.registry, e.slug);
    }
  }

  lemma AllocateKeepsBacked(s: Fleet, slug: bytes, t: Fleet, other: bytes)
    requires SafeInv(s) && OwnEntry(s, slug) && Step(s, Allocate(slug), t)
    requires other in t.helpers
    ensures Backed(t, other)
  {
    var live := Live(s.registry, s.alive);
    var own := FindSlug(live, slug);
    if own.Some? {
      LiveMembers(s.registry, s.alive, own.value);
      assert Backed(s, other);
    } else {
      assert Backed(s, other);
      var k := s.helpers[other];
      if k.held.Some? {
        LiveMembers(s.registry, s.alive, Entry(other, k.held.value.slot, k.held.value.base, k.pid));
      }
    }
  }

  lemma StepKeepsSafe(s: Fleet, e: Event, t: Fleet)
    requires SafeInv(s) && Step(s, e, t) && (e.Allocate? ==> OwnEntry(s, e.slug))
    ensures SafeInv(t)
  {
    StepKeepsRegistry(s, e, t);
    forall slug | slug in t.helpers ensures Backed(t, slug) {
      if e.Allocate? {
        AllocateKeepsBacked(s, e.slug, t, slug);
      } else if slug in s.helpers {
        assert Backed(s, slug);
        if e.Deallocate? && t.helpers[slug].held.Some? {
          var h := s.helpers[slug];
          WithoutMembers(s.registry, e.slug, Entry(slug, h.held.value.slot, h.held.value.base, h.pid));
        }
      }
    }
  }

  lemma {:induction false} RunSafe(states: seq<Fleet>, events: seq<Event>, i: nat)
    requires Run(states, events) && AllocatesOwn(states, events) && i < |states|
    ensures SafeInv(states[i])
  {
    if i > 0 {
      RunSafe(states, events, i - 1);
      StepKeepsSafe(states[i - 1], events[i - 1], states[i]);
    }
  }

  /** Two running helpers of this state work with a common port. */
  ghost predicate SharedPort(s: Fleet, a: bytes, b: bytes) {
    && a != b && a in s.helpers && b in s.helpers
    && s.helpers[a].held.Some? && s.helpers[b].held.Some?
    && exists i, j :: 0 <= i < 200 && 0 <= j < 200
                      && Port(s.helpers[a].held.value, i) == Port(s.helpers[b].held.value, j)
  }

  lemma SafeMeansUnshared(s: Fleet, a: bytes, b: bytes)
    requires SafeInv(s)
    ensures !SharedPort(s, a, b)
  {
    if SharedPort(s, a, b) {
      var x, y := s.helpers[a], s.helpers[b];
      assert Backed(s, a) && Backed(s, b);
      var p, q := Entry(a, x.held.value.slot, x.held.value.base, x.pid), Entry(b, y.held.value.slot, y.held.value.base, y.pid);
      assert p in s.registry && q in s.registry;
      var k, j :| 0 <= k < 200 && 0 <= j < 200 && Port(x.held.value, k) == Port(y.held.value, j);
      PortsStayInRange(p.slot, k);
      PortsStayInRange(q.slot, j);
      OneEntryPerSlug(s.registry, p, q);
      assert false;
    }
  }

  /** If no allocation adopts another process's entry, running helpers never share a port. */
  lemma NoSharedPorts(states: seq<Fleet>, events: seq<Event>, i: nat, a: bytes, b: bytes)
    requires Run(states, events) && AllocatesOwn(states, events) && i < |states|
    ensures !SharedPort(states[i], a, b)
  {
    RunSafe(states, events, i);
    SafeMeansUnshared(states[i], a, b);
  }

  // ---------------------------------------------------------------------------
  // Process ids that are not reused make every allocation a helper's own
  // ---------------------------------------------------------------------------

  ghost predicate FreshInv(s: Fleet) {
    && s.alive <= s.ever
    && (forall e :: e in s.registry ==> e.pid in s.ever)
    && (forall e :: e in s.registry && e.pid in s.alive ==>
          e.slug in s.helpers && s.helpers[e.slug].pid == e.pid)
  }

  lemma StepKeepsFresh(s: Fleet, e: Event, t: Fleet)
    requires FreshInv(s) && HelpersAlive(s) && Step(s, e, t)
    requires e.Start? || e.OtherStarts? ==> e.pid !in s.ever
    ensures FreshInv(t)
  {
    forall x | x in t.registry ensures x.pid in t.ever {
      OldOrOwn(s, e, t, x);
    }
    forall x | x in t.registry && x.pid in t.alive ensures x.slug in t.helpers && t.helpers[x.slug].pid == x.pid {
      OldOrOwn(s, e, t, x);
    }
  }

  /** A step adds to the registry at most an entry of the helper that takes it. */
  lemma OldOrOwn(s: Fleet, e: Event, t: Fleet, x: Entry)
    requires Step(s, e, t) && x in t.registry
    ensures x in s.registry || (e.Allocate? && x.slug == e.slug && x.pid == s.helpers[e.slug].pid)
  {
    if e.Allocate? {
      LiveMembers(s.registry, s.alive, x);
    } else if e.Deallocate? {
      WithoutMembers(s.registry, e.slug, x);
    }
  }

  lemma {:induction false} RunFresh(states: seq<Fleet>, events: seq<Event>, i: nat)
    requires Run(states, events) && PidsNotReused(states, events) && i < |states|
    ensures FreshInv(states[i]) && RegistryOk(states[i].registry) && HelpersAlive(states[i])
  {
    if i > 0 {
      RunFresh(states, events, i - 1);
      StepKeepsFresh(states[i - 1], events[i - 1], states[i]);
      StepKeepsRegistry(states[i - 1], events[i - 1], states[i]);
    }
  }

  /** In every run without reuse of process ids, running helpers never share a port. */
  lemma NoSharedPortsWithFreshPids(states: seq<Fleet>, events: seq<Event>, i: nat, a: bytes, b: bytes)
    requires Run(states, events) && PidsNotReused(states, events) && i < |states|
    ensures !SharedPort(states[i], a, b)
  {
    forall k | 0 <= k < |events| && events[k].Allocate? ensures OwnEntry(states[k], events[k].slug) {
      RunFresh(states, events, k);
    }
    NoSharedPorts(states, events, i, a, b);
  }

  /** The registry stays well formed in every run, with or without reuse. */
  lemma {:induction false} RegistryAlwaysOk(states: seq<Fleet>, events: seq<Event>, i: nat)
    requires Run(states, events) && i < |states|
    ensures RegistryOk(states[i].registry) && HelpersAlive(states[i])
  {
    if i > 0 {
      RegistryAlwaysOk(states, events, i - 1);
      StepKeepsRegistry(states[i - 1], events[i - 1], states[i]);
    }
  }

  // ---------------------------------------------------------------------------
  // Adopting another process's entry is where it goes wrong
  // ---------------------------------------------------------------------------

  /** `slug` works with ports for which the registry has no entry of its own. */
  ghost predicate Adopted(s: Fleet, slug: bytes) {
    slug in s.helpers && !Backed(s, slug)
  }

  /** A successful allocation leaves the helper without an entry of its own exactly when it
      found a live entry of another process. */
  lemma AdoptsIffNotOwn(s: Fleet, slug: bytes, t: Fleet)
    requires RegistryOk(s.registry) && HelpersAlive(s) && Step(s, Allocate(slug), t)
    requires Allocated(s.registry, slug, s.helpers[slug].pid, s.alive).0.Some?
    ensures Adopted(t, slug) <==> !OwnEntry(s, slug)
  {
    var pid := s.helpers[slug].pid;
    var live := Live(s.registry, s.alive);
    var own := FindSlug(live, slug);
    if own.Some? {
      LiveMembers(s.registry, s.alive, own.value);
      AllocationKeepsOk(s.registry, slug, pid, s.alive);
      forall e | e in s.registry && e.slug == slug ensures e == own.value { OneEntryPerSlug(s.registry, e, own.value); }
    } else {
      forall e | e in s.registry && e.slug == slug ensures e.pid !in s.alive { LiveMembers(s.registry, s.alive, e); }
    }
  }

  /** What holds in every run, with reuse and with adoptions. */
  ghost predicate ReachInv(s: Fleet) {
    && RegistryOk(s.registry) && HelpersAlive(s)
    && s.alive <= s.ever && (forall e :: e in s.registry ==> e.pid in s.ever)
    && forall slug :: slug in s.helpers ==> HeldInv(s, slug)
  }

  /** Held ports are a block, and an entry for it under the helper's id is the helper's. */
  ghost predicate HeldInv(s: Fleet, slug: bytes)
    requires slug in s.helpers
  {
    var h := s.helpers[slug];
    h.held.Some? ==>
      && h.held.value.slot < NUM_SLOTS && h.held.value.base == BasePort(h.held.value.slot)
      && forall e :: e in s.registry && e.pid == h.pid && e.slot == h.held.value.slot ==> e.slug == slug
  }

  lemma AllocateKeepsHeld(s: Fleet, slug: bytes, t: Fleet, other: bytes)
    requires ReachInv(s) && Step(s, Allocate(slug), t) && other in t.helpers
    ensures HeldInv(t, other)
  {
    AllocationKeepsOk(s.registry, slug, s.helpers[slug].pid, s.alive);
    assert HeldInv(s, other);
    var r := Allocated(s.registry, slug, s.helpers[slug].pid, s.alive).0;
    if other == slug && r.Some? {
      var x :| x in t.registry && x.slug == slug && x.slot == r.value.slot;
      forall e | e in t.registry && e.slot == r.value.slot ensures e.slug == slug { OneEntryPerSlug(t.registry, e, x); }
    } else {
      forall e | e in t.registry && e.pid == t.helpers[other].pid && e !in s.registry ensures e.slug == other {
        OldOrOwn(s, Allocate(slug), t, e);
      }
    }
  }

  lemma StepKeepsReach(s: Fleet, e: Event, t: Fleet)
    requires ReachInv(s) && Step(s, e, t)
    ensures ReachInv(t)
  {
    StepKeepsRegistry(s, e, t);
    forall x | x in t.registry ensures x.pid in t.ever { OldOrOwn(s, e, t, x); }
    forall slug | slug in t.helpers ensures HeldInv(t, slug) {
      if e.Allocate? {
        AllocateKeepsHeld(s, e.slug, t, slug);
      } else if slug in s.helpers {
        assert HeldInv(s, slug);
        forall x | x in t.registry ensures x in s.registry { OldOrOwn(s, e, t, x); }
      }
    }
  }

  lemma {:induction false} RunReach(states: seq<Fleet>, events: seq<Event>, i: nat)
    requires Run(states, events) && i < |states|
    ensures ReachInv(states[i])
  {
    if i > 0 {
      RunReach(states, events, i - 1);
      StepKeepsReach(states[i - 1], events[i - 1], states[i]);
    }
  }

  // ---------------------------------------------------------------------------
  // Fresh slugs and process ids
  // ---------------------------------------------------------------------------

  lemma {:induction false} NewPid(used: set<nat>) returns (pid: nat)
    ensures forall p :: p in used ==> p < pid
  {
    if used == {} {
      pid := 0;
    } else {
      var p :| p in used;
      var q := NewPid(used - {p});
      pid := if q > p then q else p + 1;
      assert forall x :: x in used ==> x == p || x in used - {p};
    }
  }

  lemma {:induction false} LongestSlug(slugs: set<bytes>) returns (n: nat)
    ensures forall s :: s in slugs ==> |s| <= n
  {
    if slugs == {} {
      n := 0;
    } else {
      var s :| s in slugs;
      var m := LongestSlug(slugs - {s});
      n := if m > |s| then m else |s|;
      assert forall t :: t in slugs ==> t == s || t in slugs - {s};
    }
  }

  /** Every text can be continued by one byte to a slug that hashes to a given slot. */
  lemma LastByteFor(front: bytes, slot: nat) returns (c: byte)
    requires slot < NUM_SLOTS
    ensures Preferred(front + [c]) == slot
  {
    var exact := 33 * Djb2(front);
    c := ByteFor(exact % U64, slot);
    assert (front + [c])[..|front|] == front;
    DropMultiple(exact / U64, exact % U64 + c);
  }

  /** Before the 64-bit wrap, or just after it. */
  lemma ByteFor(h: nat, slot: nat) returns (c: byte)
    requires h < U64 && slot < NUM_SLOTS
    ensures (h + c) % U64 % NUM_SLOTS == slot
  {
    if h + NUM_SLOTS <= U64 {
      c := (slot + NUM_SLOTS - h % NUM_SLOTS) % NUM_SLOTS;
    } else {
      c := U64 - h + slot;
      DropMultiple(1, slot);
    }
  }

  /** Whatever finitely many slugs are taken, another one hashes to the slot. */
  lemma NewSlugFor(slugs: set<bytes>, slot: nat) returns (slug: bytes)
    requires slot < NUM_SLOTS
    ensures slug !in slugs && Preferred(slug) == slot
  {
    var n := LongestSlug(slugs);
    var front: bytes := seq(n, _ => 97);
    var c := LastByteFor(front, slot);
    slug := front + [c];
  }

  // ---------------------------------------------------------------------------
  // From an adoption to sharing
  // ---------------------------------------------------------------------------

  ghost predicate Path(s: Fleet, states: seq<Fleet>, events: seq<Event>) {
    && |states| == |events| + 1 && states[0] == s
    && forall i :: 0 <= i < |events| ==> Step(states[i], events[i], states[i + 1])
  }

  /** Some continuation without further adoptions, and without further reuse of process
      ids, leads to two running helpers with a common port. */
  ghost predicate CanShareFrom(s: Fleet) {
    exists states, events, a, b ::
      Path(s, states, events) && AllocatesOwn(states, events) && PidsNotReused(states, events)
      && SharedPort(states[|events|], a, b)
  }

  predicate SlotIsFree(s: Fleet, slot: nat) {
    forall e :: e in s.registry && e.pid in s.alive ==> e.slot != slot
  }

  /** A new helper whose slug hashes to a free slot gets that slot, although `slug` still
      works with it. */
  lemma FreeSlotIsTaken(s: Fleet, slug: bytes, other: bytes, pid: nat) returns (s1: Fleet, t: Fleet)
    requires ReachInv(s) && slug in s.helpers && s.helpers[slug].held.Some?
    requires SlotIsFree(s, s.helpers[slug].held.value.slot) && Preferred(other) == s.helpers[slug].held.value.slot
    requires other !in s.helpers && pid !in s.alive
    requires forall e :: e in s.registry ==> e.slug != other && e.pid != pid
    ensures Step(s, Start(other, pid), s1) && Step(s1, Allocate(other), t)
    ensures OwnEntry(s1, other) && SharedPort(t, slug, other)
  {
    var a := s.helpers[slug].held.value;
    s1 := s.(helpers := s.helpers[other := Helper(pid, None)], alive := s.alive + {pid}, ever := s.ever + {pid});
    var live := Live(s1.registry, s1.alive);
    forall e | e in live ensures e.slug != other && e.slot != a.slot {
      LiveMembers(s1.registry, s1.alive, e);
    }
    assert HeldInv(s, slug);
    assert FindSlug(live, other).None?;
    assert ProbeOrder(other)[0] == a.slot && a.slot !in Slots(live);
    var (r, after) := Allocated(s1.registry, other, pid, s1.alive);
    assert r == Some(a);
    t := s1.(registry := after, helpers := s1.helpers[other := Helper(pid, r)]);
    assert Port(t.helpers[slug].held.value, 0) == Port(t.helpers[other].held.value, 0);
  }

  /** The process behind a live entry for adopted ports can end without their helper. */
  lemma EntryCanDie(s: Fleet, slug: bytes, e: Entry) returns (event: Event, t: Fleet)
    requires ReachInv(s) && Adopted(s, slug) && s.helpers[slug].held.Some?
    requires e in s.registry && e.pid in s.alive && e.slot == s.helpers[slug].held.value.slot
    ensures Step(s, event, t) && (event.Exit? || event.OtherEnds?)
    ensures slug in t.helpers && t.helpers[slug] == s.helpers[slug]
    ensures t.registry == s.registry && t.helpers.Keys <= s.helpers.Keys && t.ever == s.ever
    ensures SlotIsFree(t, e.slot)
  {
    assert HeldInv(s, slug);
    assert e.pid != s.helpers[slug].pid;
    if h :| h in s.helpers && s.helpers[h].pid == e.pid {
      event := Exit(h);
      t := s.(helpers := s.helpers - {h}, alive := s.alive - {e.pid});
    } else {
      event := OtherEnds(e.pid);
      t := s.(alive := s.alive - {e.pid});
    }
    forall x | x in t.registry && x.pid in t.alive ensures x.slot != e.slot {
      if x.slot == e.slot { OneEntryPerSlug(s.registry, x, e); }
    }
  }

  lemma PathGrows(s: Fleet, states: seq<Fleet>, events: seq<Event>, e: Event, t: Fleet)
    returns (states': seq<Fleet>, events': seq<Event>)
    requires Path(s, states, events) && AllocatesOwn(states, events) && PidsNotReused(states, events)
    requires Step(states[|events|], e, t)
    requires e.Allocate? ==> OwnEntry(states[|events|], e.slug)
    requires e.Start? || e.OtherStarts? ==> e.pid !in states[|events|].ever
    ensures states' == states + [t] && events' == events + [e]
    ensures Path(s, states', events') && AllocatesOwn(states', events') && PidsNotReused(states', events')
  {
    states', events' := states + [t], events + [e];
    forall i | 0 <= i < |events'| ensures Step(states'[i], events'[i], states'[i + 1]) {
      if i < |events| { assert Step(states[i], events[i], states[i + 1]); }
    }
  }

  lemma FreeSlotLeadsToSharing(s: Fleet, states: seq<Fleet>, events: seq<Event>, slug: bytes)
    requires Path(s, states, events) && AllocatesOwn(states, events) && PidsNotReused(states, events)
    requires ReachInv(states[|events|]) && slug in states[|events|].helpers
    requires states[|events|].helpers[slug].held.Some?
    requires SlotIsFree(states[|events|], states[|events|].helpers[slug].held.value.slot)
    ensures CanShareFrom(s)
  {
    var now := states[|events|];
    assert HeldInv(now, slug);
    var taken := now.helpers.Keys + (set x | x in now.registry :: x.slug);
    var other := NewSlugFor(taken, now.helpers[slug].held.value.slot);
    var pid := NewPid(now.ever);
    var s1, t := FreeSlotIsTaken(now, slug, other, pid);
    var path, es := PathGrows(s, states, events, Start(other, pid), s1);
    path, es := PathGrows(s, path, es, Allocate(other), t);
    assert SharedPort(path[|es|], slug, other);
  }

  lemma AdoptionLeadsToSharing(s: Fleet, slug: bytes)
    requires ReachInv(s) && Adopted(s, slug)
    ensures CanShareFrom(s)
  {
    var slot := s.helpers[slug].held.value.slot;
    if e :| e in s.registry && e.pid in s.alive && e.slot == slot {
      var event, t := EntryCanDie(s, slug, e);
      var states, events := PathGrows(s, [s], [], event, t);
      StepKeepsReach(s, event, t);
      FreeSlotLeadsToSharing(s, states, events, slug);
    } else {
      FreeSlotLeadsToSharing(s, [s], [], slug);
    }
  }

  lemma {:induction false} PathStaysSafe(s: Fleet, states: seq<Fleet>, events: seq<Event>, i: nat)
    requires SafeInv(s) && Path(s, states, events) && AllocatesOwn(states, events) && i < |states|
    ensures SafeInv(states[i])
  {
    if i > 0 {
      PathStaysSafe(s, states, events, i - 1);
      StepKeepsSafe(states[i - 1], events[i - 1], states[i]);
    }
  }

  /** From a state of any run, sharing can come about without further adoptions exactly when
      some helper's ports are adopted. */
  lemma SharingIffAdopted(states: seq<Fleet>, events: seq<Event>, i: nat)
    requires Run(states, events) && i < |states|
    ensures CanShareFrom(states[i]) <==> exists slug :: Adopted(states[i], slug)
  {
    var s := states[i];
    RunReach(states, events, i);
    if slug :| Adopted(s, slug) {
      AdoptionLeadsToSharing(s, slug);
    } else if CanShareFrom(s) {
      var path, es, a, b :| Path(s, path, es) && AllocatesOwn(path, es) && PidsNotReused(path, es)
                            && SharedPort(path[|es|], a, b);
      forall slug | slug in s.helpers ensures Backed(s, slug) { assert !Adopted(s, slug); }
      PathStaysSafe(s, path, es, |es|);
      SafeMeansUnshared(path[|es|], a, b);
    }
  }

  // ---------------------------------------------------------------------------
  // A complete run
  // ---------------------------------------------------------------------------

  lemma Extend(states: seq<Fleet>, events: seq<Event>, e: Event, t: Fleet)
    requires Run(states, events) && Step(states[|events|], e, t)
    ensures Run(states + [t], events + [e])
  {
    var more, es := states + [t], events + [e];
    forall i | 0 <= i < |es| ensures Step(more[i], es[i], more[i + 1]) {
      if i < |events| { assert Step(states[i], events[i], states[i + 1]); }
    }
  }

  /** A helper for `a` allocates and ends, another process gets its id, and a new helper
      for `a` adopts the old entry. */
  lemma AdoptingRun(a: bytes) returns (states: seq<Fleet>, events: seq<Event>)
    ensures Run(states, events)
    ensures var s := states[|events|];
            && s.registry == [Entry(a, Preferred(a), BasePort(Preferred(a)), 1)]
            && s.helpers == map[a := Helper(2, Some(Allocation(BasePort(Preferred(a)), Preferred(a))))]
            && s.alive == {1, 2}
  {
    var k := Preferred(a);
    var e, held := Entry(a, k, BasePort(k), 1), Some(Allocation(BasePort(k), k));
    var s0 := Fleet([], map[], {}, {});
    var s1 := Fleet([], map[a := Helper(1, None)], {1}, {1});
    var s2 := Fleet([e], map[a := Helper(1, held)], {1}, {1});
    var s3 := Fleet([e], map[], {}, {1});
    var s4 := Fleet([e], map[], {1}, {1});
    var s5 := Fleet([e], map[a := Helper(2, None)], {1, 2}, {1, 2});
    var s6 := Fleet([e], map[a := Helper(2, held)], {1, 2}, {1, 2});
    states, events := [s0], [];
    Extend(states, events, Start(a, 1), s1);
    states, events := states + [s1], events + [Start(a, 1)];
    Extend(states, events, Allocate(a), s2);
    states, events := states + [s2], events + [Allocate(a)];
    assert s2.helpers - {a} == map[] && s2.alive - {1} == {};
    Extend(states, events, Exit(a), s3);
    states, events := states + [s3], events + [Exit(a)];
    Extend(states, events, OtherStarts(1), s4);
    states, events := states + [s4], events + [OtherStarts(1)];
    Extend(states, events, Start(a, 2), s5);
    states, events := states + [s5], events + [Start(a, 2)];
    SecondAllocation(s5, a, e);
    Extend(states, events, Allocate(a), s6);
    states, events := states + [s6], events + [Allocate(a)];
  }

  /** A whole run from the empty registry in which a reused process id makes the helpers
      of slugs "0" and "b" share ports. */
  lemma ReusedPidSharesPorts() returns (states: seq<Fleet>, events: seq<Event>)
    ensures Run(states, events) && SharedPort(states[|events|], [48], [98])
  {
    var a: bytes, b: bytes := [48], [98];
    PortsStayInRange(Preferred(a), 0);
    states, events := AdoptingRun(a);
    var s := states[|events|];
    RunReach(states, events, |events|);
    var gone := s.(alive := s.alive - {1});
    Extend(states, events, OtherEnds(1), gone);
    states, events := states + [gone], events + [OtherEnds(1)];
    RunReach(states, events, |events|);
    var s1, t := FreeSlotIsTaken(gone, a, b, 3);
    Extend(states, events, Start(b, 3), s1);
    states, events := states + [s1], events + [Start(b, 3)];
    Extend(states, events, Allocate(b), t);
    states, events := states + [t], events + [Allocate(b)];
  }

  lemma SecondAllocation(s: Fleet, slug: bytes, e: Entry)
    requires s == Fleet([e], map[slug := Helper(2, None)], {1, 2}, {1, 2}) && e.slug == slug && e.pid == 1
    ensures Step(s, Allocate(slug), s.(helpers := map[slug := Helper(2, Some(Allocation(e.base, e.slot)))]))
  {
    assert [e][..0] == [];
    assert Live([e], {1, 2}) == [e];
    assert s.helpers[slug := Helper(2, Some(Allocation(e.base, e.slot)))]
        == map[slug := Helper(2, Some(Allocation(e.base, e.slot)))];
  }

}
