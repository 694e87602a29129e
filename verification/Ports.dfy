/**
 The port allocator (`ports.rs`): a registry file shared by all helpers of a host, fifty
 slots of two hundred ports each, probed cyclically from a hash of the slug.

 `RegistryFile` is the file; `Allocated` is what one allocation makes of its contents.
 */
module Ports {
  import opened Prelude

  const NUM_SLOTS: nat := 50
  const STRIDE: nat := 200
  const PORT_RANGE_START: nat := 20_000

  const U16: nat := 0x1_0000
  const U64: nat := 0x1_0000_0000_0000_0000

  // PortOffsets (ADR-0030), without that of PostgreSQL, which no variable names
  const AC_HTTP: nat := 0
  const GC_HTTP: nat := 1
  const GC_GRPC: nat := 2
  const MC_0_HEALTH: nat := 10
  const MC_0_GRPC: nat := 11
  const MC_0_WEBTRANSPORT: nat := 12
  const MC_1_HEALTH: nat := 13
  const MC_1_GRPC: nat := 14
  const MC_1_WEBTRANSPORT: nat := 15
  const MH_0_HEALTH: nat := 20
  const MH_0_GRPC: nat := 21
  const MH_0_WEBTRANSPORT: nat := 22
  const MH_1_HEALTH: nat := 23
  const MH_1_GRPC: nat := 24
  const MH_1_WEBTRANSPORT: nat := 25
  const PROMETHEUS: nat := 100
  const GRAFANA: nat := 101
  const LOKI: nat := 102
  const K8S_API: nat := 103
  const K8S_API_HOST: nat := 104

  datatype Entry = Entry(slug: bytes, slot: nat, base: nat, pid: nat)

  datatype Allocation = Allocation(base: nat, slot: nat)

  // ---------------------------------------------------------------------------
  // Sixteen-bit port arithmetic
  // ---------------------------------------------------------------------------

  /** `PORT_RANGE_START + (slot_index as u16) * STRIDE`, wrapping where the source would. */
  function BasePort(slot: nat): nat {
    (PORT_RANGE_START + (slot % U16) * STRIDE % U16) % U16
  }

  /** `PortAllocation::port` */
  function Port(a: Allocation, offset: nat): nat {
    (a.base + offset) % U16
  }

  /** No step wraps for the slots in use, and every port stays in the documented range. */
  lemma PortsStayInRange(slot: nat, offset: nat)
    requires slot < 50 && offset < 200
    ensures BasePort(slot) == 20_000 + 200 * slot
    ensures Port(Allocation(BasePort(slot), slot), offset) == 20_000 + 200 * slot + offset
    ensures 20_000 <= Port(Allocation(BasePort(slot), slot), offset) <= 29_999
  {
  }

  /** Different slots have no port in common. */
  lemma BlocksAreDisjoint(a: nat, b: nat, i: nat, j: nat)
    requires a < 50 && b < 50 && a != b && i < 200 && j < 200
    ensures Port(Allocation(BasePort(a), a), i) != Port(Allocation(BasePort(b), b), j)
  {
    PortsStayInRange(a, i);
    PortsStayInRange(b, j);
  }

  // ---------------------------------------------------------------------------
  // The hash
  // ---------------------------------------------------------------------------

  /** djb2 on unbounded integers. */
  function Djb2(s: bytes): nat {
    if s == [] then 5381 else 33 * Djb2(s[..|s| - 1]) + s[|s| - 1]
  }

  function Preferred(slug: bytes): (idx: nat)
    ensures idx < NUM_SLOTS
  {
    Djb2(slug) % U64 % NUM_SLOTS
  }

  lemma WrappingStep(exact: nat, hash: nat, b: byte)
    requires hash == exact % U64
    ensures (hash * 33 % U64 + b) % U64 == (33 * exact + b) % U64
  {
    var q := exact / U64;
    assert exact == q * U64 + hash;
    var h := hash * 33;
    var p := h / U64;
    assert h == p * U64 + h % U64;
    assert 33 * exact + b == (33 * q + p) * U64 + (h % U64 + b);
    DropMultiple(33 * q + p, h % U64 + b);
  }

  lemma DropMultiple(k: nat, x: nat)
    ensures (k * U64 + x) % U64 == x % U64
  {
    var q, r := x / U64, x % U64;
    assert k * U64 + x == (k + q) * U64 + r;
  }

  method PreferredIndex(slug: bytes) returns (idx: nat)
    ensures idx == Preferred(slug)
  {
    var hash := 5381;
    for i := 0 to |slug|
      invariant hash == Djb2(slug[..i]) % U64
    {
      WrappingStep(Djb2(slug[..i]), hash, slug[i]);
      assert slug[..i + 1][..i] == slug[..i];
      hash := (hash * 33 % U64 + slug[i]) % U64;
    }
    assert slug[..|slug|] == slug;
    idx := hash % NUM_SLOTS;
  }

  /** `steps` are the values of the hash after each byte. */
  lemma {:induction false} HashSteps(s: bytes, steps: seq<nat>)
    requires |steps| == |s| + 1 && steps[0] == 5381
    requires forall i :: 0 <= i < |s| ==> steps[i + 1] == 33 * steps[i] + s[i]
    ensures Djb2(s) == steps[|s|]
  {
    if s != [] { HashSteps(s[..|s| - 1], steps[..|s|]); }
  }

  /** The slots of the empty slug, of "0", of "dev", and of "dark-tower-1", whose hash no
      longer fits in 64 bits. */
  lemma SampleSlots()
    ensures Preferred([]) == 31 && Preferred([48]) == 21 && Preferred([100, 101, 118]) == 48
    ensures Preferred([100, 97, 114, 107, 45, 116, 111, 119, 101, 114, 45, 49]) == 5
  {
    HashSteps([48], [5381, 177621]);
    HashSteps([100, 101, 118], [5381, 177673, 5863310, 193489348]);
    HashSteps([100, 97, 114, 107, 45, 116, 111, 119, 101, 114, 45, 49],
              [5381, 177673, 5863306, 193489212, 6385144103, 210709755444, 6953421929768, 229462923682455,
               7572276481521134, 249885123890197523, 8246209088376518373, 272124899916425106354,
               8980121697242028509731]);
  }

  // ---------------------------------------------------------------------------
  // Allocation
  // ---------------------------------------------------------------------------

  /** The entries whose process is alive, in order. */
  function Live(entries: seq<Entry>, alive: set<nat>): seq<Entry> {
    if entries == [] then []
    else
      var last := entries[|entries| - 1];
      Live(entries[..|entries| - 1], alive) + (if last.pid in alive then [last] else [])
  }

  function FindSlug(entries: seq<Entry>, slug: bytes): (r: Option<Entry>)
    ensures r.Some? ==> r.value in entries && r.value.slug == slug
    ensures r.None? ==> forall e :: e in entries ==> e.slug != slug
  {
    if entries == [] then None
    else if entries[0].slug == slug then Some(entries[0])
    else FindSlug(entries[1..], slug)
  }

  function Slots(entries: seq<Entry>): set<nat> {
    set e | e in entries :: e.slot
  }

  /** The slot at cyclic distance `offset` from the preferred one. */
  function Probe(slug: bytes, offset: nat): (slot: nat)
    ensures slot < NUM_SLOTS
  {
    (Preferred(slug) + offset) % NUM_SLOTS
  }

  /** All slots in the order they are probed. */
  function ProbeOrder(slug: bytes): (order: seq<nat>)
    ensures |order| == NUM_SLOTS
    ensures forall d :: 0 <= d < NUM_SLOTS ==> order[d] == Probe(slug, d)
  {
    seq(NUM_SLOTS, d requires 0 <= d => Probe(slug, d))
  }

  function FirstFree(slots: seq<nat>, used: set<nat>): Option<nat> {
    if slots == [] then None
    else if slots[0] !in used then Some(slots[0])
    else FirstFree(slots[1..], used)
  }

  /** What an allocation returns, and the file after it. */
  function Allocated(entries: seq<Entry>, slug: bytes, pid: nat, alive: set<nat>): (Option<Allocation>, seq<Entry>) {
    var live := Live(entries, alive);
    var own := FindSlug(live, slug);
    if own.Some? then (Some(Allocation(own.value.base, own.value.slot)), entries)
    else
      var free := FirstFree(ProbeOrder(slug), Slots(live));
      if free.None? then (None, entries)
      else
        var slot := free.value;
        (Some(Allocation(BasePort(slot), slot)), live + [Entry(slug, slot, BasePort(slot), pid)])
  }

  function Without(entries: seq<Entry>, slug: bytes): seq<Entry> {
    if entries == [] then []
    else
      var last := entries[|entries| - 1];
      Without(entries[..|entries| - 1], slug) + (if last.slug != slug then [last] else [])
  }

  class RegistryFile {
    var entries: seq<Entry>

    constructor ()
      ensures entries == []
    {
      entries := [];
    }

    /** `allocate_ports`: dead entries are dropped in memory, and the file is written only
        when an entry is added. */
    method AllocatePorts(slug: bytes, pid: nat, alive: set<nat>) returns (r: Option<Allocation>)
      modifies this
      ensures (r, entries) == Allocated(old(entries), slug, pid, alive)
    {
      var registry := Retain(entries, alive);
      for i := 0 to |registry|
        invariant FindSlug(registry, slug) == FindSlug(registry[i..], slug)
      {
        assert registry[i..][1..] == registry[i + 1..];
        if registry[i].slug == slug {
          return Some(Allocation(registry[i].base, registry[i].slot));
        }
      }
      var preferred := PreferredIndex(slug);
      var used := {};
      for i := 0 to |registry|
        invariant used == Slots(registry[..i])
      {
        assert registry[..i + 1] == registry[..i] + [registry[i]];
        used := used + {registry[i].slot};
      }
      assert registry[..|registry|] == registry;
      var chosen := ProbeFree(slug, preferred, used);
      if chosen.None? {
        return None;
      }
      var slot := chosen.value;
      var base := (PORT_RANGE_START + (slot % U16) * STRIDE % U16) % U16;
      entries := registry + [Entry(slug, slot, base, pid)];
      r := Some(Allocation(base, slot));
    }

    method DeallocatePorts(slug: bytes)
      modifies this
      ensures entries == Without(old(entries), slug)
    {
      var kept := [];
      for i := 0 to |entries|
        invariant entries == old(entries)
        invariant kept == Without(entries[..i], slug)
      {
        assert entries[..i + 1][..i] == entries[..i];
        if entries[i].slug != slug {
          kept := kept + [entries[i]];
        }
      }
      assert entries[..|entries|] == entries;
      entries := kept;
    }
  }

  /** The probing loop: the first slot in cyclic order that is not used. */
  method ProbeFree(slug: bytes, preferred: nat, used: set<nat>) returns (chosen: Option<nat>)
    requires preferred == Preferred(slug)
    ensures chosen == FirstFree(ProbeOrder(slug), used)
  {
    chosen := None;
    var offset := 0;
    ghost var order := ProbeOrder(slug);
    assert order[0..] == order;
    while offset < NUM_SLOTS && chosen.None?
      invariant 0 <= offset <= NUM_SLOTS
      invariant FirstFree(order, used) == if chosen.Some? then chosen else FirstFree(order[offset..], used)
    {
      assert order[offset..][1..] == order[offset + 1..];
      var idx := (preferred + offset) % NUM_SLOTS;
      if idx !in used {
        chosen := Some(idx);
      }
      offset := offset + 1;
    }
  }

  method Retain(entries: seq<Entry>, alive: set<nat>) returns (kept: seq<Entry>)
    ensures kept == Live(entries, alive)
  {
    kept := [];
    for i := 0 to |entries|
      invariant kept == Live(entries[..i], alive)
    {
      assert entries[..i + 1][..i] == entries[..i];
      if entries[i].pid in alive {
        kept := kept + [entries[i]];
      }
    }
    assert entries[..|entries|] == entries;
  }

  // ---------------------------------------------------------------------------
  // What an allocation guarantees
  // ---------------------------------------------------------------------------

  lemma {:induction false} LiveMembers(entries: seq<Entry>, alive: set<nat>, e: Entry)
    ensures e in Live(entries, alive) <==> e in entries && e.pid in alive
  {
    if entries != [] {
      LiveMembers(entries[..|entries| - 1], alive, e);
      assert entries == entries[..|entries| - 1] + [entries[|entries| - 1]];
    }
  }

  /** Dead entries go one by one; the others stay in their order. */
  lemma {:induction false} LiveOfParts(a: seq<Entry>, b: seq<Entry>, alive: set<nat>)
    ensures Live(a + b, alive) == Live(a, alive) + Live(b, alive)
    ensures |a| == 1 ==> Live(a, alive) == if a[0].pid in alive then a else []
  {
    if b == [] {
      assert a + b == a;
    } else {
      assert (a + b)[..|a + b| - 1] == a + b[..|b| - 1];
      LiveOfParts(a, b[..|b| - 1], alive);
    }
  }

  /** So do the entries of a slug that is deallocated. */
  lemma {:induction false} WithoutOfParts(a: seq<Entry>, b: seq<Entry>, slug: bytes)
    ensures Without(a + b, slug) == Without(a, slug) + Without(b, slug)
    ensures |a| == 1 ==> Without(a, slug) == if a[0].slug != slug then a else []
  {
    if b == [] {
      assert a + b == a;
    } else {
      assert (a + b)[..|a + b| - 1] == a + b[..|b| - 1];
      WithoutOfParts(a, b[..|b| - 1], slug);
    }
  }

  lemma {:induction false} WithoutMembers(entries: seq<Entry>, slug: bytes, e: Entry)
    ensures e in Without(entries, slug) <==> e in entries && e.slug != slug
  {
    if entries != [] {
      WithoutMembers(entries[..|entries| - 1], slug, e);
      assert entries == entries[..|entries| - 1] + [entries[|entries| - 1]];
    }
  }

  lemma {:induction false} FirstOfMany(slots: seq<nat>, used: set<nat>)
    ensures match FirstFree(slots, used)
            case Some(slot) =>
              exists d :: 0 <= d < |slots| && slot == slots[d] && slot !in used && forall j :: 0 <= j < d ==> slots[j] in used
            case None => forall j :: 0 <= j < |slots| ==> slots[j] in used
  {
    if slots != [] && slots[0] in used {
      var rest := slots[1..];
      FirstOfMany(rest, used);
      assert forall j :: 0 < j < |slots| ==> slots[j] == rest[j - 1];
      if FirstFree(rest, used).Some? {
        var d :| 0 <= d < |rest| && FirstFree(rest, used).value == rest[d] && rest[d] !in used
                 && forall j :: 0 <= j < d ==> rest[j] in used;
        assert slots[d + 1] == rest[d];
      }
    }
  }

  /** Probing starts at the preferred slot, goes up, and from the last slot on to the first. */
  lemma ProbeIsCyclic(slug: bytes, d: nat)
    ensures Probe(slug, 0) == Preferred(slug)
    ensures Probe(slug, d + 1) == if Probe(slug, d) == 49 then 0 else Probe(slug, d) + 1
  {
  }

  lemma FirstFreeIsFirst(slug: bytes, used: set<nat>)
    ensures match FirstFree(ProbeOrder(slug), used)
            case Some(slot) =>
              exists d :: 0 <= d < 50 && slot == Probe(slug, d) && slot !in used
                          && forall j :: 0 <= j < d ==> Probe(slug, j) in used
            case None => forall j :: 0 <= j < 50 ==> Probe(slug, j) in used
  {
    var order := ProbeOrder(slug);
    FirstOfMany(order, used);
    if FirstFree(order, used).None? {
      forall j | 0 <= j < NUM_SLOTS ensures Probe(slug, j) in used { assert order[j] in used; }
    } else {
      var d :| 0 <= d < |order| && FirstFree(order, used).value == order[d] && order[d] !in used
               && forall j :: 0 <= j < d ==> order[j] in used;
      forall j | 0 <= j < d ensures Probe(slug, j) in used { assert order[j] in used; }
      assert order[d] == Probe(slug, d);
    }
  }

  /** A live entry for the slug is handed out again, the first one should there be more, and
      nothing is written. */
  lemma AllocationOfKnownSlug(entries: seq<Entry>, slug: bytes, pid: nat, alive: set<nat>, i: nat)
    requires i < |entries| && entries[i].slug == slug && entries[i].pid in alive
    requires forall j :: 0 <= j < i ==> entries[j].slug != slug || entries[j].pid !in alive
    ensures Allocated(entries, slug, pid, alive) == (Some(Allocation(entries[i].base, entries[i].slot)), entries)
  {
    var a, e, b := entries[..i], entries[i], entries[i + 1..];
    assert entries == a + ([e] + b);
    LiveOfParts(a, [e] + b, alive);
    LiveOfParts([e], b, alive);
    forall x | x in Live(a, alive) ensures x.slug != slug { LiveMembers(a, alive, x); }
    FindBehind(Live(a, alive), Live([e], alive) + Live(b, alive), slug);
  }

  lemma {:induction false} FindBehind(a: seq<Entry>, b: seq<Entry>, slug: bytes)
    requires forall e :: e in a ==> e.slug != slug
    ensures FindSlug(a + b, slug) == FindSlug(b, slug)
  {
    if a == [] {
      assert a + b == b;
    } else {
      assert (a + b)[1..] == a[1..] + b;
      FindBehind(a[1..], b, slug);
    }
  }

  predicate AllTaken(used: set<nat>) {
    forall k :: 0 <= k < 50 ==> k in used
  }

  /** Probing reaches every slot. */
  lemma ProbeReaches(slug: bytes, slot: nat) returns (d: nat)
    requires slot < NUM_SLOTS
    ensures d < NUM_SLOTS && Probe(slug, d) == slot
  {
    var p := Preferred(slug);
    d := if p <= slot then slot - p else slot + NUM_SLOTS - p;
  }

  /** Without a live entry for the slug, the first free slot in cyclic order from the hash
      is taken; the attempt fails exactly when live entries use all fifty. */
  lemma AllocationOfNewSlug(entries: seq<Entry>, slug: bytes, pid: nat, alive: set<nat>)
    requires forall e :: e in entries && e.pid in alive ==> e.slug != slug
    ensures Allocated(entries, slug, pid, alive).0.None? <==>
            AllTaken(Slots(Live(entries, alive)))
    ensures var (r, after) := Allocated(entries, slug, pid, alive);
            var used := Slots(Live(entries, alive));
            && (r.Some? ==>
                  exists d :: 0 <= d < 50 && r.value.slot == Probe(slug, d) && r.value.slot !in used
                              && forall j :: 0 <= j < d ==> Probe(slug, j) in used)
            && (r.Some? ==> after == Live(entries, alive) + [Entry(slug, r.value.slot, r.value.base, pid)])
            && (r.None? ==> after == entries)
  {
    var live := Live(entries, alive);
    var own := FindSlug(live, slug);
    if own.Some? { LiveMembers(entries, alive, own.value); }
    FirstFreeIsFirst(slug, Slots(live));
    if FirstFree(ProbeOrder(slug), Slots(live)).None? {
      forall k | 0 <= k < NUM_SLOTS ensures k in Slots(live) {
        var d := ProbeReaches(slug, k);
      }
    } else {
      var free := FirstFree(ProbeOrder(slug), Slots(live)).value;
      assert free < NUM_SLOTS && free !in Slots(live);
      assert !AllTaken(Slots(live));
    }
  }

  ghost predicate RegistryOk(entries: seq<Entry>) {
    && (forall i :: 0 <= i < |entries| ==> WellPlaced(entries[i]))
    && (forall i, j :: 0 <= i < j < |entries| ==> Apart(entries[i], entries[j]))
  }

  predicate Apart(a: Entry, b: Entry) {
    a.slug != b.slug && a.slot != b.slot
  }

  predicate WellPlaced(e: Entry) {
    e.slot < 50 && e.base == 20_000 + 200 * e.slot
  }

  lemma OkInit(init: seq<Entry>, last: Entry)
    requires RegistryOk(init + [last])
    ensures RegistryOk(init) && WellPlaced(last) && forall e :: e in init ==> Apart(e, last)
  {
    var all := init + [last];
    assert all[|init|] == last && forall i :: 0 <= i < |init| ==> all[i] == init[i];
  }

  lemma {:induction false} LiveKeepsOk(entries: seq<Entry>, alive: set<nat>)
    requires RegistryOk(entries)
    ensures RegistryOk(Live(entries, alive))
  {
    if entries != [] {
      var init, last := entries[..|entries| - 1], entries[|entries| - 1];
      assert entries == init + [last];
      OkInit(init, last);
      LiveKeepsOk(init, alive);
      forall e | e in Live(init, alive) ensures Apart(e, last) {
        LiveMembers(init, alive, e);
      }
    }
  }

  lemma {:induction false} WithoutKeepsOk(entries: seq<Entry>, slug: bytes)
    requires RegistryOk(entries)
    ensures RegistryOk(Without(entries, slug))
  {
    if entries != [] {
      var init, last := entries[..|entries| - 1], entries[|entries| - 1];
      assert entries == init + [last];
      OkInit(init, last);
      WithoutKeepsOk(init, slug);
      forall e | e in Without(init, slug) ensures Apart(e, last) {
        WithoutMembers(init, slug, e);
      }
    }
  }

  /** An allocation keeps the registry well formed and returns an entry of it. */
  lemma AllocationKeepsOk(entries: seq<Entry>, slug: bytes, pid: nat, alive: set<nat>)
    requires RegistryOk(entries)
    ensures var (r, after) := Allocated(entries, slug, pid, alive);
            && RegistryOk(after)
            && (r.Some? ==> r.value.slot < 50 && r.value.base == 20_000 + 200 * r.value.slot)
            && (r.Some? ==> exists e :: e in after && e.slug == slug && e.slot == r.value.slot && e.base == r.value.base)
  {
    var live := Live(entries, alive);
    LiveKeepsOk(entries, alive);
    var own := FindSlug(live, slug);
    if own.Some? {
      LiveMembers(entries, alive, own.value);
      assert WellPlaced(own.value);
    } else {
      FirstFreeIsFirst(slug, Slots(live));
      var free := FirstFree(ProbeOrder(slug), Slots(live));
      if free.Some? { NewEntryKeepsOk(live, Entry(slug, free.value, BasePort(free.value), pid)); }
    }
  }

  lemma NewEntryKeepsOk(live: seq<Entry>, e: Entry)
    requires RegistryOk(live) && e.slot < 50 && e.base == BasePort(e.slot) && e.slot !in Slots(live)
    requires forall x :: x in live ==> x.slug != e.slug
    ensures RegistryOk(live + [e]) && e.base == 20_000 + 200 * e.slot && e in live + [e]
  {
    PortsStayInRange(e.slot, 0);
    forall i | 0 <= i < |live| ensures Apart(live[i], e) {
      assert live[i] in live && live[i].slot in Slots(live);
    }
  }

  /** In a well-formed registry failure means fifty live entries. */
  lemma FailureMeansFifty(entries: seq<Entry>, slug: bytes, pid: nat, alive: set<nat>)
    requires RegistryOk(entries)
    requires forall e :: e in entries && e.pid in alive ==> e.slug != slug
    ensures Allocated(entries, slug, pid, alive).0.None? <==> |Live(entries, alive)| == 50
  {
    var live := Live(entries, alive);
    LiveKeepsOk(entries, alive);
    AllocationOfNewSlug(entries, slug, pid, alive);
    SlotCount(live);
    var all := Below(NUM_SLOTS);
    assert Slots(live) <= all by {
      forall e | e in live ensures e.slot < NUM_SLOTS { }
    }
    if AllTaken(Slots(live)) {
      assert Slots(live) == all;
    }
    if |live| == NUM_SLOTS {
      SubsetOfSameSize(Slots(live), all);
    }
  }

  lemma {:induction false} SlotCount(entries: seq<Entry>)
    requires RegistryOk(entries)
    ensures |Slots(entries)| == |entries|
  {
    if entries != [] {
      var init, last := entries[..|entries| - 1], entries[|entries| - 1];
      assert entries == init + [last];
      OkInit(init, last);
      SlotCount(init);
      assert Slots(entries) == Slots(init) + {last.slot};
      assert last.slot !in Slots(init);
    }
  }

  function Below(n: nat): (r: set<nat>)
    ensures |r| == n
    ensures forall k :: k in r <==> 0 <= k < n
  {
    if n == 0 then {} else Below(n - 1) + {n - 1}
  }

  lemma SubsetOfSameSize(a: set<nat>, b: set<nat>)
    requires a <= b && |a| == |b|
    ensures a == b
  {
    assert b == a + (b - a);
  }

  /** Allocating again, with the process alive, returns the same block and changes nothing. */
  lemma AllocationIsIdempotent(entries: seq<Entry>, slug: bytes, pid: nat, alive: set<nat>)
    requires RegistryOk(entries) && pid in alive && Allocated(entries, slug, pid, alive).0.Some?
    ensures var (r, after) := Allocated(entries, slug, pid, alive);
            Allocated(after, slug, pid, alive) == (r, after)
  {
    var (r, after) := Allocated(entries, slug, pid, alive);
    var live := Live(entries, alive);
    if FindSlug(live, slug).None? {
      var e := Entry(slug, r.value.slot, r.value.base, pid);
      assert after == live + [e];
      AllocationKeepsOk(entries, slug, pid, alive);
      LiveMembers(after, alive, e);
      var found := FindSlug(Live(after, alive), slug);
      assert found.Some?;
      LiveMembers(after, alive, found.value);
      assert after[|after| - 1] == e;
      OneEntryPerSlug(after, found.value, e);
    }
  }

  lemma OneEntryPerSlug(entries: seq<Entry>, a: Entry, b: Entry)
    requires RegistryOk(entries) && a in entries && b in entries && (a.slug == b.slug || a.slot == b.slot)
    ensures a == b
  {
  }
}
