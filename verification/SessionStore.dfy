/** The bounded in-memory session store: a dictionary in insertion order, purged of expired entries
    and trimmed from the front. */
module SessionStore {
  import opened Wrappers
  import opened SessionHistory

  datatype Entry = Entry(id: string, payload: Payload, deadline: Option<real>)

  /** A Python dictionary in insertion order; no id occurs twice. */
  type Entries = seq<Entry>

  // ----- One call -----

  function Filter(d: Entries, keep: Entry -> bool): Entries {
    if d == [] then [] else (if keep(d[0]) then [d[0]] else []) + Filter(d[1..], keep)
  }

  function Evict(d: Entries, now: real): Entries { Filter(d, (e: Entry) => AliveAt(e.deadline, now)) }

  function Without(d: Entries, id: string): Entries { Filter(d, (e: Entry) => e.id != id) }

  function Lookup(d: Entries, id: string): Option<Entry> {
    if d == [] then None else if d[0].id == id then Some(d[0]) else Lookup(d[1..], id)
  }

  predicate Has(d: Entries, id: string) { Lookup(d, id).Some? }

  /** `d[id] = ...`: a present key keeps its place, a new one goes to the end. */
  function Put(d: Entries, e: Entry): Entries {
    if d == [] then [e] else if d[0].id == e.id then [e] + d[1..] else [d[0]] + Put(d[1..], e)
  }

  function Trim(d: Entries, max: nat): Entries { if |d| > max then d[|d| - max..] else d }

  /** The dictionary right after `set` has written its entry, before trimming. */
  function Written(d: Entries, cfg: Config, e: Event): Entries
    requires e.Set?
  {
    Put(Evict(d, e.now), Entry(e.id, e.payload, Deadline(cfg, e.ttl, e.later)))
  }

  function After(d: Entries, cfg: Config, e: Event): Entries {
    match e
    case Get(id, now, later) =>
      var kept := Evict(d, now);
      var found := Lookup(kept, id);
      if found.Some? && !AliveAt(found.value.deadline, later) then Without(kept, id) else kept
    case Set(_, _, _, _, _) => Trim(Written(d, cfg, e), cfg.maxEntries)
    case Delete(id) => Without(d, id)
  }

  function GetResult(d: Entries, id: string, now: real, later: real): Option<Payload> {
    var found := Lookup(Evict(d, now), id);
    if found.Some? && AliveAt(found.value.deadline, later) then Some(found.value.payload) else None
  }

  // ----- Order: entries stand in the order their ids were last newly inserted -----

  ghost predicate Ascending(d: Entries, rank: string -> int) {
    d == [] || ((forall e | e in d[1..] :: rank(d[0].id) < rank(e.id)) && Ascending(d[1..], rank))
  }

  lemma {:induction false} FilterKeeps(d: Entries, keep: Entry -> bool, rank: string -> int)
    requires Ascending(d, rank)
    ensures Ascending(Filter(d, keep), rank)
    ensures forall e :: e in Filter(d, keep) <==> e in d && keep(e)
    ensures |Filter(d, keep)| <= |d|
  {
    if d == [] {
    } else {
      FilterKeeps(d[1..], keep, rank);
      var f := Filter(d, keep);
      assert forall e :: e in d <==> e == d[0] || e in d[1..];
      if keep(d[0]) { assert f[1..] == Filter(d[1..], keep); } else { assert f == Filter(d[1..], keep); }
    }
  }

  lemma {:induction false} LookupFinds(d: Entries, id: string, rank: string -> int)
    requires Ascending(d, rank)
    ensures forall e :: Lookup(d, id) == Some(e) <==> e in d && e.id == id
    ensures Has(d, id) <==> exists e :: e in d && e.id == id
  {
    if d == [] {
    } else {
      LookupFinds(d[1..], id, rank);
      assert forall e :: e in d <==> e == d[0] || e in d[1..];
    }
  }

  lemma FilterLookup(d: Entries, keep: Entry -> bool, rank: string -> int, id: string)
    requires Ascending(d, rank)
    ensures Lookup(Filter(d, keep), id)
         == if Lookup(d, id).Some? && keep(Lookup(d, id).value) then Lookup(d, id) else None
  {
    FilterKeeps(d, keep, rank);
    LookupFinds(d, id, rank);
    LookupFinds(Filter(d, keep), id, rank);
  }

  lemma {:induction false} PutAppends(d: Entries, e: Entry)
    ensures |Put(d, e)| == if Has(d, e.id) then |d| else |d| + 1
    ensures !Has(d, e.id) ==> Put(d, e) == d + [e]
  {
    if d == [] {
    } else {
      PutAppends(d[1..], e);
    }
  }

  lemma {:induction false} PutMembers(d: Entries, e: Entry, rank: string -> int)
    requires Ascending(d, rank)
    ensures forall x :: x in Put(d, e) <==> x == e || (x in d && x.id != e.id)
  {
    if d == [] {
      assert Put(d, e) == [e];
    } else {
      assert forall x :: x in d <==> x == d[0] || x in d[1..];
      var p := Put(d, e);
      if d[0].id == e.id {
        assert p[1..] == d[1..];
      } else {
        PutMembers(d[1..], e, rank);
        assert p[1..] == Put(d[1..], e);
      }
      assert forall x :: x in p <==> x == p[0] || x in p[1..];
    }
  }

  lemma {:induction false} PutKeeps(d: Entries, e: Entry, rank: string -> int)
    requires Ascending(d, rank)
    requires forall x | x in d && x.id != e.id :: Has(d, e.id) || rank(x.id) < rank(e.id)
    ensures Ascending(Put(d, e), rank)
    ensures forall x :: x in Put(d, e) <==> x == e || (x in d && x.id != e.id)
    ensures |Put(d, e)| == if Has(d, e.id) then |d| else |d| + 1
    ensures !Has(d, e.id) ==> Put(d, e) == d + [e]
  {
    PutMembers(d, e, rank);
    PutAppends(d, e);
    PutAscends(d, e, rank);
  }

  lemma {:induction false} PutAscends(d: Entries, e: Entry, rank: string -> int)
    requires Ascending(d, rank)
    requires forall x | x in d && x.id != e.id :: Has(d, e.id) || rank(x.id) < rank(e.id)
    ensures Ascending(Put(d, e), rank)
  {
    if d == [] {
    } else {
      assert forall x :: x in d <==> x == d[0] || x in d[1..];
      if d[0].id == e.id {
        assert Put(d, e)[1..] == d[1..];
      } else {
        assert Has(d, e.id) <==> Has(d[1..], e.id);
        LookupFinds(d[1..], e.id, rank);
        PutMembers(d[1..], e, rank);
        PutAscends(d[1..], e, rank);
        assert Put(d, e)[1..] == Put(d[1..], e);
      }
    }
  }

  lemma {:induction false} SuffixKeeps(d: Entries, k: nat, rank: string -> int)
    requires Ascending(d, rank) && k <= |d|
    ensures Ascending(d[k..], rank)
    ensures forall i, j | 0 <= i < j < |d| :: rank(d[i].id) < rank(d[j].id)
  {
    if d == [] {
    } else {
      if k > 0 {
        SuffixKeeps(d[1..], k - 1, rank);
        assert d[1..][k - 1..] == d[k..];
      } else {
        SuffixKeeps(d[1..], 0, rank);
        assert d[0..] == d;
      }
      forall i, j | 0 <= i < j < |d| ensures rank(d[i].id) < rank(d[j].id) {
        if i == 0 { assert d[j] in d[1..]; } else { assert d[i] == d[1..][i - 1] && d[j] == d[1..][j - 1]; }
      }
    }
  }

  lemma {:induction false} AscendingBy(d: Entries, rank: string -> int, rank': string -> int)
    requires Ascending(d, rank) && forall e | e in d :: rank(e.id) == rank'(e.id)
    ensures Ascending(d, rank')
  {
    if d == [] {
    } else {
      AscendingBy(d[1..], rank, rank');
    }
  }

  // ----- Histories -----

  ghost function Replay(h: seq<Event>, cfg: Config): Entries {
    if h == [] then [] else After(Replay(h[..|h| - 1], cfg), cfg, h[|h| - 1])
  }

  /** Event `k` inserts `id` anew: the dictionary did not hold it once expired entries were gone. */
  ghost predicate NewAt(h: seq<Event>, cfg: Config, k: nat, id: string)
    requires k < |h|
  {
    h[k].Set? && h[k].id == id && !Has(Evict(Replay(h[..k], cfg), h[k].now), id)
  }

  /** The last event that inserted `id` anew, or -1. */
  ghost function LastNew(h: seq<Event>, cfg: Config, id: string): int {
    if h == [] then -1
    else if NewAt(h, cfg, |h| - 1, id) then |h| - 1
    else LastNew(h[..|h| - 1], cfg, id)
  }

  ghost function Rank(h: seq<Event>, cfg: Config): string -> int {
    id => LastNew(h, cfg, id)
  }

  ghost predicate InOrder(h: seq<Event>, cfg: Config) {
    && Ascending(Replay(h, cfg), Rank(h, cfg))
    && (forall id :: -1 <= LastNew(h, cfg, id) < |h|)
    && (forall e | e in Replay(h, cfg) :: LastNew(h, cfg, e.id) >= 0)
  }

  lemma RankAfter(h: seq<Event>, cfg: Config, e: Event, id: string)
    ensures LastNew(h + [e], cfg, id)
         == if e.Set? && e.id == id && !Has(Evict(Replay(h, cfg), e.now), id) then |h| else LastNew(h, cfg, id)
  {
    assert (h + [e])[..|h|] == h;
  }

  lemma ReplayAfter(h: seq<Event>, cfg: Config, e: Event)
    ensures Replay(h + [e], cfg) == After(Replay(h, cfg), cfg, e)
  {
    assert (h + [e])[..|h|] == h;
  }

  /** Writing an entry keeps the order: the id's rank is unchanged if it is present, and above all
      others if it is new. */
  lemma WriteInOrder(h: seq<Event>, cfg: Config, e: Event)
    requires InOrder(h, cfg) && e.Set?
    ensures Ascending(Written(Replay(h, cfg), cfg, e), Rank(h + [e], cfg))
    ensures forall x | x in Written(Replay(h, cfg), cfg, e) :: LastNew(h + [e], cfg, x.id) >= 0
  {
    var d := Replay(h, cfg);
    var kept := Evict(d, e.now);
    FilterKeeps(d, (x: Entry) => AliveAt(x.deadline, e.now), Rank(h, cfg));
    LookupFinds(kept, e.id, Rank(h, cfg));
    forall id { RankAfter(h, cfg, e, id); }
    AscendingBy(kept, Rank(h, cfg), Rank(h + [e], cfg));
    PutKeeps(kept, Entry(e.id, e.payload, Deadline(cfg, e.ttl, e.later)), Rank(h + [e], cfg));
  }

  lemma {:induction false} HistoriesAreInOrder(h: seq<Event>, cfg: Config)
    ensures InOrder(h, cfg)
  {
    if h == [] {
    } else {
      var before, e := h[..|h| - 1], h[|h| - 1];
      HistoriesAreInOrder(before, cfg);
      assert h == before + [e];
      StepInOrder(before, cfg, e);
    }
  }

  lemma RanksInRange(h: seq<Event>, cfg: Config, e: Event)
    requires InOrder(h, cfg)
    ensures forall id :: -1 <= LastNew(h + [e], cfg, id) < |h| + 1
    ensures !e.Set? ==> forall id :: LastNew(h + [e], cfg, id) == LastNew(h, cfg, id)
  {
    forall id { RankAfter(h, cfg, e, id); }
  }

  /** Dropping entries keeps the order. */
  lemma DropInOrder(h: seq<Event>, cfg: Config, e: Event, d: Entries, keep: Entry -> bool)
    requires InOrder(h, cfg) && !e.Set?
    requires Ascending(d, Rank(h, cfg)) && forall x | x in d :: x in Replay(h, cfg)
    ensures Ascending(Filter(d, keep), Rank(h, cfg)) && Ascending(Filter(d, keep), Rank(h + [e], cfg))
    ensures forall x | x in Filter(d, keep) :: x in Replay(h, cfg)
  {
    FilterKeeps(d, keep, Rank(h, cfg));
    RanksInRange(h, cfg, e);
    AscendingBy(Filter(d, keep), Rank(h, cfg), Rank(h + [e], cfg));
  }

  lemma TrimKeeps(d: Entries, max: nat, rank: string -> int)
    requires Ascending(d, rank)
    ensures Ascending(Trim(d, max), rank) && forall x | x in Trim(d, max) :: x in d
  {
    if |d| > max {
      SuffixKeeps(d, |d| - max, rank);
      SuffixMembers(d, |d| - max);
    }
  }

  lemma SuffixMembers(d: Entries, k: nat)
    requires k <= |d|
    ensures forall x | x in d[k..] :: x in d
  {
  }

  lemma SetInOrder(h: seq<Event>, cfg: Config, e: Event)
    requires InOrder(h, cfg) && e.Set?
    ensures InOrder(h + [e], cfg)
  {
    ReplayAfter(h, cfg, e);
    RanksInRange(h, cfg, e);
    WriteInOrder(h, cfg, e);
    TrimKeeps(Written(Replay(h, cfg), cfg, e), cfg.maxEntries, Rank(h + [e], cfg));
  }

  lemma GetInOrder(h: seq<Event>, cfg: Config, e: Event)
    requires InOrder(h, cfg) && e.Get?
    ensures InOrder(h + [e], cfg)
  {
    var d := Replay(h, cfg);
    ReplayAfter(h, cfg, e);
    RanksInRange(h, cfg, e);
    DropInOrder(h, cfg, e, d, (x: Entry) => AliveAt(x.deadline, e.now));
    DropInOrder(h, cfg, e, Evict(d, e.now), (x: Entry) => x.id != e.id);
  }

  lemma DeleteInOrder(h: seq<Event>, cfg: Config, e: Event)
    requires InOrder(h, cfg) && e.Delete?
    ensures InOrder(h + [e], cfg)
  {
    ReplayAfter(h, cfg, e);
    RanksInRange(h, cfg, e);
    DropInOrder(h, cfg, e, Replay(h, cfg), (x: Entry) => x.id != e.id);
  }

  lemma StepInOrder(h: seq<Event>, cfg: Config, e: Event)
    requires InOrder(h, cfg)
    ensures InOrder(h + [e], cfg)
  {
    match e
    case Set(_, _, _, _, _) => SetInOrder(h, cfg, e);
    case Get(_, _, _) => GetInOrder(h, cfg, e);
    case Delete(_) => DeleteInOrder(h, cfg, e);
  }

  // ----- Size -----

  lemma {:induction false} SizeIsBounded(h: seq<Event>, cfg: Config)
    ensures |Replay(h, cfg)| <= cfg.maxEntries
  {
    if h == [] {
    } else {
      var before, e := h[..|h| - 1], h[|h| - 1];
      SizeIsBounded(before, cfg);
      HistoriesAreInOrder(before, cfg);
      var d, rank := Replay(before, cfg), Rank(before, cfg);
      if !e.Set? {
        FilterKeeps(d, (x: Entry) => x.id != e.id, rank);
        if e.Get? {
          FilterKeeps(d, (x: Entry) => AliveAt(x.deadline, e.now), rank);
          FilterKeeps(Evict(d, e.now), (x: Entry) => x.id != e.id, rank);
        }
      }
    }
  }

  // ----- Trimming -----

  /** Writing `e` leaves `id` in the dictionary, and the trimming takes it out. */
  ghost predicate Trims(h: seq<Event>, cfg: Config, e: Event, id: string) {
    e.Set? && var w := Written(Replay(h, cfg), cfg, e); Has(w, id) && !Has(Trim(w, cfg.maxEntries), id)
  }

  lemma {:induction false} LastNewIsLast(h: seq<Event>, cfg: Config, id: string)
    ensures LastNew(h, cfg, id) >= 0 ==> LastNew(h, cfg, id) < |h| && NewAt(h, cfg, LastNew(h, cfg, id), id)
    ensures forall k: nat | k < |h| && NewAt(h, cfg, k, id) :: k <= LastNew(h, cfg, id)
  {
    if h == [] {
    } else {
      var before := h[..|h| - 1];
      LastNewIsLast(before, cfg, id);
      forall k: nat | k < |h| - 1 ensures NewAt(h, cfg, k, id) == NewAt(before, cfg, k, id) {
        assert before[..k] == h[..k];
      }
    }
  }

  /** The written dictionary has at most one entry too many, and if it has, what the trimming takes
      out is its first entry. */
  lemma WrittenSize(h: seq<Event>, cfg: Config, e: Event)
    requires e.Set? && InOrder(h, cfg) && |Replay(h, cfg)| <= cfg.maxEntries
    ensures var w := Written(Replay(h, cfg), cfg, e);
            |w| <= cfg.maxEntries + 1
            && (Has(Evict(Replay(h, cfg), e.now), e.id) ==> |w| <= cfg.maxEntries)
            && (!Has(Evict(Replay(h, cfg), e.now), e.id) ==> w != [] && w[|w| - 1].id == e.id)
  {
    var d := Replay(h, cfg);
    var kept := Evict(d, e.now);
    FilterKeeps(d, (x: Entry) => AliveAt(x.deadline, e.now), Rank(h, cfg));
    LookupFinds(kept, e.id, Rank(h, cfg));
    var entry := Entry(e.id, e.payload, Deadline(cfg, e.ttl, e.later));
    PutAppends(kept, entry);
  }

  /** The key just written is always retained, with what was written. */
  lemma WriteIsRetained(h: seq<Event>, cfg: Config, e: Event)
    requires e.Set? && cfg.maxEntries >= 1
    ensures Lookup(Replay(h + [e], cfg), e.id) == Some(Entry(e.id, e.payload, Deadline(cfg, e.ttl, e.later)))
  {
    HistoriesAreInOrder(h, cfg);
    SizeIsBounded(h, cfg);
    ReplayAfter(h, cfg, e);
    WrittenSize(h, cfg, e);
    WriteInOrder(h, cfg, e);
    var w, rank := Written(Replay(h, cfg), cfg, e), Rank(h + [e], cfg);
    var entry := Entry(e.id, e.payload, Deadline(cfg, e.ttl, e.later));
    var kept := Evict(Replay(h, cfg), e.now);
    PutHolds(kept, entry);
    var t := Trim(w, cfg.maxEntries);
    SuffixKeeps(w, |w| - |t|, rank);
    PutAppends(kept, entry);
    LookupFinds(t, e.id, rank);
    if Has(kept, e.id) { assert t == w; } else { assert t[|t| - 1] == entry; }
  }

  lemma {:induction false} PutHolds(d: Entries, e: Entry)
    ensures e in Put(d, e)
  {
    if d != [] && d[0].id != e.id {
      PutHolds(d[1..], e);
      assert Put(d, e)[1..] == Put(d[1..], e);
    }
  }

  ghost function Ids(d: Entries): set<string> { set e | e in d :: e.id }

  lemma {:induction false} IdsSize(d: Entries, rank: string -> int)
    requires Ascending(d, rank)
    ensures |Ids(d)| == |d|
  {
    if d != [] {
      IdsSize(d[1..], rank);
      assert forall e :: e in d <==> e == d[0] || e in d[1..];
      assert Ids(d) == Ids(d[1..]) + {d[0].id};
    } else {
      assert Ids(d) == {};
    }
  }

  /** What is trimmed is the first of `maxEntries + 1` entries. */
  lemma TrimmedIsFirst(h: seq<Event>, cfg: Config, e: Event, id: string)
    requires Trims(h, cfg, e, id)
    ensures var w, rank := Written(Replay(h, cfg), cfg, e), Rank(h + [e], cfg);
            |w| == cfg.maxEntries + 1 && w[0].id == id && Ascending(w, rank)
            && forall x | x in w :: rank(x.id) >= 0
  {
    HistoriesAreInOrder(h, cfg);
    SizeIsBounded(h, cfg);
    WrittenSize(h, cfg, e);
    WriteInOrder(h, cfg, e);
    var w, rank := Written(Replay(h, cfg), cfg, e), Rank(h + [e], cfg);
    LookupFinds(w, id, rank);
    SuffixKeeps(w, 1, rank);
    LookupFinds(w[1..], id, rank);
    var x := Lookup(w, id).value;
    assert x in w && x !in w[1..];
  }

  /** The entries a write finds, all unexpired: it may push one of them out. */
  lemma KeptInOrder(h: seq<Event>, cfg: Config, e: Event)
    requires e.Set?
    ensures var kept := Evict(Replay(h, cfg), e.now);
            Ascending(kept, Rank(h, cfg)) && |kept| <= cfg.maxEntries
            && (!Has(kept, e.id) ==> Written(Replay(h, cfg), cfg, e) == kept + [EntryOf(cfg, e)])
            && (Has(kept, e.id) ==> |Written(Replay(h, cfg), cfg, e)| == |kept|)
  {
    HistoriesAreInOrder(h, cfg);
    SizeIsBounded(h, cfg);
    FilterKeeps(Replay(h, cfg), (x: Entry) => AliveAt(x.deadline, e.now), Rank(h, cfg));
    PutAppends(Evict(Replay(h, cfg), e.now), EntryOf(cfg, e));
  }

  /** Exactly which entry goes: the id written is absent from the unexpired entries, these fill the
      store, and the one trimmed is the one of them that was inserted first. */
  lemma TrimsIff(h: seq<Event>, cfg: Config, e: Event, id: string)
    requires cfg.maxEntries >= 1 && e.Set?
    ensures var kept := Evict(Replay(h, cfg), e.now);
            Trims(h, cfg, e, id)
            <==> !Has(kept, e.id) && |kept| == cfg.maxEntries && Has(kept, id)
                 && forall other | Has(kept, other) :: LastNew(h, cfg, id) <= LastNew(h, cfg, other)
  {
    var kept, rank := Evict(Replay(h, cfg), e.now), Rank(h, cfg);
    KeptInOrder(h, cfg, e);
    if !Has(kept, e.id) && |kept| == cfg.maxEntries {
      FirstGoes(kept, EntryOf(cfg, e), rank, id);
      FirstIsLeast(kept, rank, id);
    } else {
      assert Trim(Written(Replay(h, cfg), cfg, e), cfg.maxEntries) == Written(Replay(h, cfg), cfg, e);
    }
  }

  lemma FirstGoes(kept: Entries, entry: Entry, rank: string -> int, id: string)
    requires kept != [] && Ascending(kept, rank) && !Has(kept, entry.id)
    ensures Has(kept + [entry], id) && !Has(Trim(kept + [entry], |kept|), id) <==> id == kept[0].id
  {
    var w := kept + [entry];
    assert Trim(w, |kept|) == w[1..] == kept[1..] + [entry];
    LookupAppend(kept, entry, id);
    LookupAppend(kept[1..], entry, id);
    LookupFinds(kept, kept[0].id, rank);
    LookupFinds(kept[1..], kept[0].id, rank);
  }

  lemma {:induction false} LookupAppend(d: Entries, entry: Entry, id: string)
    ensures Has(d + [entry], id) <==> Has(d, id) || entry.id == id
  {
    if d == [] {
      assert d + [entry] == [entry];
    } else {
      assert (d + [entry])[1..] == d[1..] + [entry];
      LookupAppend(d[1..], entry, id);
    }
  }

  lemma FirstIsLeast(kept: Entries, rank: string -> int, id: string)
    requires kept != [] && Ascending(kept, rank)
    ensures id == kept[0].id <==> Has(kept, id) && forall other | Has(kept, other) :: rank(id) <= rank(other)
  {
    forall other ensures Has(kept, other) <==> exists e :: e in kept && e.id == other {
      LookupFinds(kept, other, rank);
    }
    assert forall e :: e in kept <==> e == kept[0] || e in kept[1..];
    assert Has(kept, kept[0].id);
  }

  // ----- The dictionary follows its history -----

  function EntryOf(cfg: Config, e: Event): Entry
    requires e.Set?
  {
    Entry(e.id, e.payload, DeadlineOf(cfg, e))
  }

  /** What one more event does to an id it does not write. */
  lemma LookupAfter(h: seq<Event>, cfg: Config, e: Event, id: string)
    requires !(e.Set? && e.id == id)
    ensures var found := Lookup(Replay(h, cfg), id);
            Lookup(Replay(h + [e], cfg), id)
            == if found.Some? && Spares(e, id, found.value.deadline) && !Trims(h, cfg, e, id)
               then found else None
  {
    var d, rank := Replay(h, cfg), Rank(h, cfg);
    HistoriesAreInOrder(h, cfg);
    ReplayAfter(h, cfg, e);
    match e {
      case Get(other, now, later) =>
        FilterKeeps(d, (x: Entry) => AliveAt(x.deadline, now), rank);
        FilterLookup(d, (x: Entry) => AliveAt(x.deadline, now), rank, id);
        FilterLookup(Evict(d, now), (x: Entry) => x.id != other, rank, id);
        LookupFinds(Evict(d, now), other, rank);
        LookupFinds(d, id, rank);
      case Delete(other) =>
        FilterLookup(d, (x: Entry) => x.id != other, rank, id);
        LookupFinds(d, id, rank);
      case Set(_, _, _, _, _) => LookupAfterSet(h, cfg, e, id);
    }
  }

  lemma LookupAfterSet(h: seq<Event>, cfg: Config, e: Event, id: string)
    requires e.Set? && e.id != id && InOrder(h, cfg)
    ensures var found := Lookup(Replay(h, cfg), id);
            Lookup(Replay(h + [e], cfg), id)
            == if found.Some? && AliveAt(found.value.deadline, e.now) && !Trims(h, cfg, e, id)
               then found else None
  {
    var d, rank := Replay(h, cfg), Rank(h, cfg);
    ReplayAfter(h, cfg, e);
    FilterLookup(d, (x: Entry) => AliveAt(x.deadline, e.now), rank, id);
    WriteInOrder(h, cfg, e);
    PutLookup(Evict(d, e.now), EntryOf(cfg, e), id);
    TrimLookup(Written(d, cfg, e), cfg.maxEntries, Rank(h + [e], cfg), id);
  }

  lemma TrimLookup(d: Entries, max: nat, rank: string -> int, id: string)
    requires Ascending(d, rank)
    ensures Has(Trim(d, max), id) ==> Lookup(Trim(d, max), id) == Lookup(d, id)
  {
    if |d| > max { SuffixLookup(d, |d| - max, rank, id); }
  }

  lemma SuffixLookup(d: Entries, k: nat, rank: string -> int, id: string)
    requires Ascending(d, rank) && k <= |d|
    ensures Has(d[k..], id) ==> Lookup(d[k..], id) == Lookup(d, id)
  {
    SuffixKeeps(d, k, rank);
    SuffixMembers(d, k);
    PartLookup(d, d[k..], rank, id);
  }

  lemma PartLookup(d: Entries, part: Entries, rank: string -> int, id: string)
    requires Ascending(d, rank) && Ascending(part, rank) && forall e | e in part :: e in d
    ensures Has(part, id) ==> Lookup(part, id) == Lookup(d, id)
  {
    LookupFinds(d, id, rank);
    LookupFinds(part, id, rank);
  }

  lemma {:induction false} PutLookup(d: Entries, e: Entry, id: string)
    requires id != e.id
    ensures Lookup(Put(d, e), id) == Lookup(d, id)
  {
    if d != [] && d[0].id != e.id {
      PutLookup(d[1..], e, id);
      assert Put(d, e)[1..] == Put(d[1..], e);
    } else if d != [] {
      assert Put(d, e)[1..] == d[1..];
    }
  }

  /** What the dictionary holds is what is live in the history, and it knows when each id came in. */
  ghost predicate Follows(h: seq<Event>, cfg: Config) {
    && (forall id, i: nat | Live(h, cfg, id, i) :: Lookup(Replay(h, cfg), id) == Some(EntryOf(cfg, h[i])))
    && (forall id | Has(Replay(h, cfg), id) :: exists i: nat :: Live(h, cfg, id, i))
    && (forall id :: LastNew(h, cfg, id) == Since(h, cfg, id))
  }

  lemma HeldIff(h: seq<Event>, cfg: Config, id: string, now: real)
    requires Follows(h, cfg)
    ensures IsHeld(h, cfg, id, now) <==> Has(Evict(Replay(h, cfg), now), id)
  {
    HistoriesAreInOrder(h, cfg);
    FilterLookup(Replay(h, cfg), (x: Entry) => AliveAt(x.deadline, now), Rank(h, cfg), id);
    if IsHeld(h, cfg, id, now) {
      var i :| i in Held(h, cfg, now) && h[i].id == id;
      assert Live(h, cfg, id, i);
    }
    if Has(Evict(Replay(h, cfg), now), id) {
      assert Has(Replay(h, cfg), id);
      var i: nat :| Live(h, cfg, id, i);
      assert i in Held(h, cfg, now) && h[i].id == id;
    }
  }

  /** Finitely many writes, each of another id, are as many as their ids. */
  lemma {:induction false} AsManyIds(h: seq<Event>, writes: set<nat>, ids: set<string>)
    requires forall i | i in writes :: i < |h| && h[i].id in ids
    requires forall i, j | i in writes && j in writes && h[i].id == h[j].id :: i == j
    requires forall id | id in ids :: exists i :: i in writes && h[i].id == id
    ensures |writes| == |ids|
  {
    if writes == {} {
      assert ids == {};
    } else {
      var i :| i in writes;
      AsManyIds(h, writes - {i}, ids - {h[i].id});
    }
  }

  lemma HeldCount(h: seq<Event>, cfg: Config, now: real)
    requires Follows(h, cfg)
    ensures |Held(h, cfg, now)| == |Evict(Replay(h, cfg), now)|
  {
    var held, kept, rank := Held(h, cfg, now), Evict(Replay(h, cfg), now), Rank(h, cfg);
    HistoriesAreInOrder(h, cfg);
    FilterKeeps(Replay(h, cfg), (x: Entry) => AliveAt(x.deadline, now), rank);
    IdsSize(kept, rank);
    forall id ensures id in Ids(kept) <==> IsHeld(h, cfg, id, now) {
      HeldIff(h, cfg, id, now);
      LookupFinds(kept, id, rank);
    }
    forall i, j | i in held && j in held && h[i].id == h[j].id ensures i == j { OneIsLive(h, cfg, h[i].id, i, j); }
    forall i | i in held ensures h[i].id in Ids(kept) { assert IsHeld(h, cfg, h[i].id, now); }
    AsManyIds(h, held, Ids(kept));
  }

  /** The trimming takes out exactly what the history says is pushed out. */
  lemma PushesOutIff(h: seq<Event>, cfg: Config, e: Event, id: string)
    requires cfg.maxEntries >= 1 && Follows(h, cfg)
    ensures PushesOut(h, cfg, e, id) <==> Trims(h, cfg, e, id)
  {
    if e.Set? {
      TrimsIff(h, cfg, e, id);
      HeldCount(h, cfg, e.now);
      forall other ensures IsHeld(h, cfg, other, e.now) <==> Has(Evict(Replay(h, cfg), e.now), other) {
        HeldIff(h, cfg, other, e.now);
      }
    }
  }

  lemma SinceAfter(h: seq<Event>, cfg: Config, e: Event, id: string)
    requires Follows(h, cfg)
    ensures LastNew(h + [e], cfg, id) == Since(h + [e], cfg, id)
  {
    var h' := h + [e];
    assert h'[..|h|] == h && h'[..|h'| - 1] == h;
    if e.Set? { HeldIff(h, cfg, id, e.now); }
  }

  lemma StepFollows(h: seq<Event>, cfg: Config, e: Event)
    requires cfg.maxEntries >= 1 && Follows(h, cfg)
    ensures Follows(h + [e], cfg)
  {
    var h' := h + [e];
    forall id ensures LastNew(h', cfg, id) == Since(h', cfg, id) { SinceAfter(h, cfg, e, id); }
    forall id, i: nat | Live(h', cfg, id, i) ensures Lookup(Replay(h', cfg), id) == Some(EntryOf(cfg, h'[i])) {
      LiveIsStored(h, cfg, e, id, i);
    }
    forall id | Has(Replay(h', cfg), id) ensures exists i: nat :: Live(h', cfg, id, i) { StoredIsLive(h, cfg, e, id); }
  }

  lemma LiveIsStored(h: seq<Event>, cfg: Config, e: Event, id: string, i: nat)
    requires cfg.maxEntries >= 1 && Follows(h, cfg) && Live(h + [e], cfg, id, i)
    ensures Lookup(Replay(h + [e], cfg), id) == Some(EntryOf(cfg, (h + [e])[i]))
  {
    if i == |h| {
      WriteIsRetained(h, cfg, e);
    } else {
      LiveAfter(h, cfg, e, id, i);
      PushesOutIff(h, cfg, e, id);
      LookupAfter(h, cfg, e, id);
    }
  }

  lemma StoredIsLive(h: seq<Event>, cfg: Config, e: Event, id: string)
    requires cfg.maxEntries >= 1 && Follows(h, cfg) && Has(Replay(h + [e], cfg), id)
    ensures exists i: nat :: Live(h + [e], cfg, id, i)
  {
    if e.Set? && e.id == id {
      assert Live(h + [e], cfg, id, |h|);
    } else {
      LookupAfter(h, cfg, e, id);
      PushesOutIff(h, cfg, e, id);
      assert Has(Replay(h, cfg), id);
      var i: nat :| Live(h, cfg, id, i);
      LiveAfter(h, cfg, e, id, i);
      assert Live(h + [e], cfg, id, i);
    }
  }

  /** The dictionary holds exactly the live writes of its history. */
  lemma {:induction false} ReplayFollowsHistory(h: seq<Event>, cfg: Config)
    requires cfg.maxEntries >= 1
    ensures Follows(h, cfg)
  {
    if h == [] {
    } else {
      var before, e := h[..|h| - 1], h[|h| - 1];
      ReplayFollowsHistory(before, cfg);
      StepFollows(before, cfg, e);
      assert h == before + [e];
    }
  }

  /** The store never holds more than `maxEntries` writes. */
  lemma HeldIsBounded(h: seq<Event>, cfg: Config, now: real)
    requires cfg.maxEntries >= 1
    ensures |Held(h, cfg, now)| <= cfg.maxEntries
  {
    ReplayFollowsHistory(h, cfg);
    HeldCount(h, cfg, now);
    SizeIsBounded(h, cfg);
    HistoriesAreInOrder(h, cfg);
    FilterKeeps(Replay(h, cfg), (x: Entry) => AliveAt(x.deadline, now), Rank(h, cfg));
  }

  /** `get` returns a payload exactly when it is the last one written for the id and was not
      deleted, pushed out or past its deadline at any clock reading since. */
  lemma GetReturnsLiveWrite(h: seq<Event>, cfg: Config, id: string, now: real, later: real, payload: Payload)
    requires cfg.maxEntries >= 1
    ensures GetResult(Replay(h, cfg), id, now, later) == Some(payload) <==> Readable(h, cfg, id, now, later, payload)
  {
    ReplayFollowsHistory(h, cfg);
    HistoriesAreInOrder(h, cfg);
    var d, rank := Replay(h, cfg), Rank(h, cfg);
    FilterLookup(d, (x: Entry) => AliveAt(x.deadline, now), rank, id);
    if Has(d, id) {
      var i: nat :| Live(h, cfg, id, i);
      assert Lookup(d, id) == Some(EntryOf(cfg, h[i]));
    }
    if Readable(h, cfg, id, now, later, payload) {
      var i: nat :| Live(h, cfg, id, i) && h[i].payload == payload
        && AliveAt(DeadlineOf(cfg, h[i]), now) && AliveAt(DeadlineOf(cfg, h[i]), later);
      assert Lookup(d, id) == Some(EntryOf(cfg, h[i]));
    }
  }

  // ----- How long a write can be read -----

  lemma JustWritten(h: seq<Event>, cfg: Config, e: Event, now: real, later: real)
    requires cfg.maxEntries >= 1 && e.Set?
    ensures var entry := EntryOf(cfg, e);
            GetResult(Replay(h + [e], cfg), e.id, now, later)
            == if AliveAt(entry.deadline, now) && AliveAt(entry.deadline, later) then Some(e.payload) else None
  {
    WriteIsRetained(h, cfg, e);
    HistoriesAreInOrder(h + [e], cfg);
    FilterLookup(Replay(h + [e], cfg), (x: Entry) => AliveAt(x.deadline, now), Rank(h + [e], cfg), e.id);
  }

  /** A write with a positive time to live is read back exactly until that time has passed since it was
      written, whatever the default. */
  lemma OwnTimeToLive(h: seq<Event>, cfg: Config, id: string, payload: Payload, ttl: real, checked: real, written: real,
                      now: real, later: real)
    requires cfg.maxEntries >= 1 && ttl > 0.0
    ensures GetResult(Replay(h + [Set(id, payload, Some(ttl), checked, written)], cfg), id, now, later)
         == if now < written + ttl && later < written + ttl then Some(payload) else None
  {
    JustWritten(h, cfg, Set(id, payload, Some(ttl), checked, written), now, later);
  }

  /** One with a time to live that is not positive is read back at any time, even under a default. */
  lemma NoTimeToLive(h: seq<Event>, cfg: Config, id: string, payload: Payload, ttl: real, checked: real, written: real,
                     now: real, later: real)
    requires cfg.maxEntries >= 1 && ttl <= 0.0
    ensures GetResult(Replay(h + [Set(id, payload, Some(ttl), checked, written)], cfg), id, now, later) == Some(payload)
  {
    JustWritten(h, cfg, Set(id, payload, Some(ttl), checked, written), now, later);
  }

  /** One without a time to live lives as long as the default says, and for ever without a positive one. */
  lemma DefaultTimeToLive(h: seq<Event>, cfg: Config, id: string, payload: Payload, checked: real, written: real,
                          now: real, later: real)
    requires cfg.maxEntries >= 1
    ensures var ttl := cfg.defaultTtl;
            GetResult(Replay(h + [Set(id, payload, None, checked, written)], cfg), id, now, later)
            == if ttl.Some? && ttl.value > 0.0 && !(now < written + ttl.value && later < written + ttl.value) then None
               else Some(payload)
  {
    JustWritten(h, cfg, Set(id, payload, None, checked, written), now, later);
  }

  /** Event `k` inserts `s` after `id` came in. */
  ghost predicate InsertedLater(h: seq<Event>, cfg: Config, e: Event, id: string, s: string, k: nat) {
    Since(h, cfg, id) < k <= |h| && Inserts(h + [e], cfg, k, s)
  }

  lemma RankInserts(h: seq<Event>, cfg: Config, e: Event, s: string)
    requires cfg.maxEntries >= 1 && 0 <= LastNew(h + [e], cfg, s)
    ensures LastNew(h + [e], cfg, s) <= |h| && Inserts(h + [e], cfg, LastNew(h + [e], cfg, s), s)
  {
    var k := LastNew(h + [e], cfg, s);
    LastNewIsLast(h + [e], cfg, s);
    ReplayFollowsHistory((h + [e])[..k], cfg);
    HeldIff((h + [e])[..k], cfg, s, (h + [e])[k].now);
  }

  /** An id is pushed out only if at least `maxEntries` other ids were newly inserted after it came in;
      overwriting a held id inserts nothing. */
  lemma PushedOutOnlyByNewcomers(h: seq<Event>, cfg: Config, e: Event, id: string)
    requires cfg.maxEntries >= 1 && PushesOut(h, cfg, e, id)
    ensures exists newer: set<string> :: |newer| == cfg.maxEntries && id !in newer
              && forall s | s in newer :: exists k :: InsertedLater(h, cfg, e, id, s, k)
  {
    ReplayFollowsHistory(h, cfg);
    PushesOutIff(h, cfg, e, id);
    TrimmedIsFirst(h, cfg, e, id);
    RankAfter(h, cfg, e, id);
    var w, rank := Written(Replay(h, cfg), cfg, e), Rank(h + [e], cfg);
    SuffixKeeps(w, 1, rank);
    IdsSize(w[1..], rank);
    var newer := Ids(w[1..]);
    forall s | s in newer ensures exists k :: InsertedLater(h, cfg, e, id, s, k) {
      var y :| y in w[1..] && y.id == s;
      assert y in w && rank(w[0].id) < rank(y.id);
      RankInserts(h, cfg, e, s);
      assert InsertedLater(h, cfg, e, id, s, LastNew(h + [e], cfg, s));
    }
    assert id !in newer;
  }

  // ----- The store -----

  /** A Python dictionary object that callers may change at will. */
  class Dict {
    var items: Payload

    constructor (items: Payload)
      ensures this.items == items
    {
      this.items := items;
    }
  }

  lemma EvictOne(d: Entries, i: nat, now: real)
    requires i < |d|
    ensures AliveAt(d[i].deadline, now) ==> d[..i + 1] + Evict(d[i + 1..], now) == d[..i] + Evict(d[i..], now)
    ensures !AliveAt(d[i].deadline, now) ==>
              var rest := d[..i] + d[i + 1..]; rest[..i] + Evict(rest[i..], now) == d[..i] + Evict(d[i..], now)
  {
    assert d[i..][1..] == d[i + 1..] && d[..i + 1] == d[..i] + [d[i]];
    var rest := d[..i] + d[i + 1..];
    assert rest[..i] == d[..i] && rest[i..] == d[i + 1..];
  }

  /** The store.  The payload it keeps is its own copy, never handed out, so it is a value here. */
  class InMemorySessionStore {
    const cfg: Config
    var data: Entries
    ghost var history: seq<Event>

    ghost predicate Valid()
      reads this
    {
      cfg.maxEntries >= 1 && data == Replay(history, cfg)
    }

    constructor (maxEntries: int, defaultTtl: Option<real>)
      ensures Valid() && history == []
      ensures cfg == Config(if maxEntries < 1 then 1 else maxEntries, defaultTtl)
    {
      cfg := Config(if maxEntries < 1 then 1 else maxEntries, defaultTtl);
      data, history := [], [];
    }

    /** `_evict_expired`: pops every entry whose deadline has passed. */
    method EvictExpired(now: real)
      modifies this`data
      ensures data == Evict(old(data), now)
    {
      var i := 0;
      ghost var kept := Evict(data, now);
      assert data[0..] == data && data[..0] == [];
      while i < |data|
        invariant i <= |data| && data[..i] + Evict(data[i..], now) == kept
        decreases |data| - i
      {
        EvictOne(data, i, now);
        if AliveAt(data[i].deadline, now) {
          i := i + 1;
        } else {
          data := data[..i] + data[i + 1..];
        }
      }
      assert data[i..] == [] && data[..i] == data;
    }

    /** `_trim_size`: pops the first entry while there are too many. */
    method TrimSize()
      modifies this`data
      ensures data == Trim(old(data), cfg.maxEntries)
    {
      while |data| > cfg.maxEntries
        invariant Trim(data, cfg.maxEntries) == Trim(old(data), cfg.maxEntries)
        decreases |data|
      {
        data := data[1..];
      }
    }

    /** Returns a fresh copy of the payload, exactly when the id's last write is still readable. */
    method Get(id: string, now: real, later: real) returns (found: Dict?)
      requires Valid()
      modifies this
      ensures Valid() && history == old(history) + [Event.Get(id, now, later)]
      ensures found != null ==> fresh(found) && Readable(old(history), cfg, id, now, later, found.items)
      ensures found == null ==> forall p :: !Readable(old(history), cfg, id, now, later, p)
    {
      HistoriesAreInOrder(history, cfg);
      ReplayAfter(history, cfg, Event.Get(id, now, later));
      forall p { GetReturnsLiveWrite(history, cfg, id, now, later, p); }
      EvictExpired(now);
      history := history + [Event.Get(id, now, later)];
      var entry := Lookup(data, id);
      if entry.None? {
        return null;
      }
      if !AliveAt(entry.value.deadline, later) {
        data := Without(data, id);
        return null;
      }
      found := new Dict(entry.value.payload);
    }

    /** Writes a copy of the payload.  The store then holds at most `maxEntries` entries, among them
        the one just written. */
    method Set(id: string, payload: Dict, ttl: Option<real>, now: real, later: real)
      requires Valid()
      modifies this
      ensures Valid() && history == old(history) + [Event.Set(id, payload.items, ttl, now, later)]
      ensures |data| <= cfg.maxEntries
      ensures Lookup(data, id) == Some(Entry(id, payload.items, Deadline(cfg, ttl, later)))
      ensures var t := if ttl.Some? then ttl else cfg.defaultTtl;
              Lookup(data, id).value.deadline == if t.Some? && t.value > 0.0 then Some(later + t.value) else None
    {
      var e := Event.Set(id, payload.items, ttl, now, later);
      HistoriesAreInOrder(history, cfg);
      ReplayAfter(history, cfg, e);
      SizeIsBounded(history + [e], cfg);
      WriteIsRetained(history, cfg, e);
      EvictExpired(now);
      data := Put(data, Entry(id, payload.items, Deadline(cfg, ttl, later)));
      TrimSize();
      history := history + [e];
    }

    method Remove(id: string)
      requires Valid()
      modifies this
      ensures Valid() && history == old(history) + [Delete(id)] && !Has(data, id)
    {
      HistoriesAreInOrder(history, cfg);
      ReplayAfter(history, cfg, Delete(id));
      FilterLookup(data, (e: Entry) => e.id != id, Rank(history, cfg), id);
      LookupFinds(data, id, Rank(history, cfg));
      data := Without(data, id);
      history := history + [Delete(id)];
    }
  }
}
