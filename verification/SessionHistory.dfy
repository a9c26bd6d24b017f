/** What a history of calls makes of a bounded, expiring session store: which writes are still held,
    and which held id a new one pushes out.  Nothing here depends on how a store keeps its entries. */
module SessionHistory {
  import opened Wrappers

  datatype Json =
    | Null
    | Bool(b: bool)
    | Number(n: real)
    | Text(s: string)
    | Array(items: seq<Json>)
    | Object(fields: map<string, Json>)

  type Payload = map<string, Json>

  datatype Config = Config(maxEntries: nat, defaultTtl: Option<real>)

  /** One call of the store, with the clock readings it makes. */
  datatype Event =
    | Get(id: string, now: real, later: real)
    | Set(id: string, payload: Payload, ttl: Option<real>, now: real, later: real)
    | Delete(id: string)

  predicate AliveAt(deadline: Option<real>, now: real) { deadline.Some? ==> now < deadline.value }

  /** A time to live that is absent falls back to the default; one that is not positive sets no deadline. */
  function Deadline(cfg: Config, ttl: Option<real>, now: real): Option<real> {
    var t := ttl.OrElse(cfg.defaultTtl);
    if t.Some? && t.value > 0.0 then Some(now + t.value) else None
  }

  function DeadlineOf(cfg: Config, e: Event): Option<real>
    requires e.Set?
  {
    Deadline(cfg, e.ttl, e.later)
  }

  /** A value of `id` with this deadline outlives a later call: no write or deletion of the id, and
      every clock reading that could expire it is before the deadline. */
  predicate Spares(e: Event, id: string, deadline: Option<real>) {
    match e
    case Get(other, now, later) => AliveAt(deadline, now) && (other == id ==> AliveAt(deadline, later))
    case Set(other, _, _, now, _) => other != id && AliveAt(deadline, now)
    case Delete(other) => other != id
  }

  /** Event `i` wrote `id`, and no call since has overwritten, deleted, expired or pushed out what it
      wrote. */
  ghost predicate Live(h: seq<Event>, cfg: Config, id: string, i: nat)
    decreases |h|, 0
  {
    && i < |h| && h[i].Set? && h[i].id == id
    && (i < |h| - 1 ==>
          var before, e := h[..|h| - 1], h[|h| - 1];
          Live(before, cfg, id, i) && Spares(e, id, DeadlineOf(cfg, h[i])) && !PushesOut(before, cfg, e, id))
  }

  /** The live writes that have not expired at this clock reading. */
  ghost function Held(h: seq<Event>, cfg: Config, now: real): set<nat>
    decreases |h|, 1
  {
    set i: nat | i < |h| && h[i].Set? && Live(h, cfg, h[i].id, i) && AliveAt(DeadlineOf(cfg, h[i]), now)
  }

  ghost predicate IsHeld(h: seq<Event>, cfg: Config, id: string, now: real)
    decreases |h|, 2
  {
    exists i :: i in Held(h, cfg, now) && h[i].id == id
  }

  /** Event `k` writes `id` while nothing is held under it. */
  ghost predicate Inserts(h: seq<Event>, cfg: Config, k: nat, id: string)
    requires k < |h|
    decreases |h|, 0
  {
    h[k].Set? && h[k].id == id && !IsHeld(h[..k], cfg, id, h[k].now)
  }

  /** The last event that inserted `id`, or -1. */
  ghost function Since(h: seq<Event>, cfg: Config, id: string): int
    decreases |h|, 1
  {
    if h == [] then -1
    else if Inserts(h, cfg, |h| - 1, id) then |h| - 1
    else Since(h[..|h| - 1], cfg, id)
  }

  /** A call pushes out `id` when it writes an id that is not held while the store is full, and `id` is
      the one held that was inserted first.  Overwriting a held id pushes nothing out. */
  ghost predicate PushesOut(h: seq<Event>, cfg: Config, e: Event, id: string)
    decreases |h|, 3
  {
    && e.Set? && !IsHeld(h, cfg, e.id, e.now) && |Held(h, cfg, e.now)| == cfg.maxEntries
    && IsHeld(h, cfg, id, e.now)
    && forall other | IsHeld(h, cfg, other, e.now) :: Since(h, cfg, id) <= Since(h, cfg, other)
  }

  /** A payload can be read: its write is live, and both clock readings are before its deadline. */
  ghost predicate Readable(h: seq<Event>, cfg: Config, id: string, now: real, later: real, payload: Payload) {
    exists i: nat :: Live(h, cfg, id, i) && h[i].payload == payload
      && AliveAt(DeadlineOf(cfg, h[i]), now) && AliveAt(DeadlineOf(cfg, h[i]), later)
  }

  lemma LiveAfter(h: seq<Event>, cfg: Config, e: Event, id: string, i: nat)
    requires i < |h|
    ensures Live(h + [e], cfg, id, i)
       <==> Live(h, cfg, id, i) && Spares(e, id, DeadlineOf(cfg, h[i])) && !PushesOut(h, cfg, e, id)
  {
    var h' := h + [e];
    assert h'[..|h'| - 1] == h && h'[|h'| - 1] == e && h'[i] == h[i];
  }

  /** At most one write of an id is live. */
  lemma {:induction false} OneIsLive(h: seq<Event>, cfg: Config, id: string, i: nat, j: nat)
    requires Live(h, cfg, id, i) && Live(h, cfg, id, j)
    ensures i == j
    decreases |h|
  {
    if i < |h| - 1 && j < |h| - 1 {
      OneIsLive(h[..|h| - 1], cfg, id, i, j);
    } else {
      assert !Spares(h[|h| - 1], id, DeadlineOf(cfg, h[if i < j then i else j])) || i == j;
    }
  }
}
