/** The in-memory store behind the OIDC routes: two dictionaries of one-time values with a time to
    live.  Times are whatever the clock read before the lock was taken, so an operation may carry
    an earlier time than the one before it. */
module OidcStore {
  import opened Wrappers

  datatype Entry = Entry(value: string, saved: real)

  type Table = map<string, Entry>

  /** What happens to one dictionary, in the order the lock admits it. */
  datatype Event = Save(key: string, value: string, now: real) | Pop(key: string, now: real)

  function Purge(table: Table, ttl: real, now: real): Table {
    map k | k in table && now - table[k].saved <= ttl :: table[k]
  }

  function After(table: Table, ttl: real, e: Event): Table {
    match e
    case Save(key, value, now) => Purge(table, ttl, now)[key := Entry(value, now)]
    case Pop(key, now) => Purge(table, ttl, now) - {key}
  }

  function PopResult(table: Table, ttl: real, key: string, now: real): Option<string> {
    var purged := Purge(table, ttl, now);
    if key in purged then Some(purged[key].value) else None
  }

  // ----- The specification: what a history makes available -----

  /** Event `i` saved `key`; nothing has saved or popped `key` since, and no clock reading since
      has found the value too old. */
  ghost predicate LiveSave(history: seq<Event>, ttl: real, key: string, i: nat) {
    && i < |history| && history[i].Save? && history[i].key == key
    && forall j | i < j < |history| :: history[j].key != key && history[j].now - history[i].now <= ttl
  }

  /** A pop of `key` at `now` finds `value`: it is a live save, still young enough. */
  ghost predicate Available(history: seq<Event>, ttl: real, key: string, now: real, value: string) {
    exists i: nat :: LiveSave(history, ttl, key, i) && history[i].value == value && now - history[i].now <= ttl
  }

  /** `value` is the latest save under `key`, nothing popped it since, and it is young enough now. */
  ghost predicate LatestAndYoung(history: seq<Event>, ttl: real, key: string, now: real, value: string) {
    exists i: nat :: i < |history| && Latest(history, key, i) && history[i].value == value
                     && now - history[i].now <= ttl
  }

  ghost predicate Latest(history: seq<Event>, key: string, i: nat)
    requires i < |history|
  {
    history[i].Save? && history[i].key == key && forall j | i < j < |history| :: history[j].key != key
  }

  ghost function Replay(history: seq<Event>, ttl: real): Table {
    if history == [] then map[]
    else After(Replay(history[..|history| - 1], ttl), ttl, history[|history| - 1])
  }

  ghost predicate Agrees(table: Table, history: seq<Event>, ttl: real) {
    && (forall k, i: nat | LiveSave(history, ttl, k, i) ::
          k in table && table[k] == Entry(history[i].value, history[i].now))
    && (forall k | k in table :: exists i: nat :: LiveSave(history, ttl, k, i))
  }

  /** The dictionary holds exactly the live saves of its history, whatever the clock readings. */
  lemma {:induction false} ReplayHoldsLiveSaves(history: seq<Event>, ttl: real)
    ensures Agrees(Replay(history, ttl), history, ttl)
  {
    if history == [] {
    } else {
      var before, e := history[..|history| - 1], history[|history| - 1];
      ReplayHoldsLiveSaves(before, ttl);
      AgreesAfter(Replay(before, ttl), before, ttl, e);
      assert history == before + [e];
    }
  }

  lemma LiveBefore(history: seq<Event>, ttl: real, e: Event, key: string, i: nat)
    requires i < |history|
    ensures LiveSave(history + [e], ttl, key, i)
       <==> LiveSave(history, ttl, key, i) && e.key != key && e.now - history[i].now <= ttl
  {
    var h := history + [e];
    if LiveSave(h, ttl, key, i) {
      assert h[|history|] == e;
      forall j | i < j < |history| ensures history[j].key != key && history[j].now - history[i].now <= ttl {
        assert h[j] == history[j];
      }
    }
  }

  lemma AgreesAfter(table: Table, history: seq<Event>, ttl: real, e: Event)
    requires Agrees(table, history, ttl)
    ensures Agrees(After(table, ttl, e), history + [e], ttl)
  {
    var h, t := history + [e], After(table, ttl, e);
    forall k, i: nat | LiveSave(h, ttl, k, i)
      ensures k in t && t[k] == Entry(h[i].value, h[i].now)
    {
      if i < |history| { LiveBefore(history, ttl, e, k, i); }
    }
    forall k | k in t ensures exists i: nat :: LiveSave(h, ttl, k, i) {
      if e.Save? && e.key == k {
        assert LiveSave(h, ttl, k, |history|);
      } else {
        var i: nat :| LiveSave(history, ttl, k, i);
        LiveBefore(history, ttl, e, k, i);
        assert LiveSave(h, ttl, k, i);
      }
    }
  }

  /** A pop returns a value exactly when that value was saved under the key, is the latest save,
      was not popped before, and is within its time to live at this clock reading and at every
      reading since the save. */
  lemma PopReturnsLiveSave(history: seq<Event>, ttl: real, key: string, now: real, value: string)
    ensures PopResult(Replay(history, ttl), ttl, key, now) == Some(value)
       <==> Available(history, ttl, key, now, value)
  {
    ReplayHoldsLiveSaves(history, ttl);
    var table := Replay(history, ttl);
    if PopResult(table, ttl, key, now) == Some(value) {
      var i: nat :| LiveSave(history, ttl, key, i);
      assert table[key] == Entry(history[i].value, history[i].now);
    }
  }

  ghost predicate ClockOrdered(history: seq<Event>, now: real) {
    && (forall i, j | 0 <= i < j < |history| :: history[i].now <= history[j].now)
    && (forall i | 0 <= i < |history| :: history[i].now <= now)
  }

  /** When the clock readings arrive in order, only the age at the pop matters. */
  lemma {:induction false} PopWithOrderedClock(history: seq<Event>, ttl: real, key: string, now: real, value: string)
    requires ClockOrdered(history, now)
    ensures PopResult(Replay(history, ttl), ttl, key, now) == Some(value)
       <==> LatestAndYoung(history, ttl, key, now, value)
  {
    PopReturnsLiveSave(history, ttl, key, now, value);
    if LatestAndYoung(history, ttl, key, now, value) {
      var i: nat :| i < |history| && Latest(history, key, i) && history[i].value == value
                    && now - history[i].now <= ttl;
      assert LiveSave(history, ttl, key, i);
    }
    if Available(history, ttl, key, now, value) {
      var i: nat :| LiveSave(history, ttl, key, i) && history[i].value == value && now - history[i].now <= ttl;
      assert Latest(history, key, i);
    }
  }

  /** Whatever the clock readings, a pop only ever returns the latest save under its key, not popped
      before and within its time to live. */
  lemma {:induction false} PopIsAlwaysSafe(history: seq<Event>, ttl: real, key: string, now: real, value: string)
    requires PopResult(Replay(history, ttl), ttl, key, now) == Some(value)
    ensures LatestAndYoung(history, ttl, key, now, value)
  {
    PopReturnsLiveSave(history, ttl, key, now, value);
    var i: nat :| LiveSave(history, ttl, key, i) && history[i].value == value && now - history[i].now <= ttl;
    assert Latest(history, key, i);
  }

  /** So a save is found again just as long as it lives, if nothing else happens. */
  lemma SavedThenPopped(key: string, value: string, saved: real, ttl: real, now: real)
    requires saved <= now
    ensures ClockOrdered([Save(key, value, saved)], now)
    ensures PopResult(Replay([Save(key, value, saved)], ttl), ttl, key, now) == Some(value) <==> now - saved <= ttl
  {
    var history := [Save(key, value, saved)];
    PopWithOrderedClock(history, ttl, key, now, value);
    assert Latest(history, key, 0);
  }

  /** Out of order they can matter: a save that is young enough at the pop is gone if another
      operation brought a later clock reading in between. */
  lemma LateReadingEvicts(key: string, other: string, value: string)
    requires key != other
    ensures var history := [Save(key, value, 0.0), Pop(other, 601.0)];
            PopResult(Replay(history, 600.0), 600.0, key, 1.0) == None
  {
  }

  /** Two pops of a key that both succeed return two different saves. */
  lemma EachSavePopsOnce(history: seq<Event>, ttl: real, p: nat, q: nat)
    requires p < q < |history| && history[p].Pop? && history[q].Pop? && history[p].key == history[q].key
    requires PopResult(Replay(history[..p], ttl), ttl, history[p].key, history[p].now).Some?
    requires PopResult(Replay(history[..q], ttl), ttl, history[q].key, history[q].now).Some?
    ensures exists i | p < i < q :: LiveSave(history[..q], ttl, history[q].key, i)
  {
    var key, now := history[q].key, history[q].now;
    var got := PopResult(Replay(history[..q], ttl), ttl, key, now).value;
    PopReturnsLiveSave(history[..q], ttl, key, now, got);
    assert history[..q][p] == history[p];
    var i: nat :| LiveSave(history[..q], ttl, key, i);
  }

  // ----- The store -----

  /** `_purge_expired`: collects the expired keys, then deletes them one by one. */
  method PurgeExpired(table: Table, ttl: real, now: real) returns (kept: Table)
    ensures kept == Purge(table, ttl, now)
  {
    kept := table;
    var expired := set k | k in table && now - table[k].saved > ttl;
    ghost var gone: set<string> := {};
    while expired != {}
      invariant gone + expired == set k | k in table && now - table[k].saved > ttl
      invariant kept == table - gone
    {
      var k :| k in expired;
      kept := kept - {k};
      gone, expired := gone + {k}, expired - {k};
    }
  }

  class InMemoryOIDCBFFTokenStore {
    var pkce: Table
    var exchange: Table
    const stateTtl: real
    const otcTtl: real
    ghost var pkceHistory: seq<Event>
    ghost var exchangeHistory: seq<Event>

    ghost predicate Valid()
      reads this
    {
      pkce == Replay(pkceHistory, stateTtl) && exchange == Replay(exchangeHistory, otcTtl)
    }

    constructor (stateTtl: real, otcTtl: real)
      ensures Valid() && this.stateTtl == stateTtl && this.otcTtl == otcTtl
      ensures pkceHistory == [] && exchangeHistory == []
    {
      pkce, exchange := map[], map[];
      this.stateTtl, this.otcTtl := stateTtl, otcTtl;
      pkceHistory, exchangeHistory := [], [];
    }

    method SavePkceVerifier(state: string, codeVerifier: string, now: real)
      requires Valid()
      modifies this
      ensures Valid()
      ensures pkceHistory == old(pkceHistory) + [Save(state, codeVerifier, now)]
      ensures exchangeHistory == old(exchangeHistory)
      ensures pkce == After(old(pkce), stateTtl, Save(state, codeVerifier, now)) && exchange == old(exchange)
    {
      pkce := PurgeExpired(pkce, stateTtl, now);
      pkce := pkce[state := Entry(codeVerifier, now)];
      pkceHistory := pkceHistory + [Save(state, codeVerifier, now)];
    }

    /** Returns the verifier exactly when its save is still live, and uses it up. */
    method PopPkceVerifier(state: string, now: real) returns (verifier: Option<string>)
      requires Valid()
      modifies this
      ensures Valid()
      ensures pkceHistory == old(pkceHistory) + [Pop(state, now)] && exchangeHistory == old(exchangeHistory)
      ensures pkce == After(old(pkce), stateTtl, Pop(state, now)) && exchange == old(exchange)
      ensures verifier == PopResult(old(pkce), stateTtl, state, now)
      ensures forall v :: verifier == Some(v) <==> Available(old(pkceHistory), stateTtl, state, now, v)
    {
      pkce := PurgeExpired(pkce, stateTtl, now);
      verifier := if state in pkce then Some(pkce[state].value) else None;
      pkce := pkce - {state};
      forall v { PopReturnsLiveSave(pkceHistory, stateTtl, state, now, v); }
      pkceHistory := pkceHistory + [Pop(state, now)];
    }

    method SaveExchangeToken(authCode: string, accessToken: string, now: real)
      requires Valid()
      modifies this
      ensures Valid()
      ensures exchangeHistory == old(exchangeHistory) + [Save(authCode, accessToken, now)]
      ensures pkceHistory == old(pkceHistory)
      ensures exchange == After(old(exchange), otcTtl, Save(authCode, accessToken, now)) && pkce == old(pkce)
    {
      exchange := PurgeExpired(exchange, otcTtl, now);
      exchange := exchange[authCode := Entry(accessToken, now)];
      exchangeHistory := exchangeHistory + [Save(authCode, accessToken, now)];
    }

    /** Returns the token exactly when its save is still live, and uses it up. */
    method PopExchangeToken(authCode: string, now: real) returns (token: Option<string>)
      requires Valid()
      modifies this
      ensures Valid()
      ensures exchangeHistory == old(exchangeHistory) + [Pop(authCode, now)] && pkceHistory == old(pkceHistory)
      ensures exchange == After(old(exchange), otcTtl, Pop(authCode, now)) && pkce == old(pkce)
      ensures token == PopResult(old(exchange), otcTtl, authCode, now)
      ensures forall v :: token == Some(v) <==> Available(old(exchangeHistory), otcTtl, authCode, now, v)
    {
      exchange := PurgeExpired(exchange, otcTtl, now);
      token := if authCode in exchange then Some(exchange[authCode].value) else None;
      exchange := exchange - {authCode};
      forall v { PopReturnsLiveSave(exchangeHistory, otcTtl, authCode, now, v); }
      exchangeHistory := exchangeHistory + [Pop(authCode, now)];
    }
  }
}
