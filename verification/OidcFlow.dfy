/** The login, callback and exchange routes over the token store, as request handlers whose steps
    interleave in any order and with any clock readings.  Random values are fresh: a new state was
    never minted before, and neither was a new one-time code. */
module OidcFlow {
  import opened Wrappers
  import opened OidcStore

  // A request handler between two of its accesses to the store or the identity provider.
  datatype LoginSaving = LoginSaving(state: string, verifier: string, now: real)
  datatype CallbackPopping = CallbackPopping(code: string, state: string, now: real)
  datatype CallbackCalling = CallbackCalling(code: string, state: string, verifier: string)
  datatype CallbackSaving = CallbackSaving(otc: string, access: string, now: real)
  datatype ExchangePopping = ExchangePopping(code: string, now: real)

  datatype IdpCall = IdpCall(code: string, state: string, verifier: string)
  datatype Minted = Minted(access: string, state: string)
  datatype Redemption = Redemption(otc: string, access: string)

  /** `pkce` and `exchange` are the store's dictionaries; the next five maps hold the handlers by
      request number and by what they do next.  The rest records what happened: the verifier each
      login minted its state with, the states that callbacks used up, the token calls made to the
      identity provider and their states, the one-time codes minted, the tokens handed out and
      their codes. */
  datatype World = World(
    stateTtl: real, otcTtl: real, pkce: Table, exchange: Table,
    saving: map<nat, LoginSaving>, popping: map<nat, CallbackPopping>, calling: map<nat, CallbackCalling>,
    minting: map<nat, CallbackSaving>, redeeming: map<nat, ExchangePopping>,
    logins: map<string, string>, consumed: set<string>, calls: seq<IdpCall>, called: set<string>,
    minted: map<string, Minted>, redeemed: seq<Redemption>, spent: set<string>)

  datatype Action =
    | LoginArrives(id: nat, state: string, verifier: string, now: real)
    | LoginSaves(id: nat)
    | CallbackArrives(id: nat, code: string, state: string, now: real)
    | CallbackPops(id: nat)
    | IdpAnswers(id: nat, access: Option<string>, otc: string, now: real)
    | CallbackSaves(id: nat)
    | ExchangeArrives(id: nat, code: string, now: real)
    | ExchangePops(id: nat)

  function Init(stateTtl: real, otcTtl: real): World {
    World(stateTtl, otcTtl, map[], map[], map[], map[], map[], map[], map[], map[], {}, [], {}, map[], [], {})
  }

  predicate Idle(w: World, id: nat) {
    id !in w.saving && id !in w.popping && id !in w.calling && id !in w.minting && id !in w.redeeming
  }

  predicate Enabled(w: World, a: Action) {
    match a
    case LoginArrives(id, state, _, _) => Idle(w, id) && state !in w.logins
    case LoginSaves(id) => id in w.saving
    case CallbackArrives(id, _, _, _) => Idle(w, id)
    case CallbackPops(id) => id in w.popping
    case IdpAnswers(id, _, otc, _) => id in w.calling && otc !in w.minted
    case CallbackSaves(id) => id in w.minting
    case ExchangeArrives(id, _, _) => Idle(w, id)
    case ExchangePops(id) => id in w.redeeming
  }

  /** `save_pkce_verifier` in the login route. */
  function SaveVerifier(w: World, id: nat): World
    requires id in w.saving
  {
    var h := w.saving[id];
    w.(pkce := After(w.pkce, w.stateTtl, Save(h.state, h.verifier, h.now)), saving := w.saving - {id})
  }

  /** `pop_pkce_verifier` in the callback route; without a verifier the answer is a 400. */
  function PopVerifier(w: World, id: nat): World
    requires id in w.popping
  {
    var h := w.popping[id];
    var verifier := PopResult(w.pkce, w.stateTtl, h.state, h.now);
    w.(pkce := After(w.pkce, w.stateTtl, Pop(h.state, h.now)), popping := w.popping - {id},
       calling := if verifier.None? then w.calling
                  else w.calling[id := CallbackCalling(h.code, h.state, verifier.value)],
       consumed := if verifier.None? then w.consumed else w.consumed + {h.state})
  }

  /** The token call; without a usable identity token the request fails. */
  function CallProvider(w: World, id: nat): World
    requires id in w.calling
  {
    var h := w.calling[id];
    w.(calls := w.calls + [IdpCall(h.code, h.state, h.verifier)], called := w.called + {h.state},
       calling := w.calling - {id})
  }

  /** A one-time code is minted for the access token, if there is one. */
  function MintCode(w: World, id: nat, state: string, access: Option<string>, otc: string, now: real): World {
    w.(minting := if access.None? then w.minting else w.minting[id := CallbackSaving(otc, access.value, now)],
       minted := if access.None? then w.minted else w.minted[otc := Minted(access.value, state)])
  }

  /** `save_exchange_token` in the callback route. */
  function SaveToken(w: World, id: nat): World
    requires id in w.minting
  {
    var h := w.minting[id];
    w.(exchange := After(w.exchange, w.otcTtl, Save(h.otc, h.access, h.now)), minting := w.minting - {id})
  }

  /** `pop_exchange_token` in the exchange route; without a token the answer is a 401. */
  function PopToken(w: World, id: nat): World
    requires id in w.redeeming
  {
    var h := w.redeeming[id];
    var token := PopResult(w.exchange, w.otcTtl, h.code, h.now);
    w.(exchange := After(w.exchange, w.otcTtl, Pop(h.code, h.now)), redeeming := w.redeeming - {id},
       redeemed := if token.None? then w.redeemed else w.redeemed + [Redemption(h.code, token.value)],
       spent := if token.None? then w.spent else w.spent + {h.code})
  }

  function Next(w: World, a: Action): World
    requires Enabled(w, a)
  {
    match a
    case LoginArrives(id, state, verifier, now) =>
      w.(saving := w.saving[id := LoginSaving(state, verifier, now)], logins := w.logins[state := verifier])
    case LoginSaves(id) => SaveVerifier(w, id)
    case CallbackArrives(id, code, state, now) =>
      // 400: missing code or state
      w.(popping := if code == "" || state == "" then w.popping
                    else w.popping[id := CallbackPopping(code, state, now)])
    case CallbackPops(id) => PopVerifier(w, id)
    case IdpAnswers(id, access, otc, now) =>
      MintCode(CallProvider(w, id), id, w.calling[id].state, access, otc, now)
    case CallbackSaves(id) => SaveToken(w, id)
    case ExchangeArrives(id, code, now) =>
      // 422: the body needs a code of at least eight characters
      w.(redeeming := if |code| < 8 then w.redeeming else w.redeeming[id := ExchangePopping(code, now)])
    case ExchangePops(id) => PopToken(w, id)
  }

  datatype Run = Start(stateTtl: real, otcTtl: real) | Then(before: Run, action: Action) {
    ghost predicate Valid()
      decreases this, 0
    {
      Start? || (before.Valid() && Enabled(before.Last(), action))
    }

    ghost function Last(): World
      requires Valid()
      decreases this, 1
    {
      match this
      case Start(stateTtl, otcTtl) => Init(stateTtl, otcTtl)
      case Then(before, action) => Next(before.Last(), action)
    }
  }

  // ----- What every step keeps -----

  ghost predicate OneTaskEach(w: World) {
    w.popping.Keys !! w.calling.Keys && w.calling.Keys !! w.minting.Keys && w.popping.Keys !! w.minting.Keys
  }

  /** A login's state is either still to be saved, or in the store with that login's verifier, or
      used up. */
  ghost predicate StatesOk(pkce: Table, saving: map<nat, LoginSaving>, logins: map<string, string>,
                           consumed: set<string>)
  {
    && consumed <= logins.Keys
    && (forall s | s in pkce :: s in logins && pkce[s].value == logins[s] && s !in consumed)
    && (forall id | id in saving :: saving[id].state in logins && saving[id].verifier == logins[saving[id].state])
    && (forall id | id in saving :: saving[id].state !in pkce && saving[id].state !in consumed)
    && (forall id, jd | id in saving && jd in saving && id != jd :: saving[id].state != saving[jd].state)
  }

  /** A used-up state belongs to one handler about to call the provider, or has made its one call. */
  ghost predicate CallersOk(calling: map<nat, CallbackCalling>, logins: map<string, string>, consumed: set<string>,
                            called: set<string>)
  {
    && called <= consumed
    && (forall id | id in calling :: calling[id].state in logins && calling[id].verifier == logins[calling[id].state])
    && (forall id | id in calling :: calling[id].state in consumed && calling[id].state !in called)
    && (forall id, jd | id in calling && jd in calling && id != jd :: calling[id].state != calling[jd].state)
  }

  ghost predicate CallsOk(calls: seq<IdpCall>, called: set<string>, logins: map<string, string>) {
    && (forall i | 0 <= i < |calls| :: calls[i].state in called && calls[i].state in logins
                                       && calls[i].verifier == logins[calls[i].state])
    && (forall i, j | 0 <= i < j < |calls| :: calls[i].state != calls[j].state)
  }

  /** Each code was minted by the one call of its own state. */
  ghost predicate MintedOk(minted: map<string, Minted>, called: set<string>) {
    && (forall o | o in minted :: minted[o].state in called)
    && (forall o, p | o in minted && p in minted && o != p :: minted[o].state != minted[p].state)
  }

  /** A code is either still to be saved, or in the store with its token, or redeemed. */
  ghost predicate CodesOk(exchange: Table, minting: map<nat, CallbackSaving>, minted: map<string, Minted>,
                          spent: set<string>)
  {
    && spent <= minted.Keys
    && (forall o | o in exchange :: o in minted && exchange[o].value == minted[o].access && o !in spent)
    && (forall id | id in minting :: minting[id].otc in minted && minting[id].access == minted[minting[id].otc].access)
    && (forall id | id in minting :: minting[id].otc !in exchange && minting[id].otc !in spent)
    && (forall id, jd | id in minting && jd in minting && id != jd :: minting[id].otc != minting[jd].otc)
  }

  ghost predicate RedeemedOk(redeemed: seq<Redemption>, spent: set<string>, minted: map<string, Minted>) {
    && |spent| == |redeemed|
    && (forall i | 0 <= i < |redeemed| :: redeemed[i].otc in spent && redeemed[i].otc in minted
                                          && redeemed[i].access == minted[redeemed[i].otc].access)
    && (forall i, j | 0 <= i < j < |redeemed| :: redeemed[i].otc != redeemed[j].otc)
  }

  ghost predicate Invariant(w: World) {
    && OneTaskEach(w)
    && StatesOk(w.pkce, w.saving, w.logins, w.consumed)
    && CallersOk(w.calling, w.logins, w.consumed, w.called)
    && CallsOk(w.calls, w.called, w.logins)
    && MintedOk(w.minted, w.called)
    && CodesOk(w.exchange, w.minting, w.minted, w.spent)
    && RedeemedOk(w.redeemed, w.spent, w.minted)
  }

  /** A pop removes its key, and may only lose others; a save adds its own. */
  lemma TableAfter(table: Table, ttl: real, e: Event)
    ensures forall k | k in After(table, ttl, e) && !(e.Save? && k == e.key) ::
              k in table && After(table, ttl, e)[k] == table[k] && k != e.key
    ensures e.Save? ==> e.key in After(table, ttl, e) && After(table, ttl, e)[e.key].value == e.value
    ensures e.Pop? && PopResult(table, ttl, e.key, e.now).Some? ==>
              e.key in table && PopResult(table, ttl, e.key, e.now).value == table[e.key].value
  {
  }

  lemma LoginArrivesKeeps(w: World, id: nat, state: string, verifier: string, now: real)
    requires Invariant(w) && Idle(w, id) && state !in w.logins
    ensures Invariant(w.(saving := w.saving[id := LoginSaving(state, verifier, now)],
                         logins := w.logins[state := verifier]))
  {
  }

  lemma SaveVerifierKeeps(w: World, id: nat)
    requires Invariant(w) && id in w.saving
    ensures Invariant(SaveVerifier(w, id))
  {
    var h := w.saving[id];
    TableAfter(w.pkce, w.stateTtl, Save(h.state, h.verifier, h.now));
  }

  lemma StatesAfterPop(pkce: Table, saving: map<nat, LoginSaving>, logins: map<string, string>, consumed: set<string>,
                       ttl: real, state: string, now: real)
    requires StatesOk(pkce, saving, logins, consumed)
    ensures StatesOk(After(pkce, ttl, Pop(state, now)), saving, logins, consumed)
    ensures var verifier := PopResult(pkce, ttl, state, now);
            verifier.Some? ==> StatesOk(After(pkce, ttl, Pop(state, now)), saving, logins, consumed + {state})
                               && state in logins && verifier.value == logins[state] && state !in consumed
  {
    TableAfter(pkce, ttl, Pop(state, now));
  }

  lemma CallersGain(calling: map<nat, CallbackCalling>, logins: map<string, string>, consumed: set<string>,
                    called: set<string>, id: nat, h: CallbackCalling)
    requires CallersOk(calling, logins, consumed, called)
    requires h.state in logins && h.verifier == logins[h.state] && h.state !in consumed
    ensures CallersOk(calling[id := h], logins, consumed + {h.state}, called)
  {
  }

  lemma PopVerifierKeeps(w: World, id: nat)
    requires Invariant(w) && id in w.popping
    ensures Invariant(PopVerifier(w, id))
  {
    var h := w.popping[id];
    StatesAfterPop(w.pkce, w.saving, w.logins, w.consumed, w.stateTtl, h.state, h.now);
    var verifier := PopResult(w.pkce, w.stateTtl, h.state, h.now);
    if verifier.Some? {
      CallersGain(w.calling, w.logins, w.consumed, w.called, id, CallbackCalling(h.code, h.state, verifier.value));
    }
  }

  lemma CallersLose(calling: map<nat, CallbackCalling>, logins: map<string, string>, consumed: set<string>,
                    called: set<string>, id: nat)
    requires CallersOk(calling, logins, consumed, called) && id in calling
    ensures CallersOk(calling - {id}, logins, consumed, called + {calling[id].state})
  {
  }

  lemma CallsGain(calls: seq<IdpCall>, called: set<string>, logins: map<string, string>, c: IdpCall)
    requires CallsOk(calls, called, logins)
    requires c.state !in called && c.state in logins && c.verifier == logins[c.state]
    ensures CallsOk(calls + [c], called + {c.state}, logins)
  {
  }

  lemma CallProviderKeeps(w: World, id: nat)
    requires Invariant(w) && id in w.calling
    ensures Invariant(CallProvider(w, id))
    ensures var h := w.calling[id];
            h.state in CallProvider(w, id).called && forall o | o in w.minted :: w.minted[o].state != h.state
  {
    var h := w.calling[id];
    CallersLose(w.calling, w.logins, w.consumed, w.called, id);
    CallsGain(w.calls, w.called, w.logins, IdpCall(h.code, h.state, h.verifier));
  }

  lemma MintCodeKeeps(w: World, id: nat, state: string, access: Option<string>, otc: string, now: real)
    requires Invariant(w) && otc !in w.minted && id !in w.minting && id !in w.popping && id !in w.calling
    requires state in w.called && forall o | o in w.minted :: w.minted[o].state != state
    ensures Invariant(MintCode(w, id, state, access, otc, now))
  {
    if access.Some? {
      MintedGain(w.minted, w.called, otc, Minted(access.value, state));
      CodesGain(w.exchange, w.minting, w.minted, w.spent, id, CallbackSaving(otc, access.value, now), state);
      RedeemedStay(w.redeemed, w.spent, w.minted, otc, Minted(access.value, state));
    }
  }

  lemma MintedGain(minted: map<string, Minted>, called: set<string>, otc: string, code: Minted)
    requires MintedOk(minted, called) && otc !in minted && code.state in called
    requires forall o | o in minted :: minted[o].state != code.state
    ensures MintedOk(minted[otc := code], called)
  {
  }

  lemma CodesGain(exchange: Table, minting: map<nat, CallbackSaving>, minted: map<string, Minted>, spent: set<string>,
                  id: nat, h: CallbackSaving, state: string)
    requires CodesOk(exchange, minting, minted, spent) && h.otc !in minted && id !in minting
    ensures CodesOk(exchange, minting[id := h], minted[h.otc := Minted(h.access, state)], spent)
  {
  }

  lemma RedeemedStay(redeemed: seq<Redemption>, spent: set<string>, minted: map<string, Minted>, otc: string,
                     code: Minted)
    requires RedeemedOk(redeemed, spent, minted) && otc !in minted
    ensures RedeemedOk(redeemed, spent, minted[otc := code])
  {
  }

  lemma SaveTokenKeeps(w: World, id: nat)
    requires Invariant(w) && id in w.minting
    ensures Invariant(SaveToken(w, id))
  {
    var h := w.minting[id];
    TableAfter(w.exchange, w.otcTtl, Save(h.otc, h.access, h.now));
  }

  lemma CodesAfterPop(exchange: Table, minting: map<nat, CallbackSaving>, minted: map<string, Minted>,
                      spent: set<string>,
                      ttl: real, code: string, now: real)
    requires CodesOk(exchange, minting, minted, spent)
    ensures CodesOk(After(exchange, ttl, Pop(code, now)), minting, minted, spent)
    ensures var token := PopResult(exchange, ttl, code, now);
            token.Some? ==> CodesOk(After(exchange, ttl, Pop(code, now)), minting, minted, spent + {code})
                            && code in minted && token.value == minted[code].access && code !in spent
  {
    TableAfter(exchange, ttl, Pop(code, now));
  }

  lemma RedeemedGain(redeemed: seq<Redemption>, spent: set<string>, minted: map<string, Minted>, r: Redemption)
    requires RedeemedOk(redeemed, spent, minted)
    requires r.otc in minted && r.access == minted[r.otc].access && r.otc !in spent
    ensures RedeemedOk(redeemed + [r], spent + {r.otc}, minted)
  {
  }

  lemma PopTokenKeeps(w: World, id: nat)
    requires Invariant(w) && id in w.redeeming
    ensures Invariant(PopToken(w, id))
  {
    var h := w.redeeming[id];
    CodesAfterPop(w.exchange, w.minting, w.minted, w.spent, w.otcTtl, h.code, h.now);
    var token := PopResult(w.exchange, w.otcTtl, h.code, h.now);
    if token.Some? {
      RedeemedGain(w.redeemed, w.spent, w.minted, Redemption(h.code, token.value));
    }
  }

  lemma CallbackArrivesKeeps(w: World, id: nat, h: CallbackPopping)
    requires Invariant(w) && Idle(w, id)
    ensures Invariant(w.(popping := w.popping[id := h]))
  {
    assert OneTaskEach(w.(popping := w.popping[id := h]));
  }

  lemma ExchangeArrivesKeeps(w: World, id: nat, h: ExchangePopping)
    requires Invariant(w)
    ensures Invariant(w.(redeeming := w.redeeming[id := h]))
  {
  }

  lemma IdpAnswersKeeps(w: World, a: Action)
    requires Invariant(w) && Enabled(w, a) && a.IdpAnswers?
    ensures Invariant(Next(w, a))
  {
    var state := w.calling[a.id].state;
    CallProviderKeeps(w, a.id);
    MintCodeKeeps(CallProvider(w, a.id), a.id, state, a.access, a.otc, a.now);
  }

  lemma StepKeeps(w: World, a: Action)
    requires Invariant(w) && Enabled(w, a)
    ensures Invariant(Next(w, a))
  {
    match a
    case LoginArrives(id, state, verifier, now) => LoginArrivesKeeps(w, id, state, verifier, now);
    case LoginSaves(id) => SaveVerifierKeeps(w, id);
    case CallbackArrives(id, code, state, now) => CallbackArrivesKeeps(w, id, CallbackPopping(code, state, now));
    case CallbackPops(id) => PopVerifierKeeps(w, id);
    case IdpAnswers(_, _, _, _) => IdpAnswersKeeps(w, a);
    case CallbackSaves(id) => SaveTokenKeeps(w, id);
    case ExchangeArrives(id, code, now) => ExchangeArrivesKeeps(w, id, ExchangePopping(code, now));
    case ExchangePops(id) => PopTokenKeeps(w, id);
  }

  lemma {:induction false} RunKeeps(run: Run)
    requires run.Valid()
    ensures Invariant(run.Last())
  {
    if run.Start? {
    } else {
      RunKeeps(run.before);
      StepKeeps(run.before.Last(), run.action);
    }
  }

  // ----- The guarantees -----

  /** Over every interleaving, each state reaches the identity provider's token call at most once,
      and only with the verifier of the login that minted it. */
  lemma StateIsCalledOnceWithItsVerifier(run: Run)
    requires run.Valid()
    ensures var w := run.Last();
            && (forall i, j | 0 <= i < j < |w.calls| :: w.calls[i].state != w.calls[j].state)
            && (forall i | 0 <= i < |w.calls| ::
                  w.calls[i].state in w.logins && w.calls[i].verifier == w.logins[w.calls[i].state])
  {
    RunKeeps(run);
  }

  /** Over every interleaving, each one-time code returns its token at most once, and the token is
      the one the callback that minted the code had issued. */
  lemma CodeIsRedeemedOnceForItsToken(run: Run)
    requires run.Valid()
    ensures var w := run.Last();
            && (forall i, j | 0 <= i < j < |w.redeemed| :: w.redeemed[i].otc != w.redeemed[j].otc)
            && (forall i | 0 <= i < |w.redeemed| ::
                  w.redeemed[i].otc in w.minted && w.redeemed[i].access == w.minted[w.redeemed[i].otc].access)
  {
    RunKeeps(run);
  }

  lemma {:induction false} DistinctStates(minted: map<string, Minted>, states: set<string>)
    requires MintedOk(minted, states)
    ensures |minted| <= |states|
    decreases |minted|
  {
    if minted == map[] {
    } else {
      var o :| o in minted;
      var rest := minted - {o};
      assert minted.Keys == rest.Keys + {o};
      DistinctStates(rest, states - {minted[o].state});
    }
  }

  /** Redeemed codes <= minted codes <= states called <= states used up <= logins. */
  lemma NothingFromNothing(run: Run)
    requires run.Valid()
    ensures var w := run.Last();
            |w.redeemed| <= |w.minted| <= |w.called| <= |w.consumed| <= |w.logins|
  {
    RunKeeps(run);
    var w := run.Last();
    SubsetSize(w.spent, w.minted.Keys);
    DistinctStates(w.minted, w.called);
    SubsetSize(w.called, w.consumed);
    SubsetSize(w.consumed, w.logins.Keys);
  }
}
