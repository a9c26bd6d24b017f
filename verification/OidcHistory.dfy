/** The login, callback and exchange routes, read off the actions of a run: which requests are under
    way, what the two dictionaries were told, and so which pops succeed.  The definitions here look only
    at actions; the lemmas compare them with the state that the run reaches. */
module OidcHistory {
  import opened Wrappers
  import opened OidcStore
  import opened OidcFlow

  // ----- Reading a run -----

  ghost function StateTtl(run: Run): real { if run.Start? then run.stateTtl else StateTtl(run.before) }

  ghost function OtcTtl(run: Run): real { if run.Start? then run.otcTtl else OtcTtl(run.before) }

  /** The login with this number, if it has arrived and has not saved its verifier yet. */
  ghost function PendingLogin(run: Run, id: nat): Option<LoginSaving> {
    if run.Start? then None
    else match run.action
      case LoginArrives(i, state, verifier, now) =>
        if i == id then Some(LoginSaving(state, verifier, now)) else PendingLogin(run.before, id)
      case LoginSaves(i) => if i == id then None else PendingLogin(run.before, id)
      case _ => PendingLogin(run.before, id)
  }

  /** The callback with this number, if it was let in and has not popped its verifier yet. */
  ghost function PendingCallback(run: Run, id: nat): Option<CallbackPopping> {
    if run.Start? then None
    else match run.action
      case CallbackArrives(i, code, state, now) =>
        if i == id && code != "" && state != "" then Some(CallbackPopping(code, state, now))
        else PendingCallback(run.before, id)
      case CallbackPops(i) => if i == id then None else PendingCallback(run.before, id)
      case _ => PendingCallback(run.before, id)
  }

  /** The one-time code that the callback with this number has minted and not saved yet. */
  ghost function PendingSave(run: Run, id: nat): Option<CallbackSaving> {
    if run.Start? then None
    else match run.action
      case IdpAnswers(i, access, otc, now) =>
        if i == id && access.Some? then Some(CallbackSaving(otc, access.value, now)) else PendingSave(run.before, id)
      case CallbackSaves(i) => if i == id then None else PendingSave(run.before, id)
      case _ => PendingSave(run.before, id)
  }

  /** The exchange with this number, if it was let in and has not popped its token yet. */
  ghost function PendingExchange(run: Run, id: nat): Option<ExchangePopping> {
    if run.Start? then None
    else match run.action
      case ExchangeArrives(i, code, now) =>
        if i == id && |code| >= 8 then Some(ExchangePopping(code, now)) else PendingExchange(run.before, id)
      case ExchangePops(i) => if i == id then None else PendingExchange(run.before, id)
      case _ => PendingExchange(run.before, id)
  }

  /** What the dictionary of verifiers was told: each login saves its own, each callback pops one. */
  ghost function PkceEvents(run: Run): seq<Event> {
    if run.Start? then []
    else PkceEvents(run.before) + match run.action
      case LoginSaves(id) =>
        var h := PendingLogin(run.before, id);
        if h.Some? then [Save(h.value.state, h.value.verifier, h.value.now)] else []
      case CallbackPops(id) =>
        var h := PendingCallback(run.before, id);
        if h.Some? then [Pop(h.value.state, h.value.now)] else []
      case _ => []
  }

  /** What the dictionary of tokens was told: each callback saves its own, each exchange pops one. */
  ghost function ExchangeEvents(run: Run): seq<Event> {
    if run.Start? then []
    else ExchangeEvents(run.before) + match run.action
      case CallbackSaves(id) =>
        var h := PendingSave(run.before, id);
        if h.Some? then [Save(h.value.otc, h.value.access, h.value.now)] else []
      case ExchangePops(id) =>
        var h := PendingExchange(run.before, id);
        if h.Some? then [Pop(h.value.code, h.value.now)] else []
      case _ => []
  }

  // ----- The requests under way -----

  ghost predicate Agree<T>(handlers: map<nat, T>, id: nat, pending: Option<T>) {
    (id in handlers <==> pending.Some?) && (id in handlers ==> pending == Some(handlers[id]))
  }

  lemma SavingStep(w: World, a: Action)
    requires Enabled(w, a)
    ensures a.LoginArrives? ==> Next(w, a).saving == w.saving[a.id := LoginSaving(a.state, a.verifier, a.now)]
    ensures a.LoginSaves? ==> Next(w, a).saving == w.saving - {a.id}
    ensures !a.LoginArrives? && !a.LoginSaves? ==> Next(w, a).saving == w.saving
  {
  }

  /** A callback is turned away on arrival exactly when its code or its state is empty. */
  lemma PoppingStep(w: World, a: Action)
    requires Enabled(w, a)
    ensures a.CallbackArrives? ==>
              Next(w, a).popping == if a.code == "" || a.state == "" then w.popping
                                    else w.popping[a.id := CallbackPopping(a.code, a.state, a.now)]
    ensures a.CallbackPops? ==> Next(w, a).popping == w.popping - {a.id}
    ensures !a.CallbackArrives? && !a.CallbackPops? ==> Next(w, a).popping == w.popping
  {
  }

  lemma MintingStep(w: World, a: Action)
    requires Enabled(w, a)
    ensures a.IdpAnswers? ==>
              Next(w, a).minting == if a.access.None? then w.minting
                                    else w.minting[a.id := CallbackSaving(a.otc, a.access.value, a.now)]
    ensures a.CallbackSaves? ==> Next(w, a).minting == w.minting - {a.id}
    ensures !a.IdpAnswers? && !a.CallbackSaves? ==> Next(w, a).minting == w.minting
  {
  }

  /** And an exchange exactly when its code has fewer than eight characters. */
  lemma RedeemingStep(w: World, a: Action)
    requires Enabled(w, a)
    ensures a.ExchangeArrives? ==>
              Next(w, a).redeeming == if |a.code| < 8 then w.redeeming
                                      else w.redeeming[a.id := ExchangePopping(a.code, a.now)]
    ensures a.ExchangePops? ==> Next(w, a).redeeming == w.redeeming - {a.id}
    ensures !a.ExchangeArrives? && !a.ExchangePops? ==> Next(w, a).redeeming == w.redeeming
  {
  }

  lemma {:induction false} LoginsFollow(run: Run, id: nat)
    requires run.Valid()
    ensures Agree(run.Last().saving, id, PendingLogin(run, id))
  {
    if run.Start? {
    } else {
      LoginsFollow(run.before, id);
      SavingStep(run.before.Last(), run.action);
    }
  }

  lemma {:induction false} CallbacksFollow(run: Run, id: nat)
    requires run.Valid()
    ensures Agree(run.Last().popping, id, PendingCallback(run, id))
  {
    if run.Start? {
    } else {
      CallbacksFollow(run.before, id);
      PoppingStep(run.before.Last(), run.action);
    }
  }

  lemma {:induction false} SavesFollow(run: Run, id: nat)
    requires run.Valid()
    ensures Agree(run.Last().minting, id, PendingSave(run, id))
  {
    if run.Start? {
    } else {
      SavesFollow(run.before, id);
      MintingStep(run.before.Last(), run.action);
    }
  }

  lemma {:induction false} ExchangesFollow(run: Run, id: nat)
    requires run.Valid()
    ensures Agree(run.Last().redeeming, id, PendingExchange(run, id))
  {
    if run.Start? {
    } else {
      ExchangesFollow(run.before, id);
      RedeemingStep(run.before.Last(), run.action);
    }
  }

  // ----- The dictionaries -----

  lemma ReplayMore(history: seq<Event>, ttl: real, e: Event)
    ensures Replay(history + [e], ttl) == After(Replay(history, ttl), ttl, e)
  {
    assert (history + [e])[..|history|] == history;
  }

  lemma PkceStep(w: World, a: Action)
    requires Enabled(w, a)
    ensures Next(w, a).stateTtl == w.stateTtl
    ensures a.LoginSaves? ==>
              var h := w.saving[a.id]; Next(w, a).pkce == After(w.pkce, w.stateTtl, Save(h.state, h.verifier, h.now))
    ensures a.CallbackPops? ==>
              var h := w.popping[a.id]; Next(w, a).pkce == After(w.pkce, w.stateTtl, Pop(h.state, h.now))
    ensures !a.LoginSaves? && !a.CallbackPops? ==> Next(w, a).pkce == w.pkce
  {
  }

  lemma ExchangeStep(w: World, a: Action)
    requires Enabled(w, a)
    ensures Next(w, a).otcTtl == w.otcTtl
    ensures a.CallbackSaves? ==>
              var h := w.minting[a.id]; Next(w, a).exchange == After(w.exchange, w.otcTtl, Save(h.otc, h.access, h.now))
    ensures a.ExchangePops? ==>
              var h := w.redeeming[a.id]; Next(w, a).exchange == After(w.exchange, w.otcTtl, Pop(h.code, h.now))
    ensures !a.CallbackSaves? && !a.ExchangePops? ==> Next(w, a).exchange == w.exchange
  {
  }

  /** The dictionary of verifiers is what its events make it, over every interleaving. */
  lemma {:induction false} PkceFollows(run: Run)
    requires run.Valid()
    ensures run.Last().stateTtl == StateTtl(run) && run.Last().pkce == Replay(PkceEvents(run), StateTtl(run))
  {
    if run.Start? {
    } else {
      PkceFollows(run.before);
      PkceStep(run.before.Last(), run.action);
      var before, ttl := PkceEvents(run.before), StateTtl(run);
      match run.action
      case LoginSaves(id) =>
        LoginsFollow(run.before, id);
        var h := PendingLogin(run.before, id).value;
        ReplayMore(before, ttl, Save(h.state, h.verifier, h.now));
      case CallbackPops(id) =>
        CallbacksFollow(run.before, id);
        var h := PendingCallback(run.before, id).value;
        ReplayMore(before, ttl, Pop(h.state, h.now));
      case _ => assert before + [] == before;
    }
  }

  /** So is the dictionary of tokens. */
  lemma {:induction false} ExchangeFollows(run: Run)
    requires run.Valid()
    ensures run.Last().otcTtl == OtcTtl(run) && run.Last().exchange == Replay(ExchangeEvents(run), OtcTtl(run))
  {
    if run.Start? {
    } else {
      ExchangeFollows(run.before);
      ExchangeStep(run.before.Last(), run.action);
      var before, ttl := ExchangeEvents(run.before), OtcTtl(run);
      match run.action
      case CallbackSaves(id) =>
        SavesFollow(run.before, id);
        var h := PendingSave(run.before, id).value;
        ReplayMore(before, ttl, Save(h.otc, h.access, h.now));
      case ExchangePops(id) =>
        ExchangesFollow(run.before, id);
        var h := PendingExchange(run.before, id).value;
        ReplayMore(before, ttl, Pop(h.code, h.now));
      case _ => assert before + [] == before;
    }
  }

  // ----- Which pops succeed -----

  lemma CallingStep(w: World, a: Action)
    requires Enabled(w, a)
    ensures a.CallbackPops? ==>
              var h := w.popping[a.id];
              var verifier := PopResult(w.pkce, w.stateTtl, h.state, h.now);
              Next(w, a).calling == if verifier.None? then w.calling
                                    else w.calling[a.id := CallbackCalling(h.code, h.state, verifier.value)]
    ensures a.IdpAnswers? ==> Next(w, a).calling == w.calling - {a.id}
    ensures !a.CallbackPops? && !a.IdpAnswers? ==> Next(w, a).calling == w.calling
  {
  }

  /** A callback that pops goes on to call the provider with `verifier` exactly when a login saved that
      verifier under its state, no callback has popped the state since, and every clock reading since
      was within the time to live. */
  lemma CallbackGoesOnIff(run: Run, id: nat, verifier: string)
    requires run.Valid() && PendingCallback(run, id).Some?
    ensures Enabled(run.Last(), CallbackPops(id))
    ensures var h, after := PendingCallback(run, id).value, Then(run, CallbackPops(id)).Last();
            && (id in after.calling && after.calling[id] == CallbackCalling(h.code, h.state, verifier)
                <==> Available(PkceEvents(run), StateTtl(run), h.state, h.now, verifier))
            && (id in after.calling ==>
                  after.calling[id] == CallbackCalling(h.code, h.state, after.calling[id].verifier))
  {
    CallbacksFollow(run, id);
    RunKeeps(run);
    PkceFollows(run);
    var h := PendingCallback(run, id).value;
    PopReturnsLiveSave(PkceEvents(run), StateTtl(run), h.state, h.now, verifier);
    CallingStep(run.Last(), CallbackPops(id));
    assert id !in run.Last().calling;
  }

  lemma RedeemedStep(w: World, a: Action)
    requires Enabled(w, a)
    ensures a.ExchangePops? ==>
              var h := w.redeeming[a.id];
              var token := PopResult(w.exchange, w.otcTtl, h.code, h.now);
              Next(w, a).redeemed == if token.None? then w.redeemed
                                     else w.redeemed + [Redemption(h.code, token.value)]
    ensures !a.ExchangePops? ==> Next(w, a).redeemed == w.redeemed
  {
  }

  /** An exchange hands out `access` exactly when a callback saved it under its code, no exchange has
      popped the code since, and every clock reading since was within the time to live. */
  lemma ExchangeHandsOutIff(run: Run, id: nat, access: string)
    requires run.Valid() && PendingExchange(run, id).Some?
    ensures Enabled(run.Last(), ExchangePops(id))
    ensures var h, after := PendingExchange(run, id).value, Then(run, ExchangePops(id)).Last();
            && (after.redeemed == run.Last().redeemed + [Redemption(h.code, access)]
                <==> Available(ExchangeEvents(run), OtcTtl(run), h.code, h.now, access))
            && (after.redeemed == run.Last().redeemed
                <==> forall a :: !Available(ExchangeEvents(run), OtcTtl(run), h.code, h.now, a))
  {
    ExchangesFollow(run, id);
    ExchangeFollows(run);
    var h := PendingExchange(run, id).value;
    forall a { PopReturnsLiveSave(ExchangeEvents(run), OtcTtl(run), h.code, h.now, a); }
    RedeemedStep(run.Last(), ExchangePops(id));
    OneMoreRedeemed(run.Last().redeemed, h.code, PopResult(run.Last().exchange, OtcTtl(run), h.code, h.now), access);
  }

  lemma OneMoreRedeemed(redeemed: seq<Redemption>, code: string, token: Option<string>, access: string)
    ensures var after := if token.None? then redeemed else redeemed + [Redemption(code, token.value)];
            && (after == redeemed + [Redemption(code, access)] <==> token == Some(access))
            && (after == redeemed <==> token.None?)
  {
    assert |redeemed + [Redemption(code, access)]| == |redeemed| + 1;
    assert (redeemed + [Redemption(code, access)])[|redeemed|] == Redemption(code, access);
    if token.Some? { assert (redeemed + [Redemption(code, token.value)])[|redeemed|].access == token.value; }
  }

  /** The provider is called with the callback's code and the verifier it popped; an answer with an access
      token always mints a code for it, and any other answer mints nothing. */
  lemma AnswerMintsIff(run: Run, a: Action)
    requires run.Valid() && a.IdpAnswers? && Enabled(run.Last(), a)
    ensures var w, after := run.Last(), Then(run, a).Last();
            var h := w.calling[a.id];
            && after.calls == w.calls + [IdpCall(h.code, h.state, h.verifier)]
            && (a.otc in after.minted <==> a.access.Some?)
            && PendingSave(Then(run, a), a.id)
               == (if a.access.Some? then Some(CallbackSaving(a.otc, a.access.value, a.now)) else None)
            && after.minted == if a.access.Some? then w.minted[a.otc := Minted(a.access.value, h.state)] else w.minted
  {
    RunKeeps(run);
    SavesFollow(run, a.id);
  }

  /** Nothing else calls the provider or mints a code. */
  lemma OnlyAnswersMint(w: World, a: Action)
    requires Enabled(w, a) && !a.IdpAnswers?
    ensures Next(w, a).calls == w.calls && Next(w, a).minted == w.minted
  {
  }

  // ----- A login from end to end -----

  lemma NewestSaveIsAvailable(history: seq<Event>, ttl: real, key: string, value: string, saved: real, now: real)
    requires now - saved <= ttl
    ensures Available(history + [Save(key, value, saved)], ttl, key, now, value)
  {
    assert LiveSave(history + [Save(key, value, saved)], ttl, key, |history|);
  }

  lemma OneMore(run: Run, a: Action) returns (longer: Run)
    requires run.Valid() && Enabled(run.Last(), a)
    ensures longer == Then(run, a) && longer.Valid() && longer.Last() == Next(run.Last(), a)
  {
    longer := Then(run, a);
  }

  lemma LoginSaved(run: Run, id: nat, state: string, verifier: string, saved: real) returns (longer: Run)
    requires run.Valid() && Idle(run.Last(), id) && state !in run.Last().logins
    ensures longer.Valid() && Idle(longer.Last(), id) && longer.Last().minted == run.Last().minted
    ensures StateTtl(longer) == StateTtl(run) && OtcTtl(longer) == OtcTtl(run)
    ensures PkceEvents(longer) == PkceEvents(run) + [Save(state, verifier, saved)]
  {
    longer := OneMore(run, LoginArrives(id, state, verifier, saved));
    assert PkceEvents(longer) == PkceEvents(run);
    longer := OneMore(longer, LoginSaves(id));
  }

  /** After any run, a login whose callback comes back in time reaches the provider with its verifier. */
  lemma LoginReachesProvider(run: Run, id: nat, state: string, verifier: string, saved: real, code: string, now: real)
    returns (longer: Run)
    requires run.Valid() && Idle(run.Last(), id) && state !in run.Last().logins
    requires state != "" && code != "" && now - saved <= StateTtl(run)
    ensures longer.Valid() && id in longer.Last().calling && longer.Last().minted == run.Last().minted
    ensures longer.Last().calling[id] == CallbackCalling(code, state, verifier) && OtcTtl(longer) == OtcTtl(run)
  {
    var before := LoginSaved(run, id, state, verifier, saved);
    NewestSaveIsAvailable(PkceEvents(run), StateTtl(run), state, verifier, saved, now);
    var arrived := OneMore(before, CallbackArrives(id, code, state, now));
    assert PkceEvents(arrived) == PkceEvents(before);
    CallbackGoesOnIff(arrived, id, verifier);
    longer := OneMore(arrived, CallbackPops(id));
  }

  /** A request is at one place at most. */
  ghost predicate OneTask(w: World, id: nat) {
    && (id in w.saving ==> id !in w.popping && id !in w.calling && id !in w.minting && id !in w.redeeming)
    && (id in w.popping ==> id !in w.calling && id !in w.minting && id !in w.redeeming)
    && (id in w.calling ==> id !in w.minting && id !in w.redeeming)
    && (id in w.minting ==> id !in w.redeeming)
  }

  lemma OneTaskStep(w: World, a: Action, id: nat)
    requires Enabled(w, a) && OneTask(w, id)
    ensures OneTask(Next(w, a), id)
  {
  }

  lemma {:induction false} OneTaskAtATime(run: Run, id: nat)
    requires run.Valid()
    ensures OneTask(run.Last(), id)
  {
    if run.Start? {
    } else {
      OneTaskAtATime(run.before, id);
      OneTaskStep(run.before.Last(), run.action, id);
    }
  }

  lemma TokenSaved(run: Run, id: nat, access: string, otc: string, saved: real) returns (longer: Run)
    requires run.Valid() && id in run.Last().calling && otc !in run.Last().minted
    ensures longer.Valid() && Idle(longer.Last(), id) && OtcTtl(longer) == OtcTtl(run)
    ensures ExchangeEvents(longer) == ExchangeEvents(run) + [Save(otc, access, saved)]
  {
    OneTaskAtATime(run, id);
    longer := OneMore(run, IdpAnswers(id, Some(access), otc, saved));
    assert ExchangeEvents(longer) == ExchangeEvents(run);
    longer := OneMore(longer, CallbackSaves(id));
  }

  /** And a token that the provider's answer led to is handed out to an exchange that comes in time. */
  lemma TokenReachesBrowser(run: Run, id: nat, access: string, otc: string, saved: real, now: real)
    returns (longer: Run)
    requires run.Valid() && id in run.Last().calling && otc !in run.Last().minted
    requires |otc| >= 8 && now - saved <= OtcTtl(run)
    ensures longer.Valid() && exists before :: longer.Last().redeemed == before + [Redemption(otc, access)]
  {
    var before := TokenSaved(run, id, access, otc, saved);
    NewestSaveIsAvailable(ExchangeEvents(run), OtcTtl(run), otc, access, saved, now);
    var arrived := OneMore(before, ExchangeArrives(id, otc, now));
    assert ExchangeEvents(arrived) == ExchangeEvents(before);
    ExchangeHandsOutIff(arrived, id, access);
    longer := OneMore(arrived, ExchangePops(id));
  }
}
