/** The request race of the `usePageData` hook: overlapping loads, refreshes, aborts and key changes. */
module PageData {
  import opened Wrappers

  /** What the hook holds. `outstanding` are the requests whose promise has not settled, each with the key it
    was made for; `origin` is the request the displayed data came from. */
  datatype Hook<T> = Hook(
    key: string,
    requestId: nat,
    data: Option<T>,
    loading: bool,
    refreshing: bool,
    error: Option<string>,
    refreshError: Option<string>,
    outstanding: map<nat, string>,
    origin: Option<(nat, string)>)

  datatype Event<T> =
    | Load                                // timer, refresh bus or manual reload: load(true)
    | KeyChange(newKey: string)           // the effect runs again
    | Settle(id: nat, outcome: Outcome<T>)

  datatype Outcome<T> = Success(value: T) | Failure(message: string) | Aborted

  function StartRequest<T>(h: Hook<T>): Hook<T> {
    h.(requestId := h.requestId + 1, outstanding := h.outstanding[h.requestId + 1 := h.key])
  }

  function LoadInBackground<T>(h: Hook<T>): Hook<T> {
    StartRequest(h).(refreshing := true)
  }

  function ResetTo<T>(h: Hook<T>, key: string): Hook<T> {
    StartRequest(h.(key := key, data := None, origin := None, loading := true, refreshing := false, error := None,
                    refreshError := None))
  }

  /** A promise settles: the outcome counts only for the latest request, and so does the `finally`. */
  function SettleRequest<T>(h: Hook<T>, id: nat, outcome: Outcome<T>): Hook<T>
    requires id in h.outstanding
  {
    var left := h.(outstanding := h.outstanding - {id});
    if id != h.requestId then left
    else
      var shown := match outcome
        case Success(v) => left.(data := Some(v), origin := Some((id, h.outstanding[id])), error := None,
                                 refreshError := None)
        case Failure(m) => if h.data.None? then left.(error := Some(m)) else left.(refreshError := Some(m))
        case Aborted => left;
      shown.(loading := false, refreshing := false)
  }

  /** The hook right after its first effect. */
  function Mounted<T>(key: string): Hook<T> {
    StartRequest(Hook(key, 0, None, true, false, None, None, map[], None))
  }

  function Step<T>(h: Hook<T>, e: Event<T>): Hook<T> {
    match e
    case Load => LoadInBackground(h)
    case KeyChange(key) => ResetTo(h, key)
    case Settle(id, outcome) => if id in h.outstanding then SettleRequest(h, id, outcome) else h
  }

  class UsePageData<T> {
    var key: string
    var requestIdRef: nat
    var dataRef: Option<T>
    var loading: bool
    var refreshing: bool
    var error: Option<string>
    var refreshError: Option<string>
    ghost var outstanding: map<nat, string>
    ghost var origin: Option<(nat, string)>

    ghost function State(): Hook<T>
      reads this
    {
      Hook(key, requestIdRef, dataRef, loading, refreshing, error, refreshError, outstanding, origin)
    }

    constructor (key: string)
      ensures State() == Mounted(key)
    {
      this.key, requestIdRef, dataRef, loading, refreshing := key, 1, None, true, false;
      error, refreshError, outstanding, origin := None, None, map[1 := key], None;
    }

    /** The part of `load` before its await. */
    method BeginLoad(isBackground: bool) returns (requestId: nat)
      modifies this
      ensures State() == StartRequest(old(State())).(refreshing := isBackground || old(refreshing))
      ensures requestId == requestIdRef == old(requestIdRef) + 1
    {
      requestIdRef := requestIdRef + 1;
      requestId := requestIdRef;
      outstanding := outstanding[requestId := key];
      if isBackground {
        refreshing := true;
      }
    }

    /** The part of `load` after its await, `finally` included. */
    method EndLoad(requestId: nat, outcome: Outcome<T>)
      requires requestId in outstanding
      modifies this
      ensures State() == SettleRequest(old(State()), requestId, outcome)
    {
      match outcome {
        case Success(value) =>
          if requestId == requestIdRef {
            dataRef := Some(value);
            origin := Some((requestId, outstanding[requestId]));
            error := None;
            refreshError := None;
          }
        case Failure(message) =>
          if requestId == requestIdRef {
            if dataRef.None? {
              error := Some(message);
            } else {
              refreshError := Some(message);
            }
          }
        case Aborted =>
      }
      outstanding := outstanding - {requestId};
      if requestId == requestIdRef {
        loading := false;
        refreshing := false;
      }
    }

    /** The effect that runs when the request key changes. */
    method Reset(newKey: string)
      modifies this
      ensures State() == ResetTo(old(State()), newKey)
    {
      key := newKey;
      dataRef, origin := None, None;
      loading, refreshing := true, false;
      error, refreshError := None, None;
      var _ := BeginLoad(false);
    }
  }

  // ---------- over any order of events ----------

  function After<T>(h: Hook<T>, events: seq<Event<T>>): Hook<T> {
    if events == [] then h else Step(After(h, events[..|events| - 1]), events[|events| - 1])
  }

  ghost predicate Inv<T>(h: Hook<T>) {
    && (forall id | id in h.outstanding :: id <= h.requestId)
    && (h.requestId in h.outstanding ==> h.outstanding[h.requestId] == h.key)
    && (h.origin.Some? <==> h.data.Some?)
    && (h.origin.Some? ==>
        h.origin.value.0 <= h.requestId && h.origin.value.0 !in h.outstanding && h.origin.value.1 == h.key)
    && (h.error.Some? ==> h.data.None?)
    && (h.refreshError.Some? ==> h.data.Some?)
    && (h.loading || h.refreshing <==> h.requestId in h.outstanding)
  }

  lemma StartKeeps<T>(h: Hook<T>, key: string)
    requires Inv(h)
    ensures Inv(LoadInBackground(h)) && Inv(ResetTo(h, key))
  {
  }

  lemma SettleKeeps<T>(h: Hook<T>, id: nat, outcome: Outcome<T>)
    requires Inv(h) && id in h.outstanding
    ensures Inv(SettleRequest(h, id, outcome))
  {
    if id == h.requestId {
      match outcome
      case Success(_) =>
      case Failure(_) =>
      case Aborted =>
    }
  }

  lemma StepKeeps<T>(h: Hook<T>, e: Event<T>)
    requires Inv(h)
    ensures Inv(Step(h, e))
    ensures h.requestId <= Step(h, e).requestId
  {
    hide Inv;
    match e
    case Load => StartKeeps(h, h.key);
    case KeyChange(key) => StartKeeps(h, key);
    case Settle(id, outcome) =>
      if id in h.outstanding {
        SettleKeeps(h, id, outcome);
      }
  }

  /** Whatever the order of starts, settlements, aborts and key changes: data belong to the current key,
    `error` excludes data, `refreshError` needs them, and the hook is busy exactly while its latest request
    is outstanding. */
  lemma {:induction false} AlwaysConsistent<T>(key: string, events: seq<Event<T>>)
    ensures Inv(After(Mounted(key), events))
  {
    if events != [] {
      AlwaysConsistent(key, events[..|events| - 1]);
      StepKeeps(After(Mounted(key), events[..|events| - 1]), events[|events| - 1]);
    }
  }

  /** From one moment to a later one: displayed data have either stayed or come from a strictly later request. */
  ghost predicate Later<T>(before: Hook<T>, now: Hook<T>) {
    && before.requestId <= now.requestId
    && (before.origin.Some? ==>
        match now.origin
        case None => before.origin.value.0 < now.requestId
        case Some(o) => (now.origin == before.origin && now.data == before.data) || before.origin.value.0 < o.0)
  }

  lemma StepLater<T>(before: Hook<T>, now: Hook<T>, e: Event<T>)
    requires Inv(now) && Later(before, now)
    ensures Later(before, Step(now, e))
  {
    StepKeeps(now, e);
    match e
    case Settle(id, outcome) => assert now.origin.Some? ==> now.origin.value.0 !in now.outstanding;
    case _ =>
  }

  /** Displayed data are replaced only by those of a strictly later request. */
  lemma {:induction false} LaterDataFromLaterRequest<T>(key: string, events: seq<Event<T>>, k: nat)
    requires k <= |events|
    ensures Later(After(Mounted(key), events[..k]), After(Mounted(key), events))
    decreases |events|
  {
    AlwaysConsistent(key, events[..k]);
    if k == |events| {
      assert events[..k] == events;
    } else {
      var n := |events| - 1;
      LaterDataFromLaterRequest(key, events[..n], k);
      assert events[..n][..k] == events[..k];
      AlwaysConsistent(key, events[..n]);
      hide Inv;
      StepLater(After(Mounted(key), events[..k]), After(Mounted(key), events[..n]), events[n]);
    }
  }

  // ---------- where what is shown comes from ----------

  /** Some event settled the request with this outcome while it was the latest. */
  ghost predicate Settled<T(!new)>(key: string, events: seq<Event<T>>, id: nat, outcome: Outcome<T>) {
    exists j | 0 <= j < |events| ::
      && events[j] == Settle(id, outcome)
      && After(Mounted(key), events[..j]).requestId == id && id in After(Mounted(key), events[..j]).outstanding
  }

  /** The data shown were fetched by the request they are said to come from, and an error shown is the failure of
    some request, each settled while it was the latest. */
  ghost predicate Sourced<T(!new)>(key: string, events: seq<Event<T>>, h: Hook<T>) {
    && (h.data.Some? ==> h.origin.Some? && Settled(key, events, h.origin.value.0, Success(h.data.value)))
    && (h.error.Some? ==> exists id :: Settled(key, events, id, Failure(h.error.value)))
    && (h.refreshError.Some? ==> exists id :: Settled(key, events, id, Failure(h.refreshError.value)))
  }

  lemma SettledBefore<T(!new)>(key: string, events: seq<Event<T>>, id: nat, outcome: Outcome<T>)
    requires events != [] && Settled(key, events[..|events| - 1], id, outcome)
    ensures Settled(key, events, id, outcome)
  {
    var front := events[..|events| - 1];
    var j :| && 0 <= j < |front| && front[j] == Settle(id, outcome)
             && After(Mounted(key), front[..j]).requestId == id && id in After(Mounted(key), front[..j]).outstanding;
    assert front[..j] == events[..j] && events[j] == front[j];
  }

  lemma {:induction false} ShownIsSourced<T(!new)>(key: string, events: seq<Event<T>>)
    ensures Sourced(key, events, After(Mounted(key), events))
  {
    if events != [] {
      var n := |events| - 1;
      var h, e := After(Mounted(key), events[..n]), events[n];
      ShownIsSourced(key, events[..n]);
      StillSourced(key, events, h);
      if e.Settle? && e.id in h.outstanding && e.id == h.requestId {
        assert Settled(key, events, e.id, e.outcome);
      }
      StepSourced(key, events, h, e);
    }
  }

  lemma StillSourced<T(!new)>(key: string, events: seq<Event<T>>, h: Hook<T>)
    requires events != [] && Sourced(key, events[..|events| - 1], h)
    ensures Sourced(key, events, h)
  {
    var front := events[..|events| - 1];
    forall id, outcome | Settled(key, front, id, outcome) ensures Settled(key, events, id, outcome) {
      SettledBefore(key, events, id, outcome);
    }
    hide Settled;
  }

  lemma StepSourced<T(!new)>(key: string, events: seq<Event<T>>, h: Hook<T>, e: Event<T>)
    requires Sourced(key, events, h)
    requires e.Settle? && e.id in h.outstanding && e.id == h.requestId ==> Settled(key, events, e.id, e.outcome)
    ensures Sourced(key, events, Step(h, e))
  {
    hide Settled;
    match e
    case Load =>
    case KeyChange(_) =>
    case Settle(_, outcome) =>
      match outcome
      case Success(_) =>
      case Failure(_) =>
      case Aborted =>
  }

  /** What an event does to what is shown: a key change clears it; the latest request's success shows its value and
    no error, its failure the message beside the data or in their place, its abort nothing new; a background load
    and every other settlement leave it. */
  lemma ShownExactly<T>(h: Hook<T>, e: Event<T>)
    ensures var h' := Step(h, e);
            if e.KeyChange? then
              && h'.key == e.newKey && h'.data == None && h'.error == None && h'.refreshError == None
              && h'.loading && !h'.refreshing
            else if e.Settle? && e.id in h.outstanding && e.id == h.requestId then
              && h'.key == h.key && !h'.loading && !h'.refreshing
              && (match e.outcome
                  case Success(v) => h'.data == Some(v) && h'.error == None && h'.refreshError == None
                  case Failure(m) =>
                    && h'.data == h.data
                    && (h.data == None ==> h'.error == Some(m) && h'.refreshError == h.refreshError)
                    && (h.data != None ==> h'.error == h.error && h'.refreshError == Some(m))
                  case Aborted => h'.data == h.data && h'.error == h.error && h'.refreshError == h.refreshError)
            else
              && h'.key == h.key && h'.data == h.data && h'.error == h.error && h'.refreshError == h.refreshError
              && h'.loading == h.loading && (h'.refreshing <==> h.refreshing || e.Load?)
  {
  }
}
