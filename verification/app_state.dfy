/** The application state behind the interface: the in-flight request of
    each recipe and the transitions that start, finish and fail it, the
    recipe selection that decides which request is shown and whether a new
    one may be sent, reloading the collection, and the decaying
    notification. The current time is a parameter. */
module AppStates {
  import opened Wrappers
  import Http
  import opened RequestStates
  import opened Selection
  import TemplateSources

  /** A named set of template fields. */
  datatype Profile = Profile(id: string, data: map<string, string>)

  /** A request recipe; only its identity matters here. */
  datatype Recipe = Recipe(id: Http.RecipeId, name: string)

  /** What a collection file declares. */
  datatype Collection = Collection(
    profiles: seq<Profile>,
    recipes: seq<Recipe>,
    chains: seq<TemplateSources.Chain>)

  /** A message shown for a while, stamped with when it was raised. */
  datatype Notification = Notification(message: string, timestamp: int)

  /** How long a notification stays, in milliseconds. */
  const NotificationDecay: int := 5000

  /** A notification has expired once its full decay time has passed. */
  predicate Expired(n: Notification, now: int) {
    now - n.timestamp >= NotificationDecay
  }

  /** Everything the interface shows; rebuilt from scratch on reload. */
  datatype UiState = UiState(
    error: Option<string>,
    notification: Option<Notification>,
    activeRequests: map<Http.RecipeId, RequestState>,
    selectedPane: StatefulSelect<PrimaryPane>,
    requestTab: StatefulSelect<RequestTab>,
    responseTab: StatefulSelect<ResponseTab>,
    profiles: StatefulList<Profile>,
    recipes: StatefulList<Recipe>,
    chains: seq<TemplateSources.Chain>)

  datatype AppState = AppState(shouldRun: bool, collectionFile: string, ui: UiState)

  /** The interface state for a freshly loaded collection: nothing in
      flight, no error or notification, default panes and tabs, and the
      first profile and recipe selected. */
  function NewUi(c: Collection): (ui: UiState)
    ensures ui.activeRequests == map[] && ui.error.None? && ui.notification.None?
    ensures ui.recipes.items == c.recipes && ui.profiles.items == c.profiles
    ensures ui.recipes.selected == (if |c.recipes| > 0 then Some(0) else None)
    ensures ui.profiles.selected == (if |c.profiles| > 0 then Some(0) else None)
    ensures ValidList(ui.recipes) && ValidList(ui.profiles)
    ensures ui.selectedPane.values == [ProfileList, RecipeList, RequestPane, ResponsePane]
    ensures ui.requestTab.values == [RequestBody, RequestQuery, RequestHeaders]
    ensures ui.responseTab.values == [ResponseBody, ResponseHeaders]
    ensures ValidSelect(ui.selectedPane) && ValidSelect(ui.requestTab) && ValidSelect(ui.responseTab)
    ensures SelectedValue(ui.selectedPane) == RecipeList
    ensures SelectedValue(ui.requestTab) == RequestBody && SelectedValue(ui.responseTab) == ResponseBody
    ensures ui.chains == c.chains
  {
    UiState(None, None, map[], PaneSelect(), RequestTabSelect(), ResponseTabSelect(),
            WithItems(c.profiles), WithItems(c.recipes), c.chains)
  }

  function ReloadCollection(s: AppState, c: Collection): (r: AppState)
    ensures r.shouldRun == s.shouldRun && r.collectionFile == s.collectionFile
    ensures r.ui == NewUi(c)
    ensures r.ui.activeRequests == map[] && r.ui.error.None? && r.ui.notification.None?
    ensures r.ui.recipes == WithItems(c.recipes) && r.ui.profiles == WithItems(c.profiles)
    ensures r.ui.chains == c.chains
  {
    s.(ui := NewUi(c))
  }

  // ---------------------------------------------------------------------
  // Request transitions on the map of in-flight states

  /** Mark a recipe's request as loading since `now`, unless one is already
      loading, in which case nothing changes. */
  function Start(m: map<Http.RecipeId, RequestState>, id: Http.RecipeId, now: int): (r: map<Http.RecipeId, RequestState>)
    ensures id in r && r[id].IsLoading()
    ensures id in m && m[id].IsLoading() ==> r == m
    ensures !(id in m && m[id].IsLoading()) ==> r[id] == Loading(now)
    ensures r.Keys == m.Keys + {id}
    ensures forall k | k in m && k != id :: r[k] == m[k]
  {
    if id in m && m[id].IsLoading() then m else m[id := Loading(now)]
  }

  /** Store the record of a completed request, if its recipe was loading;
      otherwise nothing changes. */
  function Finish(m: map<Http.RecipeId, RequestState>, record: Http.Record): (r: map<Http.RecipeId, RequestState>)
    ensures r.Keys == m.Keys
    ensures forall k | k in m && k != record.recipeId :: r[k] == m[k]
    ensures record.recipeId in m && m[record.recipeId].IsLoading() ==> r[record.recipeId] == Response(record)
    ensures !(record.recipeId in m && m[record.recipeId].IsLoading()) ==> r == m
  {
    var id := record.recipeId;
    if id in m && m[id].IsLoading() then m[id := Response(record)] else m
  }

  /** Store the failure of a request, if its recipe was loading, keeping
      the start time and stamping the end with `now`; otherwise nothing
      changes. */
  function Fail(m: map<Http.RecipeId, RequestState>, id: Http.RecipeId, error: string, now: int): (r: map<Http.RecipeId, RequestState>)
    ensures r.Keys == m.Keys
    ensures forall k | k in m && k != id :: r[k] == m[k]
    ensures id in m && m[id].IsLoading() ==> r[id] == Error(error, m[id].StartTime(), now)
    ensures !(id in m && m[id].IsLoading()) ==> r == m
  {
    if id in m && m[id].IsLoading() then m[id := Error(error, m[id].startTime, now)] else m
  }

  /** The application-level transitions change the in-flight map and
      nothing else. */
  function StartRequest(s: AppState, id: Http.RecipeId, now: int): (r: AppState)
    ensures r.ui.activeRequests == Start(s.ui.activeRequests, id, now)
    ensures r.(ui := r.ui.(activeRequests := s.ui.activeRequests)) == s
  {
    s.(ui := s.ui.(activeRequests := Start(s.ui.activeRequests, id, now)))
  }

  function FinishRequest(s: AppState, record: Http.Record): (r: AppState)
    ensures r.ui.activeRequests == Finish(s.ui.activeRequests, record)
    ensures r.(ui := r.ui.(activeRequests := s.ui.activeRequests)) == s
  {
    s.(ui := s.ui.(activeRequests := Finish(s.ui.activeRequests, record)))
  }

  function FailRequest(s: AppState, id: Http.RecipeId, error: string, now: int): (r: AppState)
    ensures r.ui.activeRequests == Fail(s.ui.activeRequests, id, error, now)
    ensures r.(ui := r.ui.(activeRequests := s.ui.activeRequests)) == s
  {
    s.(ui := s.ui.(activeRequests := Fail(s.ui.activeRequests, id, error, now)))
  }

  /** The moves a single recipe's state can make: a request starts when
      none is loading, and only a loading request completes. */
  predicate Allowed(before: Option<RequestState>, after: Option<RequestState>) {
    || before == after
    || (after.Some? && after.value.Loading? && !(before.Some? && before.value.IsLoading()))
    || (before.Some? && before.value.Loading? && after.Some? && !after.value.IsLoading())
  }

  function Entry(m: map<Http.RecipeId, RequestState>, id: Http.RecipeId): Option<RequestState> {
    if id in m then Some(m[id]) else None
  }

  /** Every transition moves each recipe's state only in an allowed way:
      a loading request is never restarted, and nothing but a loading
      request is completed. */
  lemma TransitionsAllowed(m: map<Http.RecipeId, RequestState>, id: Http.RecipeId, record: Http.Record,
                           error: string, now: int, k: Http.RecipeId)
    ensures Allowed(Entry(m, k), Entry(Start(m, id, now), k))
    ensures Allowed(Entry(m, k), Entry(Finish(m, record), k))
    ensures Allowed(Entry(m, k), Entry(Fail(m, id, error, now), k))
  {
  }

  /** A request started while one is loading is ignored, so starting twice
      is starting once. */
  lemma StartIdempotent(m: map<Http.RecipeId, RequestState>, id: Http.RecipeId, t1: int, t2: int)
    ensures Start(Start(m, id, t1), id, t2) == Start(m, id, t1)
  {
  }

  /** Only the first completion of a request is kept. */
  lemma FinishOnce(m: map<Http.RecipeId, RequestState>, r1: Http.Record, r2: Http.Record)
    requires r1.recipeId == r2.recipeId
    ensures Finish(Finish(m, r1), r2) == Finish(m, r1)
    ensures Fail(Finish(m, r1), r1.recipeId, "", 0) == Finish(m, r1)
  {
  }

  /** A failed request's duration is frozen at failure time. */
  lemma FailFreezesDuration(m: map<Http.RecipeId, RequestState>, id: Http.RecipeId, error: string,
                            now: int, later: int)
    requires id in m && m[id].IsLoading()
    ensures Fail(m, id, error, now)[id].Duration(later) == m[id].Duration(now)
  {
  }

  // ---------------------------------------------------------------------
  // What the selected recipe shows

  /** The state of the selected recipe's request, if any. */
  function ActiveRequest(s: AppState): (r: Option<RequestState>)
    ensures r.Some? <==>
      SelectedItem(s.ui.recipes).Some? && SelectedItem(s.ui.recipes).value.id in s.ui.activeRequests
    ensures r.Some? ==> r.value == s.ui.activeRequests[SelectedItem(s.ui.recipes).value.id]
  {
    match SelectedItem(s.ui.recipes)
    case None => None
    case Some(recipe) =>
      if recipe.id in s.ui.activeRequests then Some(s.ui.activeRequests[recipe.id]) else None
  }

  /** A request may be sent unless the selected recipe's is loading. */
  function CanSendRequest(s: AppState): (b: bool)
    ensures !b <==>
      && SelectedItem(s.ui.recipes).Some?
      && SelectedItem(s.ui.recipes).value.id in s.ui.activeRequests
      && s.ui.activeRequests[SelectedItem(s.ui.recipes).value.id].IsLoading()
  {
    match ActiveRequest(s)
    case None => true
    case Some(state) => !state.IsLoading()
  }

  /** Starting the selected recipe's request blocks sending another until
      it finishes or fails, after which sending is allowed again. */
  lemma SendBlockedWhileLoading(s: AppState, now: int, record: Http.Record, error: string, later: int)
    requires SelectedItem(s.ui.recipes).Some?
    requires record.recipeId == SelectedItem(s.ui.recipes).value.id
    ensures !CanSendRequest(StartRequest(s, record.recipeId, now))
    ensures CanSendRequest(FinishRequest(StartRequest(s, record.recipeId, now), record))
    ensures CanSendRequest(FailRequest(StartRequest(s, record.recipeId, now), record.recipeId, error, later))
  {
  }

  /** After a reload nothing is in flight, so a completion that arrives for
      a request sent before it is dropped. */
  lemma ReloadDropsStaleCompletions(s: AppState, c: Collection, record: Http.Record, error: string, now: int)
    ensures FinishRequest(ReloadCollection(s, c), record) == ReloadCollection(s, c)
    ensures FailRequest(ReloadCollection(s, c), record.recipeId, error, now) == ReloadCollection(s, c)
  {
  }

  // ---------------------------------------------------------------------
  // Notifications

  /** Read the notification, first clearing it if it has expired. */
  function CurrentNotification(s: AppState, now: int): (r: (AppState, Option<Notification>))
    ensures r.1 == r.0.ui.notification
    ensures r.1.Some? ==> r.1 == s.ui.notification && !Expired(r.1.value, now)
    ensures s.ui.notification.Some? && !Expired(s.ui.notification.value, now) ==> r.1 == s.ui.notification
    ensures r.0 == s.(ui := s.ui.(notification := r.1))
  {
    match s.ui.notification
    case Some(n) =>
      if Expired(n, now) then (s.(ui := s.ui.(notification := None)), None)
      else (s, Some(n))
    case None => (s, None)
  }

  /** Once expired, a notification stays expired; a fresh one is not. */
  lemma ExpiryMonotone(n: Notification, now: int, later: int)
    requires now <= later
    ensures Expired(n, now) ==> Expired(n, later)
    ensures !Expired(Notification(n.message, now), now)
  {
  }
}
