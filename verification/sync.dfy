/**
 The settings form's state and its two synchronisation transitions: the load
 effect, which runs whenever the store's `user` changes, and `updateConfig`,
 which sends the working setting with a PUT and, on success, re-fetches the
 configuration and publishes it to the user store and to the session. The
 network answers (response status, fetched configurations) are parameters.
 */
module SettingSync {
  import opened Wrappers
  import opened ConfigModel
  import opened SettingEditor

  /** The current user as held by the user store. `others` stands for the
      fields the spread `{ ...user, config }` carries over unchanged. */
  datatype User = User(id: string, config: Config, others: map<string, string>)

  /** The form's view of the world: its working setting, the user store's
      user and the session's user. */
  datatype FormState = FormState(setting: Config, user: Option<User>, sessionUser: Option<User>)

  /** The PUT `updateConfig` sends: the target user id (absent when there is
      no user) and the JSON body. */
  datatype PutRequest = PutRequest(userId: Option<string>, body: Config)

  /** The form right after mounting: the working setting is the bundled
      placeholder object `seed` as earlier edits left it (edits made before a
      load replaced it mutate that shared object), and shared user state is
      whatever the stores hold. */
  function Mount(seed: Config, user: Option<User>, sessionUser: Option<User>): (st: FormState)
    ensures st.setting == seed && st.user == user && st.sessionUser == sessionUser
  {
    FormState(seed, user, sessionUser)
  }

  /** The load effect, once its fetch of the user's configuration has
      settled: `Some(c)` when it answered `c`, `None` when it rejected (a
      network error or a body that is not JSON), in which case the effect
      stops before storing anything. Without a user nothing is fetched. */
  function Load(st: FormState, fetched: Option<Config>): (r: FormState)
    ensures r.user == st.user && r.sessionUser == st.sessionUser
    ensures st.user.Some? && fetched.Some? ==> r.setting == fetched.value
    ensures st.user.None? || fetched.None? ==> r == st
  {
    if st.user.Some? && fetched.Some? then st.(setting := fetched.value) else st
  }

  /** The user store's user is replaced by code outside the form (a login or
      a switch of account); the form's working setting is not touched until
      the load effect that this change triggers has settled. */
  function ChangeUser(st: FormState, user: Option<User>): (r: FormState)
    ensures r.user == user
    ensures r.setting == st.setting && r.sessionUser == st.sessionUser
  {
    st.(user := user)
  }

  /** An edit made in the form (`setData`) changes the working setting only. */
  function ApplyEdit(st: FormState, e: Edit): (r: FormState)
    ensures r.user == st.user && r.sessionUser == st.sessionUser
    ensures r.setting == SetData(st.setting, e)
  {
    st.(setting := SetData(st.setting, e))
  }

  /** A removal made in the form (`removeData`) changes the working setting only. */
  function ApplyRemove(st: FormState, f: ListField, v: string): (r: FormState)
    ensures r.user == st.user && r.sessionUser == st.sessionUser
    ensures r.setting == RemoveData(st.setting, f, v)
  {
    st.(setting := RemoveData(st.setting, f, v))
  }

  /** The request `updateConfig` sends: always the working setting, to the
      current user's id. */
  function SaveRequest(st: FormState): (req: PutRequest)
    ensures req.body == st.setting
    ensures req.userId.Some? <==> st.user.Some?
    ensures st.user.Some? ==> req.userId == Some(st.user.value.id)
  {
    match st.user
    case Some(u) => PutRequest(Some(u.id), st.setting)
    case None => PutRequest(None, st.setting)
  }

  /** True when a settled save goes on to publish: the response is OK and
      the user has an id (an empty id is falsy, as `user?.id` tests it). */
  predicate Publishes(st: FormState, responseOk: bool)
  {
    responseOk && st.user.Some? && st.user.value.id != ""
  }

  /** `updateConfig` once the PUT has settled with status `responseOk` and
      the confirmatory read has returned `refetched`. */
  function CompleteSave(st: FormState, responseOk: bool, refetched: Config): (r: FormState)
    ensures r.setting == st.setting
    ensures Publishes(st, responseOk) ==>
              && r.user.Some? && r.user.value.config == refetched
              && r.user.value.id == st.user.value.id
              && r.user.value.others == st.user.value.others
              && r.sessionUser == r.user
    ensures !Publishes(st, responseOk) ==> r == st
  {
    if responseOk && st.user.Some? && st.user.value.id != "" then
      var u := st.user.value.(config := refetched);
      st.(user := Some(u), sessionUser := Some(u))
    else st
  }

  /** A published save shows the server's confirmed configuration, not the
      working copy that was sent: whenever the two differ, every shared
      copy differs from what the form holds. */
  lemma PublishesConfirmedNotSent(st: FormState, refetched: Config)
    requires Publishes(st, true)
    requires refetched != st.setting
    ensures var r := CompleteSave(st, true, refetched);
            && r.user.value.config != SaveRequest(st).body
            && r.sessionUser.value.config != SaveRequest(st).body
            && r.setting == SaveRequest(st).body
  {
  }

  /** A save that is not OK, or that has no user id, leaves every part of the
      state as it was; the form keeps its edits for another attempt. */
  lemma FailedSaveChangesNothing(st: FormState, responseOk: bool, refetched: Config)
    requires !responseOk || st.user.None? || st.user.value.id == ""
    ensures CompleteSave(st, responseOk, refetched) == st
  {
  }

  /** Mounting and then loading with a user present leaves exactly the
      fetched configuration in the form; without a user, or when the fetch
      fails, the seed stays. */
  lemma MountThenLoad(seed: Config, user: Option<User>, sessionUser: Option<User>, fetched: Option<Config>)
    ensures user.Some? && fetched.Some? ==> Load(Mount(seed, user, sessionUser), fetched).setting == fetched.value
    ensures user.None? || fetched.None? ==> Load(Mount(seed, user, sessionUser), fetched).setting == seed
  {
  }

  /** A failed load after a switch of user keeps the previous working
      setting, and the next save sends it under the new user's id. */
  lemma StaleSettingSavedAfterFailedLoad(st: FormState, next: User)
    ensures var r := Load(ChangeUser(st, Some(next)), None);
            && r.setting == st.setting
            && SaveRequest(r) == PutRequest(Some(next.id), st.setting)
  {
  }

  /** A published save hands the store a new user object, which re-runs the
      load effect; its fetch then replaces the working setting. When the
      server answers that fetch as it answered the confirmatory read, the form,
      the user store and the session all hold the same configuration. */
  lemma SaveThenReload(st: FormState, refetched: Config, reloaded: Config)
    requires Publishes(st, true)
    ensures var r := Load(CompleteSave(st, true, refetched), Some(reloaded));
            && r.setting == reloaded
            && r.user.value.config == refetched
            && (reloaded == refetched ==> r.setting == r.user.value.config == r.sessionUser.value.config)
  {
  }
}
