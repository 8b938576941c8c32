# Setting form model

A Dafny model of the per-user tender filter configuration ("setting") edited
by the `SettingForm` component of the scraper dashboard, and of the pure
rules the form uses to change it and to synchronise it with the API.

- `wrappers.dfy` — `Option`, for the `hbu` / `kbli` fields that start as `null`.
- `config.dfy` (`ConfigModel`) — the `Config` value (two ordered string
  lists, the `nilai_proyek` min/max record, two optional text fields) and
  frame predicates saying "only this field changed".
- `js_array.dfy` (`JsArray`) — `Array.prototype.indexOf` and
  `Array.prototype.splice(start, 1)` on sequences, including ECMAScript's
  handling of a negative start, and a reference "remove first occurrence".
- `editor.dfy` (`SettingEditor`) — `setData` and `removeData`.
- `view.dfy` (`SettingView`) — the chips the form renders for a list field,
  skipping empty strings without changing the stored list.
- `sync.dfy` (`SettingSync`) — the form state (working setting, user-store
  user, session user), the load effect and `updateConfig`. HTTP answers
  (response OK flag, fetched configurations) are parameters of the transitions.

The model keeps three behaviours of the code that a reader might not expect:
- removing a value that is not listed drops the last entry of the list
  (`indexOf` gives -1 and `splice(-1, 1)` deletes the last element), rather
  than doing nothing;
- `min` / `max` are stored from `parseInt` without rejecting bad input; the
  model takes the parsed integer as its input (see Left out);
- a save touches only the user store and the session, never the working
  setting; the working setting is replaced afterwards only because the new
  user object re-runs the load effect (`SettingSync.SaveThenReload`).

## Model

| member | source | states |
|---|---|---|
| ConfigModel.WithList | src/components/SettingForm.tsx:67 | the spread `{ ...setting, [f]: xs }` puts `xs` in list field `f` and leaves the other list, `nilai_proyek`, `hbu` and `kbli` as they were |
| JsArray.IndexOf | src/components/SettingForm.tsx:85 | `indexOf` answers -1 exactly when the value is absent, and otherwise an index holding the value with no earlier occurrence |
| JsArray.SpliceStart | src/components/SettingForm.tsx:86 | the position `splice` starts at: an in-range start as given, a negative start counted back from the end and clamped at 0, a start past the end clamped to the length |
| JsArray.SpliceOne | src/components/SettingForm.tsx:86 | `splice(start, 1)` deletes the element at an in-range start keeping the rest in order, deletes the last element for start -1, and changes nothing on an empty array |
| JsArray.RemoveFirst | src/components/SettingForm.tsx:84-87 | reference "remove first occurrence": unchanged when the value is absent, exactly one element shorter when it is listed |
| JsArray.RemoveFirstCounts | src/components/SettingForm.tsx:84-87 | first-occurrence removal takes away exactly one copy of the value (when listed) and no other element, as a multiset |
| JsArray.SpliceOneShift | src/components/SettingForm.tsx:86 | `splice(k + 1, 1)` on a list equals keeping its head and applying `splice(k, 1)` to its tail |
| JsArray.RemoveFirstDeletesFirstMatch | src/components/SettingForm.tsx:84-87 | removal deletes the element at the first index holding the value and keeps every other element in its relative order |
| JsArray.SpliceAtIndexOfRemovesFirst | src/components/SettingForm.tsx:85-86 | `splice(indexOf(v), 1)` equals the reference first-occurrence removal whenever `v` is listed |
| JsArray.SpliceAtIndexOfAbsentDropsLast | src/components/SettingForm.tsx:85-86 | `splice(indexOf(v), 1)` with `v` absent drops the last element of a non-empty array and leaves an empty one alone |
| JsArray.RemoveFirstAfterAppend | src/components/SettingForm.tsx:64-87 | removing a just-appended new value gives back the original list; for an already listed value the earlier copy goes and the appended one stays last |
| SettingEditor.SetData | src/components/SettingForm.tsx:59-81 | appending gives `old + [v]` with no dedup or trimming; setting min/max changes that bound only; setting hbu/kbli stores the text; every other field is unchanged in each case |
| SettingEditor.RemoveData | src/components/SettingForm.tsx:83-88 | only the named list changes; a listed value loses its first occurrence; an absent value on a non-empty list drops the last entry; an empty list is left as is |
| SettingEditor.RemoveAbsentDropsLastExample | src/components/SettingForm.tsx:85-86 | example only (one instance of `RemoveData`'s absent-value case): removing an unlisted label from a two-entry list leaves only the first entry |
| SettingEditor.AddThenRemoveNew | src/components/SettingForm.tsx:64-88 | adding a value that was not listed and then removing it restores the whole configuration |
| SettingEditor.AddThenRemoveListed | src/components/SettingForm.tsx:64-88 | adding an already listed value and then removing it removes the earlier copy and keeps the new one at the end; other fields unchanged |
| SettingEditor.AddsKeepOrder | src/components/SettingForm.tsx:64-67 | two adds to one list keep both values in the order added |
| SettingEditor.BoundsIndependent | src/components/SettingForm.tsx:69-76 | setting min then max equals setting max then min, and yields exactly the range entered, with no ordering imposed between them |
| SettingEditor.ScalarEditsOverwrite | src/components/SettingForm.tsx:69-78 | a second edit of the same bound or text field overrides the first |
| SettingView.ChipsFrom | src/components/SettingForm.tsx:172-184 | the chips for a suffix of the list carry their index in the stored list, are in index order, skip empty strings and cover every non-empty entry |
| SettingView.SkipEmptyEntry | src/components/SettingForm.tsx:140 | an empty entry gets no chip, and the chips of the later entries still cover everything from it on |
| SettingView.PrependChip | src/components/SettingForm.tsx:138-147 | a chip for a non-empty entry placed before the later chips keeps keys valid, ascending and covering |
| SettingView.Chips | src/components/SettingForm.tsx:138-149 | one chip per non-empty entry, keyed by its stored index and labelled by its value, in list order; no chip for `""` |
| SettingView.NonEmpty | src/components/SettingForm.tsx:140 | the display filter keeps exactly the values that are not `""` |
| SettingView.ChipLabelsAreNonEmptyEntries | src/components/SettingForm.tsx:138-149 | the chip labels read in order equal the list filtered of `""` |
| SettingSync.Mount | src/components/SettingForm.tsx:47 | on mount the working setting is the bundled placeholder as last left (earlier in-place edits included) and shared user state is untouched |
| SettingSync.Load | src/components/SettingForm.tsx:49-57 | the load effect replaces the working setting with the fetched one exactly when a user is present and the fetch succeeded; a failed fetch or no user leaves the state unchanged; user store and session are never touched |
| SettingSync.ChangeUser | src/components/SettingForm.tsx:37-40 | a new user in the store changes only the form's view of the user, not its working setting or the session |
| SettingSync.MountThenLoad | src/components/SettingForm.tsx:47-56 | after mount and load the setting is the fetched configuration with a user and a successful fetch, the placeholder otherwise |
| SettingSync.StaleSettingSavedAfterFailedLoad | src/components/SettingForm.tsx:49-97 | after a user switch whose load fails, the previous working setting stays and the next save sends it under the new user's id |
| SettingSync.ApplyEdit | src/components/SettingForm.tsx:59-81 | an edit changes only the working setting; user store and session are untouched |
| SettingSync.ApplyRemove | src/components/SettingForm.tsx:83-88 | a removal changes only the working setting; user store and session are untouched |
| SettingSync.SaveRequest | src/components/SettingForm.tsx:92-97 | the PUT body is the working setting, addressed to the current user's id |
| SettingSync.CompleteSave | src/components/SettingForm.tsx:98-111 | on an OK response with a non-empty user id, user store and session both get the user with the re-fetched config and other fields kept; otherwise nothing changes; the working setting never changes |
| SettingSync.PublishesConfirmedNotSent | src/components/SettingForm.tsx:97-110 | what is published is the re-fetched config: when it differs from the PUT body, both shared copies differ from the body and the form still holds the body |
| SettingSync.FailedSaveChangesNothing | src/components/SettingForm.tsx:99 | a non-OK response or a missing/empty user id leaves the whole state unchanged |
| SettingSync.SaveThenReload | src/components/SettingForm.tsx:49-111 | after a published save the re-run load effect replaces the working setting, and if the server answers consistently form, store and session agree |

## Left out

- HTTP (`fetch`, SWR, JSON parsing) and the environment-supplied API URL: their results are parameters (`responseOk`, `fetched`, `refetched`); a network error, which rejects the save promise, behaves like a non-OK response here, and a rejected load fetch is `fetched == None`.
- A load or confirmatory read whose JSON has no `config` member (the form would store `undefined`): the fetched value is always a `Config` here.
- The option list of organisers fetched from `/scrape/instansi` and the loading screen shown while it is pending: presentation only.
- `toast.promise` notifications: a foreign library call, not modelled.
- `next-auth`'s `update` and the zustand `setUser`: modelled as assigning the published user to `sessionUser` and `user`.
- `parseInt` and its `NaN` result: JavaScript number semantics; `SetBound` takes the parsed value as an `int`.
- `setData` calls whose key and `isArray` flag do not match (a list key without `isArray`, a text key with it): the form never makes them, and they would store a value of the wrong type; `Edit` admits only the matching combinations.
- In-place mutation of the state arrays by `push` / `splice`: modelled with value semantics, which gives the working setting the same value. Not modelled: while the working setting is still the imported placeholder object (no user, or before the fetch resolves), those calls also change the placeholder's arrays, so a later mount starts from the edited lists; `SettingSync.Mount` takes the placeholder as an arbitrary parameter to cover this.
- React closures: a save completes with the user captured when it was started, and responses arriving after the user changed are not ordered; each transition here is applied to one given state.
- The fixed list of eight `jenis_proyek` labels: enforced only by the input widget, not by the data.
- Any `min <= max` relation: the form enforces none.
- `src/components/ProgressBar.tsx` and the dashboard pages: UI wrappers outside this model.
