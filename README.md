# Lyrical: the lyric editor's song collection and editing session

This project models the core of the Lyrical songwriting dashboard in Dafny:

- **The lyric editor component** (`src/app/dashboard/editor/page.tsx`). It caches the user's songs. It also holds an optional selected song, a local draft of that song's title, lyrics, genre and mood, and a busy flag. Five handlers change this state: `loadSongs`, `selectSong`, `createNewSong`, `saveSong` and `deleteSong`. `loadSongs` reads the table and, when nothing is selected, selects the newest song. `createNewSong` and `saveSong` start with a guard. `createNewSong`, `saveSong` and `deleteSong` call the table, return early on error, and otherwise reload through `loadSongs` and adjust the selection and draft. `selectSong` only sets the selection and the draft.
- **The user menu** (`src/components/user-profile.tsx`). It derives a display name from the signed-in user with `display_name || email.split("@")[0] || ""`, and it updates that name through the profile dialog.

Files and modules:

| file | module | what |
|---|---|---|
| options.dfy | `Options` | `Option`, for the source's nullable values |
| songs.dfy | `Songs` | the `Song` row, the editable `Draft`, the `genres`/`moods` lists and the defaults |
| ordering.dfy | `Ordering` | the table's listing, ordered by `updated_at` descending, as a function of the table |
| store.dfy | `Store` | `SongTable`, the hosted table as a map from id to row; every call takes the outcome the backend reports |
| editor.dfy | `Editor` | `LyricEditor`, a class with the component's fields and one method per handler, plus six scenario methods |
| profile.dfy | `Profile` | `split`/`join`, the display-name fallback, the auth backend and the `UserProfile` class |

Modelling choices:

- The signed-in user is a parameter (`Option<UserId>`).
- Each backend call takes a `succeeds: bool` parameter. Values the backend chooses are also parameters: the new row's id and timestamp (`newId`, `now`), and the `updated_at` an update leaves (`stamp`).
- A failed call changes nothing.
- An insert whose id is already taken fails, as a primary-key violation does.
- An update or delete whose id matches no row succeeds and changes nothing. This matches an `.eq("id", …)` filter that matches zero rows.
- `updated_at` values are integers. When two rows have the same `updated_at`, the source leaves their order to the database. The model orders them by id so that the listing is a function of the table. The lemmas about the listing do not depend on this choice.
- Inside a handler, `loadSongs` and the check in `deleteSong` see the selection as it was when the handler began (React closure semantics). `DeleteSong` keeps the starting selection in `selected`; inside `CreateNewSong` and `DeleteSong`, `LoadSongs` runs before anything changes the selection, so it reads the starting value.

Behaviour of the code that the model keeps as written:

- `saveSong` with no selection or no user returns without calling the store and reports nothing.
- A delete or update whose id matches no row succeeds and changes nothing.
- A failed load is only logged; the cached songs and the selection stay as they were.
- Nothing in the code enforces that a row's genre and mood come from the catalogue lists. The model proves the weaker property that the code does guarantee: if the table, the cached songs, the selection and the draft all hold catalogue values before a handler runs, they still do afterwards (`CatalogueClosed`).

## Model

| member | source | states |
|---|---|---|
| `Ordering.OrderedKeys` | src/app/dashboard/editor/page.tsx:130-133 | the listing holds as many ids as the table has, all ids of the table, each before every id after it (newer `updated_at` first, so no id twice) |
| `Ordering.OrderedKeysCover` | src/app/dashboard/editor/page.tsx:130-133 | no id of the table is left out of the listing |
| `Ordering.ConsKeys` | src/app/dashboard/editor/page.tsx:130-133 | listing the first row and then the rest of the table in order lists the whole table in order |
| `Ordering.FirstExists` | src/app/dashboard/editor/page.tsx:130-133 | a non-empty table always has a row that precedes all the others in the listing order |
| `Ordering.OrderedRows` | src/app/dashboard/editor/page.tsx:130-133 | the rows returned by the ordered select: as many as the table holds, all of them rows of the table, with `updated_at` non-increasing |
| `Ordering.ListedRowsAreStored` | src/app/dashboard/editor/page.tsx:130-140 | when rows are keyed by their ids, each listed row is the table's row for its id |
| `Ordering.ListedIdsDistinct` | src/app/dashboard/editor/page.tsx:130-140 | when rows are keyed by their ids, no id is listed twice |
| `Ordering.EveryRowListed` | src/app/dashboard/editor/page.tsx:130-140 | every row of the table appears in the listing |
| `Ordering.FirstListedIsNewest` | src/app/dashboard/editor/page.tsx:141-143 | the row that auto-selection picks has an `updated_at` at least that of every row in the table |
| `Ordering.NewestListedFirst` | src/app/dashboard/editor/page.tsx:130-133 | a row updated strictly later than all the others (a song just created) is listed first |
| `Songs.Created` | src/app/dashboard/editor/page.tsx:158-168 | an inserted row has the assigned id, the inserting user as owner, exactly the inserted four fields, and `created_at == updated_at == now` |
| `Songs.Revised` | src/app/dashboard/editor/page.tsx:186-194 | an update overwrites all four editable fields with the draft and stamps `updated_at`; id, owner and `created_at` are kept |
| `Songs.DefaultsInCatalogue` | src/app/dashboard/editor/page.tsx:66-97 | the default genre "Pop" and mood "Happy" belong to the pickers' lists, as their first entries |
| `Store.SongTable.Select` | src/app/dashboard/editor/page.tsx:130-138 | the select succeeds exactly when the backend does and then returns the table's rows newest first; otherwise it returns an error |
| `Store.SongTable.Insert` | src/app/dashboard/editor/page.tsx:158-174 | the insert succeeds exactly when the backend does and the id is free; it then adds exactly the created row; otherwise the table is unchanged |
| `Store.SongTable.Update` | src/app/dashboard/editor/page.tsx:186-200 | a successful update changes the row with that id, and only that row, to the draft's four fields; a failed one, or one whose id matches no row, changes nothing |
| `Store.SongTable.Delete` | src/app/dashboard/editor/page.tsx:208-214 | a successful delete removes exactly that id; a failed one changes nothing |
| `Editor.InsertKeepsCatalogue` | src/app/dashboard/editor/page.tsx:158-168 | inserting a row whose genre and mood come from the lists keeps every row of the table in the lists |
| `Editor.DeleteKeepsCatalogue` | src/app/dashboard/editor/page.tsx:208 | deleting a row keeps every remaining row's genre and mood in the lists |
| `Editor.ListingKeepsCatalogue` | src/app/dashboard/editor/page.tsx:130-140 | when every row of the table has a listed genre and mood, so does every song of the loaded listing |
| `Editor.LyricEditor.constructor` | src/app/dashboard/editor/page.tsx:92-99 | the editor starts with no songs, no selection, the draft "Untitled Song"/""/"Pop"/"Happy", and the busy flag down |
| `Editor.LyricEditor.SelectSong` | src/app/dashboard/editor/page.tsx:146-152 | the selection becomes the song and the draft equals its title, lyrics, genre and mood exactly, discarding unsaved edits; the cached list and the busy flag are untouched |
| `Editor.LyricEditor.LoadSongs` | src/app/dashboard/editor/page.tsx:129-144 | on error, songs, selection and draft are unchanged; on success songs become the table's rows newest first; with no selection and a non-empty result the first song is selected and seeds the draft, otherwise selection and draft are untouched |
| `Editor.LyricEditor.CreateNewSong` | src/app/dashboard/editor/page.tsx:154-180 | no user: nothing changes; on success the table gains exactly the default row owned by the user, it becomes the selection with the default draft, the list is reloaded and the dialog closes; on failure the table, list, selection and draft are unchanged; the busy flag is down at the end |
| `Editor.LyricEditor.SaveSong` | src/app/dashboard/editor/page.tsx:182-204 | no selection or no user: no store call and nothing changes; otherwise exactly the draft's four fields go to the selected id's row and to no other; the list is reloaded after a successful write; selection and draft stay as they were on both paths; the busy flag is down at the end |
| `Editor.LyricEditor.DeleteSong` | src/app/dashboard/editor/page.tsx:206-225 | on success the id leaves the table and the list is reloaded; deleting the selected id clears the selection and resets the draft to the defaults even when songs remain; deleting another id, or a failed delete, leaves selection and draft unchanged (an empty selection may be filled by the reload); the busy flag is down at the end |
| `Editor.LyricEditor.ClearSelection` | src/app/dashboard/editor/page.tsx:217-223 | the reset deleteSong applies leaves no selection and the default draft |
| `Editor.LyricEditor.EditTitle` | src/app/dashboard/editor/page.tsx:431-433 | the title input changes only the draft's title |
| `Editor.LyricEditor.EditLyrics` | src/app/dashboard/editor/page.tsx:520-522 | the lyrics textarea changes only the draft's lyrics |
| `Editor.LyricEditor.ChooseGenre` | src/app/dashboard/editor/page.tsx:461-470 | the genre picker, which offers only `genres`, changes only the draft's genre |
| `Editor.LyricEditor.ChooseMood` | src/app/dashboard/editor/page.tsx:477-486 | the mood picker, which offers only `moods`, changes only the draft's mood |
| `Editor.ReselectDiscardsEdits` | src/app/dashboard/editor/page.tsx:146-152 | editing the title, selecting another song and reselecting the first one restores the stored fields, not the edit |
| `Editor.SaveAfterSelectKeepsFields` | src/app/dashboard/editor/page.tsx:182-204 | saving straight after selecting a stored song leaves its four editable fields unchanged |
| `Editor.CreateIntoEmptyTable` | src/app/dashboard/editor/page.tsx:154-180 | creating in an empty table yields a listing of exactly one default song ("Untitled Song", "", "Pop", "Happy"), and that song is selected |
| `Editor.CreateAndEdit` | src/app/dashboard/editor/page.tsx:154-180 | after creating a song and setting all four fields, the stored row still has the defaults, the new song is selected and the draft holds the values that were set |
| `Editor.CreateListsNewFirst` | src/app/dashboard/editor/page.tsx:154-180 | creating a song stamped later than every stored row and reloading lists the new song first and only once, and selects it |
| `Editor.EditSaveReload` | src/app/dashboard/editor/page.tsx:182-204 | create, set the four fields, save and reload: the listed row under that id carries exactly the values set |
| `Profile.Split` | src/components/user-profile.tsx:45 | `split` returns at least one part, and no part contains the separator |
| `Profile.JoinSplit` | src/components/user-profile.tsx:45 | joining the parts of a split with the separator restores the text |
| `Profile.SplitJoin` | src/components/user-profile.tsx:45 | splitting a join of separator-free parts restores the parts |
| `Profile.SplitHead` | src/components/user-profile.tsx:45 | `split("@")[0]` is a prefix of the text without '@', ending at the first '@' or at the end of the text |
| `Profile.DisplayNameFor` | src/components/user-profile.tsx:44-46 | a non-empty metadata display name is used as is; otherwise, with an email, the name is the email's text before its first '@' (and contains no '@'); with neither, it is "" |
| `Profile.WholeEmailWithoutAt` | src/components/user-profile.tsx:45 | an email with no '@' becomes the display name whole |
| `Profile.MenuLabel` | src/components/user-profile.tsx:77 | the menu header is never empty: it shows the display name whenever that is non-empty, and "User" whenever it is empty (a cleared input, or an email with nothing before its '@') |
| `Profile.AnonymousMenuLabel` | src/components/user-profile.tsx:77 | with no usable display name and no email, the menu shows "User" |
| `Profile.SavedNameIsShown` | src/components/user-profile.tsx:54-61 | after a successful update with a non-empty name, the reloaded display name is that name |
| `Profile.EmptySavedNameFallsBack` | src/components/user-profile.tsx:54-61 | saving an empty name makes the reloaded display name fall back to the email's local part |
| `Profile.AuthService.GetUser` | src/components/user-profile.tsx:39-41 | `auth.getUser()` returns the signed-in account when the backend succeeds, and no user when it reports an error, even with a session |
| `Profile.AuthService.UpdateUser` | src/components/user-profile.tsx:54-56 | the update succeeds exactly when the backend does and someone is signed in; it then sets the metadata display name, and on failure the account is unchanged |
| `Profile.UserProfile.constructor` | src/components/user-profile.tsx:29-32 | the menu starts with no user, the dialog closed, an empty name and the busy flag down |
| `Profile.UserProfile.GetUser` | src/components/user-profile.tsx:38-48 | when the read returns a user, `user` is that user and `displayName` is derived from it; when it returns none (nobody signed in, or the read failed), both are unchanged; the dialog and busy flag are untouched |
| `Profile.UserProfile.EditDisplayName` | src/components/user-profile.tsx:125-128 | the input changes the typed display name |
| `Profile.UserProfile.SetSettingsOpen` | src/components/user-profile.tsx:135 | the Cancel button (and the menu item) set whether the dialog is open |
| `Profile.UserProfile.UpdateProfile` | src/components/user-profile.tsx:50-65 | no user: nothing happens; on success the account's display name becomes the typed name and the dialog closes, and `user` and `displayName` are reloaded from the account only when the reload returns a user (otherwise both keep their values); on error the dialog stays open and nothing else changes; the busy flag is down at the end either way |

## Left out

- Authentication and redirects (`checkUser`, the dashboard's server-side redirect, sign-out): the user is a parameter.
- The hosted backend itself: the table is a map and each call's outcome is a parameter. Row-level scoping of the listing to the owner is done by the backend and is not modelled. The listing is the whole map.
- How the backend sets `updated_at` on an update: the update does not send it. `Store.SongTable.Update` takes the resulting value as `stamp`.
- Asynchrony, React re-rendering and overlapping handlers: each handler is one sequential method. A second handler started while one is in flight is not modelled. The busy flag only disables buttons in the source.
- Error logging (`console.error`) and error messages: a failure is modelled only by what it leaves unchanged.
- The AI suggestion stub: it picks at random with `Math.random` and hides the result with a `setTimeout`. It does not touch the editing state.
- All rendering: the sidebar collapse, the dialogs other than the new-song dialog's closing, and date formatting.
- The marketing page, the plan fetch, the navbar and the dashboard's JSON view of the user: these are UI and foreign calls only.
