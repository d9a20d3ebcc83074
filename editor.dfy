/** The lyric editor component (src/app/dashboard/editor/page.tsx): a cached
    listing of the user's songs, an optional selection, a local draft of the
    selected song's four editable fields and a busy flag. Each handler is one
    sequential method; the signed-in user is a parameter. */
module Editor {

  import opened Options
  import opened Songs
  import opened Ordering
  import opened Store

  /** Every row of the table has a genre and a mood from the catalogues. */
  predicate TableInCatalogue(rows: map<SongId, Song>) {
    forall k :: k in rows ==> SongInCatalogue(rows[k])
  }

  lemma InsertKeepsCatalogue(rows: map<SongId, Song>, k: SongId, s: Song)
    requires TableInCatalogue(rows) && SongInCatalogue(s)
    ensures TableInCatalogue(rows[k := s])
  {
  }

  lemma DeleteKeepsCatalogue(rows: map<SongId, Song>, k: SongId)
    requires TableInCatalogue(rows)
    ensures TableInCatalogue(rows - {k})
  {
  }

  lemma ListingKeepsCatalogue(rows: map<SongId, Song>)
    requires TableInCatalogue(rows)
    ensures forall i :: 0 <= i < |OrderedRows(rows)| ==> SongInCatalogue(OrderedRows(rows)[i])
  {
    forall i | 0 <= i < |OrderedRows(rows)| ensures SongInCatalogue(OrderedRows(rows)[i]) {
      assert OrderedRows(rows)[i] in rows.Values;
    }
  }

  class LyricEditor {
    const db: SongTable
    var songs: seq<Song>
    var currentSong: Option<Song>
    var title: string
    var lyrics: string
    var genre: string
    var mood: string
    var isLoading: bool
    var newSongDialogOpen: bool

    ghost predicate Valid()
      reads this, db
    {
      db.Valid()
    }

    /** The draft the editing pane shows. */
    function CurrentDraft(): Draft
      reads this
    {
      Draft(title, lyrics, genre, mood)
    }

    /** Table, cached listing, selection and draft hold only genres and moods
        the pickers offer. The handlers keep this once it holds. */
    ghost predicate CatalogueClosed()
      reads this, db
    {
      && TableInCatalogue(db.rows)
      && (forall i :: 0 <= i < |songs| ==> SongInCatalogue(songs[i]))
      && (currentSong.Some? ==> SongInCatalogue(currentSong.value))
      && DraftInCatalogue(CurrentDraft())
    }

    /** The component's initial state. */
    constructor (table: SongTable)
      requires table.Valid()
      ensures Valid() && db == table
      ensures songs == [] && currentSong == None && CurrentDraft() == DefaultDraft
      ensures !isLoading && !newSongDialogOpen
    {
      db := table;
      songs := [];
      currentSong := None;
      lyrics := "";
      title := DefaultTitle;
      genre := DefaultGenre;
      mood := DefaultMood;
      isLoading := false;
      newSongDialogOpen := false;
    }

    /** `selectSong`: the selection becomes `s` and the draft is reseeded from
        it, discarding any unsaved edits. */
    method SelectSong(s: Song)
      modifies this
      ensures currentSong == Some(s) && CurrentDraft() == DraftOf(s)
      ensures songs == old(songs)
      ensures isLoading == old(isLoading) && newSongDialogOpen == old(newSongDialogOpen)
      ensures old(CatalogueClosed()) && SongInCatalogue(s) ==> CatalogueClosed()
    {
      currentSong := Some(s);
      title := s.title;
      lyrics := s.lyrics;
      genre := s.genre;
      mood := s.mood;
    }

    /** `loadSongs`: on a store error nothing changes; otherwise the cache
        becomes the table's listing, newest first, and if nothing was selected
        and the listing is not empty its first song is selected. */
    method LoadSongs(succeeds: bool)
      requires Valid()
      modifies this
      ensures Valid()
      ensures songs == if succeeds then OrderedRows(db.rows) else old(songs)
      ensures succeeds && old(currentSong).None? && |songs| > 0 ==>
        currentSong == Some(songs[0]) && CurrentDraft() == DraftOf(songs[0])
      ensures !(succeeds && old(currentSong).None? && |songs| > 0) ==>
        currentSong == old(currentSong) && CurrentDraft() == old(CurrentDraft())
      ensures isLoading == old(isLoading) && newSongDialogOpen == old(newSongDialogOpen)
      ensures old(CatalogueClosed()) ==> CatalogueClosed()
    {
      var r := db.Select(succeeds);
      if r.Err? {
        return;
      }
      ghost var closed := CatalogueClosed();
      songs := r.value;
      if closed {
        ListingKeepsCatalogue(db.rows);
      }
      if |r.value| > 0 && currentSong.None? {
        SelectSong(r.value[0]);
      }
    }

    /** `createNewSong`: without a user nothing happens. Otherwise a row with
        the default title, lyrics, genre and mood is inserted for the user; on
        success the listing is reloaded and the new song becomes the selection
        with the default draft; on failure only the busy flag moves. */
    method CreateNewSong(user: Option<UserId>, insertSucceeds: bool, newId: SongId, now: int,
                         loadSucceeds: bool)
      requires Valid()
      modifies this, db
      ensures Valid()
      ensures user.None? ==>
        && db.rows == old(db.rows) && songs == old(songs)
        && currentSong == old(currentSong) && CurrentDraft() == old(CurrentDraft())
        && isLoading == old(isLoading) && newSongDialogOpen == old(newSongDialogOpen)
      ensures user.Some? ==> !isLoading
      ensures user.Some? && insertSucceeds && newId !in old(db.rows) ==>
        && db.rows == old(db.rows)[newId := Created(newId, user.value, DefaultDraft, now)]
        && currentSong == Some(Created(newId, user.value, DefaultDraft, now))
        && CurrentDraft() == DefaultDraft
        && songs == (if loadSucceeds then OrderedRows(db.rows) else old(songs))
        && !newSongDialogOpen
      ensures user.Some? && !(insertSucceeds && newId !in old(db.rows)) ==>
        && db.rows == old(db.rows) && songs == old(songs)
        && currentSong == old(currentSong) && CurrentDraft() == old(CurrentDraft())
        && newSongDialogOpen == old(newSongDialogOpen)
      ensures old(CatalogueClosed()) ==> CatalogueClosed()
    {
      if user.None? {
        return;
      }
      ghost var closed := CatalogueClosed();
      isLoading := true;
      var r := db.Insert(user.value, DefaultDraft, insertSucceeds, newId, now);
      assert songs == old(songs) && currentSong == old(currentSong);
      assert CurrentDraft() == old(CurrentDraft());
      if r.Err? {
        isLoading := false;
        return;
      }
      if closed {
        DefaultsInCatalogue();
        InsertKeepsCatalogue(old(db.rows), newId, r.value);
        assert CatalogueClosed();
      }
      LoadSongs(loadSucceeds);
      SelectSong(r.value);
      newSongDialogOpen := false;
      isLoading := false;
    }

    /** `saveSong`: without a selection or a user nothing happens and the store
        is not called. Otherwise the draft's four fields are written to the row
        of the selected id and to no other; after a successful write the
        listing is reloaded. Selection and draft stay as they were. */
    method SaveSong(user: Option<UserId>, updateSucceeds: bool, stamp: int, loadSucceeds: bool)
      requires Valid()
      modifies this, db
      ensures Valid()
      ensures currentSong == old(currentSong) && CurrentDraft() == old(CurrentDraft())
      ensures newSongDialogOpen == old(newSongDialogOpen)
      ensures old(currentSong).None? || user.None? ==>
        && db.rows == old(db.rows) && songs == old(songs) && isLoading == old(isLoading)
      ensures old(currentSong).Some? && user.Some? ==> !isLoading
      ensures old(currentSong).Some? && user.Some? && updateSucceeds
              && old(currentSong).value.id in old(db.rows) ==>
        db.rows == old(db.rows)[old(currentSong).value.id :=
          Revised(old(db.rows)[old(currentSong).value.id], old(CurrentDraft()), stamp)]
      ensures !(old(currentSong).Some? && user.Some? && updateSucceeds
                && old(currentSong).value.id in old(db.rows)) ==>
        db.rows == old(db.rows)
      ensures songs == if old(currentSong).Some? && user.Some? && updateSucceeds && loadSucceeds
                       then OrderedRows(db.rows) else old(songs)
      ensures old(CatalogueClosed()) ==> CatalogueClosed()
    {
      if currentSong.None? || user.None? {
        return;
      }
      isLoading := true;
      var done := db.Update(currentSong.value.id, CurrentDraft(), updateSucceeds, stamp);
      assert songs == old(songs) && currentSong == old(currentSong);
      assert CurrentDraft() == old(CurrentDraft());
      if !done {
        isLoading := false;
        return;
      }
      LoadSongs(loadSucceeds);
      isLoading := false;
    }

    /** `deleteSong`: removes the row with `songId`. On success the listing is
        reloaded and, if the deleted id was the selection when the handler
        began, the selection is cleared and the draft reset to the defaults,
        even when other songs remain. A failed delete changes only the busy
        flag. */
    method DeleteSong(songId: SongId, deleteSucceeds: bool, loadSucceeds: bool)
      requires Valid()
      modifies this, db
      ensures Valid()
      ensures !isLoading && newSongDialogOpen == old(newSongDialogOpen)
      ensures db.rows == if deleteSucceeds then old(db.rows) - {songId} else old(db.rows)
      ensures songs == if deleteSucceeds && loadSucceeds then OrderedRows(db.rows) else old(songs)
      ensures !deleteSucceeds ==>
        currentSong == old(currentSong) && CurrentDraft() == old(CurrentDraft())
      ensures deleteSucceeds && old(currentSong).Some? && old(currentSong).value.id == songId ==>
        currentSong == None && CurrentDraft() == DefaultDraft
      ensures deleteSucceeds && old(currentSong).Some? && old(currentSong).value.id != songId ==>
        currentSong == old(currentSong) && CurrentDraft() == old(CurrentDraft())
      ensures deleteSucceeds && old(currentSong).None? ==>
        if loadSucceeds && |songs| > 0
        then currentSong == Some(songs[0]) && CurrentDraft() == DraftOf(songs[0])
        else currentSong == None && CurrentDraft() == old(CurrentDraft())
      ensures old(CatalogueClosed()) ==> CatalogueClosed()
    {
      var selected := currentSong;
      ghost var closed := CatalogueClosed();
      isLoading := true;
      var done := db.Delete(songId, deleteSucceeds);
      assert songs == old(songs) && currentSong == old(currentSong);
      assert CurrentDraft() == old(CurrentDraft());
      if !done {
        isLoading := false;
        return;
      }
      if closed {
        DeleteKeepsCatalogue(old(db.rows), songId);
        assert CatalogueClosed();
      }
      LoadSongs(loadSucceeds);
      if selected.Some? && selected.value.id == songId {
        ClearSelection();
      }
      isLoading := false;
    }

    /** The reset `deleteSong` applies when the selected song is deleted:
        no selection, and the draft back to the defaults. */
    method ClearSelection()
      modifies this`currentSong, this`title, this`lyrics, this`genre, this`mood
      ensures currentSong == None && CurrentDraft() == DefaultDraft
      ensures DraftInCatalogue(CurrentDraft())
    {
      DefaultsInCatalogue();
      currentSong := None;
      title := DefaultTitle;
      lyrics := "";
      genre := DefaultGenre;
      mood := DefaultMood;
    }

    /** The title input's `onChange`. */
    method EditTitle(t: string)
      modifies this`title
      ensures title == t
    {
      title := t;
    }

    /** The lyrics textarea's `onChange`. */
    method EditLyrics(l: string)
      modifies this`lyrics
      ensures lyrics == l
    {
      lyrics := l;
    }

    /** The genre picker's `onValueChange`; it offers only `Genres`. */
    method ChooseGenre(g: string)
      requires g in Genres
      modifies this`genre
      ensures genre == g
    {
      genre := g;
    }

    /** The mood picker's `onValueChange`; it offers only `Moods`. */
    method ChooseMood(m: string)
      requires m in Moods
      modifies this`mood
      ensures mood == m
    {
      mood := m;
    }
  }

  /** Unsaved edits are lost on reselection: edit the title, select another
      song, select the first one again, and the draft is its stored title. */
  method ReselectDiscardsEdits(e: LyricEditor, a: Song, b: Song, edited: string)
    modifies e
    ensures e.currentSong == Some(a) && e.CurrentDraft() == DraftOf(a)
  {
    e.SelectSong(a);
    e.EditTitle(edited);
    e.SelectSong(b);
    e.SelectSong(a);
  }

  /** Selecting a stored song and saving it straight away leaves its four
      editable fields as they were. */
  method SaveAfterSelectKeepsFields(e: LyricEditor, id: SongId, user: UserId, stamp: int,
                                    loadSucceeds: bool)
    requires e.Valid() && id in e.db.rows
    modifies e, e.db
    ensures e.Valid() && id in e.db.rows
    ensures DraftOf(e.db.rows[id]) == DraftOf(old(e.db.rows[id]))
  {
    e.SelectSong(e.db.rows[id]);
    e.SaveSong(Some(user), true, stamp, loadSucceeds);
  }

  /** Creating the first song of an empty table: the reloaded listing holds
      exactly that song, with the default fields, and it is the selection. */
  method CreateIntoEmptyTable(e: LyricEditor, user: UserId, id: SongId, now: int)
    requires e.Valid() && e.db.rows == map[]
    modifies e, e.db
    ensures e.songs == [Created(id, user, DefaultDraft, now)]
    ensures e.currentSong == Some(e.songs[0]) && e.CurrentDraft() == DefaultDraft
    ensures !e.isLoading
  {
    e.CreateNewSong(Some(user), true, id, now, true);
    assert e.db.rows == map[id := Created(id, user, DefaultDraft, now)];
    assert e.songs[0] in e.db.rows.Values;
  }

  /** Creating a song stamped later than every stored row, with a reload that
      succeeds: the new song heads the listing, appears there only once, and
      is the selection. */
  method CreateListsNewFirst(e: LyricEditor, user: UserId, id: SongId, now: int)
    requires e.Valid() && id !in e.db.rows
    requires forall k :: k in e.db.rows ==> e.db.rows[k].updatedAt < now
    modifies e, e.db
    ensures |e.songs| > 0 && e.songs[0] == Created(id, user, DefaultDraft, now)
    ensures forall i :: 0 < i < |e.songs| ==> e.songs[i].id != id
    ensures e.currentSong == Some(e.songs[0])
  {
    e.CreateNewSong(Some(user), true, id, now, true);
    NewestListedFirst(e.db.rows, id);
    ListedIdsDistinct(e.db.rows);
  }

  /** Create a song and set all four fields of its draft: the new row is
      stored with the defaults and selected, and the draft holds the values
      set. */
  method CreateAndEdit(e: LyricEditor, user: UserId, id: SongId, now: int,
                       t: string, l: string, g: string, m: string)
    requires e.Valid() && id !in e.db.rows
    requires g in Genres && m in Moods
    modifies e, e.db
    ensures e.Valid()
    ensures e.db.rows == old(e.db.rows)[id := Created(id, user, DefaultDraft, now)]
    ensures e.currentSong == Some(Created(id, user, DefaultDraft, now))
    ensures e.CurrentDraft() == Draft(t, l, g, m)
  {
    e.CreateNewSong(Some(user), true, id, now, true);
    e.EditTitle(t);
    e.EditLyrics(l);
    e.ChooseGenre(g);
    e.ChooseMood(m);
  }

  /** Create, set all four fields, save and reload: the listing holds the song
      under its id with exactly the fields that were set. */
  method EditSaveReload(e: LyricEditor, user: UserId, id: SongId, now: int, stamp: int,
                        t: string, l: string, g: string, m: string)
    requires e.Valid() && id !in e.db.rows
    requires g in Genres && m in Moods
    modifies e, e.db
    ensures e.Valid() && id in e.db.rows
    ensures DraftOf(e.db.rows[id]) == Draft(t, l, g, m)
    ensures e.db.rows[id] in e.songs
  {
    CreateAndEdit(e, user, id, now, t, l, g, m);
    e.SaveSong(Some(user), true, stamp, true);
    EveryRowListed(e.db.rows);
  }
}
