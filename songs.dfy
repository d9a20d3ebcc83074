/** The persisted song record, the editable draft and the fixed genre and mood
    catalogues of the lyric editor (src/app/dashboard/editor/page.tsx). */
module Songs {

  type SongId = string
  type UserId = string

  /** One row of the `songs` table. Timestamps are comparable integers. */
  datatype Song = Song(
    id: SongId,
    owner: UserId,
    title: string,
    lyrics: string,
    genre: string,
    mood: string,
    createdAt: int,
    updatedAt: int)

  /** The four fields the editor lets the user change before saving. */
  datatype Draft = Draft(title: string, lyrics: string, genre: string, mood: string)

  const Genres: seq<string> := [
    "Pop", "Rock", "Hip-Hop", "Country", "Folk",
    "R&B", "Electronic", "Jazz", "Blues", "Alternative"]

  const Moods: seq<string> := [
    "Happy", "Sad", "Energetic", "Romantic", "Melancholic",
    "Uplifting", "Dark", "Peaceful", "Angry", "Nostalgic"]

  const DefaultTitle: string := "Untitled Song"
  const DefaultGenre: string := "Pop"
  const DefaultMood: string := "Happy"

  /** The draft of a fresh editor, of a new song and of a cleared session. */
  const DefaultDraft: Draft := Draft(DefaultTitle, "", DefaultGenre, DefaultMood)

  /** The editable part of a stored song. */
  function DraftOf(s: Song): Draft {
    Draft(s.title, s.lyrics, s.genre, s.mood)
  }

  /** A genre and a mood that the editor's two pickers can produce. */
  predicate InCatalogue(genre: string, mood: string) {
    genre in Genres && mood in Moods
  }

  predicate DraftInCatalogue(d: Draft) {
    InCatalogue(d.genre, d.mood)
  }

  predicate SongInCatalogue(s: Song) {
    InCatalogue(s.genre, s.mood)
  }

  /** Every row is stored under its own id. */
  predicate WellKeyed(rows: map<SongId, Song>) {
    forall k :: k in rows ==> rows[k].id == k
  }

  /** The record a successful insert of `d` creates. */
  function Created(id: SongId, owner: UserId, d: Draft, now: int): (s: Song)
    ensures s.id == id && s.owner == owner && DraftOf(s) == d
    ensures s.createdAt == now && s.updatedAt == now
  {
    Song(id, owner, d.title, d.lyrics, d.genre, d.mood, now, now)
  }

  /** The record a successful update with `d` leaves: the four editable fields
      are overwritten as a whole, the store stamps `updatedAt`. */
  function Revised(s: Song, d: Draft, stamp: int): (r: Song)
    ensures r.id == s.id && r.owner == s.owner && r.createdAt == s.createdAt
    ensures DraftOf(r) == d && r.updatedAt == stamp
  {
    s.(title := d.title, lyrics := d.lyrics, genre := d.genre, mood := d.mood, updatedAt := stamp)
  }

  lemma DefaultsInCatalogue()
    ensures DraftInCatalogue(DefaultDraft)
    ensures Genres[0] == DefaultGenre && Moods[0] == DefaultMood
  {
  }
}
