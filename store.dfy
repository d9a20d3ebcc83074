/** The hosted `songs` table as the editor sees it: a map from id to row.
    Every call takes `succeeds`, the outcome the backend reports; a failed call
    changes nothing. Scoping rows to their owner happens inside the backend and
    is not part of this model. */
module Store {

  import opened Songs
  import opened Ordering

  datatype StoreError = Unavailable | DuplicateKey

  datatype Result<T> = Ok(value: T) | Err(error: StoreError)

  class SongTable {
    var rows: map<SongId, Song>

    ghost predicate Valid()
      reads this
    {
      WellKeyed(rows)
    }

    constructor (initial: map<SongId, Song>)
      requires WellKeyed(initial)
      ensures Valid() && rows == initial
    {
      rows := initial;
    }

    /** `.from("songs").select("*").order("updated_at", { ascending: false })` */
    method Select(succeeds: bool) returns (r: Result<seq<Song>>)
      ensures r.Ok? <==> succeeds
      ensures r.Err? ==> r.error == Unavailable
      ensures r.Ok? ==> r.value == OrderedRows(rows)
    {
      if !succeeds {
        return Err(Unavailable);
      }
      r := Ok(OrderedRows(rows));
    }

    /** `.insert({ user_id, title, lyrics, genre, mood }).select().single()`:
        the backend assigns `id` and both timestamps (`newId` and `now`). An id
        that is already taken violates the primary key and fails. */
    method Insert(owner: UserId, d: Draft, succeeds: bool, newId: SongId, now: int)
      returns (r: Result<Song>)
      requires Valid()
      modifies this
      ensures Valid()
      ensures r.Ok? <==> succeeds && newId !in old(rows)
      ensures r.Ok? ==> r.value == Created(newId, owner, d, now) && rows == old(rows)[newId := r.value]
      ensures r.Err? ==> rows == old(rows)
    {
      if !succeeds {
        return Err(Unavailable);
      }
      if newId in rows {
        return Err(DuplicateKey);
      }
      var s := Created(newId, owner, d, now);
      rows := rows[newId := s];
      r := Ok(s);
    }

    /** `.update({ title, lyrics, genre, mood }).eq("id", id)`: overwrites the
        four fields of the row with that id, if there is one, and nothing else;
        `stamp` is the `updated_at` the backend sets. Matching no row is not an
        error. */
    method Update(id: SongId, d: Draft, succeeds: bool, stamp: int) returns (done: bool)
      requires Valid()
      modifies this
      ensures Valid()
      ensures done == succeeds
      ensures done && id in old(rows) ==> rows == old(rows)[id := Revised(old(rows)[id], d, stamp)]
      ensures !(done && id in old(rows)) ==> rows == old(rows)
    {
      done := succeeds;
      if done && id in rows {
        rows := rows[id := Revised(rows[id], d, stamp)];
      }
    }

    /** `.delete().eq("id", id)`: removes the row with that id, if there is
        one. Matching no row is not an error. */
    method Delete(id: SongId, succeeds: bool) returns (done: bool)
      requires Valid()
      modifies this
      ensures Valid()
      ensures done == succeeds
      ensures rows == if done then old(rows) - {id} else old(rows)
    {
      done := succeeds;
      if done {
        rows := rows - {id};
      }
    }
  }
}
