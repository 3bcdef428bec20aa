/**
 * The favorites service: a set of favorited event ids held in memory and
 * mirrored under one fixed key of the browser's string-keyed storage.
 *
 * A JavaScript `Set` iterates in insertion order, and `[...set]` is what gets
 * written, so the in-memory set is kept as a sequence without duplicates:
 * adding appends, deleting removes in place, and the stored array is that
 * sequence exactly.
 */
module Favorites {
  import opened Wrappers
  import Json

  const StorageKey: string := "favorites"

  predicate NoDuplicates(s: seq<string>) {
    forall i, j :: 0 <= i < j < |s| ==> s[i] != s[j]
  }

  lemma ConsDistinct(a: string, t: seq<string>)
    requires NoDuplicates(t) && a !in t
    ensures NoDuplicates([a] + t)
  {
    var r := [a] + t;
    forall i, j | 0 <= i < j < |r| ensures r[i] != r[j] {
      if i == 0 { assert r[j] == t[j - 1]; } else { assert r[i] == t[i - 1] && r[j] == t[j - 1]; }
    }
  }

  /** `set.delete(x)` on an insertion-ordered set: every other element keeps its place. */
  function Remove(s: seq<string>, x: string): (r: seq<string>)
    ensures forall y :: y in r <==> y in s && y != x
  {
    if s == [] then []
    else if s[0] == x then Remove(s[1..], x)
    else [s[0]] + Remove(s[1..], x)
  }

  /** Removing from a set leaves a set. */
  lemma {:induction false} RemoveDistinct(s: seq<string>, x: string)
    requires NoDuplicates(s)
    ensures NoDuplicates(Remove(s, x))
  {
    if s != [] {
      RemoveDistinct(s[1..], x);
      if s[0] != x {
        ConsDistinct(s[0], Remove(s[1..], x));
      }
    }
  }

  /** Removing an element that is not there changes nothing. */
  lemma {:induction false} RemoveAbsent(s: seq<string>, x: string)
    requires x !in s
    ensures Remove(s, x) == s
  {
    if s != [] {
      RemoveAbsent(s[1..], x);
      assert [s[0]] + s[1..] == s;
    }
  }

  /** Appending an element and removing it again gives back the original sequence. */
  lemma {:induction false} RemoveAppended(s: seq<string>, x: string)
    requires x !in s
    ensures Remove(s + [x], x) == s
  {
    if s == [] {
      assert [] + [x] == [x];
    } else {
      assert (s + [x])[1..] == s[1..] + [x];
      RemoveAppended(s[1..], x);
      assert [s[0]] + s[1..] == s;
    }
  }

  /** `new Set(array)`: the first occurrence of each element, in order. */
  function Dedup(s: seq<string>): (r: seq<string>)
    ensures NoDuplicates(r)
    ensures forall y :: y in r <==> y in s
  {
    if s == [] then []
    else
      var rest := Remove(Dedup(s[1..]), s[0]);
      RemoveDistinct(Dedup(s[1..]), s[0]);
      ConsDistinct(s[0], rest);
      [s[0]] + rest
  }

  /** An array without repeated ids becomes a set in the same order. */
  lemma {:induction false} DedupDistinct(s: seq<string>)
    requires NoDuplicates(s)
    ensures Dedup(s) == s
  {
    if s != [] {
      assert NoDuplicates(s[1..]);
      DedupDistinct(s[1..]);
      assert s[0] !in s[1..];
      RemoveAbsent(s[1..], s[0]);
      assert [s[0]] + s[1..] == s;
    }
  }

  /**
   * The set after `toggle(id)`: `id` deleted when present, appended when not.
   */
  function Toggled(s: seq<string>, id: string): (r: seq<string>)
    ensures id in r <==> id !in s
    ensures forall x :: x != id ==> (x in r <==> x in s)
  {
    if id in s then Remove(s, id) else s + [id]
  }

  /** `toggle(id)` flips the membership of `id` and of nothing else. */
  lemma ToggledMembership(s: seq<string>, id: string)
    requires NoDuplicates(s)
    ensures NoDuplicates(Toggled(s, id))
    ensures id in Toggled(s, id) <==> id !in s
    ensures forall x :: x != id ==> (x in Toggled(s, id) <==> x in s)
  {
    if id in s {
      RemoveDistinct(s, id);
    } else {
      var r := s + [id];
      forall i, j | 0 <= i < j < |r| ensures r[i] != r[j] {
        if j == |s| { assert r[i] == s[i]; }
      }
    }
  }

  /**
   * Toggling the same id twice gives back the same set; when the id was
   * absent the order is restored too (when present it moves to the end).
   */
  lemma ToggleTwice(s: seq<string>, id: string)
    requires NoDuplicates(s)
    ensures forall x :: x in Toggled(Toggled(s, id), id) <==> x in s
    ensures id !in s ==> Toggled(Toggled(s, id), id) == s
  {
    ToggledMembership(s, id);
    ToggledMembership(Toggled(s, id), id);
    if id !in s {
      RemoveAppended(s, id);
    }
  }

  /** What `localStorage.getItem` gave: the stored text or null, or an exception. */
  datatype ReadResult = Read(value: Option<string>) | ReadThrew

  /**
   * `loadFromStorage` after the read: a missing key, an empty text, a text
   * that is not a JSON array of strings and a read that threw all give the
   * empty set; otherwise the parsed array becomes a set.
   */
  function Restore(raw: ReadResult): (r: seq<string>)
    ensures NoDuplicates(r)
  {
    match raw
    case ReadThrew => []
    case Read(None) => []
    case Read(Some(text)) =>
      if text == "" then []
      else
        match Json.Decode(text)
        case None => []
        case Some(ids) => Dedup(ids)
  }

  /** Every way the stored value can be unusable falls back to the empty set. */
  lemma RestoreFallsBack(raw: ReadResult)
    requires || raw == ReadThrew
             || raw == Read(None)
             || raw == Read(Some(""))
             || (raw.Read? && raw.value.Some? && Json.Decode(raw.value.value).None?)
    ensures Restore(raw) == []
  {
  }

  /** What `persist` writes is read back by `loadFromStorage` as the same set, in the same order. */
  lemma RestorePersisted(ids: seq<string>)
    requires NoDuplicates(ids)
    ensures Restore(Read(Some(Json.Encode(ids)))) == ids
  {
    Json.DecodeEncode(ids);
    DedupDistinct(ids);
  }

  /**
   * The browser's `localStorage`. Each of its operations may throw (storage
   * disabled, quota exceeded); whether it does is the environment's choice
   * and is fixed by the three flags.
   */
  class LocalStorage {
    var items: map<string, string>
    var canRead: bool
    var canWrite: bool
    var canRemove: bool

    constructor (items: map<string, string>, canRead: bool, canWrite: bool, canRemove: bool)
      ensures this.items == items && this.canRead == canRead
      ensures this.canWrite == canWrite && this.canRemove == canRemove
    {
      this.items := items;
      this.canRead := canRead;
      this.canWrite := canWrite;
      this.canRemove := canRemove;
    }

    /** What `getItem(key)` would give in the current state. */
    function Lookup(key: string): (r: ReadResult)
      reads this
      ensures r.Read? <==> canRead
      ensures r.Read? && r.value.Some? ==> key in items && r.value.value == items[key]
      ensures r.Read? && r.value.None? ==> key !in items
    {
      if !canRead then ReadThrew
      else if key in items then Read(Some(items[key]))
      else Read(None)
    }

    method GetItem(key: string) returns (r: ReadResult)
      ensures r == Lookup(key)
    {
      if !canRead {
        r := ReadThrew;
      } else if key in items {
        r := Read(Some(items[key]));
      } else {
        r := Read(None);
      }
    }

    /** `setItem`; `ok` is false when it threw, and then nothing was written. */
    method SetItem(key: string, value: string) returns (ok: bool)
      modifies this`items
      ensures ok == canWrite
      ensures items == if ok then old(items)[key := value] else old(items)
    {
      ok := canWrite;
      if ok {
        items := items[key := value];
      }
    }

    /** `removeItem`; `ok` is false when it threw, and then nothing was removed. */
    method RemoveItem(key: string) returns (ok: bool)
      modifies this`items
      ensures ok == canRemove
      ensures items == if ok then old(items) - {key} else old(items)
    {
      ok := canRemove;
      if ok {
        items := items - {key};
      }
    }
  }

  class FavoritesService {
    var favorites: seq<string>
    const storage: LocalStorage

    ghost predicate Valid()
      reads this
    {
      NoDuplicates(favorites)
    }

    /** The set the service holds. */
    ghost function Ids(): set<string>
      reads this
    {
      set id | id in favorites
    }

    /** The initial set is whatever `loadFromStorage` finds under the key. */
    constructor (storage: LocalStorage)
      ensures Valid()
      ensures this.storage == storage
      ensures favorites == Restore(storage.Lookup(StorageKey))
    {
      this.storage := storage;
      var raw := storage.GetItem(StorageKey);
      favorites := Restore(raw);
    }

    /** `isFavorite(id)`: membership in the set, reading nothing else. */
    function IsFavorite(id: string): (r: bool)
      reads this
      ensures r <==> id in Ids()
    {
      id in favorites
    }

    /**
     * Flips `id` in a copy of the set, installs the copy and persists it.
     * A failed write leaves storage as it was and raises nothing.
     */
    method Toggle(id: string)
      requires Valid()
      modifies this, storage`items
      ensures Valid()
      ensures favorites == Toggled(old(favorites), id)
      ensures storage.items == if storage.canWrite
                               then old(storage.items)[StorageKey := Json.Encode(favorites)]
                               else old(storage.items)
    {
      ToggledMembership(favorites, id);
      var next := favorites;
      if id in next {
        next := Remove(next, id);
      } else {
        next := next + [id];
      }
      favorites := next;
      Persist(next);
    }

    /** Writes the whole set as a JSON array; a failed write is swallowed. */
    method Persist(ids: seq<string>)
      modifies storage`items
      ensures storage.items == if storage.canWrite
                               then old(storage.items)[StorageKey := Json.Encode(ids)]
                               else old(storage.items)
    {
      var ok := storage.SetItem(StorageKey, Json.Encode(ids));
    }

    /**
     * Empties the set, then removes the key (no empty-array write). If
     * `removeItem` throws, the exception escapes: `escaped` reports it, and
     * the set is empty all the same.
     */
    method Clear() returns (escaped: bool)
      modifies this, storage`items
      ensures Valid() && favorites == []
      ensures escaped == !storage.canRemove
      ensures storage.items == if escaped then old(storage.items) else old(storage.items) - {StorageKey}
    {
      favorites := [];
      var ok := storage.RemoveItem(StorageKey);
      escaped := !ok;
    }
  }

  /**
   * A service toggles `id` with working storage; a second service built
   * afterwards from the same storage holds the same set, so both answer
   * `isFavorite` alike for every id.
   */
  method ReloadAfterToggle(storage: LocalStorage, id: string)
    returns (first: FavoritesService, second: FavoritesService)
    requires storage.canRead && storage.canWrite
    modifies storage`items
    ensures first.storage == storage && second.storage == storage
    ensures second.favorites == first.favorites
    ensures forall x :: second.IsFavorite(x) == first.IsFavorite(x)
  {
    first := new FavoritesService(storage);
    first.Toggle(id);
    RestorePersisted(first.favorites);
    second := new FavoritesService(storage);
  }
}
