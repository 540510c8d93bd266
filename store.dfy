/**
 * The registry's two in-memory dictionaries, as an insertion-ordered table
 * from a service id to its record, and the four things the handlers do to
 * one: insert-or-replace (register), drop the expired records (list), look
 * a key up (get) and refresh a record's last-seen time (heartbeat).
 *
 * A dictionary keeps its keys in first-insertion order: assigning to a key
 * that is already present keeps its position, and popping a key removes
 * it. `ids` is that order, `entries` the key-to-record map.
 */
module Store {
  import opened Services

  predicate Distinct(s: seq<string>) {
    forall i, j :: 0 <= i < j < |s| ==> s[i] != s[j]
  }

  lemma DistinctSnoc(s: seq<string>, x: string)
    requires Distinct(s) && x !in s
    ensures Distinct(s + [x])
  {
  }

  /** The keys of `ids`, in order, except those in `gone`. */
  function DropIds(ids: seq<string>, gone: set<string>): (r: seq<string>)
    ensures forall k :: k in r <==> k in ids && k !in gone
    ensures |r| <= |ids|
  {
    if ids == [] then []
    else
      var p, last := ids[..|ids| - 1], ids[|ids| - 1];
      assert ids == p + [last];
      DropIds(p, gone) + (if last in gone then [] else [last])
  }

  lemma DropIdsSnoc(p: seq<string>, x: string, gone: set<string>)
    ensures DropIds(p + [x], gone) == DropIds(p, gone) + (if x in gone then [] else [x])
  {
    assert (p + [x])[..|p|] == p;
  }

  lemma {:induction false} DropIdsDistinct(ids: seq<string>, gone: set<string>)
    requires Distinct(ids)
    ensures Distinct(DropIds(ids, gone))
  {
    if ids != [] {
      var p, last := ids[..|ids| - 1], ids[|ids| - 1];
      assert ids == p + [last];
      DropIdsDistinct(p, gone);
      DropIdsSnoc(p, last, gone);
      if last !in gone {
        DistinctSnoc(DropIds(p, gone), last);
      }
    }
  }

  /** Dropping `a` and then `b` is dropping both at once. */
  lemma {:induction false} DropIdsTwice(ids: seq<string>, a: set<string>, b: set<string>)
    ensures DropIds(DropIds(ids, a), b) == DropIds(ids, a + b)
  {
    if ids != [] {
      var p, last := ids[..|ids| - 1], ids[|ids| - 1];
      assert ids == p + [last];
      DropIdsTwice(p, a, b);
      DropIdsSnoc(p, last, a);
      DropIdsSnoc(p, last, a + b);
      var q := DropIds(p, a);
      if last in a {
        assert DropIds(ids, a) == q;
        assert DropIds(ids, a + b) == DropIds(p, a + b);
      } else {
        assert DropIds(ids, a) == q + [last];
        DropIdsSnoc(q, last, b);
        assert (last in b) == (last in a + b);
      }
    }
  }

  /** The records stored under `ids`, in that order. */
  function ValuesOf<X>(ids: seq<string>, m: map<string, Service<X>>): (r: seq<Service<X>>)
    requires forall k :: k in ids ==> k in m
    ensures |r| == |ids|
  {
    seq(|ids|, i requires 0 <= i < |ids| => m[ids[i]])
  }

  lemma ValuesOfSnoc<X>(p: seq<string>, x: string, m: map<string, Service<X>>)
    requires forall k :: k in p + [x] ==> k in m
    ensures ValuesOf(p + [x], m) == ValuesOf(p, m) + [m[x]]
  {
  }

  /** The records of `s`, in order, that are not expired at `now`. */
  function LiveOnly<X>(s: seq<Service<X>>, now: int): (r: seq<Service<X>>)
    ensures forall i :: 0 <= i < |r| ==> r[i] in s && !Expired(r[i], now)
    ensures forall i :: 0 <= i < |s| && !Expired(s[i], now) ==> s[i] in r
    ensures |r| <= |s|
  {
    if s == [] then []
    else
      var p, last := s[..|s| - 1], s[|s| - 1];
      assert s == p + [last];
      LiveOnly(p, now) + (if Expired(last, now) then [] else [last])
  }

  /**
   * The keys of `ids`, in order, whose records are expired at `now`: the
   * list of ids the list handlers collect before popping them.
   */
  function ExpiredIds<X>(ids: seq<string>, m: map<string, Service<X>>, now: int): (r: seq<string>)
    requires forall k :: k in ids ==> k in m
    ensures forall k :: k in r <==> k in ids && Expired(m[k], now)
  {
    if ids == [] then []
    else
      var p, last := ids[..|ids| - 1], ids[|ids| - 1];
      assert ids == p + [last];
      ExpiredIds(p, m, now) + (if Expired(m[last], now) then [last] else [])
  }

  datatype Table<X> = Table(ids: seq<string>, entries: map<string, Service<X>>) {

    /**
     * Each key appears once in the order, the order lists exactly the
     * stored keys, and each record is stored under its own id.
     */
    ghost predicate Valid() {
      && Distinct(ids)
      && (forall k :: k in ids <==> k in entries)
      && (forall k :: k in entries ==> entries[k].base.id == k)
    }

    /** The stored records in iteration order (the dictionary's values()). */
    function Values(): (r: seq<Service<X>>)
      requires Valid()
    {
      ValuesOf(ids, entries)
    }

    /** Assigning `r` under its own id: a new key goes to the end, an existing key keeps its place. */
    function Put(r: Service<X>): (t: Table<X>)
      requires Valid()
      ensures t.Valid()
      ensures t.entries.Keys == entries.Keys + {r.base.id}
      ensures t.entries[r.base.id] == r
      ensures forall k :: k in entries && k != r.base.id ==> t.entries[k] == entries[k]
    {
      var id := r.base.id;
      if id in entries then Table(ids, entries[id := r])
      else
        DistinctSnoc(ids, id);
        Table(ids + [id], entries[id := r])
    }

    /** Popping every key of `gone`; keys that are absent are ignored. */
    function Drop(gone: set<string>): (t: Table<X>)
      requires Valid()
      ensures t.Valid()
      ensures t.entries.Keys == entries.Keys - gone
      ensures forall k :: k in t.entries ==> t.entries[k] == entries[k]
    {
      DropIdsDistinct(ids, gone);
      Table(DropIds(ids, gone), entries - gone)
    }

    /** The keys whose records are expired at `now`. */
    function ExpiredKeys(now: int): (e: set<string>)
      ensures forall k :: k in e <==> k in entries && Expired(entries[k], now)
    {
      set k | k in entries && Expired(entries[k], now)
    }

    /**
     * Expiry only grows with time: every key expired at `earlier` is still
     * expired at any later time, and the stored keys bound the expired ones.
     */
    lemma ExpiredKeysGrow(earlier: int, later: int)
      requires earlier <= later
      ensures ExpiredKeys(earlier) <= ExpiredKeys(later) <= entries.Keys
    {
      forall k | k in ExpiredKeys(earlier)
        ensures k in ExpiredKeys(later)
      {
        assert later - entries[k].base.lastSeen >= earlier - entries[k].base.lastSeen;
      }
    }

    /** The table after the eviction pass of a list request at `now`. */
    function Evict(now: int): (t: Table<X>)
      requires Valid()
      ensures t.Valid()
      ensures forall k :: k in t.entries <==> k in entries && now - entries[k].base.lastSeen <= SERVICE_EXPIRATION
      ensures forall k :: k in t.entries ==> t.entries[k] == entries[k]
    {
      Drop(ExpiredKeys(now))
    }

    /** The record stored under `id`, or a 404 carrying `notFound`. */
    function Lookup(id: string, notFound: string): (r: Result<Service<X>>)
      requires Valid()
      ensures r.Success? <==> id in entries
      ensures r.Success? ==> r.value == entries[id] && r.value.base.id == id
      ensures r.Failure? ==> r.error == HttpError(HTTP_NOT_FOUND, notFound)
    {
      if id !in entries then Failure(HttpError(HTTP_NOT_FOUND, notFound))
      else Success(entries[id])
    }

    /** The stored record `id` with its last-seen time set to `now`. */
    function Touch(id: string, now: int): (t: Table<X>)
      requires Valid() && id in entries
      ensures t.Valid()
      ensures t.ids == ids && t.entries.Keys == entries.Keys
      ensures t.entries[id].base.lastSeen == now && !Expired(t.entries[id], now)
      ensures t.entries[id].ext == entries[id].ext
      ensures t.entries[id].base.(lastSeen := entries[id].base.lastSeen) == entries[id].base
      ensures forall k :: k in entries && k != id ==> t.entries[k] == entries[k]
    {
      Table(ids, entries[id := Stamp(entries[id], now)])
    }
  }

  function EmptyTable<X>(): (t: Table<X>)
    ensures t.Valid() && t.entries == map[] && t.Values() == []
  {
    Table([], map[])
  }

  lemma {:induction false} DropIdsNone(ids: seq<string>)
    ensures DropIds(ids, {}) == ids
  {
    if ids != [] {
      var p, last := ids[..|ids| - 1], ids[|ids| - 1];
      assert ids == p + [last];
      DropIdsNone(p);
    }
  }

  /** Dropping no key leaves the table as it is. */
  lemma DropNone<X>(t: Table<X>)
    requires t.Valid()
    ensures t.Drop({}) == t
  {
    DropIdsNone(t.ids);
    assert t.Drop({}).entries == t.entries;
  }

  /** Removing the keys `a` and then `b` from a map is removing both at once. */
  lemma RemoveTwice<X>(m: map<string, Service<X>>, a: set<string>, b: set<string>)
    ensures m - a - b == m - (a + b)
  {
  }

  /** Dropping `a` and then `b` is dropping both at once. */
  lemma DropTwice<X>(t: Table<X>, a: set<string>, b: set<string>)
    requires t.Valid()
    ensures t.Drop(a).Drop(b) == t.Drop(a + b)
  {
    DropIdsTwice(t.ids, a, b);
    RemoveTwice(t.entries, a, b);
  }

  /** Popping the keys of `s` one at a time, in order. */
  function PopEach<X>(t: Table<X>, s: seq<string>): (r: Table<X>)
    requires t.Valid()
    ensures r.Valid()
  {
    if s == [] then t else PopEach(t, s[..|s| - 1]).Drop({s[|s| - 1]})
  }

  lemma KeysSnoc(p: seq<string>, x: string)
    ensures (set k | k in p + [x]) == (set k | k in p) + {x}
  {
  }

  /** Popping keys one at a time is dropping the set of them at once. */
  lemma {:induction false} PopEachIsDrop<X>(t: Table<X>, s: seq<string>)
    requires t.Valid()
    ensures PopEach(t, s) == t.Drop(set k | k in s)
  {
    if s == [] {
      DropNone(t);
      assert (set k | k in s) == {};
    } else {
      var p, last := s[..|s| - 1], s[|s| - 1];
      assert s == p + [last];
      var g := set k | k in p;
      PopEachIsDrop(t, p);
      assert PopEach(t, s) == t.Drop(g).Drop({last});
      DropTwice(t, g, {last});
      KeysSnoc(p, last);
    }
  }

  /** Every stored record is listed by Values() and nothing else is. */
  lemma ValuesAreStored<X>(t: Table<X>)
    requires t.Valid()
    ensures forall s :: s in t.Values() <==> s in t.entries.Values
  {
    var v := t.Values();
    forall s | s in t.entries.Values
      ensures s in v
    {
      var k :| k in t.entries && t.entries[k] == s;
      var i :| 0 <= i < |t.ids| && t.ids[i] == k;
      assert v[i] == s;
    }
  }

  lemma {:induction false} DropExpiredValues<X>(
    ids: seq<string>, m: map<string, Service<X>>, m': map<string, Service<X>>, gone: set<string>, now: int)
    requires forall k :: k in ids ==> k in m
    requires forall k :: k in ids ==> (k in gone <==> Expired(m[k], now))
    requires forall k :: k in ids && k !in gone ==> k in m' && m'[k] == m[k]
    ensures ValuesOf(DropIds(ids, gone), m') == LiveOnly(ValuesOf(ids, m), now)
  {
    if ids != [] {
      var p, last := ids[..|ids| - 1], ids[|ids| - 1];
      assert ids == p + [last];
      DropExpiredValues(p, m, m', gone, now);
      DropIdsSnoc(p, last, gone);
      ValuesOfSnoc(p, last, m);
      var v := ValuesOf(ids, m);
      assert v[..|v| - 1] == ValuesOf(p, m) && v[|v| - 1] == m[last];
      assert LiveOnly(v, now) == LiveOnly(ValuesOf(p, m), now) + (if Expired(m[last], now) then [] else [m[last]]);
      var d := DropIds(p, gone);
      if last in gone {
        assert DropIds(ids, gone) == d;
      } else {
        assert DropIds(ids, gone) == d + [last];
        ValuesOfSnoc(d, last, m');
      }
    }
  }

  /**
   * The records left after eviction, in iteration order, are exactly the
   * records that were not expired, in the order they had before.
   */
  lemma EvictValues<X>(t: Table<X>, now: int)
    requires t.Valid()
    ensures t.Evict(now).Values() == LiveOnly(t.Values(), now)
  {
    var e := t.Evict(now);
    DropExpiredValues(t.ids, t.entries, e.entries, t.ExpiredKeys(now), now);
  }
}
