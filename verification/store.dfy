/** An IndexedDB object store declared with `keyPath: 'id', autoIncrement: true`
    (services/db.ts), as a value: the records by key plus the key generator's
    next key. The generator starts at 1 and only ever grows, so a key is never
    handed out twice, even after its record was deleted. */
module Store {

  /** A record together with the key the store assigned to it; `getAll`
      returns records with their `id` property filled in. */
  datatype Keyed<T> = Keyed(id: nat, value: T)

  datatype Store<T> = Store(records: map<nat, T>, next: nat) {

    /** Every stored key was produced by the generator. */
    predicate Valid() {
      next >= 1 && forall k :: k in records ==> 1 <= k < next
    }
  }

  /** A freshly created store. */
  function Empty<T>(): (s: Store<T>)
    ensures s.Valid() && s.records == map[]
  {
    Store(map[], 1)
  }

  /** `store.add(record)`: the record is stored under a key no existing record
      has, and the generator moves past that key. Result: the new store and
      the key. */
  function Add<T>(s: Store<T>, v: T): (r: (Store<T>, nat))
    requires s.Valid()
    ensures r.0.Valid()
    ensures r.1 !in s.records && r.1 in r.0.records && r.0.records[r.1] == v
    ensures r.0.records - {r.1} == s.records
    ensures |r.0.records| == |s.records| + 1
    ensures r.1 < r.0.next && s.next <= r.1
  {
    var id := s.next;
    var m := s.records[id := v];
    assert m - {id} == s.records;
    (Store(m, id + 1), id)
  }

  /** `store.delete(id)`: removes the record with that key; deleting a key
      that is not there changes nothing and is not an error. */
  function Delete<T>(s: Store<T>, id: nat): (r: Store<T>)
    requires s.Valid()
    ensures r.Valid() && r.next == s.next
    ensures id !in r.records
    ensures forall k :: k in r.records <==> k in s.records && k != id
    ensures forall k :: k in r.records ==> r.records[k] == s.records[k]
    ensures id !in s.records ==> r == s
  {
    if id in s.records then Store(s.records - {id}, s.next) else s
  }

  /** Two adds of the same value give two distinct records: there is no
      deduplication. */
  lemma {:induction false} AddTwiceKeepsBoth<T>(s: Store<T>, v: T)
    requires s.Valid()
    ensures var (s1, id1) := Add(s, v);
            var (s2, id2) := Add(s1, v);
            id1 != id2 && id1 in s2.records && id2 in s2.records
            && |s2.records| == |s.records| + 2
  {
  }

  /** Deleting an absent key is harmless and deleting twice is deleting once. */
  lemma DeleteIdempotent<T>(s: Store<T>, id: nat)
    requires s.Valid()
    ensures Delete(Delete(s, id), id) == Delete(s, id)
  {
  }

  // ----- getAll -----

  /** The ids of a snapshot. */
  function Ids<T>(s: seq<Keyed<T>>): set<nat> {
    set j | 0 <= j < |s| :: s[j].id
  }

  /** Keys strictly increase along the snapshot. */
  predicate Increasing<T>(s: seq<Keyed<T>>) {
    forall i, j :: 0 <= i < j < |s| ==> s[i].id < s[j].id
  }

  /** The records with keys in [lo, hi), in ascending key order. */
  function Scan<T>(m: map<nat, T>, lo: nat, hi: nat): (r: seq<Keyed<T>>)
    decreases hi - lo
    ensures Increasing(r)
    ensures forall j :: 0 <= j < |r| ==> lo <= r[j].id < hi && r[j].id in m && r[j].value == m[r[j].id]
    ensures forall k :: lo <= k < hi && k in m ==> k in Ids(r)
  {
    if lo >= hi then []
    else
      var rest := Scan(m, lo + 1, hi);
      if lo in m then
        ScanCons(m, lo, hi, rest);
        [Keyed(lo, m[lo])] + rest
      else rest
  }

  /** The step of `Scan`: the record at `lo` in front of the scan of
      (lo, hi) is the scan of [lo, hi). */
  lemma ScanCons<T>(m: map<nat, T>, lo: nat, hi: nat, rest: seq<Keyed<T>>)
    requires lo < hi && lo in m
    requires Increasing(rest)
    requires forall j :: 0 <= j < |rest| ==> lo + 1 <= rest[j].id < hi && rest[j].id in m && rest[j].value == m[rest[j].id]
    requires forall k :: lo + 1 <= k < hi && k in m ==> k in Ids(rest)
    ensures var r := [Keyed(lo, m[lo])] + rest;
            && Increasing(r)
            && (forall j :: 0 <= j < |r| ==> lo <= r[j].id < hi && r[j].id in m && r[j].value == m[r[j].id])
            && (forall k :: lo <= k < hi && k in m ==> k in Ids(r))
  {
    var r := [Keyed(lo, m[lo])] + rest;
    IdsCons(Keyed(lo, m[lo]), rest);
    assert forall j :: 0 < j < |r| ==> r[j] == rest[j - 1];
  }

  /** Prepending an entry adds its key to the snapshot's ids. */
  lemma IdsCons<T>(x: Keyed<T>, rest: seq<Keyed<T>>)
    ensures Ids([x] + rest) == {x.id} + Ids(rest)
  {
    var r := [x] + rest;
    forall k | k in Ids(rest) ensures k in Ids(r) {
      var j :| 0 <= j < |rest| && rest[j].id == k;
      assert r[j + 1] == rest[j];
    }
    assert r[0] == x;
  }

  /** `store.getAll()`: every record with its key, in ascending key order
      (IndexedDB returns records in key order). */
  function GetAll<T>(s: Store<T>): (r: seq<Keyed<T>>)
    requires s.Valid()
    ensures Increasing(r)
    ensures Ids(r) == s.records.Keys
    ensures forall j :: 0 <= j < |r| ==> r[j].id in s.records && r[j].value == s.records[r[j].id]
  {
    Scan(s.records, 1, s.next)
  }

  /** An increasing snapshot has distinct ids. */
  lemma IncreasingDistinct<T>(s: seq<Keyed<T>>, i: nat, j: nat)
    requires Increasing(s) && i < |s| && j < |s| && s[i].id == s[j].id
    ensures i == j
  {
  }

  /** The entries of `s` whose key is not in `gone`, in order. */
  function Without<T>(s: seq<Keyed<T>>, gone: set<nat>): (r: seq<Keyed<T>>)
    ensures |r| <= |s|
  {
    if |s| == 0 then []
    else (if s[0].id in gone then [] else [s[0]]) + Without(s[1..], gone)
  }

  /** Removing a set of keys from the store removes exactly those entries
      from its snapshot and keeps the others in order. */
  lemma {:induction false} ScanWithout<T>(m: map<nat, T>, gone: set<nat>, lo: nat, hi: nat)
    ensures Scan(m - gone, lo, hi) == Without(Scan(m, lo, hi), gone)
    decreases hi - lo
  {
    if lo < hi {
      ScanWithout(m, gone, lo + 1, hi);
      var rest := Scan(m, lo + 1, hi);
      if lo in m {
        var r := [Keyed(lo, m[lo])] + rest;
        assert r[1..] == rest;
      }
    }
  }
}
