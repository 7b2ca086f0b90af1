/** SearchContextCache: the "sequence/asyncId" entries a search context
    keeps in a remote store and in a local cache, and the lookup that
    decides whether a request may reuse an Elasticsearch async search. The
    local cache may drop any entry at any time (expiry and eviction). */
module SearchContextCache {
  import opened Wrappers
  import opened Text

  const INVALID_SEQUENCE := "invalid_sequence"

  /** The remote (Redis) map and the local cache. */
  datatype Cache = Cache(remote: map<string, string>, local: map<string, string>)

  /** Every locally cached entry agrees with the remote store. */
  predicate Coherent(c: Cache) {
    forall k :: k in c.local ==> k in c.remote && c.local[k] == c.remote[k]
  }

  /** The stored value `sequence + "/" + esAsyncId`. */
  function Entry(sequence: Option<int>, esAsyncId: Option<string>): string {
    NullableText(if sequence.Some? then Some(IntToString(sequence.value)) else None) + "/" + NullableText(esAsyncId)
  }

  /** The cache after a write, and whether the remote store threw; the
      exception then reaches the caller. */
  datatype Written = Written(cache: Cache, thrown: bool)

  /** `put`: the entry goes to the remote store, then to the local cache.
      A throwing remote store (`remoteFails`) leaves both maps as they
      were, since the local write comes after it. */
  function Put(c: Cache, key: string, sequence: Option<int>, esAsyncId: Option<string>, remoteFails: bool): (r: Written)
    ensures r.thrown <==> remoteFails
    ensures remoteFails ==> r.cache == c
    ensures !remoteFails ==> r.cache.remote == c.remote[key := Entry(sequence, esAsyncId)]
    ensures !remoteFails ==> r.cache.local == c.local[key := Entry(sequence, esAsyncId)]
    ensures Coherent(c) ==> Coherent(r.cache)
  {
    if remoteFails then Written(c, true)
    else
      var v := Entry(sequence, esAsyncId);
      Written(Cache(c.remote[key := v], c.local[key := v]), false)
  }

  /** `remove`: the key leaves the local cache, then the remote store. A
      throwing remote store (`remoteFails`) keeps its entry, while the local
      one is already gone. */
  function Remove(c: Cache, key: string, remoteFails: bool): (r: Written)
    ensures r.thrown <==> remoteFails
    ensures key !in r.cache.local
    ensures remoteFails ==> r.cache.remote == c.remote
    ensures !remoteFails ==> key !in r.cache.remote
    ensures forall k :: k != key ==> (k in r.cache.remote <==> k in c.remote) && (k in r.cache.local <==> k in c.local)
    ensures Coherent(c) ==> Coherent(r.cache)
  {
    var local := c.local - {key};
    if remoteFails then Written(Cache(c.remote, local), true)
    else Written(Cache(c.remote - {key}, local), false)
  }

  /** The local cache forgetting a key on its own. */
  function Forget(c: Cache, key: string): (r: Cache)
    ensures r.remote == c.remote && key !in r.local
    ensures Coherent(c) ==> Coherent(r)
  {
    Cache(c.remote, c.local - {key})
  }

  /** `get`: the local entry if there is one, else the remote one. A failing
      remote store reads as null. */
  function Get(c: Cache, key: string, remoteFails: bool): (r: Option<string>)
    ensures key in c.local ==> r == Some(c.local[key])
    ensures key !in c.local && remoteFails ==> r == None
    ensures key !in c.local && !remoteFails ==> (r.Some? <==> key in c.remote)
  {
    if key in c.local then Some(c.local[key])
    else if remoteFails then None
    else if key in c.remote then Some(c.remote[key])
    else None
  }

  /** While the remote store answers, a coherent cache reads as the remote
      store whatever the local cache has forgotten. */
  lemma GetIsRemote(c: Cache, key: string)
    requires Coherent(c)
    ensures Get(c, key, false) == (if key in c.remote then Some(c.remote[key]) else None)
  {
  }

  /** `getESAsyncSearchIdFromContextCache` on the cached value: null unless
      the value splits into exactly a sequence and an id; then the id when
      the request is later, "invalid_sequence" when it is earlier, null when
      it is the same. A non-numeric sequence part throws. */
  function AsyncSearchId(cached: Option<string>, sequence: Option<int>): (r: Result<Option<string>>)
    ensures cached.None? || sequence.None? ==> r == Success(None)
    ensures cached.Some? && |Split(cached.value, '/')| != 2 ==> r == Success(None)
    ensures r.Failure? ==> r.error == NumberFormat
    ensures r.Success? && r.value.Some? ==> cached.Some? && sequence.Some?
    ensures (cached.Some? && sequence.Some? && |Split(cached.value, '/')| == 2
             && ParseInt(Split(cached.value, '/')[0]).Success?) ==> (
              var parts := Split(cached.value, '/');
              var stored := ParseInt(parts[0]).value;
              && (sequence.value > stored ==> r == Success(Some(parts[1])))
              && (sequence.value < stored ==> r == Success(Some(INVALID_SEQUENCE)))
              && (sequence.value == stored ==> r == Success(None)))
  {
    if cached.None? || sequence.None? then Success(None)
    else
      var parts := Split(cached.value, '/');
      if |parts| != 2 then Success(None)
      else
        var stored :- ParseInt(parts[0]);
        if sequence.value > stored then Success(Some(parts[1]))
        else if sequence.value < stored then Success(Some(INVALID_SEQUENCE))
        else Success(None)
  }

  /** The whole lookup: read the cache, then decide. On a coherent cache
      whose remote store answers, the decision is the one on the remote
      entry, whatever the local cache holds; a key in neither map, or a
      failing remote store without a local entry, gives null. */
  function GetESAsyncSearchId(c: Cache, key: string, sequence: Option<int>, remoteFails: bool): (r: Result<Option<string>>)
    ensures Get(c, key, remoteFails).None? ==> r == Success(None)
    ensures key !in c.local && (remoteFails || key !in c.remote) ==> r == Success(None)
    ensures Coherent(c) && !remoteFails ==>
      r == AsyncSearchId(if key in c.remote then Some(c.remote[key]) else None, sequence)
    ensures r.Failure? ==> r.error == NumberFormat
  {
    AsyncSearchId(Get(c, key, remoteFails), sequence)
  }

  /** Round trip: after `put(key, s, id)` with an id that is non-empty and
      free of '/', a later request on a coherent cache gets the id back,
      an earlier one gets "invalid_sequence", and the same one gets null,
      even after the local cache has forgotten the key. */
  lemma PutThenLookup(c: Cache, key: string, s: int, id: string, q: int, forgotten: bool)
    requires Coherent(c) && IsInt32(s)
    requires id != "" && '/' !in id
    ensures var c1 := Put(c, key, Some(s), Some(id), false).cache;
            var c2 := if forgotten then Forget(c1, key) else c1;
            var r := GetESAsyncSearchId(c2, key, Some(q), false);
      && (q > s ==> r == Success(Some(id)))
      && (q < s ==> r == Success(Some(INVALID_SEQUENCE)))
      && (q == s ==> r == Success(None))
  {
    var c1 := Put(c, key, Some(s), Some(id), false).cache;
    var c2 := if forgotten then Forget(c1, key) else c1;
    var digits := IntToString(s);
    var v := Entry(Some(s), Some(id));
    assert v == digits + ['/'] + id;
    SplitTwo(digits, id, '/');
    ParseIntToString(s);
    GetIsRemote(c2, key);
    assert Get(c2, key, false) == Some(v);
  }

  /** An empty id is lost: the stored value splits into one part only, so
      the lookup answers null for every sequence. */
  lemma EmptyIdIsLost(c: Cache, key: string, s: int, q: int)
    requires Coherent(c)
    ensures GetESAsyncSearchId(Put(c, key, Some(s), Some(""), false).cache, key, Some(q), false) == Success(None)
  {
    var digits := IntToString(s);
    var v := Entry(Some(s), Some(""));
    assert v == digits + "/";
    assert '/' in v by { assert v[|digits|] == '/'; }
    assert digits + ['/'] + "" == v;
    SegmentsConcat(digits, "", '/');
    SegmentsNoSep(digits, '/');
    assert Segments(v, '/') == [digits, ""];
    assert DropTrailingEmpty([digits, ""]) == DropTrailingEmpty([digits]);
    assert Split(v, '/') == [digits];
  }

  /** A remove whose remote half throws does not end the search context:
      once the local cache has dropped the key, a later lookup reads the
      stale remote entry, and a failed put leaves the previous entry in
      force. */
  lemma FailedWritesKeepRemote(c: Cache, key: string, s: int, id: string, q: Option<int>)
    requires Coherent(c)
    ensures GetESAsyncSearchId(Remove(c, key, true).cache, key, q, false) == GetESAsyncSearchId(c, key, q, false)
    ensures GetESAsyncSearchId(Put(c, key, Some(s), Some(id), true).cache, key, q, false) == GetESAsyncSearchId(c, key, q, false)
  {
  }
}
