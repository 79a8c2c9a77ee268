/**
  The first engine: a string-to-string map held in memory only. It is the
  reference behaviour the two log-structured engines are compared against.
*/
module PlainStore {
  import opened Errors

  datatype KvStore = KvStore(store: map<string, string>)

  /** `KvStore::new`: nothing is stored yet. */
  function New(): (s: KvStore)
    ensures forall k :: Get(s, k) == None
  {
    KvStore(map[])
  }

  /** `get`: the stored value, or `None` for a key that is not there. */
  function Get(s: KvStore, k: string): (r: Option<string>)
    ensures r.Some? <==> k in s.store
    ensures r.Some? ==> r.value == s.store[k]
  {
    if k in s.store then Some(s.store[k]) else None
  }

  /** `set`: afterwards `k` reads back as `v`, whatever it held before, and no other key changes. */
  function Set(s: KvStore, k: string, v: string): (r: KvStore)
    ensures Get(r, k) == Some(v)
    ensures forall k' :: k' != k ==> Get(r, k') == Get(s, k')
  {
    KvStore(s.store[k := v])
  }

  /** `remove`: afterwards `k` reads as `None`, no other key changes, and removing an absent key changes nothing. */
  function Remove(s: KvStore, k: string): (r: KvStore)
    ensures Get(r, k) == None
    ensures forall k' :: k' != k ==> Get(r, k') == Get(s, k')
    ensures Get(s, k) == None ==> r == s
  {
    KvStore(s.store - {k})
  }
}
