/**
  The stable-memory maps behind repositories/filesystem_repository.rs and
  repositories/chat_session_repository.rs, both keyed by chat id, as plain
  finite maps.
 */
module Repositories {
  import opened ChatIds

  type Store<V> = map<ChatId, V>

  /** The value handed out together with the store as left behind. */
  datatype Fetched<V> = Fetched(store: Store<V>, value: V)

  /**
    Get-or-create: the stored value when there is one; otherwise `default`,
    which is also stored for next time.
   */
  function GetOrCreate<V>(store: Store<V>, id: ChatId, default: V): (r: Fetched<V>)
    ensures id in store ==> r == Fetched(store, store[id])
    ensures id !in store ==> r.value == default
    ensures id in r.store && r.store[id] == r.value
    ensures r.store.Keys == store.Keys + {id}
    ensures forall other :: other in store && other != id ==> r.store[other] == store[other]
  {
    if id in store then Fetched(store, store[id])
    else Fetched(store[id := default], default)
  }

  /** `insert`: overwrites the entry of `id` and no other. */
  function Set<V>(store: Store<V>, id: ChatId, v: V): (r: Store<V>)
    ensures id in r && r[id] == v
    ensures r.Keys == store.Keys + {id}
    ensures forall other :: other in store && other != id ==> r[other] == store[other]
  {
    store[id := v]
  }

  /** A second get-or-create hands out the same value and leaves the store alone. */
  lemma GetOrCreateIdempotent<V>(store: Store<V>, id: ChatId, default: V)
    ensures var first := GetOrCreate(store, id, default);
      GetOrCreate(first.store, id, default) == first
  {
  }

  /** What was last set is what is got. */
  lemma GetAfterSet<V>(store: Store<V>, id: ChatId, v: V, default: V)
    ensures GetOrCreate(Set(store, id, v), id, default) == Fetched(Set(store, id, v), v)
  {
  }

  /** Setting the value just fetched leaves the store as the fetch left it. */
  lemma SetFetchedValue<V>(store: Store<V>, id: ChatId, default: V)
    ensures var f := GetOrCreate(store, id, default);
      Set(f.store, id, f.value) == f.store
  {
    var f := GetOrCreate(store, id, default);
    assert Set(f.store, id, f.value) == f.store;
  }

  /** Setting a value after a get-or-create leaves what setting it on the original store would. */
  lemma SetAfterGetOrCreate<V>(store: Store<V>, id: ChatId, default: V, v: V)
    ensures Set(GetOrCreate(store, id, default).store, id, v) == store[id := v]
  {
    var f := GetOrCreate(store, id, default);
    assert Set(f.store, id, v) == f.store[id := v];
  }
}
