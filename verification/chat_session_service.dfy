/**
  services/chat_session_service.rs: each chat's session, created as the
  default session on first use.
 */
module ChatSessionServices {
  import opened Paths
  import opened ChatIds
  import opened ChatSessions
  import opened Repositories

  /** `get_or_create_chat_session`. */
  function GetOrCreateChatSession(store: Store<ChatSession>, id: ChatId): (r: Fetched<ChatSession>)
    ensures id in store ==> r == Fetched(store, store[id])
    ensures id !in store ==> r.value == Default() && r.store == store[id := Default()]
    ensures id !in store ==> r.value.currentPath == Root && r.value.action.None? && Invariant(r.value)
  {
    GetOrCreate(store, id, Default())
  }

  /** `update_chat_session`. */
  function UpdateChatSession(store: Store<ChatSession>, id: ChatId, s: ChatSession): (r: Store<ChatSession>)
    ensures id in r && r[id] == s
    ensures r.Keys == store.Keys + {id}
    ensures forall other :: other in store && other != id ==> r[other] == store[other]
    ensures (forall other :: other in store ==> Invariant(store[other])) && Invariant(s) ==>
      forall other :: other in r ==> Invariant(r[other])
  {
    Set(store, id, s)
  }

  /** A first contact sees the default session, and so does every later one until an update. */
  lemma FirstContact(store: Store<ChatSession>, id: ChatId)
    requires id !in store
    ensures var first := GetOrCreateChatSession(store, id);
      first.value == Default() && GetOrCreateChatSession(first.store, id) == first
  {
    GetOrCreateIdempotent(store, id, Default());
  }

  /** Every session handed out keeps the session invariant, given every stored one does. */
  lemma InvariantHandedOut(store: Store<ChatSession>, id: ChatId)
    requires forall other :: other in store ==> Invariant(store[other])
    ensures Invariant(GetOrCreateChatSession(store, id).value)
    ensures forall other :: other in GetOrCreateChatSession(store, id).store ==>
      Invariant(GetOrCreateChatSession(store, id).store[other])
  {
    DefaultInvariant();
  }
}
