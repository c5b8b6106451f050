/**
  services/filesystem_service.rs: each chat's file system, created with the
  default layout on first use.
 */
module FilesystemServices {
  import opened ChatIds
  import opened FileSystems
  import opened Repositories

  /** `get_or_create_filesystem`. */
  function GetOrCreateFilesystem(store: Store<FileSystem>, id: ChatId): (r: Fetched<FileSystem>)
    ensures id in store ==> r == Fetched(store, store[id])
    ensures id !in store ==> r.value == Default() && r.store == store[id := Default()]
    ensures id !in store ==> Valid(r.value) && r.value.root.children.Keys == {"Documents", "Images", "Trash", "Videos"}
  {
    GetOrCreate(store, id, Default())
  }

  /** `update_filesystem`. */
  function UpdateFilesystem(store: Store<FileSystem>, id: ChatId, fs: FileSystem): (r: Store<FileSystem>)
    ensures id in r && r[id] == fs
    ensures r.Keys == store.Keys + {id}
    ensures forall other :: other in store && other != id ==> r[other] == store[other]
    ensures (forall other :: other in store ==> Valid(store[other])) && Valid(fs) ==>
      forall other :: other in r ==> Valid(r[other])
  {
    Set(store, id, fs)
  }

  /** A first contact sees the default layout, and so does every later one until an update. */
  lemma FirstContact(store: Store<FileSystem>, id: ChatId)
    requires id !in store
    ensures var first := GetOrCreateFilesystem(store, id);
      first.value == Default() && GetOrCreateFilesystem(first.store, id) == first
  {
    GetOrCreateIdempotent(store, id, Default());
  }

  /** Every file system handed out has a directory at its root, given every stored one does. */
  lemma ValidHandedOut(store: Store<FileSystem>, id: ChatId)
    requires forall other :: other in store ==> Valid(store[other])
    ensures Valid(GetOrCreateFilesystem(store, id).value)
    ensures forall other :: other in GetOrCreateFilesystem(store, id).store ==>
      Valid(GetOrCreateFilesystem(store, id).store[other])
  {
  }
}
