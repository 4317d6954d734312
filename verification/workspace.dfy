/** The session's temporary directory, seen as a map from file name to opaque
    contents, and the two file operations the interpreter performs inside it:
    `rename_new_and_delete_old` and `shutil.copy2`. */
module Workspace {
  import opened Common

  /** Opaque file contents; only their identity matters to the interpreter. */
  datatype Blob = Blob(id: nat)

  type Store = map<string, Blob>

  /** `rename_new_and_delete_old(produced, target)`: remove `target`, then
      rename `produced` onto it. Either step may fail; the failure is printed
      and swallowed, so the store keeps whatever the completed steps did. */
  function RenameOver(store: Store, produced: string, target: string): (r: Store)
    ensures target !in store ==> r == store
    ensures target in store && produced in store && produced != target ==>
      target in r && r[target] == store[produced] && produced !in r
    ensures target in store && (produced !in store || produced == target) ==> target !in r
    ensures forall p :: p != target && p != produced ==> (p in r <==> p in store)
    ensures forall p :: p in r && p != target && p != produced ==> r[p] == store[p]
  {
    if target !in store then store
    else
      var removed := store - {target};
      if produced in removed then removed[target := removed[produced]] - {produced} else removed
  }

  /** `shutil.copy2(src, dst)` inside the directory. The directory is flat, so
      a destination containing `/` lies in a subdirectory that does not exist
      and the copy fails; it also fails when the source is missing or is the
      destination itself. Otherwise `dst` receives `src`'s contents and every
      other file is kept. */
  function CopyWithin(store: Store, src: string, dst: string): (r: Option<Store>)
    ensures r.Some? <==> src in store && src != dst && '/' !in dst
    ensures r.Some? ==> r.value.Keys == store.Keys + {dst} && r.value[dst] == store[src]
    ensures r.Some? ==> forall p :: p in store && p != dst ==> r.value[p] == store[p]
  {
    if src in store && src != dst && '/' !in dst then Some(store[dst := store[src]]) else None
  }
}
