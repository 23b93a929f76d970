# SenseMinder storage and instance listing, modelled in Dafny

This project models the core of SenseMinder in Dafny, with proofs.

**The storage service.** This is a virtual file system over a flat object store.
- Every file lives under a key `{userId}/uploads/{folder/}{name}`, and a metadata table holds one record per key.
- Folders exist only as records whose `fileType` is `folder` (with a marker object whose key ends in `/`).
- The handlers build keys, rename on conflict, list with filters, sorting and pages, build the folder tree, delete with a prefix cascade, create folders, star and share with a cascade, move and copy files and folder subtrees, total the usage, and collect the entries of a folder archive.

**The instance lister.** It resolves whose SmartPC instances a user sees (admin, member, other roles), derives each instance's state from the provider's report, writes that state back, and answers with the reported instances.

**Web-client helpers.**
- the relative path and the file-type icon of the storage page;
- the upload dialog's `name (n).ext` de-duplication and file removal;
- the breadcrumbs and folder navigation of the shared-folder viewer;
- the support page's file-name sanitiser, field validation, attachment picker and ticket search;
- the SmartPC state, schedule, uptime and status helpers;
- the PC-name form schema;
- the avatar initials.

**Layout.**
- `text.dfy`: the string primitives the sources use — Python and JavaScript `split`, `join`, `strip`, ASCII case mapping and decimal rendering.
- `naming.dfy`: the `{base} ({n}){ext}` candidates and the least-free-counter search shared by the rename loops.
- `storage_model.dfy`: the records, the two stores and the key layout.
- `storage_spec.dfy`, `storage_move.dfy`, `storage_archive.dfy`: each state-changing handler as a function from the old stores to the reply and the new stores.
- `storage_fs.dfy`: class `FileSystem`. Its fields `meta` and `objects` are the two tables. Its methods run the handlers' loops, and each is proved to reach exactly the state that the specification function gives.
- `storage_listing.dfy`, `storage_sort.dfy`, `storage_hierarchy.dfy`: the listing, its stable sort and the folder tree.
- `viewer.dfy`: the instance lister. Class `UserData` holds the user-data table it writes.
- `storage_utils.dfy`, `upload_dialog.dfy`, `shared_viewer.dfy`, `support.dfy`, `smartpc.dfy`, `pc_name.dfy`, `avatar.dfy`, `list_ops.dfy`: the web-client helpers. The dialog and the support form keep their state in classes.

**Inputs instead of outside calls.** Whatever the handlers get from outside is passed in as a parameter:
- the clock's `now`;
- the bucket table;
- the provider's instance descriptions;
- a `Faults` value, naming the keys whose store calls raise during one request.

**Reads.** Table reads (`get_item`, `scan`, `query`) never fail, and a scan or query returns every match.

**Where the code and its documentation differ, the model follows the code.**
- The download-folder archive stores its entries relative to the user root, not relative to the requested folder (`ArchiveSpec.EntriesIncludeFolderPath`).
- The default listing (no folder given) is non-recursive. It keeps only top-level records (`Listing.TopLevelKept`, `Listing.NestedNotTopLevel`).

## Model

| member | source | states |
|---|---|---|
| StorageModel.Stub | src/app/dashboard/storage/a.py:810-818 | an `update_item` on a missing key creates a record carrying only the id: not a folder, not starred, not shared |
| StorageModel.NormalizeFolder | src/app/dashboard/storage/a.py:93 | a normalised folder neither starts nor ends with `/` |
| StorageModel.UploadKey | src/app/dashboard/storage/a.py:110-113 | every upload key starts with `{userId}/uploads/` and is the folder prefix followed by the name |
| StorageModel.TargetKey | src/app/dashboard/storage/a.py:439-445 | a raw key is used as given; otherwise the key lies under the user root and ends with the file name |
| StorageModel.Scan | src/app/dashboard/storage/a.py:459-462 | the scan returns exactly the metadata keys that begin with the prefix |
| StorageModel.DeleteTarget | src/app/dashboard/storage/a.py:447-454 | delete treats a key as a folder iff it ends in `/` or its record is a folder record; the target is the key or the key plus `/`, it ends in `/` exactly when it is a folder, and it differs from the key only for a folder record |
| StorageModel.MetaTarget | src/app/dashboard/storage/a.py:786-792 | star and share treat a key as a folder iff its record is a folder record; the target is the key or the key plus `/`, a folder target ends in `/`, and a file target is the key itself |
| StorageModel.MoveSourceKey | src/app/dashboard/storage/a.py:993-998 | the move source key starts with `{userId}/uploads/{source}`, adds at most a `/`, and ends in `/` exactly when the source does or a folder record sits under it |
| StorageModel.ExpirySeconds | src/app/dashboard/storage/a.py:862-869 | 1day, 7days, 30days and never map to 86400, 604800, 2592000 and 315360000 seconds; any other value maps to 604800 |
| Naming.SplitExt | src/app/dashboard/storage/a.py:105 | `rsplit('.', 1)`: with a `.`, base + "." + ext is the name and ext holds no `.`; without one, the name and "" |
| Naming.CandidateInjective | src/app/dashboard/storage/a.py:119 | different counters give different candidate names |
| Naming.FirstFree | src/app/dashboard/storage/a.py:118-125 | the probing loop stops at the least counter whose candidate is free; it terminates because the taken set is finite |
| Naming.FirstFreeCandidates | src/app/dashboard/storage/a.py:118-125 | the least free counter's key is free, every earlier key is taken, and a free bare name gets counter 0 |
| Naming.FirstFreeUnique | src/app/dashboard/storage/a.py:118-125 | the least free counter is unique |
| StorageSpec.UploadCounter | src/app/dashboard/storage/a.py:104-125 | the counter is 0 iff the requested key is free; otherwise it is the least n >= 1 whose `{base} ({n}){.ext}` key is free |
| StorageSpec.UploadSpec | src/app/dashboard/storage/a.py:84-157 | a successful upload issues a key not yet in the table, in the requested folder, under the issued name; a free name is kept, a taken one becomes `{base} ({n}){.ext}` with the least free n >= 1; exactly one record is added and no object is written; a failure changes nothing |
| StorageSpec.IssuedNameFree | src/app/dashboard/storage/a.py:117-125 | the key of the issued name is never already present |
| StorageSpec.Download | src/app/dashboard/storage/a.py:159-204 | the download name contains no `/` and is the ending of the key |
| StorageSpec.DownloadFindsUpload | src/app/dashboard/storage/a.py:179-184 | a download by the issued name and the same (normalised) folder names exactly the key the upload wrote |
| StorageSpec.RemoveKeys | src/app/dashboard/storage/a.py:467-487 | per key, the object delete and the metadata delete are independent, and a failing one is skipped |
| StorageSpec.DeleteFolderSpec | src/app/dashboard/storage/a.py:456-490 | a folder delete removes every record whose id starts with the folder key, and the objects of those keys and of the folder key; all other records and objects are unchanged |
| StorageSpec.DeleteFileSpec | src/app/dashboard/storage/a.py:492-504 | a file delete removes only its own key; a failed object delete answers 404 and changes nothing; a failed metadata delete is ignored |
| StorageSpec.DeleteKeepsOrphans | src/app/dashboard/storage/a.py:456-490 | an object under the folder without a metadata record survives the folder delete |
| StorageSpec.ItemKey | src/app/dashboard/storage/a.py:644-661 | a plain string entry names `{userId}/uploads/{name}` |
| StorageSpec.DeleteAllOnlyRemoves | src/app/dashboard/storage/a.py:644-714 | a batch delete only removes: no record or object appears and no record changes |
| StorageSpec.EmptyNameDeletesUserRoot | src/app/dashboard/storage/a.py:649-672 | an empty plain name names the user root, which then counts as a folder, so every record of the user is deleted |
| StorageSpec.ParentPathSpec | src/app/dashboard/storage/a.py:748-753 | the parent path and the last segment, joined by `/`, give the folder name back; a name without `/` has an empty parent |
| StorageSpec.FolderRecordKey | src/app/dashboard/storage/a.py:731-753 | a folder record's parent path and name rebuild its key as an upload key plus `/` |
| StorageSpec.CreateFolderSpec | src/app/dashboard/storage/a.py:716-762 | a new folder gets a marker object and a folder record under `{userId}/uploads/{name}/`, whose folder and fileName rebuild the key; an existing key answers 409 and changes nothing |
| StorageSpec.ApplyIdempotent | src/app/dashboard/storage/a.py:794-818 | applying a star or share update twice equals applying it once, so a key listed twice ends as if listed once |
| StorageSpec.UpdateAll | src/app/dashboard/storage/a.py:810-818 | the update batch leaves the old keys and adds exactly the updated keys whose write did not fail |
| StorageSpec.UpdateKeys | src/app/dashboard/storage/a.py:794-807 | the target key is always among the updated keys |
| StorageSpec.StarSpec | src/app/dashboard/storage/a.py:764-823 | star sets `starred` on every updated key and changes no other field; on a folder, the updated keys are exactly the folder key and the keys under it; on a file, only its key; no other record or object changes |
| StorageSpec.ShareSpec | src/app/dashboard/storage/a.py:825-922 | a missing field answers 400 and a region without a bucket 404, both changing nothing; otherwise every updated key gets shared with the requested permissions, expiry and password (defaults "view", "7days", ""), other records and all objects stay; the reply echoes id, kind, permissions and expiry, has a link iff the target is a file, for its key and the seconds its expiry names, and a failed presign answers 404 after the records were written |
| Storage.CollectAncestors | src/app/dashboard/storage/a.py:573-578 | the `path_acc` loop collects the folder of every proper prefix of the key's components |
| Storage.CollectFolders | src/app/dashboard/storage/a.py:565-578 | the listing loop collects every marker and every ancestor folder of every other listed key |
| Storage.DirEntries | src/app/dashboard/storage/a.py:589-594 | one directory entry per collected folder, relative to the user root |
| Storage.FileEntries | src/app/dashboard/storage/a.py:597-606 | one file entry per listed non-marker key, relative to the user root; the result is None iff one of their downloads fails |
| Storage.FileSystem.HandleUpload | src/app/dashboard/storage/a.py:84-157 | the handler with its renaming loop answers and changes the tables exactly as `StorageSpec.Upload` |
| Storage.FileSystem.RemoveOne | src/app/dashboard/storage/a.py:467-477 | the two deletes of one key leave the tables as `RemoveKeys` of that key |
| Storage.FileSystem.RemoveEach | src/app/dashboard/storage/a.py:467-477 | the delete loop over scanned keys leaves the tables as `RemoveKeys` of the whole set |
| Storage.FileSystem.DeleteEntry | src/app/dashboard/storage/a.py:663-713 | one batch entry's folder detection and deletes give `DeleteOne` |
| Storage.FileSystem.HandleDelete | src/app/dashboard/storage/a.py:419-504 | the handler answers and changes the tables exactly as `StorageSpec.Delete` |
| Storage.FileSystem.HandleDeleteMultiple | src/app/dashboard/storage/a.py:627-714 | the handler answers and changes the tables exactly as `StorageSpec.DeleteMultiple` |
| Storage.FileSystem.HandleCreateFolder | src/app/dashboard/storage/a.py:716-762 | the handler answers and changes the tables exactly as `StorageSpec.CreateFolder` |
| Storage.FileSystem.ApplyEach | src/app/dashboard/storage/a.py:809-818 | the `update_item` loop leaves the metadata as `UpdateAll` and the objects unchanged |
| Storage.FileSystem.HandleStar | src/app/dashboard/storage/a.py:764-823 | the handler answers and changes the tables exactly as `StorageSpec.Star` |
| Storage.FileSystem.HandleShare | src/app/dashboard/storage/a.py:825-922 | the handler answers and changes the tables exactly as `StorageSpec.Share` |
| Storage.FileSystem.MoveFileSource | src/app/dashboard/storage/a.py:1043-1080 | the file branch with its probing loop gives `MoveSpec.MoveFile` |
| Storage.FileSystem.CopyFolderSource | src/app/dashboard/storage/a.py:1001-1030 | the scan and copy loop of a folder source give `MoveSpec.CopyFolder` |
| Storage.FileSystem.CopyEachRecord | src/app/dashboard/storage/a.py:1008-1030 | the copy loop copies exactly the scanned records whose object copy succeeds |
| Storage.FileSystem.CopyRecord | src/app/dashboard/storage/a.py:1013-1030 | one successful copy adds the object and the record under the destination key |
| Storage.FileSystem.RemoveOriginalsOf | src/app/dashboard/storage/a.py:1032-1039 | the delete loop of a folder move gives `MoveSpec.RemoveOriginals` |
| Storage.FileSystem.MoveSource | src/app/dashboard/storage/a.py:991-1080 | one source of a move or copy gives `MoveSpec.MoveOne` |
| Storage.FileSystem.HandleMoveOrCopy | src/app/dashboard/storage/a.py:971-1085 | the handler answers and changes the tables exactly as `MoveSpec.MoveOrCopy` |
| Storage.FileSystem.HandleDownloadFolder | src/app/dashboard/storage/a.py:542-624 | the handler answers and changes the tables exactly as `ArchiveSpec.DownloadFolder` |
| ArchiveSpec.Listed | src/app/dashboard/storage/a.py:564-566 | the listing returns exactly the keys of the bucket's objects that start with the prefix |
| ArchiveSpec.PathOf | src/app/dashboard/storage/a.py:575-578 | a non-empty `path_acc` always ends in `/` |
| ArchiveSpec.DirEntry | src/app/dashboard/storage/a.py:590-592 | every directory entry ends in `/` |
| ArchiveSpec.SlashesToUnderscores | src/app/dashboard/storage/a.py:558 | the archive name keeps the length, holds no `/`, and turns each `/` into `_` |
| ArchiveSpec.ArchiveHasParents | src/app/dashboard/storage/a.py:573-594 | every file entry comes with a directory entry for each of its ancestor folders |
| ArchiveSpec.ArchiveFilesBelowRoot | src/app/dashboard/storage/a.py:602-605 | file entries keep the path below the user root |
| ArchiveSpec.EntriesIncludeFolderPath | src/app/dashboard/storage/a.py:589-605 | every file entry starts with the requested folder's own path (entries are relative to the user root) |
| ArchiveSpec.DownloadFolderWritesArchiveOnly | src/app/dashboard/storage/a.py:608-610 | a successful download-folder adds exactly one object, the archive under `{userId}/downloads/`, and no record changes |
| MoveSpec.FileDestCounter | src/app/dashboard/storage/a.py:1046-1055 | the destination counter is the least n >= 0 whose candidate is not a metadata key |
| MoveSpec.RemoveOriginals | src/app/dashboard/storage/a.py:1032-1039 | the delete phase removes only scanned keys, and never a record whose object delete failed |
| MoveSpec.FileDestinationFree | src/app/dashboard/storage/a.py:1046-1055 | a file's destination is the first free name among `base.ext`, `base (1).ext`, `base (2).ext`, ... |
| MoveSpec.FileCopyErrorSkips | src/app/dashboard/storage/a.py:1058-1080 | a file whose object is missing, whose copy fails, or whose destination is its own key (a copy the store refuses), changes nothing and is not listed |
| MoveSpec.MoveFileSpec | src/app/dashboard/storage/a.py:1058-1077 | a copied record keeps every field except id, fileName and createdAt (so `folder` still names the old folder); a move deletes the source object and record, and changes no other record or object |
| MoveSpec.SourceOfDestOf | src/app/dashboard/storage/a.py:1008-1010 | each destination key of a folder copy maps back to its scanned key, so two records never share a destination |
| MoveSpec.CopyFolderSpec | src/app/dashboard/storage/a.py:1001-1030 | each scanned record with an object is copied to `{dest}/{source}/{rel}`, keeping every field except id, fileName and createdAt, with its object |
| MoveSpec.CopyFolderFrame | src/app/dashboard/storage/a.py:1001-1030 | a key that is no copy destination of a scanned record with an object keeps its record and its object, and no object is removed |
| MoveSpec.CopyFolderSkipsObjectless | src/app/dashboard/storage/a.py:1008-1030 | a scanned record whose object is missing is not copied: its destination keeps what it had |
| MoveSpec.MoveFolderLosesUncopied | src/app/dashboard/storage/a.py:1032-1041 | a folder move deletes every scanned original whose deletes succeed, including one whose copy failed, which then exists nowhere |
| MoveSpec.MovedListBound | src/app/dashboard/storage/a.py:989-1085 | each source adds at most one name to movedFiles |
| Listing.DefaultQuery | src/app/dashboard/storage/a.py:212-222 | the defaults: sortBy date, sortOrder asc, recursive off, page 1, limit 20 |
| Listing.Filter | src/app/dashboard/storage/a.py:237 | a comprehension keeps exactly the elements that pass, and never more elements than the input |
| Listing.FilterPartition | src/app/dashboard/storage/a.py:288-290 | splitting into folders and other records keeps every record exactly once |
| Listing.NonRecursiveKeepsFilesOfSubfolders | src/app/dashboard/storage/a.py:274-277 | the non-recursive listing keeps a file one level inside a subfolder |
| Listing.NonRecursiveDropsNestedFolders | src/app/dashboard/storage/a.py:274-277 | the non-recursive listing drops a folder marker two levels down |
| Listing.RecursiveKeepsDescendants | src/app/dashboard/storage/a.py:272-273 | the recursive listing keeps every strict descendant of the folder |
| Listing.FolderScopeIsStrict | src/app/dashboard/storage/a.py:267-277 | neither mode lists the folder's own record or anything outside the folder |
| Listing.TopLevelKept | src/app/dashboard/storage/a.py:278-281 | without a folder, a top-level file or folder marker is listed |
| Listing.NestedNotTopLevel | src/app/dashboard/storage/a.py:278-281 | without a folder, nothing inside a folder is listed |
| Listing.SortStaysInGroup | src/app/dashboard/storage/a.py:304-306 | sorting a group keeps each of its records inside the group |
| Listing.OrderedPermutation | src/app/dashboard/storage/a.py:288-309 | the ordered listing is a permutation of the selected records |
| Listing.OrderedGroups | src/app/dashboard/storage/a.py:288-309 | every folder record precedes every other record, and each group is sorted by the key (reversed for desc) |
| Listing.CeilDivBounds | src/app/dashboard/storage/a.py:313 | for a positive limit, pages is ceil(total / limit) |
| Listing.EmptyListingRejectsEveryPage | src/app/dashboard/storage/a.py:311-315 | an empty listing rejects every page, whatever the limit |
| Listing.PageAccepted | src/app/dashboard/storage/a.py:311-315 | a page is accepted iff its first index lies inside the listing |
| Listing.PaginateSpec | src/app/dashboard/storage/a.py:311-347 | an accepted page is the slice [(page-1)*limit, min(page*limit, total)), with pages = ceil(total/limit), hasNext = page < pages and hasPrevious = page > 1; a zero limit fails with 500 and every other rejection is 400 |
| Listing.SumSizesFails | src/app/dashboard/storage/a.py:521-525 | usage fails with 500 iff some non-folder record has a size `int()` cannot read (null or malformed) |
| Listing.SumSizesAdd | src/app/dashboard/storage/a.py:521-525 | folder records never count, and a non-folder record of n bytes adds n |
| ListingOrder.LexLeTotal | src/app/dashboard/storage/a.py:293-300 | Python's string order on sort keys is total |
| ListingOrder.LexLeTrans | src/app/dashboard/storage/a.py:293-300 | Python's string order on sort keys is transitive |
| ListingOrder.PrecedesTotal | src/app/dashboard/storage/a.py:293-306 | the order of the listing (with `reverse`) is total |
| ListingOrder.PrecedesTrans | src/app/dashboard/storage/a.py:293-306 | the order of the listing (with `reverse`) is transitive |
| ListingOrder.SortCorrect | src/app/dashboard/storage/a.py:302-306 | the sort returns the records in order, as a permutation of its input |
| ListingOrder.SortStable | src/app/dashboard/storage/a.py:302-306 | the sort is stable, ascending and with `reverse`: the records sharing a key come out in input order |
| Hierarchy.Parts | src/app/dashboard/storage/a.py:383-385 | a Python `split` never returns an empty list, so a path has at least one component |
| Hierarchy.IndexOfName | src/app/dashboard/storage/a.py:392 | the sibling lookup finds the node with the name, or reports that there is none |
| Hierarchy.InsertChain | src/app/dashboard/storage/a.py:387-398 | walking one path never removes an existing root |
| Hierarchy.InsertChainWellFormed | src/app/dashboard/storage/a.py:387-398 | inserting a path keeps sibling names unique and each node's path equal to its parent's path plus its name and `/` |
| Hierarchy.InsertChainChains | src/app/dashboard/storage/a.py:387-398 | after inserting a path, the chains are the old ones plus every prefix of the path |
| Hierarchy.HandleHierarchy | src/app/dashboard/storage/a.py:354-412 | the handler's loop builds exactly the tree of `HierarchyOf` |
| Hierarchy.BuildWellFormed | src/app/dashboard/storage/a.py:382-398 | the built tree is well formed |
| Hierarchy.BuildChains | src/app/dashboard/storage/a.py:382-398 | the chains of the built tree are exactly the prefixes of the records' paths |
| Hierarchy.HierarchySpec | src/app/dashboard/storage/a.py:373-410 | a chain is in the tree iff it is a prefix of the path of some folder record of the region (so intermediate nodes are created); other records contribute nothing; sibling names are unique; each path is the user root plus the names along the chain |
| Hierarchy.PrefixOfFilteredFrom | src/app/dashboard/storage/a.py:373-376 | a prefix of a kept record's path is a prefix of the path of an input record that passes the filter |
| Hierarchy.PrefixOfFilteredTo | src/app/dashboard/storage/a.py:373-376 | conversely, a prefix of a passing record's path is a prefix of a kept record's path |
| Hierarchy.PartsOfFolderKey | src/app/dashboard/storage/a.py:383-396 | the folder record `{userId}/uploads/a/b/` gives the chain ["a", "b"] |
| Viewer.FirstUser | src/app/pc-viewer/a.py:184-188 | a user record is found iff some record has the id, and the record found is one of them |
| Viewer.RowsOf | src/app/pc-viewer/a.py:251-255 | exactly the rows that belong to the user |
| Viewer.AssignedIds | src/app/pc-viewer/a.py:212-218 | exactly the instance ids of the owner's assignments whose memberId is the member |
| Viewer.WithIds | src/app/pc-viewer/a.py:238-240 | exactly the rows whose instance id is listed |
| Viewer.DerivedState | src/app/pc-viewer/a.py:271-285 | a `running` instance without an `ok` check reads `initializing`; every other state passes through unchanged |
| Viewer.Upsert | src/app/pc-viewer/a.py:298-303 | after the write, the row with the key holds the status; other rows are unchanged; a missing row is created |
| Viewer.FirstFault | src/app/pc-viewer/a.py:264-307 | the loop stops at the first reported instance whose calls raise |
| Viewer.DescribedIds | src/app/pc-viewer/a.py:264-270 | the ids the provider reported, in its order |
| Viewer.Enrich | src/app/pc-viewer/a.py:309-318 | every response entry is a resolved row the provider reported; every reported resolved row appears with its derived state |
| Viewer.AdminUsesOwner | src/app/pc-viewer/a.py:190-200 | an admin (role compared lower-cased) with an owner id sees the owner's rows and writes under the owner's id; without one, their own |
| Viewer.MemberSeesAssigned | src/app/pc-viewer/a.py:201-240 | a member sees only the owner's rows assigned to them, and nothing without an owner or an assignment; statuses are written under the member's own id |
| Viewer.OtherRolesSeeOwnRows | src/app/pc-viewer/a.py:241-255 | a caller with no user record, or with any other role, sees exactly their own rows |
| Viewer.WriteStatusesWrites | src/app/pc-viewer/a.py:297-303 | after the writes, every reported id has a row under the write id holding the derived state of its last report |
| Viewer.WriteStatusesFrame | src/app/pc-viewer/a.py:297-303 | the writes touch only rows keyed by the write id and a reported instance |
| Viewer.UpsertKeepsKeys | src/app/pc-viewer/a.py:298-303 | a write keeps the table keyed: no two rows share a key |
| Viewer.WriteStatusesKeepsKeys | src/app/pc-viewer/a.py:264-303 | the whole write loop keeps the table keyed |
| Viewer.ResponseIsDescribed | src/app/pc-viewer/a.py:309-318 | every returned instance was reported and resolved, with its derived state; every reported resolved row is returned |
| Viewer.FailureKeepsEarlierWrites | src/app/pc-viewer/a.py:264-307 | a failed listing keeps the writes completed before the fault; a successful one has written every reported instance |
| Viewer.CheckInitialized | src/app/pc-viewer/a.py:275-282 | the `any` loop is true iff some system or instance check reports `ok` |
| Viewer.UserData.HandleList | src/app/pc-viewer/a.py:175-328 | the lambda answers and changes the table exactly as `ListInstances` |
| Viewer.UserData.WriteEach | src/app/pc-viewer/a.py:264-303 | the describe loop writes the reported instances' states up to the first fault, and reports whether it completed |
| StorageUtils.RelativePath | src/app/dashboard/storage/utils/index.tsx:119-121 | a path with fewer than three segments gives "" |
| StorageUtils.Extension | src/app/dashboard/storage/utils/index.tsx:33 | the extension holds no `.` and is already lower case |
| StorageUtils.RelativePathAfterTwo | src/app/dashboard/storage/utils/index.tsx:119-121 | the relative path is what follows the second `/` |
| StorageUtils.RelativePathOfUploadKey | src/app/dashboard/storage/utils/index.tsx:119-121 | for a user id without `/`, the relative path of an upload key is the folder and name below the user root |
| StorageUtils.FolderIconFirst | src/app/dashboard/storage/utils/index.tsx:36 | a folder gets the folder icon, whatever its name |
| StorageUtils.ExtensionIgnoresCase | src/app/dashboard/storage/utils/index.tsx:33 | the extension of the lower-cased name is the extension of the name |
| StorageUtils.IconIgnoresCase | src/app/dashboard/storage/utils/index.tsx:32-71 | the icon of the lower-cased name is the icon of the name |
| StorageUtils.UnknownExtensionIsText | src/app/dashboard/storage/utils/index.tsx:39-71 | an extension the classifier does not name gets the default text icon, as do `txt`, `doc` and `docx` |
| UploadNaming.WordTail | src/app/dashboard/storage/_components/upload-dialog.tsx:69-70 | the tail is the longest run of word characters that ends the name |
| UploadNaming.DotExtOf | src/app/dashboard/storage/_components/upload-dialog.tsx:70 | the extension is "" or a `.` followed by word characters, and it ends the name |
| UploadNaming.BaseOf | src/app/dashboard/storage/_components/upload-dialog.tsx:69 | the base followed by the extension is the name |
| UploadNaming.RenameFrom | src/app/dashboard/storage/_components/upload-dialog.tsx:67-88 | the batch keeps its length and order, and each file keeps its type and content |
| UploadNaming.FreshNameIsFirstFree | src/app/dashboard/storage/_components/upload-dialog.tsx:72-81 | the dialog's name is the candidate of the least free counter |
| UploadNaming.FreshNameFree | src/app/dashboard/storage/_components/upload-dialog.tsx:74-86 | the given name is free, and a name nothing holds is kept |
| UploadNaming.FreshNameSuffixed | src/app/dashboard/storage/_components/upload-dialog.tsx:72-81 | a taken name becomes `{base} ({n}){ext}` for some n >= 1 whose earlier candidates are all taken |
| UploadNaming.FreshNameNamesFreshly | src/app/dashboard/storage/_components/upload-dialog.tsx:72-86 | the dialog's rule always gives a free name and keeps a free one |
| UploadNaming.RenameFromDistinct | src/app/dashboard/storage/_components/upload-dialog.tsx:67-88 | for any rule that names freshly, no added name is taken or equal to another added name |
| UploadNaming.RenamedDistinct | src/app/dashboard/storage/_components/upload-dialog.tsx:74-81 | after `handleFileChange`, no added name equals a selected name or another added name |
| UploadNaming.RenameFromKeepsFreeName | src/app/dashboard/storage/_components/upload-dialog.tsx:83-86 | a file whose name is neither taken nor given to an earlier file keeps its name and content |
| UploadNaming.RenamedKeepsFreeName | src/app/dashboard/storage/_components/upload-dialog.tsx:83-86 | `handleFileChange` keeps a file that collides with nothing |
| UploadNaming.FreshNameKeepsFree | src/app/dashboard/storage/_components/upload-dialog.tsx:75-86 | the dialog's rule keeps every free name |
| UploadDialog.Dialog.HandleFileChange | src/app/dashboard/storage/_components/upload-dialog.tsx:61-91 | nothing happens without a file list; otherwise the renamed batch is appended after the unchanged selection |
| UploadDialog.Dialog.HandleFileRemove | src/app/dashboard/storage/_components/upload-dialog.tsx:93-97 | the selection becomes its splice at the index |
| UploadDialog.RenameBatch | src/app/dashboard/storage/_components/upload-dialog.tsx:67-88 | the batch loop returns exactly `Renamed` of the selection and the batch |
| UploadDialog.PickName | src/app/dashboard/storage/_components/upload-dialog.tsx:68-81 | the probing loop returns the least free candidate, starting from the name itself |
| ListOps.SpliceStart | src/app/dashboard/storage/_components/upload-dialog.tsx:95 | the start always lies within the array; a non-negative index is clamped to the length |
| ListOps.Spliced | src/app/dashboard/storage/_components/upload-dialog.tsx:94-95 | splicing removes one element when the start is inside the array, and none otherwise |
| ListOps.WithoutPosition | src/app/dashboard/support/page.tsx:158 | an index outside the array removes nothing |
| ListOps.SplicedRemovesAt | src/app/dashboard/storage/_components/upload-dialog.tsx:93-97 | removing at a valid index keeps the elements before and after it, in order |
| ListOps.SplicedFromEnd | src/app/dashboard/storage/_components/upload-dialog.tsx:95 | a negative index removes the element that many places from the end |
| ListOps.WithoutPositionIsSplice | src/app/dashboard/support/page.tsx:154-158 | filtering out a valid position equals splicing it out |
| SharedViewer.NonEmpty | src/app/shared-folder-viewer/page.tsx:142 | `filter(Boolean)` keeps exactly the non-empty strings, and never more strings than the input |
| SharedViewer.Parts | src/app/shared-folder-viewer/page.tsx:142 | every segment is non-empty and free of `/` |
| SharedViewer.FolderKey | src/app/shared-folder-viewer/page.tsx:153 | a folder key ends with `/` |
| SharedViewer.FirstIndex | src/app/shared-folder-viewer/page.tsx:188 | `indexOf` finds the first occurrence |
| SharedViewer.Trail | src/app/shared-folder-viewer/page.tsx:148-158 | one crumb per segment after the first |
| SharedViewer.ComputeBreadcrumbs | src/app/shared-folder-viewer/page.tsx:136-161 | the effect's loop computes exactly the trail of the key |
| SharedViewer.FolderClick | src/app/shared-folder-viewer/page.tsx:164-178 | a click on a non-folder does not navigate, and every navigation goes to a key ending in `/` |
| SharedViewer.FolderTarget | src/app/shared-folder-viewer/page.tsx:180-206 | every target key ends in `/` |
| SharedViewer.Normalized | src/app/shared-folder-viewer/page.tsx:214-215 | a normalised path always ends in `/` |
| SharedViewer.BreadcrumbNavigate | src/app/shared-folder-viewer/page.tsx:212-221 | navigation is a no-op iff the current and target paths are equal once normalised |
| SharedViewer.PartsOfFolderKey | src/app/shared-folder-viewer/page.tsx:142-153 | the segments of a folder key are the segments it was built from |
| SharedViewer.CrumbsLabelSegments | src/app/shared-folder-viewer/page.tsx:142-158 | one crumb per segment after the first, labelled with those segments in order; fewer than two segments give no crumbs |
| SharedViewer.BreadcrumbsOfKey | src/app/shared-folder-viewer/page.tsx:137-146 | a non-empty trail belongs to a key of at least two segments |
| SharedViewer.CrumbIdsNest | src/app/shared-folder-viewer/page.tsx:152-157 | each crumb's id is a proper prefix of the next crumb's id |
| SharedViewer.TrailNests | src/app/shared-folder-viewer/page.tsx:152-157 | the ids of a trail nest: each is a proper prefix of the next |
| SharedViewer.TrailOfPrefix | src/app/shared-folder-viewer/page.tsx:152-157 | the trail of a prefix of the segments is the prefix of the trail |
| SharedViewer.CrumbOpensPrefix | src/app/shared-folder-viewer/page.tsx:152-157 | opening crumb i shows exactly the first i+1 crumbs of the current trail |
| SharedViewer.LastCrumbStays | src/app/shared-folder-viewer/page.tsx:212-221 | on a key built from its segments, the last crumb names the current folder and does not navigate |
| SharedViewer.ClickCurrentFolderStays | src/app/shared-folder-viewer/page.tsx:168-178 | a folder named like the last segment does not navigate |
| SharedViewer.ClickAncestorGoesBack | src/app/shared-folder-viewer/page.tsx:185-197 | a folder named like an earlier segment goes back to that segment's first occurrence, and the new key has exactly those segments |
| SharedViewer.ClickAncestorIsCrumb | src/app/shared-folder-viewer/page.tsx:185-197 | going back to a segment past the first goes to that segment's crumb |
| SharedViewer.ClickNewFolderDescends | src/app/shared-folder-viewer/page.tsx:198-205 | any other folder opens `key + name + "/"`, whose segments are the current ones plus the name |
| Support.ReplaceOthers | src/app/dashboard/support/page.tsx:55 | characters outside `[A-Za-z0-9._-]` become `_` and every other character is kept, position by position |
| Support.CollapseUnderscores | src/app/dashboard/support/page.tsx:55 | collapsing leaves no two `_` in a row, uses only characters of the input, never lengthens it and keeps its first character |
| Support.Take50 | src/app/dashboard/support/page.tsx:56 | the result is a prefix of at most 50 characters, and all of the input when it is shorter |
| Support.SanitizeFilename | src/app/dashboard/support/page.tsx:53-57 | the result is 1 to 50 characters of `[A-Za-z0-9._-]`, with no `/` and no two `_` in a row |
| Support.FieldError | src/app/dashboard/support/page.tsx:107-125 | the error is empty iff the value passes all three rules; otherwise it is the length, charset or repetition message, checked in that order |
| Support.AcceptableOnly | src/app/dashboard/support/page.tsx:135-143 | exactly the PNG or JPEG files of at most 3 MB |
| Support.FilterUploads | src/app/dashboard/support/page.tsx:131-149 | the loop with `continue` and `break` returns exactly `Accepted` |
| Support.FilterTickets | src/app/dashboard/support/page.tsx:257-260 | exactly the tickets that match the query |
| Support.SupportForm.HandleInputChange | src/app/dashboard/support/page.tsx:101-125 | the field gets the value and its error; the other field and the attachments are unchanged |
| Support.SupportForm.HandleFileChange | src/app/dashboard/support/page.tsx:131-152 | the accepted files are appended after the existing attachments; nothing else changes |
| Support.SupportForm.RemoveAttachment | src/app/dashboard/support/page.tsx:154-159 | the attachment is spliced out and the upload marker at that position is dropped |
| Support.CollapseKeeps | src/app/dashboard/support/page.tsx:55 | collapsing a string with no double `_` changes nothing |
| Support.CollapseDropsOnlyUnderscores | src/app/dashboard/support/page.tsx:55 | collapsing keeps every character that is not `_` |
| Support.SanitizeKeepsCleanLastSegment | src/app/dashboard/support/page.tsx:54-56 | only the text after the last `/` survives: a clean last segment comes through unchanged |
| Support.SanitizeEmptyLastSegment | src/app/dashboard/support/page.tsx:54 | an empty last segment gives `file` |
| Support.SanitizeIdempotent | src/app/dashboard/support/page.tsx:53-57 | sanitising a sanitised name changes nothing |
| Support.AcceptedAreAcceptable | src/app/dashboard/support/page.tsx:135-149 | every accepted file is one of the picked files and is acceptable |
| Support.AcceptedIsFirstAcceptable | src/app/dashboard/support/page.tsx:135-149 | the picker takes the first acceptable files, as many as there is room for |
| Support.AttachmentCap | src/app/dashboard/support/page.tsx:144-151 | the attachments never grow beyond max(2, the previous count) |
| Support.RemoveDropsMarkerAtPosition | src/app/dashboard/support/page.tsx:154-159 | removing attachment `index` drops one attachment and the upload marker at position `index` (by position, not by the attachment index the marker holds) |
| Support.QueryIgnoresCase | src/app/dashboard/support/page.tsx:257-260 | the search ignores the case of the query and of the subject |
| Support.EmptyQueryKeepsAll | src/app/dashboard/support/page.tsx:258 | an empty query keeps every ticket |
| SmartPc.StatusText | src/app/build-smartpc/utils/index.tsx:50-75 | every building state is shown as `Building` |
| SmartPc.DaysFromFrequency | src/app/build-smartpc/utils/index.tsx:18-37 | an unknown frequency gives no days |
| SmartPc.ClockOf | src/app/build-smartpc/utils/index.tsx:41-43 | hours < 24, minutes < 60, and d*86400 + h*3600 + m*60 <= s < that + 60 |
| SmartPc.FormatUptime | src/app/build-smartpc/utils/index.tsx:39-48 | the label is `Not running` iff the uptime is 0 |
| SmartPc.BuildingIsBusy | src/app/build-smartpc/utils/index.tsx:12-16 | every building state is busy, and busy means initializing, initialization, pending or stopping |
| SmartPc.StatusTextBuilding | src/app/build-smartpc/utils/index.tsx:50-75 | the label is `Building` exactly for the building states, `building` and `Building`; every unknown status is shown unchanged |
| SmartPc.FrequenciesPartitionWeek | src/app/build-smartpc/utils/index.tsx:18-37 | weekdays and weekends are disjoint and together are the seven distinct days of everyday, in order |
| SmartPc.ClockDecomposes | src/app/build-smartpc/utils/index.tsx:41-43 | the three counters add up to the seconds, to the minute |
| SmartPc.UptimeShape | src/app/build-smartpc/utils/index.tsx:40-47 | `Xd Yh` iff s >= 86400, `Xh Ym` iff 3600 <= s < 86400, `Xm` iff 0 < s < 3600 |
| SmartPc.RenderUnits | src/app/build-smartpc/utils/index.tsx:45-47 | each label form ends in its own unit letter, so no two forms share a label |
| PcName.NameIssues | src/app/build-smartpc/schema/index.ts:4-11 | each rule is reported iff it fails: length minimum, length maximum, pattern |
| PcName.FormIssues | src/app/build-smartpc/schema/index.ts:3-17 | the form is accepted iff the PC name has no issue |
| PcName.AcceptedNames | src/app/build-smartpc/schema/index.ts:6-11 | a name is accepted iff it is 1 to 50 letters, digits, `-` or `_`, neither starts nor ends with `-` or `_`, and has no two of them side by side |
| PcName.AcceptedNameHasNoSpace | src/app/build-smartpc/schema/index.ts:9 | an accepted name has no space |
| PcName.EmptyAndLongNames | src/app/build-smartpc/schema/index.ts:6-9 | the empty name fails the minimum and the pattern; a name over 50 fails the maximum |
| PcName.OtherFieldsAnyString | src/app/build-smartpc/schema/index.ts:12-16 | the other four fields never change acceptance |
| Avatar.AvatarFallback | src/lib/utils/index.ts:8-19 | the initials are one or two characters |
| Avatar.BothInitials | src/lib/utils/index.ts:12-13 | with both names, the upper-cased first character of each |
| Avatar.FirstInitialOnly | src/lib/utils/index.ts:15-16 | with only a first name, its upper-cased first character |
| Avatar.DefaultInitial | src/lib/utils/index.ts:12-18 | with no user or an empty first name, `U`, whatever the last name |
| Avatar.OnlyFirstCharacters | src/lib/utils/index.ts:13-16 | only the first character of each name matters |
| Avatar.InitialsUpperCase | src/lib/utils/index.ts:13-16 | no ASCII lower-case letter survives |
| Text.LastSegmentIsSuffix | src/app/dashboard/storage/a.py:186 | `split(sep)[-1]` ends the string and is either the whole string or preceded by the separator |
| Text.JoinSplit | src/app/dashboard/storage/a.py:753 | joining the split pieces with the separator gives the string back |
| Text.Split | src/app/dashboard/storage/a.py:385 | `split` gives at least one piece, and no piece holds the separator |
| Text.LowerIdempotent | src/app/dashboard/storage/a.py:285-286 | lower-casing twice is lower-casing once |
| Text.StripChar | src/app/dashboard/storage/a.py:93 | `strip(c)` never lengthens the string and leaves no `c` at either end |
| Text.StripCharNoop | src/app/dashboard/storage/a.py:183 | stripping a string that has no `c` at either end changes nothing |
| Text.StripSpace | src/app/dashboard/storage/a.py:93 | `strip()` never lengthens the string and leaves no Python whitespace at either end |
| Text.Lower | src/app/dashboard/storage/a.py:285-286 | lower-casing keeps the length and maps every character on its own |
| Text.Decimal | src/app/dashboard/storage/a.py:119 | a counter renders as one or more decimal digits, a single digit exactly below 10 |
| Text.DecimalInjective | src/app/dashboard/storage/a.py:119 | different counters render differently |
| Support.SupportForm.constructor | src/app/dashboard/support/page.tsx:67-77 | the form starts with empty fields, no errors, no attachments and no upload markers |
| Storage.FileSystem.CopyScanned | src/app/dashboard/storage/a.py:1008-1030 | one turn of the copy loop copies the scanned key iff its object was present at the scan and its copy does not fail |

## Left out

- Presigned URLs, the bytes of the object copy, download and upload, temporary files, and the ZIP container itself. The model records which object a URL is for and which archive entries are written.
- EC2 calls. `describe_instances` and the status checks become an input list of descriptions plus a set of ids whose calls raise.
- `handle_share_multiple` (src/app/dashboard/storage/a.py:924-969): a stub with a placeholder bucket that uses the user id as a bucket name.
- The second `handle_download_folder` (src/app/dashboard/storage/a.py:1093-1153). It is glued to the end of `response`, so the file is not valid Python as written. Split out, it would shadow the first definition. The first definition is the one modelled.
- The router, the response envelope and the catch-all 500 (src/app/dashboard/storage/a.py:16-78, 1089-1092). Paths where the source raises are modelled as a 500 reply where the handler reaches them.
- The clock-dependent list filters `recent`, `today` and `week`. Each is an input set of the `createdAt` values inside the window, and a record passes when its `createdAt` is in the set. `createdAt` is an input string.
- The float `totalMB` of the usage reply. Only `totalBytes` is modelled.
- The schedules attached to each returned instance, and the presentational fields copied from the provider (type, launch time, addresses, tags). The response carries the row and its derived state.
- `formatFileSize`, `formatBytes`, `formatDate`, `formatTimeAgo` and `getStatusIcon`: floating-point, clock or presentational code.
- `handleSelectChange` of the support page: it stores a select value without any rule.
- Router pushes and `encodeURIComponent` in the shared-folder viewer are not modelled. A navigation is the key it opens.
- Toasts and console logs are not modelled.
- Text.Lower, Text.Upper: ASCII-only case mapping. Python's `lower()` and JavaScript's `toLowerCase()`/`toUpperCase()` also map non-ASCII letters.
- String lengths count Dafny characters, not UTF-16 code units (JavaScript's `length`, `slice`).
- Support.PlainText: JavaScript's `\s` is modelled as its full character list. Python whitespace (used by `strip()` in `NormalizeFolder`) is modelled as Python's own list in `Text.StripSpace`.
- Storage.FileSystem.CopyEachRecord: whether an object copy succeeds is decided on the objects present when the scan ran. It differs from the source only when a folder is copied into its own subtree and the order of the loop matters.
- Storage.FileSystem.CopyRecord: the `put_item` of a folder-copy record never fails in the model. In the source its exception escapes to the router's 500.
- StorageSpec.StarSpec: stated without store faults. `UpdateAll` and `ShareSpec` cover the faulty case.
- StorageSpec.DeleteFolderSpec: stated without store faults. `RemoveKeys` states the faulty case.
- MoveSpec.MoveFileSpec, MoveSpec.CopyFolderSpec: stated without store faults. `FileCopyErrorSkips` and `MoveFolderLosesUncopied` state the effect of failures; `CopyFolderFrame` states what a folder copy leaves alone.
- StorageSpec.DownloadFindsUpload: stated for a folder that needs no normalisation. Upload strips spaces and `/`, while download strips only `/`.
- SmartPc.FormatUptime: stated for a whole, non-negative number of seconds. The source takes any JavaScript number.
- SharedViewer.ClickNewFolderDescends: the segments are stated for a key ending in `/`. Without it, `key + name + "/"` glues the name onto the last segment.
- Viewer.ListInstances: a request whose `queryStringParameters` is null makes `.get` raise in the source, which answers 500. The model takes the user id as a string and answers 400 when it is empty.
- The `size` attribute: `int()` accepts more than integers (a numeric string, a decimal it truncates). The model keeps a readable size as its integer and any unreadable one as `Malformed`.
- Star replies list the set of updated keys. The source's list can repeat the folder key, which the update makes harmless (StorageSpec.ApplyIdempotent).
