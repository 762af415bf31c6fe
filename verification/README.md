# Verified model of ctnr

ctnr is a rootless container engine. This project models the parts of it that decide what an
image contains, and proves what they promise for all inputs, runs and interleavings.

| file | what it models |
|---|---|
| `FsTypes.dfy`, `PathWalk.dfy`, `RawPath.dfy`, `WalkDepth.dfy` | file system trees as maps from paths to sources, the walk along a path through symlinks, where it leads to, and when it ends |
| `NodeTree.dfy` | the same trees as linked nodes with first-child and next-sibling links, updated in place |
| `TreeDiff.dfy`, `DiffLaws.dfy`, `DiffFields.dfy`, `DirToLink.dfy` | the difference of two trees, computed by loops over Go maps |
| `Layer.dfy`, `LayerLinks.dfy`, `LayerLaws.dfy`, `LayerFold.dfy` | writing a difference into tar entries, unpacking them, and folding the layers of an image |
| `Text.dfy`, `TextLaws.dfy`, `AttrText.dfy`, `AttrLaws.dfy`, `FsSpec.dfy`, `SpecSafety.dfy`, `SpecOrder.dfy` | the text form of attributes and of whole trees |
| `Digests.dfy`, `SpecCache.dfy`, `StoredSpec.dfy` | chain IDs, commits, the cache of trees per chain ID, and its stored text |
| `KeyedMutex.dfy`, `LockFile.dfy`, `SharedLock.dfy` | the three lock protocols, each built on the one before: nobody gets in where someone is, and who waits gets in |
| `ImageRepo.dfy`, `RepoLaws.dfy`, `ImageGC.dfy`, `GcLaws.dfy` | the repository index and the garbage collection |
| `CacheLog.dfy`, `ImageBuild.dfy` | the build cache file, and the builder with its cache, bundle, file system builder and root file systems left behind |
| `Stages.dfy`, `StageLines.dfy`, `StageBuild.dfy` | Dockerfile stages, their dependencies, the calls their lines stand for, and building only some of them with that builder |

The project file is `dfyconfig.toml`: `dafny verify dfyconfig.toml` takes all files together.

## How to read it

**Trees.** A tree is a prefix-closed map from paths to sources. A source carries the identity of
its Go pointer, so that equal sources are hard links of each other. `SameNode` is the equality
that the engine itself uses: kind, every attribute but the access time, and the content hash.
Directories that an operation allocates are `FreshDir`; the trees given to it have none. Files that
unpacking allocates are `Made`, and told apart by the path they are made at.

**Order and time.** Go iterates maps in any order, so every such loop takes its keys by
nondeterministic choice, and the theorems hold for all choices. The clock is a parameter. What
layers make is compared with what they make at Go's zero time: there, the directories that no
entry dates can be told from all others. One clock value serves a whole unpacking, while the loops of
Diff take one per iteration.

**Symlinks.** The engine resolves symlinks without a limit and does not end on some cycles.
The model bounds how deep resolutions nest and fails with `TooDeep` beyond the bound; the bound
is a parameter of every theorem. `WalkDepth.WalkSettles` shows which bound decides whether a walk
ends at all, and `WalkDepth.EndsIffRanked` on which trees every walk ends.

**Locks.** A protocol is a step relation over unboundedly many goroutines and processes.
Processes may die between any two steps. All
processes belong to one user: the code takes every error of a signal for a dead process, also the
one for a live process of another user. Of the lock file only this is assumed: at most one
live process owns it. Waiting may end at any time. Process IDs are not used again.

**Builds.** `ImageBuild.Meaning` is the image an operation makes of its parent, computed from
the parent alone. What the builder calls (commands, copying, commits, the image store) is a
record of arbitrary deterministic functions. The theorems assume what cannot be shown about
them: a layer has the file system it was made of, IDs identify images and resolve to them, and operations with equal
cache keys mean the same. Builds are compared by a view of their images. With `Exact` the whole
image counts; with `IgnoresHistory` its file system and its config without the history count.

**Digests** are collision-free; archive, compression and JSON encodings are taken as invertible.

## Where the code departs from its intent

Each departure is a lemma or method on concrete or arbitrary input, beside the condition under
which the code is right.

- A directory with entries that becomes a symlink: `DiffLaws.DirToLinkOverwrites`; exact in
  `DirToLink.LoopsHoldIff` for the first two loops and, without hard links, in
  `DirToLink.DiffIffNoDirToLink` for the whole. With hard links a later loop can repair the result:
  `DirToLink.HardLinkRepairs`, and nothing else can: `DirToLink.OnlyLinksRepair`.
- Parents of hard links that are added again get default attributes: `Layer.RelinkedParentIsStray`;
  exact in `LayerLaws.RestoredUnlessStray`.
- `Empty()` on a tree with an implicit root: `DiffLaws.EmptyTestFooled`; exact in `DiffLaws.EmptyTestIff`.
- Specs cached while unpacking keep whiteouts: `SpecCache.WhiteoutIsKept`; exact consequence in
  `SpecCache.UnchangedIsEmptyIff`.
- Layers with implicit directories depend on the clock: `SpecCache.ImplicitDirHasItsTime`; exact in
  `LayerFold.TimelessIff` for all layers and `LayerFold.TimelessIffDated` by their entries.
- A hash without other attributes prints a line that cannot be parsed:
  `AttrText.HashAloneIsRefused`; exact in `AttrText.AttrsParse`.
- A cache hit leaves an open bundle behind, and `COPY --from` a root file system that was left
  behind makes another layer than a copy from the unpacked image: `ImageBuild.StaleBundle` and
  `ImageBuild.KeptSourceDiffers`; exact in `ImageBuild.StepAgreesIff`.
- Cache entries of 64 KiB and more make the cache file unreadable, and an entry put behind an
  interrupted write is lost: `CacheLog.LongEntryBreaksFile` and `CacheLog.TornLineLosesEntry`;
  exact in `CacheLog.FoundIff` and, for whole runs, `CacheLog.LogIff`.
- Which tags garbage collection keeps can depend on repository order: `GcLaws.TagsDependOnOrder`;
  exact in `GcLaws.CollectsAnyhowIff`.

## Model

| member | source | states |
|---|---|---|
| `PathWalk.WalkValid` | pkg/fs/tree/fsnode.go:454-506 | every walk over a valid tree, through any symlinks, ends in a valid tree that has all old paths, at a node that is no symlink; the walkers that create directories end at a directory |
| `PathWalk.DepthMonotone` | pkg/fs/tree/fsnode.go:462-468 | a walk that stays within a bound on nested symlink resolution has the same outcome and tree under every larger bound |
| `WalkDepth.WalkFollows` | pkg/fs/tree/fsnode.go:454-506 | what a walk does, with any of the three walkers, follows from the symlinks of the tree alone: its end or its error, and no symlink changes |
| `WalkDepth.WalkSettles` | pkg/fs/tree/fsnode.go:454-567 | a lookup or a walk that creates directories never ends if it needs deeper nesting than the tree has symlinks: from that bound on its outcome and its tree are the same for every bound |
| `WalkDepth.EndsIffRanked` | pkg/fs/tree/fsnode.go:462-468 | on a tree every walk of a walker ends, whatever its start and path, if and only if the symlinks can be ranked so that the way to the target of each meets only symlinks of lower rank |
| `PathWalk.MkdirsThenLookup` | pkg/fs/tree/fsnode.go:514-567 | after mkdirs of a path succeeded, a lookup of the path, in this tree or in any later tree that only gained directories, returns the same node; symlinks stay, directories keep their attributes, other nodes at most become directories, new nodes are default directories |
| `PathWalk.PlainAdd` | pkg/fs/tree/fsnode.go:286-328 | addUpper below a path without symlinks sets the source at exactly that path and opens its ancestors, nothing else |
| `PathWalk.PlainLookup` | pkg/fs/tree/fsnode.go:450-506 | a lookup that meets no symlink ends at the path itself and changes nothing |
| `RawPath.CleanEnds` | pkg/fs/tree/fsnode.go:455-460 | a cleaned path leads to where its raw segments, taken one by one, lead to: an empty one and a dot stay, two dots go to the parent and a name to the entry; above the root a relative path leads nowhere and an absolute one stays |
| `RawPath.WalkEndsAtTarget` | pkg/fs/tree/fsnode.go:454-506 | a walk along the text of a path, relative or absolute, that meets no symlink ends where the raw segments lead to, with each walker; a lookup fails exactly if nothing is there, and every walk fails that leads above the root |
| `RawPath.LookupFinds` | pkg/fs/tree/fsnode.go:446-506 | a path that leads to an existing node which is no symlink finds it |
| `RawPath.LinkEndsAtTarget` | pkg/fs/tree/fsnode.go:462-468 | a symlink leads to where the raw segments of its text lead to, from the directory of the link or from the root |
| `NodeTree.FileSystem.FindChild` | pkg/fs/tree/fsnode.go:254-272 | the walk along the sorted list with its early exit returns exactly the entry of that name, or nothing if the directory has none |
| `NodeTree.FileSystem.NewEntry` | pkg/fs/tree/fsnode.go:576-607 | the new node is put where it belongs: names stay strictly ascending, first-child, next and parent links stay consistent, and the tree gains exactly that path |
| `NodeTree.FileSystem.SetSource` | pkg/fs/tree/fsnode.go:274-280 | the node gets the source, loses all entries if it is no directory any more, and the rest of the tree is as before |
| `NodeTree.FileSystem.Visit` | pkg/fs/tree/fsnode.go:518-552 | what each of the three walkers does to a node it visits, as on the tree as a value |
| `NodeTree.FileSystem.WalkPath` | pkg/fs/tree/fsnode.go:454-506 | the walk over linked nodes returns the node, the error and the tree that the walk over the tree as a value returns, and replaces no node; a walk that fails leaves the tree, or for walkers that create at most adds default directories and opens nodes that are no symlinks |
| `NodeTree.FileSystem.WalkText` | pkg/fs/tree/fsnode.go:454-506 | the walk over linked nodes along the text of a path: unless it meets a symlink it ends at the node, or with the error, that the raw segments of the path lead to |
| `NodeTree.FileSystem.Add` | pkg/fs/tree/fsnode.go:302-328 | add refines the addition to the tree as a value, for every path, source and walker |
| `NodeTree.FileSystem.Path` | pkg/fs/tree/fsnode.go:85-92 | following parent links gives the place of the node in the tree |
| `NodeTree.FileSystem.LookupPath` | pkg/fs/tree/fsnode.go:446-452 | looking up Path(n) returns n for every node that is no symlink |
| `NodeTree.FileSystem.Remove` | pkg/fs/tree/fsnode.go:378-400 | exactly the node and everything below it is gone, and the links of the rest are consistent |
| `NodeTree.FileSystem.RemoveWhiteouts` | pkg/fs/tree/fsnode.go:342-360 | exactly the whiteouts below the node are gone, nothing outside of it changes, and the recursion ends |
| `NodeTree.FileSystem.TreeValid` | pkg/fs/tree/fsnode.go:56-64 | well-linked nodes stand for a tree in which only directories have entries, or for a root alone |
| `NodeTree.EntryKeepsLinks` | pkg/fs/tree/fsnode.go:576-598 | inserting a name between a smaller and a greater one keeps every list ascending, complete and linked |
| `NodeTree.SourceKeepsLinks` | pkg/fs/tree/fsnode.go:274-280 | dropping the entries of a node keeps all other lists ascending, complete and linked |
| `NodeTree.UnlinkKeepsLinks` | pkg/fs/tree/fsnode.go:342-360 | taking an entry out of its list keeps every list ascending, complete and linked |
| `TreeDiff.ApplyParentsMirrors` | pkg/fs/tree/fsnode.go:233-238 | stopping at the first parent that has its counterpart's source already leaves every ancestor a mirror of its counterpart |
| `TreeDiff.WhiteoutUnderFile` | pkg/fs/tree/fsnode.go:195-204 | a whiteout below a path that is a file in the new tree leaves no trace in the diff |
| `TreeDiff.AddAllHolds` | pkg/fs/tree/fsnode.go:156-193 | in every iteration order the first loop adds exactly the new and changed nodes with mirrored ancestors |
| `TreeDiff.DelAllHolds` | pkg/fs/tree/fsnode.go:195-204 | in every iteration order the second loop adds whiteouts for exactly the deleted paths below a directory of the new tree, as long as it iterates no entry of a directory that became a symlink |
| `TreeDiff.RelinkAllHolds` | pkg/fs/tree/fsnode.go:206-214 | in every order the third loop adds exactly the unchanged hard links of added sources |
| `TreeDiff.DiffExact` | pkg/fs/tree/fsnode.go:143-216 | every run of Diff, whatever the orders of its two maps and the clock, succeeds and ends with the difference: the new, changed, deleted and relinked paths with their ancestors, each a mirror of its counterpart, a whiteout, or a default directory above a relinked path |
| `TreeDiff.Diff` | pkg/fs/tree/fsnode.go:143-216 | the three loops over maps in arbitrary order compute such a run, and the difference for all trees that fit |
| `DiffFields.DiffInFields` | pkg/fs/tree/fsnode.go:143-231 | every run of Diff, in terms of the nodes: without a difference the layer is empty; else it has exactly the paths that are new or differ in kind, mode, owner, group, modification time, size, link target, extended attributes or hash, whiteouts for exactly those lost from a directory that stays, the paths that share their node with a new one, and the directories above; what is no directory is the node of the new tree, a directory has its attributes |
| `DiffFields.SameIff` | pkg/fs/fsnodeattrs.go:89-93 | no path is new or lost if and only if the trees have the same paths and no two nodes differ in a field |
| `DiffLaws.WhiteoutsExact` | pkg/fs/tree/fsnode.go:195-204 | the paths of the diff that the new tree lacks are exactly the topmost deleted ones under one of its directories, and they are whiteouts |
| `DiffLaws.DiffConfluent` | pkg/fs/tree/fsnode.go:143-216 | two runs on the same trees have the same paths and equal nodes; only times of default parents of relinked paths may differ |
| `DiffLaws.HardLinksComplete` | pkg/fs/tree/fsnode.go:182-214 | if a shared source has an added or changed path, every path with that source is in the diff, with that very source unless it is a directory |
| `DiffLaws.EmptyTestIff` | pkg/fs/tree/fsnode.go:94-96 | Empty() tells in every run whether the trees agree if and only if the root of the new tree is explicit |
| `DiffLaws.EmptyTestFooled` | pkg/fs/tree/fsnode.go:94-96 | a run that looks empty although the roots differ, for every tree with an implicit root |
| `DiffLaws.DirToLinkOverwrites` | pkg/fs/tree/fsnode.go:195-204 | a directory that became a symlink: the diff turns an unchanged file into a symlink |
| `DirToLink.LastThroughLinks` | pkg/fs/tree/fsnode.go:195-204 | every run that comes to the entries of directories that became symlinks last, in any order and with any clock and nesting bound, fails or ends with something else than the difference |
| `DirToLink.DiffIffNoDirToLink` | pkg/fs/tree/fsnode.go:143-216 | without hard links to add again, every run with every clock ends with the difference if and only if no directory that loses an entry became a symlink, for each nesting bound |
| `DirToLink.LoopsHoldIff` | pkg/fs/tree/fsnode.go:156-204 | with hard links or without, the first two loops add exactly the changed and deleted paths in every order and with every clock if and only if no directory that loses an entry became a symlink |
| `DirToLink.OnlyLinksRepair` | pkg/fs/tree/fsnode.go:195-214 | a run that comes to such entries last leaves a symlink where none belongs after the second loop; if it still ends with the difference, the third loop added a path at or above every such symlink that is not itself to be added again |
| `DirToLink.HardLinkRepairs` | pkg/fs/tree/fsnode.go:195-214 | a run in which a hard link puts right what a whiteout overwrote |
| `Layer.TarRoundTrip` | pkg/fs/writer/tarwriter.go:41-206 | a write operation comes back from its tar entry if and only if it removes something below the root, or has no whiteout name, a size and a hash only if it is a file, and a link target and no mode exactly if it is a symlink |
| `Layer.WrittenReplays` | pkg/fs/writer/fsnodewriter.go:50-114 | replaying the writes of any top-down traversal on a tree puts every written node in place, clears what is below those that are no directories, and keeps the rest |
| `Layer.LayerRoundTrip` | image/store/blobstoreoci.go:231-256 | unpacking the tar entries of a diff on the old tree and dropping whiteouts gives the new tree's paths with equal nodes if and only if every node of the diff equals its counterpart |
| `Layer.FaithfulUnlessStray` | pkg/fs/tree/fsnode.go:206-214 | the diff's nodes equal their counterparts if and only if the default parents of relinked paths happen to; never if such a parent has its own owner or mode |
| `Layer.CommitRoundTrip` | pkg/fs/tree/fsnode.go:143-216 | for every order and clock: diff, write, tar, unpack and removal of whiteouts restore the committed tree: its paths, and at each of them its kind, its hash and every attribute but the access time |
| `LayerLaws.StrayIsLost` | pkg/fs/tree/fsnode.go:206-214 | if a directory is in the diff for a relinked path alone, no run whose clock differs from the directory's time and the zero time can be restored from its layer |
| `LayerLaws.RestoredUnlessStray` | pkg/fs/tree/fsnode.go:143-216 | unpacking restores the committed tree for every run, order and clock if and only if no directory of it is in the diff for a relinked path alone, which depends on the two trees only |
| `Layer.RelinkedParentIsStray` | pkg/fs/tree/fsnode.go:206-214 | a new hard link to a file below a directory with its own owner: the layer changes that directory |
| `Layer.LinksFollowTargets` | pkg/fs/writer/tarwriter.go:117-142 | whatever the order of the nodes, every hard-link operation comes after the operation that wrote its target |
| `Layer.LinkableIff` | pkg/fs/writer/tarwriter.go:113-142 | a hard link may name exactly the paths that were written before it and not removed since |
| `LayerLinks.WritesCalls` | pkg/fs/source/sourcefile.go:57-65 | the writer's map of written sources does what a search through the nodes before would: a file is written once, and every later path of its source as a link to the first |
| `LayerLinks.LinksUnpacked` | pkg/fs/writer/fsnodewriter.go:50-114 | replaying what was written, in any top-down order, makes each file once, at its first path, and its other paths links of that file |
| `LayerLinks.LinksRestored` | pkg/fs/tree/fsnode.go:143-216 | hard links survive a commit: after unpacking the layer two of its paths are one file if and only if they are one in the committed tree, and the nodes that the layer does not have are those of the old tree |
| `Digests.ChainIdInjective` | image/store/blobstoreoci.go:126-135 | equal chain IDs mean equal sequences of layers |
| `LayerFold.FoldAged` | image/store/blobstoreoci.go:148-169 | for any layers, the tree at any time is the tree at the zero time with the clock's time on every directory without a time; errors are the same at any time |
| `LayerFold.TimelessIff` | pkg/fs/writer/fsnodewriter.go:50-114 | what any layers make is the same at any time if and only if no directory of the tree at the zero time is without a time |
| `LayerFold.MarksTell` | pkg/fs/writer/fsnodewriter.go:50-114 | for entries that do not lie below symlinks, the entries alone tell of every path whether it is missing, a leaf, a symlink, or a directory with or without a time of its own |
| `LayerFold.TimelessIffDated` | pkg/fs/writer/fsnodewriter.go:50-114 | for such entries, what the layers make is the same at any time if and only if every directory that an entry names or lies in, the root included, has a time of its own by the end of the chain |
| `LayerFold.FoldShaped` | pkg/fs/writer/fsnodewriter.go:50-114 | whatever the layers are, the tree they make is valid unless its root is no directory, and then it is the root alone |
| `SpecCache.CommitOnOther` | image/store/blobstoreoci.go:231-256 | a layer committed on a cached spec, unpacked on any tree that equals the spec up to whiteouts and the times of some directories, makes the committed tree up to those times |
| `SpecCache.NormalizedSame` | pkg/fs/tree/fsnode.go:127-136 | normalizing a tree without whiteouts gives a tree with the same paths and equal nodes |
| `SpecCache.CommitFolds` | image/store/blobstoreoci.go:199-286 | the committed tree is what the chain with the committed layer makes, up to the times of directories without a time of their own, of which the longer chain has no more than its parent |
| `SpecCache.SpecAtAnyTime` | image/store/blobstoreoci.go:171-196 | a spec of the cache is what the layers make whenever they are unpacked: up to whiteouts and the times of directories without a time of their own, and exactly if what they make is the same at any time |
| `SpecCache.Traverse` | pkg/fs/tree/fsnode.go:113-124 | a traversal that visits every node once and no node after its descendants, in any such order |
| `SpecCache.LayerOf` | image/store/blobstoreoci.go:231-246 | the layer of one tree on top of another is refused as empty exactly when the trees agree |
| `SpecCache.OciStore.FSSpec` | image/store/blobstoreoci.go:171-196 | over any run of the store with any imported layers: it fails exactly if the layers make nothing, a hit and a derivation both return what they make, up to whiteouts and the times of directories without a time of their own, and the cache stays coherent |
| `SpecCache.OciStore.AddLayer` | image/store/blobstoreoci.go:199-286 | it fails exactly if the parent's layers make nothing; the new chain extends the parent's by one layer, its cached spec equals the committed tree, the commit is refused exactly if nothing changed, which for an unchanged file system means that the parent's spec has no whiteouts, and every cached spec is still that of its chain |
| `SpecCache.OciStore.UnpackLayers` | image/store/blobstoreoci.go:338-390 | it fails exactly if the layers make nothing; a spec cached while unpacking is the fold with its whiteouts, and the cache stays coherent |
| `SpecCache.OciStore.Import` | image/store/imagestorerw.go:62-153 | any layers can come from elsewhere: the cache stays coherent |
| `SpecCache.UnchangedIsEmptyIff` | image/store/blobstoreoci.go:231-238 | the difference of an unchanged file system to a cached spec is empty if and only if the spec has no whiteouts |
| `SpecCache.WhiteoutsSupported` | image/store/blobstoreoci.go:209-238 | a spec with a whiteout is among those that a commit supports, so that the case occurs |
| `SpecCache.WhiteoutIsKept` | image/store/blobstoreoci.go:373-385 | unpacking a removal leaves a whiteout in the cached tree |
| `SpecCache.ImplicitDirHasItsTime` | pkg/fs/writer/fsnodewriter.go:50-58 | a layer with an implicit directory makes a tree that depends on the clock |
| `Text.EscapeInverts` | pkg/fs/fsnodeattrs.go:283-299 | percent-encoding (section 2.1 of RFC 3986) of any bytes decodes to them, and the encoded text has no separator in it |
| `TextLaws.LowerInverts` | pkg/fs/fsnodeattrs.go:283-299 | escapes in lower case decode to the same bytes |
| `TextLaws.BadEscape` | pkg/fs/fsnodeattrs.go:283-299 | a percent sign without two hexadecimal digits behind it is refused, wherever it stands |
| `TextLaws.NatReads` | pkg/fs/fsnodeattrs.go:164-242 | a mode is a text of digits 0 to 7 and every other number one of digits 0 to 9, not empty |
| `TextLaws.NatDigit` | pkg/fs/fsnodeattrs.go:164-242 | a digit stands for its value |
| `TextLaws.NatGrows` | pkg/fs/fsnodeattrs.go:164-242 | a digit behind a number adds its value to eight times or ten times that number |
| `TextLaws.NatCanonical` | pkg/fs/fsnodeattrs.go:53-87 | printed numbers have no leading zeros |
| `TextLaws.IntReads` | image/builder/dockerfile/dockerfile.go:309-327 | an integer may have a plus or a minus sign, and is refused beyond its limits |
| `TextLaws.TrimIs` | pkg/fs/tree/fsnodestring.go:18-30 | trimming takes the blanks at both ends away, and nothing else |
| `AttrText.PathInverts` | pkg/fs/fsnodeattrs.go:283-299 | decodePath inverts encodePath for every byte string |
| `AttrText.ParseLoop` | pkg/fs/fsnodeattrs.go:164-242 | the loop over the attributes computes the parse, or fails where it fails |
| `AttrText.AttrsParse` | pkg/fs/fsnodeattrs.go:138-140 | exactly what parsing printed attributes gives, for all printable attributes: an error if no file attribute is printed, and else the attributes with missing times completed |
| `AttrText.AttrsInvertIff` | pkg/fs/fsnodeattrs.go:260-277 | printing and parsing gives the attributes back if and only if both times are set, the size is not negative and there are no header values without a URL |
| `AttrText.HashAloneIsRefused` | pkg/fs/fsnodeattrs.go:262-265 | a node with a hash but no file attributes prints a line that the parser refuses |
| `AttrLaws.AcceptedIff` | pkg/fs/fsnodeattrs.go:164-232 | whoever wrote the text: attributes are accepted exactly if each has a key and a value that its key allows, where unknown keys allow any |
| `AttrLaws.LastCounts` | pkg/fs/fsnodeattrs.go:164-232 | the attributes read are, key by key, what the last value given for the key says, extended attributes by their decoded names; unknown keys mean nothing |
| `AttrLaws.TextMeaning` | pkg/fs/fsnodeattrs.go:164-242 | both for whole texts, with a missing modification time completed by the clock and a missing access time by the modification time |
| `FsSpec.Parse` | pkg/fs/tree/fsnodestring.go:14-75 | the loop over the lines computes the parse of the spec, or fails where it fails |
| `FsSpec.TargetGood` | pkg/fs/writer/stringwriter.go:64-70 | the path that a printed link line names is one the parser has seen |
| `FsSpec.EnterStep` | pkg/fs/tree/fsnodestring.go:133-135 | the line printed for a node is read as that node, with the links seen so far |
| `FsSpec.LeaveStep` | pkg/fs/tree/fsnodestring.go:120-125 | the line for the end of a directory leads the parser back to the directory above |
| `FsSpec.SpecRoundTrip` | pkg/fs/tree/fsnodestring.go:14-135 | for every traversal of every tree a spec can hold: parsing the printed text gives the same paths and equal nodes, and two paths are one file exactly when they were |
| `SpecSafety.SeenIsDescribed` | pkg/fs/tree/fsnodestring.go:14-75 | whoever wrote the text: the paths that a link may name are exactly those that some line before described as a node, which links, implicit directories and whiteouts do not |
| `SpecSafety.LinksNameEntries` | pkg/fs/tree/fsnodestring.go:31-43 | a link line is accepted if and only if an earlier line described the path that it names, and makes its path that very node |
| `SpecOrder.PlanComplete` | pkg/fs/tree/fsnodestring.go:77-131 | files first, then directories with their entries: every node is printed once, while its directory is current |
| `SpecOrder.PrintedTreeParses` | pkg/fs/tree/fsnodestring.go:77-131 | a tree printed in the order of its lists is read back as that tree, with its hard-link groups |
| `StoredSpec.ListedTree` | pkg/fs/tree/fsnode.go:56-64 | the linked nodes, read as lists, have different names per directory and stand for the same tree |
| `StoredSpec.StoredSpecOk` | image/store/fsspecstore.go:23-53 | a cached spec that was printed, stored and parsed again is still a spec of its chain |
| `StoredSpec.StoredNodesOk` | image/store/fsspecstore.go:23-53 | the same for the linked nodes of a file system, printed in the order of their lists |
| `KeyedMutex.StepKeepsInv` | pkg/lock/mutex.go:17-48 | every step keeps: the table has an entry for a key exactly while someone refers to it, the count is holders plus waiters, and all contenders use one object |
| `KeyedMutex.HolderCanUnlock` | pkg/lock/mutex.go:35-48 | a holder's unlock never panics |
| `KeyedMutex.RunIsSafe` | pkg/lock/mutex.go:17-48 | in every state of every interleaving the table is consistent, nobody shares a key, and no holder's unlock panics |
| `KeyedMutex.WaiterEntersIff` | pkg/lock/mutex.go:17-33 | a waiter can go on if and only if nobody holds its key, and then it is the holder |
| `KeyedMutex.UnlockFrees` | pkg/lock/mutex.go:35-48 | after an unlock nobody holds the key, and all others are where they were |
| `KeyedMutex.PanicsIff` | pkg/lock/mutex.go:35-48 | an unlock panics if and only if nobody holds the key, whoever waits for it |
| `KeyedMutex.CanRefer` | pkg/lock/mutex.go:17-33 | everyone can start to wait at any time, whoever holds the key |
| `LockFile.MutualExclusion` | pkg/lock/lockfile.go:46-71 | at most one call of all goroutines of all live processes holds the lock |
| `LockFile.RunIsSafe` | pkg/lock/lockfile.go:25-79 | in every interleaving, including the death of processes, the composition of in-process mutex and lock file is mutually exclusive |
| `LockFile.ReleasesEverything` | pkg/lock/lockfile.go:25-79 | a call that fails or gives the lock back holds nothing of the in-process mutex afterwards, which is free for those that wait; the owner of the lock file is as before |
| `LockFile.RemovalFreesFile` | pkg/lock/lockfile.go:73-79 | a removal of the lock file frees it for every process; after a failed removal it still names the process, and only that one can take it |
| `LockFile.CanRelease` | pkg/lock/lockfile.go:73-79 | the step that ends a call is always enabled and cannot panic |
| `LockFile.BusyIff` | pkg/lock/lockfile.go:46-71 | a call whose turn it is finds the file busy exactly while another live process owns it, and else can take it, also from a dead one |
| `LockFile.WaiterLocks` | pkg/lock/lockfile.go:46-71 | a waiting call gets the lock by its own steps if no call of its process is ahead of it and no other live process owns the file |
| `LockFile.HolderUnlocks` | pkg/lock/lockfile.go:73-79 | a holder gives the lock back by its own steps: the file is gone and the mutex of its process free, with every waiting call still there |
| `LockFile.CanStart` | pkg/lock/lockfile.go:46-47 | a call can start to wait at any time |
| `SharedLock.StepKeepsInv` | pkg/lock/sharedlockdir.go:52-115 | every step keeps: while an exclusive locker scans, each file of a live process is among those it will still look at |
| `SharedLock.NoSharedBesideExclusive` | pkg/lock/sharedlockdir.go:52-70 | while an exclusive lock is held no live process holds a shared one, and nobody else an exclusive one |
| `SharedLock.RunIsSafe` | pkg/lock/sharedlockdir.go:52-158 | the same in every interleaving of any number of processes with a directory listing that is not atomic, including the death of processes |
| `SharedLock.CheckWaitsIff` | pkg/lock/sharedlockdir.go:76-114 | a shared lock file makes an exclusive locker wait if and only if its process is alive |
| `SharedLock.ScanEnds` | pkg/lock/sharedlockdir.go:52-114 | an exclusive locker that owns the lock file gets the lock by its own steps if no live process has a shared lock file, whatever dead ones left |
| `SharedLock.ExclusiveLocks` | pkg/lock/sharedlockdir.go:52-114 | an exclusive Lock returns by its own steps if no live process holds a lock and no call of its process is ahead of it |
| `SharedLock.SharedLocks` | pkg/lock/sharedlockdir.go:123-145 | a shared Lock returns by its own steps if the lock file is free: a new file of its process is there and the lock file is free again |
| `SharedLock.ExclusiveUnlocks` | pkg/lock/sharedlockdir.go:72-74 | an exclusive Unlock frees the lock file by its own steps |
| `SharedLock.SharedUnlocks` | pkg/lock/sharedlockdir.go:147-158 | a shared Unlock removes exactly its own file |
| `SharedLock.CanBegin` | pkg/lock/sharedlockdir.go:52-158 | a locker can begin at any time, whoever holds what |
| `ImageRepo.KeyUnique` | image/store/imagerepolocked.go:147-180 | ref, architecture and OS are a key of the index |
| `ImageRepo.AddKeepsOrder` | image/store/imagerepolocked.go:167-179 | an addition keeps the index the latest additions, newest first |
| `ImageRepo.LockedRepo.AddManifest` | image/store/imagerepolocked.go:147-180 | a valid descriptor comes first and replaces the entry with its key; an invalid one makes the session fail |
| `ImageRepo.LockedRepo.DelManifest` | image/store/imagerepolocked.go:182-205 | exactly the entries of the ref are gone; a missing ref makes the session fail |
| `ImageRepo.LockedRepo.Retain` | image/store/imagerepolocked.go:207-218 | exactly the entries with a kept digest stay, in order |
| `ImageRepo.LockedRepo.Limit` | image/store/imagerepolocked.go:220-224 | the newest entries stay |
| `ImageRepo.LockedRepo.Close` | image/store/imagerepolocked.go:71-88 | the index is stored, or the repository deleted if it is empty; after a failure what was stored stays |
| `ImageRepo.LockedRepo.Manifest` | image/store/imagerepo.go:56-76 | returns the latest addition of the ref for the platform that is still in the index, or none exactly if there is none |
| `ImageRepo.Session` | image/store/imagerepolocked.go:71-224 | any sequence of operations stores the latest additions, newest first, where the additions are the old ones followed by the accepted ones of the sequence in order, all of them if the session succeeds; one failed step leaves the stored index unchanged |
| `ImageRepo.FailureSticks` | image/store/imagerepolocked.go:147-218 | a failed step anywhere makes the whole session fail |
| `RepoLaws.SessionTracks` | image/store/imagerepolocked.go:147-218 | the index is a map: after any session that succeeds, without a limit, the manifest of a ref, architecture and OS is the one added last under them, unless since then its ref, all refs or its digest were removed |
| `RepoLaws.SessionFailsIff` | image/store/imagerepolocked.go:147-218 | a session fails exactly at a step that adds a manifest without ref, digest, size, architecture or OS, or that removes a ref which no entry has |
| `RepoLaws.CutKeeps` | image/store/imagerepolocked.go:220-224 | a limit keeps the first entries, as many as it says |
| `RepoLaws.NewestIsUnique` | image/store/imagerepolocked.go:167-179 | an index that lists the latest additions has no ref, architecture and OS twice |
| `ImageGC.Collector.Keep` | image/store/imagegc.go:91-112 | marks exactly the closure of the image under parents, and ends on cyclic parents |
| `ImageGC.KeepRecent` | image/store/imagegc.go:53-58 | in any order the closure of the recently used images is marked |
| `ImageGC.KeepTags` | image/store/imagegc.go:66-81 | the closure of the unexpired tagged images of a repository is marked, and expired ones are reported |
| `ImageGC.ClosureIsLeast` | image/store/imagegc.go:101-111 | the marked set is the least one that has the roots and is closed under parents |
| `ImageGC.GC` | image/store/imagegc.go:40-89 | blobs, image IDs and specs that survive are exactly the old ones that the closure of recently used and unexpired tagged images needs |
| `GcLaws.SurvivesIff` | image/store/imagegc.go:40-112 | what survives, in terms of the store: exactly the IDs of the images reached over parents from an image that is young enough or has a tag that is, the manifests, configs and layers of those images, and the specs of their chains |
| `GcLaws.EntriesLeft` | image/store/imagegc.go:66-82 | a repository within its limit keeps all entries if all its tags are in time, and else exactly those of images reached from the young ones and from the repositories up to it |
| `GcLaws.TagsStay` | image/store/imagegc.go:66-82 | a tag whose image was used in time stays, if the limit on entries allows it |
| `GcLaws.LimitHolds` | image/store/imagegc.go:78-81 | no repository has more tags than the limit |
| `GcLaws.SurvivorsAnyOrder` | image/store/imagegc.go:66-88 | surviving blobs, IDs and specs do not depend on the order of repositories |
| `GcLaws.TagsSafe` | image/store/imagestorero.go:170-182 | every ref left in any repository names an image whose manifest, config, layers and ID survive |
| `GcLaws.TagsDependOnOrder` | image/store/imagegc.go:66-82 | which tags survive can depend on the order of repositories |
| `GcLaws.OrderIrrelevantIff` | image/store/imagegc.go:66-82 | all orders of the repositories leave the same tags if and only if every repository keeps the same when it is visited first as when it is visited last |
| `GcLaws.CollectsAnyhowIff` | image/store/imagegc.go:40-89 | for repositories with different names: the collection itself leaves the same repositories with the same tags in every order if and only if every repository is left the same whether it is visited first or last |
| `GcLaws.CollectTwice` | image/store/imagegc.go:40-89 | without a limit per repository and with the clock standing still, a second collection changes nothing |
| `Stages.ReadKeepsStages` | image/builder/dockerfile/dockerfile.go:151-307 | loading any Dockerfile records for every stage the stages it reads and all of theirs |
| `Stages.ReachedAreDeps` | image/builder/dockerfile/dockerfile.go:63-68 | every stage that is read, directly or through others, is a dependency |
| `Stages.DepsAreReached` | image/builder/dockerfile/dockerfile.go:63-68 | every dependency is read, directly or through others |
| `Stages.SearchStage` | image/builder/dockerfile/dockerfile.go:309-327 | a number is the index of an earlier stage or an error, any other name the first stage of that name or an external image |
| `Stages.FirstNamedIs` | image/builder/dockerfile/dockerfile.go:309-327 | the stage found by name has the name and no earlier one does; none is found exactly if none has it |
| `Stages.LastNamedIs` | image/builder/dockerfile/dockerfile.go:110-128 | the target stage has the name and no later one does; none is found exactly if none has it |
| `Stages.DockerfileBuilder.ReadNode` | image/builder/dockerfile/dockerfile.go:210-307 | FROM, COPY and ADD resolve to stages or images, a failed instruction changes no stage, and dependencies stay complete |
| `Stages.DockerfileBuilder.Target` | image/builder/dockerfile/dockerfile.go:110-128 | the last stage of that name is selected with everything it depends on |
| `Stages.RunStage` | image/builder/dockerfile/dockerfile.go:70-78 | the instructions of a stage in order, up to the first that fails |
| `Stages.DockerfileBuilder.Apply` | image/builder/dockerfile/dockerfile.go:130-142 | the selected stages in order, each keeping the image it built; an error if there is no stage |
| `StageLines.LinesCall` | image/builder/dockerfile/dockerfile.go:130-307 | in a build of a loaded Dockerfile every line of a selected stage makes the call it stands for: FROM the image of the stage that it names, or the image of that name; COPY the image of the stage, the named image, or local files only if none is named; ADD never an image |
| `StageLines.LoadsLines` | image/builder/dockerfile/dockerfile.go:151-307 | a loaded Dockerfile has one stage per FROM, under its alias or its number, with one operation per line |
| `StageLines.LoadsIff` | image/builder/dockerfile/dockerfile.go:210-327 | loading fails exactly at a line that names an unknown stage number, at FROM without a name and at any other line before FROM |
| `StageLines.GroupsJoin` | image/builder/dockerfile/dockerfile.go:151-208 | the lines of the stages, one after the other, are those of the Dockerfile, cut before every FROM |
| `StageLines.NumbersRefer` | image/builder/dockerfile/dockerfile.go:309-327 | the number of an earlier stage stands for it, whatever the stages are called |
| `StageLines.NamesRefer` | image/builder/dockerfile/dockerfile.go:309-327 | a name that is no number stands for a stage of that name, or for an image if there is none |
| `StageLines.BuildIsCalls` | image/builder/dockerfile/dockerfile.go:130-142 | a build does nothing but these calls, in order, and every selected stage has the image that the builder has after its calls |
| `StageLines.BuildsIff` | image/builder/dockerfile/dockerfile.go:70-142 | a build that came to a selected stage gets through it if and only if its lines stand for calls on the images built so far, and none of them fails |
| `Stages.RunOpsLocal` | image/builder/dockerfile/dockerfile.go:70-78 | with a builder that starts over with FROM, a stage's run depends on the images it reads and on nothing before its FROM |
| `Stages.ReadsAreBuilt` | image/builder/dockerfile/dockerfile.go:120-142 | a selected stage runs after every stage whose image it reads |
| `Stages.SliceAgrees` | image/builder/dockerfile/dockerfile.go:110-142 | for every builder that starts over with FROM, every Dockerfile whose full build succeeds and every selection with its dependencies, each selected stage makes the same builder calls and gets the same image |
| `StageBuild.BuildMeans` | image/builder/dockerfile/dockerfile.go:130-142 | with the builder that keeps root file systems and a cache across stages, and whose own image IDs the later stages read: a clean build of all or some stages succeeds if and only if it means something, and every stage gets an image that counts as the one it means |
| `StageBuild.SliceAlike` | image/builder/dockerfile/dockerfile.go:110-142 | with that builder: if the full build succeeds, building a complete selection succeeds too, even on another cache and after other builds, and every selected stage gets an image that counts as that of the full build, if both builds are clean |
| `StageBuild.SliceBuilds` | image/builder/dockerfile/dockerfile.go:110-142 | if whole images count, every selected stage gets the image ID of the full build |
| `StageBuild.SliceSameFiles` | image/builder/dockerfile/dockerfile.go:110-142 | if the history does not count, every selected stage gets the file system and the config of the full build, whatever is copied from whatever was kept, if no bundle is left behind |
| `CacheLog.CacheFile.Read` | image/builder/buildcachefile.go:48-77 | reading succeeds if and only if no line is too long for the scanner, and gives the last value put per key |
| `CacheLog.CacheFile.Get` | image/builder/buildcachefile.go:35-46 | returns the last value put under the key; fails exactly if the map was not read yet and the file has a line that is too long |
| `CacheLog.CacheFile.Put` | image/builder/buildcachefile.go:79-99 | the file is the old one with as many bytes of the entry as were written, the call succeeds exactly if all were, and only then the map that was read has the value under the key |
| `CacheLog.GarbageIsSkipped` | image/builder/buildcachefile.go:63-71 | whole lines that cannot be parsed hide nothing, wherever they stand |
| `CacheLog.FoundIff` | image/builder/buildcachefile.go:48-99 | one who opens the file later finds a new value that was put if and only if the file ended in a line break and no line, the new one included, is too long |
| `CacheLog.PutReads` | image/builder/buildcachefile.go:48-99 | after a whole entry was appended its key has the value if the file ended in a line break, and every other key, or every key if it did not, has what the complete lines before say |
| `CacheLog.WrittenReads` | image/builder/buildcachefile.go:48-99 | what a later reader finds after any number of bytes of an entry were written: the entry as soon as it is complete, even without its line break, every other key as the complete lines have it, and nothing at all if a line is too long |
| `CacheLog.LogIff` | image/builder/buildcachefile.go:79-99 | over any sequence of writes, cut short anywhere, the file is the log of what was put, each entry on a line of its own, if and only if no write was cut short |
| `CacheLog.TornLineLosesEntry` | image/builder/buildcachefile.go:79-99 | an interrupted write followed by a complete one: the complete entry is lost to later readers |
| `CacheLog.LongEntryBreaksFile` | image/builder/buildcachefile.go:60-75 | an entry of 64 KiB can be put, and a cache opened later fails on every key |
| `ImageBuild.CachedSteps` | image/builder/imagebuilder.go:771-814 | an image found, or made and then remembered, is the one the operation means, and the bundle is that of the image unless another file system was found while it was open |
| `ImageBuild.KeptCopy` | image/builder/imagebuilder.go:612-681 | a copy from a root file system that was left behind makes what adding its files makes, with a lookup of its own, and remembers it as the copy |
| `ImageBuild.KeptMeans` | image/builder/imagebuilder.go:629-634 | the image made of a kept root file system counts as the one that was meant if and only if the layer made under the key of the files counts as the layer made under the key of the copy |
| `ImageBuild.StepAgreesIff` | image/builder/imagebuilder.go:284-814 | one operation, copies from kept root file systems included, succeeds exactly if it means something, with the image meant, its config, its bundle and file system builder, an earned cache and kept root file systems that are those of their images, if and only if it leaves no bundle behind and makes no other layer of a kept root file system |
| `ImageBuild.StepMakes` | image/builder/imagebuilder.go:284-814 | the image alone is the one that was meant if and only if no other layer is made of a kept root file system, even where the bundle is left behind |
| `ImageBuild.BuildAgreesIff` | image/builder/imagebuilder.go:284-814 | any sequence of operations, on any cache filled by builders and with any images removed, agrees after every operation with what the operations mean if and only if the run is clean |
| `ImageBuild.CachedIsUncached` | image/builder/imagebuilder.go:771-814 | a build on the cache left by earlier builds and a build without a cache both fail, or reach images that count as the same, if the runs are clean and no copy makes another layer of a kept root file system |
| `ImageBuild.SameFilesAsUncached` | image/builder/imagebuilder.go:612-814 | whatever is copied from whatever was kept: if no bundle is left behind, a cached build makes the file system and the config, up to its history, of the build without a cache |
| `ImageBuild.CleanIffBundlesFollow` | image/builder/imagebuilder.go:612-681 | up to the history a run that copies some files with every copy is clean if and only if it leaves no bundle behind |
| `ImageBuild.StaleBundle` | image/builder/imagebuilder.go:583-610 | a user name opens the bundle before the copied files are found in the cache; the next command runs without the files |
| `ImageBuild.KeptSourceDiffers` | image/builder/imagebuilder.go:612-681 | copying from a root file system left behind makes another image than copying from the same image unpacked, where the two differ in the history only |
| `ImageBuild.ImageBuilder.Find` | image/builder/imagebuilder.go:786-803 | a hit sets image and config and drops the file system builder; a missing entry or a removed image changes nothing |
| `ImageBuild.ImageBuilder.Configure` | image/builder/imagebuilder.go:332-460 | the config is changed, looked up, and committed on a miss; after a failure the bundle is closed and only the config differs |
| `ImageBuild.ImageBuilder.SetUser` | image/builder/imagebuilder.go:337-346 | as above; on a miss the user is resolved first |
| `ImageBuild.ImageBuilder.Run` | image/builder/imagebuilder.go:481-528 | refused on an empty image; on a miss the command runs in the bundle and its file system becomes a layer; after a failure the bundle is closed and nothing else differs |
| `ImageBuild.ImageBuilder.AddFiles` | image/builder/imagebuilder.go:583-610 | files are placed into the file system builder before the lookup; on a miss the result becomes a layer and is written over the bundle |
| `ImageBuild.ImageBuilder.CopyFilesFromImage` | image/builder/imagebuilder.go:612-681 | files come from a root file system left behind, with a nested lookup, or from the image unpacked |
| `ImageBuild.ImageBuilder.FromImage` | image/builder/imagebuilder.go:284-330 | the bundle is left behind under the ID of its image and everything starts over from the named image or from none |

## Left out

- Overlay nodes with later additions below them: overlays appear only as the ordered layers of an image.
- Device numbers, and the file types that a spec line may name beyond those the engine writes.
- Link targets that the tar reader rewrites relative to a destination directory; layers are unpacked at the root.
- Directory writer, file access, extended attribute and ownership calls, HTTP sources and the header cache.
- Image import, transports, trust policy, running containers, bundle collection, network and compose: system calls and configuration mapping.
- Dockerfile parsing and variable substitution: instructions come parsed and substituted.
- I/O errors while reading or deleting stored files during garbage collection and while looking up cached images.
- Overflow of the mutex counter and reuse of process IDs.
- Unicode blanks (U+0085, U+00A0 and the like) at the end of a linked path: strings are bytes and only ASCII blanks are trimmed.
- Permissions of attributes whose mode has the symlink bit: symlink sources have mode 0.
- Names given while building: `BuildName`, which nothing calls, and the names that `Tag` adds. Copies name images or their IDs.
- Stored image IDs from an earlier Apply of the same Dockerfile object: Apply starts with none.
- Another process that appends to a cache file after its map was read: the map stays that of the time of reading.
- MockDevices is the identity in the theorems: committing device nodes in rootless mode is not covered.
- NodeTree.FileSystem.Remove: the root cannot be removed; the code panics there.
- NodeTree.FileSystem.WalkPath: what a failed walk of a creating walker leaves is bounded, not determined.
- LayerLinks.LinksRestored: a link between a path of the layer and an unchanged one, where the two have different link objects of one source, and changes of links alone between unchanged paths: Diff sees neither.
- FsSpec.SpecRoundTrip: printing is modelled on values and not as appends to a writer; the order of extended attributes is any fixed order instead of the sorted one.
- SpecCache.Traverse: the order is any top-down one; the order of the linked lists is one of them.
- SpecCache.OciStore.AddLayer: nothing is promised where the trees do not meet the conditions of a faithful commit, since the cached spec can then differ from the fold.
- ImageBuild.ImageBuilder.CopyFilesFromImage: after a failure bundle and file system builder are not determined; a build ends there.
- DirToLink.DiffIffNoDirToLink: with hard links to add again the condition stays sufficient only, as DirToLink.HardLinkRepairs shows. Which runs are repaired depends on what symlinks resolve to in the half-built diff; no condition on the two trees is given.
- LayerFold.TimelessIffDated: entries below symlinks are covered by LayerFold.TimelessIff, which looks at the tree instead of the entries.
- FsSpec.Parse: a spec line whose name is empty, ".." or has an escaped slash is refused, where the code resolves or creates a path, and going to a path does not follow symlinks. The printer writes no such line.
- LayerFold.FoldAged: the clock does not advance during an unpacking.
- Panics on Dockerfiles with a stage that is only FROM scratch, and on COPY before any FROM: the model has an empty image ID there, and an error.
- CacheLog.CacheFile.Put: a failed sync after a complete write, which leaves the entry in the file but not in the map.
