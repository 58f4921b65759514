# csi-runtime in Dafny

A model of csi-runtime, a Go framework for Container Storage Interface (CSI) node plugins, with proofs about it.
`dafny verify dfyconfig.toml` checks all of it. It covers three parts.

**Volume lifecycle.** Stage, publish, unpublish and unstage, each a chain of filesystem, mounter and manager calls under
a per-volume lock that never blocks.

- `Kernel` is the world they change: a tree of directories, files, links and devices, and the mount table, oldest entry
  first. `PathTree` and `Documents` hold what both halves of the model share.
- `NodeMachine` gives each RPC a program counter. One step is one lock operation or one external call, and `Run` lets
  any number of requests interleave in any order. What the outside answers is part of each request (`Env`): which calls
  fail, what the manager replies, how the mount-point check turns out, what the stat before the lock saw.
- `NodeServer` holds the same RPCs as the source writes them: methods that change a host object step by step. Each is
  proved to end as its uninterrupted run through the machine ends: same reply, same logged effects, same world.
  That ties the methods to the machine's critical sections. The results about interleavings are about the machine
  itself. Logged are attaching, detaching, populating, every mount and unmount that succeeded and every RemoveAll.
- `Locality`, `LockProtocol`, `Serializability`, `Accounting` and `NodeSafety` prove what holds in every reachable state
  of every interleaving. `Replies` proves what every single request answers, logs and leaves, said of its own fields, the
  tree and the lines of the mount table. `Lifecycle` and `RoundTrip` prove what sequences of whole requests amount to.
  `MountOptions` is the option assembly.

**Storage.** `MemoryStore` (a heap map of heap maps) and `DirectoryStore` (a directory per volume) are the two backends
as classes, each proved against functions on values. `StoreSimulation` proves that those functions agree over every
run, `RegisterHistory` what a series of registers answers and leaves, `MemoryFiles` what becomes of a volume's files. `VolumeLayout` is the path functions, `FsGroup`
the parsing of the group attribute.

**Devices.** `DeviceSerial` proves the two serial parsers, as scanning loops, against the meaning of their regular
expressions. `DeviceVerify` is the poll that checks a device path and has udev repair it.

## Where the code and its documentation differ

The model follows the code.

- The comment on `NodeStageVolume` (node/nodeserver.go:311-312) and the CSI specification ask for idempotence. The code
  has no already-mounted check. A successful stage leaves the mount table alone if and only if the manager offers
  nothing to mount (`Lifecycle.StageMountsIff`, and for series `Lifecycle.StagesMountIff`), and a repeated one leaves
  the node as the first did under that same condition (`RoundTrip.RepeatedStageIff`). Otherwise every call stacks a
  mount (`RoundTrip.StagesStack`), and n stages need exactly n unstages (`RoundTrip.StackedRoundTrip`).
- Block stage makes its link at the very path that it has just required to be a directory, so it succeeds exactly when
  that directory has gone in between (`RoundTrip.BlockStageNeedsVanishedDirectory`). The lifecycle results are
  therefore about mount and populate access.
- Unstage unmounts the newest mount of the staging path but detaches the device of the oldest one
  (`Lifecycle.UnstageMounted`). The staged source reaches `DetachBlock` if and only if nothing from another source was
  mounted there before (`RoundTrip.VolumeRoundTrip`). In the populate branch `DetachBlock` gets the empty path.
- Unstage looks only at the staging path before it deletes. With a mount somewhere below, RemoveAll goes ahead, deletes
  everything it can and fails at the mount point (`Lifecycle.UnstagePopulated` has the exact condition).
- The format branch of stage passes the manager's filesystem type, even when it is empty, and not the resolved one;
  the two are the same exactly as `NodeMachine.FormatType` says.
- Publish has no check that a target path was given (it checks the staging path twice), so an empty target is answered
  FailedPrecondition and not InvalidArgument (`NodeMachine.PublishWithoutTarget`).
- The filesystem backend documents its base directory as absolute (storage/filesystem.go:45-46), but reads go through a
  view rooted at / that rejects absolute names (storage/filesystem.go:74). With such a directory no read finds anything,
  every register answers true and every listing fails (`RegisterHistory.RootedForgets`). The two backends answer all
  runs alike if and only if the base directory is not absolute (`StoreSimulation.BackendsAgreeIff`).
- Filesystem metadata that is read and does not decode is never repaired. A register answers true, writes under the empty volume ID,
  and from then on every listing fails (`RegisterHistory.CorruptRecordStays`).
- The branch of `VerifyDevicePath` that repairs a missing by-id link runs only for an empty device path that exists,
  which never happens (`DeviceVerify.EmptyPathNeverRepairs`).

## Model

| member | source | states |
|---|---|---|
| VolumeLocking.VolumeLocks.TryAcquire | utils/volume_lock.go:46-57 | true exactly when the volume was free; afterwards it is locked, and no other volume has changed |
| VolumeLocking.VolumeLocks.Release | utils/volume_lock.go:59-63 | frees that volume and no other |
| NodeServer.GetDeviceFromPath | utils/mount.go:32-52 | a path is a device only if what it resolves to has the device bit and no other mode bit; unresolvable paths are errors |
| PathTree.ResolveIsChain | utils/mount.go:33-36 | a path resolves to another if and only if a chain of no more than the allowed links leads there |
| NodeServer.Host.DeviceAt | utils/mount.go:74-80 | the search of the mount list returns the device of the oldest mount at the path, or the empty string |
| NodeServer.GetDeviceFromMount | utils/mount.go:54-83 | every outcome of links, mount-point check and list: error, not mounted, or the oldest mount's device |
| NodeServer.BindMount | utils/mount.go:85-93 | one bind mount of the source's device on the target, read-only if asked, or no change at all |
| NodeServer.AssembleOptions | node/nodeserver.go:406-457 | type, options and sensitive options are those of the entry whose options `MountOptions` characterises; a format mount takes the manager's type |
| NodeMachine.FormatType | node/nodeserver.go:408-477 | a format mount is given the resolved type if and only if the manager names a type and the request names none or the same |
| NodeMachine.PublishWithoutTarget | node/nodeserver.go:163-198 | an otherwise valid publish is refused with FailedPrecondition if and only if the target is empty or the stat finds no directory; a missing target never gives InvalidArgument |
| Replies.RefusedBeforeLock | node/nodeserver.go:163-198 | a request refused before the lock changes and logs nothing; incomplete gives InvalidArgument, a failed validation keeps its status on a stage only, a failed stat gives FailedPrecondition |
| Replies.AdmittedIff | node/nodeserver.go:327-366 | and it is refused unless it names what its kind needs, and on stage and publish validates and finds a directory |
| Replies.PublishAnswers | node/nodeserver.go:222-291 | every answer of a mount-access publish: told of a mount, staging no directory, target no directory or mount failed, or one line added |
| Replies.PublishedOptions | utils/mount.go:85-93 | a publish that mounts adds one line at its target, with bind, with ro if and only if it is read-only, and with no other option |
| Replies.BlockPublishAnswers | node/nodeserver.go:210-220 | every answer of a block-access publish; it links the target to the device exactly when staging leads to one with no other mode bit and the target is free |
| Replies.UnpublishAnswers | node/nodeserver.go:641-651 | every answer of an unpublish: nothing mounted or busy, unmounted but not removed, or both |
| Replies.UnstageBlind | utils/mount.go:33-47 | a staging path that cannot be resolved or looked at gives an error and no change |
| Replies.UnstageDevice | node/nodeserver.go:590-595 | a staging path that leads to a bare device is removed, or an error and no change; nothing is detached |
| Replies.UnstageUnsure | node/nodeserver.go:597-600 | a mount-point check or mount list without an answer gives an error and no change |
| Replies.UnstageUnmounts | node/nodeserver.go:602-618 | with a mounted device found: an error and no change if the unmount fails, else the newest line goes and a block manager's DetachBlock on the oldest line's device decides the answer |
| Replies.UnstageDeletes | node/nodeserver.go:606-618 | with none found: what RemoveAll leaves node by node, its error, and otherwise DetachBlock on the empty path decides the answer |
| Replies.DetachErrorReported | node/nodeserver.go:614-618 | an unstage that called DetachBlock answers OK only if that succeeded; its error is the answer, a status with its code, and all else is as without the error |
| Replies.StageAttachFails | node/nodeserver.go:380-388 | a failed AttachBlock is the answer, a status with its code and Internal otherwise, and nothing changes |
| Replies.BlockStageAnswers | node/nodeserver.go:392-400 | every other answer of a block-access stage |
| Replies.StageFills | node/nodeserver.go:481-495 | a manager that mounts nothing: Unimplemented without Populate, else its files node by node below staging and Populate's answer |
| Replies.StageMountFails | node/nodeserver.go:416-423 | the manager's own failed Mount is the answer, and nothing changes |
| Replies.StageMounts | node/nodeserver.go:467-495 | a manager that mounts: Internal and no change if the mounter fails, else one line, and then Populate's answer if there is one |
| Replies.StagedOptions | node/nodeserver.go:406-477 | the line of a successful stage: source, type, the plain options in order and once each, the sensitive remainder; and Populate has been called as well if the manager has it |
| NodeServer.Server.NodeStageVolume | node/nodeserver.go:313-514 | a busy volume gives Aborted and nothing changes; otherwise reply, tree, mount table and logged effects are those of its uninterrupted run, and the lock set is as before on every exit |
| NodeServer.Server.NodePublishVolume | node/nodeserver.go:150-291 | the same for publish |
| NodeServer.Server.NodeUnpublishVolume | node/nodeserver.go:624-652 | the same for unpublish |
| NodeServer.Server.NodeUnstageVolume | node/nodeserver.go:566-622 | the same for unstage |
| NodeMachine.Progress | node/nodeserver.go:370-513 | each external call keeps the request between acquire and release and strictly nearer to its exit |
| LockProtocol.LocksAreExact | utils/volume_lock.go:46-63 | in every reachable state of every interleaving the lock set is exactly the volumes of the requests between acquire and release, with one such request per volume |
| LockProtocol.Refusal | node/nodeserver.go:200-203 | a request is refused with Aborted if and only if another of its volume is in flight, and a refused one changes neither locks nor world |
| LockProtocol.QuietMeansUnlocked | node/nodeserver.go:636-639 | no lock is held if and only if nothing is in flight, whichever error exits were taken |
| LockProtocol.EveryRequestReturns | node/nodeserver.go:578-621 | ten steps of its own end any request in any interleaving, so no lock is held for ever |
| Locality.ExecLocal | node/nodeserver.go:370-496 | one call of a request goes the same way in all worlds its volume cannot tell apart, and changes only paths of its volume |
| Serializability.FinishLocal | node/nodeserver.go:566-622 | so does the whole rest of its critical section |
| Serializability.Serializable | node/nodeserver.go:200-648 | every interleaving is explained by running whole critical sections in the order of the locks: same replies, same logged effects, same node and mount stack at every path not locked at the moment, and a volume's mounts in the same order |
| Serializability.SerializableWhole | node/nodeserver.go:200-274 | once all requests have returned, every path is as after that serial run |
| Serializability.SerializableByPaths | node/nodeserver.go:370-373 | the same explanation for any requests such that no admitted one names a path at or below a path of another volume, no link below those paths leads astray and the manager keeps to the volume |
| Accounting.MountsAddUp | node/nodeserver.go:467-477 | in every run, failures included, the mounts on a path are the first ones plus those of requests that passed a mount there less those that passed an unmount there |
| Accounting.StageErrors | node/nodeserver.go:467-491 | in every reachable state, a failing stage that has mounted has had its Populate call fail |
| Accounting.FailedStageMountsNothing | node/nodeserver.go:401-496 | a stage that returned an error has added no mount anywhere, unless the error came from Populate |
| NodeSafety.NeverDeletesMountedVolume | node/nodeserver.go:585-612 | in every reachable state, with exact checks, named devices and volumes that share no paths, a request about to RemoveAll finds nothing mounted where its staging path leads |
| NodeSafety.AtMostOneBind | node/nodeserver.go:222-274 | in every reachable state, under the same conditions, each mount above the lowest on any path was made by a stage request or was there from the start, so bind mounts never stack |
| NodeSafety.StacksAreBounded | node/nodeserver.go:222-274 | a path that starts with at most one mount never carries more than one besides those that stage requests made there |
| Lifecycle.PublishServed | node/nodeserver.go:222-274 | a publish answered OK adds exactly one bind mount, a mounted target is left alone and answered OK, and a failed one changes nothing |
| Lifecycle.PublishRetry | node/nodeserver.go:222-274 | any series of identical publishes with failures in between ends as one success would have, or untouched if none succeeded |
| Lifecycle.PublishBindsIff | node/nodeserver.go:222-274 | whatever the check says, a publish changes the world if and only if it answers OK without being told that the target is mounted, and then it adds one bind mount |
| Lifecycle.PublishesAddUp | node/nodeserver.go:222-274 | so a series of publishes on one target adds to its stack exactly the number of such answers, and leaves the table alone if and only if there is none |
| Lifecycle.StageServed | node/nodeserver.go:401-496 | a stage answered OK leaves the tree alone and adds exactly one mount, on the directory staging leads to, with the assembled options |
| Lifecycle.PopulateServed | node/nodeserver.go:401-491 | any other successful stage, the manager not mounting or answering nil, adds the manager's files below the staging directory and changes no mount |
| Lifecycle.StageMountsIff | node/nodeserver.go:401-478 | a successful stage leaves the mount table alone if and only if the manager offers nothing to mount; otherwise it appends one entry |
| Lifecycle.StagesMountIff | node/nodeserver.go:311-478 | a series of successful stages appends as many entries as the manager offered, so none if and only if it never offered one |
| Lifecycle.UnstageMounted | node/nodeserver.go:597-618 | the newest mount of the staging directory goes, and a block manager detaches the device of the oldest; if a mount made inside the newest is still there, an error and no change |
| Lifecycle.UnstagePopulated | node/nodeserver.go:606-618 | where nothing is mounted on what staging leads to, RemoveAll is called; the answer is OK, with nothing left of the staging path and the empty path detached, if and only if no mount is at or below that path |
| Lifecycle.UnstagesDrain | node/nodeserver.go:597-606 | n unstages on a stack of at least n mounts all succeed if and only if no mount below is newer than the n-th newest of them; then each has taken exactly one away, and the tree and every other path's mounts stay |
| Lifecycle.UnstageAfterDrain | node/nodeserver.go:597-612 | that many unstages as there are mounts, and one more, all succeed if and only if no mount below was in the way of the unmounts or, at or below the staging path, of RemoveAll; exactly the staging path is then gone from the tree |
| RoundTrip.PublishRoundTrip | node/nodeserver.go:641-648 | k publishes on distinct empty directories, then their unpublishes in any order: all succeed, the mount table is restored exactly, the targets are gone, the rest of the tree is as it was |
| RoundTrip.VolumeRoundTrip | node/nodeserver.go:313-652 | stage, k publishes on targets outside the staged directory, unpublishes in any order, unstage: the table is restored, the targets are gone, staging is still there, and the staged source is detached if and only if it is the oldest there |
| RoundTrip.PopulateRoundTrip | node/nodeserver.go:481-491 | the same where the stage only filled the directory, for any staging path, targets inside it included: the table is restored, the targets are gone, of the rest exactly what RemoveAll can delete is gone, and the answer is OK if and only if no mount was at or below the staging path |
| RoundTrip.PopulateRestores | node/nodeserver.go:606-610 | for a plain staging directory and targets outside it: the staging directory is gone with everything in it, and the rest is as before the stage |
| RoundTrip.RepeatedStageIff | node/nodeserver.go:401-496 | n more successful calls of the same stage leave the node as the first did, the staging path leading where it led, if and only if n is 0 or the manager offers nothing to mount |
| RoundTrip.StagesStack | node/nodeserver.go:401-478 | where it does mount, n successful stages on one path stack n mounts on one directory |
| RoundTrip.StackedRoundTrip | node/nodeserver.go:597-606 | n unstages undo them, and the world is the one before the first stage |
| RoundTrip.BlockStageNeedsVanishedDirectory | node/nodeserver.go:359-398 | a block stage succeeds if and only if the directory it required has vanished and its parent is there; a directory still there gives Internal and no change |
| MountOptions.MergedOptions | node/nodeserver.go:418-455 | the options are the request's flags, nouuid for xfs, ro for reader-only modes and the manager's options: each once, ordered by first occurrence, nothing else |
| MountOptions.MergedIsStable | node/nodeserver.go:426-453 | sending the result back as request flags gives the same result |
| MountOptions.SensitiveOptions | node/nodeserver.go:457 | the sensitive options are the manager's in order, less exactly those that are plain before the merge |
| MemoryStore.MemoryFS.RemoveVolume | storage/memory.go:48-53 | that volume goes, no other changes, no inner map is shared |
| MemoryStore.MemoryFS.ReadMetadata | storage/memory.go:55-71 | the stored record; not found without one, invalid if it does not decode |
| MemoryStore.MemoryFS.ListVolumes | storage/memory.go:73-81 | each volume once and nothing else |
| MemoryStore.MemoryFS.WriteMetadata | storage/memory.go:83-96 | only the record of that volume changes, inner maps stay apart; not found for an unknown volume |
| MemoryStore.MemoryFS.RegisterMetadata | storage/memory.go:98-127 | the whole new contents and the answer for a new, an unchanged, a changed and an undecodable record; a new volume gets a new inner map |
| MemoryStore.MemoryFS.WriteFiles | storage/memory.go:129-140 | the copying loop adds exactly the given entries to that volume |
| MemoryStore.MemoryFS.ReadFiles | storage/memory.go:142-155 | a fresh map with the volume's entries, shared with no volume, so no later update reaches its bindings |
| MemoryFiles.RegisterKeepsFiles | storage/memory.go:98-127 | a register changes no file of any volume but its own record |
| MemoryFiles.WriteKeepsFiles | storage/memory.go:83-96 | nor does a write, which stores the record of a known volume and does nothing for another |
| MemoryFiles.RegisterAnswers | storage/memory.go:98-127 | true and the new record for a new or changed volume, false and no change for equal entries, an error and no change for text that does not decode |
| MemoryFiles.ReadAnswers | storage/memory.go:55-71 | a read finds the record exactly where the text decodes to it, nothing exactly where volume or record is missing, and answers invalid otherwise |
| MemoryFiles.RegisterAgain | storage/memory.go:115-117 | a second register answers true if and only if some entry of the context differs |
| MemoryFiles.FilesReadBack | storage/memory.go:129-155 | over every run of registers, writes, file writes and removes, a volume is there exactly while known and each other file reads back as last put there |
| Documents.SameContextIs | metadata/metadata.go:25-36 | two contexts count as equal if and only if they have the same entries, none and empty alike |
| DirectoryStore.Filesystem.RemoveVolume | storage/filesystem.go:101-103 | the volume's subtree goes |
| DirectoryStore.Filesystem.constructor | storage/filesystem.go:68-75 | the base directory is the cleaned name, and rooted exactly when the name starts with a slash |
| DirectoryStore.Filesystem.ListVolumes | storage/filesystem.go:105-125 | fails if and only if the base directory is rooted, the store cannot be read or an entry has no record; else every entry once |
| DirectoryStore.Filesystem.ReadMetadata | storage/filesystem.go:130-159 | the stored record; not found if it cannot be opened, as with a rooted base directory, invalid if it does not decode |
| DirectoryStore.Filesystem.WriteMetadata | storage/filesystem.go:161-170 | the record file alone changes, or the file that a link there leads to; fails without a directory for it |
| DirectoryStore.Filesystem.EnsureVolumeDirectory | storage/filesystem.go:210-221 | the volume directory, then the data directory, each made as `DirectoryStore.MkdirAllIs` says, the second only if the first succeeded |
| DirectoryStore.MkdirAllIs | storage/filesystem.go:211-218 | making a directory succeeds if and only if the path is missing from some directory, or link to one, on; nothing that was there changes and only directories on the way are new, even after a failure |
| DirectoryStore.Filesystem.RegisterMetadata | storage/filesystem.go:172-206 | the whole new tree and the answer on every branch, with the fall-through for an undecodable record, and with no record ever found below a rooted base directory |
| VolumeLayout.Spelled | storage/filesystem.go:293-309 | splitting, cleaning and joining put a volume whose ID is one ordinary component at base/inmemfs/ID |
| VolumeLayout.VolumesApart | storage/filesystem.go:293-309 | the paths of two such volumes never coincide or contain each other, and a record is never in a data directory |
| VolumeLayout.OrdinaryExactly | storage/filesystem.go:303-305 | a volume gets the directory named by its ID if and only if the ID is one ordinary path component |
| VolumeLayout.OddVolumesCollide | storage/filesystem.go:303-309 | what else can become of an ID: a trailing slash aliases a volume, an inner one nests it, a double dot and the empty ID leave the volumes |
| StoreSimulation.StepAlike | storage/memory.go:48-127 | one allowed call on both backends keeps the tree the exact image of the heap contents and gives the same answer; with a rooted base directory it gives the answer of a backend that never finds a record, and the contents still agree |
| StoreSimulation.BackendsAgree | storage/filesystem.go:101-206 | so does every run of register, read, write, remove and list |
| StoreSimulation.BackendsAgreeIff | storage/filesystem.go:68-75 | a run gives the same answers on both if and only if the base directory is not rooted or no operation of the run would have seen a record; all runs do if and only if it is not rooted |
| StoreSimulation.EmptyStoresAlike | storage/memory.go:36-40 | an empty store directory corresponds to an empty memory store |
| StoreSimulation.ListingNeverFails | storage/filesystem.go:105-125 | after every such run from an empty store a listing succeeds and names exactly the registered volumes, or fails if the base directory is rooted |
| StoreSimulation.RegisterRecovers | storage/filesystem.go:172-221 | after a register that stopped between directories and record, any run on other volumes goes as without it except that every listing fails; the next complete register of that volume answers true, leaves the tree as if nothing had happened, and listing names all volumes again, unless a rooted base directory makes it fail anyway |
| StoreSimulation.RemoveIsExact | storage/filesystem.go:101-103 | remove deletes exactly the volume's subtree; every other volume reads as before, or as not found if its record is a link that leads through that subtree |
| RegisterHistory.MemoryDetectsChange | storage/memory.go:98-127 | the k-th register answers true if and only if it is the first or its context differs from the previous one, nil being empty; a read gives the last context and the target path of the last true answer |
| RegisterHistory.DirectoryDetectsChange | storage/filesystem.go:172-206 | the same answers, but the target path of the first register; with a rooted base directory always true, and the last record |
| RegisterHistory.RootedForgets | storage/filesystem.go:68-75 | with a rooted base directory a registered record is not found, the listing fails and registering the same record answers true again |
| RegisterHistory.BackendsReadAlikeIff | metadata/metadata.go:25-36 | after any history the backends have answered alike if and only if the base directory is not rooted or every register was a change, and read alike if and only if it is not rooted and those two target paths are equal |
| RegisterHistory.CorruptRecordStays | storage/filesystem.go:172-206 | a record that does not decode stays so; register answers true if and only if the new context has entries, and then listing fails; below a rooted base directory it is overwritten unread |
| RegisterHistory.ReadAnswers | storage/filesystem.go:130-159 | the same on the filesystem: not found exactly when the name is rooted or leads nowhere, the record exactly when it leads to its text, invalid otherwise |
| RegisterHistory.RegisterBlocked | storage/filesystem.go:210-219 | a file where the volume's directory should be makes a register fail and changes nothing |
| RegisterHistory.WriteThroughLink | storage/filesystem.go:161-170 | a record that is a link is written through to the file it leads to; a directory there is a failure |
| FsGroup.ParseUint64 | storage/filesystem.go:342 | the digit loop in 64 bits accepts exactly the decimal strings whose value fits and returns that value; no intermediate value wraps unnoticed |
| FsGroup.ParseInt64 | storage/filesystem.go:342 | an optional sign and digits whose value is within 64 signed bits, and nothing else |
| FsGroup.FsGroupForMetadata | storage/filesystem.go:325-356 | the fixed group wins; else an attribute gives g exactly when it is a signed decimal of value g between 1 and 4294967295, is an error otherwise, and without one nothing changes |
| FsGroup.PrintParses | storage/filesystem.go:342-353 | printing a number in decimal and parsing it gives it back |
| FsGroup.SignedPrint | storage/filesystem.go:342 | a plus in front changes nothing, a minus negates, two signs or none of the digits are no number |
| FsGroup.DigitsAre | storage/filesystem.go:342 | the digits are the ten characters 0 to 9, each with its own value |
| DeviceSerial.ParseNvmeSerial | mount-manager/device-utils.go:132-139 | the scan returns the group of the leftmost and there longest match; it fails exactly when no key is followed by a non-space |
| DeviceSerial.KeyHasNoBorder | mount-manager/device-utils.go:59 | an occurrence of the key that starts before another one ends before it too |
| DeviceSerial.NvmeRoundTrip | mount-manager/device-utils.go:56-59 | anything without the key, the key, a name, then nothing or a space and anything: the name comes back |
| DeviceSerial.ParseScsiSerial | mount-manager/device-utils.go:106-113 | the scan, which never backtracks, returns the group of the anchored pattern's match, and fails exactly when there is none |
| DeviceSerial.ScsiMatchOnce | mount-manager/device-utils.go:54 | the text alone fixes where a match's runs end |
| DeviceSerial.ScsiRoundTrip | mount-manager/device-utils.go:52-54 | vendor, spaces, model, spaces, name, spaces: the name comes back |
| DeviceSerial.ScsiDecomposition | mount-manager/device-utils.go:54 | what is accepted can be taken apart in that way, and in one way only |
| DeviceSerial.ScsiReads | mount-manager/device-utils.go:54 | the serial is a name if and only if the text is vendor, spaces, model, spaces, that name and spaces |
| DeviceSerial.NvmeReads | mount-manager/device-utils.go:59 | the serial is a name if and only if it is all that follows the first key that anything follows |
| DeviceSerial.LineReads | mount-manager/device-utils.go:52-59 | a line of either tool, line end included, reads back a name without spaces, tabs and line ends |
| DeviceVerify.GetDevFsSerial | mount-manager/device-utils.go:241-250 | the prefix chooses the tool and its parser; other paths have the empty serial, a failing tool is an error |
| DeviceVerify.OnePoll | mount-manager/device-utils.go:182-230 | what one poll comes to, said of the texts the tools print: success, another poll, and which drive is triggered |
| DeviceVerify.RightLinkSucceeds | mount-manager/device-utils.go:203-218 | a path linked to a drive whose own tool prints the name is verified by the first poll, with nothing triggered |
| DeviceVerify.OtherLinkFails | mount-manager/device-utils.go:241-250 | a path linked to neither kind of drive is never verified by that poll |
| DeviceVerify.Udev.TriggerForDiskIfExists | mount-manager/device-utils.go:264-302 | exactly the first drive, sd before nvme, whose serial is readable, non-empty and the name is triggered; success means that it was found and took the trigger |
| DeviceVerify.Udev.Check | mount-manager/device-utils.go:182-230 | one poll ends in success, in failure or in a retry as the path and its serial say, and triggers at most one drive |
| DeviceVerify.Udev.VerifyDevicePath | mount-manager/device-utils.go:168-237 | true without error if and only if the first poll not asking for a retry saw the disk's serial; time-out if and only if all retried; false without error never; the triggers are those of the polls made, in order |
| DeviceVerify.OnlyTheDiskIsTriggered | mount-manager/device-utils.go:264-292 | over any run only drives with the disk's own serial are triggered, at most one a poll, and earlier triggers stay |
| DeviceVerify.EmptyPathNeverRepairs | mount-manager/device-utils.go:184-207 | with an empty device path, which never exists, nothing is triggered and nothing is verified |

## Left out

- Serializability.Serializable: volumes must not share paths and no link may lead from one volume's paths into another's; `Serializability.SerializableByPaths` states this of the requests' own paths. What the stat before the lock saw and how each external call turns out are fixed per request.
- Locality.ExecLocal: rests on the same division of the paths among volumes.
- LockProtocol.EveryRequestReturns: external calls that hang and cancelled contexts are not modelled.
- Accounting.MountsAddUp: a failed mounter call is taken to leave the mount table as it was.
- Lifecycle.UnstagesDrain: an unmount is taken to be busy because of a newer mount below, and of nothing else; open files are among the failures of the call.
- NodeSafety.NeverDeletesMountedVolume: volumes must not share paths, for with a shared staging path the per-volume locks do not protect the check. It speaks of the staging path itself: with a mount below that path RemoveAll deletes the files of the volume mounted there, which are not modelled, and then fails at the mount point; `Lifecycle.UnstagePopulated` says when.
- Lifecycle.UnstagePopulated: that loss of a mounted volume's files is not modelled.
- NodeSafety.AtMostOneBind: volumes must not share paths, and the mount-point check must be exact; the likely-not-mount-point heuristic of mount-utils can miss bind mounts on one device.
- Lifecycle.PublishRetry: needs the same exact check; `Lifecycle.PublishesAddUp` does without it.
- RoundTrip.VolumeRoundTrip: no target lies in or below the directory that staging leads to. Such a target is hidden by the staged mount, and its directory is then one of the mounted volume.
- RoundTrip.PopulateRoundTrip: that the targets are empty and that staging leads to an unmounted path is asked of the node as the stage left it.
- RoundTrip.RepeatedStageIff: the files of the first call do not replace a link on the way to the staging directory.
- StoreSimulation.BackendsAgree: needs IDs that are ordinary path components, a record written under its own ID and one target path per ID; `RegisterHistory.BackendsReadAlikeIff`, `RegisterHistory.CorruptRecordStays` and `VolumeLayout.OddVolumesCollide` say what happens otherwise.
- StoreSimulation.RegisterRecovers: the operations in between are on other volumes, and the record is written in one piece; a partly written one is an undecodable record, see `RegisterHistory.CorruptRecordStays`.
- MemoryStore.MemoryFS.ReadFiles: file contents are values, so that byte slices are shared between the copy and the store is not modelled.
- DirectoryStore.Filesystem.ListVolumes: the order of the listing is not modelled.
- DeviceVerify.Udev.VerifyDevicePath: the poll interval and timeout appear only as how many polls are made.
- DeviceVerify.Udev.TriggerForDiskIfExists: the map of serials it fills is read only by a commented-out log line and is not kept.
- DirectoryStore.Filesystem.WriteMetadata: links are followed only as the last component of a path, here and everywhere; a path through a linked directory is kept under its own name, so that the two names share their files is not modelled. A device file as record is taken to be a failure.
- DirectoryStore.Filesystem.constructor: the working directory is /; with another one a relative base directory makes reads and writes name different files.
- The contents of mounted volumes. The tree is that of the node without the mounts made since, so a stat, bind mount or Remove on a path below such a mount is taken to find what the mount hides; only RemoveAll and Populate leave that alone.
- Effects of the manager's own Mount call on the node, other than its answer.
- Successful block publish, and the replies of the CSI specification that the code never gives, such as ALREADY_EXISTS.
- JSON as bytes: encoding and decoding are inverse up to an empty context becoming nil, on valid UTF-8.
- The slice functions Union, Difference and AppendIfAbsent of lancet and the path functions of Go are written out from their documentation.
- `WriteFiles` and `ReadFiles` of the filesystem backend and the change of ownership: the atomic writer is a third-party package.
- Mounting the tmpfs when the filesystem backend starts; permission bits other than the equality in utils/mount.go:48.
- The Windows mounters and both statters, the gRPC servers, the controller and identity services, the driver's start and stop, logging: transport, or dispatch over a fixed set of interfaces.
- Running udev and serial tools, the existence check for those tools and the glob expansion: their results are inputs.
