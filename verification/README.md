# Verified model of a root file manager's hard core

The repository is a file manager that runs as root on a NAS.  Its hardest promises are
kept by a few pieces of code that run against other processes, against coarse clocks, or
against each other.  This project models those pieces and proves the promises, for every
input, every schedule and every interference.

**The move between filesystems** (`World`, `Ledger`, `Causes`, `Move`).  A filesystem of inodes and
directories with one clock per filesystem, as coarse as two seconds, on which others may
rewrite, rename, chmod or replace anything between any two system calls.  A move settles a
file's change time against that filesystem's own clock, compares every copied file with
its copy byte for byte, and unlinks an original only while it is still what was recorded.
The main results: a successful comparison means equal bytes at one of its own looks, after
which the source was not written; every name removed is one the ledger wrote down, proved entry by
entry, with every directory above it looked at again since the removal before; a regular
file removed has its bytes at the destination, or was put at a recorded link's name by
somebody who could reach it; an unrecorded entry and every directory above it stays; a
warning, a skip or a full ledger removes nothing.  And nothing is kept without a cause that
is in the run: a call that failed, a clock that did not get past a change time, or a look
at which the source, its copy, a directory above them or their bytes were not what was
recorded.  So a source still as recorded and equal to its copy goes, unless a call fails, a
clock stands still or the job is cancelled.

**Publishing one file** (`Publish`).  Unless the file has to be created under its final name, the
target's name only ever goes to this job's own inode, in one step and after an fsync; it is
then a complete file of the source's length, for a settled source exactly its content, with
the source's modification time unless setting it failed, always where nobody can reach it
before, and elsewhere as long as nobody writes into it.
Only this job's own inode is unlinked; a file reported as published was given the name by
the last call that changed it; and one reported as not published has left the name it was
built under, unless that was re-pointed or looking or unlinking failed, and has its cause
in the run.

**Copying a tree** (`CopyTree`, `MergeLaws`).  The copy is driven by the events of a
depth-first walk and finishes its directories late.  It is proved to compute the recursive
merge of the source tree into the destination tree, for every tree, policy and set of
failures; and about that merge: no entry changes kind, skip and keep-both alter nothing
that was there, an entry is skipped for exactly the causes listed, one with none of them is
in the finished tree as the source has it whatever else was skipped, no skip means
everything was copied, a directory made ends with its source's time and is stamped once.

**Never its own output** (`SelfCopy`).  What the walk reads, what the job writes into,
exactly when the two can meet, and that a walk which meets nothing of its destination is
never stopped.

**Symbolic links** (`Resolve`).  The resolver's own walk against pathname resolution
(section 4.13 of POSIX.1-2017 XBD) on any filesystem graph: what it returns names the same
object or fails where the kernel fails, and a request is refused for leaving the jail
exactly when a step of the kernel's own resolution looks up ".." in the base or follows an
absolute target that does not start at it.

**ACL inheritance** (`AclInherit`, `AclWire`).  The ordered match that decides whether a
directory passes down no more than its parent would, against first-match evaluation
(section 6.2.1 of RFC 7530), and the three loops over the attribute's bytes against one
codec.

**The break-glass gate** (`Gate`, `SourceTable`).  The ladder of lockouts computed by a
wrapping shift, serialised turns over whole runs, the token bucket over any window, and the
least-recently-touched table.

**The audit log** (`AuditFile`, `AuditLog`).  Writers, drain, mirror, durable workers and
`Close` in any interleaving, what a reader of the file then finds, when an event is dropped,
why a caller was refused, and that `Close` can always finish.

**The streaming archive** (`ArchiveNames`, `ArchiveStream`), **depth-indexed jobs**
(`WalkJobs`) and **listings** (`Listing`) complete it.

`KeepBoth` holds the "name (2)" rule that copies and archives share, `Basics` options and
bytes.

## How it is built

Code that changes fields step by step is a class whose methods are proved against
functions on values: `Copier`, `Publisher`, `Archiver`, `TarSink`, `ModeJob`,
`TreeDeleter`, `Table`.  The source's one copier appears as several of them, each with the
fields its part of the work uses, and likewise the archiver.  What has to hold over runs is stated over those functions.  The
audit logger and the self-copy guard, which are about interleavings, are transition
systems, and their theorems quantify over every run.

`Machine` is the system call interface: every call first lets the others act, any number of
times, on anything not out of their reach, and then appends itself to `past`, with the world
it saw and the world it left.  Only its methods assign its fields, so `past` is the run, and
what is promised of an instant or of a look is promised of an entry of it: `RegularProved`,
`LinkProved`, `ChainHeld`, `Kept`, `PublishedAt` and `Cleaned` all speak of it, and every
removal carries the part of the run before it.  `checks` counts the context checks that succeed
before a job is cancelled.  Results of calls into the kernel, of writes, of reads and of
timers are arbitrary.

Assumed of the world, and stated in the definitions: a filesystem's clock does not go back;
its granularity is at most two seconds; every change to an inode stamps its change time
with the current tick; content is not changed through a memory mapping; a link that a
directory out of others' reach names keeps its text.  Out of others' reach are a file with
no name and a private directory; whether anybody writes into a file that can be reached is
left open, and `Job.alone` says of a run that nobody did.  Claims about a
regular file's bytes hold where the file is on the filesystem whose clock was read
(`RegularProved` and `Compared` are conditioned on the device).  A final lookup and the
unlink directly after it are one step, and so are the check of a temporary name, the look
at the target and the rename: the windows the source's notes name
(`internal/fsops/copy.go:107-111`).

## Where the code and what is said of it differ

Each of these but the last, which is about two constants, is modelled as the code does it,
with a lemma that shows it.

- A symbolic link is not looked up again between the last look at its copy and its unlink,
  so what is removed may be anything but a directory, a file that exists nowhere else
  included: `Ledger.LinkWindow` is such a run.  It is the recorded link exactly when the
  name was not re-pointed since: `Ledger.RemovedLinkIsTheRecordedIff`, which also says that
  a parent directory out of others' reach suffices.
- Publishing over an existing name looks at the target between checking the temporary name
  and renaming it, so the window said to be two adjacent calls wide is three; what coming
  into it does is `Publish.WindowPublishesAStranger`.  A look at the target that fails is
  not a reason to stop, so a symbolic link that appeared there can be replaced unseen:
  `Publish.BlindReplacesALink`.  `ReplacedAFile` promises a regular file where the look
  succeeded.
- A file that can be reached before it is published, as every overwrite's is without a
  private directory, can be rewritten there under every check:
  `Publish.UnshelteredIsExposed`.
- Without an unnamed file and without a private directory a new file is created under its
  final name, and all-or-nothing fails exactly there: `Publish.DirectIsSeenHalfMade`, and
  the run `Publish.DirectRun`.
- The gate reads its clock before it takes its lock, so readings can arrive out of order,
  and a stale one turns the bucket's last refill back: `Gate.StaleReadingPaysTwice`.  In
  order, the bound holds: `Gate.WindowBound`.
- A failed append that wrote all of a line but its newline is readable, and takes the next
  line with it: `AuditFile.TornLineSwallowsTheNext`; exactly when a verdict and a reader
  agree is `AuditFile.ReadableIff`.
- A directory that is adopted as a destination while it is being read is both read and
  written: `SelfCopy.AdoptedWhileRead`, and exactly then: `SelfCopy.ReadsATrackedOneIff`.
  A created directory whose fstat fails is not tracked, and the root goes on:
  `SelfCopy.UnstatedIsNotTracked`.
- A malformed ACL attribute yields the entries before the fault, not nothing
  (`internal/fsops/acl_linux.go:317-319` against line 329): `AclWire.FaultKeepsThePrefix`.
- An empty inheritable list is accepted whatever the parent passes down, a DENY included:
  `AclInherit.EmptyHidesADeny`.
- `remember` is said to share the copy record's bound; the two are separate constants.

## Model

| member | source | states |
|---|---|---|
| World.SettledIsFrozen | internal/fsops/copy.go:1937-1974 | once the clock is past an inode's change time, an inode still carrying that change time was not touched at any instant between |
| World.UnsettledRewriteIsInvisible | internal/fsops/copy.go:1841-1848 | without settling, a same-length rewrite inside one tick with its mtime put back leaves every stat field as it was |
| World.OldIsPast | internal/fsops/copy.go:1878-1891 | a change time older than the recent bound lies before the current tick, however coarse the clock |
| World.EvolvesTrans | internal/fsops/copy.go:1960-1974 | interference composes: what any two runs of calls may do, one run may do |
| Move.Copier.Settled | internal/fsops/copy.go:1885-1918 | a true answer means the change time is strictly in the past of that directory's filesystem clock; the cache of clock readings never runs ahead of the clock; a false one means a reading failed or eleven readings of this call were not past it |
| Move.Copier.SettleObserved | internal/fsops/copy.go:1998-2011 | OK means the state returned is the file's now, has the settled change time, and the clock is past it; unverifiable that the clock did not get past it, changed that the file was found touched, or a call failed |
| Move.BaselineIsFrozen | internal/fsops/copy.go:4681-4693 | a file whose change time is back at its settled baseline was in that state at every instant since |
| Move.Copier.ReadFull | internal/fsops/copy.go:4709-4741 | bytes read over many calls are one chunk of the settled content if the file is still in its settled state afterwards |
| Move.Copier.SameBytes | internal/fsops/copy.go:4709-4741 | "same" means both settled contents are equal, whatever the read calls returned and whenever others acted; "different", both ends still in their baseline states and no read failed, means they differ; unreadable that a read failed |
| Move.Copier.CompareHeld | internal/fsops/copy.go:4667-4693 | two held files called the same held the same bytes, in their baseline states, at a look made here; not the same means that a call failed, an end was found moved, or the bytes differ |
| Move.Copier.ContentMatches | internal/fsops/copy.go:4601-4693 | a description returned means that at one of the looks made here, with both clocks past what is recorded, source and published copy were in their recorded states and held the same bytes; none means that at a look made here an end was not as recorded, a clock was not past it, a call failed, or the bytes differ |
| Move.Copier.BothUnmoved | internal/fsops/copy.go:4681-4693 | both ends found unmoved were in their baseline state throughout the comparison and at the source's last fstat |
| Move.Copier.CopyStillThere | internal/fsops/copy.go:4372-4435 | a true answer means the copy's name meant the recorded inode, of the recorded kind, a file in the state it was published in; a link's target text is read after that and is the recorded one; a false answer has its look or its failed call in the run |
| Move.Copier.DestClockSettled | internal/fsops/copy.go:4459-4472 | a true answer puts the published copy's change time in the past of the destination's clock |
| Move.Copier.LevelsUnchanged | internal/fsops/copy.go:4252-4262 | a true answer means every held source directory of the chain, the root included, was fstat'ed in this call and had its recorded identity, permissions and owner |
| Move.Copier.CompareAndUnlink | internal/fsops/copy.go:4322-4355 | what is unlinked was found equal to its copy at a look of this delete and is still in that state; kept means nothing was removed, for a cause of this call, not kept means the name is gone |
| Move.Copier.LinkTextsMatch | internal/fsops/copy.go:4308-4321 | both target texts were read, each at a look made here, and are the recorded one |
| Move.Copier.CheckAndUnlinkLink | internal/fsops/copy.go:4308-4352 | a symbolic link goes only after three looks of this run, at its state, its text and the copy's text; in a directory out of others' reach what is unlinked is what was looked at |
| Move.Copier.DeleteRecordedEntry | internal/fsops/copy.go:4276-4355 | one recorded leaf is removed only with its proof; an entry with no record is kept; a recorded one is kept only for a cause of this call |
| Move.Copier.PinDirectory | internal/fsops/copy.go:4107-4137 | the directory descended into is the recorded inode, was looked at here and was as recorded, and its copy is the recorded destination directory; none is held only for a cause of this call |
| Move.Copier.RemoveDirectory | internal/fsops/copy.go:4204-4236 | a directory goes only as the held, recorded inode and empty, with it and all above it looked at again; anything kept below keeps it, and nothing else but a cause of this call |
| Move.Copier.DeleteRecorded | internal/fsops/copy.go:4097-4244 | over any ledger and any interference every removal is licensed by the ledger, with the whole chain above it looked at since the removal before; kept=false means the root's name is gone; kept=true without cancellation, that the run holds a cause for this entry, for one below it, or for a directory above |
| Move.Copier.DeleteEntries | internal/fsops/copy.go:4145-4194 | the children of a directory are removed only as entries of that directory in the ledger, each after a look at the whole chain of its own |
| Move.Copier.FinishMove | internal/fsops/copy.go:3994-4042 | a warning, a skip or a full ledger keeps the source and removes nothing; before the first removal come, in order, an open at which the root's name still meant the held reference and an fsync of the container; otherwise the source is kept only where that open or fsync says so or the ledger's delete has its cause |
| Ledger.UnrecordedStays | internal/fsops/copy.go:4097-4236 | no removal is of an unrecorded name, and a directory still holding anything is never removed |
| Ledger.RemovedFilesAreAtTheDestination | internal/fsops/copy.go:4276-4355 | a regular file removed was either recorded as one, and held the bytes of its published copy at a look of the delete, after which it was not written, or was put at a recorded link's name after both looks at it; in a directory out of others' reach always the first |
| Ledger.LicensedIsRecorded | internal/fsops/copy.go:2098-2118 | a licensed removal is of a name the record wrote down in that directory |
| Ledger.LicensedByOneEntry | internal/fsops/copy.go:4097-4262 | each removal is answered for by one entry of the ledger, its proof, and an fstat of every directory above it after the removal before |
| Ledger.RemovedLinkIsTheRecordedIff | internal/fsops/copy.go:4308-4352 | a link's removal is of the recorded inode as looked at exactly when the name was not re-pointed since that look of the run, of the one whose text was read exactly when not since the read; always in a directory out of others' reach |
| Ledger.LinkWindow | internal/fsops/copy.go:4308-4352 | a run of the link's half, all licensed, that removes a file never recorded and never copied, of any content, of which there is no other |
| Publish.Publisher.OpenSource | internal/fsops/copy.go:2707-2757 | the descriptor is of the listed file, a regular one, in the state of the last fstat of it, and for a move its change time is in the past before a byte is read; none means a call failed, the name means another inode or no file, or its clock did not settle |
| Publish.Publisher.CopyChunk | internal/fsops/copy.go:2860-2886 | a buffer read and written keeps the file a beginning of the settled content, where nobody else writes into it |
| Publish.Publisher.Fill | internal/fsops/copy.go:2860-2886 | a fill that ended holds exactly the settled content if the source is still in that state and nobody else wrote into the file, and is of another length only if the source moved; one that did not end met a failed call or a cancelled job |
| Publish.Publisher.Gate | internal/fsops/copy.go:2896-2961 | what passes the checks before naming has been fsynced and not written to since, and with nobody else writing into it is a complete file of the source's length, of the settled content for a settled source, with the source's modification time unless setting it failed; what does not pass met a failed call, a source that moved, or a wrong length |
| Publish.Publisher.StampAndFlush | internal/fsops/copy.go:2941-2961 | the file has the time of its source, unless the call that sets it failed, and was fsynced after it |
| Publish.Publisher.MoveOver | internal/fsops/copy.go:3047-3080 | the target goes to this job's inode, flushed, and finished where it was, or is left and the temporary name given up; without overwriting nothing is replaced, and with it no directory, and nothing but a regular file unless the look failed |
| Publish.Publisher.GiveName | internal/fsops/copy.go:2977-3080 | success means that at a look of this call the name checked meant the file, and that the last call to change the target gave it that inode; failure that a name given is given up, and that a call failed, the name was re-pointed or the target is no file |
| Publish.Publisher.Build | internal/fsops/copy.go:2761-2804 | the file is new and empty, logged as created if it has a name; it has none where it can, else is in the private directory if there is one, where nobody else can reach it, and only a new file in a destination with neither is created under its final name; it is not made only where a call failed or the directory was suspicious |
| Publish.Publisher.Finish | internal/fsops/copy.go:2823-2961 | a file called finished is flushed, complete where nobody else wrote into it, and has changed no name; otherwise its own name is gone, re-pointed, or could not be looked at or unlinked |
| Publish.KeptTrans | internal/fsops/copy.go:2977-3011 | what each part of a copy promises of the calls it made, the whole copy promises of all of them |
| Publish.Publisher.CopyFile | internal/fsops/copy.go:2704-3011 | every call of the run that changed the target gave it this job's own file in one step, flushed, complete and with the source's modification time (unless setting it failed) if sheltered or undisturbed; a file without a name was complete when it first had one; only this job's inode was removed; published means the target was given it; not published that its own name is given up, and that the run holds the cause: a failed call, a source or a name that changed, a target that is no file, or a suspicious directory; content is exact whenever the clock was past the source's change time when it was opened |
| Publish.Publisher.UnlinkIfOurs | internal/fsops/copy.go:3150-3162 | whatever inode the kernel removed is the one this job created, and afterwards the name does not mean it unless looking or unlinking failed |
| Publish.Publisher.Discard | internal/fsops/copy.go:3089-3094 | giving up removes nothing but this job's own inode, and nothing at all of a file without a name |
| Publish.UnshelteredIsExposed | internal/fsops/copy.go:4557-4566 | whatever the names, a complete file that can be reached before it is published can be rewritten there, pass the checks of name and length, and be published as other content |
| Publish.WindowPublishesAStranger | internal/fsops/copy.go:107-111 | a name re-pointed between its check and the rename publishes another file |
| Publish.WindowPublishesAStrangerIff | internal/fsops/copy.go:3030-3032 | and what is published is this job's exactly when it was not |
| Publish.BlindReplacesALink | internal/fsops/copy.go:3058-3064 | a symbolic link that appears at the target is replaced where the look at it fails |
| Publish.DirectIsSeenHalfMade | internal/fsops/copy.go:3499-3504 | created under its final name, a file that is to hold anything is there before it is whole |
| Publish.DirectRun | internal/fsops/copy.go:3506-3526 | a run in which the target's name means any proper beginning of the source |
| KeepBoth.KeepBothInjective | internal/fsops/copy.go:3924-3938 | two attempts never make the same name |
| KeepBoth.KeepBothShape | internal/fsops/copy.go:3900-3938 | a candidate is a prefix of the stem, the counter and the whole extension, within 255 bytes |
| KeepBoth.KeepBothIsLongest | internal/fsops/copy.go:3924-3938 | a candidate keeps the longest beginning of the stem that fits and cuts no sequence, and there is none only where nothing fits |
| KeepBoth.ItoaSays | internal/fsops/copy.go:3883-3886 | the counter is written in decimal |
| KeepBoth.TruncateAtRune | internal/fsops/copy.go:3947-3956 | at most max bytes, unchanged if it fits, cut only before a byte that begins a sequence, and as late as that allows |
| KeepBoth.SplitKeepBoth | internal/fsops/copy.go:3890-3897 | stem and extension make up the name; there is an extension exactly if there is a dot past the first byte and it is no directory, and it starts at the last one |
| KeepBoth.CounterReadsBack | internal/fsops/copy.go:3883-3886 | the counter can be read back off a name that ends in one |
| CopyTree.Place | internal/fsops/copy.go:3823-3848 | exactly what becomes of an entry: its own name if that can be looked up and is free; merged iff a directory meets a directory; replacing iff a leaf meets one of its kind under overwrite; refused iff the lookup fails, the kinds differ, or a leaf meets its kind and is to be skipped or no numbered name is free |
| CopyTree.FreeName | internal/fsops/copy.go:3852-3874 | the name found is free and numbered within the bound |
| CopyTree.Copier.TryNames | internal/fsops/copy.go:3852-3874 | the loop finds the first free numbered name, or refuses |
| CopyTree.Copier.Decide | internal/fsops/copy.go:3823-3848 | the placement of an entry in the innermost directory is the one the merge calls for |
| CopyTree.Copier.AncestorUnchanged | internal/fsops/copy.go:1785-1818 | the shallowest changed directory is reported once, and nothing below it is copied again |
| MergeLaws.AncestorsMean | internal/fsops/copy.go:1785-1818 | an item is copied only and whenever no source directory above it was or is found changed; the first such directory is marked, and reported if it was not before |
| CopyTree.Copier.Unwind | internal/fsops/copy.go:3665-3682 | every frame at or below the depth is finished, deepest first |
| CopyTree.Copier.Pre | internal/fsops/copy.go:1648-1741 | frames left over from other branches are finished first; a leaf is merged, a directory only placed; below a directory that was not made nothing happens |
| CopyTree.Copier.Opened | internal/fsops/copy.go:1511-1609 | the placed directory is made or adopted with a frame of its own, or reported once with no frame |
| CopyTree.Copier.Visit | internal/fsops/walk.go:396-464 | one entry's events, once finished, have merged exactly that entry into the directory its depth stands for, and nothing anywhere else |
| CopyTree.Copier.VisitKids | internal/fsops/walk.go:473-547 | all entries of a directory, enumerated in any order, are merged in that order |
| CopyTree.Copier.CopyTree | internal/fsops/copy.go:1384-1488 | a selected directory's whole run computes the recursive merge into the container, with every frame finished |
| CopyTree.DirIsMerged | internal/fsops/copy.go:1587-1609 | entering, filling and finishing a directory by events is the merge of that directory |
| MergeLaws.KidKeepsWhatWasThere | internal/fsops/copy.go:3814-3848 | no existing entry at any depth becomes another kind; unless overwriting, none is altered |
| MergeLaws.KeptAtEveryPath | internal/fsops/copy.go:3814-3848 | the same read off any path |
| MergeLaws.OnlyItsOwnName | internal/fsops/copy.go:3823-3874 | merging one entry leaves entries of other names as they were and adds its own name or, keeping both, a numbered one |
| MergeLaws.FreeNameIsFirst | internal/fsops/copy.go:3852-3874 | keep-both takes the first name nothing answers to, and gives up only at a name that cannot be made or looked up or when all are taken |
| MergeLaws.FreeNameMeans | internal/fsops/copy.go:3852-3874 | keep-both refuses exactly where it is stuck, and takes a name exactly if it is the first free one |
| MergeLaws.LeafIsSkippedIff | internal/fsops/copy.go:1648-1741 | a file or link is skipped, and nothing touched, exactly if a directory above changed, it is special, its lookup failed, another kind or (skipping) anything is there, no numbered name is free, or its path cannot be made; otherwise it is put under its name and nothing else changes |
| MergeLaws.DirIsSkippedIff | internal/fsops/copy.go:1511-1609 | a directory is skipped exactly if a directory above changed, it cannot be opened or described, its lookup failed, its path cannot be made, or another kind is there; otherwise it is merged into what is there or into a new one |
| MergeLaws.UncausedIsCopied | internal/fsops/copy.go:3823-3874 | whatever the policy, a file or link with none of the causes has its copy when its directory is finished, whatever became of its siblings |
| MergeLaws.ClearIsCopied | internal/fsops/copy.go:3814-3848 | overwriting or skipping, an entry at any depth with nothing in its way in the destination as it was before the job is there as the source has it, whatever else was skipped |
| MergeLaws.ClearIsInTheTree | internal/fsops/copy.go:1384-1488 | the same in the finished tree of a whole root |
| MergeLaws.NoSkipMeansCopied | internal/fsops/copy.go:5034-5065 | a job that counted no skip has a copy of everything it was given, and every directory was enumerated to its end |
| MergeLaws.MadeDirectoryKeepsItsTime | internal/fsops/copy.go:3660-3682 | a created directory ends with its source's time, whatever is copied into it and after it |
| MergeLaws.StampedOnce | internal/fsops/copy.go:3665-3682 | no directory is stamped twice |
| MergeLaws.RootMerge | internal/fsops/copy.go:1384-1488 | all of it for a selected directory and the container it is copied into; and in the finished tree every directory stamped has its own source's time, at whatever depth |
| MergeLaws.DirIsTimed | internal/fsops/copy.go:3665-3682 | whatever is merged beside and into it, every directory stamped while a directory is merged ends with its source's time |
| SelfCopy.NeverReadsItsOutput | internal/fsops/copy.go:747-807 | in no schedule does the walk read the container or a directory this job made and writes into; open frames are tracked; a full set stops this root and every later one |
| SelfCopy.ReadsATrackedOneIff | internal/fsops/copy.go:1511-1583 | a directory is both read and written if and only if it was adopted while being read |
| SelfCopy.AdoptedWhileRead | internal/fsops/copy.go:2178-2198 | a run in which that happens |
| SelfCopy.UnstatedIsNotTracked | internal/fsops/copy.go:780-785 | a created directory whose fstat failed stops neither the root nor the tracking |
| SelfCopy.InvKept | internal/fsops/copy.go:1155-1158 | each event keeps what is read apart from what is made, and a full set keeps every root from walking |
| SelfCopy.StopsIff | internal/fsops/copy.go:747-807 | a walk ends early exactly by meeting the destination or making a directory there is no room to track, and otherwise reads what it opens |
| SelfCopy.InnocentReadsOn | internal/fsops/copy.go:747-807 | in every run that meets nothing of its destination and has room, the walk is never stopped and is reading exactly what it opened |
| Resolve.Resolve | internal/fsops/fsops.go:145-285 | a returned path finds what the kernel's resolution finds or fails where it fails; a failure is the kernel's; refused as outside iff, in a jail, some step of the kernel's resolution looks up ".." in the base or follows an absolute target that does not start with the base's path or alias; no dot or dot-dot in the result; it terminates |
| Resolve.JailAgrees | internal/fsops/fsops.go:145-285 | the walk inside a base is the kernel's walk, and leaves only a jail |
| Resolve.TraceIsKernel | internal/fsops/fsops.go:145-285 | the steps in which leaving is stated are those of the kernel's resolution: it finds where they end |
| Resolve.LeavesIffMeets | internal/fsops/fsops.go:145-285 | from any place inside a jail the walk leaves exactly where a step of the kernel's resolution does |
| Resolve.OnlyTheBaseIsTheBase | internal/fsops/fsops.go:214-243 | a walk of names from the base stands at the base only before its first name |
| Resolve.EscapesIffOutside | internal/fsops/fsops.go:313-369 | the targets refused are exactly those outside by path and alias |
| Resolve.PassMark | internal/fsops/fsops.go:168-243 | ".", "..", empty pieces and the trailing separator ask what the kernel asks and no more |
| Resolve.PassLink | internal/fsops/fsops.go:267-283 | a followed link continues where its target says, within the same bound of forty |
| Resolve.PassName | internal/fsops/fsops.go:245-266 | a component that is kept leaves the walk on the kernel's track, or marks it failed |
| Resolve.ReadLinkParts | internal/fsops/fsops.go:305-369 | the loops find the literal head, its names and what lies below the base; a target is refused exactly if it is absolute and, read up to its first "..", spells neither the base's path nor its alias |
| Resolve.FromBaseIsFromRoot | internal/fsops/fsops.go:313-369 | an absolute target that stays inside means the same from the base as from the root |
| Resolve.UnjailedNeverEscapes | internal/fsops/fsops.go:431-440 | with no jail every absolute target is inside |
| Resolve.SplitLinkIsComponents | internal/fsops/fsops.go:470-486 | a relative target splits into the components the kernel reads, but for empty pieces, with its trailing separator |
| Resolve.ComponentsAreTokens | internal/fsops/fsops.go:382-389 | an absolute target splits into components and a trailing mark only |
| Resolve.FoundIsInside | internal/fsops/fsops.go:145-285 | whatever a path names lies in a directory from which one ".." per name leads back to the base |
| AclInherit.InheritedFrom | internal/fsops/acl.go:87-127 | the loop accepts exactly what the scan accepts |
| AclInherit.AcceptsIff | internal/fsops/acl.go:106-127 | a non-empty list is turned away exactly when no order-preserving match keeping every entry but ALLOWs exists |
| AclInherit.DerivedIsAccepted | internal/fsops/acl.go:87-127 | what was really passed down is accepted, whatever ALLOWs were left out or narrowed, DENYs widened and markers set |
| AclInherit.AcceptedGrantsNoMore | internal/fsops/acl.go:60-86 | no requester, bit or scope is granted by the child's inheritable entries that the parent's would not have granted |
| AclInherit.NoMoreBelow | internal/fsops/acl.go:60-86 | nor any number of generations further down |
| AclInherit.AcceptsTrans | internal/fsops/acl.go:87-127 | acceptance composes along chains of directories |
| AclInherit.ExpectedChildACEs | internal/fsops/acl.go:140-163 | the loop gives the inheritable part a new directory should have |
| AclInherit.ExpectedIsStable | internal/fsops/acl.go:129-163 | inheriting twice is inheriting once: built in staging equals built in place |
| AclInherit.ExpectedGrantsWhatIsInherited | internal/fsops/acl.go:129-163 | the expected list grants on the new directory what the parent says of directories made inside, and the same for files |
| AclInherit.PassedDownAnswers | internal/fsops/acl.go:167-196 | of a matched pair an ALLOW answers only where the expected one does, a DENY wherever it does |
| AclInherit.EmptyHidesADeny | internal/fsops/acl.go:91-105 | an empty list is accepted though a DENY the destination passes down is missing |
| AclWire.RoundTrip | internal/fsops/acl_linux.go:257-266 | decoding what was encoded gives it back, whatever bytes follow |
| AclWire.Nfs4NoOtherWriter | internal/fsops/acl_linux.go:267-309 | true iff the bytes decode to the end and no entry lets anybody but the owner write; in bounds for all bytes |
| AclWire.Nfs4Inheritable | internal/fsops/acl_linux.go:320-354 | the inheritable entries of the decodable prefix, markers cleared |
| AclWire.Nfs4NoPropagate | internal/fsops/acl_linux.go:362-392 | false iff the bytes decode to the end and no entry stops one generation down |
| AclWire.TrustedIsWhole | internal/fsops/acl_linux.go:147-172 | an attribute that passes has a complete inheritable list, and nothing in it stops |
| AclWire.FaultKeepsThePrefix | internal/fsops/acl_linux.go:317-331 | a malformed attribute can still yield entries |
| AclWire.PosixNoOtherWriter | internal/fsops/acl_linux.go:198-228 | true iff whole entries of the known version, none of which lets another class write |
| Gate.RungIsTheLadder | internal/breakglass/gate.go:257-273 | the wrapping 64-bit shift gives exactly the smaller of 60 s doubled k-5 times and 1800 s, for every k from five on |
| Gate.FailureLocks | internal/breakglass/gate.go:257-273 | the k-th consecutive failure locks from its commit for exactly that long and counts one |
| Gate.LockHolds | internal/breakglass/gate.go:335-370 | until a lock runs out no interleaving starts a verification, moves the ladder or shortens the lock |
| Gate.LockEnds | internal/breakglass/gate.go:150-161 | the first turn at or after a lock's end runs, and its end is said once |
| Gate.Lockouts | internal/breakglass/gate.go:150-161 | entered and left alternate strictly, and the count is the failures since the last success |
| Gate.TrackInvKept | internal/breakglass/gate.go:335-370 | each act, in any order, keeps lock, announcement, count and bucket in step |
| Gate.WindowBound | internal/breakglass/gate.go:202-219 | from its first entry on, in any window, a tracked source is admitted at most ten times plus once per six seconds, as long as readings of the clock come in order |
| Gate.StaleReadingPaysTwice | internal/breakglass/gate.go:202-219 | a reading that comes after a later one makes the bucket pay for the same six seconds twice |
| Gate.WaitingAdmits | internal/breakglass/gate.go:202-219 | six seconds of waiting always buy an attempt, a minute the whole bucket |
| Gate.RefusedIff | internal/breakglass/gate.go:202-219 | an attempt is refused exactly where the bucket, refilled for the time since the last, holds no whole token |
| Gate.EveryTokenIsGiven | internal/breakglass/gate.go:202-219 | in any run, readings in order, either every attempt is admitted or as many as there were tokens |
| Gate.FirstTenAreAdmitted | internal/breakglass/gate.go:202-219 | a source's first ten attempts are all admitted |
| Gate.TurnRunsIff | internal/breakglass/gate.go:150-161 | a source is told it is locked, and for how long, exactly until its lock's end, and its turn runs exactly when it is not |
| SourceTable.TouchKeepsTheLatest | internal/breakglass/gate.go:179-198 | the bounded list is always the latest part of the order of last touches |
| SourceTable.Table.SourceLocked | internal/breakglass/gate.go:179-198 | ip's entry is found or fresh, other entries stay, and only the least recently touched of a full table is forgotten |
| SourceTable.Table.AllowSource | internal/breakglass/gate.go:202-219 | one token is taken by the bucket's rule from ip's entry alone, as the next act of that entry's run |
| SourceTable.Table.Locked | internal/breakglass/gate.go:235-244 | asking creates no entry and clears only a lock that ran out |
| SourceTable.Table.Admit | internal/breakglass/gate.go:309-317 | an attempt is admitted exactly when fewer than four are in flight |
| SourceTable.Table.Release | internal/breakglass/gate.go:309-317 | a release gives the slot back, and there is room for another |
| Gate.LifeWindow | internal/breakglass/gate.go:202-219 | the bound holds for any stretch of a source's life |
| SourceTable.Table.EntriesFollowTheGate | internal/breakglass/gate.go:179-370 | every entry of the table is the end of a life that began when it was made and grew by one act at a time: its lockouts alternate, its count is of failures since the last success, and in any stretch of it, readings in order, it was admitted within the bound |
| SourceTable.Table.BeginTurn | internal/breakglass/gate.go:335-352 | a turn runs the verification only if the source is not locked when it comes up |
| SourceTable.Table.CommitTurn | internal/breakglass/gate.go:354-370 | the outcome is committed before the turn is given up, one rung for a failure, none for a neutral one |
| AuditLog.NoDisaster | internal/audit/audit.go:493-543 | no interleaving sends on a closed channel, writes to the closed sink or runs a fifth durable worker |
| AuditLog.AdmittedIff | internal/audit/audit.go:416-435 | a waiting durable call can be admitted iff fewer than four workers are busy |
| AuditLog.CloseCanFinish | internal/audit/audit.go:493-543 | from every reachable state in which a Close waits there is a schedule in which everybody ends and it finishes: nobody waits in a circle |
| AuditLog.CleanClose | internal/audit/audit.go:545-562 | after a finished Close over a healthy sink the accepted events are in the file once each in order and the drop notes add up to the drops |
| AuditLog.DroppedOnlyWhenFull | internal/audit/audit.go:304-318 | over every run each event put is accepted or counted as dropped, and the drops are exactly the puts that met a queue holding 1024 |
| AuditLog.NothingDroppedIff | internal/audit/audit.go:304-318 | nothing is dropped iff at no point the puts outran the drain by more than the queue holds; then every event put is accepted, in order |
| AuditLog.BurstIsRead | internal/audit/audit.go:304-318 | after a clean Close such a run is read back from the file whole and in order, with no note of a drop |
| AuditLog.MirroredUnlessFull | internal/audit/audit.go:595-621 | over every run, what was offered to the mirror was shown, is queued, or met a queue holding 64 |
| AuditLog.Trichotomy | internal/audit/audit.go:393-472 | no error: appended once and fsynced; an error not in flight: never appended whole, then or later; in flight: at most once |
| AuditLog.AnswersHaveCauses | internal/audit/audit.go:393-472 | no error comes after the fsync that succeeded; a definite error after a look at a closed logger, a refused admission or a failed append; in flight after the caller stopped waiting or the fsync failed |
| AuditLog.VerdictsAreReadable | internal/audit/audit.go:707-731 | where failed appends leave nothing behind, the verdicts are what a reader finds |
| AuditLog.AccountsBalance | internal/audit/audit.go:374-392 | told, pending and lost add up to what was seen wherever lines landed as often as their verdicts allow |
| AuditLog.NothingToldTwice | internal/audit/audit.go:374-392 | in every schedule, of what a caller saw all is told once by its lines in the file, or still in its counters, or went with a line in flight that never landed |
| AuditLog.CloseInvKept | internal/audit/audit.go:493-543 | everything that sends is finished before what it sends to is closed |
| AuditLog.WorkerInvKept | internal/audit/audit.go:419-451 | the semaphore counts the workers and one of them at most holds the file |
| AuditLog.QueueInvKept | internal/audit/audit.go:304-318 | accepted is drained plus held plus queued, and every drop is reported or still to be |
| AuditLog.ReportKeeps | internal/audit/audit.go:749-772 | a report accounts for exactly the drops since the last one |
| AuditFile.ReadableIff | internal/audit/audit.go:777-810 | a whole append is readable iff the file was at the start of a line; a failed one iff all but its newline was written there |
| AuditFile.NeverRevived | internal/audit/audit.go:777-810 | a line that cannot be read never becomes readable through others' appends |
| AuditFile.TornLineSwallowsTheNext | internal/audit/audit.go:701-706 | a failed append can be readable, and can take the next line with it |
| AuditFile.ReadsWhatWasWritten | internal/audit/audit.go:777-810 | where failures leave nothing behind a reader gets exactly the whole appends, in order |
| ArchiveNames.Archiver.Reserve | internal/fsops/archive.go:717-753 | a prefix nobody was given: the wanted one if free, else the first free of name (2) to name (101), else the first free one of the counter; it always terminates |
| ArchiveNames.Archiver.LastResort | internal/fsops/archive.go:735-752 | the counted search ends, on the first counter whose name is not in use |
| ArchiveNames.FallbackInjective | internal/fsops/archive.go:735-748 | distinct counters give distinct last resorts |
| ArchiveNames.FallbackShape | internal/fsops/archive.go:735-748 | a generated name has no separator and fits one component, the numbered item included |
| KeepBoth.ItoaLength | internal/fsops/archive.go:742-747 | a counter below ten to the k takes at most k digits |
| ArchiveNames.TriedOneMore | internal/fsops/archive.go:735-752 | each taken candidate leaves one fewer taken name untried |
| ArchiveNames.MemberNameInjective | internal/fsops/archive.go:819-835 | under one prefix distinct paths have distinct member names |
| ArchiveNames.MemberFirstPart | internal/fsops/archive.go:819-835 | a member's first component is its root's prefix |
| ArchiveNames.Archiver.Room | internal/fsops/archive.go:763-781 | a member is booked iff it passes neither bound, and the books never do |
| ArchiveNames.Archiver.Root | internal/fsops/archive.go:785-806 | a root adds, under a prefix of its own, exactly the members of its paths in order, all of them unless one does not fit the bounds; all members of the archive stay pairwise distinct |
| ArchiveNames.Archiver.Notes | internal/fsops/archive.go:994-1032 | the notes member is unlike every other, and has its own name if that is free |
| ArchiveStream.Archive | internal/fsops/archive.go:401-448 | called complete iff the trailer is out, which it is unless a call of the stream failed or the job was cancelled; then every member carries exactly the bytes its header promised, and the last is the notes iff some item was left out, short, or not read to its end |
| ArchiveStream.Archiver.AddFile | internal/fsops/archive.go:903-955 | while the archive goes on, a file's member is what its reads returned, cut at the promise, and zeros up to it, and one note is made iff it is short or a read failed |
| ArchiveStream.Archiver.CopyInto | internal/fsops/archive.go:962-990 | without a write failure the member holds exactly what the reads returned up to the limit |
| ArchiveStream.ContributesItsContent | internal/fsops/archive.go:962-990 | of a file nobody writes to, a member holds a beginning of its content |
| ArchiveStream.Archiver.Finish | internal/fsops/archive.go:994-1032 | the trailer is written iff nothing stopped the archive, and only a failed call or a cancelled job stops it |
| ArchiveStream.Archiver.Fail | internal/fsops/archive.go:513-522 | any stream failure stops the archive; the first is kept, and the reader going away is not one |
| ArchiveStream.TarSink.PadFile | internal/fsops/archive.go:1245-1258 | exactly the missing bytes, all zero |
| WalkJobs.ModeJob.Visit | internal/fsops/mode_job.go:517-591 | for every depth-first walk and any interference, exactly the wanted changes are made, in order, and shallower slots are untouched |
| WalkJobs.ModeJob.ApplyEntry | internal/fsops/mode_job.go:545-591 | a directory is changed only if it is the object the slot of its depth holds |
| WalkJobs.ChangesFollowThePostOrder | internal/fsops/mode_job.go:514-534 | every change comes after the changes of everything inside |
| WalkJobs.ChangedIff | internal/fsops/mode_job.go:514-591 | a change is made iff it is the own one of some entry the walk comes by |
| WalkJobs.TreeDeleter.Visit | internal/fsops/delete_tree.go:233-284 | an item goes exactly when its own events say, whatever the frames held, and its parent counts it once; the delete terminates |
| WalkJobs.LastPass | internal/fsops/delete_tree.go:253-284 | a directory is read again at most sixteen times, each time after a reading that removed something and an rmdir that met entries |
| WalkJobs.GoesIff | internal/fsops/delete_tree.go:253-284 | a directory goes iff some reading of it, at most the seventeenth, is followed by an rmdir that succeeds, every one before having removed something and met entries |
| WalkJobs.TreeDeleter.Post | internal/fsops/delete_tree.go:261-284 | another reading is asked for iff the rmdir met entries, this reading removed some and attempts are left |
| Listing.CompareNames | internal/fsops/fsops.go:1055-1076 | the two cursors decide the dictionary order of the folded keys, then of the bytes |
| Listing.RuneIsUtf8 | internal/fsops/fsops.go:1084-1098 | bytes that decode are the UTF-8 sequence of the code point they decode to, and no surrogate |
| Listing.Utf8IsRune | internal/fsops/fsops.go:1084-1098 | every code point's sequence decodes to it, wherever it stands in a name |
| Listing.KeysOfText | internal/fsops/fsops.go:1084-1098 | a name that is text is compared as its code points, ASCII folded as ASCII and the rest by the folding given |
| Listing.NameOrderIsTotal | internal/fsops/fsops.go:1041-1054 | for arbitrary bytes, 0 only for identical names, and swapping swaps the sign |
| Listing.NameOrderTrans | internal/fsops/fsops.go:1041-1054 | the name order is transitive |
| Listing.BeforeIsTotal | internal/fsops/fsops.go:989-1039 | under every key, direction and directories-first, of two different names one comes first |
| Listing.BeforeTrans | internal/fsops/fsops.go:989-1039 | and that order is transitive |
| Listing.SortsAgree | internal/fsops/fsops.go:994-1000 | any two correct sorts of one directory agree, stable or not |
| Listing.SortedIsSort | internal/fsops/fsops.go:1001-1039 | a correct sort exists for every directory |
| Listing.OrderMeans | internal/fsops/fsops.go:1001-1039 | in a sorted listing directories precede the rest where asked, and the chosen field runs in the chosen direction with names deciding ties |
| Listing.PagesMakeTheListing | internal/fsops/fsops.go:690-697 | pages of a fixed directory, each from its own read and sort, make up the sorted entries, none twice, none missing |
| Listing.PageOf | internal/fsops/fsops.go:1101-1117 | offset and limit are as asked where they lie within the directory and the caps, and brought to the nearest bound where not; no limit is the default one |
| Listing.ReadEntries | internal/fsops/fsops.go:612-688 | a listing that returns holds the first eligible entries, and is capped iff there is one more; none returns iff an entry that would be in it cannot be described, or the enumeration failed or was cancelled before its end and the cap |
| Listing.ReadChunk | internal/fsops/fsops.go:617-672 | one chunk against the cap, the entry past it only counted; it fails only at an entry that cannot be described and would be listed |

## Left out

- Raw system calls, descriptors and `/proc`: an abstract filesystem with held inodes stands for them; an inode number is not reused while the job holds the inode.
- The branches for platforms without inode identities: the Linux meaning is modelled.
- HTTP, command line, log wording, progress frames, password hashing and certificates: they decide nothing here.
- The staging directory's provenance checks: publishing takes a private directory, no need for one, a shared destination or a refusal as given.
- Publish.Publisher.GiveName: the check of the name, the look at the target and the rename are one step; `Publish.WindowPublishesAStrangerIff` says what that leaves out.
- Publish.Publisher.CopyFile: every call may fail, so it is not that a file is published that is promised but that one which is not has its cause in the run; a scratch file made to read a clock is not counted as a change to the entry whose name it happens to have.
- Move.Copier.DeleteRecorded: the ledger is given, and what is removed is safe whatever it says; what the copy writes into it is not modelled, so that a record that is wrong keeps an entry as one that changed does.
- Free-space accounting, ownership changes and extended attributes of copies: flat checks beside the protocols.
- Move.Copier.FinishMove: the same-filesystem rename that comes before it is not modelled, because nothing is copied there.
- CopyTree.Copier.CopyTree: stopping a root on its own output, on an exhausted set or on cancellation is in `SelfCopy` or left out, so that the whole run is a function of the source; names in the destination do not change under the job here, others' interference is the matter of `Move` and `Publish`.
- MergeLaws.RootMerge: setting a directory's time is taken to succeed; in the code a failure is a warning that keeps nothing back.
- CopyTree.Copier.Visit: a directory nested past the walk's depth bound is one that cannot be opened.
- ArchiveNames.Archiver.Root: the separator that directories' members end in is not written; no member name ends in one otherwise.
- ArchiveStream.Archive: the zip writer, whose members promise no length, and compression; a walk is the list of what it reached.
- AuditLog.CleanClose: rotation of the file and an event that cannot be encoded; timers are steps that may come at any time.
- AuditLog.NoDisaster: a goroutine is modelled by its steps on values, so that a theorem can speak of every interleaving.
- Gate.WindowBound: floating point is real arithmetic, so rounding of the bucket is not captured; readings that come out of order are outside the bound, as they are outside the code's.
- Gate.LockHolds: a source whose entry is evicted starts afresh; the run is of a source that stays tracked.
- SourceTable.Table.BeginTurn: waiting for the turn and giving up on it are not steps of their own.
- Listing.SortsAgree: `sort.Slice` sorts in place; it stands for any correct sort of the values.
- Listing.CompareNames: `unicode.ToLower` is a parameter.
- MergeLaws.ClearIsInTheTree: where both are kept, a sibling's numbered name may be taken by an entry of that name, so that the state of the directory when the entry is reached decides: `MergeLaws.UncausedIsCopied`.
- Resolve.Resolve: joining and cutting path strings at separators is left to sequences of names; the volume names of other platforms are not modelled.
- WalkJobs.ModeJob.Visit: what the change itself does to mode and owner, and the selected folder's own change, which goes through a reference held throughout.
