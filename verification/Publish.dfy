/** Copying one regular file: build it where it can be built, fill it, check it, and give
    it its name in one step.  What the job did to a directory entry, and what a reader of
    the target name can have seen, is read off the run itself. */
module Publish {
  import opened Basics
  import opened World
  import opened Ledger
  import opened Causes
  import opened Move

  datatype Placement = Placement(name: string, overwrite: bool)

  /** What the destination directory offered: a private directory to build in; nothing,
      with nobody to hide from; nothing, because other users may write there, which is
      the ordinary answer for a share; or something suspicious. */
  datatype Stage = Staged(dir: Key) | StageOpen | StageShared | StageRefused

  /** Unclosed: published, but closing the descriptor failed, so it is not recorded. */
  datatype Outcome = Published | Unclosed | NotPublished | JobCancelled

  /** Where a file is being built, and under what name if any. */
  datatype Building = Building(dir: Key, name: string, unnamed: bool, private: bool)

  /** One file on its way.  exact: its source was settled when it was opened, so its
      content is fixed.  alone: up to its publication nobody else writes into it. */
  datatype Job = Job(b: Building, k: Key, sfi: Inode, exact: bool, alone: bool)

  /** Nobody else can reach the file before it has its name: it has none until the link
      that publishes it, or it is in a private directory until the rename that does. */
  predicate Sheltered(b: Building, p: Placement) {
    b.private || (b.unnamed && !p.overwrite)
  }

  /** Built without a name where that can be had, else in the private directory if there
      is one, and in the open only where nothing is suspicious. */
  ghost predicate AsOffered(b: Building, stage: Stage, unnamedOK: bool, past: seq<Event>, from: nat) {
    if b.unnamed then unnamedOK
    else (unnamedOK ==> SomeFailed(past, from)) && !stage.StageRefused? && (stage.Staged? ==> b.private)
  }

  lemma OfferedLater(b: Building, stage: Stage, unnamedOK: bool, past: seq<Event>, past': seq<Event>, from: nat, from': nat)
    requires AsOffered(b, stage, unnamedOK, past, from) && past <= past' && from' <= from
    ensures AsOffered(b, stage, unnamedOK, past', from')
  {
    if SomeFailed(past, from) { FailedLater(past, past', from, from'); }
  }

  /** Created under the very name it is to have. */
  predicate Direct(b: Building, dstDir: Key, p: Placement) {
    !b.unnamed && b.dir == dstDir && b.name == p.name
  }

  /** A finished file: all of it, and for a settled source exactly what the source
      held. */
  ghost predicate CompleteFile(w: World, j: Job) {
    && j.k in w.inodes && w.inodes[j.k].body.FileBody? && |w.inodes[j.k].body.bytes| == Size(j.sfi)
    && (j.exact ==> w.inodes[j.k].body == j.sfi.body)
  }

  /** It has its source's modification time, unless the call that sets it failed. */
  ghost predicate TimesKept(past: seq<Event>, from: nat, i: nat, w: World, j: Job)
    requires i <= |past|
  {
    || (j.k in w.inodes && w.inodes[j.k].mtime == j.sfi.mtime)
    || exists h :: from <= h < i && past[h].call == DidStamp(j.k, false)
  }

  /** All of a file, content and time. */
  ghost predicate Finished(past: seq<Event>, from: nat, i: nat, w: World, j: Job)
    requires i <= |past|
  {
    CompleteFile(w, j) && TimesKept(past, from, i, w, j)
  }

  lemma FinishedLonger(past: seq<Event>, past': seq<Event>, from: nat, from': nat, i: nat, i': nat, w: World, w': World, j: Job)
    requires past <= past' && from' <= from && i <= i' <= |past'| && i <= |past| && Finished(past, from, i, w, j)
    requires j.k in w'.inodes && w'.inodes[j.k].body == w.inodes[j.k].body && w'.inodes[j.k].mtime == w.inodes[j.k].mtime
    ensures Finished(past', from', i', w', j)
  {
    if w.inodes[j.k].mtime != j.sfi.mtime {
      var h :| from <= h < i && past[h].call == DidStamp(j.k, false);
      assert past'[h] == past[h];
    }
  }

  // ----- what is promised of each call that changed an entry -----

  /** The call changed this entry. */
  predicate Changes(c: Call, dir: Key, name: string) {
    match c
    case DidCreate(d, n, _) => d == dir && n == name
    case DidLink(d, n, _) => d == dir && n == name
    case DidRename(f, was, d, n, _) => (f == dir && was == name) || (d == dir && n == name)
    case DidUnlink(d, n, gone) => gone.Some? && d == dir && n == name
    case _ => false
  }

  ghost predicate TargetUntouched(was: seq<Event>, now: seq<Event>, dir: Key, name: string) {
    was <= now && forall i | |was| <= i < |now| :: !Changes(now[i].call, dir, name)
  }

  /** The file had been flushed by then, and not written to since. */
  ghost predicate SyncedBefore(past: seq<Event>, from: nat, i: nat, k: Key)
    requires i <= |past|
  {
    exists h :: from <= h < i && past[h].call == DidSync(k, true) && NotWritten(past, h, i, k)
  }

  ghost predicate NotWritten(past: seq<Event>, h: nat, i: nat, k: Key)
    requires h < i <= |past|
  {
    forall g | h < g < i :: !Writes(past[g].call, k)
  }

  predicate Writes(c: Call, k: Key) {
    c.DidWrite? && c.key == k
  }

  /** What a change to the target's name took away: nothing without overwriting, never a
      directory, and nothing but a regular file unless the look at the target failed. */
  ghost predicate ReplacedAFile(x: Event, dir: Key, p: Placement, blind: bool) {
    var was := Named(x.before, dir, p.name);
    was.Some? ==>
      && p.overwrite && !x.before.inodes[was.value].body.DirBody?
      && (!blind ==> x.before.inodes[was.value].body.FileBody?)
  }

  /** The look at the target that failed, and is no reason to stop. */
  ghost predicate LookedBlind(past: seq<Event>, from: nat, dir: Key, p: Placement) {
    exists i :: from <= i < |past| && IsBlind(past[i], dir, p)
  }

  predicate IsBlind(x: Event, dir: Key, p: Placement) {
    x.call == DidLstat(dir, p.name, Failed)
  }

  /** One step that gave the target's name to this job's file, flushed, and finished if
      nobody else wrote into it. */
  ghost predicate TargetStep(past: seq<Event>, i: nat, from: nat, dir: Key, p: Placement, j: Job, blind: bool)
    requires i < |past|
  {
    var x := past[i];
    && (x.call.DidLink? || x.call.DidRename?) && x.call.dir == dir && x.call.name == p.name && x.call.key == j.k
    && Named(x.at, dir, p.name) == Some(j.k)
    && (j.alone ==> Finished(past, from, i, x.at, j))
    && ReplacedAFile(x, dir, p, blind) && SyncedBefore(past, from, i, j.k)
  }

  /** Under the name it is created with: this job's empty file appears, or is removed. */
  ghost predicate DirectStep(x: Event, dir: Key, p: Placement, k: Key) {
    || (x.call.DidUnlink? && x.call.gone == Some(k))
    || (x.call == DidCreate(dir, p.name, k) && Named(x.before, dir, p.name) == None
        && Named(x.at, dir, p.name) == Some(k) && x.at.inodes[k].body == FileBody([]))
  }

  /** Whatever is unlinked, linked or renamed is this job's inode, a file without a name
      is finished at the instant it first has one, and the target's name is changed only
      as promised. */
  ghost predicate Promised(past: seq<Event>, i: nat, from: nat, dir: Key, p: Placement, j: Job, blind: bool)
    requires i < |past|
  {
    var x := past[i];
    && (x.call.DidUnlink? ==> x.call.gone in {None, Some(j.k)})
    && (x.call.DidLink? ==> x.call.key == j.k && Finished(past, from, i, x.at, j))
    && (x.call.DidRename? ==> x.call.key == j.k)
    && (Changes(x.call, dir, p.name) ==>
          if Direct(j.b, dir, p) then DirectStep(x, dir, p, j.k) else TargetStep(past, i, from, dir, p, j, blind))
  }

  /** The promise for every naming call in a part of the run. */
  ghost predicate Kept(was: seq<Event>, now: seq<Event>, from: nat, dir: Key, p: Placement, j: Job, blind: bool) {
    was <= now && forall i | |was| <= i < |now| && Naming(now[i].call) :: Promised(now, i, from, dir, p, j, blind)
  }

  lemma SyncedLonger(past: seq<Event>, past': seq<Event>, from: nat, i: nat, k: Key)
    requires past <= past' && i <= |past| && SyncedBefore(past, from, i, k)
    ensures SyncedBefore(past', from, i, k)
  {
    var h :| from <= h < i && past[h].call == DidSync(k, true) && NotWritten(past, h, i, k);
    assert past'[h] == past[h];
    assert NotWritten(past', h, i, k);
  }

  /** What is not a write leaves it flushed. */
  lemma SyncedStill(past: seq<Event>, past': seq<Event>, from: nat, k: Key)
    requires past <= past' && SyncedBefore(past, from, |past|, k)
    requires forall g | |past| <= g < |past'| :: !Writes(past'[g].call, k)
    ensures forall i | |past| <= i <= |past'| :: SyncedBefore(past', from, i, k)
  {
    var h :| from <= h < |past| && past[h].call == DidSync(k, true) && NotWritten(past, h, |past|, k);
    forall i | |past| <= i <= |past'| ensures SyncedBefore(past', from, i, k) {
      assert past'[h] == past[h] && NotWritten(past', h, i, k);
    }
  }

  lemma FinishedAt(past: seq<Event>, past': seq<Event>, from: nat, i: nat, w: World, j: Job)
    requires past <= past' && i <= |past| && Finished(past, from, i, w, j)
    ensures Finished(past', from, i, w, j)
  {
    FinishedLonger(past, past', from, from, i, i, w, w, j);
  }

  lemma PromisedLonger(past: seq<Event>, past': seq<Event>, i: nat, from: nat, dir: Key, p: Placement, j: Job, blind: bool)
    requires past <= past' && i < |past| && Promised(past, i, from, dir, p, j, blind)
    ensures Promised(past', i, from, dir, p, j, blind)
  {
    hide CompleteFile, ReplacedAFile, SyncedBefore, DirectStep, Finished;
    assert past'[i] == past[i];
    var w := past[i].at;
    if Finished(past, from, i, w, j) { FinishedAt(past, past', from, i, w, j); }
    if Changes(past[i].call, dir, p.name) && !Direct(j.b, dir, p) {
      SyncedLonger(past, past', from, i, j.k);
    }
  }

  lemma KeptTrans(a: seq<Event>, b: seq<Event>, c: seq<Event>, from: nat, dir: Key, p: Placement, j: Job, blind: bool)
    requires Kept(a, b, from, dir, p, j, blind) && Kept(b, c, from, dir, p, j, blind)
    ensures Kept(a, c, from, dir, p, j, blind)
  {
    hide Promised;
    forall i | |a| <= i < |c| && Naming(c[i].call) ensures Promised(c, i, from, dir, p, j, blind) {
      if i < |b| {
        assert c[i] == b[i];
        PromisedLonger(b, c, i, from, dir, p, j, blind);
      }
    }
  }

  lemma QuietIsKept(was: seq<Event>, now: seq<Event>, from: nat, dir: Key, p: Placement, j: Job, blind: bool)
    requires NamesNothing(was, now)
    ensures Kept(was, now, from, dir, p, j, blind) && TargetUntouched(was, now, dir, p.name)
  {
  }

  lemma NoCallIsKept(past: seq<Event>, from: nat, dir: Key, p: Placement, j: Job)
    ensures Kept(past, past, from, dir, p, j, false)
  {
  }

  // ----- what success and failure mean -----

  /** In this run, at looked, the name that was checked meant the file; and at done the
      target's did, by the last call that changed it, or, where that name is the
      target's own, at that very look.  It had been flushed. */
  ghost predicate PublishedAt(past: seq<Event>, from: nat, dir: Key, p: Placement, j: Job, looked: nat, done: nat) {
    && from <= looked < |past| && IsLookAt(past[looked].call, j.b.dir, j.b.name)
    && Named(past[looked].at, j.b.dir, j.b.name) == Some(j.k)
    && from <= done < |past| && Named(past[done].at, dir, p.name) == Some(j.k)
    && SyncedBefore(past, from, done, j.k) && (j.alone ==> Finished(past, from, done, past[done].at, j))
    && (if Direct(j.b, dir, p) then done == looked
        else TargetStep(past, done, from, dir, p, j, true) && (past[done].call.DidRename? ==> looked < done))
    && forall g | done < g < |past| :: !Changes(past[g].call, dir, p.name)
  }

  // ----- why a file is not published -----

  /** The inode is not in this state. */
  predicate Moved(x: Event, k: Key, node: Inode) {
    k in x.at.inodes && x.at.inodes[k] != node
  }

  ghost predicate SourceMoved(past: seq<Event>, from: nat, k: Key, node: Inode) {
    exists i :: from <= i < |past| && Moved(past[i], k, node)
  }

  /** The file being built is not of its source's length. */
  predicate LengthOff(x: Event, j: Job) {
    x.call == DidFstat(j.k, true) && j.k in x.at.inodes && Size(x.at.inodes[j.k]) != Size(j.sfi)
  }

  ghost predicate LengthTrouble(past: seq<Event>, from: nat, j: Job) {
    exists i :: from <= i < |past| && LengthOff(past[i], j)
  }

  /** The name is not the file's any more, or the target is no file. */
  predicate NameHinders(x: Event, j: Job, dstDir: Key, p: Placement) {
    x.call.DidLstat?
    && (|| (x.call.dir == j.b.dir && x.call.name == j.b.name && !(x.call.answer.Found? && x.call.answer.key == j.k))
        || (x.call.dir == dstDir && x.call.name == p.name && x.call.answer.Found? && !KindOf(x.call.answer.node).KindRegular?))
  }

  ghost predicate NameHindered(past: seq<Event>, from: nat, j: Job, dstDir: Key, p: Placement) {
    SomeFailed(past, from) || exists i :: from <= i < |past| && NameHinders(past[i], j, dstDir, p)
  }

  /** A file nobody else can write into has the wrong length only if its source moved. */
  ghost predicate FillHindered(past: seq<Event>, from: nat, src: Key, j: Job) {
    || SomeFailed(past, from) || SourceMoved(past, from, src, j.sfi)
    || (!j.alone && !j.b.unnamed && LengthTrouble(past, from, j))
  }

  ghost predicate Hindered(past: seq<Event>, from: nat, src: Key, j: Job, dstDir: Key, p: Placement) {
    FillHindered(past, from, src, j) || NameHindered(past, from, j, dstDir, p)
  }

  /** The source's name means another inode, or that is no file. */
  predicate ListedOff(x: Event, dir: Key, name: string, listed: Key) {
    match x.call
    case DidOpen(d, n, held) => d == dir && n == name && held.Some? && held != Some(listed)
    case DidFstat(k, ok) => ok && k == listed && k in x.at.inodes && !x.at.inodes[k].body.FileBody?
    case _ => false
  }

  ghost predicate OpenHindered(past: seq<Event>, from: nat, dir: Key, name: string, listed: Key, clock: Key) {
    || SomeFailed(past, from) || Changed(past, from, listed) || SourceUnsettled(past, from, clock, listed)
    || exists i :: from <= i < |past| && ListedOff(past[i], dir, name, listed)
  }

  lemma HinderedFrom(past: seq<Event>, past': seq<Event>, from: nat, from': nat, src: Key, j: Job, dstDir: Key, p: Placement)
    requires past <= past' && from' <= from && Hindered(past, from, src, j, dstDir, p)
    ensures Hindered(past', from', src, j, dstDir, p)
  {
    hide Moved, LengthOff, NameHinders, SomeFailed;
    if SomeFailed(past, from) {
      FailedLater(past, past', from, from');
    } else if SourceMoved(past, from, src, j.sfi) {
      var i :| from <= i < |past| && Moved(past[i], src, j.sfi);
      assert Moved(past'[i], src, j.sfi);
    } else if FillHindered(past, from, src, j) {
      var i :| from <= i < |past| && LengthOff(past[i], j);
      assert LengthOff(past'[i], j);
    } else {
      var i :| from <= i < |past| && NameHinders(past[i], j, dstDir, p);
      assert NameHinders(past'[i], j, dstDir, p);
    }
  }

  lemma FillHinderedFrom(past: seq<Event>, past': seq<Event>, from: nat, from': nat, src: Key, j: Job)
    requires past <= past' && from' <= from && FillHindered(past, from, src, j)
    ensures FillHindered(past', from', src, j)
  {
    hide Moved, LengthOff, SomeFailed;
    if SomeFailed(past, from) {
      FailedLater(past, past', from, from');
    } else if SourceMoved(past, from, src, j.sfi) {
      var i :| from <= i < |past| && Moved(past[i], src, j.sfi);
      assert Moved(past'[i], src, j.sfi);
    } else {
      var i :| from <= i < |past| && LengthOff(past[i], j);
      assert LengthOff(past'[i], j);
    }
  }

  lemma NameHinderedFrom(past: seq<Event>, past': seq<Event>, from: nat, from': nat, j: Job, dstDir: Key, p: Placement)
    requires past <= past' && from' <= from && NameHindered(past, from, j, dstDir, p)
    ensures NameHindered(past', from', j, dstDir, p)
  {
    hide NameHinders, SomeFailed;
    if SomeFailed(past, from) {
      FailedLater(past, past', from, from');
    } else {
      var i :| from <= i < |past| && NameHinders(past[i], j, dstDir, p);
      assert NameHinders(past'[i], j, dstDir, p);
    }
  }

  predicate GaveName(c: Call, b: Building, k: Key) {
    c == DidCreate(b.dir, b.name, k) || c == DidLink(b.dir, b.name, k)
  }

  /** The name does not mean the file, or what would tell or change that failed. */
  ghost predicate GivenUp(x: Event, b: Building, k: Key) {
    || Named(x.at, b.dir, b.name) != Some(k)
    || x.call == DidFstat(k, false)
    || x.call == DidLstat(b.dir, b.name, Failed)
    || x.call == DidUnlink(b.dir, b.name, None)
  }

  ghost predicate GivenUpSince(past: seq<Event>, i: nat, b: Building, k: Key) {
    exists g :: i < g < |past| && GivenUp(past[g], b, k)
  }

  /** The name this job gave its file is gone, or was re-pointed, unless the file's own
      fstat, the lookup or the unlink failed. */
  ghost predicate Cleaned(past: seq<Event>, from: nat, b: Building, k: Key) {
    forall i | from <= i < |past| && GaveName(past[i].call, b, k) :: GivenUpSince(past, i, b, k)
  }

  lemma CleanedBy(past: seq<Event>, from: nat, g: nat, b: Building, k: Key)
    requires g < |past| && GivenUp(past[g], b, k)
    requires forall i | g <= i < |past| :: !GaveName(past[i].call, b, k)
    ensures Cleaned(past, from, b, k)
  {
    forall i | from <= i < |past| && GaveName(past[i].call, b, k) ensures GivenUpSince(past, i, b, k) {
      assert i < g;
    }
  }

  /** The tree before a publication in the open: the file under its temporary name. */
  function OpenWorld(dir: Key, name: string, k: Key, node: Inode): (w: World)
    requires dir != k
    ensures Named(w, dir, name) == Some(k) && w.inodes[k] == node
  {
    World(0, map[], map[dir := node.(body := DirBody(map[name := k])), k := node])
  }

  /** Why the content is promised only sheltered.  Whatever a file's temporary name and
      target, if it is reachable before it is published somebody with write access can
      rewrite it there, length and times kept: it was complete, it passes the check of
      its length and the check of its name, and what is published is other content. */
  lemma UnshelteredIsExposed(b: Building, dstDir: Key, p: Placement)
    returns (j: Job, w: World, act: Act, w': World)
    requires !Sheltered(b, p) && b.dir == dstDir && b.name != p.name
    ensures j.b == b && j.exact && CompleteFile(w, j) && Named(w, b.dir, b.name) == Some(j.k)
    ensures MayAct({}, w, act) && w' == Apply(w, act) && j.k in w'.inodes
    ensures w'.inodes[j.k].body.FileBody? && Size(w'.inodes[j.k]) == Size(j.sfi) && w'.inodes[j.k].mtime == w.inodes[j.k].mtime
    ensures Named(w', b.dir, b.name) == Some(j.k) && CanRename(w', b.dir, b.name, dstDir, p.name)
    ensures Named(RenamedWorld(w', b.dir, b.name, dstDir, p.name), dstDir, p.name) == Some(j.k)
    ensures !CompleteFile(RenamedWorld(w', b.dir, b.name, dstDir, p.name), j)
  {
    var k := Key(dstDir.dev, dstDir.ino + 1);
    var node := Inode(FileBody([65]), 420, 0, 0, 1, 0, 0);
    j := Job(b, k, node, true, false);
    w := OpenWorld(dstDir, b.name, k, node);
    act := Touch(k, node.(body := FileBody([66])));
    w' := Apply(w, act);
    assert [65][0] != [66][0];
  }

  /** The three calls that publish are taken as one step.  Between the check of the
      temporary name and the rename the code has its look at the target, so the window is
      more than the two adjacent calls it is said to be; if others came into it, the
      target would be this job's file exactly when the name was not re-pointed, and here
      it is. */
  lemma WindowPublishesAStrangerIff(w: World, w': World, from: Key, name: string, dir: Key, final: string, k: Key)
    requires Named(w, from, name) == Some(k) && CanRename(w', from, name, dir, final)
    ensures Named(RenamedWorld(w', from, name, dir, final), dir, final) == Some(k)
            <==> Named(w', from, name) == Named(w, from, name)
  {
  }

  lemma WindowPublishesAStranger(b: Building, dstDir: Key, p: Placement) returns (w: World, act: Act, w': World, k: Key)
    requires !b.private && b.dir == dstDir && b.name != p.name
    ensures Named(w, b.dir, b.name) == Some(k) && MayAct({k}, w, act) && w' == Apply(w, act)
    ensures CanRename(w', b.dir, b.name, dstDir, p.name)
    ensures Named(RenamedWorld(w', b.dir, b.name, dstDir, p.name), dstDir, p.name) != Some(k)
  {
    k := Key(dstDir.dev, dstDir.ino + 1);
    var other := Key(dstDir.dev, dstDir.ino + 2);
    var node := Inode(FileBody([]), 420, 0, 0, 1, 0, 0);
    w := OpenWorld(dstDir, b.name, k, node);
    w := w.(inodes := w.inodes[other := node]);
    act := Touch(dstDir, node.(body := DirBody(map[b.name := other])));
    w' := Apply(w, act);
    assert Named(w', b.dir, b.name) == Some(other);
  }

  /** Created under its final name a file is seen there before it is whole, whatever it
      is to hold: so a build is all or nothing exactly where it is not direct. */
  lemma DirectIsSeenHalfMade(x: Event, dir: Key, p: Placement, j: Job)
    requires Direct(j.b, dir, p) && DirectStep(x, dir, p, j.k) && x.call.DidCreate? && Size(j.sfi) > 0
    ensures Named(x.at, dir, p.name) == Some(j.k) && !CompleteFile(x.at, j)
  {
  }

  /** A run of it: the name is free, the file is created, half of it is written, and the
      name means that. */
  lemma DirectRun(dir: Key, p: Placement, half: seq<Byte>, rest: seq<Byte>) returns (w: World, j: Job, w': World)
    requires rest != []
    ensures Named(w, dir, p.name) == None && j.k !in w.inodes && dir in w.inodes && w.inodes[dir].body.DirBody?
    ensures j.sfi.body == FileBody(half + rest) && Direct(j.b, dir, p)
    ensures var made := CreatedWorld(w, j.k, dir, p.name);
            w' == made.(inodes := made.inodes[j.k := made.inodes[j.k].(body := FileBody(Overlaid([], 0, half)))])
    ensures Named(w', dir, p.name) == Some(j.k) && w'.inodes[j.k].body == FileBody(half) && !CompleteFile(w', j)
  {
    var k := Key(dir.dev, dir.ino + 1);
    var node := Inode(FileBody(half + rest), 420, 0, 0, 1, 0, 0);
    w := World(0, map[], map[dir := node.(body := DirBody(map[]))]);
    j := Job(Building(dir, p.name, false, false), k, node, true, true);
    var made := CreatedWorld(w, k, dir, p.name);
    w' := made.(inodes := made.inodes[k := made.inodes[k].(body := FileBody(Overlaid([], 0, half)))]);
  }

  /** And what a failed look at the target lets pass: a link that appeared there during
      the copy, which the placement refuses under every policy, is replaced. */
  lemma BlindReplacesALink(b: Building, dir: Key, p: Placement) returns (w: World, act: Act, w': World, k: Key, link: Key)
    requires b.dir == dir && b.name != p.name
    ensures Named(w, dir, p.name) == None && Named(w, b.dir, b.name) == Some(k)
    ensures MayAct({k}, w, act) && w' == Apply(w, act) && Named(w', dir, p.name) == Some(link) && w'.inodes[link].body.LinkBody?
    ensures Named(w', b.dir, b.name) == Some(k) && CanRename(w', b.dir, b.name, dir, p.name)
    ensures Named(RenamedWorld(w', b.dir, b.name, dir, p.name), dir, p.name) == Some(k)
  {
    k, link := Key(dir.dev, dir.ino + 1), Key(dir.dev, dir.ino + 2);
    var node := Inode(FileBody([]), 420, 0, 0, 1, 0, 0);
    w := OpenWorld(dir, b.name, k, node);
    w := w.(inodes := w.inodes[link := node.(body := LinkBody("elsewhere"))]);
    act := Touch(dir, node.(body := DirBody(map[b.name := k, p.name := link])));
    w' := Apply(w, act);
  }

  class Publisher {
    const c: Copier
    const m: Machine

    ghost predicate Valid()
      reads this, c, m
    {
      c.m == m && c.Valid()
    }

    constructor (c: Copier)
      requires c.Valid()
      ensures Valid() && this.c == c
    {
      this.c, m := c, c.m;
    }

    /** Remove a name this job created, only while it still means what this job made.
        The lookup and the unlink are adjacent and taken as one step. */
    method UnlinkIfOurs(dir: Key, name: string, ours: Key)
      requires Valid()
      modifies m`w, m`past, m`removed
      ensures Valid() && Later(old(m.w), m.w) && old(m.past) <= m.past
      ensures forall i | |old(m.past)| <= i < |m.past| && Naming(m.past[i].call) ::
                m.past[i].call == DidUnlink(dir, name, Some(ours))
      ensures exists g :: |old(m.past)| <= g < |m.past| && GivenUp(m.past[g], Building(dir, name, false, false), ours)
    {
      hide LinksKept, Untouched, Stamp;
      ghost var n := |m.past|;
      var at := m.Lstat(dir, name);
      c.StillValid();
      if !at.Found? || at.key != ours {
        assert GivenUp(m.past[n], Building(dir, name, false, false), ours);
        return;
      }
      label found:
      var u := m.Unlink(dir, name, false);
      c.StillValid@found();
      assert GivenUp(m.past[n + 1], Building(dir, name, false, false), ours);
    }

    /** A file that will not be published: nothing to do when it never had a name, and
        nothing is done when its own fstat failed. */
    method Discard(b: Building, ours: Key, described: bool)
      requires Valid()
      modifies m`w, m`past, m`removed
      ensures Valid() && Later(old(m.w), m.w) && old(m.past) <= m.past
      ensures b.unnamed || !described ==> m.past == old(m.past)
      ensures forall i | |old(m.past)| <= i < |m.past| && Naming(m.past[i].call) ::
                m.past[i].call == DidUnlink(b.dir, b.name, Some(ours))
      ensures !b.unnamed && described ==> exists g :: |old(m.past)| <= g < |m.past| && GivenUp(m.past[g], b, ours)
    {
      EvolvesIsLater(m.w, m.w);
      if !b.unnamed && described {
        UnlinkIfOurs(b.dir, b.name, ours);
        ghost var g :| |old(m.past)| <= g < |m.past| && GivenUp(m.past[g], Building(b.dir, b.name, false, false), ours);
        assert GivenUp(m.past[g], b, ours);
      }
    }

    /** Open the source, require it to be the file that was listed, and for a move
        settle it before a byte is read.  opened is the last look at it. */
    method OpenSource(srcDir: Key, srcName: string, listed: Key, move: bool) returns (r: Option<Key>, sfi: Inode, ghost opening: nat)
      requires Valid()
      modifies m`w, m`past, c`clockSeen
      ensures Valid() && Later(old(m.w), m.w) && NamesNothing(old(m.past), m.past)
      ensures r.Some? ==>
                && r == Some(listed) && |old(m.past)| <= opening < |m.past|
                && m.past[opening] == Event(DidFstat(listed, true), m.w, m.w)
                && listed in m.w.inodes && m.w.inodes[listed] == sfi && sfi.body.FileBody?
                && (move ==> sfi.ctime < Stamp(m.w, c.srcRootParent.dev))
      ensures r.None? ==> OpenHindered(m.past, |old(m.past)|, srcDir, srcName, listed, c.srcRootParent)
    {
      hide LinksKept, Untouched, Stamp, Pending, Changed, SourceUnsettled, SomeFailed;
      sfi, opening := Inode(SpecialBody, 0, 0, 0, 0, 0, 0), 0;
      var fi := OpenListed(srcDir, srcName, listed);
      if fi.None? { return None, sfi, opening; }
      sfi := fi.value;
      if move {
        ghost var past1 := m.past;
        var s := c.SettleObserved(c.srcRootParent, sfi, listed);
        if !s.SettleOK? || !s.state.body.FileBody? {
          if s.SettleOK? {
            assert ListedOff(m.past[|m.past| - 1], srcDir, srcName, listed);
          } else {
            NotSettledHinders(past1, m.past, |old(m.past)|, srcDir, srcName, listed, c.srcRootParent, sfi.ctime, s);
          }
          return None, sfi, opening;
        }
        sfi := s.state;
      }
      opening := |m.past| - 1;
      r := Some(listed);
    }

    /** The descriptor is the listed inode, and a regular file. */
    method OpenListed(srcDir: Key, srcName: string, listed: Key) returns (fi: Option<Inode>)
      requires Valid()
      modifies m`w, m`past, c`clockSeen
      ensures Valid() && Later(old(m.w), m.w) && NamesNothing(old(m.past), m.past)
      ensures fi.Some? ==>
                && |old(m.past)| < |m.past| && m.past[|m.past| - 1] == Event(DidFstat(listed, true), m.w, m.w)
                && listed in m.w.inodes && m.w.inodes[listed] == fi.value && fi.value.body.FileBody?
      ensures fi.None? ==> OpenHindered(m.past, |old(m.past)|, srcDir, srcName, listed, c.srcRootParent)
    {
      hide LinksKept, Untouched, Stamp, Pending, Changed, SourceUnsettled;
      ghost var n := |m.past|;
      var src := m.Open(srcDir, srcName);
      if src.None? {
        c.StillValid();
        FailedIsCause(m.past, n, n);
        return None;
      }
      fi := m.Fstat(src.value);
      c.StillValid();
      if fi.None? || !fi.value.body.FileBody? || src.value != listed {
        if fi.None? { FailedIsCause(m.past, n, n + 1); }
        assert fi.None? || ListedOff(m.past[n], srcDir, srcName, listed) || ListedOff(m.past[n + 1], srcDir, srcName, listed);
        fi := None;
      }
    }

    method WriteOn(k: Key, pos: nat, data: seq<Byte>) returns (ok: bool)
      requires Valid() && k in m.w.inodes
      modifies m`w, m`past
      ensures Valid() && Later(old(m.w), m.w) && NamesNothing(old(m.past), m.past)
      ensures Untouched(m.hidden - {k}, old(m.w), m.w)
      ensures ok && k in m.hidden && old(m.w).inodes[k].body.FileBody? && |old(m.w).inodes[k].body.bytes| == pos ==>
                m.w.inodes[k].body == FileBody(old(m.w).inodes[k].body.bytes + data)
      ensures !ok ==> SomeFailed(m.past, |old(m.past)|)
    {
      hide Stamp, Named;
      ok := m.Write(k, pos, data);
      c.StillValid();
      if !ok { FailedIsCause(m.past, |old(m.past)|, |old(m.past)|); }
    }

    /** One buffer of io.CopyBuffer: a read, a context check, a write. */
    method CopyChunk(src: Key, k: Key, pos: nat, sfi: Inode, ghost sure: bool, ghost w0: World) returns (r: Chunk)
      requires Valid() && src in m.w.inodes && k in m.w.inodes && src != k && sfi.body.FileBody?
      requires SureBaseline(sure, w0, m.w, src, sfi)
      requires k in m.hidden ==> FilledTo(m.w, src, k, pos, sfi, sure)
      modifies m`w, m`past, m`checks
      ensures Valid() && Later(old(m.w), m.w) && NamesNothing(old(m.past), m.past)
      ensures Untouched(m.hidden - {k}, old(m.w), m.w)
      ensures SureBaseline(sure, w0, m.w, src, sfi)
      ensures r.Written? ==> m.checks < old(m.checks)
      ensures r.Written? && k in m.hidden ==> FilledTo(m.w, src, k, pos + r.n, sfi, sure)
      ensures r.AtEnd? && k in m.hidden ==>
                && FilledTo(m.w, src, k, pos, sfi, sure)
                && (sure && m.w.inodes[src] == sfi ==> |sfi.body.bytes| <= pos)
      ensures r.Lost? ==> SomeFailed(m.past, |old(m.past)|)
      ensures r.CutOff? ==> m.checks == 0
      ensures (r.Written? && pos + r.n > |sfi.body.bytes|) || (r.AtEnd? && pos < |sfi.body.bytes|) ==>
                SourceMoved(m.past, |old(m.past)|, src, sfi)
    {
      hide Named, Size, KindOf, LinksKept, Stamp, Baseline, SourceMoved, SomeFailed, Moved;
      ghost var w1, n := m.w, |m.past|;
      var got := ReadOn(src, pos, sfi, sure, w0);
      ghost var w2, past1 := m.w, m.past;
      match got
      case ReadError => r := Lost;
      case Eof => r := AtEnd;
      case Data(bytes) =>
        var stop := m.Cancelled();
        if stop {
          return CutOff;
        }
        var ok := WriteOn(k, pos, bytes);
        if !ok { FailedLater(m.past, m.past, |past1|, n); }
        if SourceMoved(past1, n, src, sfi) { MovedLater(past1, m.past, n, n, src, sfi); }
        SureLater(sure, w0, w2, m.w, src, sfi);
        if sure && m.w.inodes[src] == sfi {
          BaselineIsFrozen(w0, w2, m.w, src, sfi);
          assert sfi.body.bytes[..pos + |bytes|] == sfi.body.bytes[..pos] + sfi.body.bytes[pos..pos + |bytes|];
        }
        r := if ok then Written(|bytes|) else Lost;
    }

    /** One buffer of the source.  What it does not hold of the settled content shows that
        the source moved. */
    method ReadOn(src: Key, pos: nat, sfi: Inode, ghost sure: bool, ghost w0: World) returns (got: ReadResult)
      requires Valid() && src in m.w.inodes && sfi.body.FileBody? && SureBaseline(sure, w0, m.w, src, sfi)
      modifies m`w, m`past
      ensures Valid() && Later(old(m.w), m.w) && NamesNothing(old(m.past), m.past)
      ensures Untouched(m.hidden, old(m.w), m.w) && src in m.w.inodes && SureBaseline(sure, w0, m.w, src, sfi)
      ensures sure && m.w.inodes[src] == sfi ==> old(m.w).inodes[src] == sfi
      ensures got.ReadError? ==> SomeFailed(m.past, |old(m.past)|)
      ensures got.Data? ==> |got.bytes| > 0
      ensures !got.ReadError? && m.w.inodes[src] != sfi ==> SourceMoved(m.past, |old(m.past)|, src, sfi)
      ensures !got.ReadError? && m.w.inodes[src] == sfi ==>
                if got.Eof? then |sfi.body.bytes| <= pos
                else pos + |got.bytes| <= |sfi.body.bytes| && got.bytes == sfi.body.bytes[pos..pos + |got.bytes|]
    {
      hide Named, Size, KindOf, LinksKept, Stamp, Baseline;
      ghost var w1, n := m.w, |m.past|;
      got := m.Read(src, pos, COPY_BUF_SIZE);
      c.StillValid();
      assert !got.ReadError? && m.w.inodes[src] != sfi ==> Moved(m.past[n], src, sfi);
      if got.ReadError? { FailedIsCause(m.past, n, n); }
      SureLater(sure, w0, w1, m.w, src, sfi);
      if sure && m.w.inodes[src] == sfi {
        BaselineIsFrozen(w0, w1, m.w, src, sfi);
      }
    }

    /** io.CopyBuffer into the file being built. */
    method Fill(src: Key, k: Key, sfi: Inode, ghost sure: bool, ghost w0: World) returns (done: bool, cancelled: bool)
      requires Valid() && src in m.w.inodes && k in m.w.inodes && src != k && sfi.body.FileBody?
      requires m.w.inodes[k].body == FileBody([]) || k !in m.hidden
      requires SureBaseline(sure, w0, m.w, src, sfi)
      modifies m`w, m`past, m`checks
      ensures Valid() && Later(old(m.w), m.w) && NamesNothing(old(m.past), m.past)
      ensures Untouched(m.hidden - {k}, old(m.w), m.w)
      ensures SureBaseline(sure, w0, m.w, src, sfi)
      ensures k in m.hidden && done ==> m.w.inodes[k].body.FileBody?
      ensures k in m.hidden && sure && done && m.w.inodes[src] == sfi ==> m.w.inodes[k].body == sfi.body
      ensures k in m.hidden && done && Size(m.w.inodes[k]) != Size(sfi) ==> SourceMoved(m.past, |old(m.past)|, src, sfi)
      ensures if cancelled then !done && m.checks == 0 else done || SomeFailed(m.past, |old(m.past)|)
    {
      hide LinksKept, Stamp, SureBaseline;
      ghost var n0 := |m.past|;
      var pos: nat := 0;
      EvolvesIsLater(m.w, m.w);
      while true
        invariant Valid() && Later(old(m.w), m.w) && NamesNothing(old(m.past), m.past)
        invariant Untouched(m.hidden - {k}, old(m.w), m.w)
        invariant src in m.w.inodes && k in m.w.inodes && SureBaseline(sure, w0, m.w, src, sfi)
        invariant k in m.hidden ==> FilledTo(m.w, src, k, pos, sfi, sure)
        invariant pos > |sfi.body.bytes| ==> SourceMoved(m.past, n0, src, sfi)
        decreases m.checks
      {
        ghost var past1 := m.past;
        var chunk := CopyChunk(src, k, pos, sfi, sure, w0);
        match chunk
        case Written(n) =>
          if pos > |sfi.body.bytes| {
            MovedLater(past1, m.past, n0, n0, src, sfi);
          } else if pos + n > |sfi.body.bytes| {
            MovedLater(m.past, m.past, |past1|, n0, src, sfi);
          }
          pos := pos + n;
        case AtEnd =>
          assert |sfi.body.bytes| == pos ==> sfi.body.bytes[..pos] == sfi.body.bytes;
          if pos > |sfi.body.bytes| {
            MovedLater(past1, m.past, n0, n0, src, sfi);
          } else if pos < |sfi.body.bytes| {
            MovedLater(m.past, m.past, |past1|, n0, src, sfi);
          }
          return true, false;
        case Lost =>
          FailedLater(m.past, m.past, |past1|, n0);
          return false, false;
        case CutOff =>
          return false, true;
      }
    }

    /** The times, and the flush.  A file whose time could not be set is published all
        the same. */
    method StampAndFlush(j: Job) returns (ok: bool)
      requires Valid() && j.k in m.w.inodes
      modifies m`w, m`past
      ensures Valid() && Later(old(m.w), m.w) && NamesNothing(old(m.past), m.past)
      ensures Untouched(m.hidden - {j.k}, old(m.w), m.w)
      ensures j.k in m.hidden ==>
                && j.k in m.w.inodes && m.w.inodes[j.k].body == old(m.w).inodes[j.k].body
                && TimesKept(m.past, |old(m.past)|, |m.past|, m.w, j)
      ensures ok ==> SyncedBefore(m.past, |old(m.past)|, |m.past|, j.k)
      ensures !ok ==> SomeFailed(m.past, |old(m.past)|)
    {
      hide LinksKept, Stamp, Named;
      var stamped := m.SetTimes(j.k, j.sfi.mtime);
      c.StillValid();
      label stamping:
      ghost var past1 := m.past;
      ok := m.Fsync(j.k);
      c.StillValid@stamping();
      assert m.past[|past1| - 1].call == DidStamp(j.k, stamped);
      if !ok {
        FailedIsCause(m.past, |old(m.past)|, |past1|);
      } else {
        assert m.past[|past1|].call == DidSync(j.k, true) && NotWritten(m.past, |past1|, |m.past|, j.k);
      }
    }

    /** The checks between the last byte and the name: the length, the source unmoved,
        the times and the flush. */
    method Gate(src: Key, j: Job, ghost w0: World) returns (ok: bool, described: bool)
      requires Valid() && src in m.w.inodes && j.k in m.w.inodes && src != j.k
      requires SureBaseline(j.exact, w0, m.w, src, j.sfi)
      requires j.k in m.hidden ==> m.w.inodes[j.k].body.FileBody?
      requires j.k in m.hidden && j.exact && m.w.inodes[src] == j.sfi ==> m.w.inodes[j.k].body == j.sfi.body
      modifies m`w, m`past
      ensures Valid() && Later(old(m.w), m.w) && NamesNothing(old(m.past), m.past)
      ensures ok && j.k in m.hidden ==> Finished(m.past, |old(m.past)|, |m.past|, m.w, j)
      ensures ok ==> SyncedBefore(m.past, |old(m.past)|, |m.past|, j.k)
      ensures !ok ==> || SomeFailed(m.past, |old(m.past)|) || SourceMoved(m.past, |old(m.past)|, src, j.sfi)
                      || (LengthTrouble(m.past, |old(m.past)|, j)
                          && (j.k in m.hidden ==> Size(old(m.w).inodes[j.k]) != Size(j.sfi)))
      ensures !described ==> !ok && |m.past| > |old(m.past)| && m.past[|old(m.past)|].call == DidFstat(j.k, false)
    {
      hide LinksKept, SyncedBefore, Stamp, Named, TimesKept, SomeFailed, Baseline, SourceMoved, LengthTrouble, Valid;
      ghost var w1, past0 := m.w, m.past;
      ok, described := LengthRight(j);
      if !ok { return; }
      SureLater(j.exact, w0, w1, m.w, src, j.sfi);
      ghost var w2, past1 := m.w, m.past;
      ok := SourceStill(src, j.sfi, j.exact, w0);
      if j.exact && ok { BaselineIsFrozen(w0, w1, w2, src, j.sfi); }
      assert j.k in m.hidden ==> m.w.inodes[j.k].body == old(m.w).inodes[j.k].body;
      ghost var past2 := m.past;
      if ok {
        ok := StampAndFlush(j);
        if ok { SyncedFrom(m.past, |past0|, |past2|, |m.past|, j.k); }
        if j.k in m.hidden { TimesFrom(m.past, |past0|, |past2|, |m.past|, m.w, j); }
        if !ok { FailedLater(m.past, m.past, |past2|, |past0|); }
      } else if SourceMoved(past2, |past1|, src, j.sfi) {
        MovedLater(past2, past2, |past1|, |past0|, src, j.sfi);
      } else {
        FailedLater(past2, past2, |past1|, |past0|);
      }
    }

    method LengthRight(j: Job) returns (same: bool, described: bool)
      requires Valid() && j.k in m.w.inodes
      modifies m`w, m`past
      ensures Valid() && Later(old(m.w), m.w) && NamesNothing(old(m.past), m.past) && Untouched(m.hidden, old(m.w), m.w)
      ensures same ==> described && j.k in m.w.inodes && Size(m.w.inodes[j.k]) == Size(j.sfi)
      ensures !same ==> || SomeFailed(m.past, |old(m.past)|)
                        || (LengthTrouble(m.past, |old(m.past)|, j) && (j.k in m.hidden ==> Size(old(m.w).inodes[j.k]) != Size(j.sfi)))
      ensures |m.past| > |old(m.past)| && (!described ==> !same && m.past[|old(m.past)|].call == DidFstat(j.k, false))
    {
      hide LinksKept, Stamp, Named;
      ghost var n := |m.past|;
      var dfi := m.Fstat(j.k);
      c.StillValid();
      same, described := dfi.Some? && Size(dfi.value) == Size(j.sfi), dfi.Some?;
      if dfi.None? { FailedIsCause(m.past, n, n); }
      assert dfi.Some? && !same ==> LengthOff(m.past[n], j);
    }

    /** The second look at the source: it is in the state it was copied from. */
    method SourceStill(src: Key, sfi: Inode, ghost sure: bool, ghost w0: World) returns (same: bool)
      requires Valid() && src in m.w.inodes && SureBaseline(sure, w0, m.w, src, sfi)
      modifies m`w, m`past
      ensures Valid() && Later(old(m.w), m.w) && NamesNothing(old(m.past), m.past) && Untouched(m.hidden, old(m.w), m.w)
      ensures same && sure ==> old(m.w).inodes[src] == sfi
      ensures !same ==> SomeFailed(m.past, |old(m.past)|) || SourceMoved(m.past, |old(m.past)|, src, sfi)
    {
      hide LinksKept, Stamp, Named, Baseline;
      ghost var w1, n := m.w, |m.past|;
      var now := m.Fstat(src);
      c.StillValid();
      same := now.Some? && SameFileState(src, sfi, src, now.value);
      if now.None? { FailedIsCause(m.past, n, n); }
      assert now.Some? && !same ==> Moved(m.past[n], src, sfi);
      if sure && same { BaselineIsFrozen(w0, w1, m.w, src, sfi); }
    }

    /** The rename over the target, directly after the look at it. */
    method RenameOver(j: Job, dstDir: Key, p: Placement, ghost from: nat, blind: bool) returns (ok: bool)
      requires Valid() && Named(m.w, j.b.dir, j.b.name) == Some(j.k)
      requires j.alone ==> Finished(m.past, from, |m.past|, m.w, j)
      requires SyncedBefore(m.past, from, |m.past|, j.k)
      requires !(j.b.dir == dstDir && j.b.name == p.name)
      requires var at := Named(m.w, dstDir, p.name); at.Some? && !blind ==> m.w.inodes[at.value].body.FileBody?
      modifies m`w, m`past
      ensures Valid() && Later(old(m.w), m.w) && old(m.past) <= m.past && |m.past| == |old(m.past)| + 1
      ensures !ok ==> m.w == old(m.w) && NamesNothing(old(m.past), m.past)
      ensures ok ==> m.past[|old(m.past)|].call.DidRename? && TargetStep(m.past, |old(m.past)|, from, dstDir, p, j, blind)
      ensures Kept(old(m.past), m.past, from, dstDir, p, j, blind)
      ensures !GaveName(m.past[|old(m.past)|].call, j.b, j.k)
      ensures !ok ==> SomeFailed(m.past, |old(m.past)|)
    {
      hide LinksKept, Untouched, Stamp, SyncedBefore, RenamedWorld, Finished;
      ghost var past0 := m.past;
      ok := m.Rename(j.b.dir, j.b.name, dstDir, p.name, p.overwrite);
      c.StillValid();
      if !ok {
        FailedIsCause(m.past, |past0|, |past0|);
      } else {
        SyncedStill(past0, m.past, from, j.k);
        RenameFacts(past0, m.past, from, m.past[|past0|].before, m.w, j, dstDir, p);
      }
    }

    /** Rename the file over its target, once the target is absent or still a file.  The
        check that the name is this file was just made, and nobody comes in between.  A
        look at the target that fails is no reason to stop. */
    method MoveOver(j: Job, dstDir: Key, p: Placement, ghost from: nat) returns (published: bool, blind: bool)
      requires Valid() && Named(m.w, j.b.dir, j.b.name) == Some(j.k)
      requires j.alone ==> Finished(m.past, from, |m.past|, m.w, j)
      requires SyncedBefore(m.past, from, |m.past|, j.k)
      requires !(j.b.dir == dstDir && j.b.name == p.name)
      modifies m`w, m`past, m`removed
      ensures Valid() && Later(old(m.w), m.w) && old(m.past) <= m.past
      ensures Kept(old(m.past), m.past, from, dstDir, p, j, blind)
      ensures blind ==> LookedBlind(m.past, |old(m.past)|, dstDir, p)
      ensures published ==>
                && |m.past| == |old(m.past)| + 2 && m.past[|old(m.past)| + 1].call.DidRename?
                && TargetStep(m.past, |old(m.past)| + 1, from, dstDir, p, j, blind)
      ensures !published ==> NameHindered(m.past, |old(m.past)|, j, dstDir, p)
      ensures !published ==> exists g :: |old(m.past)| <= g < |m.past| && GivenUpFor(m.past, g, j.b, j.k)
    {
      hide Evolves, LinksKept, Untouched, Stamp, SyncedBefore, Kept, TargetStep, CompleteFile, Finished, GivenUpFor;
      EvolvesIsLater(m.w, m.w);
      ghost var past0 := m.past;
      var at := m.LstatNow(dstDir, p.name);
      c.StillValid();
      blind := at.Failed?;
      assert blind ==> IsBlind(m.past[|past0|], dstDir, p);
      ghost var past1 := m.past;
      QuietIsKept(past0, past1, from, dstDir, p, j, blind);
      SyncedStill(past0, past1, from, j.k);
      if j.alone { FinishedLonger(past0, past1, from, from, |past0|, |past1|, m.w, m.w, j); }
      published := !(at.Found? && !KindOf(at.node).KindRegular?);
      if published {
        published := RenameOver(j, dstDir, p, from, blind);
        KeptTrans(past0, past1, m.past, from, dstDir, p, j, blind);
        if published {
          return;
        }
      }
      ghost var past2 := m.past;
      if at.Found? && !KindOf(at.node).KindRegular? {
        assert NameHinders(past2[|past0|], j, dstDir, p);
      } else {
        FailedLater(past2, past2, |past1|, |past0|);
      }
      NameHinderedFrom(past2, past2, |past0|, |past0|, j, dstDir, p);
      GiveUp(j, dstDir, p, from, blind);
      KeptTrans(past0, past2, m.past, from, dstDir, p, j, blind);
      NameHinderedFrom(past2, m.past, |past0|, |past0|, j, dstDir, p);
    }

    /** The cleanup, in the terms of the promise. */
    method GiveUp(j: Job, dstDir: Key, p: Placement, ghost from: nat, ghost blind: bool)
      requires Valid() && !(j.b.dir == dstDir && j.b.name == p.name)
      modifies m`w, m`past, m`removed
      ensures Valid() && Later(old(m.w), m.w) && old(m.past) <= m.past
      ensures Kept(old(m.past), m.past, from, dstDir, p, j, blind)
      ensures exists g :: |old(m.past)| <= g < |m.past| && GivenUpFor(m.past, g, j.b, j.k)
    {
      UnlinkIfOurs(j.b.dir, j.b.name, j.k);
      ghost var g :| |old(m.past)| <= g < |m.past| && GivenUp(m.past[g], Building(j.b.dir, j.b.name, false, false), j.k);
      assert GivenUp(m.past[g], j.b, j.k);
      UnlinksAreKept(old(m.past), m.past, from, dstDir, p, j, blind);
      assert GivenUpFor(m.past, g, j.b, j.k);
    }

    /** A file without a name is given one: the target's, or the temporary one. */
    method LinkFirst(j: Job, dstDir: Key, p: Placement, ghost from: nat) returns (ok: bool)
      requires Valid() && j.k in m.w.inodes && j.k in m.hidden && Finished(m.past, from, |m.past|, m.w, j)
      requires j.b.unnamed && j.b.dir == dstDir && (j.b.name == p.name <==> !p.overwrite)
      requires SyncedBefore(m.past, from, |m.past|, j.k)
      modifies m`w, m`past, m`hidden
      ensures Valid() && Later(old(m.w), m.w) && old(m.past) <= m.past && |m.past| == |old(m.past)| + 1
      ensures Kept(old(m.past), m.past, from, dstDir, p, j, false)
      ensures SyncedBefore(m.past, from, |m.past|, j.k)
      ensures m.hidden == if ok && !(j.alone && p.overwrite) then old(m.hidden) - {j.k} else old(m.hidden)
      ensures ok ==> Finished(m.past, from, |m.past|, m.w, j) && m.past[|old(m.past)|].at == m.w
      ensures ok && !p.overwrite ==> TargetStep(m.past, |old(m.past)|, from, dstDir, p, j, false)
      ensures m.past[|old(m.past)|].call == if ok then DidLink(j.b.dir, j.b.name, j.k) else DidFail
    {
      hide LinksKept, Stamp, SyncedBefore, Finished;
      ghost var w0, past0 := m.w, m.past;
      ok := m.LinkUnnamed(j.k, j.b.dir, j.b.name, j.alone && p.overwrite);
      c.StillValid();
      SyncedStill(past0, m.past, from, j.k);
      if ok {
        FinishedLonger(past0, m.past, from, from, |past0|, |past0|, w0, m.w, j);
        FinishedLonger(past0, m.past, from, from, |past0|, |m.past|, w0, m.w, j);
      }
    }

    /** The check that the file's name still means it. */
    method CheckName(j: Job, dstDir: Key, p: Placement, ghost from: nat) returns (same: bool)
      requires Valid() && SyncedBefore(m.past, from, |m.past|, j.k)
      modifies m`w, m`past
      ensures Valid() && Later(old(m.w), m.w) && old(m.past) <= m.past && |m.past| == |old(m.past)| + 1
      ensures m.past[|old(m.past)|].at == m.w && !GaveName(m.past[|old(m.past)|].call, j.b, j.k)
      ensures Kept(old(m.past), m.past, from, dstDir, p, j, false)
      ensures SyncedBefore(m.past, from, |m.past|, j.k) && SyncedBefore(m.past, from, |old(m.past)|, j.k)
      ensures j.k in m.hidden && Finished(old(m.past), from, |old(m.past)|, old(m.w), j) ==>
                Finished(m.past, from, |m.past|, m.w, j) && Finished(m.past, from, |old(m.past)|, m.w, j)
      ensures if same then IsLookAt(m.past[|old(m.past)|].call, j.b.dir, j.b.name) && Named(m.w, j.b.dir, j.b.name) == Some(j.k)
              else GivenUp(m.past[|old(m.past)|], j.b, j.k) && NameHinders(m.past[|old(m.past)|], j, dstDir, p)
    {
      hide LinksKept, Stamp, SyncedBefore, Kept, Finished;
      ghost var w0, past0 := m.w, m.past;
      var at := m.Lstat(j.b.dir, j.b.name);
      c.StillValid();
      if j.k in m.hidden && Finished(past0, from, |past0|, w0, j) {
        FinishedIn(past0, from, |past0|, w0, j);
        FinishedLonger(past0, m.past, from, from, |past0|, |m.past|, w0, m.w, j);
        FinishedLonger(past0, m.past, from, from, |past0|, |past0|, w0, m.w, j);
      }
      SyncedStill(past0, m.past, from, j.k);
      QuietIsKept(past0, m.past, from, dstDir, p, j, false);
      same := at.Found? && at.key == j.k;
    }

    /** Give the finished file its name: a link or nothing, one check of the name it has,
        and a look at the target and a rename where that is not the target's. */
    method GiveName(j: Job, dstDir: Key, p: Placement, ghost from: nat)
      returns (published: bool, blind: bool, ghost looked: nat, ghost done: nat)
      requires Valid() && j.k in m.w.inodes && from <= |m.past|
      requires j.b.unnamed || j.alone ==> j.k in m.hidden && Finished(m.past, from, |m.past|, m.w, j)
      requires j.b.unnamed ==> j.b.dir == dstDir && (j.b.name == p.name <==> !p.overwrite)
      requires SyncedBefore(m.past, from, |m.past|, j.k)
      modifies m`w, m`past, m`hidden, m`removed
      ensures Valid() && Later(old(m.w), m.w) && old(m.past) <= m.past
      ensures Kept(old(m.past), m.past, from, dstDir, p, j, blind)
      ensures blind ==> LookedBlind(m.past, |old(m.past)|, dstDir, p)
      ensures published ==> PublishedAt(m.past, from, dstDir, p, j, looked, done)
      ensures !published ==> GaveUp(old(m.past), m.past, j.b, j.k)
      ensures !published ==> NameHindered(m.past, |old(m.past)|, j, dstDir, p)
    {
      hide LinksKept, Stamp, Untouched, SyncedBefore, Kept, TargetStep, PublishedAt, GaveUp, GivenUpFor, CompleteFile, Finished,
           Evolves, NamesNothing, GivenUp, NameHindered, NameHinders, LookedBlind;
      ghost var past0 := m.past;
      blind, looked, done := false, 0, |m.past|;
      EvolvesIsLater(m.w, m.w);
      if j.b.unnamed {
        published := LinkFirst(j, dstDir, p, from);
        if !published {
          NoNameNothing(past0, m.past, j.b, j.k);
          CallHinders(m.past, |past0|, |past0|, j, dstDir, p);
          return;
        }
      } else {
        NoCallIsKept(past0, from, dstDir, p, j);
      }
      ghost var past1 := m.past;
      looked := |m.past|;
      var same := CheckName(j, dstDir, p, from);
      ghost var past2 := m.past;
      KeptTrans(past0, past1, past2, from, dstDir, p, j, false);
      if !same {
        published := false;
        GivesUpAt(past0, past1, past2, looked, j.b, j.k);
        LookHinders(m.past, |past0|, looked, j, dstDir, p);
        return;
      }
      published := true;
      if j.b.dir == dstDir && j.b.name == p.name {
        if !j.b.unnamed {
          done := looked;
          DirectIsPublished(m.past, from, dstDir, p, j, looked);
        } else {
          LinkIsPublished(past1, past2, from, dstDir, p, j, looked, done);
        }
        return;
      }
      published, blind := MoveOver(j, dstDir, p, from);
      if blind { BlindFrom(m.past, |past2|, |past0|, dstDir, p); }
      KeptBlind(past0, past2, from, dstDir, p, j, blind);
      KeptTrans(past0, past2, m.past, from, dstDir, p, j, blind);
      done := |past2| + 1;
      if published {
        RenameIsPublished(m.past, from, dstDir, p, j, blind, looked, done);
      } else {
        ItGaveUp(past0, past2, m.past, j.b, j.k);
        NameHinderedFrom(m.past, m.past, |past2|, |past0|, j, dstDir, p);
      }
    }

    /** An unguessable name: anything but the target's own. */
    method TmpName(target: string) returns (name: string)
      ensures name != target
    {
      var random: string :| true;
      name := if random == target then target + ".part" else random;
    }

    /** Where the file is built: with no name, in a private directory, or under a name
        in the destination itself.  Where others can reach it, whether anybody writes
        into it is theirs to decide. */
    method Build(dstDir: Key, p: Placement, unnamedOK: bool, stage: Stage)
      returns (b: Building, k: Key, made: bool, alone: bool)
      requires Valid()
      requires stage.Staged? ==> stage.dir in m.hidden && stage.dir in m.w.inodes && stage.dir != dstDir
      modifies m`w, m`past, m`hidden
      ensures Valid() && Later(old(m.w), m.w) && old(m.past) <= m.past
      ensures !made ==> m.hidden == old(m.hidden) && ((stage.StageRefused? && !unnamedOK) || SomeFailed(m.past, |old(m.past)|))
      ensures made ==> NewFile(k, old(m.w), m.w, old(m.hidden), m.hidden, alone || b.unnamed)
      ensures Sheltered(b, p) ==> alone
      ensures b.unnamed ==> b.dir == dstDir && (b.name == p.name <==> !p.overwrite)
      ensures if b.private then stage == Staged(b.dir) && !b.unnamed else b.dir == dstDir
      ensures made ==> AsOffered(b, stage, unnamedOK, m.past, |old(m.past)|)
      ensures Direct(b, dstDir, p) <==> !b.unnamed && !b.private && !p.overwrite
      ensures if made && !b.unnamed then CreatedLast(old(m.past), m.past, b, k) else NamesNothing(old(m.past), m.past)
    {
      hide LinksKept, Untouched, Stamp, NewFile, SomeFailed, CreatedLast, NamesNothing, Named, Valid, Direct, Evolves;
      var tmp := TmpName(p.name);
      var left: bool :| true;
      ghost var w0, past0 := m.w, m.past;
      EvolvesIsLater(w0, w0);
      NothingIsQuiet(past0);
      if unnamedOK {
        b, alone := Building(dstDir, if p.overwrite then tmp else p.name, true, false), !p.overwrite || left;
        UnnamedIsNotDirect(b, dstDir, p);
        var f := BuildUnnamed(dstDir);
        if f.Some? {
          return b, f.value, true, alone;
        }
        if stage.Staged? { StillThere(w0, m.w, stage.dir); }
      }
      ghost var w1, past1 := m.w, m.past;
      b, k, made, alone := BuildNamed(dstDir, p, stage, tmp, left);
      if unnamedOK {
        FailedLater(past1, m.past, |past0|, |past0|);
      } else if SomeFailed(m.past, |past1|) {
        FailedLater(m.past, m.past, |past1|, |past0|);
      }
      if made {
        NewSince(k, w0, w1, m.w, old(m.hidden), m.hidden, alone);
        CreatedSince(past0, past1, m.past, b, k);
      } else {
        NothingTrans(past0, past1, m.past);
      }
    }

    method BuildUnnamed(dstDir: Key) returns (f: Option<Key>)
      requires Valid()
      modifies m`w, m`past, m`hidden
      ensures Valid() && Later(old(m.w), m.w) && old(m.past) <= m.past && NamesNothing(old(m.past), m.past)
      ensures if f.None? then m.hidden == old(m.hidden) && SomeFailed(m.past, |old(m.past)|)
              else NewFile(f.value, old(m.w), m.w, old(m.hidden), m.hidden, true)
    {
      hide LinksKept, Untouched, Stamp;
      f := m.OpenUnnamed(dstDir.dev);
      c.StillValid();
      if f.None? { FailedIsCause(m.past, |old(m.past)|, |m.past| - 1); }
    }

    method BuildNamed(dstDir: Key, p: Placement, stage: Stage, tmp: string, left: bool)
      returns (b: Building, k: Key, made: bool, alone: bool)
      requires Valid() && tmp != p.name
      requires stage.Staged? ==> stage.dir in m.hidden && stage.dir in m.w.inodes && stage.dir != dstDir
      modifies m`w, m`past, m`hidden
      ensures Valid() && Later(old(m.w), m.w) && old(m.past) <= m.past
      ensures !made ==> m.hidden == old(m.hidden) && (stage.StageRefused? || SomeFailed(m.past, |old(m.past)|))
      ensures made ==> NewFile(k, old(m.w), m.w, old(m.hidden), m.hidden, alone)
      ensures !b.unnamed && (b.private ==> alone) && (made ==> !stage.StageRefused? && (stage.Staged? ==> b.private))
      ensures if b.private then stage == Staged(b.dir) else b.dir == dstDir
      ensures Direct(b, dstDir, p) <==> !b.private && !p.overwrite
      ensures if made then CreatedLast(old(m.past), m.past, b, k) else NamesNothing(old(m.past), m.past)
    {
      hide LinksKept, Untouched, Stamp;
      b, k, made, alone := Building(dstDir, if p.overwrite then tmp else p.name, false, false), dstDir, false, left;
      EvolvesIsLater(m.w, m.w);
      if stage.StageRefused? {
        return;
      }
      if stage.Staged? {
        b, alone := Building(stage.dir, tmp, false, true), true;
      }
      var f := m.CreateExcl(b.dir, b.name, alone);
      c.StillValid();
      made := f.Some?;
      if made { k := f.value; } else { FailedIsCause(m.past, |old(m.past)|, |m.past| - 1); }
    }

    /** The empty file proved, filled, checked and flushed, or thrown away. */
    method Finish(src: Key, j: Job, ghost from: nat, ghost w0: World) returns (ok: bool, cancelled: bool)
      requires Valid() && src in m.w.inodes && j.k in m.w.inodes && src != j.k && j.sfi.body.FileBody?
      requires j.alone || j.b.unnamed ==> j.k in m.hidden
      requires m.w.inodes[j.k].body == FileBody([]) && SureBaseline(j.exact, w0, m.w, src, j.sfi) && from <= |m.past|
      modifies m`w, m`past, m`checks, m`removed
      ensures Valid() && Later(old(m.w), m.w) && old(m.past) <= m.past
      ensures ok ==> NamesNothing(old(m.past), m.past) && !cancelled && SyncedBefore(m.past, from, |m.past|, j.k)
      ensures ok && j.k in m.hidden ==> Finished(m.past, from, |m.past|, m.w, j)
      ensures j.b.unnamed ==> NamesNothing(old(m.past), m.past)
      ensures OnlyUnlinks(old(m.past), m.past, j.b, j.k)
      ensures !ok ==> GaveUp(old(m.past), m.past, j.b, j.k)
      ensures !ok ==> if cancelled then m.checks == 0 else FillHindered(m.past, |old(m.past)|, src, j)
    {
      hide LinksKept, CompleteFile, Finished, Stamp, Named, Evolves, SureBaseline, GivenUp, GaveUp, SyncedBefore, Untouched, Naming, OnlyUnlinks,
           FillHindered, Valid;
      ghost var past0 := m.past;
      var described;
      ghost var g;
      ok, cancelled, described, g := FillChecked(src, j, from, w0);
      NothingUnlinks(past0, m.past, j.b, j.k);
      if !ok {
        ghost var past1 := m.past;
        g := Throw(j, described, g);
        if !cancelled { FillHinderedFrom(past1, m.past, |past0|, |past0|, src, j); }
        UnlinksTrans(past0, past1, m.past, j.b, j.k);
        OnlyUnlinksGiveUp(past0, m.past, g, j.b, j.k);
      }
    }

    /** The same, before anything is thrown away. */
    method FillChecked(src: Key, j: Job, ghost from: nat, ghost w0: World) returns (ok: bool, cancelled: bool, described: bool, ghost g: nat)
      requires Valid() && src in m.w.inodes && j.k in m.w.inodes && src != j.k && j.sfi.body.FileBody?
      requires j.alone || j.b.unnamed ==> j.k in m.hidden
      requires m.w.inodes[j.k].body == FileBody([]) && SureBaseline(j.exact, w0, m.w, src, j.sfi) && from <= |m.past|
      modifies m`w, m`past, m`checks
      ensures Valid() && Later(old(m.w), m.w) && NamesNothing(old(m.past), m.past)
      ensures ok ==> !cancelled && SyncedBefore(m.past, from, |m.past|, j.k)
      ensures ok && j.k in m.hidden ==> Finished(m.past, from, |m.past|, m.w, j)
      ensures !ok && !described ==> |old(m.past)| <= g < |m.past| && GivenUp(m.past[g], j.b, j.k)
      ensures !ok ==> if cancelled then m.checks == 0 else FillHindered(m.past, |old(m.past)|, src, j)
    {
      hide LinksKept, CompleteFile, Finished, Stamp, Named, Evolves, SureBaseline, GivenUp, SyncedBefore, Untouched, Naming,
           SomeFailed, SourceMoved, LengthTrouble, Valid;
      ghost var past0 := m.past;
      ok, described := ProveEmpty(src, j, w0);
      cancelled, g := false, |past0|;
      if !ok {
        FillHinderedFrom(m.past, m.past, |past0|, |past0|, src, j);
        return;
      }
      ghost var past1 := m.past;
      ok, cancelled, described, g := FillOrLose(src, j, w0);
      NothingTrans(past0, past1, m.past);
      if !ok {
        if !cancelled { FillHinderedFrom(m.past, m.past, |past1|, |past0|, src, j); }
        return;
      }
      ghost var past2 := m.past;
      ok, described := Gate(src, j, w0);
      g := |past2|;
      NothingTrans(past0, past2, m.past);
      if !ok {
        NothingTrans(past1, past2, m.past);
        GateHinders(past2, m.past, |past0|, |past1|, src, j, j.k in m.hidden);
        if !described { NoFstat(m.past[g], j.b, j.k); }
        return;
      }
      SyncedFrom(m.past, from, |past2|, |m.past|, j.k);
      if j.k in m.hidden {
        FinishedIn(m.past, |past2|, |m.past|, m.w, j);
        FinishedLonger(m.past, m.past, |past2|, from, |m.past|, |m.past|, m.w, m.w, j);
      }
    }

    /** The checks of mode, group and owner on the empty file. */
    method ProveEmpty(src: Key, j: Job, ghost w0: World) returns (ok: bool, described: bool)
      requires Valid() && src in m.w.inodes && j.k in m.w.inodes && m.w.inodes[j.k].body == FileBody([])
      requires SureBaseline(j.exact, w0, m.w, src, j.sfi)
      modifies m`w, m`past
      ensures Valid() && Later(old(m.w), m.w) && |m.past| > |old(m.past)| && NamesNothing(old(m.past), m.past)
      ensures src in m.w.inodes && j.k in m.w.inodes && SureBaseline(j.exact, w0, m.w, src, j.sfi)
      ensures j.k in m.hidden ==> m.w.inodes[j.k].body == FileBody([])
      ensures !ok ==> SomeFailed(m.past, |old(m.past)|)
      ensures !described ==> !ok && GivenUp(m.past[|old(m.past)|], j.b, j.k)
    {
      hide LinksKept, Stamp, Named;
      ghost var w1 := m.w;
      var empty := m.Fstat(j.k);
      c.StillValid();
      SureLater(j.exact, w0, w1, m.w, src, j.sfi);
      ok, described := false, empty.Some?;
      if !described {
        FailedIsCause(m.past, |old(m.past)|, |old(m.past)|);
        return;
      }
      label looked:
      ghost var w2 := m.w;
      ok := m.Own(j.k);
      c.StillValid@looked();
      SureLater(j.exact, w0, w2, m.w, src, j.sfi);
      if !ok { FailedIsCause(m.past, |old(m.past)|, |old(m.past)| + 1); }
    }

    /** The copy itself; where it failed, the look that is to say what to throw away. */
    method FillOrLose(src: Key, j: Job, ghost w0: World) returns (filled: bool, cancelled: bool, described: bool, ghost g: nat)
      requires Valid() && src in m.w.inodes && j.k in m.w.inodes && src != j.k && j.sfi.body.FileBody?
      requires m.w.inodes[j.k].body == FileBody([]) || j.k !in m.hidden
      requires SureBaseline(j.exact, w0, m.w, src, j.sfi)
      modifies m`w, m`past, m`checks
      ensures Valid() && Later(old(m.w), m.w) && NamesNothing(old(m.past), m.past)
      ensures src in m.w.inodes && j.k in m.w.inodes && SureBaseline(j.exact, w0, m.w, src, j.sfi)
      ensures filled ==> !cancelled
      ensures cancelled ==> m.checks == 0
      ensures !filled && !cancelled ==> SomeFailed(m.past, |old(m.past)|)
      ensures j.k in m.hidden && filled && Size(m.w.inodes[j.k]) != Size(j.sfi) ==> SourceMoved(m.past, |old(m.past)|, src, j.sfi)
      ensures j.k in m.hidden && filled ==> m.w.inodes[j.k].body.FileBody?
      ensures j.k in m.hidden && j.exact && filled && m.w.inodes[src] == j.sfi ==> m.w.inodes[j.k].body == j.sfi.body
      ensures !filled && !described ==> |old(m.past)| <= g < |m.past| && GivenUp(m.past[g], j.b, j.k)
    {
      hide LinksKept, Stamp, Named, Untouched;
      described, g := true, 0;
      filled, cancelled := Fill(src, j.k, j.sfi, j.exact, w0);
      if !filled {
        g := |m.past|;
        ghost var past1 := m.past;
        ghost var w1 := m.w;
        label lost:
        var partial := m.Fstat(j.k);
        c.StillValid@lost();
        SureLater(j.exact, w0, w1, m.w, src, j.sfi);
        described := partial.Some?;
        if !cancelled { FailedLater(past1, m.past, |old(m.past)|, |old(m.past)|); }
      } else {
        cancelled := false;
      }
    }

    /** Discard, saying at which instant the file's name was given up: g, where it was the
        file's own description that failed. */
    method Throw(j: Job, described: bool, ghost g: nat) returns (ghost g': nat)
      requires Valid() && (!described ==> g < |m.past| && GivenUp(m.past[g], j.b, j.k))
      modifies m`w, m`past, m`removed
      ensures Valid() && Later(old(m.w), m.w) && old(m.past) <= m.past
      ensures OnlyUnlinks(old(m.past), m.past, j.b, j.k)
      ensures j.b.unnamed ==> m.past == old(m.past)
      ensures !j.b.unnamed ==> g' < |m.past| && GivenUp(m.past[g'], j.b, j.k)
      ensures !j.b.unnamed ==> if described then |old(m.past)| <= g' else g' == g
    {
      hide GivenUp;
      g' := g;
      Discard(j.b, j.k, described);
      if !j.b.unnamed && described {
        g' :| |old(m.past)| <= g' < |m.past| && GivenUp(m.past[g'], j.b, j.k);
      }
    }

    /** From the empty file on: finish it and name it, and throw it away on every path
        that does not publish it. */
    method FillAndName(src: Key, j: Job, dstDir: Key, p: Placement, ghost from: nat, ghost w0: World)
      returns (r: Outcome, blind: bool, ghost looked: nat, ghost done: nat)
      requires Valid() && src in m.w.inodes && j.k in m.w.inodes && src != j.k && j.sfi.body.FileBody? && from <= |m.past|
      requires j.alone || j.b.unnamed ==> j.k in m.hidden
      requires m.w.inodes[j.k].body == FileBody([]) && SureBaseline(j.exact, w0, m.w, src, j.sfi)
      requires j.b.unnamed ==> j.b.dir == dstDir && (j.b.name == p.name <==> !p.overwrite)
      modifies m`w, m`past, m`checks, m`hidden, m`removed
      ensures Valid() && Later(old(m.w), m.w) && old(m.past) <= m.past
      ensures Kept(old(m.past), m.past, from, dstDir, p, j, blind)
      ensures blind ==> LookedBlind(m.past, |old(m.past)|, dstDir, p)
      ensures r.Published? || r.Unclosed? ==> PublishedAt(m.past, from, dstDir, p, j, looked, done)
      ensures r.NotPublished? || r.JobCancelled? ==> GaveUp(old(m.past), m.past, j.b, j.k)
      ensures r.NotPublished? ==> Hindered(m.past, |old(m.past)|, src, j, dstDir, p)
      ensures r.JobCancelled? ==> m.checks == 0
      ensures r.Published? || r.Unclosed? ==> m.past[|m.past| - 1].call == DidClose(j.k, r.Published?)
      ensures r.JobCancelled? && !Direct(j.b, dstDir, p) ==> TargetUntouched(old(m.past), m.past, dstDir, p.name)
    {
      hide Evolves, LinksKept, CompleteFile, Finished, Stamp, Named, Kept, PublishedAt, SureBaseline, SyncedBefore, GaveUp,
           FillHindered, NameHindered;
      blind, looked, done := false, 0, 0;
      ghost var past0 := m.past;
      var ok, cancelled := Finish(src, j, from, w0);
      ghost var past1 := m.past;
      UnlinksAreKept(past0, past1, from, dstDir, p, j, false);
      if !ok {
        return if cancelled then JobCancelled else NotPublished, blind, looked, done;
      }
      StillThere(old(m.w), m.w, j.k);
      var published;
      published, blind, looked, done := GiveName(j, dstDir, p, from);
      KeptBlind(past0, past1, from, dstDir, p, j, blind);
      KeptTrans(past0, past1, m.past, from, dstDir, p, j, blind);
      if !published {
        GaveUpLater(past0, past1, m.past, j.b, j.k);
        NameHinderedFrom(m.past, m.past, |past1|, |past0|, j, dstDir, p);
      }
      ghost var past2 := m.past;
      label naming:
      var closed := m.Close(j.k);
      EvolvesIsLater(m.w, m.w);
      c.StillValid@naming();
      AfterClose(past0, past2, m.past, from, dstDir, p, j, blind, looked, done, published);
      if !published { HinderedFrom(past2, m.past, |past0|, |past0|, src, j, dstDir, p); }
      r := if !published then NotPublished else if closed then Published else Unclosed;
    }

    /** Copy one regular file.  Unless it had to be created under its final name, the
        target's name only ever goes to this job's own file, in one step, flushed, and
        finished where nobody else could write into it.  Reported as published it has the
        name; reported as not, the name it was built under is gone. */
    method CopyFile(srcDir: Key, srcName: string, listed: Key, dstDir: Key, p: Placement, move: bool,
                    unnamedOK: bool, stage: Stage)
      returns (r: Outcome, j: Job, blind: bool, ghost opening: nat, ghost looked: nat, ghost done: nat)
      requires Valid() && dstDir in m.w.inodes
      requires stage.Staged? ==> stage.dir in m.hidden && stage.dir in m.w.inodes && stage.dir != dstDir
      modifies m, c`clockSeen
      ensures Valid() && Later(old(m.w), m.w)
      ensures Sheltered(j.b, p) ==> j.alone
      ensures !r.NotPublished? ==> AsOffered(j.b, stage, unnamedOK, m.past, |old(m.past)|)
      ensures Direct(j.b, dstDir, p) <==> !j.b.unnamed && !j.b.private && !p.overwrite
      ensures Kept(old(m.past), m.past, |old(m.past)|, dstDir, p, j, blind)
      ensures blind ==> LookedBlind(m.past, |old(m.past)|, dstDir, p)
      ensures r.Published? || r.Unclosed? ==> PublishedAt(m.past, |old(m.past)|, dstDir, p, j, looked, done)
      ensures r.NotPublished? || r.JobCancelled? ==> Cleaned(m.past, |old(m.past)|, j.b, j.k)
      ensures r.JobCancelled? && !Direct(j.b, dstDir, p) ==> TargetUntouched(old(m.past), m.past, dstDir, p.name)
      ensures r.NotPublished? ==>
                || (stage.StageRefused? && !unnamedOK) || OpenHindered(m.past, |old(m.past)|, srcDir, srcName, listed, c.srcRootParent)
                || Hindered(m.past, opening, listed, j, dstDir, p)
      ensures r.JobCancelled? ==> m.checks == 0
      ensures r.Published? || r.Unclosed? ==> m.past[|m.past| - 1].call == DidClose(j.k, r.Published?)
      ensures j.exact || !r.NotPublished? ==> OpenedAs(old(m.past), m.past, opening, listed, j, move, c.srcRootParent.dev)
    {
      hide LinksKept, CompleteFile, Finished, Kept, PublishedAt, Stamp, Named, Untouched, SyncedBefore, GivenUp, GaveUp, Cleaned, TargetUntouched,
           OpenedAs, SureBaseline, Evolves, Hindered, OpenHindered, SomeFailed, Valid, NamesNothing, Direct, LookedBlind, AsOffered;
      ghost var past0 := m.past;
      var src, state;
      src, state, opening := OpenSource(srcDir, srcName, listed, move);
      ghost var past1 := m.past;
      if src.None? {
        blind, looked, done := false, 0, 0;
        j := Job(Building(dstDir, p.name, true, false), dstDir, state, false, true);
        UnnamedIsNotDirect(j.b, dstDir, p);
        QuietIsKept(past0, past1, |past0|, dstDir, p, j, blind);
        NeverNamed(past0, past1, past1, j.b, j.k);
        return NotPublished, j, blind, opening, looked, done;
      }
      if stage.Staged? { StillThere(old(m.w), m.w, stage.dir); }
      r, j, blind, looked, done := CopyOpened(listed, state, dstDir, p, unnamedOK, stage, |past0|);
      JustOpened(past0, past1, opening, listed, j, move, c.srcRootParent.dev);
      OpenedLater(past0, past1, m.past, opening, listed, j, move, c.srcRootParent.dev);
      QuietIsKept(past0, past1, |past0|, dstDir, p, j, blind);
      KeptTrans(past0, past1, m.past, |past0|, dstDir, p, j, blind);
      if blind { BlindFrom(m.past, |past1|, |past0|, dstDir, p); }
      if !r.NotPublished? { OfferedLater(j.b, stage, unnamedOK, m.past, m.past, |past1|, |past0|); }
      if r.NotPublished? && !(stage.StageRefused? && !unnamedOK) {
        HinderedFrom(m.past, m.past, |past1|, opening, listed, j, dstDir, p);
      }
      if r.NotPublished? || r.JobCancelled? { CleanedFrom(past0, past1, m.past, j.b, j.k); }
      if r.JobCancelled? && !Direct(j.b, dstDir, p) { UntouchedFrom(past0, past1, m.past, dstDir, p.name); }
    }

    /** The source is open. */
    method CopyOpened(listed: Key, state: Inode, dstDir: Key, p: Placement, unnamedOK: bool, stage: Stage, ghost from: nat)
      returns (r: Outcome, j: Job, blind: bool, ghost looked: nat, ghost done: nat)
      requires Valid() && listed in m.w.inodes && m.w.inodes[listed] == state && state.body.FileBody? && from <= |m.past|
      requires stage.Staged? ==> stage.dir in m.hidden && stage.dir in m.w.inodes && stage.dir != dstDir
      modifies m`w, m`past, m`checks, m`hidden, m`removed
      ensures Valid() && Later(old(m.w), m.w) && old(m.past) <= m.past
      ensures !r.NotPublished? ==> AsOffered(j.b, stage, unnamedOK, m.past, |old(m.past)|)
      ensures j.sfi == state && j.exact == (state.ctime < Stamp(old(m.w), listed.dev))
      ensures Sheltered(j.b, p) ==> j.alone
      ensures Direct(j.b, dstDir, p) <==> !j.b.unnamed && !j.b.private && !p.overwrite
      ensures Kept(old(m.past), m.past, from, dstDir, p, j, blind)
      ensures blind ==> LookedBlind(m.past, |old(m.past)|, dstDir, p)
      ensures r.Published? || r.Unclosed? ==> PublishedAt(m.past, from, dstDir, p, j, looked, done)
      ensures r.NotPublished? || r.JobCancelled? ==> Cleaned(m.past, |old(m.past)|, j.b, j.k)
      ensures r.JobCancelled? && !Direct(j.b, dstDir, p) ==> TargetUntouched(old(m.past), m.past, dstDir, p.name)
      ensures r.NotPublished? ==> (stage.StageRefused? && !unnamedOK) || Hindered(m.past, |old(m.past)|, listed, j, dstDir, p)
      ensures r.JobCancelled? ==> m.checks == 0
      ensures r.Published? || r.Unclosed? ==> m.past[|m.past| - 1].call == DidClose(j.k, r.Published?)
    {
      hide LinksKept, CompleteFile, Finished, Kept, PublishedAt, Stamp, Named, Untouched, SyncedBefore, GivenUp, GaveUp, Cleaned, TargetUntouched,
           SureBaseline, Evolves, Hindered, SomeFailed, Valid, NamesNothing, Direct, Sheltered, CreatedLast, LookedBlind, AsOffered;
      blind, looked, done := false, 0, 0;
      ghost var w0, past1 := m.w, m.past;
      var exact := state.ctime < Stamp(m.w, listed.dev);
      EvolvesIsLater(m.w, m.w);
      BaselineStarts(exact, w0, listed, state);
      var b, k, made, alone := Build(dstDir, p, unnamedOK, stage);
      j := Job(b, k, state, exact, alone);
      ghost var past2 := m.past;
      CreatedIsKept(past1, past2, from, dstDir, p, j, made);
      if !made {
        NothingIsQuiet(past1);
        NeverNamed(past1, past1, past2, b, k);
        if unnamedOK || !stage.StageRefused? { FailedHinders(past2, |past1|, |past1|, listed, j, dstDir, p); }
        return NotPublished, j, blind, looked, done;
      }
      SureLater(exact, w0, w0, m.w, listed, state);
      StillThere(w0, m.w, listed);
      r, blind, looked, done := FillAndName(listed, j, dstDir, p, from, w0);
      OfferedLater(b, stage, unnamedOK, past2, m.past, |past1|, |past1|);
      KeptBlind(past1, past2, from, dstDir, p, j, blind);
      KeptTrans(past1, past2, m.past, from, dstDir, p, j, blind);
      NothingIsQuiet(past1);
      if blind { BlindFrom(m.past, |past2|, |past1|, dstDir, p); }
      if r.NotPublished? { HinderedFrom(m.past, m.past, |past2|, |past1|, listed, j, dstDir, p); }
      if r.NotPublished? || r.JobCancelled? {
        GaveUpIsCleaned(past1, past1, past2, m.past, b, k);
      }
      if r.JobCancelled? && !Direct(b, dstDir, p) {
        StillUntouched(past1, past1, past2, m.past, b, k, dstDir, p);
      }
    }
  }

  /** What became of one buffer. */
  datatype Chunk = Written(n: nat) | AtEnd | Lost | CutOff

  /** What is in the file so far is the source's beginning, if the source is in its
      settled state. */
  ghost predicate FilledTo(w: World, src: Key, k: Key, pos: nat, sfi: Inode, sure: bool)
    requires src in w.inodes && k in w.inodes && sfi.body.FileBody?
  {
    && w.inodes[k].body.FileBody? && |w.inodes[k].body.bytes| == pos
    && (sure && w.inodes[src] == sfi ==> pos <= |sfi.body.bytes| && w.inodes[k].body.bytes == sfi.body.bytes[..pos])
  }

  /** The source was opened in this state; it counts as settled exactly if the clock was
      already past its change time then, as a move makes sure on its own filesystem. */
  ghost predicate OpenedAs(was: seq<Event>, past: seq<Event>, opening: nat, listed: Key, j: Job, move: bool, dev: nat) {
    && |was| <= opening < |past| && past[opening].call == DidFstat(listed, true)
    && listed in past[opening].at.inodes && past[opening].at.inodes[listed] == j.sfi
    && (j.exact <==> j.sfi.ctime < Stamp(past[opening].at, listed.dev))
    && (move && listed.dev == dev ==> j.exact)
  }

  /** The run went on to create the file under its name, and there is nothing else. */
  ghost predicate CreatedLast(was: seq<Event>, now: seq<Event>, b: Building, k: Key) {
    && |now| > |was| && NamesNothing(was, now[..|now| - 1])
    && var x := now[|now| - 1];
       && x.call == DidCreate(b.dir, b.name, k) && Named(x.before, b.dir, b.name) == None
       && Named(x.at, b.dir, b.name) == Some(k) && x.at.inodes[k].body == FileBody([])
  }

  /** The only entry changed is the file's own, and only by its removal. */
  ghost predicate OnlyUnlinks(was: seq<Event>, now: seq<Event>, b: Building, k: Key) {
    was <= now && forall i | |was| <= i < |now| && Naming(now[i].call) :: now[i].call == DidUnlink(b.dir, b.name, Some(k))
  }

  /** If the file has a name of its own by now, it is given up, and not given again. */
  ghost predicate GaveUp(was: seq<Event>, now: seq<Event>, b: Building, k: Key) {
    && was <= now
    && (!b.unnamed || (exists i :: |was| <= i < |now| && GaveName(now[i].call, b, k)) ==>
          exists g :: |was| <= g < |now| && GivenUpFor(now, g, b, k))
  }

  ghost predicate GivenUpFor(now: seq<Event>, g: nat, b: Building, k: Key)
    requires g < |now|
  {
    GivenUp(now[g], b, k) && forall i | g <= i < |now| :: !GaveName(now[i].call, b, k)
  }

  lemma NothingTrans(a: seq<Event>, b: seq<Event>, c: seq<Event>)
    requires NamesNothing(a, b) && NamesNothing(b, c)
    ensures NamesNothing(a, c)
  {
    assert forall i | |a| <= i < |b| :: c[i] == b[i];
  }

  lemma NothingUnlinks(was: seq<Event>, now: seq<Event>, b: Building, k: Key)
    requires NamesNothing(was, now)
    ensures OnlyUnlinks(was, now, b, k)
  {
  }

  lemma UnlinksTrans(a: seq<Event>, b: seq<Event>, c: seq<Event>, at: Building, k: Key)
    requires NamesNothing(a, b) && OnlyUnlinks(b, c, at, k)
    ensures OnlyUnlinks(a, c, at, k) && (b == c ==> NamesNothing(a, c))
  {
    assert forall i | |a| <= i < |b| :: c[i] == b[i];
  }

  lemma NoFstat(x: Event, b: Building, k: Key)
    requires x.call == DidFstat(k, false)
    ensures GivenUp(x, b, k)
  {
  }

  lemma OnlyUnlinksGiveUp(was: seq<Event>, now: seq<Event>, g: nat, b: Building, k: Key)
    requires OnlyUnlinks(was, now, b, k)
    requires b.unnamed || (|was| <= g < |now| && GivenUp(now[g], b, k))
    ensures GaveUp(was, now, b, k)
  {
    hide GivenUp;
    assert forall i | |was| <= i < |now| :: GaveName(now[i].call, b, k) ==> Naming(now[i].call);
    if !b.unnamed {
      assert GivenUpFor(now, g, b, k);
    }
  }

  /** Nothing was named before, and the name was looked at and given up. */
  lemma GivesUpAt(was: seq<Event>, mid: seq<Event>, now: seq<Event>, g: nat, b: Building, k: Key)
    requires was <= mid <= now && |mid| <= g < |now| && GivenUp(now[g], b, k)
    requires forall i | |mid| <= i < |now| :: !GaveName(now[i].call, b, k)
    ensures GaveUp(was, now, b, k)
  {
    assert GivenUpFor(now, g, b, k);
  }

  lemma GaveUpLater(a: seq<Event>, b: seq<Event>, c: seq<Event>, at: Building, k: Key)
    requires NamesNothing(a, b) && GaveUp(b, c, at, k)
    ensures GaveUp(a, c, at, k)
  {
    hide GivenUpFor;
    if !at.unnamed || (exists i :: |a| <= i < |c| && GaveName(c[i].call, at, k)) {
      if at.unnamed {
        var i :| |a| <= i < |c| && GaveName(c[i].call, at, k);
        if i < |b| { assert c[i] == b[i]; }
      }
      var g :| |b| <= g < |c| && GivenUpFor(c, g, at, k);
    }
  }

  lemma JustOpened(was: seq<Event>, past: seq<Event>, opening: nat, listed: Key, j: Job, move: bool, dev: nat)
    requires |was| <= opening < |past| && past[opening].call == DidFstat(listed, true)
    requires listed in past[opening].at.inodes && past[opening].at.inodes[listed] == j.sfi
    requires j.exact == (j.sfi.ctime < Stamp(past[opening].at, listed.dev)) && (move && listed.dev == dev ==> j.exact)
    ensures OpenedAs(was, past, opening, listed, j, move, dev)
  {
  }

  lemma OpenedLater(was: seq<Event>, past: seq<Event>, past': seq<Event>, opening: nat, listed: Key, j: Job, move: bool, dev: nat)
    requires OpenedAs(was, past, opening, listed, j, move, dev) && past <= past'
    ensures OpenedAs(was, past', opening, listed, j, move, dev)
  {
  }

  lemma UnlinksAreKept(was: seq<Event>, now: seq<Event>, from: nat, dir: Key, p: Placement, j: Job, blind: bool)
    requires OnlyUnlinks(was, now, j.b, j.k) && (j.b.unnamed && j.b.dir == dir && j.b.name == p.name ==> NamesNothing(was, now))
    ensures Kept(was, now, from, dir, p, j, blind)
    ensures !Direct(j.b, dir, p) ==> TargetUntouched(was, now, dir, p.name)
  {
    hide CompleteFile, TargetStep;
  }

  lemma CreatedIsKept(was: seq<Event>, now: seq<Event>, from: nat, dir: Key, p: Placement, j: Job, made: bool)
    requires if made && !j.b.unnamed then CreatedLast(was, now, j.b, j.k) else NamesNothing(was, now)
    ensures Kept(was, now, from, dir, p, j, false)
  {
    hide CompleteFile, TargetStep;
  }

  lemma StepIs(past: seq<Event>, i: nat, from: nat, dir: Key, p: Placement, j: Job, blind: bool)
    requires i < |past| && TargetStep(past, i, from, dir, p, j, blind)
    ensures TargetStep(past, i, from, dir, p, j, true)
  {
  }

  lemma KeptBlind(was: seq<Event>, now: seq<Event>, from: nat, dir: Key, p: Placement, j: Job, blind: bool)
    requires Kept(was, now, from, dir, p, j, false)
    ensures Kept(was, now, from, dir, p, j, blind)
  {
    hide CompleteFile, Finished, SyncedBefore, DirectStep, Direct;
    forall i | |was| <= i < |now| && Naming(now[i].call) ensures Promised(now, i, from, dir, p, j, blind) {
      assert Promised(now, i, from, dir, p, j, false);
    }
  }

  lemma RenameFacts(past: seq<Event>, past': seq<Event>, from: nat, w: World, w': World, j: Job, dir: Key, p: Placement)
    requires past <= past' && CanRename(w, j.b.dir, j.b.name, dir, p.name) && w' == RenamedWorld(w, j.b.dir, j.b.name, dir, p.name)
    requires Named(w, j.b.dir, j.b.name) == Some(j.k) && (j.alone ==> Finished(past, from, |past|, w, j))
    ensures Named(w', dir, p.name) == Some(j.k) && (j.alone ==> Finished(past', from, |past|, w', j))
  {
    hide Finished, RenamedWorld;
    if j.alone { FinishedLonger(past, past', from, from, |past|, |past|, w, w', j); }
  }

  lemma FinishedIn(past: seq<Event>, from: nat, i: nat, w: World, j: Job)
    requires i <= |past| && Finished(past, from, i, w, j)
    ensures j.k in w.inodes
  {
  }

  lemma TimesFrom(past: seq<Event>, from: nat, later: nat, i: nat, w: World, j: Job)
    requires from <= later && i <= |past| && TimesKept(past, later, i, w, j)
    ensures TimesKept(past, from, i, w, j)
  {
  }

  /** A look after the link that published does not change that. */
  lemma LinkIsPublished(past: seq<Event>, past': seq<Event>, from: nat, dir: Key, p: Placement, j: Job, looked: nat, done: nat)
    requires done + 1 == |past| == looked && past <= past' && |past'| == looked + 1 && from <= done && !Direct(j.b, dir, p)
    requires TargetStep(past, done, from, dir, p, j, false) && past[done].call.DidLink?
    requires IsLookAt(past'[looked].call, j.b.dir, j.b.name) && Named(past'[looked].at, j.b.dir, j.b.name) == Some(j.k)
    ensures PublishedAt(past', from, dir, p, j, looked, done)
  {
    hide CompleteFile, Finished, SyncedBefore;
    assert past'[done] == past[done];
    SyncedLonger(past, past', from, done, j.k);
    if j.alone { FinishedAt(past, past', from, done, past[done].at, j); }
    StepIs(past', done, from, dir, p, j, false);
  }

  lemma DirectIsPublished(past: seq<Event>, from: nat, dir: Key, p: Placement, j: Job, looked: nat)
    requires from <= looked && |past| == looked + 1 && Direct(j.b, dir, p)
    requires IsLookAt(past[looked].call, j.b.dir, j.b.name) && Named(past[looked].at, j.b.dir, j.b.name) == Some(j.k)
    requires SyncedBefore(past, from, looked, j.k) && (j.alone ==> Finished(past, from, looked, past[looked].at, j))
    ensures PublishedAt(past, from, dir, p, j, looked, looked)
  {
  }

  lemma RenameIsPublished(past: seq<Event>, from: nat, dir: Key, p: Placement, j: Job, blind: bool, looked: nat, done: nat)
    requires from <= looked < done && |past| == done + 1 && !Direct(j.b, dir, p)
    requires IsLookAt(past[looked].call, j.b.dir, j.b.name) && Named(past[looked].at, j.b.dir, j.b.name) == Some(j.k)
    requires TargetStep(past, done, from, dir, p, j, blind) && past[done].call.DidRename?
    ensures PublishedAt(past, from, dir, p, j, looked, done)
  {
    hide CompleteFile, Finished, SyncedBefore;
    StepIs(past, done, from, dir, p, j, blind);
  }

  /** What gave up in the end gave up, whatever was named before. */
  lemma ItGaveUp(a: seq<Event>, b: seq<Event>, c: seq<Event>, at: Building, k: Key)
    requires a <= b <= c && (exists g :: |b| <= g < |c| && GivenUpFor(c, g, at, k))
    ensures GaveUp(a, c, at, k)
  {
  }

  lemma NoNameNothing(a: seq<Event>, b: seq<Event>, at: Building, k: Key)
    requires a <= b && at.unnamed && forall i | |a| <= i < |b| :: !GaveName(b[i].call, at, k)
    ensures GaveUp(a, b, at, k)
  {
  }

  lemma SyncedFrom(past: seq<Event>, from: nat, later: nat, i: nat, k: Key)
    requires from <= later && i <= |past| && SyncedBefore(past, later, i, k)
    ensures SyncedBefore(past, from, i, k)
  {
  }

  lemma GaveUpIsCleaned(a: seq<Event>, b: seq<Event>, c: seq<Event>, d: seq<Event>, at: Building, k: Key)
    requires NamesNothing(a, b) && (if at.unnamed then NamesNothing(b, c) else b <= c)
    requires GaveUp(c, d, at, k)
    ensures Cleaned(d, |a|, at, k)
  {
    hide GivenUp;
    if !at.unnamed || (exists i :: |c| <= i < |d| && GaveName(d[i].call, at, k)) {
      var g :| |c| <= g < |d| && GivenUpFor(d, g, at, k);
      CleanedBy(d, |a|, g, at, k);
    } else {
      forall i | |a| <= i < |d| ensures !GaveName(d[i].call, at, k) {
        if i < |b| {
          assert d[i] == b[i];
        } else if i < |c| {
          assert d[i] == c[i];
        }
      }
    }
  }

  lemma NeverNamed(a: seq<Event>, b: seq<Event>, c: seq<Event>, at: Building, k: Key)
    requires NamesNothing(a, b) && NamesNothing(b, c)
    ensures Cleaned(c, |a|, at, k)
  {
    NothingTrans(a, b, c);
  }

  lemma BlindFrom(past: seq<Event>, from: nat, from': nat, dir: Key, p: Placement)
    requires from' <= from && LookedBlind(past, from, dir, p)
    ensures LookedBlind(past, from', dir, p)
  {
  }

  lemma NewSince(k: Key, w0: World, w1: World, w2: World, hidden: set<Key>, hidden': set<Key>, kept: bool)
    requires Evolves(w0, w1) && NewFile(k, w1, w2, hidden, hidden', kept)
    ensures NewFile(k, w0, w2, hidden, hidden', kept)
  {
  }

  lemma CreatedSince(a: seq<Event>, b: seq<Event>, c: seq<Event>, at: Building, k: Key)
    requires NamesNothing(a, b) && CreatedLast(b, c, at, k)
    ensures CreatedLast(a, c, at, k)
  {
    NothingTrans(a, b, c[..|c| - 1]);
  }

  lemma UnnamedIsNotDirect(b: Building, dstDir: Key, p: Placement)
    requires b.unnamed
    ensures !Direct(b, dstDir, p)
  {
  }

  lemma NothingIsQuiet(past: seq<Event>)
    ensures NamesNothing(past, past)
  {
  }

  lemma CleanedFrom(a: seq<Event>, b: seq<Event>, c: seq<Event>, at: Building, k: Key)
    requires NamesNothing(a, b) && b <= c && Cleaned(c, |b|, at, k)
    ensures Cleaned(c, |a|, at, k)
  {
    hide GivenUpSince;
    assert forall i | |a| <= i < |b| :: c[i] == b[i];
  }

  lemma UntouchedFrom(a: seq<Event>, b: seq<Event>, c: seq<Event>, dir: Key, name: string)
    requires NamesNothing(a, b) && TargetUntouched(b, c, dir, name)
    ensures TargetUntouched(a, c, dir, name)
  {
    forall i | |a| <= i < |c| ensures !Changes(c[i].call, dir, name) {
      if i < |b| { assert c[i] == b[i]; }
    }
  }

  lemma MovedLater(past: seq<Event>, past': seq<Event>, from: nat, from': nat, k: Key, node: Inode)
    requires past <= past' && from' <= from && SourceMoved(past, from, k, node)
    ensures SourceMoved(past', from', k, node)
  {
    var i :| from <= i < |past| && Moved(past[i], k, node);
    assert Moved(past'[i], k, node);
  }

  /** The last look before the settle had found this change time. */
  lemma NotSettledHinders(past: seq<Event>, past': seq<Event>, from: nat, dir: Key, name: string, listed: Key, clock: Key, ct: int, s: Settle)
    requires past <= past' && from < |past| && past[|past| - 1].call == DidFstat(listed, true) && !s.SettleOK?
    requires listed in past[|past| - 1].at.inodes && past[|past| - 1].at.inodes[listed].ctime == ct
    requires s.SettleUnverifiable? ==> NotSettled(past', |past|, clock, ct)
    requires s.SettleChanged? ==>
               || SomeFailed(past', |past|)
               || (|past'| > |past| && listed in past'[|past'| - 1].at.inodes && past'[|past'| - 1].at.inodes[listed].ctime != ct)
    ensures OpenHindered(past', from, dir, name, listed, clock)
  {
    if SomeFailed(past', |past|) {
      FailedLater(past', past', |past|, from);
    } else if s.SettleUnverifiable? {
      PendingLater(past', past', |past|, from, clock, ct);
      assert past'[|past| - 1] == past[|past| - 1];
    } else {
      assert past'[|past| - 1] == past[|past| - 1];
      assert Differs(past'[|past| - 1].at, past'[|past'| - 1].at, listed);
    }
  }

  lemma GateHinders(past: seq<Event>, past': seq<Event>, from: nat, later: nat, src: Key, j: Job, mine: bool)
    requires past <= past' && from <= later <= |past| && (j.alone || j.b.unnamed ==> mine)
    requires || SomeFailed(past', |past|) || SourceMoved(past', |past|, src, j.sfi)
             || (LengthTrouble(past', |past|, j) && (mine ==> SourceMoved(past, later, src, j.sfi)))
    ensures FillHindered(past', from, src, j)
  {
    if SomeFailed(past', |past|) {
      FailedLater(past', past', |past|, from);
    } else if SourceMoved(past', |past|, src, j.sfi) {
      MovedLater(past', past', |past|, from, src, j.sfi);
    } else if mine {
      MovedLater(past, past', later, from, src, j.sfi);
    }
  }

  lemma CallHinders(past: seq<Event>, from: nat, i: nat, j: Job, dstDir: Key, p: Placement)
    requires from <= i < |past| && CallFailed(past[i].call)
    ensures NameHindered(past, from, j, dstDir, p)
  {
    FailedIsCause(past, from, i);
  }

  lemma LookHinders(past: seq<Event>, from: nat, i: nat, j: Job, dstDir: Key, p: Placement)
    requires from <= i < |past| && NameHinders(past[i], j, dstDir, p)
    ensures NameHindered(past, from, j, dstDir, p)
  {
  }

  lemma FailedHinders(past: seq<Event>, from: nat, from': nat, src: Key, j: Job, dstDir: Key, p: Placement)
    requires from' <= from && SomeFailed(past, from)
    ensures Hindered(past, from', src, j, dstDir, p)
  {
    FailedLater(past, past, from, from');
  }

  /** Closing the descriptor changes no entry and no answer. */
  lemma AfterClose(a: seq<Event>, b: seq<Event>, c: seq<Event>, from: nat, dir: Key, p: Placement, j: Job, blind: bool,
                   looked: nat, done: nat, published: bool)
    requires a <= b <= c && |c| == |b| + 1 && c[|b|].call.DidClose? && Kept(a, b, from, dir, p, j, blind)
    requires if published then PublishedAt(b, from, dir, p, j, looked, done) else GaveUp(a, b, j.b, j.k)
    ensures Kept(a, c, from, dir, p, j, blind)
    ensures if published then PublishedAt(c, from, dir, p, j, looked, done) else GaveUp(a, c, j.b, j.k)
  {
    hide Promised, TargetStep, Finished, SyncedBefore;
    QuietIsKept(b, c, from, dir, p, j, blind);
    KeptTrans(a, b, c, from, dir, p, j, blind);
    if published {
      ClosedPublished(b, c, from, dir, p, j, looked, done);
    } else {
      ClosedGaveUp(a, b, c, j.b, j.k);
    }
  }

  lemma ClosedPublished(b: seq<Event>, c: seq<Event>, from: nat, dir: Key, p: Placement, j: Job, looked: nat, done: nat)
    requires b <= c && |c| == |b| + 1 && c[|b|].call.DidClose? && PublishedAt(b, from, dir, p, j, looked, done)
    ensures PublishedAt(c, from, dir, p, j, looked, done)
  {
    hide Finished, SyncedBefore, ReplacedAFile;
    assert c[looked] == b[looked] && c[done] == b[done];
    SyncedLonger(b, c, from, done, j.k);
    if j.alone { FinishedAt(b, c, from, done, b[done].at, j); }
  }

  lemma ClosedGaveUp(a: seq<Event>, b: seq<Event>, c: seq<Event>, at: Building, k: Key)
    requires a <= b <= c && |c| == |b| + 1 && c[|b|].call.DidClose? && GaveUp(a, b, at, k)
    ensures GaveUp(a, c, at, k)
  {
    hide GivenUp;
    assert forall i | |a| <= i < |b| :: c[i] == b[i];
    if !at.unnamed || (exists i :: |a| <= i < |c| && GaveName(c[i].call, at, k)) {
      if at.unnamed {
        var i :| |a| <= i < |c| && GaveName(c[i].call, at, k);
        assert i < |b| && GaveName(b[i].call, at, k);
      }
      var g :| |a| <= g < |b| && GivenUpFor(b, g, at, k);
      assert GivenUpFor(c, g, at, k);
    }
  }

  lemma StillUntouched(a: seq<Event>, b: seq<Event>, c: seq<Event>, d: seq<Event>, at: Building, k: Key, dir: Key, p: Placement)
    requires NamesNothing(a, b) && (if at.unnamed then NamesNothing(b, c) else CreatedLast(b, c, at, k))
    requires TargetUntouched(c, d, dir, p.name) && !Direct(at, dir, p)
    ensures TargetUntouched(a, d, dir, p.name)
  {
    forall i | |a| <= i < |d| ensures !Changes(d[i].call, dir, p.name) {
      if i < |b| {
        assert d[i] == b[i];
      } else if i < |c| {
        assert d[i] == c[i];
        if !at.unnamed && i < |c| - 1 { assert c[..|c| - 1][i] == c[i]; }
      }
    }
  }

  lemma BaselineStarts(sure: bool, w: World, k: Key, node: Inode)
    requires k in w.inodes && w.inodes[k] == node && (sure ==> node.ctime < Stamp(w, k.dev))
    ensures SureBaseline(sure, w, w, k, node)
  {
  }

  lemma StillThere(w: World, w': World, k: Key)
    requires Evolves(w, w') && k in w.inodes
    ensures k in w'.inodes
  {
  }
}
