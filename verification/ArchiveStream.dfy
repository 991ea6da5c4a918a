/** Streaming a tar: a member's length is promised before its bytes are read, the file may
    change length meanwhile, and the reader may leave at any write. */
module ArchiveStream {
  import opened Basics

  const ARCHIVE_BUF_SIZE: nat := 0x10_0000
  const PAD_BUF_SIZE: nat := 0x8000

  /** The reader left, or anything else. */
  datatype Failure = ReaderGone | Failed

  /** One answer of read(2) on the source: some bytes, and perhaps the end or an error. */
  datatype ReadAnswer = ReadAnswer(bytes: Bytes, end: ReadEnd)
  datatype ReadEnd = More | Eof | ReadError

  /** One thing the walk reached: a member without content, a file, or nothing. */
  datatype Item = HeaderOnly | File(size: nat, answers: seq<ReadAnswer>) | Skipped

  /** What a header promised and what followed it. */
  datatype Member = Member(size: nat, bytes: Bytes)

  predicate Complete(m: Member) {
    |m.bytes| == m.size
  }

  lemma ZerosAdd(a: nat, b: nat)
    ensures Zeros(a + b) == Zeros(a) + Zeros(b)
  {
  }

  /** The bytes a file of promised length limit contributes: what the reads return until
      one ends or fails, and never more than was promised. */
  function Contributed(answers: seq<ReadAnswer>, limit: nat): (b: Bytes)
    ensures |b| <= limit
    decreases |answers|
  {
    if limit == 0 || answers == [] then []
    else
      var r := answers[0];
      var data := r.bytes[..MinNat(|r.bytes|, MinNat(ARCHIVE_BUF_SIZE, limit))];
      if r.end.More? then data + Contributed(answers[1..], limit - |data|) else data
  }

  /** The read that ended them was an error.  What it returned before it counts, even
      where that is all that was promised. */
  predicate ReadFails(answers: seq<ReadAnswer>, limit: nat)
    decreases |answers|
  {
    if limit == 0 || answers == [] then false
    else
      var r := answers[0];
      var n := MinNat(|r.bytes|, MinNat(ARCHIVE_BUF_SIZE, limit));
      if r.end.More? then ReadFails(answers[1..], limit - n) else r.end.ReadError?
  }

  /** What has to be said of an item: it is not in the archive, or not all of it is what
      the file held. */
  predicate Noted(item: Item) {
    match item
    case Skipped => true
    case HeaderOnly => false
    case File(size, answers) => |Contributed(answers, size)| < size || ReadFails(answers, size)
  }

  ghost predicate SomeNoted(items: seq<Item>) {
    exists i :: 0 <= i < |items| && Noted(items[i])
  }

  lemma OneMoreNoted(items: seq<Item>, item: Item)
    ensures SomeNoted(items + [item]) <==> SomeNoted(items) || Noted(item)
  {
    hide Noted;
    if SomeNoted(items) {
      var i :| 0 <= i < |items| && Noted(items[i]);
      assert Noted((items + [item])[i]);
    }
    if Noted(item) {
      assert Noted((items + [item])[|items|]);
    }
  }

  lemma ContributedStep(got: Bytes, rest: seq<ReadAnswer>, limit: nat)
    requires |got| < limit
    ensures rest == [] ==> got + Contributed(rest, limit - |got|) == got
    ensures rest != [] ==>
              var room := limit - |got|;
              var data := rest[0].bytes[..MinNat(|rest[0].bytes|, MinNat(ARCHIVE_BUF_SIZE, room))];
              got + Contributed(rest, room) ==
              if rest[0].end.More? then (got + data) + Contributed(rest[1..], limit - |got + data|) else got + data
  {
    if rest != [] {
      var room := limit - |got|;
      var data := rest[0].bytes[..MinNat(|rest[0].bytes|, MinNat(ARCHIVE_BUF_SIZE, room))];
      assert got + (data + Contributed(rest[1..], room - |data|)) == (got + data) + Contributed(rest[1..], room - |data|);
    }
  }

  lemma ReadFailsStep(rest: seq<ReadAnswer>, room: nat)
    requires room > 0
    ensures rest == [] ==> !ReadFails(rest, room)
    ensures rest != [] ==>
              var n := MinNat(|rest[0].bytes|, MinNat(ARCHIVE_BUF_SIZE, room));
              ReadFails(rest, room) == if rest[0].end.More? then ReadFails(rest[1..], room - n) else rest[0].end.ReadError?
  {
  }

  lemma NoReadLeft(rest: seq<ReadAnswer>)
    ensures !ReadFails(rest, 0)
  {
  }

  lemma NothingMore(rest: seq<ReadAnswer>)
    ensures Contributed(rest, 0) == []
  {
  }

  /** Answers a file of this content may give from pos on: its own bytes, and the end only
      at its end. */
  ghost predicate Serves(answers: seq<ReadAnswer>, content: Bytes, pos: nat)
    decreases |answers|
  {
    answers == [] ||
    var r := answers[0];
    && pos + |r.bytes| <= |content| && |r.bytes| <= ARCHIVE_BUF_SIZE && r.bytes == content[pos..pos + |r.bytes|]
    && (r.end.Eof? ==> pos + |r.bytes| == |content|)
    && (r.end.More? ==> Serves(answers[1..], content, pos + |r.bytes|))
  }

  lemma Adjacent(content: Bytes, pos: nat, a: nat, b: nat)
    requires pos + a + b <= |content|
    ensures content[pos..pos + a] + content[pos + a..pos + a + b] == content[pos..pos + (a + b)]
  {
  }

  /** Of a file nobody is writing to, a member holds a beginning of its content. */
  lemma {:induction false} ContributesItsContent(answers: seq<ReadAnswer>, content: Bytes, pos: nat, limit: nat)
    requires pos <= |content| && Serves(answers, content, pos)
    ensures var c := Contributed(answers, limit); pos + |c| <= |content| && c == content[pos..pos + |c|]
    decreases |answers|
  {
    hide Contributed;
    if limit == 0 || answers == [] {
      NothingContributed(answers, limit);
    } else {
      var r := answers[0];
      var n := MinNat(|r.bytes|, limit);
      assert r.bytes[..n] == content[pos..pos + n];
      if r.end.More? && n < limit {
        ContributesItsContent(answers[1..], content, pos + n, limit - n);
        Adjacent(content, pos, n, |Contributed(answers[1..], limit - n)|);
      } else {
        NothingMore(answers[1..]);
      }
      FirstAnswer(answers, limit);
    }
  }

  lemma NothingContributed(answers: seq<ReadAnswer>, limit: nat)
    requires limit == 0 || answers == []
    ensures Contributed(answers, limit) == []
  {
  }

  lemma FirstAnswer(answers: seq<ReadAnswer>, limit: nat)
    requires limit > 0 && answers != [] && |answers[0].bytes| <= ARCHIVE_BUF_SIZE
    ensures var n := MinNat(|answers[0].bytes|, limit);
            Contributed(answers, limit) == answers[0].bytes[..n] + if answers[0].end.More? then Contributed(answers[1..], limit - n) else []
  {
  }

  /** The tar writer over the pipe.  An error stays: after the first, every call fails. */
  class TarSink {
    var members: seq<Member>
    var dead: Option<Failure>
    /** the end-of-archive blocks and the end of the gzip stream are out */
    var trailer: bool

    constructor ()
      ensures members == [] && dead == None && !trailer
    {
      members, dead, trailer := [], None, false;
    }

    ghost predicate AllComplete()
      reads this
    {
      forall m | m in members :: Complete(m)
    }

    /** A header, which the writer refuses while the last member is short. */
    method WriteHeader(size: nat) returns (err: Option<Failure>)
      modifies this`members, this`dead
      ensures err.None? ==> dead == None && old(AllComplete()) && members == old(members) + [Member(size, [])]
      ensures err.Some? ==> members == old(members) && (dead.Some? || !AllComplete())
      ensures old(dead).Some? ==> dead == old(dead)
    {
      if dead.Some? {
        return dead;
      }
      var i := 0;
      while i < |members|
        invariant i <= |members| && forall j :: 0 <= j < i ==> Complete(members[j])
      {
        if |members[i].bytes| != members[i].size {
          assert members[i] in members && !Complete(members[i]);
          return Some(Failed);
        }
        i := i + 1;
      }
      var fault: Option<Failure> :| true;
      if fault.Some? {
        dead := fault;
        return fault;
      }
      members := members + [Member(size, [])];
      err := None;
    }

    /** Content of the member last opened, which may not exceed its header. */
    method Write(p: Bytes) returns (n: nat, err: Option<Failure>)
      requires members != [] && |members[|members| - 1].bytes| + |p| <= members[|members| - 1].size
      modifies this`members, this`dead
      ensures n <= |p| && (err.None? ==> n == |p| && dead == old(dead))
      ensures (err.Some? <==> dead.Some?) && (old(dead).Some? ==> dead == old(dead))
      ensures members == old(members)[..|old(members)| - 1]
                         + [var m := old(members)[|old(members)| - 1]; m.(bytes := m.bytes + p[..n])]
    {
      var last := members[|members| - 1];
      if dead.Some? {
        assert last.bytes + p[..0] == last.bytes;
        return 0, dead;
      }
      var fault: Option<Failure> :| true;
      var k: nat :| k <= |p|;
      n := if fault.Some? then k else |p|;
      members := members[..|members| - 1] + [last.(bytes := last.bytes + p[..n])];
      dead, err := fault, fault;
    }

    /** Fill the member up with zeros. */
    method PadFile(missing: nat) returns (err: Option<Failure>)
      requires members != [] && |members[|members| - 1].bytes| + missing == members[|members| - 1].size
      modifies this`members, this`dead
      ensures |members| == |old(members)| && members[..|members| - 1] == old(members)[..|members| - 1]
      ensures if err.None? then dead == old(dead) else dead.Some?
      ensures err.None? ==>
                members[|members| - 1] == Member(old(members)[|old(members)| - 1].size, old(members)[|old(members)| - 1].bytes + Zeros(missing))
    {
      var left: nat := missing;
      ghost var m := members[|members| - 1];
      assert m.bytes + Zeros(0) == m.bytes;
      while left > 0
        invariant left <= missing && |members| == |old(members)| && dead == old(dead)
        invariant members[..|members| - 1] == old(members)[..|members| - 1]
        invariant members[|members| - 1] == m.(bytes := m.bytes + Zeros(missing - left))
        decreases left
      {
        var n := MinNat(PAD_BUF_SIZE, left);
        var _, e := Write(Zeros(n));
        if e.Some? {
          return e;
        }
        ZerosAdd(missing - left, n);
        assert m.bytes + Zeros(missing - left) + Zeros(n) == m.bytes + Zeros(missing - (left - n));
        left := left - n;
      }
      err := None;
    }

    method Finish() returns (err: Option<Failure>)
      requires !trailer
      modifies this`dead, this`trailer
      ensures err.None? <==> trailer
      ensures trailer ==> AllComplete() && dead.None?
      ensures !trailer ==> dead.Some? || !AllComplete()
    {
      if dead.Some? {
        return dead;
      }
      var i := 0;
      while i < |members|
        invariant i <= |members| && forall j :: 0 <= j < i ==> Complete(members[j])
      {
        if |members[i].bytes| != members[i].size {
          assert members[i] in members && !Complete(members[i]);
          return Some(Failed);
        }
        i := i + 1;
      }
      var fault: Option<Failure> :| true;
      if fault.Some? {
        dead := fault;
        return fault;
      }
      trailer := true;
      err := None;
    }
  }

  class Archiver {
    const sink: TarSink
    var fatal: Option<Failure>
    /** the far end has gone away */
    var broken: bool
    var notes: nat
    /** context checks left before the job is cancelled */
    var checks: nat

    ghost predicate Valid()
      reads this, sink
    {
      !sink.trailer && (Going() ==> sink.AllComplete()) && (Going() || Stopped())
    }

    /** What an archive stops for: a call of the writer that failed, or the job was
        cancelled. */
    ghost predicate Stopped()
      reads this, sink
    {
      sink.dead.Some? || checks == 0
    }

    predicate Going()
      reads this
    {
      fatal.None? && !broken
    }

    constructor (checks: nat)
      ensures Valid() && Going() && fresh(sink) && sink.members == [] && notes == 0
    {
      sink := new TarSink();
      fatal, broken, notes := None, false, 0;
      this.checks := checks;
    }

    method Cancelled() returns (stop: bool)
      modifies this`checks
      ensures stop <==> old(checks) == 0
      ensures checks == if stop then 0 else old(checks) - 1
    {
      stop := checks == 0;
      if !stop { checks := checks - 1; }
    }

    /** A stream failure.  The far end going away is not one, but stops the archive as
        well; of the others the first is kept. */
    method Fail(err: Failure)
      modifies this`fatal, this`broken
      ensures !Going()
      ensures fatal == if old(fatal).Some? || err.ReaderGone? then old(fatal) else Some(err)
      ensures broken == (old(broken) || (old(fatal).None? && err.ReaderGone?))
    {
      if fatal.Some? {
        return;
      }
      if err.ReaderGone? {
        broken := true;
        return;
      }
      fatal := Some(err);
    }

    method Done() returns (stop: bool)
      modifies this`fatal, this`checks
      ensures !stop ==> Going() && old(Going())
      ensures stop ==> !Going() && (checks == 0 || !old(Going()))
      ensures old(checks) == 0 ==> checks == 0
    {
      if fatal.Some? || broken {
        return true;
      }
      stop := Cancelled();
      if stop {
        fatal := Some(Failed);
      }
    }

    /** At most limit bytes from the source into the open member.  A write failure and a
        read failure are told apart. */
    method CopyInto(answers: seq<ReadAnswer>, limit: nat) returns (n: nat, rerr: bool, werr: Option<Failure>)
      requires sink.members != [] && sink.members[|sink.members| - 1] == Member(limit, [])
      modifies this`checks, sink`members, sink`dead
      ensures |sink.members| == |old(sink.members)| && sink.members[..|sink.members| - 1] == old(sink.members)[..|sink.members| - 1]
      ensures werr.None? ==>
                && n == |Contributed(answers, limit)| && rerr == ReadFails(answers, limit) && sink.dead == old(sink.dead)
                && sink.members[|sink.members| - 1] == Member(limit, Contributed(answers, limit))
      ensures werr.Some? ==> Stopped()
    {
      hide Contributed, ReadFails;
      n, rerr, werr := 0, false, None;
      var rest := answers;
      ghost var got: Bytes := [];
      while n < limit
        invariant n == |got| <= limit && sink.dead == old(sink.dead)
        invariant |sink.members| == |old(sink.members)| && sink.members[..|sink.members| - 1] == old(sink.members)[..|sink.members| - 1]
        invariant sink.members[|sink.members| - 1] == Member(limit, got)
        invariant Contributed(answers, limit) == got + Contributed(rest, limit - n)
        invariant ReadFails(answers, limit) == ReadFails(rest, limit - n)
        decreases |rest|
      {
        var stop := Cancelled();
        if stop {
          return n, false, Some(Failed);
        }
        ContributedStep(got, rest, limit);
        ReadFailsStep(rest, limit - n);
        if rest == [] {
          return n, false, None;
        }
        var r := rest[0];
        var data := r.bytes[..MinNat(|r.bytes|, MinNat(ARCHIVE_BUF_SIZE, limit - n))];
        if |data| > 0 {
          var wrote, e := sink.Write(data);
          n := n + wrote;
          if e.Some? {
            return n, false, e;
          }
          assert data[..wrote] == data;
        }
        got := got + data;
        if !r.end.More? {
          return n, r.end.ReadError?, None;
        }
        rest := rest[1..];
      }
      NothingMore(rest);
      NoReadLeft(rest);
    }

    /** One regular file: a header, what can be read, and zeros for the rest. */
    method AddFile(size: nat, answers: seq<ReadAnswer>)
      requires Valid() && Going()
      modifies this`fatal, this`broken, this`checks, this`notes, sink`members, sink`dead
      ensures Valid()
      ensures Going() ==>
                var c := Contributed(answers, size);
                && sink.members == old(sink.members) + [Member(size, c + Zeros(size - |c|))]
                && notes == old(notes) + if Noted(File(size, answers)) then 1 else 0
    {
      var e := sink.WriteHeader(size);
      if e.Some? {
        Fail(e.value);
        return;
      }
      ghost var before := sink.members[..|sink.members| - 1];
      assert before == old(sink.members);
      var n, rerr, werr := CopyInto(answers, size);
      if werr.Some? {
        Fail(werr.value);
        return;
      }
      ghost var c := Contributed(answers, size);
      assert c + Zeros(0) == c;
      if n < size {
        var pe := sink.PadFile(size - n);
        if pe.Some? {
          Fail(pe.value);
          return;
        }
      }
      assert sink.members == before + [sink.members[|sink.members| - 1]];
      if rerr || n != size {
        notes := notes + 1;
      }
    }

    method AddItem(item: Item)
      requires Valid() && Going()
      modifies this`fatal, this`broken, this`checks, this`notes, sink`members, sink`dead
      ensures Valid()
      ensures Going() ==> sink.members == old(sink.members) + Wanted([item])
      ensures Going() ==> notes == old(notes) + if Noted(item) then 1 else 0
    {
      assert [item][1..] == [] && Wanted([]) == [];
      match item
      case Skipped => notes := notes + 1;
      case HeaderOnly =>
        var e := sink.WriteHeader(0);
        if e.Some? {
          Fail(e.value);
        }
      case File(size, answers) =>
        AddFile(size, answers);
    }

    /** The trailer when the stream is sound, and none when it is not. */
    method Finish(text: Bytes)
      requires Valid()
      modifies this`fatal, this`checks, this`broken, sink
      ensures sink.trailer <==> Going()
      ensures !sink.trailer ==> Stopped()
      ensures sink.trailer ==>
                && sink.dead.None? && old(Going()) && sink.AllComplete()
                && sink.members == old(sink.members) + if notes > 0 then [Member(|text|, text)] else []
    {
      if broken {
        return;
      }
      if fatal.None? {
        var stop := Cancelled();
        if stop {
          fatal := Some(Failed);
        }
      }
      if fatal.Some? {
        // whatever becomes of the closing note, the stream is not ended
        var e := sink.WriteHeader(|text|);
        if e.None? {
          var _, _ := sink.Write(text);
        }
        return;
      }
      if notes > 0 {
        var e := AddText(text);
        if e.Some? {
          Fail(e.value);
          return;
        }
      }
      var e := sink.Finish();
      if e.Some? {
        Fail(e.value);
      }
    }

    method AddText(text: Bytes) returns (err: Option<Failure>)
      modifies sink`members, sink`dead
      ensures err.None? ==> old(sink.AllComplete()) && sink.members == old(sink.members) + [Member(|text|, text)]
      ensures err.Some? ==> sink.dead.Some? || !old(sink.AllComplete())
    {
      err := sink.WriteHeader(|text|);
      if err.None? {
        ghost var before := sink.members;
        var n, e := sink.Write(text);
        err := e;
        if e.None? {
          assert [] + text[..n] == text;
          assert before[..|before| - 1] == old(sink.members);
        }
      }
    }
  }

  /** The members an archive of these items has when nothing stops it. */
  function Wanted(items: seq<Item>): seq<Member> {
    if items == [] then []
    else
      (match items[0]
       case Skipped => []
       case HeaderOnly => [Member(0, [])]
       case File(size, answers) =>
         var c := Contributed(answers, size);
         [Member(size, c + Zeros(size - |c|))])
      + Wanted(items[1..])
  }

  datatype Verdict = Verdict(truncated: bool)

  lemma {:induction false} WantedAppend(a: seq<Item>, b: seq<Item>)
    ensures Wanted(a + b) == Wanted(a) + Wanted(b)
  {
    if a == [] {
      assert a + b == b;
    } else {
      assert (a + b)[1..] == a[1..] + b;
      WantedAppend(a[1..], b);
    }
  }

  /** A whole archive, whatever the source's reads and the stream do: it is called
      complete exactly when its trailer is out, which it is unless a call of the writer
      failed or the job was cancelled, and then every member carries exactly
      the bytes its header promised, and the last is the notes exactly if something is
      missing, short, or was not read to its end. */
  method Archive(items: seq<Item>, text: Bytes, checks: nat)
    returns (v: Verdict, members: seq<Member>, trailer: bool, died: Option<Failure>, left: nat)
    ensures !v.truncated <==> trailer
    ensures !trailer ==> died.Some? || left == 0
    ensures trailer ==> died.None?
    ensures trailer ==> forall m | m in members :: Complete(m)
    ensures trailer ==> members == Wanted(items) + if SomeNoted(items) then [Member(|text|, text)] else []
  {
    var a := new Archiver(checks);
    for i := 0 to |items|
      invariant a.Valid() && (a.Going() ==> a.sink.members == Wanted(items[..i]) && (a.notes > 0 <==> SomeNoted(items[..i])))
      invariant fresh(a) && fresh(a.sink)
    {
      var stop := a.Done();
      if stop {
        break;
      }
      assert items[..i + 1] == items[..i] + [items[i]];
      WantedAppend(items[..i], [items[i]]);
      OneMoreNoted(items[..i], items[i]);
      a.AddItem(items[i]);
    }
    ghost var whole := a.Going();
    ghost var wanted := a.sink.members;
    a.Finish(text);
    v := Verdict(a.fatal.Some? || a.broken);
    members, trailer, died, left := a.sink.members, a.sink.trailer, a.sink.dead, a.checks;
    if trailer {
      assert items[..|items|] == items;
    }
  }
}
