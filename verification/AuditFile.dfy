/** The audit file as its reader sees it.  A JSON line holds no newline of its own, no
    part of one short of the whole parses, and nothing with anything after it parses; so
    a line is readable exactly when it is one whole text. */
module AuditFile {
  /** A queued event, a durable one, or the logger's own note of drops. */
  datatype Line = Event(id: nat) | Durable(id: nat) | Overflow(files: nat)

  /** Whole text, part of a text, or the newline after one. */
  datatype Piece = Text(line: Line) | Part | Newline

  /** What an append to the sink may leave behind.  Only Whole is a success. */
  datatype Outcome = Whole | Nothing | Torn | AllButNewline

  datatype Entry = Entry(line: Line, outcome: Outcome)

  function Bytes(e: Entry): seq<Piece> {
    match e.outcome
    case Whole => [Text(e.line), Newline]
    case Nothing => []
    case Torn => [Part]
    case AllButNewline => [Text(e.line)]
  }

  /** The file after every append so far. */
  function File(log: seq<Entry>): seq<Piece> {
    if log == [] then [] else File(log[..|log| - 1]) + Bytes(log[|log| - 1])
  }

  predicate AtLineStart(file: seq<Piece>) {
    file == [] || file[|file| - 1] == Newline
  }

  /** The line the file ends in the middle of, and the lines a reader gets. */
  function OpenLine(file: seq<Piece>): (l: seq<Piece>)
    ensures l == [] <==> AtLineStart(file)
  {
    if AtLineStart(file) then [] else OpenLine(file[..|file| - 1]) + [file[|file| - 1]]
  }

  function Readable(l: seq<Piece>): seq<Line> {
    if |l| == 1 && l[0].Text? then [l[0].line] else []
  }

  /** Lines a newline has ended. */
  function Closed(file: seq<Piece>): seq<Line> {
    if file == [] then []
    else
      var before := file[..|file| - 1];
      Closed(before) + if file[|file| - 1].Newline? then Readable(OpenLine(before)) else []
  }

  /** Everything Tail returns, the last line's text included when nothing ends it. */
  function ReadBack(file: seq<Piece>): seq<Line> {
    Closed(file) + Readable(OpenLine(file))
  }

  lemma {:induction false} Push(file: seq<Piece>, p: Piece)
    ensures OpenLine(file + [p]) == if p.Newline? then [] else OpenLine(file) + [p]
    ensures Closed(file + [p]) == Closed(file) + if p.Newline? then Readable(OpenLine(file)) else []
  {
    var f := file + [p];
    assert f[..|f| - 1] == file;
  }

  /** What one append does to what a reader gets. */
  lemma AppendReads(file: seq<Piece>, e: Entry)
    ensures var f := file + Bytes(e);
            match e.outcome
            case Whole => Closed(f) == Closed(file) + (if AtLineStart(file) then [e.line] else []) && AtLineStart(f)
            case Nothing => f == file
            case Torn => Closed(f) == Closed(file) && !AtLineStart(f) && Readable(OpenLine(f)) == []
            case AllButNewline =>
              Closed(f) == Closed(file) && !AtLineStart(f) && Readable(OpenLine(f)) == if AtLineStart(file) then [e.line] else []
  {
    match e.outcome
    case Whole =>
      Push(file, Text(e.line));
      Push(file + [Text(e.line)], Newline);
      assert file + [Text(e.line)] + [Newline] == file + Bytes(e);
    case Nothing => assert file + [] == file;
    case Torn => Push(file, Part);
    case AllButNewline => Push(file, Text(e.line));
  }

  /** A line whose append succeeded can be read back if and only if the file was at the
      start of a line; a line whose append failed can, if and only if all of it but the
      newline was written there. */
  lemma ReadableIff(log: seq<Entry>, e: Entry)
    requires e.line !in ReadBack(File(log))
    ensures var before, after := File(log), ReadBack(File(log + [e]));
            match e.outcome
            case Whole => e.line in after <==> AtLineStart(before)
            case AllButNewline => e.line in after <==> AtLineStart(before)
            case _ => e.line !in after
  {
    assert (log + [e])[..|log|] == log;
    AppendReads(File(log), e);
  }

  /** What is not readable never becomes so through other lines' appends. */
  lemma NeverRevived(log: seq<Entry>, e: Entry, line: Line)
    requires e.line != line && line !in ReadBack(File(log))
    ensures line !in ReadBack(File(log + [e]))
  {
    assert (log + [e])[..|log|] == log;
    AppendReads(File(log), e);
  }

  /** The two ways the durable writer's own verdict and the reader disagree, met in one
      run: a failed append is readable, and the successful one after it takes both lines
      out of the reader's sight. */
  lemma TornLineSwallowsTheNext()
    ensures var torn, next := Entry(Event(1), AllButNewline), Entry(Event(2), Whole);
            ReadBack(File([torn])) == [Event(1)] && ReadBack(File([torn, next])) == []
  {
    var torn, next := Entry(Event(1), AllButNewline), Entry(Event(2), Whole);
    assert [torn, next][..1] == [torn] && [torn][..0] == [];
    AppendReads([], torn);
    assert [] + Bytes(torn) == Bytes(torn);
    AppendReads(File([torn]), next);
  }

  predicate Healthy(log: seq<Entry>) {
    forall i :: 0 <= i < |log| ==> log[i].outcome.Whole?
  }

  /** No failed append left anything behind. */
  predicate NeverTorn(log: seq<Entry>) {
    forall i :: 0 <= i < |log| ==> log[i].outcome.Whole? || log[i].outcome.Nothing?
  }

  function Written(log: seq<Entry>): seq<Line> {
    if log == [] then []
    else Written(log[..|log| - 1]) + if log[|log| - 1].outcome.Whole? then [log[|log| - 1].line] else []
  }

  /** Over a sink whose failures leave nothing behind, the reader gets exactly the lines
      whose appends succeeded, in order. */
  lemma {:induction false} ReadsWhatWasWritten(log: seq<Entry>)
    requires NeverTorn(log)
    ensures AtLineStart(File(log)) && ReadBack(File(log)) == Written(log)
  {
    if log != [] {
      ReadsWhatWasWritten(log[..|log| - 1]);
      AppendReads(File(log[..|log| - 1]), log[|log| - 1]);
    }
  }
}
