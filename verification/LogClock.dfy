/** The file logs of sysforge/log.py. Two handles share one "last date": a
    stamped line keeps only the time of day, and the date is named by session
    headers and `# date:` markers. */
module LogClock {
  import opened Prelude

  datatype Now = Now(date: string, time: string)

  /** One thing in a log file. A session header names the date; `Raw` stands
      for text without a stamp. */
  datatype Line = Header(head: string, now: Now) | DateMarker(date: string) | Stamped(time: string, text: string)
      | Raw(text: string) | Cleared

  type Log = seq<Line>

  /** What a reader finds: a session header, a stamped line with the day it was
      written, or text without a stamp. */
  datatype Event = Session(head: string, now: Now) | Stamp(date: Option<string>, time: string, text: string)
    | Note(text: string)

  /** The date a reader holds at the end of a file. */
  function LastDate(log: Log): Option<string> {
    if log == [] then None
    else match log[|log| - 1]
      case Header(_, now) => Some(now.date)
      case DateMarker(date) => Some(date)
      case _ => LastDate(log[..|log| - 1])
  }

  function EventsOf(line: Line, date: Option<string>): seq<Event> {
    match line
    case Header(head, now) => [Session(head, now)]
    case Stamped(time, text) => [Stamp(date, time, text)]
    case Raw(text) => [Note(text)]
    case _ => []
  }

  /** Reading a file from top to bottom, the date carried down to each stamped line. */
  function Decode(log: Log): seq<Event> {
    if log == [] then []
    else
      var rest := log[..|log| - 1];
      Decode(rest) + EventsOf(log[|log| - 1], LastDate(rest))
  }

  // ---------------------------------------------------------------------
  // The machine
  // ---------------------------------------------------------------------

  type Files = map<string, Log>

  /** The two handles (paths of open files), the shared date, the files. */
  datatype State = State(unified: Option<string>, pkg: Option<string>, last: Option<string>, files: Files)

  datatype Op =
    | OpenUnified(path: string, purge: bool, head: string, now: Now)
    | CloseUnified(success: bool, persist: bool)
    | OpenPkg(path: string, argv: Option<string>, head: string, now: Now)
    | ClosePkg(success: bool, persist: bool)
    | Write(text: string, now: Now)
    | WriteRaw(text: string)
    | WritePkg(text: string)

  predicate IsOpen(s: State, p: string) {
    s.unified == Some(p) || s.pkg == Some(p)
  }

  function Content(files: Files, p: string): Log {
    if p in files then files[p] else []
  }

  /** Every open file gets the same lines. */
  function Append(s: State, lines: Log): State {
    var unified := if s.unified.Some? then s.files[s.unified.value := Content(s.files, s.unified.value) + lines]
        else s.files;
    s.(files := if s.pkg.Some? then unified[s.pkg.value := Content(unified, s.pkg.value) + lines] else unified)
  }

  function StampLines(last: Option<string>, text: string, now: Now): Log {
    (if last.Some? && now.date != last.value then [DateMarker(now.date)] else []) + [Stamped(now.time, text)]
  }

  function Truncated(files: Files, p: string, success: bool, persist: bool): Files {
    if success && !persist then files[p := [Cleared]] else files
  }

  function Step(s: State, op: Op): State {
    match op
    case OpenUnified(p, purge, head, now) =>
      var begun := s.(unified := Some(p), last := Some(now.date),
          files := s.files[p := if purge then [] else Content(s.files, p)]);
      Append(begun, [Header(head, now)])
    case CloseUnified(success, persist) =>
      if s.unified.None? then s else s.(unified := None, files := Truncated(s.files, s.unified.value, success, persist))
    case OpenPkg(p, argv, head, now) =>
      var begun := s.(pkg := Some(p), last := Some(now.date), files := s.files[p := Content(s.files, p)]);
      Append(Append(begun, [Header(head, now)]), if argv.Some? then [Raw(argv.value)] else [])
    case ClosePkg(success, persist) =>
      if s.pkg.None? then s else s.(pkg := None, files := Truncated(s.files, s.pkg.value, success, persist))
    case Write(text, now) =>
      if s.unified.None? && s.pkg.None? then s else Append(s.(last := Some(now.date)), StampLines(s.last, text, now))
    case WriteRaw(text) => Append(s, [Raw(text)])
    case WritePkg(text) =>
      if s.pkg.None? then s else s.(files := s.files[s.pkg.value := Content(s.files, s.pkg.value) + [Raw(text)]])
  }

  /** The two logs are different files. */
  predicate Allowed(s: State, op: Op) {
    match op
    case OpenUnified(p, _, _, _) => s.pkg != Some(p)
    case OpenPkg(p, _, _, _) => s.unified != Some(p)
    case _ => true
  }

  function Run(s: State, ops: seq<Op>): State {
    if ops == [] then s else Step(Run(s, ops[..|ops| - 1]), ops[|ops| - 1])
  }

  ghost predicate AllAllowed(s: State, ops: seq<Op>) {
    ops == [] || (AllAllowed(s, ops[..|ops| - 1]) && Allowed(Run(s, ops[..|ops| - 1]), ops[|ops| - 1]))
  }

  // ---------------------------------------------------------------------
  // What really happened
  // ---------------------------------------------------------------------

  /** Which file each handle is open on. */
  datatype Handles = Handles(unified: Option<string>, pkg: Option<string>)

  function Held(h: Handles, op: Op): Handles {
    match op
    case OpenUnified(p, _, _, _) => h.(unified := Some(p))
    case CloseUnified(_, _) => h.(unified := None)
    case OpenPkg(p, _, _, _) => h.(pkg := Some(p))
    case ClosePkg(_, _) => h.(pkg := None)
    case _ => h
  }

  function HeldAfter(h: Handles, ops: seq<Op>): Handles {
    if ops == [] then h else Held(HeldAfter(h, ops[..|ops| - 1]), ops[|ops| - 1])
  }

  predicate On(h: Handles, p: string) {
    h.unified == Some(p) || h.pkg == Some(p)
  }

  /** What one operation adds to the events of file `p`, or takes from them. */
  function Happens(h: Handles, op: Op, p: string, events: seq<Event>): seq<Event> {
    match op
    case OpenUnified(q, purge, head, now) =>
      if q == p then (if purge then [] else events) + [Session(head, now)]
      else if h.pkg == Some(p) then events + [Session(head, now)]
      else events
    case OpenPkg(q, argv, head, now) =>
      if q == p || h.unified == Some(p)
      then events + [Session(head, now)] + if argv.Some? then [Note(argv.value)] else []
      else events
    case CloseUnified(success, persist) => if h.unified == Some(p) && success && !persist then [] else events
    case ClosePkg(success, persist) => if h.pkg == Some(p) && success && !persist then [] else events
    case Write(text, now) => if On(h, p) then events + [Stamp(Some(now.date), now.time, text)] else events
    case WriteRaw(text) => if On(h, p) then events + [Note(text)] else events
    case WritePkg(text) => if h.pkg == Some(p) then events + [Note(text)] else events
  }

  /** What was written to file `p` since it was last emptied, stamped lines with the
      day the clock showed. */
  function Happened(h: Handles, ops: seq<Op>, p: string, before: seq<Event>): seq<Event> {
    if ops == [] then before
    else
      var k := |ops| - 1;
      Happens(HeldAfter(h, ops[..k]), ops[k], p, Happened(h, ops[..k], p, before))
  }

  function HandlesOf(s: State): Handles {
    Handles(s.unified, s.pkg)
  }

  /** The logs are different files, and every open one ends at the shared date. */
  ghost predicate InStep(s: State) {
    && (s.unified.Some? ==> s.unified != s.pkg)
    && (forall p :: IsOpen(s, p) ==> s.last.Some? && p in s.files && LastDate(s.files[p]) == s.last)
  }

  lemma ReadOne(log: Log, line: Line)
    ensures LastDate(log + [line])
        == (match line case Header(_, now) => Some(now.date) case DateMarker(d) => Some(d) case _ => LastDate(log))
    ensures Decode(log + [line])
        == Decode(log) + EventsOf(line, LastDate(log))
  {
  }

  /** A stamped write, with its marker if the date moved, reads back with the
      date of the clock. */
  lemma ReadStamp(log: Log, text: string, now: Now)
    requires LastDate(log).Some?
    ensures var lines := StampLines(LastDate(log), text, now);
            && LastDate(log + lines) == Some(now.date)
            && Decode(log + lines) == Decode(log) + [Stamp(Some(now.date), now.time, text)]
  {
    if now.date != LastDate(log).value {
      ReadOne(log, DateMarker(now.date));
      ReadOne(log + [DateMarker(now.date)], Stamped(now.time, text));
      assert log + [DateMarker(now.date)] + [Stamped(now.time, text)] == log + StampLines(LastDate(log), text, now);
    } else {
      ReadOne(log, Stamped(now.time, text));
    }
  }

  lemma Appended(s: State, lines: Log, p: string)
    requires s.unified.Some? ==> s.unified != s.pkg
    ensures Content(Append(s, lines).files, p) == if IsOpen(s, p) then Content(s.files, p) + lines
        else Content(s.files, p)
    ensures IsOpen(s, p) || p in s.files ==> p in Append(s, lines).files
    ensures Append(s, lines).(files := s.files) == s
  {
  }

  lemma OpenedInStep(s: State, p: string, log: Log, head: string, now: Now, pkg: bool)
    requires InStep(s) && (if pkg then s.unified != Some(p) else s.pkg != Some(p))
    ensures var begun := State(if pkg then s.unified else Some(p), if pkg then Some(p)
        else s.pkg, Some(now.date), s.files[p := log]);
            InStep(Append(begun, [Header(head, now)]))
  {
  }

  lemma RawInStep(s: State, text: string)
    requires InStep(s)
    ensures InStep(Append(s, [Raw(text)]))
  {
  }

  lemma WriteInStep(s: State, text: string, now: Now)
    requires InStep(s) && (s.unified.Some? || s.pkg.Some?)
    ensures InStep(Step(s, Write(text, now)))
  {
    hide LastDate, StampLines;
    var stamped, lines := s.(last := Some(now.date)), StampLines(s.last, text, now);
    forall q | IsOpen(s, q)
        ensures q in Append(stamped, lines).files && LastDate(Append(stamped, lines).files[q]) == stamped.last {
      Appended(stamped, lines, q);
      ReadStamp(Content(s.files, q), text, now);
    }
  }

  lemma StillInStep(s: State, now: State)
    requires InStep(s) && now.last == s.last && (now.unified.Some? ==> now.unified == s.unified)
    requires (now.pkg.Some? ==> now.pkg == s.pkg)
    requires forall p :: IsOpen(now, p) ==> p in now.files && LastDate(now.files[p]) == LastDate(Content(s.files, p))
    ensures InStep(now)
  {
  }

  /** One step keeps every open log at the shared date. */
  lemma StepInStep(s: State, op: Op)
    requires InStep(s) && Allowed(s, op)
    ensures InStep(Step(s, op))
  {
    hide LastDate, Append, StampLines;
    match op {
      case OpenUnified(p, purge, head, now) =>
        OpenedInStep(s, p, if purge then [] else Content(s.files, p), head, now, false);
      case OpenPkg(p, argv, head, now) =>
        OpenedInStep(s, p, Content(s.files, p), head, now, true);
        var begun := Append(s.(pkg := Some(p), last := Some(now.date), files := s.files[p := Content(s.files, p)]),
            [Header(head, now)]);
        if argv.Some? {
          RawInStep(begun, argv.value);
        } else {
          AppendNothing(begun);
        }
      case WriteRaw(text) => RawInStep(s, text);
      case Write(text, now) =>
        if s.unified.Some? || s.pkg.Some? {
          WriteInStep(s, text, now);
        }
      case WritePkg(text) =>
        if s.pkg.Some? {
          ReadOne(Content(s.files, s.pkg.value), Raw(text));
          StillInStep(s, Step(s, op));
        }
      case _ =>
        StillInStep(s, Step(s, op));
    }
  }

  lemma AppendNothing(s: State)
    requires InStep(s)
    ensures Append(s, []) == s
  {
    assert s.unified.Some? ==> IsOpen(s, s.unified.value);
    assert s.pkg.Some? ==> IsOpen(s, s.pkg.value);
    assert forall log: Log :: log + [] == log;
  }

  /** Reading a file after a step gives what was read before and what the step
      stamped into it. */
  lemma StepReads(s: State, op: Op, p: string)
    requires InStep(s) && Allowed(s, op)
    ensures Decode(Content(Step(s, op).files, p)) == Happens(HandlesOf(s), op, p, Decode(Content(s.files, p)))
  {
    var log := Content(s.files, p);
    hide Append, StampLines, LastDate, Decode;
    match op {
      case OpenUnified(q, purge, head, now) =>
        var begun := s.(unified := Some(q), last := Some(now.date),
            files := s.files[q := if purge then [] else Content(s.files, q)]);
        Appended(begun, [Header(head, now)], p);
        ReadOne(Content(begun.files, p), Header(head, now));
        NothingReads();
      case OpenPkg(q, argv, head, now) =>
        var begun := s.(pkg := Some(q), last := Some(now.date), files := s.files[q := Content(s.files, q)]);
        var headed, more := Append(begun, [Header(head, now)]), if argv.Some? then [Raw(argv.value)] else [];
        Appended(begun, [Header(head, now)], p);
        assert headed.unified == begun.unified && headed.pkg == begun.pkg && Content(begun.files, p) == log;
        ReadOne(log, Header(head, now));
        Appended(headed, more, p);
        if argv.Some? {
          ReadOne(Content(headed.files, p), Raw(argv.value));
        } else {
          assert Content(headed.files, p) + [] == Content(headed.files, p);
        }
      case WriteRaw(text) =>
        Appended(s, [Raw(text)], p);
        ReadOne(log, Raw(text));
      case Write(text, now) =>
        Appended(s.(last := Some(now.date)), StampLines(s.last, text, now), p);
        if IsOpen(s, p) {
          ReadStamp(log, text, now);
        }
      case WritePkg(text) =>
        ReadOne(log, Raw(text));
      case _ =>
        NothingReads();
    }
  }

  lemma StepHolds(s: State, op: Op)
    ensures HandlesOf(Step(s, op)) == Held(HandlesOf(s), op)
  {
    hide StampLines, Content;
  }

  lemma NothingReads()
    ensures Decode([]) == [] && Decode([Cleared]) == []
  {
  }

  /** Whatever is begun, closed and written, and whatever the clock does, every
      file reads back as what really happened: everything written to it while it was
      open, each stamped line with its day. */
  lemma {:induction false} EveryLogReadsBack(s: State, ops: seq<Op>, p: string)
    requires InStep(s) && AllAllowed(s, ops)
    ensures InStep(Run(s, ops))
    ensures HandlesOf(Run(s, ops)) == HeldAfter(HandlesOf(s), ops)
    ensures Decode(Content(Run(s, ops).files, p)) == Happened(HandlesOf(s), ops, p, Decode(Content(s.files, p)))
  {
    if ops != [] {
      var k := |ops| - 1;
      EveryLogReadsBack(s, ops[..k], p);
      StepInStep(Run(s, ops[..k]), ops[k]);
      StepReads(Run(s, ops[..k]), ops[k], p);
      StepHolds(Run(s, ops[..k]), ops[k]);
    }
  }

  // ---------------------------------------------------------------------
  // The module's functions
  // ---------------------------------------------------------------------

  /** The module globals of log.py and the file system. */
  class FileLogs {
    var unified: Option<string>
    var pkg: Option<string>
    var last: Option<string>
    var files: Files

    function View(): State
      reads this
    {
      State(unified, pkg, last, files)
    }

    constructor (existing: Files)
      ensures View() == State(None, None, None, existing) && InStep(View())
    {
      unified, pkg, last, files := None, None, None, existing;
    }

    /** `_write_to_files` with lines that are already complete. */
    method WriteToFiles(lines: Log)
      modifies this
      ensures View() == Append(old(View()), lines)
    {
      if unified.Some? {
        files := files[unified.value := Content(files, unified.value) + lines];
      }
      if pkg.Some? {
        files := files[pkg.value := Content(files, pkg.value) + lines];
      }
    }

    /** `_session_header` */
    method SessionHeader(head: string, now: Now) returns (line: Line)
      modifies this`last
      ensures last == Some(now.date) && line == Header(head, now)
    {
      last := Some(now.date);
      line := Header(head, now);
    }

    /** `_stamp` */
    method Stamp(text: string, now: Now) returns (lines: Log)
      modifies this`last
      ensures last == Some(now.date) && lines == StampLines(old(last), text, now)
    {
      lines := [];
      if last.Some? && now.date != last.value {
        lines := [DateMarker(now.date)];
      }
      last := Some(now.date);
      lines := lines + [Stamped(now.time, text)];
    }

    method OpenUnifiedLog(path: string, purge: bool, head: string, now: Now)
      requires InStep(View()) && Allowed(View(), OpenUnified(path, purge, head, now))
      modifies this
      ensures View() == Step(old(View()), OpenUnified(path, purge, head, now)) && InStep(View())
    {
      StepInStep(View(), OpenUnified(path, purge, head, now));
      files := files[path := if purge then [] else Content(files, path)];
      unified := Some(path);
      var line := SessionHeader(head, now);
      WriteToFiles([line]);
    }

    method CloseUnifiedLog(success: bool, persist: bool)
      requires InStep(View())
      modifies this
      ensures View() == Step(old(View()), CloseUnified(success, persist)) && InStep(View())
    {
      StepInStep(View(), CloseUnified(success, persist));
      if unified.None? {
        return;
      }
      if success && !persist {
        files := files[unified.value := [Cleared]];
      }
      unified := None;
    }

    method OpenPkgLog(path: string, argv: Option<string>, head: string, now: Now)
      requires InStep(View()) && Allowed(View(), OpenPkg(path, argv, head, now))
      modifies this
      ensures View() == Step(old(View()), OpenPkg(path, argv, head, now)) && InStep(View())
    {
      StepInStep(View(), OpenPkg(path, argv, head, now));
      files := files[path := Content(files, path)];
      pkg := Some(path);
      var line := SessionHeader(head, now);
      WriteToFiles([line]);
      if argv.Some? {
        WriteToFiles([Raw(argv.value)]);
      } else {
        assert View() == Append(View(), []) by {
          assert forall log: Log :: log + [] == log;
        }
      }
    }

    method ClosePkgLog(success: bool, persist: bool)
      requires InStep(View())
      modifies this
      ensures View() == Step(old(View()), ClosePkg(success, persist)) && InStep(View())
    {
      StepInStep(View(), ClosePkg(success, persist));
      if pkg.None? {
        return;
      }
      if success && !persist {
        files := files[pkg.value := [Cleared]];
      }
      pkg := None;
    }

    /** `_write_to_files` without `raw`: every logger call. */
    method WriteLine(text: string, now: Now)
      requires InStep(View())
      modifies this
      ensures View() == Step(old(View()), Write(text, now)) && InStep(View())
    {
      StepInStep(View(), Write(text, now));
      if unified.None? && pkg.None? {
        return;
      }
      var lines := Stamp(text, now);
      WriteToFiles(lines);
    }

    method WritePkgLog(text: string)
      requires InStep(View())
      modifies this
      ensures View() == Step(old(View()), WritePkg(text)) && InStep(View())
    {
      StepInStep(View(), WritePkg(text));
      if pkg.Some? {
        files := files[pkg.value := Content(files, pkg.value) + [Raw(text)]];
      }
    }
  }
}
