/**
 * The session loader (internal/sessions/loader.go): parsing one session file
 * into a Session, and merging the files of a sessions tree into one Session
 * per id, newest first.
 *
 * Files are given by what reading them yields (their lines, and the error
 * that ended the reading early, if any); the directory walk is given by the
 * sequence of entries it visits.
 */
module Loader {
  import opened Wrappers
  import opened Text
  import opened Describe
  import opened Paths
  import opened Ordering
  import opened Sessions

  /** One line of a session file, and the logEntry it decodes to when it is valid JSON for one. */
  datatype Line = Line(raw: string, decoded: Option<LogEntry>)

  /** A session file: it could not be opened, or its lines and the read error that cut it short. */
  datatype FileRead = OpenFailed(reason: string) | Opened(lines: seq<Line>, readError: Option<string>)

  /** Why parseSessionFile gives up on a file. */
  datatype ParseError =
    | OpenError(reason: string)
    | ReadError(reason: string)
    | EntryDecodeError
    | MetaDecodeError
    | MissingSessionId

  /** The variables parseSessionFile carries from line to line. */
  datatype ParseState = ParseState(
    id: string,
    workingDir: string,
    createdAt: nat,
    createdSet: bool,
    lastAction: string,
    lastTS: nat)

  const Start := ParseState([], [], 0, false, [], 0)

  /** An entry's instant; one that does not parse counts as the zero time. */
  function Stamp(e: LogEntry): nat {
    e.timestamp.GetOr(0)
  }

  /** Whether an entry at `ts` becomes the latest: it is later, or nothing is recorded yet. */
  predicate Advances(lastTS: nat, ts: nat) {
    ts > lastTS || lastTS == 0
  }

  /** The session_meta part of the loop body: the last metadata wins. */
  function ApplyMeta(st: ParseState, e: LogEntry): (r: Result<ParseState, ParseError>)
    ensures e.kind != "session_meta" ==> r == Ok(st)
    ensures e.kind == "session_meta" ==> (r.Err? <==> e.payload.asSessionMeta.None?)
    ensures r.Err? ==> r.error == MetaDecodeError
    ensures r.Ok? ==> r.value.lastAction == st.lastAction && r.value.lastTS == st.lastTS
  {
    if e.kind != "session_meta" then Ok(st)
    else
      match e.payload.asSessionMeta
      case None => Err(MetaDecodeError)
      case Some(m) =>
        var st := st.(id := m.id, workingDir := m.cwd);
        if m.timestamp.Some? then Ok(st.(createdAt := m.timestamp.value, createdSet := true)) else Ok(st)
  }

  /**
   * The last-action part of the loop body, for an entry at `ts` described by
   * `desc`: a later entry (or any entry while nothing is recorded) moves the
   * latest instant, and takes over the last action when it has a description.
   */
  function Advance(st: ParseState, ts: nat, isMeta: bool, desc: string): (r: ParseState)
    ensures r.lastTS == (if Advances(st.lastTS, ts) then ts else st.lastTS)
    ensures r.(lastTS := st.lastTS, lastAction := st.lastAction) == st
  {
    if Advances(st.lastTS, ts) then
      if desc != [] then st.(lastTS := ts, lastAction := desc)
      else if isMeta && st.lastAction == [] then st.(lastTS := ts, lastAction := "session started")
      else st.(lastTS := ts)
    else st
  }

  /** One entry of the loop body, with `describe` for describeEntry. */
  function StepEntry(st: ParseState, e: LogEntry, describe: LogEntry -> string): Result<ParseState, ParseError> {
    match ApplyMeta(st, e)
    case Err(err) => Err(err)
    case Ok(st') => Ok(Advance(st', Stamp(e), e.kind == "session_meta", describe(e)))
  }

  /** A line the loop gets past: blank once its line ending is dropped, or a decodable entry. */
  predicate Readable(line: Line) {
    TrimRightNewline(line.raw) == [] ||
    (line.decoded.Some? && (line.decoded.value.kind == "session_meta" ==> line.decoded.value.payload.asSessionMeta.Some?))
  }

  /** The error a line that is not Readable stops the parse with. */
  function LineError(line: Line): ParseError {
    if line.decoded.None? then EntryDecodeError else MetaDecodeError
  }

  function StepLine(st: ParseState, line: Line, describe: LogEntry -> string): (r: Result<ParseState, ParseError>)
    ensures r.Ok? <==> Readable(line)
    ensures r.Err? ==> r.error == LineError(line)
  {
    if TrimRightNewline(line.raw) == [] then Ok(st)
    else
      match line.decoded
      case None => Err(EntryDecodeError)
      case Some(e) => StepEntry(st, e, describe)
  }

  /** The loop of parseSessionFile over the first lines of a file. */
  function Scan(lines: seq<Line>, describe: LogEntry -> string): Result<ParseState, ParseError> {
    if lines == [] then Ok(Start)
    else
      match Scan(lines[..|lines| - 1], describe)
      case Err(err) => Err(err)
      case Ok(st) => StepLine(st, lines[|lines| - 1], describe)
  }

  /** What follows the loop: the id check and the defaulting of the timestamps. */
  function Finish(path: string, st: ParseState): (r: Result<Session, ParseError>)
    ensures r.Err? <==> st.id == []
    ensures r.Err? ==> r.error == MissingSessionId
  {
    if st.id == [] then Err(MissingSessionId)
    else
      var createdAt := if !st.createdSet || st.createdAt == 0 then st.lastTS else st.createdAt;
      Ok(Session(st.id, createdAt, st.lastTS, st.workingDir, st.lastAction, [path]))
  }

  /** parseSessionFile, as a specification. */
  function ParseFile(path: string, file: FileRead): Result<Session, ParseError> {
    match file
    case OpenFailed(reason) => Err(OpenError(reason))
    case Opened(lines, readError) =>
      match Scan(lines, DescribeEntry)
      case Err(err) => Err(err)
      case Ok(st) => if readError.Some? then Err(ReadError(readError.value)) else Finish(path, st)
  }

  lemma {:induction false} ScanErrorSticks(lines: seq<Line>, k: nat, describe: LogEntry -> string)
    requires k <= |lines| && Scan(lines[..k], describe).Err?
    ensures Scan(lines, describe) == Scan(lines[..k], describe)
    decreases |lines| - k
  {
    if k < |lines| {
      assert lines[..|lines| - 1][..k] == lines[..k];
      ScanErrorSticks(lines[..|lines| - 1], k, describe);
    } else {
      assert lines[..k] == lines;
    }
  }

  /** One more line extends the scan by one step. */
  lemma ScanStep(lines: seq<Line>, i: nat, st: ParseState, describe: LogEntry -> string)
    requires i < |lines| && Scan(lines[..i], describe) == Ok(st)
    ensures Scan(lines[..i + 1], describe) == StepLine(st, lines[i], describe)
  {
    assert lines[..i + 1][..i] == lines[..i];
  }

  /**
   * The body of the loop of parseSessionFile for a line that decoded to
   * `entry`: the session_meta fields, then the latest instant and last action.
   */
  method ApplyEntry(st: ParseState, entry: LogEntry) returns (r: Result<ParseState, ParseError>)
    ensures r == StepEntry(st, entry, DescribeEntry)
  {
    var next := st;
    var ts := if entry.timestamp.Some? then entry.timestamp.value else 0;
    if entry.kind == "session_meta" {
      if entry.payload.asSessionMeta.None? {
        return Err(MetaDecodeError);
      }
      var meta := entry.payload.asSessionMeta.value;
      next := next.(id := meta.id, workingDir := meta.cwd);
      if meta.timestamp.Some? {
        next := next.(createdAt := meta.timestamp.value, createdSet := true);
      }
    }
    assert ApplyMeta(st, entry) == Ok(next);
    if ts > next.lastTS || next.lastTS == 0 {
      var desc := DescribeEntry(entry);
      if desc != [] {
        next := next.(lastTS := ts, lastAction := desc);
      } else if entry.kind == "session_meta" && next.lastAction == [] {
        next := next.(lastTS := ts, lastAction := "session started");
      } else {
        next := next.(lastTS := ts);
      }
    }
    return Ok(next);
  }

  /** parseSessionFile: the loop of the source, one line at a time. */
  method ParseSessionFile(path: string, file: FileRead) returns (r: Result<Session, ParseError>)
    ensures r == ParseFile(path, file)
  {
    if file.OpenFailed? {
      return Err(OpenError(file.reason));
    }
    var lines := file.lines;
    var st := Start;
    assert lines[..0] == [];
    for i := 0 to |lines|
      invariant Scan(lines[..i], DescribeEntry) == Ok(st)
    {
      ScanStep(lines, i, st, DescribeEntry);
      var line := TrimRightNewline(lines[i].raw);
      if line != [] {
        if lines[i].decoded.None? {
          ScanErrorSticks(lines, i + 1, DescribeEntry);
          return Err(EntryDecodeError);
        }
        var next := ApplyEntry(st, lines[i].decoded.value);
        if next.Err? {
          ScanErrorSticks(lines, i + 1, DescribeEntry);
          return Err(next.error);
        }
        st := next.value;
      }
    }
    assert lines[..|lines|] == lines;
    if file.readError.Some? {
      return Err(ReadError(file.readError.value));
    }
    if st.id == [] {
      return Err(MissingSessionId);
    }
    var createdAt := st.createdAt;
    if !st.createdSet || createdAt == 0 {
      createdAt := st.lastTS;
    }
    return Ok(Session(st.id, createdAt, st.lastTS, st.workingDir, st.lastAction, [path]));
  }

  // Properties of the parse, stated over the entries a file holds.

  /** The decoded entries of the non-blank lines, in file order. */
  function Entries(lines: seq<Line>): (es: seq<LogEntry>)
    ensures |es| <= |lines|
  {
    if lines == [] then []
    else
      var line := lines[|lines| - 1];
      Entries(lines[..|lines| - 1]) +
        (if TrimRightNewline(line.raw) != [] && line.decoded.Some? then [line.decoded.value] else [])
  }

  /** The latest instant among the entries (0 when there is none). */
  function MaxStamp(es: seq<LogEntry>): (m: nat)
    ensures forall e :: e in es ==> Stamp(e) <= m
    ensures m == 0 || exists e :: e in es && Stamp(e) == m
  {
    if es == [] then 0
    else
      var m := MaxStamp(es[..|es| - 1]);
      assert es == es[..|es| - 1] + [es[|es| - 1]];
      if Stamp(es[|es| - 1]) > m then Stamp(es[|es| - 1]) else m
  }

  /** The payload of the last session_meta entry, if there is one. */
  function LastMeta(es: seq<LogEntry>): Option<SessionMeta> {
    if es == [] then None
    else if es[|es| - 1].kind == "session_meta" then es[|es| - 1].payload.asSessionMeta
    else LastMeta(es[..|es| - 1])
  }

  /** The timestamp of the last session_meta entry whose own timestamp parses. */
  function LastCreated(es: seq<LogEntry>): Option<nat> {
    if es == [] then None
    else
      var e := es[|es| - 1];
      if e.kind == "session_meta" && e.payload.asSessionMeta.Some? && e.payload.asSessionMeta.value.timestamp.Some? then
        e.payload.asSessionMeta.value.timestamp
      else LastCreated(es[..|es| - 1])
  }

  /** Entry `i` is later than all before it, or comes while every earlier one is at the zero time. */
  predicate AdvancesAt(es: seq<LogEntry>, i: nat)
    requires i < |es|
  {
    Advances(MaxStamp(es[..i]), Stamp(es[i]))
  }

  /** The description of the last advancing entry that has one. */
  function LastDescribed(es: seq<LogEntry>, describe: LogEntry -> string): string {
    if es == [] then []
    else if AdvancesAt(es, |es| - 1) && describe(es[|es| - 1]) != [] then describe(es[|es| - 1])
    else LastDescribed(es[..|es| - 1], describe)
  }

  predicate MetaAdvanced(es: seq<LogEntry>) {
    exists i :: 0 <= i < |es| && es[i].kind == "session_meta" && AdvancesAt(es, i)
  }

  /**
   * The last action of a file: the description of the last advancing entry
   * that has one; failing that "session started" when some session_meta entry
   * advanced; otherwise empty.
   */
  function ExpectedAction(es: seq<LogEntry>, describe: LogEntry -> string): string {
    if LastDescribed(es, describe) != [] then LastDescribed(es, describe)
    else if MetaAdvanced(es) then "session started"
    else []
  }

  /** Every line before `k` is Readable exactly when the loop runs through them. */
  lemma {:induction false} ScanOkIff(lines: seq<Line>, describe: LogEntry -> string)
    ensures Scan(lines, describe).Ok? <==> forall i :: 0 <= i < |lines| ==> Readable(lines[i])
  {
    if lines != [] {
      var init := lines[..|lines| - 1];
      ScanOkIff(init, describe);
      match Scan(init, describe)
      case Err(err) =>
        var j :| 0 <= j < |init| && !Readable(init[j]);
        assert lines[j] == init[j];
      case Ok(st) =>
        assert Scan(lines, describe) == StepLine(st, lines[|lines| - 1], describe);
        assert forall i :: 0 <= i < |init| ==> init[i] == lines[i];
    }
  }

  /** The first line the loop cannot get past decides the error. */
  lemma ScanFirstError(lines: seq<Line>, k: nat, describe: LogEntry -> string)
    requires k < |lines| && !Readable(lines[k])
    requires forall j :: 0 <= j < k ==> Readable(lines[j])
    ensures Scan(lines, describe) == Err(LineError(lines[k]))
  {
    var pre, upto := lines[..k], lines[..k + 1];
    assert forall j :: 0 <= j < |pre| ==> Readable(pre[j]) by {
      forall j | 0 <= j < |pre| ensures Readable(pre[j]) {
        assert pre[j] == lines[j];
      }
    }
    ScanOkIff(pre, describe);
    assert upto[..|upto| - 1] == pre && upto[|upto| - 1] == lines[k];
    assert Scan(upto, describe) == StepLine(Scan(pre, describe).value, lines[k], describe);
    ScanErrorSticks(lines, k + 1, describe);
  }

  /** The loop runs to the last line only by running through the ones before it. */
  lemma ScanSnoc(lines: seq<Line>, describe: LogEntry -> string)
    requires lines != [] && Scan(lines, describe).Ok?
    ensures Scan(lines[..|lines| - 1], describe).Ok?
    ensures Scan(lines, describe) == StepLine(Scan(lines[..|lines| - 1], describe).value, lines[|lines| - 1], describe)
  {
  }

  /** What one line the loop gets past does to its variables. */
  lemma StepLineOk(st: ParseState, line: Line, describe: LogEntry -> string)
    requires StepLine(st, line, describe).Ok?
    ensures var r := StepLine(st, line, describe).value;
      (TrimRightNewline(line.raw) == [] ==> r == st) &&
      (TrimRightNewline(line.raw) != [] ==>
        line.decoded.Some? &&
        var e := line.decoded.value;
        r.lastTS == (if Advances(st.lastTS, Stamp(e)) then Stamp(e) else st.lastTS) &&
        r.lastAction == (
          if Advances(st.lastTS, Stamp(e)) && describe(e) != [] then describe(e)
          else if Advances(st.lastTS, Stamp(e)) && e.kind == "session_meta" && st.lastAction == [] then "session started"
          else st.lastAction) &&
        (e.kind != "session_meta" ==>
          r.id == st.id && r.workingDir == st.workingDir && r.createdAt == st.createdAt && r.createdSet == st.createdSet) &&
        (e.kind == "session_meta" ==>
          e.payload.asSessionMeta.Some? &&
          var m := e.payload.asSessionMeta.value;
          r.id == m.id && r.workingDir == m.cwd &&
          (m.timestamp.Some? ==> r.createdAt == m.timestamp.value && r.createdSet) &&
          (m.timestamp.None? ==> r.createdAt == st.createdAt && r.createdSet == st.createdSet)))
  {
  }

  /** The updated time is the latest instant of any entry, described or not. */
  lemma {:induction false} ScanLatest(lines: seq<Line>, describe: LogEntry -> string)
    requires Scan(lines, describe).Ok?
    ensures Scan(lines, describe).value.lastTS == MaxStamp(Entries(lines))
  {
    if lines != [] {
      var init := lines[..|lines| - 1];
      var line := lines[|lines| - 1];
      ScanSnoc(lines, describe);
      var st := Scan(init, describe).value;
      ScanLatest(init, describe);
      StepLineOk(st, line, describe);
      var es := Entries(init);
      if TrimRightNewline(line.raw) != [] {
        var e := line.decoded.value;
        assert Entries(lines) == es + [e];
        assert (es + [e])[..|es|] == es;
      } else {
        assert Entries(lines) == es + [];
        assert es + [] == es;
      }
    }
  }

  /** Id and working directory come from the last session_meta entry. */
  lemma {:induction false} ScanMeta(lines: seq<Line>, describe: LogEntry -> string)
    requires Scan(lines, describe).Ok?
    ensures var st := Scan(lines, describe).value;
      match LastMeta(Entries(lines))
      case None => st.id == [] && st.workingDir == []
      case Some(m) => st.id == m.id && st.workingDir == m.cwd
  {
    if lines != [] {
      var init := lines[..|lines| - 1];
      var line := lines[|lines| - 1];
      ScanSnoc(lines, describe);
      StepLineOk(Scan(init, describe).value, line, describe);
      ScanMeta(init, describe);
      var es := Entries(init);
      if TrimRightNewline(line.raw) != [] {
        var e := line.decoded.value;
        assert Entries(lines) == es + [e];
        assert (es + [e])[..|es|] == es;
      } else {
        assert es + [] == es;
      }
    }
  }

  /** The creation time is recorded from the last session_meta entry whose timestamp parses. */
  lemma {:induction false} ScanCreated(lines: seq<Line>, describe: LogEntry -> string)
    requires Scan(lines, describe).Ok?
    ensures var st := Scan(lines, describe).value;
      st.createdSet == LastCreated(Entries(lines)).Some? &&
      (st.createdSet ==> st.createdAt == LastCreated(Entries(lines)).value)
  {
    if lines != [] {
      var init := lines[..|lines| - 1];
      var line := lines[|lines| - 1];
      ScanSnoc(lines, describe);
      StepLineOk(Scan(init, describe).value, line, describe);
      ScanCreated(init, describe);
      var es := Entries(init);
      if TrimRightNewline(line.raw) != [] {
        var e := line.decoded.value;
        assert Entries(lines) == es + [e];
        assert (es + [e])[..|es|] == es;
      } else {
        assert es + [] == es;
      }
    }
  }

  lemma LastDescribedStep(es: seq<LogEntry>, e: LogEntry, describe: LogEntry -> string)
    ensures LastDescribed(es + [e], describe) ==
      if Advances(MaxStamp(es), Stamp(e)) && describe(e) != [] then describe(e) else LastDescribed(es, describe)
  {
    var es' := es + [e];
    assert es'[..|es|] == es;
  }

  lemma MetaAdvancedStep(es: seq<LogEntry>, e: LogEntry)
    ensures MetaAdvanced(es + [e]) <==>
      MetaAdvanced(es) || (e.kind == "session_meta" && Advances(MaxStamp(es), Stamp(e)))
  {
    var es' := es + [e];
    assert es'[..|es|] == es;
    forall i | 0 <= i < |es| ensures AdvancesAt(es', i) == AdvancesAt(es, i) && es'[i] == es[i] {
      assert es'[..i] == es[..i];
    }
    if e.kind == "session_meta" && AdvancesAt(es', |es|) {
      assert MetaAdvanced(es');
    }
    if MetaAdvanced(es') && !MetaAdvanced(es) {
      var i :| 0 <= i < |es'| && es'[i].kind == "session_meta" && AdvancesAt(es', i);
      assert i == |es|;
    }
    if MetaAdvanced(es) {
      var i :| 0 <= i < |es| && es[i].kind == "session_meta" && AdvancesAt(es, i);
      assert es'[i].kind == "session_meta" && AdvancesAt(es', i);
    }
  }

  /** How one more entry changes the expected last action: the rule of the loop body. */
  lemma ExpectedActionStep(es: seq<LogEntry>, e: LogEntry, describe: LogEntry -> string)
    ensures var desc := describe(e);
      var adv := Advances(MaxStamp(es), Stamp(e));
      ExpectedAction(es + [e], describe) ==
        if adv && desc != [] then desc
        else if adv && e.kind == "session_meta" && ExpectedAction(es, describe) == [] then "session started"
        else ExpectedAction(es, describe)
  {
    LastDescribedStep(es, e, describe);
    MetaAdvancedStep(es, e);
  }

  /** The last action the loop records is ExpectedAction of the entries. */
  lemma {:induction false} ScanLastAction(lines: seq<Line>, describe: LogEntry -> string)
    requires Scan(lines, describe).Ok?
    ensures Scan(lines, describe).value.lastAction == ExpectedAction(Entries(lines), describe)
  {
    if lines != [] {
      var init := lines[..|lines| - 1];
      var line := lines[|lines| - 1];
      ScanSnoc(lines, describe);
      StepLineOk(Scan(init, describe).value, line, describe);
      ScanLastAction(init, describe);
      ScanLatest(init, describe);
      var es := Entries(init);
      if TrimRightNewline(line.raw) != [] {
        var e := line.decoded.value;
        assert Entries(lines) == es + [e];
        ExpectedActionStep(es, e, describe);
      } else {
        assert es + [] == es;
      }
    }
  }

  /**
   * When parseSessionFile succeeds: the file could be opened and read to the
   * end, every non-blank line decodes, and the last session_meta entry has a
   * non-empty id.
   */
  lemma ParseFileSucceeds(path: string, file: FileRead)
    ensures ParseFile(path, file).Ok? <==>
      file.Opened? && file.readError.None? && (forall i :: 0 <= i < |file.lines| ==> Readable(file.lines[i])) &&
      LastMeta(Entries(file.lines)).Some? && LastMeta(Entries(file.lines)).value.id != []
  {
    if file.Opened? {
      ScanOkIff(file.lines, DescribeEntry);
      if Scan(file.lines, DescribeEntry).Ok? {
        ScanMeta(file.lines, DescribeEntry);
      }
    }
  }

  /** The error parseSessionFile reports, in the order the source checks for them. */
  lemma ParseFileErrors(path: string, file: FileRead)
    ensures file.OpenFailed? ==> ParseFile(path, file) == Err(OpenError(file.reason))
    ensures file.Opened? && (forall i :: 0 <= i < |file.lines| ==> Readable(file.lines[i])) ==>
      (file.readError.Some? ==> ParseFile(path, file) == Err(ReadError(file.readError.value))) &&
      (file.readError.None? && (LastMeta(Entries(file.lines)).None? || LastMeta(Entries(file.lines)).value.id == []) ==>
        ParseFile(path, file) == Err(MissingSessionId))
    ensures forall k ::
      (file.Opened? && 0 <= k < |file.lines| && !Readable(file.lines[k]) &&
       (forall j :: 0 <= j < k ==> Readable(file.lines[j]))) ==>
      ParseFile(path, file) == Err(LineError(file.lines[k]))
  {
    if file.Opened? {
      ScanOkIff(file.lines, DescribeEntry);
      if Scan(file.lines, DescribeEntry).Ok? {
        ScanMeta(file.lines, DescribeEntry);
      }
      forall k | 0 <= k < |file.lines| && !Readable(file.lines[k]) && (forall j :: 0 <= j < k ==> Readable(file.lines[j]))
        ensures ParseFile(path, file) == Err(LineError(file.lines[k]))
      {
        ScanFirstError(file.lines, k, DescribeEntry);
      }
    }
  }

  /**
   * The session a file parses to: its one path, the id and working directory
   * of the last session_meta entry, the latest instant of any entry as the
   * update time, the last recorded creation time unless it is missing or
   * zero, and the expected last action.
   */
  lemma ParsedSession(path: string, file: FileRead)
    requires ParseFile(path, file).Ok?
    ensures var s := ParseFile(path, file).value;
      var es := Entries(file.lines);
      s.filePaths == [path] && s.id != [] &&
      LastMeta(es).Some? && s.id == LastMeta(es).value.id && s.workingDir == LastMeta(es).value.cwd &&
      s.updatedAt == MaxStamp(es) &&
      s.createdAt == (if LastCreated(es).Some? && LastCreated(es).value != 0 then LastCreated(es).value else s.updatedAt) &&
      s.lastAction == ExpectedAction(es, DescribeEntry)
  {
    ScanMeta(file.lines, DescribeEntry);
    ScanLatest(file.lines, DescribeEntry);
    ScanCreated(file.lines, DescribeEntry);
    ScanLastAction(file.lines, DescribeEntry);
  }

  // Load: the walk, the merge by id, and the ordering of the result.

  /** What filepath.WalkDir hands the callback, in walk order. */
  datatype WalkEntry =
    | WalkFailed(path: string, reason: string)
    | DirEntry(path: string)
    | FileEntry(path: string, file: FileRead)

  /** What os.Stat says of the resolved sessions directory, and the walk below it. */
  datatype Root = Missing | StatFailed(reason: string) | NotDirectory | Tree(walk: seq<WalkEntry>)

  /** One error joined into Load's combined error. */
  datatype Issue = WalkIssue(path: string, reason: string) | ParseIssue(path: string, error: ParseError)

  datatype LoadError = StatError(reason: string) | NotADirectory

  datatype LoadResult = LoadFailed(error: LoadError) | Loaded(sessions: seq<Session>, issues: seq<Issue>)

  predicate IsLog(path: string) {
    Ext(path) == ".jsonl"
  }

  /** `ys` appended to `xs`, each element only if it is not there yet. */
  function AppendAbsent(xs: seq<string>, ys: seq<string>): (r: seq<string>)
    ensures |xs| <= |r| && r[..|xs|] == xs
    ensures forall p :: p in r <==> p in xs || p in ys
    ensures NoDup(xs) ==> NoDup(r)
  {
    if ys == [] then xs
    else
      var acc := AppendAbsent(xs, ys[..|ys| - 1]);
      var p := ys[|ys| - 1];
      assert ys == ys[..|ys| - 1] + [p];
      if p in acc then acc else acc + [p]
  }

  /** contains: linear search. */
  method Contains(list: seq<string>, value: string) returns (found: bool)
    ensures found <==> value in list
  {
    for i := 0 to |list|
      invariant value !in list[..i]
    {
      if list[i] == value {
        return true;
      }
    }
    assert list[..|list|] == list;
    return false;
  }

  /** The file-path loop of the merge. */
  method MergeFilePaths(existing: seq<string>, more: seq<string>) returns (r: seq<string>)
    ensures r == AppendAbsent(existing, more)
  {
    r := existing;
    for i := 0 to |more|
      invariant r == AppendAbsent(existing, more[..i])
    {
      assert more[..i + 1][..i] == more[..i];
      var present := Contains(r, more[i]);
      if !present {
        r := r + [more[i]];
      }
    }
    assert more[..|more|] == more;
  }

  /**
   * The merge of a newly parsed session `s` into the one already held for
   * its id: the earlier creation time (a zero held one is always replaced),
   * the later update time with its last action, a working directory from the
   * newer file or to fill a missing one, and the union of the file paths.
   */
  function Merge(existing: Session, s: Session): (r: Session)
    ensures r.id == existing.id
    ensures existing.createdAt == 0 ==> r.createdAt == s.createdAt
    ensures existing.createdAt != 0 ==> r.createdAt == if s.createdAt < existing.createdAt then s.createdAt else existing.createdAt
    ensures r.updatedAt >= existing.updatedAt && r.updatedAt >= s.updatedAt
    ensures r.updatedAt == existing.updatedAt || r.updatedAt == s.updatedAt
    ensures r.lastAction == if s.updatedAt > existing.updatedAt then s.lastAction else existing.lastAction
    ensures r.workingDir == existing.workingDir || r.workingDir == s.workingDir
    ensures r.workingDir == [] <==> existing.workingDir == [] && s.workingDir == []
    ensures s.updatedAt > existing.updatedAt && s.workingDir != [] ==> r.workingDir == s.workingDir
    ensures s.updatedAt <= existing.updatedAt && existing.workingDir != [] ==> r.workingDir == existing.workingDir
    ensures r.filePaths == AppendAbsent(existing.filePaths, s.filePaths)
  {
    var e := existing;
    var e := if s.createdAt < e.createdAt || e.createdAt == 0 then e.(createdAt := s.createdAt) else e;
    var e :=
      if s.updatedAt > e.updatedAt then
        e.(updatedAt := s.updatedAt, lastAction := s.lastAction, workingDir := if s.workingDir != [] then s.workingDir else e.workingDir)
      else if e.workingDir == [] && s.workingDir != [] then e.(workingDir := s.workingDir)
      else e;
    e.(filePaths := AppendAbsent(e.filePaths, s.filePaths))
  }

  /** What the walk callback has gathered so far: sessions by id and the joined errors. */
  datatype Gathered = Gathered(byID: map<string, Session>, issues: seq<Issue>)

  /** The error one walk entry contributes, if any. */
  function IssueOf(w: WalkEntry): Option<Issue> {
    match w
    case WalkFailed(p, reason) => Some(WalkIssue(p, reason))
    case DirEntry(_) => None
    case FileEntry(p, f) =>
      if IsLog(p) && ParseFile(p, f).Err? then Some(ParseIssue(p, ParseFile(p, f).error)) else None
  }

  /** The session one walk entry contributes, if any. */
  function SessionOf(w: WalkEntry): Option<Session> {
    if w.FileEntry? && IsLog(w.path) && ParseFile(w.path, w.file).Ok? then Some(ParseFile(w.path, w.file).value) else None
  }

  /** The walk callback on one entry. */
  function Visit(g: Gathered, w: WalkEntry): Gathered {
    match IssueOf(w)
    case Some(issue) => g.(issues := g.issues + [issue])
    case None =>
      match SessionOf(w)
      case None => g
      case Some(s) => if s.id in g.byID then g.(byID := g.byID[s.id := Merge(g.byID[s.id], s)]) else g.(byID := g.byID[s.id := s])
  }

  /** The walk over its first entries. */
  function Gather(walk: seq<WalkEntry>): (g: Gathered)
    ensures forall id :: id in g.byID ==> g.byID[id].id == id && id != []
  {
    if walk == [] then Gathered(map[], [])
    else
      var g := Gather(walk[..|walk| - 1]);
      var w := walk[|walk| - 1];
      VisitByID(g, w);
      if SessionOf(w).Some? then ParsedSession(w.path, w.file); Visit(g, w)
      else Visit(g, w)
  }

  /** The callback changes the map only for an entry that parses, and only at its id. */
  lemma VisitByID(g: Gathered, w: WalkEntry)
    ensures SessionOf(w).None? ==> Visit(g, w).byID == g.byID
    ensures SessionOf(w).Some? ==>
      var s := SessionOf(w).value;
      Visit(g, w).byID == g.byID[s.id := if s.id in g.byID then Merge(g.byID[s.id], s) else s]
  {
    if SessionOf(w).Some? {
      assert IssueOf(w).None?;
    }
  }

  /** The sessions the log files of the walk parse to, in walk order. */
  function Parsed(walk: seq<WalkEntry>): (ss: seq<Session>)
    ensures |ss| <= |walk|
  {
    if walk == [] then []
    else
      Parsed(walk[..|walk| - 1]) +
        (match SessionOf(walk[|walk| - 1]) case Some(s) => [s] case None => [])
  }

  /** The map of the walk callback, as a fold of Merge over parsed sessions. */
  function Merged(ss: seq<Session>): map<string, Session> {
    if ss == [] then map[]
    else
      var m := Merged(ss[..|ss| - 1]);
      var s := ss[|ss| - 1];
      m[s.id := if s.id in m then Merge(m[s.id], s) else s]
  }

  lemma {:induction false} GatherMerges(walk: seq<WalkEntry>)
    ensures Gather(walk).byID == Merged(Parsed(walk))
  {
    if walk != [] {
      var init, w := walk[..|walk| - 1], walk[|walk| - 1];
      GatherMerges(init);
      VisitByID(Gather(init), w);
      var ss := Parsed(walk);
      if SessionOf(w).Some? {
        assert ss[..|ss| - 1] == Parsed(init) && ss[|ss| - 1] == SessionOf(w).value;
      } else {
        assert ss == Parsed(init);
      }
    }
  }

  /** Session `s` is what log file `w` parses to, and it lists only that file. */
  predicate ParsedFrom(w: WalkEntry, s: Session) {
    w.FileEntry? && IsLog(w.path) && ParseFile(w.path, w.file) == Ok(s) && s.filePaths == [w.path]
  }

  /** Each parsed session comes from one log file of the walk. */
  lemma {:induction false} ParsedFromLogs(walk: seq<WalkEntry>)
    ensures forall i :: 0 <= i < |Parsed(walk)| ==> exists k :: 0 <= k < |walk| && ParsedFrom(walk[k], Parsed(walk)[i])
  {
    if walk != [] {
      var init, w := walk[..|walk| - 1], walk[|walk| - 1];
      ParsedFromLogs(init);
      var ss, ss0 := Parsed(walk), Parsed(init);
      assert ss[..|ss0|] == ss0;
      forall i | 0 <= i < |ss|
        ensures exists k :: 0 <= k < |walk| && ParsedFrom(walk[k], ss[i])
      {
        if i < |ss0| {
          assert ss[i] == ss0[i];
          var k :| 0 <= k < |init| && ParsedFrom(init[k], ss0[i]);
          assert walk[k] == init[k];
        } else {
          assert SessionOf(w).Some? && ss[i] == SessionOf(w).value;
          ParsedSession(w.path, w.file);
          assert ParsedFrom(walk[|walk| - 1], ss[i]);
        }
      }
    } else {
      assert Parsed(walk) == [];
    }
  }

  /** Every log file of the walk that parses contributes its session. */
  lemma {:induction false} LogsAreParsed(walk: seq<WalkEntry>)
    ensures forall k :: 0 <= k < |walk| && SessionOf(walk[k]).Some? ==> SessionOf(walk[k]).value in Parsed(walk)
  {
    if walk != [] {
      var init, w := walk[..|walk| - 1], walk[|walk| - 1];
      LogsAreParsed(init);
      ParsedGrows(init, w);
      assert init + [w] == walk;
      forall k | 0 <= k < |walk| && SessionOf(walk[k]).Some? ensures SessionOf(walk[k]).value in Parsed(walk) {
        if k < |init| {
          assert walk[k] == init[k];
        }
      }
    }
  }

  /** One more walk entry keeps the sessions parsed so far and adds its own. */
  lemma ParsedGrows(walk: seq<WalkEntry>, w: WalkEntry)
    ensures forall s :: s in Parsed(walk) ==> s in Parsed(walk + [w])
    ensures SessionOf(w).Some? ==> SessionOf(w).value in Parsed(walk + [w])
  {
    assert (walk + [w])[..|walk|] == walk;
  }

  /** Exactly the ids of the parsed sessions have an entry. */
  lemma {:induction false} MergedKeys(ss: seq<Session>)
    ensures forall id :: id in Merged(ss) <==> exists i :: 0 <= i < |ss| && ss[i].id == id
  {
    if ss != [] {
      var init := ss[..|ss| - 1];
      MergedKeys(init);
      assert forall i :: 0 <= i < |init| ==> ss[i] == init[i];
    }
  }

  /**
   * A merged session's file paths are those of the files parsed with its id,
   * each once (given that no single file lists a path twice).
   */
  lemma {:induction false} MergedPaths(ss: seq<Session>)
    ensures forall id, p :: id in Merged(ss) ==>
      (p in Merged(ss)[id].filePaths <==> exists i :: 0 <= i < |ss| && ss[i].id == id && p in ss[i].filePaths)
    ensures (forall i :: 0 <= i < |ss| ==> NoDup(ss[i].filePaths)) ==>
      forall id :: id in Merged(ss) ==> NoDup(Merged(ss)[id].filePaths)
  {
    if ss != [] {
      var init, s := ss[..|ss| - 1], ss[|ss| - 1];
      MergedPaths(init);
      var m0, m := Merged(init), Merged(ss);
      assert forall i :: 0 <= i < |init| ==> ss[i] == init[i];
      forall id, p | id in m
        ensures p in m[id].filePaths <==> exists i :: 0 <= i < |ss| && ss[i].id == id && p in ss[i].filePaths
      {
        var before := exists i :: 0 <= i < |init| && init[i].id == id && p in init[i].filePaths;
        assert (exists i :: 0 <= i < |ss| && ss[i].id == id && p in ss[i].filePaths) <==>
          before || (s.id == id && p in s.filePaths) by {
          if exists i :: 0 <= i < |ss| && ss[i].id == id && p in ss[i].filePaths {
            var i :| 0 <= i < |ss| && ss[i].id == id && p in ss[i].filePaths;
            if i < |init| {
              assert init[i].id == id && p in init[i].filePaths;
            }
          }
          assert ss[|ss| - 1] == s;
        }
        if id != s.id {
          assert m[id] == m0[id];
        } else if id in m0 {
          assert m[id].filePaths == AppendAbsent(m0[id].filePaths, s.filePaths);
        } else {
          MergedKeys(init);
          assert !before;
        }
      }
    }
  }

  /** A merged session's update time is the latest of the files parsed with its id. */
  lemma {:induction false} MergedLatest(ss: seq<Session>)
    ensures forall id, i :: id in Merged(ss) && 0 <= i < |ss| && ss[i].id == id ==> ss[i].updatedAt <= Merged(ss)[id].updatedAt
    ensures forall id :: id in Merged(ss) ==>
      exists i :: 0 <= i < |ss| && ss[i].id == id && ss[i].updatedAt == Merged(ss)[id].updatedAt
  {
    if ss != [] {
      var init, s := ss[..|ss| - 1], ss[|ss| - 1];
      MergedLatest(init);
      MergedKeys(init);
      var m0, m := Merged(init), Merged(ss);
      assert forall i :: 0 <= i < |init| ==> ss[i] == init[i];
      forall id | id in m
        ensures exists i :: 0 <= i < |ss| && ss[i].id == id && ss[i].updatedAt == m[id].updatedAt
      {
        if id == s.id && (id !in m0 || m[id].updatedAt == s.updatedAt) {
          assert ss[|ss| - 1] == s;
        } else {
          var i :| 0 <= i < |init| && init[i].id == id && init[i].updatedAt == m0[id].updatedAt;
          assert ss[i] == init[i];
        }
      }
    }
  }

  lemma StrLeIsPreorder()
    ensures TotalPreorder(StrLe)
  {
    forall a, b ensures StrLe(a, b) || StrLe(b, a) {
      StrLeTotal(a, b);
    }
    forall a, b, c | StrLe(a, b) && StrLe(b, c) ensures StrLe(a, c) {
      StrLeTransitive(a, b, c);
    }
  }

  /** sort.Strings on a session's file paths. */
  function Finalize(s: Session): (r: Session)
    ensures r.(filePaths := s.filePaths) == s
    ensures SortedBy(r.filePaths, StrLe) && multiset(r.filePaths) == multiset(s.filePaths)
  {
    StrLeIsPreorder();
    s.(filePaths := SortBy(s.filePaths, StrLe))
  }

  /** The order of sort.Slice in Load: a session before another is updated no earlier. */
  predicate Newer(a: Session, b: Session) {
    a.updatedAt >= b.updatedAt
  }

  lemma NewerIsPreorder()
    ensures TotalPreorder(Newer)
  {
  }

  /** The sessions Load returns for what was gathered: one per id, newest first. */
  predicate Emitted(sessions: seq<Session>, byID: map<string, Session>) {
    SortedBy(sessions, Newer) &&
    (forall i :: 0 <= i < |sessions| ==> sessions[i].id in byID && sessions[i] == Finalize(byID[sessions[i].id])) &&
    (forall id :: id in byID ==> exists i :: 0 <= i < |sessions| && sessions[i].id == id) &&
    (forall i, j :: 0 <= i < j < |sessions| ==> sessions[i].id != sessions[j].id)
  }

  /** The merge of the walk callback, one field at a time. */
  method MergeInto(existing: Session, session: Session) returns (merged: Session)
    ensures merged == Merge(existing, session)
  {
    merged := existing;
    if session.createdAt < merged.createdAt || merged.createdAt == 0 {
      merged := merged.(createdAt := session.createdAt);
    }
    if session.updatedAt > merged.updatedAt {
      merged := merged.(updatedAt := session.updatedAt, lastAction := session.lastAction);
      if session.workingDir != [] {
        merged := merged.(workingDir := session.workingDir);
      }
    } else if merged.workingDir == [] && session.workingDir != [] {
      merged := merged.(workingDir := session.workingDir);
    }
    var filePaths := MergeFilePaths(merged.filePaths, session.filePaths);
    merged := merged.(filePaths := filePaths);
  }

  /** The walk callback: records the entry's error, or parses a log file and merges its session. */
  method VisitEntry(byID: map<string, Session>, issues: seq<Issue>, w: WalkEntry)
    returns (byID': map<string, Session>, issues': seq<Issue>)
    ensures Gathered(byID', issues') == Visit(Gathered(byID, issues), w)
  {
    byID', issues' := byID, issues;
    match w {
      case WalkFailed(path, reason) =>
        issues' := issues + [WalkIssue(path, reason)];
      case DirEntry(_) =>
      case FileEntry(path, file) =>
        if !IsLog(path) {
          return;
        }
        var parsed := ParseSessionFile(path, file);
        if parsed.Err? {
          issues' := issues + [ParseIssue(path, parsed.error)];
          return;
        }
        var session := parsed.value;
        if session.id !in byID {
          byID' := byID[session.id := session];
          return;
        }
        var merged := MergeInto(byID[session.id], session);
        byID' := byID[session.id := merged];
    }
  }

  /**
   * Load, after the directory is resolved: the walk callback over every entry,
   * then one session per id with its file paths sorted, newest first.
   */
  method Load(root: Root) returns (r: LoadResult)
    ensures root.Missing? ==> r == Loaded([], [])
    ensures root.StatFailed? ==> r == LoadFailed(StatError(root.reason))
    ensures root.NotDirectory? ==> r == LoadFailed(NotADirectory)
    ensures root.Tree? ==> r.Loaded? && r.issues == Gather(root.walk).issues && Emitted(r.sessions, Gather(root.walk).byID)
  {
    match root {
      case Missing => return Loaded([], []);
      case StatFailed(reason) => return LoadFailed(StatError(reason));
      case NotDirectory => return LoadFailed(NotADirectory);
      case Tree(walk) =>
    }
    var walk := root.walk;
    var byID: map<string, Session> := map[];
    var issues: seq<Issue> := [];
    for i := 0 to |walk|
      invariant Gather(walk[..i]) == Gathered(byID, issues)
    {
      assert walk[..i + 1][..i] == walk[..i];
      byID, issues := VisitEntry(byID, issues, walk[i]);
    }
    assert walk[..|walk|] == walk;
    var sessions := Emit(byID);
    NewerIsPreorder();
    var sorted := SortBy(sessions, Newer);
    SortedKeepsEmitted(sessions, sorted, byID);
    return Loaded(sorted, issues);
  }

  /** What the emission loop has produced for the ids in `done`. */
  predicate EmittedSoFar(sessions: seq<Session>, byID: map<string, Session>, done: set<string>) {
    (forall i :: 0 <= i < |sessions| ==> sessions[i].id in done && sessions[i].id in byID) &&
    (forall i :: 0 <= i < |sessions| ==> sessions[i] == Finalize(byID[sessions[i].id])) &&
    (forall id :: id in done ==> exists i :: 0 <= i < |sessions| && sessions[i].id == id) &&
    (forall i, j :: 0 <= i < j < |sessions| ==> sessions[i].id != sessions[j].id)
  }

  lemma EmitStep(sessions: seq<Session>, byID: map<string, Session>, done: set<string>, id: string)
    requires EmittedSoFar(sessions, byID, done)
    requires id in byID && id !in done && byID[id].id == id
    ensures EmittedSoFar(sessions + [Finalize(byID[id])], byID, done + {id})
  {
    var s := Finalize(byID[id]);
    var after := sessions + [s];
    assert s.id == id;
    forall i | 0 <= i < |after|
      ensures after[i].id in done + {id} && after[i].id in byID && after[i] == Finalize(byID[after[i].id])
    {
      if i < |sessions| {
        assert after[i] == sessions[i];
      }
    }
    forall k | k in done + {id} ensures exists i :: 0 <= i < |after| && after[i].id == k {
      if k == id {
        assert after[|sessions|] == s;
      } else {
        var i :| 0 <= i < |sessions| && sessions[i].id == k;
        assert after[i].id == k;
      }
    }
    forall i, j | 0 <= i < j < |after| ensures after[i].id != after[j].id {
      assert after[i] == sessions[i];
      if j < |sessions| {
        assert after[j] == sessions[j];
      }
    }
  }

  /** The loop over the map: each session once, its file paths sorted, in the map's order. */
  method Emit(byID: map<string, Session>) returns (sessions: seq<Session>)
    requires forall id :: id in byID ==> byID[id].id == id
    ensures forall i :: 0 <= i < |sessions| ==> sessions[i].id in byID && sessions[i] == Finalize(byID[sessions[i].id])
    ensures forall id :: id in byID ==> exists i :: 0 <= i < |sessions| && sessions[i].id == id
    ensures forall i, j :: 0 <= i < j < |sessions| ==> sessions[i].id != sessions[j].id
  {
    sessions := [];
    var keys := byID.Keys;
    ghost var done: set<string> := {};
    while keys != {}
      invariant keys <= byID.Keys && done == byID.Keys - keys
      invariant EmittedSoFar(sessions, byID, done)
      decreases |keys|
    {
      var id :| id in keys;
      var s := Finalize(byID[id]);
      assert EmittedSoFar(sessions + [s], byID, done + {id}) by {
        EmitStep(sessions, byID, done, id);
      }
      sessions := sessions + [s];
      keys, done := keys - {id}, done + {id};
    }
    assert done == byID.Keys;
    assert EmittedSoFar(sessions, byID, byID.Keys);
  }

  /** Sorting the emitted sessions keeps them one per id. */
  lemma SortedKeepsEmitted(sessions: seq<Session>, sorted: seq<Session>, byID: map<string, Session>)
    requires forall i :: 0 <= i < |sessions| ==> sessions[i].id in byID && sessions[i] == Finalize(byID[sessions[i].id])
    requires forall id :: id in byID ==> exists i :: 0 <= i < |sessions| && sessions[i].id == id
    requires forall i, j :: 0 <= i < j < |sessions| ==> sessions[i].id != sessions[j].id
    requires SortedBy(sorted, Newer) && multiset(sorted) == multiset(sessions)
    ensures Emitted(sorted, byID)
  {
    forall i | 0 <= i < |sorted| ensures sorted[i].id in byID && sorted[i] == Finalize(byID[sorted[i].id]) {
      assert sorted[i] in multiset(sessions);
    }
    forall id | id in byID ensures exists i :: 0 <= i < |sorted| && sorted[i].id == id {
      var k :| 0 <= k < |sessions| && sessions[k].id == id;
      assert sessions[k] in multiset(sorted);
      var i :| 0 <= i < |sorted| && sorted[i] == sessions[k];
    }
    assert NoDup(sessions);
    NoDupPermutation(sessions, sorted);
    forall i, j | 0 <= i < j < |sorted| ensures sorted[i].id != sorted[j].id {
      assert sorted[i] != sorted[j];
    }
  }
}
