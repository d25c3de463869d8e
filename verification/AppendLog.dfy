/** The append-only command log: database framing, truncation and replay. */
module AppendLog {
  import opened Common
  import opened Decimal
  import opened Resp

  /** One call of the replay callback, or one call of `Write`. */
  datatype Entry = Entry(database: int, command: string)

  /** A message that a client can have had logged: one well-formed command that
      is not itself a SELECT (SELECT is not a write command, so it is never logged). */
  predicate Loggable(command: string) {
    match Decode(command)
    case None => false
    case Some(cmd) =>
      && cmd != [] && !EqualFold(cmd[0], "select")
      && Representable(cmd) && Encode(cmd) == command
  }

  lemma EncodedIsLoggable(cmd: seq<string>)
    requires cmd != [] && Representable(cmd)
    ensures Loggable(Encode(cmd)) <==> !EqualFold(cmd[0], "select")
  {
    DecodeOf(cmd);
  }

  const SELECT_HEADER: string := "*2\r\n$6\r\nSELECT\r\n$1\r\n"

  /** The literal frame that the source prints, with its fixed length `$1`. */
  function SelectFrame(database: int): string {
    SELECT_HEADER + Itoa(database) + CRLF
  }

  predicate Framable(database: int) {
    0 <= database <= 9
  }

  // ----- the replay loop, as a function of the bytes -----------------------------

  datatype Replay = Replay(handled: seq<Entry>, ok: bool)

  function Then(entry: Entry, replay: Replay): Replay {
    Replay([entry] + replay.handled, replay.ok)
  }

  /** What one value does to the loop: fail, select a database, or run a command. */
  datatype Action = Fail | Switch(database: int) | Execute(command: string)

  function Interpret(cmd: seq<string>): Action {
    if cmd == [] then Fail
    else if EqualFold(cmd[0], "select") then
      if |cmd| < 2 then Fail
      else
        match Atoi(cmd[1])
        case None => Fail
        case Some(database) => Switch(database)
    else Execute(Encode(cmd))
  }

  function ReplayBytes(bytes: string, database: int): Replay
    decreases |bytes|
  {
    match ReadValue(bytes)
    case End => Replay([], true)
    case Malformed => Replay([], false)
    case Value(cmd, rest) =>
      match Interpret(cmd)
      case Fail => Replay([], false)
      case Switch(database') => ReplayBytes(rest, database')
      case Execute(command) => Then(Entry(database, command), ReplayBytes(rest, database))
  }

  // ----- the same log as a list of frames -------------------------------------------

  datatype Frame = Select(database: int) | Command(command: string)

  predicate ValidFrame(f: Frame) {
    f.Command? ==> Loggable(f.command)
  }

  function FrameBytes(f: Frame): string {
    match f
    case Select(database) => SelectFrame(database)
    case Command(command) => command
  }

  function Bytes(frames: seq<Frame>): string {
    if frames == [] then [] else FrameBytes(frames[0]) + Bytes(frames[1..])
  }

  /** Replay reads frame after frame; a SELECT frame of a database outside 0..9 stops it. */
  function ReplayFrames(frames: seq<Frame>, database: int): Replay {
    if frames == [] then Replay([], true)
    else
      match frames[0]
      case Select(database') =>
        if Framable(database') then ReplayFrames(frames[1..], database') else Replay([], false)
      case Command(command) => Then(Entry(database, command), ReplayFrames(frames[1..], database))
  }

  lemma SelectHeaderShape()
    ensures SELECT_HEADER == ['*'] + Itoa(2) + CRLF + EncodeBulk("SELECT") + ['$'] + Itoa(1) + CRLF
  {
    assert Itoa(1) == "1" && Itoa(2) == "2" && Itoa(6) == "6";
    assert EncodeBulk("SELECT") == "$6\r\nSELECT\r\n";
  }

  lemma SelectFrameExample()
    ensures SelectFrame(3) == "*2\r\n$6\r\nSELECT\r\n$1\r\n3\r\n"
    ensures SelectFrame(12) == "*2\r\n$6\r\nSELECT\r\n$1\r\n12\r\n"
  {
    assert Digits(3) == "3" && Digits(1) == "1" && Digits(2) == "2" && Digits(12) == "12";
  }

  lemma SelectFrameShape(database: int, rest: string)
    ensures SelectFrame(database) + rest ==
            ['*'] + Itoa(2) + CRLF
            + (EncodeBulk("SELECT") + (['$'] + Itoa(1) + CRLF + (Itoa(database) + CRLF + rest)))
  {
    SelectHeaderShape();
    Regroup(['*'] + Itoa(2) + CRLF, EncodeBulk("SELECT"), ['$'], Itoa(1), CRLF, Itoa(database) + CRLF, rest);
    assert SELECT_HEADER + Itoa(database) + CRLF == SELECT_HEADER + (Itoa(database) + CRLF);
  }

  lemma Regroup(a: string, b: string, c: string, d: string, e: string, f: string, rest: string)
    ensures a + b + c + d + e + f + rest == a + (b + (c + d + e + (f + rest)))
  {
  }

  lemma SelectFrameGood(database: int, rest: string)
    requires Framable(database)
    ensures ReadValue(SelectFrame(database) + rest) == Value(["SELECT", Itoa(database)], rest)
  {
    var number := Itoa(database);
    ItoaLength(database);
    SelectFrameShape(database, rest);
    var second := ['$'] + Itoa(1) + CRLF + (number + CRLF + rest);
    assert second == EncodeBulk(number) + rest;
    ReadBulkOf(number, rest);
    TwoBulks("SELECT", number, second, rest);
  }

  lemma TwoBulks(token: string, token': string, second: string, rest: string)
    requires |token| <= MAX_INT64 && ReadBulk(second) == Bulk(token', rest)
    ensures ReadValue(['*'] + Itoa(2) + CRLF + (EncodeBulk(token) + second)) == Value([token, token'], rest)
  {
    var body := EncodeBulk(token) + second;
    ReadHeaderOf('*', 2, body);
    ReadBulkOf(token, second);
    LastBulk(second, token', rest);
    assert [token] + [token'] == [token, token'];
  }

  lemma LastBulk(s: string, token: string, rest: string)
    requires ReadBulk(s) == Bulk(token, rest)
    ensures ReadBulks(s, 1) == Value([token], rest)
  {
    assert ReadBulks(rest, 0) == Value([], rest);
    assert [token] + [] == [token];
  }

  lemma ShortBulk(text: string, rest: string)
    requires 2 <= |text| && text[1] != '\r'
    ensures ReadBulk(['$'] + Itoa(1) + CRLF + (text + CRLF + rest)).NoBulk?
  {
    var body := text + CRLF + rest;
    ReadHeaderOf('$', 1, body);
    assert body[1..3][0] == text[1];
  }

  lemma SecondBulkBad(token: string, second: string)
    requires |token| <= MAX_INT64 && ReadBulk(second).NoBulk?
    ensures ReadValue(['*'] + Itoa(2) + CRLF + (EncodeBulk(token) + second)).Malformed?
  {
    var body := EncodeBulk(token) + second;
    ReadHeaderOf('*', 2, body);
    ReadBulkOf(token, second);
    assert ReadBulks(second, 1).Malformed?;
  }

  lemma SelectFrameBad(database: int, rest: string)
    requires !Framable(database)
    ensures ReadValue(SelectFrame(database) + rest).Malformed?
  {
    SelectFrameShape(database, rest);
    ItoaLength(database);
    ShortBulk(Itoa(database), rest);
    SecondBulkBad("SELECT", ['$'] + Itoa(1) + CRLF + (Itoa(database) + CRLF + rest));
  }

  /** The fixed `$1` is right exactly for the databases that print as one digit. */
  lemma SelectFrameReadable(database: int, rest: string)
    ensures ReadValue(SelectFrame(database) + rest) == Value(["SELECT", Itoa(database)], rest)
       <==> 0 <= database <= 9
  {
    if Framable(database) {
      SelectFrameGood(database, rest);
    } else {
      SelectFrameBad(database, rest);
    }
  }

  lemma ReplaySwitch(bytes: string, cmd: seq<string>, rest: string, database: int, current: int)
    requires ReadValue(bytes) == Value(cmd, rest) && Interpret(cmd) == Switch(database)
    ensures ReplayBytes(bytes, current) == ReplayBytes(rest, database)
  {
  }

  lemma ReplayMalformed(bytes: string, current: int)
    requires ReadValue(bytes).Malformed?
    ensures ReplayBytes(bytes, current) == Replay([], false)
  {
  }

  lemma InterpretSelect(database: int)
    requires Framable(database)
    ensures Interpret(["SELECT", Itoa(database)]) == Switch(database)
  {
    ItoaRoundTrip(database);
    assert ToLower("SELECT") == "select" == ToLower("select");
  }

  lemma ReplaySelect(database: int, rest: string, current: int)
    ensures ReplayBytes(SelectFrame(database) + rest, current) ==
            if Framable(database) then ReplayBytes(rest, database) else Replay([], false)
  {
    if Framable(database) {
      SelectFrameGood(database, rest);
      InterpretSelect(database);
      ReplaySwitch(SelectFrame(database) + rest, ["SELECT", Itoa(database)], rest, database, current);
    } else {
      SelectFrameBad(database, rest);
      ReplayMalformed(SelectFrame(database) + rest, current);
    }
  }

  lemma ReplayCommand(command: string, rest: string, current: int)
    requires Loggable(command)
    ensures ReplayBytes(command + rest, current) == Then(Entry(current, command), ReplayBytes(rest, current))
  {
    var cmd := Decode(command).value;
    ReadValueOf(cmd, rest);
  }

  /** The byte-level loop refines the frame-level one, malformed frames included. */
  lemma {:induction false} ReplayRefinesFrames(frames: seq<Frame>, database: int)
    requires forall f :: f in frames ==> ValidFrame(f)
    ensures ReplayBytes(Bytes(frames), database) == ReplayFrames(frames, database)
  {
    if frames != [] {
      assert ValidFrame(frames[0]);
      assert forall f :: f in frames[1..] ==> f in frames;
      ReplayRefinesFrames(frames[1..], if frames[0].Select? then frames[0].database else database);
      match frames[0]
      case Select(database') => ReplaySelect(database', Bytes(frames[1..]), database);
      case Command(command) => ReplayCommand(command, Bytes(frames[1..]), database);
    }
  }

  // ----- the store ------------------------------------------------------------------

  /** `rw` is the content of the file; every write goes to its end. */
  class Store {
    var currentDatabase: int
    var rw: string

    /** Opening a file whose content is `content`. */
    constructor (content: string)
      ensures currentDatabase == -1 && rw == content
    {
      currentDatabase := -1;
      rw := content;
    }

    function State(): LogState
      reads this
    {
      LogState(rw, currentDatabase)
    }

    method Write(database: int, command: string)
      modifies this
      ensures State() == Step(old(State()), Append(database, command))
    {
      if database != currentDatabase {
        rw := rw + SelectFrame(database);
        currentDatabase := database;
      }
      rw := rw + command;
    }

    method Truncate()
      modifies this
      ensures State() == Step(old(State()), Cut)
    {
      rw := [];
      rw := rw + SelectFrame(currentDatabase);
    }

    /** Feeds the logged commands to the callback; `handled` collects its calls. */
    method Restore() returns (handled: seq<Entry>, ok: bool)
      ensures Replay(handled, ok) == ReplayBytes(rw, 0)
    {
      var unread := rw;
      var database := 0;
      handled := [];
      while true
        invariant ReplayBytes(rw, 0) ==
                  Replay(handled + ReplayBytes(unread, database).handled, ReplayBytes(unread, database).ok)
        decreases |unread|
      {
        match ReadValue(unread)
        case End =>
          assert handled + [] == handled;
          return handled, true;
        case Malformed =>
          assert handled + [] == handled;
          return handled, false;
        case Value(cmd, rest) =>
          match Interpret(cmd) {
            case Fail =>
              assert handled + [] == handled;
              return handled, false;
            case Switch(database') =>
              database := database';
            case Execute(command) =>
              assert forall more :: handled + ([Entry(database, command)] + more)
                                 == handled + [Entry(database, command)] + more;
              handled := handled + [Entry(database, command)];
          }
          unread := rest;
      }
    }
  }

  // ----- runs -----------------------------------------------------------------------

  datatype LogState = LogState(rw: string, currentDatabase: int)

  datatype Op =
    | Append(database: int, command: string)
    | Cut
    | Reopen

  function Step(s: LogState, op: Op): LogState {
    match op
    case Append(database, command) =>
      LogState(s.rw + (if database != s.currentDatabase then SelectFrame(database) else []) + command, database)
    case Cut => s.(rw := SelectFrame(s.currentDatabase))
    case Reopen => s.(currentDatabase := -1)
  }

  const FRESH: LogState := LogState([], -1)

  function Run(ops: seq<Op>): LogState {
    if ops == [] then FRESH else Step(Run(ops[..|ops| - 1]), ops[|ops| - 1])
  }

  ghost predicate ValidOp(op: Op) {
    op.Append? ==> 0 <= op.database && Loggable(op.command)
  }

  /** The commands written since the last truncation. */
  function Pending(ops: seq<Op>): seq<Entry> {
    if ops == [] then []
    else
      match ops[|ops| - 1]
      case Append(database, command) => Pending(ops[..|ops| - 1]) + [Entry(database, command)]
      case Cut => []
      case Reopen => Pending(ops[..|ops| - 1])
  }

  /** Every SELECT frame now in the file is of a database 0..9.  A truncation
      starts afresh, but needs a database to have been selected since opening. */
  predicate WellFramed(ops: seq<Op>) {
    if ops == [] then true
    else
      match ops[|ops| - 1]
      case Append(database, _) => WellFramed(ops[..|ops| - 1]) && Framable(database)
      case Cut => Framable(Run(ops[..|ops| - 1]).currentDatabase)
      case Reopen => WellFramed(ops[..|ops| - 1])
  }

  /** The frames that one step leaves in a file that held `frames`. */
  function StepFrames(frames: seq<Frame>, currentDatabase: int, op: Op): seq<Frame> {
    match op
    case Append(database, command) =>
      frames + (if database != currentDatabase then [Select(database)] else []) + [Command(command)]
    case Cut => [Select(currentDatabase)]
    case Reopen => frames
  }

  function Frames(ops: seq<Op>): seq<Frame> {
    if ops == [] then []
    else
      var before := ops[..|ops| - 1];
      StepFrames(Frames(before), Run(before).currentDatabase, ops[|ops| - 1])
  }

  lemma {:induction false} BytesAppend(a: seq<Frame>, f: Frame)
    ensures Bytes(a + [f]) == Bytes(a) + FrameBytes(f)
  {
    if a == [] {
      assert (a + [f])[1..] == [];
      assert FrameBytes(f) + [] == FrameBytes(f);
    } else {
      BytesAppend(a[1..], f);
      assert (a + [f])[1..] == a[1..] + [f];
      ConcatAssoc(FrameBytes(a[0]), Bytes(a[1..]), FrameBytes(f));
    }
  }

  lemma StepBytes(s: LogState, frames: seq<Frame>, op: Op)
    requires s.rw == Bytes(frames)
    ensures Step(s, op).rw == Bytes(StepFrames(frames, s.currentDatabase, op))
  {
    match op
    case Append(database, command) =>
      if database != s.currentDatabase {
        BytesAppend(frames, Select(database));
        BytesAppend(frames + [Select(database)], Command(command));
      } else {
        BytesAppend(frames, Command(command));
        assert frames + [] == frames && s.rw + [] == s.rw;
      }
    case Cut =>
      BytesAppend([], Select(s.currentDatabase));
      assert [] + [Select(s.currentDatabase)] == [Select(s.currentDatabase)];
    case Reopen =>
  }

  lemma {:induction false} RunIsFrames(ops: seq<Op>)
    requires forall op :: op in ops ==> ValidOp(op)
    ensures Run(ops).rw == Bytes(Frames(ops))
    ensures forall f :: f in Frames(ops) ==> ValidFrame(f)
  {
    if ops != [] {
      var before, last := ops[..|ops| - 1], ops[|ops| - 1];
      RunIsFrames(before);
      assert ValidOp(last);
      StepBytes(Run(before), Frames(before), last);
    }
  }

  /** The database selected after the frames have been read. */
  function Selected(frames: seq<Frame>, database: int): int {
    if frames == [] then database
    else
      match frames[|frames| - 1]
      case Select(database') => database'
      case Command(_) => Selected(frames[..|frames| - 1], database)
  }

  ghost predicate AllFramable(frames: seq<Frame>) {
    forall f: Frame :: f in frames && f.Select? ==> Framable(f.database)
  }

  /** Reading one more frame at the end of a list of readable frames. */
  lemma {:induction false} ReplaySnoc(a: seq<Frame>, f: Frame, database: int)
    requires AllFramable(a)
    ensures ReplayFrames(a, database).ok
    ensures ReplayFrames(a + [f], database) ==
            match f
            case Select(database') => Replay(ReplayFrames(a, database).handled, Framable(database'))
            case Command(command) =>
              Replay(ReplayFrames(a, database).handled + [Entry(Selected(a, database), command)], true)
  {
    if a == [] {
      assert (a + [f])[1..] == [];
    } else {
      assert a[0] in a && AllFramable(a[1..]);
      assert (a + [f])[1..] == a[1..] + [f];
      var next := if a[0].Select? then a[0].database else database;
      ReplaySnoc(a[1..], f, next);
      SelectedHead(a, database);
    }
  }

  lemma {:induction false} SelectedHead(a: seq<Frame>, database: int)
    requires a != []
    ensures Selected(a, database) == Selected(a[1..], if a[0].Select? then a[0].database else database)
  {
    var last := |a| - 1;
    if 0 < last && a[last].Command? {
      SelectedHead(a[..last], database);
      assert a[..last][1..] == a[1..][..last - 1];
    }
  }

  lemma {:induction false} ReplayFailsOnBadFrame(frames: seq<Frame>, database: int)
    requires !AllFramable(frames)
    ensures !ReplayFrames(frames, database).ok
  {
    var f :| f in frames && f.Select? && !Framable(f.database);
    if frames[0] != f {
      assert f in frames[1..];
      ReplayFailsOnBadFrame(frames[1..], if frames[0].Select? then frames[0].database else database);
    }
  }

  lemma {:induction false} SelectedIsFramable(frames: seq<Frame>, database: int)
    requires AllFramable(frames) && Framable(database)
    ensures Framable(Selected(frames, database))
  {
    if frames != [] {
      var last := |frames| - 1;
      assert frames[last] in frames && AllFramable(frames[..last]);
      SelectedIsFramable(frames[..last], database);
    }
  }

  /** The store remembers what replay will have selected, or nothing. */
  ghost predicate InStep(currentDatabase: int, frames: seq<Frame>) {
    currentDatabase == -1 || (0 <= currentDatabase && currentDatabase == Selected(frames, 0))
  }

  lemma StepAppend(currentDatabase: int, frames: seq<Frame>, database: int, command: string)
    requires 0 <= database && InStep(currentDatabase, frames)
    ensures var frames' := StepFrames(frames, currentDatabase, Append(database, command));
            && InStep(database, frames')
            && (AllFramable(frames') <==> AllFramable(frames) && Framable(database))
            && (AllFramable(frames') ==>
                  ReplayFrames(frames', 0) ==
                  Replay(ReplayFrames(frames, 0).handled + [Entry(database, command)], true))
  {
    var selected := frames + (if database != currentDatabase then [Select(database)] else []);
    var frames' := StepFrames(frames, currentDatabase, Append(database, command));
    assert frames' == selected + [Command(command)];
    assert frames'[..|frames'| - 1] == selected;
    assert Selected(selected, 0) == database by {
      if database == currentDatabase {
        assert selected == frames;
      }
    }
    if AllFramable(frames) {
      SelectedIsFramable(frames, 0);
    }
    assert database != currentDatabase ==> Select(database) in frames';
    if AllFramable(frames) && Framable(database) {
      if database != currentDatabase {
        ReplaySnoc(frames, Select(database), 0);
      } else {
        assert selected == frames;
      }
      ReplaySnoc(selected, Command(command), 0);
    }
  }

  lemma {:induction false} FramesOfRun(ops: seq<Op>)
    requires forall op :: op in ops ==> ValidOp(op)
    ensures InStep(Run(ops).currentDatabase, Frames(ops))
    ensures WellFramed(ops) <==> AllFramable(Frames(ops))
    ensures WellFramed(ops) ==> ReplayFrames(Frames(ops), 0) == Replay(Pending(ops), true)
  {
    if ops != [] {
      var before, last := ops[..|ops| - 1], ops[|ops| - 1];
      FramesOfRun(before);
      assert ValidOp(last);
      match last {
        case Append(database, command) =>
          StepAppend(Run(before).currentDatabase, Frames(before), database, command);
        case Cut =>
          var only := Select(Run(before).currentDatabase);
          assert only in Frames(ops);
          assert Frames(ops) == [] + [only];
          ReplaySnoc([], only, 0);
        case Reopen =>
      }
    }
  }

  /** Over every run of writes, truncations and reopenings: replay succeeds
      exactly when the run is well framed, and then it hands over exactly the
      (database, command) pairs written since the last truncation, in order. */
  lemma LogRoundTrip(ops: seq<Op>)
    requires forall op :: op in ops ==> ValidOp(op)
    ensures ReplayBytes(Run(ops).rw, 0).ok <==> WellFramed(ops)
    ensures WellFramed(ops) ==> ReplayBytes(Run(ops).rw, 0).handled == Pending(ops)
  {
    RunIsFrames(ops);
    ReplayRefinesFrames(Frames(ops), 0);
    FramesOfRun(ops);
    if !WellFramed(ops) {
      ReplayFailsOnBadFrame(Frames(ops), 0);
    }
  }

  /** A SELECT frame, not the first frame, that selects what is selected already. */
  ghost predicate Redundant(frames: seq<Frame>, i: nat) {
    0 < i < |frames| && frames[i].Select? && Selected(frames[..i], 0) == frames[i].database
  }

  /** While the file stays open, SELECT frames are written only on a change of database. */
  lemma {:induction false} SelectsOnlyOnChange(ops: seq<Op>)
    requires forall op :: op in ops ==> ValidOp(op) && !op.Reopen?
    ensures forall i :: !Redundant(Frames(ops), i)
  {
    if ops != [] {
      var before, last := ops[..|ops| - 1], ops[|ops| - 1];
      SelectsOnlyOnChange(before);
      FramesOfRun(before);
      OpenMeansSelected(before);
      assert ValidOp(last);
      var current := Run(before).currentDatabase;
      if last.Append? {
        if last.database != current {
          AddFrame(Frames(before), Select(last.database));
          AddFrame(Frames(before) + [Select(last.database)], Command(last.command));
        } else {
          assert Frames(before) + [] == Frames(before);
          AddFrame(Frames(before), Command(last.command));
        }
      }
    }
  }

  lemma AddFrame(frames: seq<Frame>, f: Frame)
    requires forall i :: !Redundant(frames, i)
    requires f.Select? && frames != [] ==> Selected(frames, 0) != f.database
    ensures forall i :: !Redundant(frames + [f], i)
  {
    forall i: nat | 0 < i <= |frames| ensures !Redundant(frames + [f], i) {
      assert (frames + [f])[..i] == frames[..i];
      if i < |frames| {
        assert !Redundant(frames, i);
      } else {
        assert frames[..i] == frames;
      }
    }
  }

  lemma {:induction false} OpenMeansSelected(ops: seq<Op>)
    requires forall op :: op in ops ==> ValidOp(op) && !op.Reopen?
    ensures Run(ops).currentDatabase == -1 ==> Frames(ops) == [] || Frames(ops) == [Select(-1)]
  {
    if ops != [] {
      OpenMeansSelected(ops[..|ops| - 1]);
      assert ValidOp(ops[|ops| - 1]);
    }
  }

  // ----- a truncation before the first write ----------------------------------------------

  lemma {:induction false} BadHeadStays(ops: seq<Op>, more: seq<Op>)
    requires Frames(ops) != [] && Frames(ops)[0] == Select(-1)
    requires Cut !in more
    ensures Frames(ops + more) != [] && Frames(ops + more)[0] == Select(-1)
  {
    if more == [] {
      assert ops + more == ops;
    } else {
      var last := |more| - 1;
      BadHeadStays(ops, more[..last]);
      assert (ops + more)[..|ops + more| - 1] == ops + more[..last];
      assert more[last] in more;
    }
  }

  /** Truncating while no database has been selected since opening puts an
      unreadable frame at the head of the file: until the next truncation,
      replay fails at once and hands over nothing of what is written. */
  lemma EarlyCutLosesTheLog(ops: seq<Op>, more: seq<Op>)
    requires forall op :: op in ops + more ==> ValidOp(op)
    requires Run(ops).currentDatabase == -1 && Cut !in more
    ensures ReplayBytes(Run(ops + [Cut] + more).rw, 0) == Replay([], false)
  {
    var cut := ops + [Cut];
    assert cut[..|ops|] == ops;
    assert Frames(cut) == [Select(-1)];
    BadHeadStays(cut, more);
    forall op | op in cut + more ensures ValidOp(op) {
      assert op in ops + more || op == Cut;
    }
    RunIsFrames(cut + more);
    ReplayRefinesFrames(Frames(cut + more), 0);
  }
}
