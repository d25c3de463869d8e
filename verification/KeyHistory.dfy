/** Commands that write and expire keys, and the history of one key in a run of the
    engine: what has happened to it since the log in the file began, in memory and as
    logged. */
module KeyHistories {
  import opened Common
  import opened Database
  import opened Recovery
  import AppendLog

  /** SET and MSET; SET with EXAT or PXAT; SET with EX or PX; EXPIREAT and PEXPIREAT;
      EXPIRE and PEXPIRE; PERSIST; DEL. */
  datatype Write =
    | SetMany(entries: map<string, Value>)
    | SetUntil(key: string, value: Value, at: int)
    | SetFor(key: string, value: Value, ttl: int)
    | ExpireAt(key: string, at: int)
    | ExpireIn(key: string, ttl: int)
    | Persist(key: string)
    | DelMany(keys: set<string>)

  /** What a message asks for; the parsing of arguments is a parameter. */
  type Parse = string -> Write

  function Retimed(s: State, database: int, key: string, expireAt: Option<int>): State {
    match Lookup(s, database, key)
    case None => s
    case Some(data) => s[database := s[database][key := KeyData(data.value, expireAt)]]
  }

  function SetAll(keys: Keys, entries: map<string, Value>): Keys {
    keys + map k | k in entries :: KeyData(entries[k], if k in keys then keys[k].expireAt else None)
  }

  function SetKey(s: State, database: int, key: string, data: KeyData): State {
    s[database := Keyspace(s, database)[key := data]]
  }

  function ApplyWrite(now: int, s: State, database: int, w: Write): State {
    match w
    case SetMany(entries) => s[database := SetAll(Keyspace(s, database), entries)]
    case SetUntil(key, value, at) => SetKey(s, database, key, KeyData(value, Some(at)))
    case SetFor(key, value, ttl) => SetKey(s, database, key, KeyData(value, Some(now + ttl)))
    case ExpireAt(key, at) => Retimed(s, database, key, Some(at))
    case ExpireIn(key, ttl) => Retimed(s, database, key, Some(now + ttl))
    case Persist(key) => Retimed(s, database, key, None)
    case DelMany(deleted) => if database !in s then s else s[database := s[database] - deleted]
  }

  function Applying(parse: Parse): Apply {
    (now, s, database, command) => ApplyWrite(now, s, database, parse(command))
  }

  // ----- one key at a time ------------------------------------------------------------------

  /** What can happen to one key; the clock is that of the execution.  `Look` is a read
      that finds the key expired or not; it is the only event that is not logged. */
  datatype KeyEvent =
    | Put(value: Value)
    | PutUntil(value: Value, at: int)
    | PutFor(value: Value, ttl: int, now: int)
    | Retime(expireAt: Option<int>)
    | RetimeIn(ttl: int, now: int)
    | Drop
    | Look(now: int)

  /** What is held for a key, in memory or by a restore. */
  type Held = Option<KeyData>

  function Visible(now: int, e: Held): Held {
    if e.Some? && Expired(now, e.value) then None else e
  }

  function WithTime(e: Held, expireAt: Option<int>): Held {
    if e.Some? then Some(KeyData(e.value.value, expireAt)) else None
  }

  function After(e: Held, event: KeyEvent): Held {
    match event
    case Put(value) => Some(KeyData(value, if e.Some? then e.value.expireAt else None))
    case PutUntil(value, at) => Some(KeyData(value, Some(at)))
    case PutFor(value, ttl, now) => Some(KeyData(value, Some(now + ttl)))
    case Retime(expireAt) => WithTime(e, expireAt)
    case RetimeIn(ttl, now) => WithTime(e, Some(now + ttl))
    case Drop => None
    case Look(now) => Visible(now, e)
  }

  function Play(e: Held, events: seq<KeyEvent>): Held {
    if events == [] then e else After(Play(e, events[..|events| - 1]), events[|events| - 1])
  }

  /** What a write at time `now` means for one key of its database. */
  function Touch(now: int, w: Write, key: string): Option<KeyEvent> {
    match w
    case SetMany(entries) => if key in entries then Some(Put(entries[key])) else None
    case SetUntil(k, value, at) => if key == k then Some(PutUntil(value, at)) else None
    case SetFor(k, value, ttl) => if key == k then Some(PutFor(value, ttl, now)) else None
    case ExpireAt(k, at) => if key == k then Some(Retime(Some(at))) else None
    case ExpireIn(k, ttl) => if key == k then Some(RetimeIn(ttl, now)) else None
    case Persist(k) => if key == k then Some(Retime(None)) else None
    case DelMany(deleted) => if key in deleted then Some(Drop) else None
  }

  function Happen(events: seq<KeyEvent>, event: Option<KeyEvent>): seq<KeyEvent> {
    if event.Some? then events + [event.value] else events
  }

  function TouchIn(parse: Parse, now: int, entry: AppendLog.Entry, database: int, key: string): Option<KeyEvent> {
    if entry.database == database then Touch(now, parse(entry.command), key) else None
  }

  /** The events that a replay at time `now` makes. */
  function LoggedEvents(parse: Parse, now: int, entries: seq<AppendLog.Entry>, database: int, key: string)
    : seq<KeyEvent>
  {
    if entries == [] then []
    else Happen(LoggedEvents(parse, now, entries[..|entries| - 1], database, key),
                TouchIn(parse, now, entries[|entries| - 1], database, key))
  }

  lemma PlayHappen(e: Held, events: seq<KeyEvent>, event: Option<KeyEvent>)
    ensures Play(e, Happen(events, event)) ==
            if event.Some? then After(Play(e, events), event.value) else Play(e, events)
  {
    if event.Some? {
      assert (events + [event.value])[..|events|] == events;
    }
  }

  lemma WriteLookup(now: int, s: State, d: int, w: Write, database: int, key: string)
    ensures Lookup(ApplyWrite(now, s, d, w), database, key) ==
            if d == database && Touch(now, w, key).Some? then After(Lookup(s, d, key), Touch(now, w, key).value)
            else Lookup(s, database, key)
  {
    var keys := Keyspace(s, d);
    match w
    case SetMany(entries) =>
      assert key in SetAll(keys, entries) <==> key in keys || key in entries;
    case _ =>
  }

  /** The same, write by write: what the key that is named holds afterwards. */
  lemma WriteEffects(now: int, s: State, d: int, w: Write, key: string)
    ensures var was, held := Lookup(s, d, key), Lookup(ApplyWrite(now, s, d, w), d, key);
            && (w.SetMany? && key in w.entries ==>
                  held == Some(KeyData(w.entries[key], if was.Some? then was.value.expireAt else None)))
            && (w.SetUntil? && w.key == key ==> held == Some(KeyData(w.value, Some(w.at))))
            && (w.SetFor? && w.key == key ==> held == Some(KeyData(w.value, Some(now + w.ttl))))
            && (w.ExpireAt? && w.key == key ==>
                  held == if was.Some? then Some(KeyData(was.value.value, Some(w.at))) else None)
            && (w.ExpireIn? && w.key == key ==>
                  held == if was.Some? then Some(KeyData(was.value.value, Some(now + w.ttl))) else None)
            && (w.Persist? && w.key == key ==>
                  held == if was.Some? then Some(KeyData(was.value.value, None)) else None)
            && (w.DelMany? && key in w.keys ==> held == None)
            && (((w.SetMany? && key !in w.entries) || (w.DelMany? && key !in w.keys)
                 || (!w.SetMany? && !w.DelMany? && w.key != key)) ==> held == was)
    ensures forall other, k :: other != d ==> Lookup(ApplyWrite(now, s, d, w), other, k) == Lookup(s, other, k)
  {
    WriteLookup(now, s, d, w, d, key);
    forall other, k | other != d ensures Lookup(ApplyWrite(now, s, d, w), other, k) == Lookup(s, other, k) {
      WriteLookup(now, s, d, w, other, k);
    }
  }

  lemma ExecuteLookup(parse: Parse, now: int, s: State, entry: AppendLog.Entry, database: int, key: string)
    ensures var before, event := Lookup(s, database, key), TouchIn(parse, now, entry, database, key);
            Lookup(Applying(parse)(now, s, entry.database, entry.command), database, key) ==
            if event.Some? then After(before, event.value) else before
  {
    WriteLookup(now, s, entry.database, parse(entry.command), database, key);
  }

  /** Replay, seen from one key. */
  lemma {:induction false} ReplayIsPlay(parse: Parse, now: int, s: State, entries: seq<AppendLog.Entry>,
                                        database: int, key: string)
    ensures Lookup(ReplayAll(Applying(parse), now, s, entries), database, key) ==
            Play(Lookup(s, database, key), LoggedEvents(parse, now, entries, database, key))
  {
    if entries != [] {
      var before, last := entries[..|entries| - 1], entries[|entries| - 1];
      ReplayIsPlay(parse, now, s, before, database, key);
      ExecuteLookup(parse, now, ReplayAll(Applying(parse), now, s, before), last, database, key);
      PlayHappen(Lookup(s, database, key), LoggedEvents(parse, now, before, database, key),
                 TouchIn(parse, now, last, database, key));
    }
  }

  // ----- the history of a key in a run ---------------------------------------------------------

  /** A relative time is read off the clock of the replay. */
  function Reclocked(now: int, event: KeyEvent): KeyEvent {
    match event
    case PutFor(value, ttl, _) => PutFor(value, ttl, now)
    case RetimeIn(ttl, _) => RetimeIn(ttl, now)
    case _ => event
  }

  /** What a replay at time `now` makes of the events: the reads are not in the log. */
  function Replayed(now: int, events: seq<KeyEvent>): seq<KeyEvent> {
    if events == [] then []
    else
      var before, last := Replayed(now, events[..|events| - 1]), events[|events| - 1];
      if last.Look? then before else before + [Reclocked(now, last)]
  }

  /** The entry that the log now in the file started from, as memory held it: at the
      last rewrite, or as the last restart loaded it. */
  function Start(parse: Parse, ops: seq<Op>, database: int, key: string): Held {
    if ops == [] then None
    else
      var before := ops[..|ops| - 1];
      var e := Run(Applying(parse), before);
      match ops[|ops| - 1]
      case Rewrite(_) => Lookup(e.live, database, key)
      case Restart(now) => Lookup(BaseOf(e.preamble, now), database, key)
      case Crash(stage, now) => Lookup(BaseOf(PreambleLeft(stage, e.live), now), database, key)
      case _ => Start(parse, before, database, key)
  }

  /** What has happened to the key since; a restart knows what was logged only. */
  function History(parse: Parse, ops: seq<Op>, database: int, key: string): seq<KeyEvent> {
    if ops == [] then []
    else HistoryStep(parse, History(parse, ops[..|ops| - 1], database, key), ops[|ops| - 1], database, key)
  }

  function HistoryStep(parse: Parse, h: seq<KeyEvent>, op: Op, database: int, key: string): seq<KeyEvent> {
    match op
    case Execute(now, d, command) => Happen(h, TouchIn(parse, now, AppendLog.Entry(d, command), database, key))
    case Forget(now, d, k) => Happen(h, LookIn(now, d, k, database, key))
    case Rewrite(_) => []
    case Restart(now) => Replayed(now, h)
    case Crash(_, now) => Replayed(now, h)
  }

  function LookIn(now: int, d: int, k: string, database: int, key: string): Option<KeyEvent> {
    if d == database && k == key then Some(Look(now)) else None
  }

  lemma {:induction false} ReplayedTwice(now: int, was: int, events: seq<KeyEvent>)
    ensures Replayed(now, Replayed(was, events)) == Replayed(now, events)
  {
    if events != [] {
      var before, last := events[..|events| - 1], events[|events| - 1];
      ReplayedTwice(now, was, before);
      if !last.Look? {
        var replayed := Replayed(was, before);
        assert (replayed + [Reclocked(was, last)])[..|replayed|] == replayed;
      }
    }
  }

  lemma ReplayedHappen(now: int, events: seq<KeyEvent>, event: Option<KeyEvent>)
    ensures event.None? ==> Replayed(now, Happen(events, event)) == Replayed(now, events)
    ensures event.Some? && event.value.Look? ==> Replayed(now, Happen(events, event)) == Replayed(now, events)
    ensures event.Some? && !event.value.Look? ==>
              Replayed(now, Happen(events, event)) == Replayed(now, events) + [Reclocked(now, event.value)]
  {
    if event.Some? {
      assert (events + [event.value])[..|events|] == events;
    }
  }

  function PendingStep(pending: seq<AppendLog.Entry>, op: Op): seq<AppendLog.Entry> {
    match op
    case Execute(_, database, command) => pending + [AppendLog.Entry(database, command)]
    case Rewrite(_) => []
    case _ => pending
  }

  lemma PendingOf(ops: seq<Op>)
    requires ops != []
    ensures AppendLog.Pending(LogOps(ops)) == PendingStep(AppendLog.Pending(LogOps(ops[..|ops| - 1])), ops[|ops| - 1])
  {
    var logOps, last := LogOps(ops[..|ops| - 1]), ops[|ops| - 1];
    assert LogOps(ops) == logOps + LogOp(last);
    if last.Forget? {
      assert logOps + [] == logOps;
    } else {
      PendingLastOp(logOps, LogOp(last)[0]);
    }
  }

  lemma PendingLastOp(logOps: seq<AppendLog.Op>, op: AppendLog.Op)
    ensures AppendLog.Pending(logOps + [op]) ==
            match op
            case Append(database, command) => AppendLog.Pending(logOps) + [AppendLog.Entry(database, command)]
            case Cut => []
            case Reopen => AppendLog.Pending(logOps)
  {
    assert (logOps + [op])[..|logOps|] == logOps;
  }

  lemma LoggedEventsLast(parse: Parse, now: int, entries: seq<AppendLog.Entry>, entry: AppendLog.Entry,
                         database: int, key: string)
    ensures LoggedEvents(parse, now, entries + [entry], database, key) ==
            Happen(LoggedEvents(parse, now, entries, database, key), TouchIn(parse, now, entry, database, key))
  {
    assert (entries + [entry])[..|entries|] == entries;
  }

  lemma TouchReclocked(parse: Parse, now: int, was: int, entry: AppendLog.Entry, database: int, key: string)
    ensures var event, event' := TouchIn(parse, was, entry, database, key), TouchIn(parse, now, entry, database, key);
            && (event.None? <==> event'.None?)
            && (event.Some? ==> !event.value.Look? && event'.value == Reclocked(now, event.value))
  {
  }

  lemma StepHoldsHistory(parse: Parse, now: int, pending: seq<AppendLog.Entry>, h: seq<KeyEvent>, op: Op,
                         database: int, key: string)
    requires LoggedEvents(parse, now, pending, database, key) == Replayed(now, h)
    ensures LoggedEvents(parse, now, PendingStep(pending, op), database, key) ==
            Replayed(now, HistoryStep(parse, h, op, database, key))
  {
    match op
    case Execute(was, d, command) =>
      var entry := AppendLog.Entry(d, command);
      LoggedEventsLast(parse, now, pending, entry, database, key);
      TouchReclocked(parse, now, was, entry, database, key);
      ReplayedHappen(now, h, TouchIn(parse, was, entry, database, key));
    case Rewrite(_) =>
    case Restart(was) => ReplayedTwice(now, was, h);
    case Crash(_, was) => ReplayedTwice(now, was, h);
    case Forget(was, d, k) => ReplayedHappen(now, h, LookIn(was, d, k, database, key));
  }

  /** The log in the file holds what a replay makes of the history. */
  lemma {:induction false} FileHoldsHistory(parse: Parse, now: int, ops: seq<Op>, database: int, key: string)
    ensures LoggedEvents(parse, now, AppendLog.Pending(LogOps(ops)), database, key) ==
            Replayed(now, History(parse, ops, database, key))
  {
    if ops != [] {
      var before, last := ops[..|ops| - 1], ops[|ops| - 1];
      FileHoldsHistory(parse, now, before, database, key);
      PendingOf(ops);
      StepHoldsHistory(parse, now, AppendLog.Pending(LogOps(before)), History(parse, before, database, key), last,
                       database, key);
    }
  }

  lemma FramedBeforeOp(logOps: seq<AppendLog.Op>, op: AppendLog.Op)
    requires !op.Cut? && AppendLog.WellFramed(logOps + [op])
    ensures AppendLog.WellFramed(logOps)
  {
    assert (logOps + [op])[..|logOps|] == logOps;
  }

  lemma OneLogOp(op: Op)
    requires !op.Rewrite?
    ensures LogOp(op) == if op.Forget? then [] else [LogOp(op)[0]]
    ensures !op.Forget? ==> !LogOp(op)[0].Cut?
  {
  }

  lemma FramedBefore(ops: seq<Op>)
    requires ops != [] && !ops[|ops| - 1].Rewrite? && AppendLog.WellFramed(LogOps(ops))
    ensures AppendLog.WellFramed(LogOps(ops[..|ops| - 1]))
  {
    var logOps, op := LogOps(ops[..|ops| - 1]), ops[|ops| - 1];
    OneLogOp(op);
    if op.Forget? {
      assert LogOps(ops) == logOps + [] == logOps;
    } else {
      assert LogOps(ops) == logOps + [LogOp(op)[0]];
      FramedBeforeOp(logOps, LogOp(op)[0]);
    }
  }

  /** A restore from whatever preamble and the log of the run. */
  lemma RestoreReplays(parse: Parse, ops: seq<Op>, preamble: Option<State>, now: int, database: int, key: string)
    requires ValidOps(ops) && AppendLog.WellFramed(LogOps(ops))
    ensures Lookup(Recovered(Applying(parse), Run(Applying(parse), ops).(preamble := preamble), now), database, key) ==
            Play(Lookup(BaseOf(preamble, now), database, key), Replayed(now, History(parse, ops, database, key)))
  {
    LogOfRun(Applying(parse), ops);
    AppendLog.LogRoundTrip(LogOps(ops));
    ReplayIsPlay(parse, now, BaseOf(preamble, now), AppendLog.Pending(LogOps(ops)), database, key);
    FileHoldsHistory(parse, now, ops, database, key);
  }

  /** Memory is the start and the history. */
  lemma {:induction false} MemoryIsPlayed(parse: Parse, ops: seq<Op>, database: int, key: string)
    requires ValidOps(ops) && AppendLog.WellFramed(LogOps(ops))
    ensures Lookup(Run(Applying(parse), ops).live, database, key) ==
            Play(Start(parse, ops, database, key), History(parse, ops, database, key))
  {
    if ops != [] && !ops[|ops| - 1].Rewrite? {
      var before, last := ops[..|ops| - 1], ops[|ops| - 1];
      RunLast(Applying(parse), ops);
      FramedBefore(ops);
      if last.Restart? || last.Crash? {
        StepIsRestored(parse, before, last, database, key);
      } else {
        MemoryIsPlayed(parse, before, database, key);
        StepIsPlayed(parse, before, last, database, key);
      }
    }
  }

  lemma StepIsRestored(parse: Parse, ops: seq<Op>, last: Op, database: int, key: string)
    requires ValidOps(ops) && AppendLog.WellFramed(LogOps(ops)) && (last.Restart? || last.Crash?)
    ensures var e := Run(Applying(parse), ops);
            var preamble := if last.Crash? then PreambleLeft(last.stage, e.live) else e.preamble;
            Lookup(Step(Applying(parse), e, last).live, database, key) ==
            Play(Lookup(BaseOf(preamble, last.now), database, key),
                 HistoryStep(parse, History(parse, ops, database, key), last, database, key))
  {
    var e := Run(Applying(parse), ops);
    RestoreReplays(parse, ops, if last.Crash? then PreambleLeft(last.stage, e.live) else e.preamble, last.now,
                   database, key);
  }

  lemma StepIsPlayed(parse: Parse, ops: seq<Op>, last: Op, database: int, key: string)
    requires last.Execute? || last.Forget?
    requires Lookup(Run(Applying(parse), ops).live, database, key) ==
             Play(Start(parse, ops, database, key), History(parse, ops, database, key))
    ensures Lookup(Step(Applying(parse), Run(Applying(parse), ops), last).live, database, key) ==
            Play(Start(parse, ops, database, key),
                 HistoryStep(parse, History(parse, ops, database, key), last, database, key))
  {
    var live := Run(Applying(parse), ops).live;
    var start, h := Start(parse, ops, database, key), History(parse, ops, database, key);
    match last
    case Execute(now, d, command) =>
      ExecuteLookup(parse, now, live, AppendLog.Entry(d, command), database, key);
      PlayHappen(start, h, TouchIn(parse, now, AppendLog.Entry(d, command), database, key));
    case Forget(now, d, k) =>
      ForgottenLookup(now, live, d, k, database, key);
      PlayHappen(start, h, LookIn(now, d, k, database, key));
  }

  lemma ForgottenLookup(now: int, s: State, d: int, k: string, database: int, key: string)
    ensures Lookup(Forgotten(now, s, d, k), database, key) ==
            if d == database && k == key then Visible(now, Lookup(s, database, key)) else Lookup(s, database, key)
  {
  }

  lemma ReloadedLookup(now: int, s: State, database: int, key: string)
    ensures Lookup(Reloaded(now, s), database, key) == Visible(now, Lookup(s, database, key))
  {
    LoadLookup(map[], Filter(now, s), database, key);
    FilterLookup(now, s, database, key);
  }

  lemma BaseLookup(now: int, later: int, s: State, database: int, key: string)
    requires now <= later
    ensures Lookup(Reloaded(later, Filter(now, s)), database, key) == Visible(later, Lookup(s, database, key))
  {
    FilterIsInvisible(now, later, s);
    LoadLookup(map[], Filter(later, s), database, key);
    FilterLookup(later, s, database, key);
  }

  lemma LeftLookup(stage: Stage, now: int, s: State, database: int, key: string)
    requires stage.Written? ==> stage.at <= now
    ensures Lookup(BaseOf(PreambleLeft(stage, s), now), database, key) ==
            if stage.Emptied? then None else Visible(now, Lookup(s, database, key))
  {
    if stage.Written? {
      BaseLookup(stage.at, now, s, database, key);
    }
  }

  lemma BaseLater(preamble: Option<State>, now: int, later: int, database: int, key: string)
    requires now <= later
    ensures Lookup(BaseOf(preamble, later), database, key) ==
            Visible(later, Lookup(BaseOf(preamble, now), database, key))
  {
    if preamble.Some? {
      ReloadedLookup(now, preamble.value, database, key);
      ReloadedLookup(later, preamble.value, database, key);
    }
  }

  /** A restore starts from the start, without what has expired. */
  lemma {:induction false} RestoreStarts(parse: Parse, ops: seq<Op>, later: int, database: int, key: string)
    requires AllBefore(ops, later)
    ensures Lookup(BaseOf(Run(Applying(parse), ops).preamble, later), database, key) ==
            Visible(later, Start(parse, ops, database, key))
  {
    if ops != [] {
      var before, last := ops[..|ops| - 1], ops[|ops| - 1];
      var e := Run(Applying(parse), before);
      RunLast(Applying(parse), ops);
      match last
      case Rewrite(now) => BaseLookup(now, later, e.live, database, key);
      case Restart(now) => BaseLater(e.preamble, now, later, database, key);
      case Crash(stage, now) => BaseLater(PreambleLeft(stage, e.live), now, later, database, key);
      case _ => RestoreStarts(parse, before, later, database, key);
    }
  }

  /** What a restore makes of one key. */
  lemma RestoredKey(parse: Parse, ops: seq<Op>, later: int, database: int, key: string)
    requires ValidOps(ops) && AppendLog.WellFramed(LogOps(ops)) && AllBefore(ops, later)
    ensures Lookup(Recovered(Applying(parse), Run(Applying(parse), ops), later), database, key) ==
            Play(Visible(later, Start(parse, ops, database, key)),
                 Replayed(later, History(parse, ops, database, key)))
  {
    RestoreReplays(parse, ops, Run(Applying(parse), ops).preamble, later, database, key);
    RestoreStarts(parse, ops, later, database, key);
  }
}
