/** When a restore rebuilds what memory shows, for clients that SET, MSET, EXPIRE, PERSIST
    and DEL.  A SET keeps the expiry time of a key that is still in memory; an expired key
    leaves memory without a word in the log; and a time to live is counted from the clock
    of the replay.  So what the log makes of a key and what memory makes of it can part. */
module Overwrites {
  import opened Common
  import opened Database
  import opened Recovery
  import opened KeyHistories
  import AppendLog
  import Resp

  // ----- when memory and files part ----------------------------------------------------------

  /** What memory and the restore held when they last parted, and what has happened since. */
  datatype Fork = Fork(memory: Held, restored: Held, since: seq<KeyEvent>)

  function ForkAt(memory: Held, restored: Held): Option<Fork> {
    if memory == restored then None else Some(Fork(memory, restored, []))
  }

  function Extended(fork: Option<Fork>, event: KeyEvent): Option<Fork> {
    if fork.Some? then Some(fork.value.(since := fork.value.since + [event])) else None
  }

  /** How one more event moves the fork, when memory and the restore held these. */
  function ForkStep(clock: int, fork: Option<Fork>, memory: Held, restored: Held, event: KeyEvent): Option<Fork> {
    match event
    case Put(_) => Extended(fork, event)
    case Retime(_) => Extended(fork, event)
    case RetimeIn(_, now) =>
      if now == clock then Extended(fork, event)
      else ForkAt(After(memory, event), After(restored, Reclocked(clock, event)))
    case PutFor(_, _, now) =>
      if now == clock then None else ForkAt(After(memory, event), After(restored, Reclocked(clock, event)))
    case PutUntil(_, _) => None
    case Drop => None
    case Look(now) => if Visible(now, memory) == memory then fork else ForkAt(None, restored)
  }

  /** A restore at time `clock` replays the events over `base`, memory lived them from
      `start`.  They part over different beginnings, over an entry that memory drops on a
      read while the log still makes it, and over a time to live that is counted from
      another clock.  A DEL, or a SET until a time, brings them together again. */
  function ForkOf(clock: int, base: Held, start: Held, events: seq<KeyEvent>): Option<Fork> {
    if events == [] then ForkAt(start, base)
    else
      var before := events[..|events| - 1];
      ForkStep(clock, ForkOf(clock, base, start, before), Play(start, before), Play(base, Replayed(clock, before)),
               events[|events| - 1])
  }

  predicate Retimes(event: KeyEvent) {
    event.Retime? || event.RetimeIn?
  }

  predicate Resets(event: KeyEvent) {
    event.PutUntil? || event.PutFor? || event.Drop?
  }

  predicate HasPut(events: seq<KeyEvent>) {
    exists i | 0 <= i < |events| :: events[i].Put?
  }

  predicate HasReset(events: seq<KeyEvent>) {
    exists i | 0 <= i < |events| :: Resets(events[i])
  }

  /** An EXPIRE or PERSIST follows a SET. */
  predicate Settled(events: seq<KeyEvent>) {
    exists i, j | 0 <= i < j < |events| :: events[i].Put? && Retimes(events[j])
  }

  /** The expiry time that the events leave a key that had `expireAt`. */
  function TimeAfter(expireAt: Option<int>, events: seq<KeyEvent>): Option<int> {
    if events == [] then expireAt
    else
      match events[|events| - 1]
      case Retime(time) => time
      case RetimeIn(ttl, now) => Some(now + ttl)
      case _ => TimeAfter(expireAt, events[..|events| - 1])
  }

  predicate Passed(now: int, time: Option<int>) {
    time.Some? && time.value < now
  }

  /** A key that one side held and the other did not: a SET made it again and inherited an
      expiry time on one side only, with no EXPIRE or PERSIST to settle it; or there was
      no SET, and the side that holds it has not let it expire. */
  predicate OneSideShows(later: int, expireAt: Option<int>, since: seq<KeyEvent>) {
    var time := TimeAfter(expireAt, since);
    if HasPut(since) then !Settled(since) && time.Some? else !Passed(later, time)
  }

  /** A key that both sides held: their times still differ and have not both passed. */
  predicate TimesShow(later: int, one: Option<int>, other: Option<int>, since: seq<KeyEvent>) {
    var time, time' := TimeAfter(one, since), TimeAfter(other, since);
    time != time' && !(Passed(later, time) && Passed(later, time'))
  }

  predicate Shows(later: int, fork: Fork) {
    match (fork.memory, fork.restored)
    case (None, None) => false
    case (Some(data), None) => OneSideShows(later, data.expireAt, fork.since)
    case (None, Some(data)) => OneSideShows(later, data.expireAt, fork.since)
    case (Some(data), Some(data')) => TimesShow(later, data.expireAt, data'.expireAt, fork.since)
  }

  predicate KeyEndangered(later: int, base: Held, start: Held, events: seq<KeyEvent>) {
    var fork := ForkOf(later, base, start, events);
    fork.Some? && Shows(later, fork.value)
  }

  // ----- the fork is right ------------------------------------------------------------------------

  predicate Mild(event: KeyEvent) {
    event.Put? || Retimes(event)
  }

  ghost predicate AllMild(events: seq<KeyEvent>) {
    forall i :: 0 <= i < |events| ==> Mild(events[i])
  }

  /** Where both sides hold the key, they hold one value. */
  predicate Alike(one: Held, other: Held) {
    one.Some? && other.Some? ==> one.value.value == other.value.value
  }

  lemma {:induction false} AlikeAfter(clock: int, one: Held, other: Held, events: seq<KeyEvent>)
    requires Alike(one, other)
    ensures Alike(Play(one, events), Play(other, Replayed(clock, events)))
  {
    if events != [] {
      var before, last := events[..|events| - 1], events[|events| - 1];
      AlikeAfter(clock, one, other, before);
      if !last.Look? {
        PlayHappen(other, Replayed(clock, before), Some(Reclocked(clock, last)));
      }
    }
  }

  ghost predicate ForkTells(fork: Option<Fork>, memory: Held, restored: Held) {
    match fork
    case None => memory == restored
    case Some(f) =>
      && AllMild(f.since) && Alike(f.memory, f.restored)
      && memory == Play(f.memory, f.since) && restored == Play(f.restored, f.since)
  }

  lemma ForkExtends(fork: Option<Fork>, memory: Held, restored: Held, event: KeyEvent)
    requires Mild(event) && ForkTells(fork, memory, restored)
    ensures ForkTells(Extended(fork, event), After(memory, event), After(restored, event))
  {
    if fork.Some? {
      PlayHappen(fork.value.memory, fork.value.since, Some(event));
      PlayHappen(fork.value.restored, fork.value.since, Some(event));
    }
  }

  lemma ForkStepTells(clock: int, fork: Option<Fork>, memory: Held, restored: Held, event: KeyEvent)
    requires ForkTells(fork, memory, restored) && Alike(memory, restored)
    ensures ForkTells(ForkStep(clock, fork, memory, restored, event), After(memory, event),
                      if event.Look? then restored else After(restored, Reclocked(clock, event)))
  {
    if Mild(event) && Reclocked(clock, event) == event {
      ForkExtends(fork, memory, restored, event);
    }
  }

  lemma {:induction false} ForkIsRight(clock: int, base: Held, start: Held, events: seq<KeyEvent>)
    requires Alike(start, base)
    ensures ForkTells(ForkOf(clock, base, start, events), Play(start, events), Play(base, Replayed(clock, events)))
  {
    if events != [] {
      var before, last := events[..|events| - 1], events[|events| - 1];
      ForkIsRight(clock, base, start, before);
      AlikeAfter(clock, start, base, before);
      ForkStepTells(clock, ForkOf(clock, base, start, before), Play(start, before),
                    Play(base, Replayed(clock, before)), last);
      if !last.Look? {
        PlayHappen(base, Replayed(clock, before), Some(Reclocked(clock, last)));
      }
    }
  }

  lemma LastEvent(events: seq<KeyEvent>)
    requires events != []
    ensures var before, last := events[..|events| - 1], events[|events| - 1];
            && (HasPut(events) <==> HasPut(before) || last.Put?)
            && (HasReset(events) <==> HasReset(before) || Resets(last))
            && (Settled(events) <==> Settled(before) || (HasPut(before) && Retimes(last)))
  {
    var before, n := events[..|events| - 1], |events| - 1;
    if i :| 0 <= i < n && before[i].Put? {
      assert events[i].Put?;
      if Retimes(events[n]) {
        assert events[i].Put? && Retimes(events[n]);
      }
    }
    if i :| 0 <= i < n && Resets(before[i]) {
      assert Resets(events[i]);
    }
    if i, j :| 0 <= i < j < n && before[i].Put? && Retimes(before[j]) {
      assert events[i].Put? && Retimes(events[j]);
    }
  }

  /** SETs, EXPIREs and PERSISTs leave a key the last value that was set, or its own, and
      a present key the last time that was given, or its own. */
  lemma {:induction false} MildPlay(data: KeyData, events: seq<KeyEvent>)
    requires AllMild(events)
    ensures Play(Some(data), events).Some?
    ensures Play(Some(data), events).value.expireAt == TimeAfter(data.expireAt, events)
    ensures !HasPut(events) ==> Play(None, events) == None && Play(Some(data), events).value.value == data.value
    ensures HasPut(events) ==>
              && Play(None, events).Some?
              && Play(None, events).value.value == Play(Some(data), events).value.value
              && Play(None, events).value.expireAt ==
                 (if Settled(events) then TimeAfter(data.expireAt, events) else None)
  {
    if events != [] {
      assert Mild(events[|events| - 1]);
      MildPlay(data, events[..|events| - 1]);
      LastEvent(events);
    }
  }

  lemma {:induction false} AlikeTogether(one: Held, other: Held, events: seq<KeyEvent>)
    requires Alike(one, other)
    ensures Alike(Play(one, events), Play(other, events))
  {
    if events != [] {
      AlikeTogether(one, other, events[..|events| - 1]);
    }
  }

  lemma ShowsIff(later: int, fork: Fork)
    requires AllMild(fork.since) && Alike(fork.memory, fork.restored)
    ensures Shows(later, fork) <==>
            Visible(later, Play(fork.memory, fork.since)) != Visible(later, Play(fork.restored, fork.since))
  {
    AlikeTogether(fork.memory, fork.restored, fork.since);
    if fork.memory.Some? {
      MildPlay(fork.memory.value, fork.since);
    }
    if fork.restored.Some? {
      MildPlay(fork.restored.value, fork.since);
    }
  }

  /** What a reader sees of a key after a restore is what memory shows exactly when the
      key is not endangered, whatever the restore starts from. */
  lemma KeyRecoversIff(later: int, base: Held, start: Held, events: seq<KeyEvent>)
    requires Alike(start, base)
    ensures Visible(later, Play(base, Replayed(later, events))) == Visible(later, Play(start, events))
       <==> !KeyEndangered(later, base, start, events)
  {
    ForkIsRight(later, base, start, events);
    var fork := ForkOf(later, base, start, events);
    if fork.Some? {
      ShowsIff(later, fork.value);
    }
  }

  // ----- restores after runs ------------------------------------------------------------------------

  /** The run leaves the key in danger, should a restore come at time `later`. */
  predicate Endangers(parse: Parse, ops: seq<Op>, later: int, database: int, key: string) {
    var start := Start(parse, ops, database, key);
    KeyEndangered(later, Visible(later, start), start, History(parse, ops, database, key))
  }

  lemma KeyOfRunRecoversIff(parse: Parse, ops: seq<Op>, later: int, database: int, key: string)
    requires ValidOps(ops) && AppendLog.WellFramed(LogOps(ops)) && AllBefore(ops, later)
    ensures var e := Run(Applying(parse), ops);
            (Live(later, Recovered(Applying(parse), e, later), database, key) == Live(later, e.live, database, key)
             <==> !Endangers(parse, ops, later, database, key))
  {
    var start := Start(parse, ops, database, key);
    MemoryIsPlayed(parse, ops, database, key);
    RestoredKey(parse, ops, later, database, key);
    KeyRecoversIff(later, Visible(later, start), start, History(parse, ops, database, key));
  }

  /** After any run of commands, rewrites, restarts, crashes and reads of expired keys: a
      restore rebuilds the live state exactly when the run endangers no key. */
  lemma RunRecoversIff(parse: Parse, ops: seq<Op>, later: int)
    requires ValidOps(ops) && AppendLog.WellFramed(LogOps(ops)) && AllBefore(ops, later)
    ensures var e := Run(Applying(parse), ops);
            (SameLive(later, Recovered(Applying(parse), e, later), e.live)
             <==> forall d, k :: !Endangers(parse, ops, later, d, k))
  {
    var memory := Run(Applying(parse), ops).live;
    var restored := Recovered(Applying(parse), Run(Applying(parse), ops), later);
    forall d, k
      ensures Live(later, restored, d, k) == Live(later, memory, d, k) <==> !Endangers(parse, ops, later, d, k)
    {
      KeyOfRunRecoversIff(parse, ops, later, d, k);
    }
  }

  // ----- crashes inside a rewrite ---------------------------------------------------------------------

  /** The whole log replayed over the end that it led to.  If it resets the key, it does what
      it does over any beginning.  If not, a visible entry must have the last expiry time that
      the replay gives; and an entry that is gone must not be made again. */
  predicate WrittenEndangers(later: int, start: Held, events: seq<KeyEvent>) {
    var end, replayed := Play(start, events), Replayed(later, events);
    if HasReset(replayed) then KeyEndangered(later, Visible(later, start), start, events)
    else if Visible(later, end).Some? then TimeAfter(end.value.expireAt, replayed) != end.value.expireAt
    else HasPut(replayed) && !Passed(later, if Settled(replayed) then TimeAfter(None, replayed) else None)
  }

  lemma {:induction false} ResetForgets(one: Held, other: Held, events: seq<KeyEvent>)
    requires HasReset(events)
    ensures Play(one, events) == Play(other, events)
  {
    LastEvent(events);
    var before, last := events[..|events| - 1], events[|events| - 1];
    if HasReset(before) {
      ResetForgets(one, other, before);
    }
  }

  lemma {:induction false} ReplayedIsMild(now: int, events: seq<KeyEvent>)
    ensures forall i :: 0 <= i < |Replayed(now, events)| ==> !Replayed(now, events)[i].Look?
    ensures !HasReset(Replayed(now, events)) ==> AllMild(Replayed(now, events))
  {
    if events != [] {
      ReplayedIsMild(now, events[..|events| - 1]);
    }
  }

  lemma MildBefore(events: seq<KeyEvent>, last: KeyEvent)
    requires AllMild(events + [last])
    ensures AllMild(events) && Mild(last)
  {
    assert forall i :: 0 <= i < |events| ==> events[i] == (events + [last])[i];
    assert (events + [last])[|events|] == last;
  }

  /** The value in memory is the last one that the log sets. */
  lemma {:induction false} MemoryHasLastValue(now: int, start: Held, events: seq<KeyEvent>, data: KeyData)
    requires AllMild(Replayed(now, events)) && Play(start, events).Some?
    requires data.value == Play(start, events).value.value
    ensures Play(Some(data), Replayed(now, events)).Some?
    ensures Play(Some(data), Replayed(now, events)).value.value == data.value
  {
    if events != [] {
      var before, last := events[..|events| - 1], events[|events| - 1];
      if last.Look? {
        MemoryHasLastValue(now, start, before, data);
      } else {
        MildBefore(Replayed(now, before), Reclocked(now, last));
        PlayHappen(Some(data), Replayed(now, before), Some(Reclocked(now, last)));
        MildPlay(data, Replayed(now, before));
        if Retimes(last) {
          MemoryHasLastValue(now, start, before, data);
        }
      }
    }
  }

  lemma WrittenKeyIff(later: int, start: Held, events: seq<KeyEvent>)
    ensures var end := Play(start, events);
            (Visible(later, Play(Visible(later, end), Replayed(later, events))) == Visible(later, end)
             <==> !WrittenEndangers(later, start, events))
  {
    var end, replayed := Play(start, events), Replayed(later, events);
    if HasReset(replayed) {
      ResetForgets(Visible(later, end), Visible(later, start), replayed);
      KeyRecoversIff(later, Visible(later, start), start, events);
    } else {
      ReplayedIsMild(later, events);
      if Visible(later, end).Some? {
        MildPlay(end.value, replayed);
        MemoryHasLastValue(later, start, events, end.value);
      } else {
        MildPlay(KeyData(Value("", None), None), replayed);
      }
    }
  }

  /** A crash at this stage, and a restart at time `now`, endanger the key. */
  predicate CrashEndangers(parse: Parse, ops: seq<Op>, stage: Stage, now: int, database: int, key: string) {
    var start, events := Start(parse, ops, database, key), History(parse, ops, database, key);
    match stage
    case Emptied => KeyEndangered(now, None, start, events)
    case Written(_) => WrittenEndangers(now, start, events)
  }

  /** What a crash and a restart make of one key. */
  lemma CrashedKey(parse: Parse, ops: seq<Op>, stage: Stage, now: int, database: int, key: string)
    requires ValidOps(ops) && AppendLog.WellFramed(LogOps(ops)) && (stage.Written? ==> stage.at <= now)
    ensures var e := Run(Applying(parse), ops);
            var base := if stage.Emptied? then None else Visible(now, Lookup(e.live, database, key));
            Lookup(Step(Applying(parse), e, Crash(stage, now)).live, database, key) ==
            Play(base, Replayed(now, History(parse, ops, database, key)))
  {
    var live := Run(Applying(parse), ops).live;
    RestoreReplays(parse, ops, PreambleLeft(stage, live), now, database, key);
    LeftLookup(stage, now, live, database, key);
  }

  lemma KeyOfCrashRecoversIff(parse: Parse, ops: seq<Op>, stage: Stage, now: int, database: int, key: string)
    requires ValidOps(ops) && AppendLog.WellFramed(LogOps(ops)) && (stage.Written? ==> stage.at <= now)
    ensures var e := Run(Applying(parse), ops);
            (Live(now, Step(Applying(parse), e, Crash(stage, now)).live, database, key)
               == Live(now, e.live, database, key)
             <==> !CrashEndangers(parse, ops, stage, now, database, key))
  {
    var start, events := Start(parse, ops, database, key), History(parse, ops, database, key);
    MemoryIsPlayed(parse, ops, database, key);
    CrashedKey(parse, ops, stage, now, database, key);
    match stage
    case Emptied => KeyRecoversIff(now, None, start, events);
    case Written(_) => WrittenKeyIff(now, start, events);
  }

  /** After any run, a rewrite that dies with the preamble file emptied or written and the
      log not truncated, and a restart: the state that was live is live again exactly when
      no key is endangered by it. */
  lemma CrashRecoversIff(parse: Parse, ops: seq<Op>, stage: Stage, now: int)
    requires ValidOps(ops) && AppendLog.WellFramed(LogOps(ops)) && (stage.Written? ==> stage.at <= now)
    ensures var e := Run(Applying(parse), ops);
            (SameLive(now, Step(Applying(parse), e, Crash(stage, now)).live, e.live)
             <==> forall d, k :: !CrashEndangers(parse, ops, stage, now, d, k))
  {
    var memory := Run(Applying(parse), ops).live;
    var restored := Step(Applying(parse), Run(Applying(parse), ops), Crash(stage, now)).live;
    forall d, k
      ensures Live(now, restored, d, k) == Live(now, memory, d, k) <==> !CrashEndangers(parse, ops, stage, now, d, k)
    {
      KeyOfCrashRecoversIff(parse, ops, stage, now, d, k);
    }
  }

  // ----- clients that set no expiry times -------------------------------------------------------------

  ghost predicate NoExpiry(s: State) {
    forall d, k :: Lookup(s, d, k).Some? ==> Lookup(s, d, k).value.expireAt.None?
  }

  ghost predicate SetsAndDeletes(parse: Parse) {
    forall command :: parse(command).SetMany? || parse(command).DelMany?
  }

  lemma ExecuteNoExpiry(parse: Parse, now: int, s: State, entry: AppendLog.Entry)
    requires SetsAndDeletes(parse) && NoExpiry(s)
    ensures NoExpiry(Applying(parse)(now, s, entry.database, entry.command))
  {
    var s' := Applying(parse)(now, s, entry.database, entry.command);
    forall d, k | Lookup(s', d, k).Some? ensures Lookup(s', d, k).value.expireAt.None? {
      ExecuteLookup(parse, now, s, entry, d, k);
    }
  }

  lemma {:induction false} ReplayNoExpiry(parse: Parse, now: int, s: State, entries: seq<AppendLog.Entry>)
    requires SetsAndDeletes(parse) && NoExpiry(s)
    ensures NoExpiry(ReplayAll(Applying(parse), now, s, entries))
  {
    if entries != [] {
      var before, last := entries[..|entries| - 1], entries[|entries| - 1];
      ReplayNoExpiry(parse, now, s, before);
      ExecuteNoExpiry(parse, now, ReplayAll(Applying(parse), now, s, before), last);
    }
  }

  lemma FilteredNoExpiry(at: int, s: State, now: int)
    requires NoExpiry(s)
    ensures NoExpiry(BaseOf(Some(Filter(at, s)), now))
  {
    forall d, k ensures Lookup(Reloaded(now, Filter(at, s)), d, k) in {None, Lookup(s, d, k)} {
      ReloadedLookup(now, Filter(at, s), d, k);
      FilterLookup(at, s, d, k);
    }
  }

  lemma LeftNoExpiry(stage: Stage, s: State, now: int)
    requires NoExpiry(s)
    ensures NoExpiry(BaseOf(PreambleLeft(stage, s), now))
  {
    if stage.Written? {
      FilteredNoExpiry(stage.at, s, now);
    }
  }

  ghost predicate RunIsTimeless(e: EngineState) {
    NoExpiry(e.live) && forall now :: NoExpiry(BaseOf(e.preamble, now))
  }

  lemma StepNoExpiry(parse: Parse, e: EngineState, op: Op)
    requires SetsAndDeletes(parse) && RunIsTimeless(e)
    ensures RunIsTimeless(Step(Applying(parse), e, op))
  {
    var replayed := AppendLog.ReplayBytes(e.log.rw, 0).handled;
    match op
    case Execute(now, d, command) => ExecuteNoExpiry(parse, now, e.live, AppendLog.Entry(d, command));
    case Rewrite(at) =>
      forall now ensures NoExpiry(BaseOf(Some(Filter(at, e.live)), now)) {
        FilteredNoExpiry(at, e.live, now);
      }
    case Restart(now) => ReplayNoExpiry(parse, now, BaseOf(e.preamble, now), replayed);
    case Crash(stage, now) =>
      forall later ensures NoExpiry(BaseOf(PreambleLeft(stage, e.live), later)) {
        LeftNoExpiry(stage, e.live, later);
      }
      ReplayNoExpiry(parse, now, BaseOf(PreambleLeft(stage, e.live), now), replayed);
    case Forget(now, d, k) =>
      forall database, key
        ensures Lookup(Forgotten(now, e.live, d, k), database, key) in {None, Lookup(e.live, database, key)}
      {
        ForgottenLookup(now, e.live, d, k, database, key);
      }
  }

  lemma {:induction false} RunNoExpiry(parse: Parse, ops: seq<Op>)
    requires SetsAndDeletes(parse)
    ensures RunIsTimeless(Run(Applying(parse), ops))
  {
    if ops != [] {
      RunNoExpiry(parse, ops[..|ops| - 1]);
      StepNoExpiry(parse, Run(Applying(parse), ops[..|ops| - 1]), ops[|ops| - 1]);
    }
  }

  ghost predicate Timeless(start: Held, events: seq<KeyEvent>) {
    && (start.Some? ==> start.value.expireAt.None?)
    && forall i :: 0 <= i < |events| ==> events[i].Put? || events[i].Drop? || events[i].Look?
  }

  lemma {:induction false} TimelessKey(now: int, start: Held, events: seq<KeyEvent>)
    requires Timeless(start, events)
    ensures Play(start, events).Some? ==> Play(start, events).value.expireAt.None?
    ensures ForkOf(now, start, start, events).None?
    ensures Timeless(start, Replayed(now, events)) && TimeAfter(None, Replayed(now, events)).None?
    ensures Play(start, events).None? && HasPut(Replayed(now, events)) ==> HasReset(Replayed(now, events))
  {
    if events != [] {
      var before, last := events[..|events| - 1], events[|events| - 1];
      TimelessKey(now, start, before);
      if !last.Look? {
        assert Replayed(now, events)[..|Replayed(now, before)|] == Replayed(now, before);
        LastEvent(Replayed(now, events));
      }
    }
  }

  lemma {:induction false} TimelessRun(parse: Parse, ops: seq<Op>, database: int, key: string)
    requires SetsAndDeletes(parse)
    ensures Timeless(Start(parse, ops, database, key), History(parse, ops, database, key))
  {
    if ops != [] {
      var before, last := ops[..|ops| - 1], ops[|ops| - 1];
      var start, h := Start(parse, before, database, key), History(parse, before, database, key);
      TimelessRun(parse, before, database, key);
      RunNoExpiry(parse, before);
      match last
      case Restart(now) => TimelessKey(now, start, h);
      case Crash(stage, now) =>
        TimelessKey(now, start, h);
        LeftNoExpiry(stage, Run(Applying(parse), before).live, now);
      case _ =>
    }
  }

  /** Clients that SET, MSET and DEL only lose nothing, neither by a restart nor by a
      crash after the preamble is written. */
  lemma PlainWritesRecover(parse: Parse, ops: seq<Op>, at: int, now: int)
    requires SetsAndDeletes(parse)
    requires ValidOps(ops) && AppendLog.WellFramed(LogOps(ops)) && AllBefore(ops, now) && at <= now
    ensures var e := Run(Applying(parse), ops);
            && SameLive(now, Recovered(Applying(parse), e, now), e.live)
            && SameLive(now, Step(Applying(parse), e, Crash(Written(at), now)).live, e.live)
  {
    forall d, k
      ensures !Endangers(parse, ops, now, d, k) && !CrashEndangers(parse, ops, Written(at), now, d, k)
    {
      TimelessRun(parse, ops, d, k);
      TimelessKey(now, Start(parse, ops, d, k), History(parse, ops, d, k));
    }
    RunRecoversIff(parse, ops, now);
    CrashRecoversIff(parse, ops, Written(at), now);
  }
}
