/** The append-only-file engine as a protocol: execute and log, rewrite, restart, crash.
    The effect of a command on the data is a parameter, `apply`. */
module Recovery {
  import opened Common
  import opened Database
  import AppendLog

  /** Of the clock, the state, the database and the command. */
  type Apply = (int, State, int, string) -> State

  /** Whether the handler returns an error; it may have changed the state before that. */
  type Fails = (int, State, int, string) -> bool

  /** A restore replays with its own clock. */
  function ReplayAll(apply: Apply, now: int, s: State, entries: seq<AppendLog.Entry>): State {
    if entries == [] then s
    else
      var last := entries[|entries| - 1];
      apply(now, ReplayAll(apply, now, s, entries[..|entries| - 1]), last.database, last.command)
  }

  /** What is in memory and what is on disk.  An empty preamble file is `None`;
      a written one holds a state (its JSON encoding is taken to be lossless). */
  datatype EngineState = EngineState(live: State, preamble: Option<State>, log: AppendLog.LogState)

  function BaseOf(preamble: Option<State>, now: int): State {
    match preamble
    case None => map[]
    case Some(stored) => Reloaded(now, stored)
  }

  /** The state that a restore at time `now` builds in an empty server. */
  function Recovered(apply: Apply, e: EngineState, now: int): State {
    ReplayAll(apply, now, BaseOf(e.preamble, now), AppendLog.ReplayBytes(e.log.rw, 0).handled)
  }

  /** How far a rewrite came before the process died: the preamble file was emptied,
      or the state as of time `at` was written to it; the log was not yet truncated. */
  datatype Stage = Emptied | Written(at: int)

  datatype Op =
    | Execute(now: int, database: int, command: string)
    | Rewrite(now: int)
    | Restart(now: int)
    // A rewrite dies half-way, and the process is restarted.
    | Crash(stage: Stage, now: int)
    // A key found to have expired is deleted from memory, and nothing is logged.
    | Forget(now: int, database: int, key: string)

  /** What the operation does to the log. */
  function LogOp(op: Op): seq<AppendLog.Op> {
    match op
    case Execute(_, database, command) => [AppendLog.Append(database, command)]
    case Rewrite(_) => [AppendLog.Cut]
    case Restart(_) => [AppendLog.Reopen]
    case Crash(_, _) => [AppendLog.Reopen]
    case Forget(_, _, _) => []
  }

  function Forgotten(now: int, s: State, database: int, key: string): State {
    match Lookup(s, database, key)
    case None => s
    case Some(data) => if Expired(now, data) then s[database := s[database] - {key}] else s
  }

  function PreambleLeft(stage: Stage, live: State): Option<State> {
    match stage
    case Emptied => None
    case Written(at) => Some(Filter(at, live))
  }

  /** What memory held, and the files as a rewrite leaves them that dies at this stage. */
  function Crashed(e: EngineState, stage: Stage): EngineState {
    e.(preamble := PreambleLeft(stage, e.live))
  }

  function Restarted(apply: Apply, e: EngineState, now: int): EngineState {
    EngineState(Recovered(apply, e, now), e.preamble, AppendLog.Step(e.log, AppendLog.Reopen))
  }

  function Step(apply: Apply, e: EngineState, op: Op): EngineState {
    match op
    case Execute(now, database, command) =>
      EngineState(apply(now, e.live, database, command), e.preamble,
                  AppendLog.Step(e.log, AppendLog.Append(database, command)))
    case Rewrite(now) => EngineState(e.live, Some(Filter(now, e.live)), AppendLog.Step(e.log, AppendLog.Cut))
    case Restart(now) => Restarted(apply, e, now)
    case Crash(stage, now) => Restarted(apply, Crashed(e, stage), now)
    case Forget(now, database, key) => e.(live := Forgotten(now, e.live, database, key))
  }

  // ----- the engine ---------------------------------------------------------------------

  /** The part of the server that the engine calls back. */
  class Server {
    var state: State
    const apply: Apply
    const fails: Fails

    constructor (apply: Apply, fails: Fails)
      ensures state == map[] && this.apply == apply && this.fails == fails
    {
      state := map[];
      this.apply := apply;
      this.fails := fails;
    }

    method SetKeyData(database: int, key: string, data: KeyData)
      modifies this
      ensures state == Load(old(state), Single(database, map[key := data]))
    {
      if database !in state {
        state := state[database := map[]];
      }
      state := state[database := state[database][key := data]];
      assert key in map[key := data];
      LoadSingle(old(state), database, map[key := data]);
      assert state[database] == Keyspace(old(state), database) + map[key := data];
    }

    method HandleCommand(now: int, database: int, command: string) returns (ok: bool)
      modifies this
      ensures state == apply(now, old(state), database, command)
      ensures ok == !fails(now, old(state), database, command)
    {
      ok := !fails(now, state, database, command);
      state := apply(now, state, database, command);
    }
  }

  class PreambleStore {
    var rw: Option<State>

    constructor (content: Option<State>)
      ensures rw == content
    {
      rw := content;
    }

    /** The file is emptied and then written; a process that dies in between leaves it empty. */
    method CreatePreamble(server: Server, now: int, dies: bool)
      modifies this
      ensures rw == PreambleLeft(if dies then Emptied else Written(now), server.state)
    {
      var state := FilterExpiredKeys(now, server.state);
      rw := None;
      if dies {
        return;
      }
      rw := Some(state);
    }

    method Restore(server: Server, now: int)
      modifies server
      ensures server.state == match rw
                              case None => old(server.state)
                              case Some(stored) => Load(old(server.state), Filter(now, stored))
    {
      if rw.Some? {
        var state := FilterExpiredKeys(now, rw.value);
        RestoreDatabases(server, state);
      }
    }

    static method RestoreDatabases(server: Server, state: State)
      modifies server
      ensures server.state == Load(old(server.state), state)
    {
      ghost var start := server.state;
      var databases := RangeOrder(state.Keys);
      ghost var done: State := map[];
      LoadEmpty(start, done);
      for i := 0 to |databases|
        invariant done.Keys == set j | 0 <= j < i :: databases[j]
        invariant forall d | d in done :: done[d] == state[d]
        invariant server.state == Load(start, done)
      {
        var d := databases[i];
        RestoreDatabase(server, d, state[d]);
        LoadOneMoreDatabase(start, done, d, state[d]);
        done := done[d := state[d]];
      }
      forall d | d in state ensures d in done {
        assert d in databases;
      }
      forall d ensures EqualAt(done, state, d) {
      }
      MapsEqual(done, state);
    }

    static method RestoreDatabase(server: Server, database: int, data: Keys)
      modifies server
      ensures server.state == Load(old(server.state), Single(database, data))
    {
      var keys := RangeOrder(data.Keys);
      ghost var start := server.state;
      ghost var done: Keys := map[];
      LoadEmpty(start, Single(database, done));
      for i := 0 to |keys|
        invariant done.Keys == set j | 0 <= j < i :: keys[j]
        invariant forall k | k in done :: done[k] == data[k]
        invariant server.state == Load(start, Single(database, done))
      {
        var k := keys[i];
        server.SetKeyData(database, k, data[k]);
        LoadOneMoreKey(start, database, done, k, data[k]);
        done := done[k := data[k]];
      }
      assert done == data;
    }
  }

  class Engine {
    const server: Server
    const preambleStore: PreambleStore
    const appendStore: AppendLog.Store

    /** Opens the files with the given contents; nothing is restored yet. */
    constructor Open(apply: Apply, fails: Fails, preamble: Option<State>, log: string)
      ensures fresh(server) && fresh(preambleStore) && fresh(appendStore)
      ensures server.apply == apply && server.fails == fails
      ensures View() == EngineState(map[], preamble, AppendLog.LogState(log, -1))
    {
      server := new Server(apply, fails);
      preambleStore := new PreambleStore(preamble);
      appendStore := new AppendLog.Store(log);
    }

    function View(): EngineState
      reads server, preambleStore, appendStore
    {
      EngineState(server.state, preambleStore.rw, appendStore.State())
    }

    method LogCommand(database: int, command: string)
      modifies appendStore
      ensures appendStore.State() == AppendLog.Step(old(appendStore.State()), AppendLog.Append(database, command))
    {
      appendStore.Write(database, command);
    }

    /** A write command: its handler runs, then the message is logged, unless it failed. */
    method HandleWrite(now: int, database: int, command: string) returns (ok: bool)
      modifies server, appendStore
      ensures ok == !server.fails(now, old(server.state), database, command)
      ensures var executed := Step(server.apply, old(View()), Execute(now, database, command));
              View() == if ok then executed else executed.(log := old(View()).log)
    {
      ok := server.HandleCommand(now, database, command);
      if ok {
        LogCommand(database, command);
      }
    }

    method RewriteLog(now: int)
      modifies preambleStore, appendStore
      ensures View() == Step(server.apply, old(View()), Rewrite(now))
    {
      preambleStore.CreatePreamble(server, now, false);
      appendStore.Truncate();
    }

    /** The same, but the process dies before the log is truncated. */
    method DieInRewrite(stage: Stage)
      modifies preambleStore
      ensures View() == Crashed(old(View()), stage)
    {
      match stage
      case Emptied => preambleStore.CreatePreamble(server, 0, true);
      case Written(at) => preambleStore.CreatePreamble(server, at, false);
    }

    /** Restores into the server as it stands: at start-up, an empty one. */
    method Restore(now: int) returns (ok: bool)
      modifies server
      ensures ok == AppendLog.ReplayBytes(appendStore.rw, 0).ok
      ensures old(server.state) == map[] ==> server.state == Recovered(server.apply, old(View()), now)
    {
      ghost var start := server.state;
      preambleStore.Restore(server, now);
      ghost var base := server.state;
      if start == map[] && preambleStore.rw.None? {
        assert base == map[];
      }
      var handled;
      handled, ok := appendStore.Restore();
      for i := 0 to |handled|
        invariant server.state == ReplayAll(server.apply, now, base, handled[..i])
      {
        var _ := server.HandleCommand(now, handled[i].database, handled[i].command);
        assert handled[..i + 1][..i] == handled[..i];
      }
      assert handled[..|handled|] == handled;
    }
  }

  /** The process ends, and a new one opens the same files and restores them. */
  method RestartEngine(was: Engine, now: int) returns (next: Engine, ok: bool)
    ensures fresh(next) && next.server.apply == was.server.apply && next.server.fails == was.server.fails
    ensures next.View() == Restarted(was.server.apply, was.View(), now)
    ensures ok == AppendLog.ReplayBytes(was.appendStore.rw, 0).ok
  {
    next := new Engine.Open(was.server.apply, was.server.fails, was.preambleStore.rw, was.appendStore.rw);
    ok := next.Restore(now);
  }

  /** A rewrite that dies at some stage, and the restart after it. */
  method CrashEngine(was: Engine, stage: Stage, now: int) returns (next: Engine, ok: bool)
    modifies was.preambleStore
    ensures fresh(next) && next.server.apply == was.server.apply
    ensures next.View() == Step(was.server.apply, old(was.View()), Crash(stage, now))
    ensures ok == AppendLog.ReplayBytes(was.appendStore.rw, 0).ok
  {
    was.DieInRewrite(stage);
    next, ok := RestartEngine(was, now);
  }

  const INITIAL: EngineState := EngineState(map[], None, AppendLog.FRESH)

  function Run(apply: Apply, ops: seq<Op>): EngineState {
    if ops == [] then INITIAL else Step(apply, Run(apply, ops[..|ops| - 1]), ops[|ops| - 1])
  }

  function LogOps(ops: seq<Op>): seq<AppendLog.Op> {
    if ops == [] then [] else LogOps(ops[..|ops| - 1]) + LogOp(ops[|ops| - 1])
  }

  ghost predicate ValidOps(ops: seq<Op>) {
    forall op :: op in LogOps(ops) ==> AppendLog.ValidOp(op)
  }

  /** Nothing happens after time `now`. */
  ghost predicate AllBefore(ops: seq<Op>, now: int) {
    forall op: Op :: op in ops ==> op.now <= now
  }

  /** `apply` cannot tell an expired key from an absent one, nor one time from another. */
  ghost predicate Blind(apply: Apply) {
    forall clock, clock', now, s, s', database, command ::
      SameLive(now, s, s') ==>
        SameLive(now, apply(clock, s, database, command), apply(clock', s', database, command))
  }

  // ----- recovery refines the live state ---------------------------------------------------

  lemma LogRunStep(log: AppendLog.LogState, logOps: seq<AppendLog.Op>, op: AppendLog.Op)
    requires log == AppendLog.Run(logOps)
    ensures AppendLog.Step(log, op) == AppendLog.Run(logOps + [op])
  {
    assert (logOps + [op])[..|logOps|] == logOps;
  }

  lemma LogOfStep(apply: Apply, e: EngineState, logOps: seq<AppendLog.Op>, op: Op)
    requires e.log == AppendLog.Run(logOps)
    ensures Step(apply, e, op).log == AppendLog.Run(logOps + LogOp(op))
  {
    if op.Forget? {
      assert logOps + [] == logOps;
    } else {
      LogRunStep(e.log, logOps, LogOp(op)[0]);
    }
  }

  lemma {:induction false} LogOfRun(apply: Apply, ops: seq<Op>)
    ensures Run(apply, ops).log == AppendLog.Run(LogOps(ops))
  {
    if ops != [] {
      var before, last := ops[..|ops| - 1], ops[|ops| - 1];
      LogOfRun(apply, before);
      LogOfStep(apply, Run(apply, before), LogOps(before), last);
    }
  }

  lemma {:induction false} ReplayAllBlind(apply: Apply, clock: int, clock': int, now: int, s: State, s': State,
                                          entries: seq<AppendLog.Entry>)
    requires Blind(apply) && SameLive(now, s, s')
    ensures SameLive(now, ReplayAll(apply, clock, s, entries), ReplayAll(apply, clock', s', entries))
  {
    if entries != [] {
      ReplayAllBlind(apply, clock, clock', now, s, s', entries[..|entries| - 1]);
    }
  }

  /** A later restore of the same files differs only in keys that have expired since. */
  lemma RecoveredLater(apply: Apply, e: EngineState, now: int, later: int)
    requires Blind(apply) && now <= later
    ensures SameLive(later, Recovered(apply, e, now), Recovered(apply, e, later))
  {
    if e.preamble.Some? {
      ReloadedIsInvisible(now, later, e.preamble.value);
      ReloadedIsInvisible(later, later, e.preamble.value);
    }
    ReplayAllBlind(apply, now, later, later, BaseOf(e.preamble, now), BaseOf(e.preamble, later),
                   AppendLog.ReplayBytes(e.log.rw, 0).handled);
  }

  lemma RewriteRecovers(apply: Apply, live: State, now: int, later: int)
    requires now <= later
    ensures SameLive(later, BaseOf(Some(Filter(now, live)), later), live)
  {
    FilterIsInvisible(now, later, live);
    ReloadedIsInvisible(later, later, Filter(now, live));
  }

  lemma RunLast(apply: Apply, ops: seq<Op>)
    requires ops != []
    ensures forall now :: AllBefore(ops, now) ==> AllBefore(ops[..|ops| - 1], now)
    ensures ValidOps(ops) ==> ValidOps(ops[..|ops| - 1])
    ensures forall now :: AllBefore(ops, now) ==> ops[|ops| - 1].now <= now
  {
    assert forall op :: op in LogOps(ops[..|ops| - 1]) ==> op in LogOps(ops);
    assert ops[|ops| - 1] in ops;
  }

  lemma ExecuteRecovers(apply: Apply, ops: seq<Op>)
    requires ops != [] && ops[|ops| - 1].Execute? && ValidOps(ops)
    requires AppendLog.WellFramed(LogOps(ops))
    ensures forall later ::
              Recovered(apply, Run(apply, ops), later) ==
              apply(later, Recovered(apply, Run(apply, ops[..|ops| - 1]), later),
                    ops[|ops| - 1].database, ops[|ops| - 1].command)
  {
    var before, last := ops[..|ops| - 1], ops[|ops| - 1];
    var entry := AppendLog.Entry(last.database, last.command);
    RunLast(apply, ops);
    LogOfRun(apply, ops);
    LogOfRun(apply, before);
    PendingLast(LogOps(before), entry);
    AppendLog.LogRoundTrip(LogOps(ops));
    AppendLog.LogRoundTrip(LogOps(before));
    forall later {
      ReplayAllLast(apply, later, BaseOf(Run(apply, before).preamble, later), AppendLog.Pending(LogOps(before)), entry);
    }
  }

  lemma PendingLast(logOps: seq<AppendLog.Op>, entry: AppendLog.Entry)
    ensures var more := logOps + [AppendLog.Append(entry.database, entry.command)];
            && AppendLog.Pending(more) == AppendLog.Pending(logOps) + [entry]
            && (AppendLog.WellFramed(more) ==> AppendLog.WellFramed(logOps))
  {
    assert (logOps + [AppendLog.Append(entry.database, entry.command)])[..|logOps|] == logOps;
  }

  lemma ReplayAllLast(apply: Apply, now: int, s: State, entries: seq<AppendLog.Entry>, entry: AppendLog.Entry)
    ensures ReplayAll(apply, now, s, entries + [entry]) ==
            apply(now, ReplayAll(apply, now, s, entries), entry.database, entry.command)
  {
    assert (entries + [entry])[..|entries|] == entries;
  }

  /** Whatever is executed, rewritten, restarted and crashed, in whatever order: if the
      log is well framed at the end, a restore at any later time rebuilds the live
      state, up to the keys that have expired by then. */
  lemma {:induction false} RecoveryRefinesLiveState(apply: Apply, ops: seq<Op>, later: int)
    requires Blind(apply) && ValidOps(ops) && AllBefore(ops, later)
    requires AppendLog.WellFramed(LogOps(ops))
    ensures AppendLog.ReplayBytes(Run(apply, ops).log.rw, 0).ok
    ensures SameLive(later, Recovered(apply, Run(apply, ops), later), Run(apply, ops).live)
  {
    LogOfRun(apply, ops);
    AppendLog.LogRoundTrip(LogOps(ops));
    if ops != [] {
      var before, last := ops[..|ops| - 1], ops[|ops| - 1];
      RunLast(apply, ops);
      match last
      case Execute(now, database, command) =>
        PendingLast(LogOps(before), AppendLog.Entry(database, command));
        RecoveryRefinesLiveState(apply, before, later);
        ExecuteRecovers(apply, ops);
      case Rewrite(now) =>
        assert LogOps(ops)[|LogOps(ops)| - 1] == AppendLog.Cut;
        assert AppendLog.Pending(LogOps(ops)) == [];
        RewriteRecovers(apply, Run(apply, before).live, now, later);
      case Restart(now) =>
        RecoveredLater(apply, Run(apply, before), now, later);
        RestartKeepsFiles(apply, Run(apply, before), now, later);
      case Crash(stage, now) =>
        RecoveredLater(apply, Crashed(Run(apply, before), stage), now, later);
        RestartKeepsFiles(apply, Crashed(Run(apply, before), stage), now, later);
      case Forget(now, database, key) =>
        assert LogOps(ops) == LogOps(before);
        RecoveryRefinesLiveState(apply, before, later);
        ForgottenIsInvisible(now, later, Run(apply, before).live, database, key);
    }
  }

  lemma ForgottenIsInvisible(now: int, later: int, s: State, database: int, key: string)
    requires now <= later
    ensures SameLive(later, Forgotten(now, s, database, key), s)
  {
    var s' := Forgotten(now, s, database, key);
    forall d, k ensures Live(later, s', d, k) == Live(later, s, d, k) {
      if d == database && k == key {
      } else if d in s {
        assert k in Keyspace(s', d) <==> k in Keyspace(s, d);
      }
    }
  }

  lemma RestartKeepsFiles(apply: Apply, e: EngineState, now: int, later: int)
    ensures Recovered(apply, Restarted(apply, e, now), later) == Recovered(apply, e, later)
  {
  }
}
