/** Runs of a few steps after which a restore does not rebuild what memory showed. */
module BadRuns {
  import opened Common
  import opened Database
  import opened Recovery
  import opened KeyHistories
  import opened Overwrites
  import AppendLog
  import Resp

  // ----- short runs in database 0 ---------------------------------------------------------------

  ghost predicate Asks(parse: Parse, message: string, w: Write) {
    AppendLog.Loggable(message) && parse(message) == w
  }

  /** Messages that ask for any two writes can be had. */
  lemma CanAsk(one: Write, other: Write) returns (parse: Parse, first: string, second: string)
    ensures Asks(parse, first, one) && Asks(parse, second, other)
  {
    first, second := Resp.Encode(["A"]), Resp.Encode(["B"]);
    AppendLog.EncodedIsLoggable(["A"]);
    AppendLog.EncodedIsLoggable(["B"]);
    assert "A"[0] != "B"[0] && ["A"][0] != ["B"][0];
    if first == second {
      Resp.EncodePrefixFree(["A"], ["B"], [], []);
    }
    parse := message => if message == first then one else other;
  }

  function Set(key: string, value: Value): Write {
    SetMany(map[key := value])
  }

  /** What the lemmas below need to know about a run. */
  ghost predicate Reaches(parse: Parse, ops: seq<Op>, key: string, start: Held, events: seq<KeyEvent>) {
    && ValidOps(ops) && AppendLog.WellFramed(LogOps(ops))
    && AppendLog.Run(LogOps(ops)).currentDatabase == 0
    && Start(parse, ops, 0, key) == start
    && History(parse, ops, 0, key) == events
  }

  lemma AddOp(parse: Parse, ops: seq<Op>, op: Op, key: string)
    ensures Run(Applying(parse), ops + [op]) == Step(Applying(parse), Run(Applying(parse), ops), op)
    ensures History(parse, ops + [op], 0, key) == HistoryStep(parse, History(parse, ops, 0, key), op, 0, key)
    ensures op.Rewrite? ==> Start(parse, ops + [op], 0, key) == Lookup(Run(Applying(parse), ops).live, 0, key)
    ensures op.Execute? || op.Forget? ==> Start(parse, ops + [op], 0, key) == Start(parse, ops, 0, key)
  {
    assert (ops + [op])[..|ops|] == ops;
  }

  lemma AddFramed(ops: seq<Op>, op: Op)
    requires ValidOps(ops) && AppendLog.WellFramed(LogOps(ops)) && !op.Restart? && !op.Crash?
    requires op.Execute? ==> op.database == 0 && AppendLog.Loggable(op.command)
    requires op.Rewrite? ==> AppendLog.Run(LogOps(ops)).currentDatabase == 0
    ensures ValidOps(ops + [op]) && AppendLog.WellFramed(LogOps(ops + [op]))
    ensures op.Execute? ==> AppendLog.Run(LogOps(ops + [op])).currentDatabase == 0
    ensures !op.Execute? ==>
              AppendLog.Run(LogOps(ops + [op])).currentDatabase == AppendLog.Run(LogOps(ops)).currentDatabase
  {
    assert (ops + [op])[..|ops|] == ops;
    assert LogOps(ops + [op]) == LogOps(ops) + LogOp(op);
    if op.Forget? {
      assert LogOps(ops) + [] == LogOps(ops);
    } else {
      assert (LogOps(ops) + LogOp(op))[..|LogOps(ops)|] == LogOps(ops);
    }
  }

  lemma FirstWrite(parse: Parse, now: int, message: string, w: Write, key: string)
    requires Asks(parse, message, w) && Touch(now, w, key).Some?
    ensures Reaches(parse, [Execute(now, 0, message)], key, None, [Touch(now, w, key).value])
  {
    assert [] + [Execute(now, 0, message)] == [Execute(now, 0, message)];
    AddFramed([], Execute(now, 0, message));
    AddOp(parse, [], Execute(now, 0, message), key);
    assert [] + [Touch(now, w, key).value] == [Touch(now, w, key).value];
  }

  lemma ThenWrite(parse: Parse, ops: seq<Op>, key: string, start: Held, events: seq<KeyEvent>,
                  now: int, message: string, w: Write)
    requires Reaches(parse, ops, key, start, events) && Asks(parse, message, w) && Touch(now, w, key).Some?
    ensures Reaches(parse, ops + [Execute(now, 0, message)], key, start, events + [Touch(now, w, key).value])
  {
    AddFramed(ops, Execute(now, 0, message));
    AddOp(parse, ops, Execute(now, 0, message), key);
  }

  lemma ThenLook(parse: Parse, ops: seq<Op>, key: string, start: Held, events: seq<KeyEvent>, now: int)
    requires Reaches(parse, ops, key, start, events)
    ensures Reaches(parse, ops + [Forget(now, 0, key)], key, start, events + [Look(now)])
  {
    AddFramed(ops, Forget(now, 0, key));
    AddOp(parse, ops, Forget(now, 0, key), key);
  }

  lemma ThenRewrite(parse: Parse, ops: seq<Op>, key: string, start: Held, events: seq<KeyEvent>, now: int)
    requires Reaches(parse, ops, key, start, events)
    ensures Reaches(parse, ops + [Rewrite(now)], key, Play(start, events), [])
  {
    MemoryIsPlayed(parse, ops, 0, key);
    AddFramed(ops, Rewrite(now));
    AddOp(parse, ops, Rewrite(now), key);
  }

  /** What memory and a restore show of a key after a run. */
  lemma Shown(parse: Parse, ops: seq<Op>, key: string, start: Held, events: seq<KeyEvent>, later: int)
    requires Reaches(parse, ops, key, start, events) && AllBefore(ops, later)
    ensures Live(later, Run(Applying(parse), ops).live, 0, key) == Visible(later, Play(start, events))
    ensures Live(later, Recovered(Applying(parse), Run(Applying(parse), ops), later), 0, key) ==
            Visible(later, Play(Visible(later, start), Replayed(later, events)))
    ensures Endangers(parse, ops, later, 0, key) <==>
            Visible(later, Play(start, events)) != Visible(later, Play(Visible(later, start), Replayed(later, events)))
  {
    MemoryIsPlayed(parse, ops, 0, key);
    RestoredKey(parse, ops, later, 0, key);
    KeyRecoversIff(later, Visible(later, start), start, events);
  }

  /** The same after one write more. */
  lemma ShownAfterWrite(parse: Parse, ops: seq<Op>, key: string, start: Held, events: seq<KeyEvent>,
                        now: int, message: string, w: Write, later: int)
    requires Reaches(parse, ops, key, start, events) && AllBefore(ops, later) && now <= later
    requires Asks(parse, message, w) && Touch(now, w, key).Some?
    ensures var all, h := ops + [Execute(now, 0, message)], events + [Touch(now, w, key).value];
            var memory, restored := Play(start, h), Play(Visible(later, start), Replayed(later, h));
            && Live(later, Run(Applying(parse), all).live, 0, key) == Visible(later, memory)
            && Live(later, Recovered(Applying(parse), Run(Applying(parse), all), later), 0, key)
               == Visible(later, restored)
            && (Endangers(parse, all, later, 0, key) <==> Visible(later, memory) != Visible(later, restored))
  {
    ThenWrite(parse, ops, key, start, events, now, message, w);
    Shown(parse, ops + [Execute(now, 0, message)], key, start, events + [Touch(now, w, key).value], later);
  }

  // ----- restarts ------------------------------------------------------------------------------------

  lemma PlayedTwo(e: Held, one: KeyEvent, other: KeyEvent)
    ensures Play(e, [one]) == After(e, one)
    ensures Play(e, [one] + [other]) == After(After(e, one), other)
  {
    assert [one][..0] == [] && ([one] + [other])[..1] == [one];
  }

  lemma ReplayedTwo(now: int, one: KeyEvent, other: KeyEvent)
    ensures !one.Look? ==> Replayed(now, [one]) == [Reclocked(now, one)]
    ensures !one.Look? && !other.Look? ==>
              Replayed(now, [one] + [other]) == [Reclocked(now, one)] + [Reclocked(now, other)]
    ensures one.Look? && !other.Look? ==> Replayed(now, [one] + [other]) == [Reclocked(now, other)]
  {
    assert [one][..0] == [] && ([one] + [other])[..1] == [one];
    assert one.Look? ==> Replayed(now, [one]) == [] && [] + [Reclocked(now, other)] == [Reclocked(now, other)];
  }

  /** After any run that ends with the rewrite of an entry: when it has expired, one SET
      endangers the key.  Memory goes on hiding it, a restore brings it back. */
  lemma SetAfterExpiry(parse: Parse, ops: seq<Op>, key: string, data: KeyData,
                       now: int, message: string, value: Value, later: int)
    requires Reaches(parse, ops, key, Some(data), []) && AllBefore(ops, later)
    requires Expired(later, data) && now <= later && Asks(parse, message, Set(key, value))
    ensures var all := ops + [Execute(now, 0, message)];
            && Endangers(parse, all, later, 0, key)
            && Live(later, Run(Applying(parse), all).live, 0, key) == None
            && Live(later, Recovered(Applying(parse), Run(Applying(parse), all), later), 0, key)
               == Some(KeyData(value, None))
  {
    ShownAfterWrite(parse, ops, key, Some(data), [], now, message, Set(key, value), later);
    assert [] + [Put(value)] == [Put(value)];
    PlayedTwo(Some(data), Put(value), Drop);
    PlayedTwo(None, Put(value), Drop);
    ReplayedTwo(later, Put(value), Drop);
  }

  /** With a read of the expired key before the SET, memory has forgotten the expiry
      time too, and the key is safe. */
  lemma ReadBeforeSetRescues(parse: Parse, ops: seq<Op>, key: string, data: KeyData, read: int,
                             now: int, message: string, value: Value, later: int)
    requires Reaches(parse, ops, key, Some(data), []) && AllBefore(ops, later)
    requires Expired(read, data) && read <= now <= later && Asks(parse, message, Set(key, value))
    ensures !Endangers(parse, ops + [Forget(read, 0, key)] + [Execute(now, 0, message)], later, 0, key)
  {
    var looked := ops + [Forget(read, 0, key)];
    ThenLook(parse, ops, key, Some(data), [], read);
    assert [] + [Look(read)] == [Look(read)];
    ShownAfterWrite(parse, looked, key, Some(data), [Look(read)], now, message, Set(key, value), later);
    LookedAndSet(later, data, read, value);
  }

  lemma LookedAndSet(later: int, data: KeyData, read: int, value: Value)
    requires Expired(read, data) && read <= later
    ensures var h := [Look(read)] + [Put(value)];
            Play(Some(data), h) == Play(Visible(later, Some(data)), Replayed(later, h)) == Some(KeyData(value, None))
  {
    PlayedTwo(Some(data), Look(read), Put(value));
    ReplayedTwo(later, Look(read), Put(value));
    PlayedTwo(None, Put(value), Drop);
  }

  /** But while the log still makes the expired entry, after such a read the SET is lost
      by a restore, although it was logged. */
  lemma SetAfterReadIsLost(parse: Parse, ops: seq<Op>, key: string, was: Value, at: int, read: int,
                           now: int, message: string, value: Value, later: int)
    requires Reaches(parse, ops, key, None, [PutUntil(was, at)]) && AllBefore(ops, later)
    requires at < read <= now <= later && Asks(parse, message, Set(key, value))
    ensures var all := ops + [Forget(read, 0, key)] + [Execute(now, 0, message)];
            && Endangers(parse, all, later, 0, key)
            && Live(later, Run(Applying(parse), all).live, 0, key) == Some(KeyData(value, None))
            && Live(later, Recovered(Applying(parse), Run(Applying(parse), all), later), 0, key) == None
  {
    var looked := ops + [Forget(read, 0, key)];
    ThenLook(parse, ops, key, None, [PutUntil(was, at)], read);
    ShownAfterWrite(parse, looked, key, None, [PutUntil(was, at)] + [Look(read)],
                    now, message, Set(key, value), later);
    LookedAndLost(later, PutUntil(was, at), read, value);
  }

  lemma LookedAndLost(later: int, until: KeyEvent, read: int, value: Value)
    requires until.PutUntil? && until.at < read
    ensures var h := [until] + [Look(read)] + [Put(value)];
            && Play(None, h) == Some(KeyData(value, None))
            && Play(None, Replayed(later, h)) == Some(KeyData(value, Some(until.at)))
  {
    var h := [until] + [Look(read)] + [Put(value)];
    assert h[..2] == [until] + [Look(read)] && ([until] + [Look(read)])[..1] == [until];
    PlayedTwo(None, until, Look(read));
    ReplayedTwo(later, until, Drop);
    assert Replayed(later, h) == [until] + [Put(value)];
    PlayedTwo(None, until, Put(value));
  }

  /** A time to live starts anew with every restore: after any run that ends with a SET for
      `ttl`, the key is in danger unless it is restored at that very moment, or both times
      have passed. */
  lemma TimeToLiveIff(parse: Parse, ops: seq<Op>, key: string, start: Held, events: seq<KeyEvent>,
                      now: int, message: string, value: Value, ttl: int, later: int)
    requires Reaches(parse, ops, key, start, events) && AllBefore(ops, later)
    requires now <= later && Asks(parse, message, SetFor(key, value, ttl))
    ensures var all := ops + [Execute(now, 0, message)];
            && (Endangers(parse, all, later, 0, key) <==> now != later && 0 <= ttl)
            && Live(later, Run(Applying(parse), all).live, 0, key)
               == Visible(later, Some(KeyData(value, Some(now + ttl))))
            && Live(later, Recovered(Applying(parse), Run(Applying(parse), all), later), 0, key)
               == Visible(later, Some(KeyData(value, Some(later + ttl))))
  {
    PlayedFor(start, events, value, ttl, now, later);
    TwoClocks(value, ttl, now, later);
    ShownAfterWrite(parse, ops, key, start, events, now, message, SetFor(key, value, ttl), later);
  }

  lemma TwoClocks(value: Value, ttl: int, now: int, later: int)
    requires now <= later
    ensures Visible(later, Some(KeyData(value, Some(now + ttl)))) !=
            Visible(later, Some(KeyData(value, Some(later + ttl))))
       <==> now != later && 0 <= ttl
  {
  }

  lemma PlayedFor(start: Held, events: seq<KeyEvent>, value: Value, ttl: int, now: int, later: int)
    ensures var h := events + [PutFor(value, ttl, now)];
            && Play(start, h) == Some(KeyData(value, Some(now + ttl)))
            && Play(Visible(later, start), Replayed(later, h)) == Some(KeyData(value, Some(later + ttl)))
  {
    var event := PutFor(value, ttl, now);
    PlayHappen(start, events, Some(event));
    PlayHappen(Visible(later, start), Replayed(later, events), Some(Reclocked(later, event)));
    ReplayedHappen(later, events, Some(event));
  }

  // ----- crashes --------------------------------------------------------------------------------------

  /** What memory held and what is there after a crash and a restart. */
  lemma ShownAfterCrash(parse: Parse, ops: seq<Op>, key: string, start: Held, events: seq<KeyEvent>,
                        stage: Stage, now: int)
    requires Reaches(parse, ops, key, start, events) && (stage.Written? ==> stage.at <= now)
    ensures var e := Run(Applying(parse), ops);
            var base := if stage.Emptied? then None else Visible(now, Play(start, events));
            && Live(now, e.live, 0, key) == Visible(now, Play(start, events))
            && Live(now, Step(Applying(parse), e, Crash(stage, now)).live, 0, key) ==
               Visible(now, Play(base, Replayed(now, events)))
  {
    MemoryIsPlayed(parse, ops, 0, key);
    CrashedKey(parse, ops, stage, now, 0, key);
  }

  /** After any run that ends with the rewrite of an entry, a rewrite that dies with the
      preamble file emptied loses it: the log no longer makes it. */
  lemma EmptiedPreambleLoses(parse: Parse, ops: seq<Op>, key: string, data: KeyData, now: int)
    requires Reaches(parse, ops, key, Some(data), []) && !Expired(now, data)
    ensures var e := Run(Applying(parse), ops);
            && CrashEndangers(parse, ops, Emptied, now, 0, key)
            && Live(now, e.live, 0, key) == Some(data)
            && Live(now, Step(Applying(parse), e, Crash(Emptied, now)).live, 0, key) == None
  {
    ShownAfterCrash(parse, ops, key, Some(data), [], Emptied, now);
    KeyOfCrashRecoversIff(parse, ops, Emptied, now, 0, key);
  }

  lemma RetimedAndSet(now: int, at: int, value: Value)
    ensures var h := [Retime(Some(at))] + [Put(value)];
            && Play(None, h) == Some(KeyData(value, None)) && Replayed(now, h) == h
            && Play(Play(None, h), h) == Some(KeyData(value, Some(at)))
  {
    PlayedTwo(None, Retime(Some(at)), Put(value));
    PlayedTwo(Some(KeyData(value, None)), Retime(Some(at)), Put(value));
    ReplayedTwo(now, Retime(Some(at)), Put(value));
  }

  /** EXPIREAT of an absent key does nothing but is logged.  After a SET of the key a restart
      is right, but a rewrite that dies before it truncates the log makes a replay find the
      key there, and gives it the expiry time. */
  lemma ExpireBeforeSetReturns(parse: Parse, ops: seq<Op>, key: string, at: int,
                               sent: int, message: string, value: Value, written: int, now: int)
    requires Reaches(parse, ops, key, None, [Retime(Some(at))]) && AllBefore(ops, now)
    requires Asks(parse, message, Set(key, value)) && sent <= now && written <= now
    ensures var all := ops + [Execute(sent, 0, message)];
            var e := Run(Applying(parse), all);
            && !Endangers(parse, all, now, 0, key)
            && CrashEndangers(parse, all, Written(written), now, 0, key)
            && Live(now, e.live, 0, key) == Some(KeyData(value, None))
            && Live(now, Step(Applying(parse), e, Crash(Written(written), now)).live, 0, key)
               == Visible(now, Some(KeyData(value, Some(at))))
  {
    var all, h := ops + [Execute(sent, 0, message)], [Retime(Some(at))] + [Put(value)];
    ThenWrite(parse, ops, key, None, [Retime(Some(at))], sent, message, Set(key, value));
    RetimedAndSet(now, at, value);
    Shown(parse, all, key, None, h, now);
    ShownAfterCrash(parse, all, key, None, h, Written(written), now);
    KeyOfCrashRecoversIff(parse, all, Written(written), now, 0, key);
  }

  // ----- from the empty server on ------------------------------------------------------------------------

  lemma SetAndRewritten(parse: Parse, first: string, w: Write, key: string, data: KeyData, sent: int, now: int)
    requires Asks(parse, first, w) && Touch(sent, w, key).Some?
    requires After(None, Touch(sent, w, key).value) == Some(data)
    ensures Reaches(parse, [Execute(sent, 0, first)] + [Rewrite(now)], key, Some(data), [])
  {
    var event := Touch(sent, w, key).value;
    FirstWrite(parse, sent, first, w, key);
    ThenRewrite(parse, [Execute(sent, 0, first)], key, None, [event], now);
    PlayedTwo(None, event, Drop);
  }

  /** A SET until `at`, a rewrite before it or a read after it, and a SET: a restore
      differs from memory, one way and the other. */
  lemma BadRestarts(key: string, was: Value, value: Value, at: int, now: int, later: int)
    returns (parse: Parse, first: string, second: string)
    requires now <= at < later
    ensures Asks(parse, first, SetUntil(key, was, at)) && Asks(parse, second, Set(key, value))
    ensures var ops := [Execute(now, 0, first)] + [Rewrite(now)] + [Execute(later, 0, second)];
            && Live(later, Run(Applying(parse), ops).live, 0, key) == None
            && !SameLive(later, Recovered(Applying(parse), Run(Applying(parse), ops), later),
                         Run(Applying(parse), ops).live)
    ensures var ops := [Execute(now, 0, first)] + [Forget(later, 0, key)] + [Execute(later, 0, second)];
            && Live(later, Run(Applying(parse), ops).live, 0, key) == Some(KeyData(value, None))
            && !SameLive(later, Recovered(Applying(parse), Run(Applying(parse), ops), later),
                         Run(Applying(parse), ops).live)
  {
    parse, first, second := CanAsk(SetUntil(key, was, at), Set(key, value));
    var one, data := [Execute(now, 0, first)], KeyData(was, Some(at));
    SetAndRewritten(parse, first, SetUntil(key, was, at), key, data, now, now);
    SetAfterExpiry(parse, one + [Rewrite(now)], key, data, later, second, value, later);
    FirstWrite(parse, now, first, SetUntil(key, was, at), key);
    SetAfterReadIsLost(parse, one, key, was, at, later, later, second, value, later);
  }

  /** A SET and a rewrite, and another rewrite that dies with the preamble emptied. */
  lemma BadCrashEmptied(key: string, value: Value, now: int) returns (parse: Parse, message: string)
    ensures Asks(parse, message, Set(key, value))
    ensures var e := Run(Applying(parse), [Execute(now, 0, message)] + [Rewrite(now)]);
            !SameLive(now, Step(Applying(parse), e, Crash(Emptied, now)).live, e.live)
  {
    var other;
    parse, message, other := CanAsk(Set(key, value), Set(key, value));
    SetAndRewritten(parse, message, Set(key, value), key, KeyData(value, None), now, now);
    EmptiedPreambleLoses(parse, [Execute(now, 0, message)] + [Rewrite(now)], key, KeyData(value, None), now);
  }

  /** An EXPIREAT of an absent key and a SET, and a rewrite that dies with the preamble
      written: the restore differs, one without the crash would not have. */
  lemma BadCrashWritten(key: string, value: Value, at: int, now: int)
    returns (parse: Parse, first: string, second: string)
    ensures Asks(parse, first, ExpireAt(key, at)) && Asks(parse, second, Set(key, value))
    ensures var ops := [Execute(now, 0, first)] + [Execute(now, 0, second)];
            var e := Run(Applying(parse), ops);
            && CrashEndangers(parse, ops, Written(now), now, 0, key) && !Endangers(parse, ops, now, 0, key)
            && !SameLive(now, Step(Applying(parse), e, Crash(Written(now), now)).live, e.live)
  {
    parse, first, second := CanAsk(ExpireAt(key, at), Set(key, value));
    FirstWrite(parse, now, first, ExpireAt(key, at), key);
    ExpireBeforeSetReturns(parse, [Execute(now, 0, first)], key, at, now, second, value, now, now);
  }

  // ----- SET is not blind ---------------------------------------------------------------------------------

  /** One SET of a key whose expiry time has passed is enough: the expired entry passes
      its expiry time on to the new value, an absent one does not. */
  lemma SetSeesExpiredKeys(parse: Parse, message: string, key: string, value: Value)
    requires parse(message) == Set(key, value)
    ensures !Blind(Applying(parse))
  {
    var expired: State := map[0 := map[key := KeyData(value, Some(0))]];
    var entry := AppendLog.Entry(0, message);
    assert SameLive(1, expired, map[]);
    ExecuteLookup(parse, 1, expired, entry, 0, key);
    ExecuteLookup(parse, 1, map[], entry, 0, key);
    var one, other := Applying(parse)(1, expired, 0, message), Applying(parse)(1, map[], 0, message);
    assert Live(1, one, 0, key) != Live(1, other, 0, key);
    assert !SameLive(1, one, other);
  }
}
