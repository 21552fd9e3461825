/**
  The authentication rate limiter: fixed windows per server, per source and per subject,
  and the sliding bound that follows from them.
 */
module RateLimiter {
  import opened Wrappers

  // 60 seconds in nanoseconds, the resolution of an `Instant`.
  const WINDOW := 60_000_000_000
  const GLOBAL_LIMIT := 60
  const SOURCE_LIMIT := 20
  const SUBJECT_LIMIT := 6
  const KEY_LIMIT := 2048

  datatype Counter = Counter(started: int, attempts: nat)

  type Table = map<nat, Counter>

  datatype State = State(global: Option<Counter>, sources: Table, subjects: Table)

  const EMPTY := State(None, map[], map[])

  datatype Call = Call(now: int, source: nat, subject: nat)

  // `Instant::duration_since` is zero for a later start.
  predicate Running(counter: Counter, now: int)
  {
    now - counter.started < WINDOW
  }

  function Slot(table: Table, key: nat): Option<Counter>
  {
    if key in table then Some(table[key]) else None
  }

  // ---------- One counter ----------

  function Opened(slot: Option<Counter>, now: int): Counter
  {
    match slot
    case Some(counter) => counter
    case None => Counter(now, 0)
  }

  function Current(slot: Option<Counter>, now: int): Option<Counter>
  {
    if slot.Some? && !Running(slot.value, now) then None else slot
  }

  // `consume_counter`: the counter is opened even if the attempt is refused.
  function Charge(slot: Option<Counter>, limit: nat, now: int): (Counter, bool)
  {
    var counter := Opened(slot, now);
    if counter.attempts >= limit then (counter, false) else (counter.(attempts := counter.attempts + 1), true)
  }

  // ---------- The limiter ----------

  function CurrentTable(table: Table, now: int): Table
  {
    map key | key in table && Running(table[key], now) :: table[key]
  }

  // `cleanup_limiter`
  function Cleanup(s: State, now: int): State
  {
    State(Current(s.global, now), CurrentTable(s.sources, now), CurrentTable(s.subjects, now))
  }

  predicate TableFull(table: Table, key: nat)
  {
    |table| >= KEY_LIMIT && key !in table
  }

  // `AuthLimiter::consume`: the three counters are charged in turn until one refuses.
  function Consume(s: State, call: Call): (State, bool)
  {
    var c := Cleanup(s, call.now);
    if TableFull(c.sources, call.source) || TableFull(c.subjects, call.subject) then (c, false)
    else
      var (global, first) := Charge(c.global, GLOBAL_LIMIT, call.now);
      var c1 := c.(global := Some(global));
      if !first then (c1, false)
      else
        var (source, second) := Charge(Slot(c1.sources, call.source), SOURCE_LIMIT, call.now);
        var c2 := c1.(sources := c1.sources[call.source := source]);
        if !second then (c2, false)
        else
          var (subject, third) := Charge(Slot(c2.subjects, call.subject), SUBJECT_LIMIT, call.now);
          (c2.(subjects := c2.subjects[call.subject := subject]), third)
  }

  // ---------- What one call charges ----------

  // The attempts in the running window, and when that window began or would begin.
  function Spent(slot: Option<Counter>, now: int): nat
  {
    if slot.Some? && now - slot.value.started < WINDOW then slot.value.attempts else 0
  }

  function Began(slot: Option<Counter>, now: int): int
  {
    if slot.Some? && now - slot.value.started < WINDOW then slot.value.started else now
  }

  // One counter after a call that did or did not charge it; its window goes on.
  predicate Counted(before: Option<Counter>, after: Option<Counter>, now: int, charged: bool)
  {
    && Spent(after, now) == Spent(before, now) + (if charged then 1 else 0)
    && (after.Some? ==> after.value.started == Began(before, now))
  }

  function LiveKeys(table: Table, now: int): set<nat>
  {
    set key | key in table && now - table[key].started < WINDOW
  }

  // A known key, or room for a new one.
  predicate HasRoom(table: Table, key: nat, now: int)
  {
    key in LiveKeys(table, now) || |LiveKeys(table, now)| < 2048
  }

  // Only this counter of the table changes; those whose window is over are forgotten.
  predicate OthersStay(before: Table, after: Table, key: nat, now: int)
  {
    && after.Keys <= LiveKeys(before, now) + {key} && LiveKeys(before, now) <= after.Keys
    && forall other :: other in after && other != key ==> after[other] == before[other]
  }

  /**
    A call is accepted exactly when all three counters have room. They are charged in order,
    overall, source, subject, and a counter that refuses leaves the earlier charges standing.
   */
  predicate Charges(s: State, next: State, call: Call, accepted: bool)
  {
    var room := HasRoom(s.sources, call.source, call.now) && HasRoom(s.subjects, call.subject, call.now);
    var first := room && Spent(s.global, call.now) < 60;
    var second := first && Spent(Slot(s.sources, call.source), call.now) < 20;
    var third := second && Spent(Slot(s.subjects, call.subject), call.now) < 6;
    && accepted == third
    && Counted(s.global, next.global, call.now, first)
    && Counted(Slot(s.sources, call.source), Slot(next.sources, call.source), call.now, second)
    && Counted(Slot(s.subjects, call.subject), Slot(next.subjects, call.subject), call.now, third)
    && OthersStay(s.sources, next.sources, call.source, call.now)
    && OthersStay(s.subjects, next.subjects, call.subject, call.now)
  }

  lemma CurrentKeys(table: Table, now: int)
    ensures CurrentTable(table, now).Keys == LiveKeys(table, now)
  {
  }

  lemma CurrentOutcome(table: Table, key: nat, now: int)
    ensures var c := CurrentTable(table, now);
            && (HasRoom(table, key, now) <==> !TableFull(c, key))
            && OthersStay(table, c, key, now) && Counted(Slot(table, key), Slot(c, key), now, false)
  {
    CurrentKeys(table, now);
  }

  lemma ChargeOutcome(slot: Option<Counter>, limit: nat, now: int)
    ensures var (counter, ok) := Charge(Current(slot, now), limit, now);
            (ok <==> Spent(slot, now) < limit) && Counted(slot, Some(counter), now, ok)
  {
  }

  lemma TableOutcome(table: Table, key: nat, limit: nat, now: int)
    ensures var c := CurrentTable(table, now);
            var (counter, ok) := Charge(Slot(c, key), limit, now);
            && (ok <==> Spent(Slot(table, key), now) < limit) && Counted(Slot(table, key), Slot(c[key := counter], key), now, ok)
            && OthersStay(table, c[key := counter], key, now)
  {
    CurrentKeys(table, now);
    assert Slot(CurrentTable(table, now), key) == Current(Slot(table, key), now);
    ChargeOutcome(Slot(table, key), limit, now);
  }

  lemma ConsumeOutcome(s: State, call: Call)
    ensures Charges(s, Consume(s, call).0, call, Consume(s, call).1)
  {
    CurrentOutcome(s.sources, call.source, call.now);
    CurrentOutcome(s.subjects, call.subject, call.now);
    ChargeOutcome(s.global, GLOBAL_LIMIT, call.now);
    TableOutcome(s.sources, call.source, SOURCE_LIMIT, call.now);
    TableOutcome(s.subjects, call.subject, SUBJECT_LIMIT, call.now);
  }

  class Limiter {
    var global: Option<Counter>
    var sources: Table
    var subjects: Table

    ghost function Model(): State
      reads this
    {
      State(global, sources, subjects)
    }

    constructor ()
      ensures Model() == EMPTY
    {
      global, sources, subjects := None, map[], map[];
    }

    method CleanupLimiter(now: int)
      modifies this
      ensures Model() == Cleanup(old(Model()), now)
    {
      sources := CurrentTable(sources, now);
      subjects := CurrentTable(subjects, now);
      if global.Some? && now - global.value.started >= WINDOW {
        global := None;
      }
    }

    method Attempt(call: Call) returns (accepted: bool)
      modifies this
      ensures (Model(), accepted) == Consume(old(Model()), call)
      ensures Charges(old(Model()), Model(), call, accepted)
    {
      ConsumeOutcome(Model(), call);
      accepted := ChargeCounters(call);
    }

    method ChargeCounters(call: Call) returns (accepted: bool)
      modifies this
      ensures (Model(), accepted) == Consume(old(Model()), call)
    {
      CleanupLimiter(call.now);
      if |sources| >= KEY_LIMIT && call.source !in sources {
        return false;
      }
      if |subjects| >= KEY_LIMIT && call.subject !in subjects {
        return false;
      }
      if global.None? {
        global := Some(Counter(call.now, 0));
      }
      if global.value.attempts >= GLOBAL_LIMIT {
        return false;
      }
      global := Some(global.value.(attempts := global.value.attempts + 1));
      var source := if call.source in sources then sources[call.source] else Counter(call.now, 0);
      if source.attempts >= SOURCE_LIMIT {
        sources := sources[call.source := source];
        return false;
      }
      sources := sources[call.source := source.(attempts := source.attempts + 1)];
      var subject := if call.subject in subjects then subjects[call.subject] else Counter(call.now, 0);
      if subject.attempts >= SUBJECT_LIMIT {
        subjects := subjects[call.subject := subject];
        return false;
      }
      subjects := subjects[call.subject := subject.(attempts := subject.attempts + 1)];
      accepted := true;
    }
  }

  // ---------- Logs of accepted attempts under one counter ----------

  datatype Hit = Hit(time: int, started: int)

  function Count(log: seq<Hit>, started: int): nat
  {
    if log == [] then 0 else Count(log[..|log| - 1], started) + if log[|log| - 1].started == started then 1 else 0
  }

  predicate Separate(first: int, second: int)
  {
    first == second || first + WINDOW <= second
  }

  // Hits fall into disjoint windows, each with at most `limit` of them.
  ghost predicate Windowed(log: seq<Hit>, limit: nat)
  {
    && (forall i :: 0 <= i < |log| ==> log[i].started <= log[i].time < log[i].started + WINDOW)
    && (forall i, j :: 0 <= i < j < |log| ==> Separate(log[i].started, log[j].started))
    && (forall s :: Count(log, s) <= limit)
  }

  // The counter accounts for the log, as of the time of the last call.
  ghost predicate Tracks(log: seq<Hit>, slot: Option<Counter>, limit: nat, last: int)
  {
    && Windowed(log, limit)
    && (forall i :: 0 <= i < |log| ==> log[i].time <= last)
    && match slot
       case None => forall i :: 0 <= i < |log| ==> log[i].started + WINDOW <= last
       case Some(counter) =>
         && counter.started <= last
         && Count(log, counter.started) <= counter.attempts
         && forall i :: 0 <= i < |log| ==> Separate(log[i].started, counter.started)
  }

  lemma CurrentTracks(log: seq<Hit>, slot: Option<Counter>, limit: nat, last: int, now: int)
    requires Tracks(log, slot, limit, last) && last <= now
    ensures Tracks(log, Current(slot, now), limit, now)
  {
  }

  lemma {:induction false} CountZero(log: seq<Hit>, started: int)
    requires forall i :: 0 <= i < |log| ==> log[i].started != started
    ensures Count(log, started) == 0
  {
    if log != [] {
      CountZero(log[..|log| - 1], started);
    }
  }

  // Charging keeps the account, whether or not the attempt is accepted in the end.
  lemma ChargeTracks(log: seq<Hit>, slot: Option<Counter>, limit: nat, now: int)
    requires Tracks(log, Current(slot, now), limit, now)
    ensures var (counter, accepted) := Charge(Current(slot, now), limit, now);
            && Tracks(log, Some(counter), limit, now)
            && (accepted ==> Tracks(log + [Hit(now, counter.started)], Some(counter), limit, now))
  {
    if Current(slot, now).None? {
      CountZero(log, now);
    }
    var (counter, accepted) := Charge(Current(slot, now), limit, now);
    if accepted {
      HitTracks(log, counter, limit, now);
    }
  }

  // One more hit in the window of the counter, which has counted it.
  lemma HitTracks(log: seq<Hit>, counter: Counter, limit: nat, now: int)
    requires Tracks(log, Some(counter), limit, now) && now < counter.started + WINDOW
    requires Count(log, counter.started) < counter.attempts <= limit
    ensures Tracks(log + [Hit(now, counter.started)], Some(counter), limit, now)
  {
    var hit := Hit(now, counter.started);
    HitCounts(log, hit, limit);
    CountOneMore(log, hit, counter.started);
    HitSeparate(log, hit);
    HitTimes(log, hit, now);
  }

  lemma HitCounts(log: seq<Hit>, hit: Hit, limit: nat)
    requires (forall s :: Count(log, s) <= limit) && Count(log, hit.started) < limit
    ensures forall s :: Count(log + [hit], s) <= limit
  {
    forall s
      ensures Count(log + [hit], s) <= limit
    {
      CountOneMore(log, hit, s);
    }
  }

  lemma HitTimes(log: seq<Hit>, hit: Hit, last: int)
    requires forall i :: 0 <= i < |log| ==> log[i].started <= log[i].time < log[i].started + WINDOW
    requires forall i :: 0 <= i < |log| ==> log[i].time <= last && Separate(log[i].started, hit.started)
    requires hit.started <= hit.time < hit.started + WINDOW && hit.time <= last
    ensures var more := log + [hit];
            && (forall i :: 0 <= i < |more| ==> more[i].started <= more[i].time < more[i].started + WINDOW)
            && (forall i :: 0 <= i < |more| ==> more[i].time <= last && Separate(more[i].started, hit.started))
  {
  }

  lemma CountOneMore(log: seq<Hit>, hit: Hit, started: int)
    ensures Count(log + [hit], started) == Count(log, started) + if hit.started == started then 1 else 0
  {
    assert (log + [hit])[..|log|] == log;
  }

  lemma HitSeparate(log: seq<Hit>, hit: Hit)
    requires forall i, j :: 0 <= i < j < |log| ==> Separate(log[i].started, log[j].started)
    requires forall i :: 0 <= i < |log| ==> Separate(log[i].started, hit.started)
    ensures var more := log + [hit]; forall i, j :: 0 <= i < j < |more| ==> Separate(more[i].started, more[j].started)
  {
  }

  // ---------- The sliding bound ----------

  lemma {:induction false} CountConcat(left: seq<Hit>, right: seq<Hit>, started: int)
    ensures Count(left + right, started) == Count(left, started) + Count(right, started)
  {
    if right == [] {
      assert left + right == left;
    } else {
      CountConcat(left, right[..|right| - 1], started);
      assert (left + right)[..|left + right| - 1] == left + right[..|right| - 1];
    }
  }

  lemma CountSlice(log: seq<Hit>, i: nat, j: nat, started: int)
    requires i <= j <= |log|
    ensures Count(log[i..j], started) <= Count(log, started)
  {
    CountConcat(log[..i], log[i..j], started);
    CountConcat(log[..j], log[j..], started);
    assert log[..i] + log[i..j] == log[..j];
    assert log[..j] + log[j..] == log;
  }

  lemma {:induction false} TwoWindows(log: seq<Hit>, first: int, second: int)
    requires forall i :: 0 <= i < |log| ==> log[i].started == first || log[i].started == second
    ensures |log| <= Count(log, first) + Count(log, second)
  {
    if log != [] {
      TwoWindows(log[..|log| - 1], first, second);
    }
  }

  /**
    A span of at most one window length touches at most two windows, so it holds at most
    twice the limit.
   */
  lemma SlidingBound(log: seq<Hit>, limit: nat, i: nat, j: nat)
    requires Windowed(log, limit) && i <= j < |log| && log[j].time - log[i].time <= WINDOW
    ensures j - i + 1 <= 2 * limit
  {
    var slice := log[i..j + 1];
    var first, second := log[i].started, log[j].started;
    forall k | 0 <= k < |slice|
      ensures slice[k].started == first || slice[k].started == second
    {
      var m := i + k;
      assert slice[k] == log[m];
      assert Separate(first, log[m].started) && Separate(log[m].started, second);
    }
    TwoWindows(slice, first, second);
    CountSlice(log, i, j + 1, first);
    CountSlice(log, i, j + 1, second);
  }

  // ---------- Whole runs ----------

  datatype Accepted = Accepted(call: Call, global: int, source: int, subject: int)

  // The state after a run and the accepted calls, each with the windows it fell into.
  function Run(calls: seq<Call>): (State, seq<Accepted>)
  {
    if calls == [] then (EMPTY, [])
    else
      var (s, log) := Run(calls[..|calls| - 1]);
      var call := calls[|calls| - 1];
      var (next, accepted) := Consume(s, call);
      (next, if accepted then log + [Entry(next, call)] else log)
  }

  function Started(slot: Option<Counter>): int
  {
    if slot.Some? then slot.value.started else 0
  }

  function Entry(s: State, call: Call): Accepted
  {
    Accepted(call, Started(s.global), Started(Slot(s.sources, call.source)), Started(Slot(s.subjects, call.subject)))
  }

  function GlobalHits(log: seq<Accepted>): seq<Hit>
  {
    if log == [] then []
    else GlobalHits(log[..|log| - 1]) + [Hit(log[|log| - 1].call.now, log[|log| - 1].global)]
  }

  function SourceHits(log: seq<Accepted>, source: nat): seq<Hit>
  {
    if log == [] then []
    else
      var last := log[|log| - 1];
      var earlier := SourceHits(log[..|log| - 1], source);
      if last.call.source == source then earlier + [Hit(last.call.now, last.source)] else earlier
  }

  function SubjectHits(log: seq<Accepted>, subject: nat): seq<Hit>
  {
    if log == [] then []
    else
      var last := log[|log| - 1];
      var earlier := SubjectHits(log[..|log| - 1], subject);
      if last.call.subject == subject then earlier + [Hit(last.call.now, last.subject)] else earlier
  }

  predicate InTimeOrder(calls: seq<Call>)
  {
    forall i, j :: 0 <= i < j < |calls| ==> calls[i].now <= calls[j].now
  }

  ghost predicate Accounted(s: State, log: seq<Accepted>, last: int)
  {
    && Tracks(GlobalHits(log), s.global, GLOBAL_LIMIT, last)
    && SourcesTracked(s.sources, log, last)
    && SubjectsTracked(s.subjects, log, last)
    && |s.sources| <= KEY_LIMIT && |s.subjects| <= KEY_LIMIT
  }

  ghost predicate SourcesTracked(table: Table, log: seq<Accepted>, last: int)
  {
    forall key :: Tracks(SourceHits(log, key), Slot(table, key), SOURCE_LIMIT, last)
  }

  ghost predicate SubjectsTracked(table: Table, log: seq<Accepted>, last: int)
  {
    forall key :: Tracks(SubjectHits(log, key), Slot(table, key), SUBJECT_LIMIT, last)
  }

  lemma CurrentSlot(table: Table, key: nat, now: int)
    ensures Slot(CurrentTable(table, now), key) == Current(Slot(table, key), now)
  {
  }

  lemma CleanupAccounted(s: State, log: seq<Accepted>, last: int, now: int)
    requires Accounted(s, log, last) && last <= now
    ensures Accounted(Cleanup(s, now), log, now)
    ensures Current(Cleanup(s, now).global, now) == Cleanup(s, now).global
    ensures forall key :: Current(Slot(Cleanup(s, now).sources, key), now) == Slot(Cleanup(s, now).sources, key)
    ensures forall key :: Current(Slot(Cleanup(s, now).subjects, key), now) == Slot(Cleanup(s, now).subjects, key)
  {
    CurrentTracks(GlobalHits(log), s.global, GLOBAL_LIMIT, last, now);
    forall key
      ensures Tracks(SourceHits(log, key), Slot(CurrentTable(s.sources, now), key), SOURCE_LIMIT, now)
      ensures Tracks(SubjectHits(log, key), Slot(CurrentTable(s.subjects, now), key), SUBJECT_LIMIT, now)
    {
      CurrentTracks(SourceHits(log, key), Slot(s.sources, key), SOURCE_LIMIT, last, now);
      CurrentTracks(SubjectHits(log, key), Slot(s.subjects, key), SUBJECT_LIMIT, last, now);
      CurrentSlot(s.sources, key, now);
      CurrentSlot(s.subjects, key, now);
    }
    CardinalityMonotone(CurrentTable(s.sources, now).Keys, s.sources.Keys);
    CardinalityMonotone(CurrentTable(s.subjects, now).Keys, s.subjects.Keys);
  }

  lemma GrowTable(table: Table, key: nat, counter: Counter)
    requires |table| <= KEY_LIMIT && !TableFull(table, key)
    ensures |table[key := counter]| <= KEY_LIMIT
  {
    assert table[key := counter].Keys == table.Keys + {key};
  }

  lemma LogGrows(log: seq<Accepted>, entry: Accepted, key: nat)
    ensures GlobalHits(log + [entry]) == GlobalHits(log) + [Hit(entry.call.now, entry.global)]
    ensures SourceHits(log + [entry], key) ==
            if key == entry.call.source then SourceHits(log, key) + [Hit(entry.call.now, entry.source)] else SourceHits(log, key)
    ensures SubjectHits(log + [entry], key) ==
            if key == entry.call.subject then SubjectHits(log, key) + [Hit(entry.call.now, entry.subject)] else SubjectHits(log, key)
  {
    assert (log + [entry])[..|log|] == log;
  }

  // One table after it was charged, with the call accepted in the end or not.
  lemma SourcesCharged(table: Table, log: seq<Accepted>, call: Call, entry: Accepted)
    requires SourcesTracked(table, log, call.now) && entry.call == call
    requires Current(Slot(table, call.source), call.now) == Slot(table, call.source)
    ensures var (counter, ok) := Charge(Slot(table, call.source), SOURCE_LIMIT, call.now);
            && SourcesTracked(table[call.source := counter], log, call.now)
            && (ok && entry.source == counter.started ==> SourcesTracked(table[call.source := counter], log + [entry], call.now))
  {
    ChargeTracks(SourceHits(log, call.source), Slot(table, call.source), SOURCE_LIMIT, call.now);
    forall key {
      LogGrows(log, entry, key);
    }
  }

  lemma SubjectsCharged(table: Table, log: seq<Accepted>, call: Call, entry: Accepted)
    requires SubjectsTracked(table, log, call.now) && entry.call == call
    requires Current(Slot(table, call.subject), call.now) == Slot(table, call.subject)
    ensures var (counter, ok) := Charge(Slot(table, call.subject), SUBJECT_LIMIT, call.now);
            && SubjectsTracked(table[call.subject := counter], log, call.now)
            && (ok && entry.subject == counter.started ==> SubjectsTracked(table[call.subject := counter], log + [entry], call.now))
  {
    ChargeTracks(SubjectHits(log, call.subject), Slot(table, call.subject), SUBJECT_LIMIT, call.now);
    forall key {
      LogGrows(log, entry, key);
    }
  }

  lemma GlobalCharged(slot: Option<Counter>, log: seq<Accepted>, now: int, entry: Accepted)
    requires Tracks(GlobalHits(log), slot, GLOBAL_LIMIT, now) && entry.call.now == now && Current(slot, now) == slot
    ensures var (counter, ok) := Charge(slot, GLOBAL_LIMIT, now);
            && Tracks(GlobalHits(log), Some(counter), GLOBAL_LIMIT, now)
            && (ok && entry.global == counter.started ==> Tracks(GlobalHits(log + [entry]), Some(counter), GLOBAL_LIMIT, now))
  {
    ChargeTracks(GlobalHits(log), slot, GLOBAL_LIMIT, now);
    LogGrows(log, entry, 0);
  }

  lemma StepAccounted(s: State, log: seq<Accepted>, last: int, call: Call)
    requires Accounted(s, log, last) && last <= call.now
    ensures var (next, accepted) := Consume(s, call);
            Accounted(next, if accepted then log + [Entry(next, call)] else log, call.now)
  {
    CleanupAccounted(s, log, last, call.now);
    ChargesAccounted(Cleanup(s, call.now), s, log, call);
  }

  lemma ChargesAccounted(c: State, s: State, log: seq<Accepted>, call: Call)
    requires c == Cleanup(s, call.now) && Accounted(c, log, call.now)
    requires Current(c.global, call.now) == c.global
    requires Current(Slot(c.sources, call.source), call.now) == Slot(c.sources, call.source)
    requires Current(Slot(c.subjects, call.subject), call.now) == Slot(c.subjects, call.subject)
    ensures var (next, accepted) := Consume(s, call);
            Accounted(next, if accepted then log + [Entry(next, call)] else log, call.now)
  {
    if !TableFull(c.sources, call.source) && !TableFull(c.subjects, call.subject) {
      var entry := Entry(Consume(s, call).0, call);
      GlobalCharged(c.global, log, call.now, entry);
      SourcesCharged(c.sources, log, call, entry);
      SubjectsCharged(c.subjects, log, call, entry);
      GrowTable(c.sources, call.source, Charge(Slot(c.sources, call.source), SOURCE_LIMIT, call.now).0);
      GrowTable(c.subjects, call.subject, Charge(Slot(c.subjects, call.subject), SUBJECT_LIMIT, call.now).0);
    }
  }

  function LastTime(calls: seq<Call>): int
  {
    if calls == [] then 0 else calls[|calls| - 1].now
  }

  lemma {:induction false} RunAccounted(calls: seq<Call>)
    requires InTimeOrder(calls)
    ensures Accounted(Run(calls).0, Run(calls).1, LastTime(calls))
  {
    if calls != [] {
      var earlier := calls[..|calls| - 1];
      RunAccounted(earlier);
      var (s, log) := Run(earlier);
      if earlier == [] {
        assert Accounted(s, log, calls[|calls| - 1].now);
        StepAccounted(s, log, calls[|calls| - 1].now, calls[|calls| - 1]);
      } else {
        StepAccounted(s, log, LastTime(earlier), calls[|calls| - 1]);
      }
    }
  }

  // Any span of at most one window length holds at most `bound` of these attempts.
  ghost predicate AtMostPerSpan(hits: seq<Hit>, bound: nat)
  {
    forall i, j :: 0 <= i <= j < |hits| && hits[j].time - hits[i].time <= WINDOW ==> j - i + 1 <= bound
  }

  /**
    The rate limit: for calls in time order, any span of at most 60 seconds contains at
    most 12 accepted attempts for one subject, 40 for one source and 120 overall, and
    neither table ever holds more than 2048 keys.
   */
  lemma RateLimit(calls: seq<Call>, source: nat, subject: nat)
    requires InTimeOrder(calls)
    ensures AtMostPerSpan(GlobalHits(Run(calls).1), 120)
    ensures AtMostPerSpan(SourceHits(Run(calls).1, source), 40)
    ensures AtMostPerSpan(SubjectHits(Run(calls).1, subject), 12)
    ensures |Run(calls).0.sources| <= KEY_LIMIT && |Run(calls).0.subjects| <= KEY_LIMIT
  {
    RunAccounted(calls);
    var log := Run(calls).1;
    SlidingBounds(GlobalHits(log), GLOBAL_LIMIT);
    SlidingBounds(SourceHits(log, source), SOURCE_LIMIT);
    SlidingBounds(SubjectHits(log, subject), SUBJECT_LIMIT);
  }

  lemma SlidingBounds(hits: seq<Hit>, limit: nat)
    requires Windowed(hits, limit)
    ensures AtMostPerSpan(hits, 2 * limit)
  {
    forall i, j | 0 <= i <= j < |hits| && hits[j].time - hits[i].time <= WINDOW
      ensures j - i + 1 <= 2 * limit
    {
      SlidingBound(hits, limit, i, j);
    }
  }

  // ---------- The bounds are reached ----------

  function PulseCall(now: int, manySources: bool, manySubjects: bool, i: nat): Call
  {
    Call(now, if manySources then i else 0, if manySubjects then i else 0)
  }

  // `n` more calls at one moment, from one source or many and for one subject or many.
  function Pulse(calls: seq<Call>, now: int, manySources: bool, manySubjects: bool, n: nat): seq<Call>
  {
    if n == 0 then calls
    else Pulse(calls, now, manySources, manySubjects, n - 1) + [PulseCall(now, manySources, manySubjects, n - 1)]
  }

  // Two pulses exactly one window apart.
  function TwoPulses(manySources: bool, manySubjects: bool, n: nat): seq<Call>
  {
    Pulse(Pulse([], 0, manySources, manySubjects, n), WINDOW, manySources, manySubjects, n)
  }

  predicate PulseFits(manySources: bool, manySubjects: bool, n: nat)
  {
    n <= GLOBAL_LIMIT && (manySources || n <= SOURCE_LIMIT) && (manySubjects || n <= SUBJECT_LIMIT)
  }

  // What `n` calls of a pulse may have charged to a table.
  predicate Loaded(table: Table, many: bool, now: int, n: nat)
  {
    |table| <= n && forall key :: key in table ==>
      table[key].started == now && if many then key < n else key == 0 && table[key].attempts <= n
  }

  predicate PulseLoaded(s: State, now: int, manySources: bool, manySubjects: bool, n: nat)
  {
    && (s.global.Some? ==> s.global.value.started == now && s.global.value.attempts <= n)
    && Loaded(s.sources, manySources, now, n) && Loaded(s.subjects, manySubjects, now, n)
  }

  lemma LoadedCurrent(table: Table, many: bool, now: int, n: nat)
    requires Loaded(table, many, now, n)
    ensures CurrentTable(table, now) == table
    ensures CurrentTable(table, now + WINDOW) == map[]
  {
  }

  lemma LoadedStep(table: Table, many: bool, now: int, n: nat, limit: nat)
    requires Loaded(table, many, now, n) && limit > 0 && (many || n < limit)
    ensures var key := if many then n else 0;
            var (counter, accepted) := Charge(Slot(table, key), limit, now);
            accepted && Loaded(table[key := counter], many, now, n + 1)
  {
    var key := if many then n else 0;
    var counter := Charge(Slot(table, key), limit, now).0;
    assert table[key := counter].Keys == table.Keys + {key};
  }

  lemma PulseStep(s: State, now: int, manySources: bool, manySubjects: bool, n: nat)
    requires PulseLoaded(Cleanup(s, now), now, manySources, manySubjects, n) && PulseFits(manySources, manySubjects, n + 1)
    ensures var (next, accepted) := Consume(s, PulseCall(now, manySources, manySubjects, n));
            accepted && PulseLoaded(next, now, manySources, manySubjects, n + 1)
  {
    var c := Cleanup(s, now);
    LoadedStep(c.sources, manySources, now, n, SOURCE_LIMIT);
    LoadedStep(c.subjects, manySubjects, now, n, SUBJECT_LIMIT);
  }

  ghost predicate AllAccepted(calls: seq<Call>)
  {
    var log := Run(calls).1; |log| == |calls| && forall i :: 0 <= i < |calls| ==> log[i].call == calls[i]
  }

  lemma AcceptedNext(calls: seq<Call>, call: Call)
    requires AllAccepted(calls) && Consume(Run(calls).0, call).1
    ensures Run(calls + [call]).0 == Consume(Run(calls).0, call).0 && AllAccepted(calls + [call])
  {
    assert (calls + [call])[..|calls|] == calls;
  }

  // All these calls were accepted, and the last `n` of them are a pulse at this moment.
  ghost predicate Pulsed(calls: seq<Call>, now: int, manySources: bool, manySubjects: bool, n: nat)
  {
    && AllAccepted(calls) && PulseLoaded(Cleanup(Run(calls).0, now), now, manySources, manySubjects, n)
    && (n > 0 ==> PulseLoaded(Run(calls).0, now, manySources, manySubjects, n))
  }

  lemma PulseNext(calls: seq<Call>, now: int, manySources: bool, manySubjects: bool, n: nat)
    requires Pulsed(calls, now, manySources, manySubjects, n) && PulseFits(manySources, manySubjects, n + 1)
    ensures Pulsed(calls + [PulseCall(now, manySources, manySubjects, n)], now, manySources, manySubjects, n + 1)
  {
    var call := PulseCall(now, manySources, manySubjects, n);
    PulseStep(Run(calls).0, now, manySources, manySubjects, n);
    AcceptedNext(calls, call);
    var s := Run(calls + [call]).0;
    LoadedCurrent(s.sources, manySources, now, n + 1);
    LoadedCurrent(s.subjects, manySubjects, now, n + 1);
  }

  lemma {:induction false} PulseRun(calls: seq<Call>, now: int, manySources: bool, manySubjects: bool, n: nat)
    requires Pulsed(calls, now, manySources, manySubjects, 0) && PulseFits(manySources, manySubjects, n)
    ensures Pulsed(Pulse(calls, now, manySources, manySubjects, n), now, manySources, manySubjects, n)
  {
    if n > 0 {
      PulseRun(calls, now, manySources, manySubjects, n - 1);
      PulseNext(Pulse(calls, now, manySources, manySubjects, n - 1), now, manySources, manySubjects, n - 1);
    }
  }

  lemma {:induction false} HitTimesOfAll(log: seq<Accepted>, source: nat, subject: nat)
    ensures |GlobalHits(log)| == |log| && forall i :: 0 <= i < |log| ==> GlobalHits(log)[i].time == log[i].call.now
    ensures (forall i :: 0 <= i < |log| ==> log[i].call.source == source) ==>
              |SourceHits(log, source)| == |log| && forall i :: 0 <= i < |log| ==> SourceHits(log, source)[i].time == log[i].call.now
    ensures (forall i :: 0 <= i < |log| ==> log[i].call.subject == subject) ==>
              |SubjectHits(log, subject)| == |log| && forall i :: 0 <= i < |log| ==> SubjectHits(log, subject)[i].time == log[i].call.now
  {
    if log != [] {
      HitTimesOfAll(log[..|log| - 1], source, subject);
    }
  }

  /**
    The bounds are exact: two full pulses one window apart are accepted whole, so a span of
    60 seconds holds twice the limit. With many sources and subjects the overall bound of
    120 is reached, with one source that of 40, with one subject that of 12.
   */
  lemma RateLimitIsReached(manySources: bool, manySubjects: bool, n: nat)
    requires n > 0 && PulseFits(manySources, manySubjects, n)
    ensures var calls := TwoPulses(manySources, manySubjects, n);
            && InTimeOrder(calls) && AllAccepted(calls)
            && !AtMostPerSpan(GlobalHits(Run(calls).1), 2 * n - 1)
            && (!manySources ==> !AtMostPerSpan(SourceHits(Run(calls).1, 0), 2 * n - 1))
            && (!manySubjects ==> !AtMostPerSpan(SubjectHits(Run(calls).1, 0), 2 * n - 1))
  {
    PulsesAccepted(manySources, manySubjects, n);
    PulsesAt(manySources, manySubjects, n);
    ManyHits(TwoPulses(manySources, manySubjects, n), manySources, manySubjects, n);
  }

  lemma PulsesAccepted(manySources: bool, manySubjects: bool, n: nat)
    requires n > 0 && PulseFits(manySources, manySubjects, n)
    ensures AllAccepted(TwoPulses(manySources, manySubjects, n))
  {
    PulseRun([], 0, manySources, manySubjects, n);
    var first := Pulse([], 0, manySources, manySubjects, n);
    WindowLater(first, manySources, manySubjects, n);
    PulseRun(first, WINDOW, manySources, manySubjects, n);
  }

  lemma WindowLater(calls: seq<Call>, manySources: bool, manySubjects: bool, n: nat)
    requires n > 0 && Pulsed(calls, 0, manySources, manySubjects, n)
    ensures Pulsed(calls, WINDOW, manySources, manySubjects, 0)
  {
    var s := Run(calls).0;
    LoadedCurrent(s.sources, manySources, 0, n);
    LoadedCurrent(s.subjects, manySubjects, 0, n);
  }

  lemma {:induction false} PulseAt(calls: seq<Call>, now: int, manySources: bool, manySubjects: bool, n: nat)
    ensures var all := Pulse(calls, now, manySources, manySubjects, n);
            && |all| == |calls| + n && (forall i :: 0 <= i < |calls| ==> all[i] == calls[i])
            && forall i :: |calls| <= i < |all| ==> all[i] == PulseCall(now, manySources, manySubjects, i - |calls|)
  {
    if n > 0 {
      PulseAt(calls, now, manySources, manySubjects, n - 1);
    }
  }

  lemma PulsesAt(manySources: bool, manySubjects: bool, n: nat)
    ensures var calls := TwoPulses(manySources, manySubjects, n);
            && InTimeOrder(calls) && |calls| == 2 * n
            && (forall i :: 0 <= i < 2 * n ==> calls[i].now == if i < n then 0 else WINDOW)
            && (!manySources ==> forall i :: 0 <= i < 2 * n ==> calls[i].source == 0)
            && (!manySubjects ==> forall i :: 0 <= i < 2 * n ==> calls[i].subject == 0)
  {
    PulseAt([], 0, manySources, manySubjects, n);
    PulseAt(Pulse([], 0, manySources, manySubjects, n), WINDOW, manySources, manySubjects, n);
  }

  lemma {:induction false} ManyHits(calls: seq<Call>, manySources: bool, manySubjects: bool, n: nat)
    requires AllAccepted(calls) && n > 0 && |calls| == 2 * n && calls[0].now == 0 && calls[2 * n - 1].now == WINDOW
    requires !manySources ==> forall i :: 0 <= i < 2 * n ==> calls[i].source == 0
    requires !manySubjects ==> forall i :: 0 <= i < 2 * n ==> calls[i].subject == 0
    ensures !AtMostPerSpan(GlobalHits(Run(calls).1), 2 * n - 1)
    ensures !manySources ==> !AtMostPerSpan(SourceHits(Run(calls).1, 0), 2 * n - 1)
    ensures !manySubjects ==> !AtMostPerSpan(SubjectHits(Run(calls).1, 0), 2 * n - 1)
  {
    var log := Run(calls).1;
    HitTimesOfAll(log, 0, 0);
    TooMany(GlobalHits(log), n);
    if !manySources {
      TooMany(SourceHits(log, 0), n);
    }
    if !manySubjects {
      TooMany(SubjectHits(log, 0), n);
    }
  }

  lemma TooMany(hits: seq<Hit>, n: nat)
    requires n > 0 && |hits| == 2 * n && hits[0].time == 0 && hits[2 * n - 1].time == WINDOW
    ensures !AtMostPerSpan(hits, 2 * n - 1)
  {
    assert hits[2 * n - 1].time - hits[0].time <= WINDOW;
  }

  // ---------- Refused calls are charged ----------

  function Least(a: nat, b: nat): nat
  {
    if a < b then a else b
  }

  // The counters after `n` calls at one moment from one source for one subject.
  predicate Exhausting(s: State, now: int, n: nat)
  {
    && Spent(s.global, now) == Least(n, 60) && (s.global.Some? ==> s.global.value.started == now)
    && s.sources.Keys <= {0} && Spent(Slot(s.sources, 0), now) == Least(n, 20) && (0 in s.sources ==> s.sources[0].started == now)
    && s.subjects.Keys <= {0} && Spent(Slot(s.subjects, 0), now) == Least(n, 6) && (0 in s.subjects ==> s.subjects[0].started == now)
  }

  lemma FewKeys(table: Table, key: nat, now: int)
    requires table.Keys <= {0}
    ensures HasRoom(table, key, now)
  {
    CardinalityMonotone(LiveKeys(table, now), {0});
  }

  lemma ExhaustingStep(s: State, now: int, n: nat)
    requires Exhausting(s, now, n)
    ensures Exhausting(Consume(s, Call(now, 0, 0)).0, now, n + 1)
  {
    ConsumeOutcome(s, Call(now, 0, 0));
    FewKeys(s.sources, 0, now);
    FewKeys(s.subjects, 0, now);
  }

  /**
    Refused calls are charged too: of `n` calls at one moment from one source for one subject
    at most six are accepted, and yet the source counter has counted twenty and the overall
    counter sixty of them.
   */
  lemma {:induction false} RefusedCallsAreCharged(now: int, n: nat)
    ensures Exhausting(Run(Pulse([], now, false, false, n)).0, now, n)
  {
    if n > 0 {
      RefusedCallsAreCharged(now, n - 1);
      var early := Pulse([], now, false, false, n - 1);
      ExhaustingStep(Run(early).0, now, n - 1);
      NextState(early, Call(now, 0, 0));
    }
  }

  lemma NextState(calls: seq<Call>, call: Call)
    ensures Run(calls + [call]).0 == Consume(Run(calls).0, call).0
  {
    assert (calls + [call])[..|calls|] == calls;
  }

  /**
    So one insistent caller locks others out for the rest of the window: after twenty calls
    everyone behind the same source, after sixty everyone.
   */
  lemma InsistenceLocksOut(now: int, n: nat, call: Call)
    requires now <= call.now < now + WINDOW && (n >= 60 || (n >= 20 && call.source == 0))
    ensures !Consume(Run(Pulse([], now, false, false, n)).0, call).1
  {
    RefusedCallsAreCharged(now, n);
    ConsumeOutcome(Run(Pulse([], now, false, false, n)).0, call);
  }

  /**
    The limiter forgets: a call that comes at least one window after every earlier call is
    accepted, whatever happened before.
   */
  lemma QuietCallIsAccepted(calls: seq<Call>, call: Call)
    requires InTimeOrder(calls) && (calls != [] ==> LastTime(calls) + WINDOW <= call.now)
    ensures Consume(Run(calls).0, call).1
  {
    RunAccounted(calls);
    var s := Run(calls).0;
    if calls != [] {
      forall key
        ensures key !in CurrentTable(s.sources, call.now) && key !in CurrentTable(s.subjects, call.now)
      {
        assert Tracks(SourceHits(Run(calls).1, key), Slot(s.sources, key), SOURCE_LIMIT, LastTime(calls));
        assert Tracks(SubjectHits(Run(calls).1, key), Slot(s.subjects, key), SUBJECT_LIMIT, LastTime(calls));
      }
      assert CurrentTable(s.sources, call.now) == map[] && CurrentTable(s.subjects, call.now) == map[];
    } else {
      assert CurrentTable(s.sources, call.now) == map[];
    }
  }
}
