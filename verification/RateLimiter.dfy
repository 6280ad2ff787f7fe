/**
 * The sliding-window limiter of internal/api/middleware/rate_limit.go. Time is an explicit argument;
 * the mutex makes every Allow and every sweep one atomic step.
 */
module RateLimiter {

  datatype Config = Config(maxReqs: int, window: int)

  type Requests = map<string, seq<int>>

  /** The times strictly after the cutoff, in order. */
  function After(times: seq<int>, cutoff: int): (valid: seq<int>)
    ensures |valid| <= |times|
  {
    if times == [] then []
    else (if times[0] > cutoff then [times[0]] else []) + After(times[1..], cutoff)
  }

  /** The list kept for an identifier; a missing key is an empty list. */
  function Stored(m: Requests, id: string): seq<int> {
    if id in m then m[id] else []
  }

  function AllowStep(cfg: Config, m: Requests, id: string, now: int): (bool, Requests) {
    var valid := After(Stored(m, id), now - cfg.window);
    if |valid| >= cfg.maxReqs then (false, m) else (true, m[id := valid + [now]])
  }

  function SweepStep(m: Requests, cutoff: int): Requests {
    map id | id in m && After(m[id], cutoff) != [] :: After(m[id], cutoff)
  }

  lemma {:induction false} AfterAppend(xs: seq<int>, ys: seq<int>, cutoff: int)
    ensures After(xs + ys, cutoff) == After(xs, cutoff) + After(ys, cutoff)
  {
    if xs == [] {
      assert xs + ys == ys;
    } else {
      assert (xs + ys)[1..] == xs[1..] + ys;
      AfterAppend(xs[1..], ys, cutoff);
    }
  }

  /** The sweep has dealt with this identifier. */
  ghost predicate SweptAt(before: Requests, m: Requests, cutoff: int, id: string) {
    && (id in m <==> id in before && After(before[id], cutoff) != [])
    && (id in m ==> m[id] == After(before[id], cutoff))
  }

  /** The sweep has dealt with every identifier that is not pending, and touched no pending one. */
  ghost predicate SweptExcept(before: Requests, m: Requests, cutoff: int, pending: set<string>) {
    && (forall id <- pending :: id in before && id in m && m[id] == before[id])
    && (forall id | id !in pending :: SweptAt(before, m, cutoff, id))
  }

  lemma {:induction false} SweepOne(before: Requests, m: Requests, cutoff: int, pending: set<string>, id: string)
    requires SweptExcept(before, m, cutoff, pending) && id in pending
    ensures
      var valid := After(m[id], cutoff);
      SweptExcept(before, if |valid| == 0 then m - {id} else m[id := valid], cutoff, pending - {id})
  {
    var valid := After(m[id], cutoff);
    var next := if |valid| == 0 then m - {id} else m[id := valid];
    assert m[id] == before[id] && SweptAt(before, next, cutoff, id);
    forall x | x !in pending - {id}
      ensures SweptAt(before, next, cutoff, x)
    {
      assert x != id ==> SweptAt(before, m, cutoff, x);
    }
    forall x <- pending - {id}
      ensures x in before && x in next && next[x] == before[x]
    {
      assert x in m;
    }
  }

  lemma SweptEverywhere(before: Requests, m: Requests, cutoff: int)
    requires SweptExcept(before, m, cutoff, {})
    ensures m == SweepStep(before, cutoff)
  {
    assert forall id :: SweptAt(before, m, cutoff, id);
    var swept := SweepStep(before, cutoff);
    assert forall id :: id in m <==> id in swept;
    assert forall id <- m :: m[id] == swept[id];
  }

  class Limiter {
    var requests: Requests
    const config: Config

    constructor (maxReqs: int, window: int)
      ensures requests == map[] && config == Config(maxReqs, window)
    {
      requests := map[];
      config := Config(maxReqs, window);
    }

    method Allow(identifier: string, now: int) returns (allowed: bool)
      modifies this
      ensures (allowed, requests) == AllowStep(config, old(requests), identifier, now)
    {
      var cutoff := now - config.window;
      var reqs := if identifier in requests then requests[identifier] else [];
      var validRequests := ValidRequests(reqs, cutoff);
      if |validRequests| >= config.maxReqs {
        return false;
      }
      validRequests := validRequests + [now];
      requests := requests[identifier := validRequests];
      return true;
    }

    /** One tick of the background sweep; the map is visited in any order. */
    method Cleanup(now: int)
      modifies this
      ensures requests == SweepStep(old(requests), now - config.window)
    {
      var cutoff := now - config.window;
      var pending := requests.Keys;
      ghost var before := requests;
      while pending != {}
        invariant SweptExcept(before, requests, cutoff, pending)
        decreases |pending|
      {
        var id :| id in pending;
        var validRequests := ValidRequests(requests[id], cutoff);
        SweepOne(before, requests, cutoff, pending, id);
        if |validRequests| == 0 {
          requests := requests - {id};
        } else {
          requests := requests[id := validRequests];
        }
        pending := pending - {id};
      }
      SweptEverywhere(before, requests, cutoff);
    }

    /** The filtering loop that Allow and cleanup share. */
    method ValidRequests(reqs: seq<int>, cutoff: int) returns (validRequests: seq<int>)
      ensures validRequests == After(reqs, cutoff)
    {
      validRequests := [];
      for i := 0 to |reqs|
        invariant validRequests == After(reqs[..i], cutoff)
      {
        assert reqs[..i + 1] == reqs[..i] + [reqs[i]];
        AfterAppend(reqs[..i], [reqs[i]], cutoff);
        if reqs[i] > cutoff {
          validRequests := validRequests + [reqs[i]];
        }
      }
      assert reqs[..|reqs|] == reqs;
    }
  }

  // ----- Runs -----

  datatype Event = Request(id: string, now: int) | Tick(now: int)

  datatype Answer = Answer(id: string, allowed: bool)

  /** The clock never goes back: it starts at `last` and the events follow in time order. */
  ghost predicate Monotone(last: int, events: seq<Event>) {
    && (forall i | 0 <= i < |events| :: last <= events[i].now)
    && (forall i, j | 0 <= i < j < |events| :: events[i].now <= events[j].now)
  }

  lemma MonotoneTail(last: int, events: seq<Event>)
    requires events != [] && Monotone(last, events)
    ensures last <= events[0].now && Monotone(events[0].now, events[1..])
  {
  }

  function NextRequests(cfg: Config, m: Requests, event: Event): Requests {
    match event
    case Request(id, now) => AllowStep(cfg, m, id, now).1
    case Tick(now) => SweepStep(m, now - cfg.window)
  }

  function Reply(cfg: Config, m: Requests, event: Event): seq<Answer> {
    match event
    case Request(id, now) => [Answer(id, AllowStep(cfg, m, id, now).0)]
    case Tick(_) => []
  }

  function RunLimiter(cfg: Config, m: Requests, events: seq<Event>): seq<Answer>
    decreases |events|
  {
    if events == [] then []
    else Reply(cfg, m, events[0]) + RunLimiter(cfg, NextRequests(cfg, m, events[0]), events[1..])
  }

  function RequestsAfter(cfg: Config, m: Requests, events: seq<Event>): Requests
    decreases |events|
  {
    if events == [] then m else RequestsAfter(cfg, NextRequests(cfg, m, events[0]), events[1..])
  }

  // ----- The reference: the full history of grants, never pruned or swept -----

  datatype Grant = Grant(id: string, time: int)

  function TimesOf(log: seq<Grant>, id: string): seq<int> {
    if log == [] then []
    else (if log[0].id == id then [log[0].time] else []) + TimesOf(log[1..], id)
  }

  /** How many grants to `id` lie in (from, to]. */
  function CountGrants(log: seq<Grant>, id: string, from: int, to: int): nat {
    if log == [] then 0
    else (if log[0].id == id && from < log[0].time <= to then 1 else 0) + CountGrants(log[1..], id, from, to)
  }

  predicate Permitted(cfg: Config, log: seq<Grant>, id: string, now: int) {
    CountGrants(log, id, now - cfg.window, now) < cfg.maxReqs
  }

  function NextLog(cfg: Config, log: seq<Grant>, event: Event): seq<Grant> {
    if event.Request? && Permitted(cfg, log, event.id, event.now) then log + [Grant(event.id, event.now)] else log
  }

  function ReplyFromHistory(cfg: Config, log: seq<Grant>, event: Event): seq<Answer> {
    match event
    case Request(id, now) => [Answer(id, Permitted(cfg, log, id, now))]
    case Tick(_) => []
  }

  function RunHistory(cfg: Config, log: seq<Grant>, events: seq<Event>): seq<Answer>
    decreases |events|
  {
    if events == [] then []
    else ReplyFromHistory(cfg, log, events[0]) + RunHistory(cfg, NextLog(cfg, log, events[0]), events[1..])
  }

  function LogAfter(cfg: Config, log: seq<Grant>, events: seq<Event>): seq<Grant>
    decreases |events|
  {
    if events == [] then log else LogAfter(cfg, NextLog(cfg, log, events[0]), events[1..])
  }

  // ----- Refinement -----

  lemma {:induction false} AfterAfter(xs: seq<int>, c: int, d: int)
    requires c <= d
    ensures After(After(xs, c), d) == After(xs, d)
  {
    if xs != [] {
      AfterAfter(xs[1..], c, d);
      AfterAppend(if xs[0] > c then [xs[0]] else [], After(xs[1..], c), d);
    }
  }

  lemma {:induction false} TimesOfAppend(log: seq<Grant>, g: Grant, id: string)
    ensures TimesOf(log + [g], id) == TimesOf(log, id) + (if g.id == id then [g.time] else [])
  {
    if log == [] {
      assert log + [g] == [g];
      assert TimesOf([g][1..], id) == [];
    } else {
      var more := log + [g];
      assert more[0] == log[0] && more[1..] == log[1..] + [g];
      TimesOfAppend(log[1..], g, id);
      var head := if log[0].id == id then [log[0].time] else [];
      assert TimesOf(more, id) == head + TimesOf(more[1..], id);
      assert TimesOf(log, id) == head + TimesOf(log[1..], id);
    }
  }

  /** A step adds its time to its own identifier's times when it is granted, and nothing else. */
  lemma NextTimes(cfg: Config, log: seq<Grant>, event: Event, id: string)
    ensures TimesOf(NextLog(cfg, log, event), id)
         == if event.Request? && event.id == id && Permitted(cfg, log, id, event.now)
            then TimesOf(log, id) + [event.now]
            else TimesOf(log, id)
  {
    if event.Request? {
      TimesOfAppend(log, Grant(event.id, event.now), id);
    }
  }

  ghost predicate NoneAfter(log: seq<Grant>, last: int) {
    forall g <- log :: g.time <= last
  }

  /** Counting the window in the full log is filtering the identifier's times by the cutoff. */
  lemma {:induction false} CountIsAfter(log: seq<Grant>, id: string, from: int, to: int)
    requires NoneAfter(log, to)
    ensures CountGrants(log, id, from, to) == |After(TimesOf(log, id), from)|
  {
    if log != [] {
      CountIsAfter(log[1..], id, from, to);
      AfterAppend(if log[0].id == id then [log[0].time] else [], TimesOf(log[1..], id), from);
    }
  }

  /** For one identifier, the pruned list and the full history agree from some cutoff on. */
  ghost predicate AgreeFrom(stored: seq<int>, times: seq<int>, cutoff: int) {
    forall c | cutoff <= c :: After(stored, c) == After(times, c)
  }

  ghost predicate Represents(cfg: Config, m: Requests, log: seq<Grant>, last: int) {
    forall id :: AgreeFrom(Stored(m, id), TimesOf(log, id), last - cfg.window)
  }

  lemma PruningAgrees(stored: seq<int>, times: seq<int>, cutoff: int)
    requires AgreeFrom(stored, times, cutoff)
    ensures AgreeFrom(After(stored, cutoff), times, cutoff)
  {
    forall c | cutoff <= c
      ensures After(After(stored, cutoff), c) == After(times, c)
    {
      AfterAfter(stored, cutoff, c);
    }
  }

  lemma GrantAgrees(stored: seq<int>, times: seq<int>, cutoff: int, now: int)
    requires AgreeFrom(stored, times, cutoff)
    ensures AgreeFrom(stored + [now], times + [now], cutoff)
  {
    forall c | cutoff <= c
      ensures After(stored + [now], c) == After(times + [now], c)
    {
      AfterAppend(stored, [now], c);
      AfterAppend(times, [now], c);
    }
  }

  lemma StepRepliesAlike(cfg: Config, m: Requests, log: seq<Grant>, event: Event)
    requires event.Request? ==>
               && AgreeFrom(Stored(m, event.id), TimesOf(log, event.id), event.now - cfg.window)
               && NoneAfter(log, event.now)
    ensures Reply(cfg, m, event) == ReplyFromHistory(cfg, log, event)
  {
    if event.Request? {
      CountIsAfter(log, event.id, event.now - cfg.window, event.now);
    }
  }

  lemma StepRepresents(cfg: Config, m: Requests, log: seq<Grant>, last: int, event: Event)
    requires Represents(cfg, m, log, last) && NoneAfter(log, last) && last <= event.now
    ensures Reply(cfg, m, event) == ReplyFromHistory(cfg, log, event)
    ensures Represents(cfg, NextRequests(cfg, m, event), NextLog(cfg, log, event), event.now)
  {
    var cutoff := event.now - cfg.window;
    if event.Request? {
      assert AgreeFrom(Stored(m, event.id), TimesOf(log, event.id), last - cfg.window);
    }
    StepRepliesAlike(cfg, m, log, event);
    forall id
      ensures AgreeFrom(Stored(NextRequests(cfg, m, event), id), TimesOf(NextLog(cfg, log, event), id), cutoff)
    {
      assert AgreeFrom(Stored(m, id), TimesOf(log, id), last - cfg.window);
      StepRepresentsOne(cfg, m, log, event, id);
    }
  }

  lemma StepRepresentsOne(cfg: Config, m: Requests, log: seq<Grant>, event: Event, id: string)
    requires AgreeFrom(Stored(m, id), TimesOf(log, id), event.now - cfg.window)
    requires Reply(cfg, m, event) == ReplyFromHistory(cfg, log, event)
    ensures AgreeFrom(Stored(NextRequests(cfg, m, event), id), TimesOf(NextLog(cfg, log, event), id),
                      event.now - cfg.window)
  {
    NextTimes(cfg, log, event, id);
    NextStored(cfg, m, event, id);
    PruningAgrees(Stored(m, id), TimesOf(log, id), event.now - cfg.window);
    GrantAgrees(After(Stored(m, id), event.now - cfg.window), TimesOf(log, id), event.now - cfg.window, event.now);
  }

  /** What a step makes of one identifier's list. */
  lemma NextStored(cfg: Config, m: Requests, event: Event, id: string)
    ensures
      var pruned := After(Stored(m, id), event.now - cfg.window);
      Stored(NextRequests(cfg, m, event), id) ==
        match event
        case Tick(_) => pruned
        case Request(who, now) => if Reply(cfg, m, event) == [Answer(id, true)] then pruned + [now] else Stored(m, id)
  {
    if event.Tick? && id in m && After(m[id], event.now - cfg.window) == [] {
      assert id !in SweepStep(m, event.now - cfg.window);
    }
  }

  lemma {:induction false} RunRefinesHistory(cfg: Config, m: Requests, log: seq<Grant>, last: int, events: seq<Event>)
    requires Represents(cfg, m, log, last) && NoneAfter(log, last) && Monotone(last, events)
    ensures RunLimiter(cfg, m, events) == RunHistory(cfg, log, events)
    decreases |events|
  {
    if events != [] {
      MonotoneTail(last, events);
      StepRepresents(cfg, m, log, last, events[0]);
      RunRefinesHistory(cfg, NextRequests(cfg, m, events[0]), NextLog(cfg, log, events[0]), events[0].now, events[1..]);
    }
  }

  /**
   * Main result: from an empty limiter, over any interleaving of requests and sweeps with a clock that
   * does not go back, every answer is the one the full history gives. Pruning and sweeping never matter.
   */
  lemma LimiterRefinesHistory(cfg: Config, last: int, events: seq<Event>)
    requires Monotone(last, events)
    ensures RunLimiter(cfg, map[], events) == RunHistory(cfg, [], events)
  {
    RunRefinesHistory(cfg, map[], [], last, events);
  }

  // ----- The sliding-window bound -----

  ghost predicate Sorted(times: seq<int>) {
    forall i, j | 0 <= i < j < |times| :: times[i] <= times[j]
  }

  ghost predicate NoneLater(times: seq<int>, last: int) {
    forall i | 0 <= i < |times| :: times[i] <= last
  }

  /** A grant and the one maxReqs places later are at least one window apart. */
  ghost predicate Spaced(cfg: Config, times: seq<int>) {
    forall i, j | 0 <= i < j < |times| && j == i + cfg.maxReqs :: times[i] + cfg.window <= times[j]
  }

  /** In a sorted list, filtering by a cutoff keeps a suffix. */
  lemma {:induction false} AfterIsSuffix(times: seq<int>, cutoff: int)
    requires Sorted(times)
    ensures
      var k := |times| - |After(times, cutoff)|;
      && After(times, cutoff) == times[k..]
      && (forall i | 0 <= i < k :: times[i] <= cutoff)
      && (forall i | k <= i < |times| :: times[i] > cutoff)
  {
    if times == [] {
    } else if times[0] > cutoff {
      AfterKeepsAll(times, cutoff);
      assert times[0..] == times;
    } else {
      var rest := times[1..];
      AfterIsSuffix(rest, cutoff);
      assert After(times, cutoff) == After(rest, cutoff);
      var k := |times| - |After(times, cutoff)|;
      assert rest[k - 1..] == times[k..];
      assert forall i | 0 < i < |times| :: times[i] == rest[i - 1];
    }
  }

  lemma {:induction false} AfterKeepsAll(times: seq<int>, cutoff: int)
    requires forall i | 0 <= i < |times| :: times[i] > cutoff
    ensures After(times, cutoff) == times
  {
    if times != [] {
      AfterKeepsAll(times[1..], cutoff);
    }
  }

  /**
   * Granting is exactly what the bound allows: with positive maxReqs, a request is permitted if and
   * only if the identifier's grants stay spaced with this one added.
   */
  lemma PermittedIffStaysSpaced(cfg: Config, log: seq<Grant>, id: string, now: int)
    requires 0 < cfg.maxReqs && NoneAfter(log, now)
    requires Sorted(TimesOf(log, id)) && Spaced(cfg, TimesOf(log, id))
    ensures Permitted(cfg, log, id, now) <==> Spaced(cfg, TimesOf(log, id) + [now])
  {
    var times := TimesOf(log, id);
    var cutoff := now - cfg.window;
    CountIsAfter(log, id, cutoff, now);
    AfterIsSuffix(times, cutoff);
    var next := times + [now];
    var i := |times| - cfg.maxReqs;
    if Permitted(cfg, log, id, now) {
      forall a, b | 0 <= a < b < |next| && b == a + cfg.maxReqs
        ensures next[a] + cfg.window <= next[b]
      {
        if b == |times| {
          assert a == i && times[a] <= cutoff;
        }
      }
    } else {
      assert times[i] > cutoff;
      assert next[i] + cfg.window > next[|times|];
    }
  }

  /** A time that is not earlier than any other goes to the end. */
  lemma SortedAppend(times: seq<int>, last: int, now: int)
    requires Sorted(times) && NoneLater(times, last) && last <= now
    ensures NoneLater(times, now)
    ensures Sorted(times + [now]) && NoneLater(times + [now], now)
  {
  }

  ghost predicate InBounds(cfg: Config, times: seq<int>, last: int) {
    Sorted(times) && NoneLater(times, last) && Spaced(cfg, times)
  }

  lemma NextTimesInBounds(cfg: Config, log: seq<Grant>, last: int, event: Event, id: string)
    requires NoneAfter(log, last) && last <= event.now && InBounds(cfg, TimesOf(log, id), last)
    ensures InBounds(cfg, TimesOf(NextLog(cfg, log, event), id), event.now)
  {
    NextTimes(cfg, log, event, id);
    SortedAppend(TimesOf(log, id), last, event.now);
    if event.Request? && event.id == id && Permitted(cfg, log, id, event.now) {
      PermittedIffStaysSpaced(cfg, log, id, event.now);
    }
  }

  /** In any run of the history, the grants to one identifier stay in time order and spaced. */
  lemma {:induction false} HistoryIsSpaced(cfg: Config, log: seq<Grant>, last: int, events: seq<Event>, id: string)
    requires Monotone(last, events) && NoneAfter(log, last) && InBounds(cfg, TimesOf(log, id), last)
    ensures
      var times := TimesOf(LogAfter(cfg, log, events), id);
      Sorted(times) && Spaced(cfg, times)
    decreases |events|
  {
    if events != [] {
      MonotoneTail(last, events);
      NextTimesInBounds(cfg, log, last, events[0], id);
      HistoryIsSpaced(cfg, NextLog(cfg, log, events[0]), events[0].now, events[1..], id);
    }
  }

  /** The times of the requests of one identifier that were answered with yes. */
  function GrantTimes(events: seq<Event>, answers: seq<Answer>, id: string): seq<int>
    decreases |events|
  {
    if events == [] then []
    else
      match events[0]
      case Tick(_) => GrantTimes(events[1..], answers, id)
      case Request(x, now) =>
        if answers == [] then []
        else (if x == id && answers[0].allowed then [now] else []) + GrantTimes(events[1..], answers[1..], id)
  }

  /** The history's log is what its own answers granted. */
  lemma {:induction false} LogIsWhatWasGranted(cfg: Config, log: seq<Grant>, events: seq<Event>, id: string)
    ensures TimesOf(LogAfter(cfg, log, events), id)
         == TimesOf(log, id) + GrantTimes(events, RunHistory(cfg, log, events), id)
    decreases |events|
  {
    if events != [] {
      var event := events[0];
      var next := NextLog(cfg, log, event);
      var rest := RunHistory(cfg, next, events[1..]);
      NextTimes(cfg, log, event, id);
      LogIsWhatWasGranted(cfg, next, events[1..], id);
      if event.Request? {
        assert RunHistory(cfg, log, events)[1..] == rest;
      } else {
        assert RunHistory(cfg, log, events) == rest;
      }
    }
  }

  /**
   * Main result: over any run of the limiter from empty, the requests of an identifier that it grants are in
   * time order, and the one maxReqs places after another comes at least a full window later.
   */
  lemma GrantsAreSpaced(cfg: Config, last: int, events: seq<Event>, id: string)
    requires Monotone(last, events)
    ensures
      var times := GrantTimes(events, RunLimiter(cfg, map[], events), id);
      Sorted(times) && Spaced(cfg, times)
  {
    LimiterRefinesHistory(cfg, last, events);
    LogIsWhatWasGranted(cfg, [], events, id);
    HistoryIsSpaced(cfg, [], last, events, id);
    var times := GrantTimes(events, RunHistory(cfg, [], events), id);
    assert [] + times == times;
  }

  // ----- What the limiter keeps -----

  /** A stored list is sorted, at most maxReqs long, and holds no time later than `last`. */
  ghost predicate ListInBounds(cfg: Config, times: seq<int>, last: int) {
    Sorted(times) && NoneLater(times, last) && (times == [] || |times| <= cfg.maxReqs)
  }

  lemma NextListInBounds(cfg: Config, m: Requests, last: int, event: Event, id: string)
    requires ListInBounds(cfg, Stored(m, id), last) && last <= event.now
    ensures ListInBounds(cfg, Stored(NextRequests(cfg, m, event), id), event.now)
  {
    var cutoff := event.now - cfg.window;
    var stored := Stored(m, id);
    PrunedListInBounds(cfg, stored, last, cutoff);
    SortedAppend(stored, last, event.now);
    SortedAppend(After(stored, cutoff), last, event.now);
  }

  lemma PrunedListInBounds(cfg: Config, times: seq<int>, last: int, cutoff: int)
    requires ListInBounds(cfg, times, last)
    ensures ListInBounds(cfg, After(times, cutoff), last)
  {
    AfterIsSuffix(times, cutoff);
    var k := |times| - |After(times, cutoff)|;
    assert forall i | 0 <= i < |times| - k :: times[k..][i] == times[k + i];
  }

  /** Main result: in every state of a run each stored list is sorted and at most maxReqs long. */
  lemma {:induction false} StoredListsStayInBounds(
      cfg: Config, m: Requests, last: int, events: seq<Event>, id: string) returns (end: int)
    requires ListInBounds(cfg, Stored(m, id), last) && Monotone(last, events)
    ensures ListInBounds(cfg, Stored(RequestsAfter(cfg, m, events), id), end)
    decreases |events|
  {
    end := last;
    if events != [] {
      MonotoneTail(last, events);
      NextListInBounds(cfg, m, last, events[0], id);
      end := StoredListsStayInBounds(cfg, NextRequests(cfg, m, events[0]), events[0].now, events[1..], id);
    }
  }

  // ----- Identifiers do not influence each other -----

  function AnswersTo(answers: seq<Answer>, id: string): seq<Answer> {
    if answers == [] then []
    else (if answers[0].id == id then [answers[0]] else []) + AnswersTo(answers[1..], id)
  }

  /** The requests of one identifier, without sweeps. */
  function OwnRequests(events: seq<Event>, id: string): seq<Event>
    decreases |events|
  {
    if events == [] then []
    else if events[0].Request? && events[0].id == id then [events[0]] + OwnRequests(events[1..], id)
    else OwnRequests(events[1..], id)
  }

  lemma {:induction false} PermittedDependsOnTimes(cfg: Config, log: seq<Grant>, log': seq<Grant>, id: string, now: int)
    requires NoneAfter(log, now) && NoneAfter(log', now) && TimesOf(log, id) == TimesOf(log', id)
    ensures Permitted(cfg, log, id, now) <==> Permitted(cfg, log', id, now)
  {
    CountIsAfter(log, id, now - cfg.window, now);
    CountIsAfter(log', id, now - cfg.window, now);
  }

  lemma {:induction false} HistoryIsIndependent(
      cfg: Config, log: seq<Grant>, log': seq<Grant>, last: int, events: seq<Event>, id: string)
    requires Monotone(last, events) && NoneAfter(log, last) && NoneAfter(log', last)
    requires TimesOf(log, id) == TimesOf(log', id)
    ensures AnswersTo(RunHistory(cfg, log, events), id) == RunHistory(cfg, log', OwnRequests(events, id))
    decreases |events|
  {
    if events != [] {
      MonotoneTail(last, events);
      var event := events[0];
      var next := NextLog(cfg, log, event);
      var rest := RunHistory(cfg, next, events[1..]);
      NextTimes(cfg, log, event, id);
      if event.Request? && event.id == id {
        PermittedDependsOnTimes(cfg, log, log', id, event.now);
        NextTimes(cfg, log', event, id);
        HistoryIsIndependent(cfg, next, NextLog(cfg, log', event), event.now, events[1..], id);
        assert RunHistory(cfg, log, events)[1..] == rest;
        assert OwnRequests(events, id)[1..] == OwnRequests(events[1..], id);
      } else {
        HistoryIsIndependent(cfg, next, log', event.now, events[1..], id);
        if event.Request? {
          assert RunHistory(cfg, log, events)[1..] == rest;
        } else {
          assert RunHistory(cfg, log, events) == rest;
        }
      }
    }
  }

  lemma {:induction false} OwnRequestsMonotone(last: int, events: seq<Event>, id: string)
    requires Monotone(last, events)
    ensures Monotone(last, OwnRequests(events, id))
    decreases |events|
  {
    if events != [] {
      MonotoneTail(last, events);
      OwnRequestsMonotone(events[0].now, events[1..], id);
    }
  }

  /** Main result: an identifier's answers are those of a limiter that sees only its own requests. */
  lemma IdentifiersAreIndependent(cfg: Config, last: int, events: seq<Event>, id: string)
    requires Monotone(last, events)
    ensures AnswersTo(RunLimiter(cfg, map[], events), id) == RunLimiter(cfg, map[], OwnRequests(events, id))
  {
    LimiterRefinesHistory(cfg, last, events);
    OwnRequestsMonotone(last, events, id);
    LimiterRefinesHistory(cfg, last, OwnRequests(events, id));
    HistoryIsIndependent(cfg, [], [], last, events, id);
  }
}
