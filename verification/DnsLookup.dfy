/**
 Name resolution in `connect` (esp8266 TCP and TLS clients). A lookup that times out stays with
 lwIP, whose callback fires later, possibly during another `connect`; the flags in the client keep
 such a late answer from being taken for the answer to a newer question.
 */
module DnsLookup {
  import opened Pattern

  /** An address, and the lookup it answers. */
  datatype Addr = Addr(ip: nat, query: nat)

  /** The client's lookup record. */
  datatype Record = Record(inFlight: bool, found: bool, addr: Addr)

  /** What a call is doing: nothing, or waiting for its own lookup. */
  datatype Phase = Idle | Waiting(query: nat)

  /** lwIP's lookups that will still call back into this client, and the number of the next one. */
  datatype Sys = Sys(rec: Record, outstanding: set<nat>, next: nat, phase: Phase)

  /** What lwIP says when asked: it knows the answer, it will call back, or it refuses. */
  datatype Asked = Cached(ip: nat) | InProgress | Rejected(code: int)

  /** What came of a call: an address to connect to, or an error. */
  datatype Result = Nothing | Resolved(addr: Addr, query: nat) | Failed(code: int)

  datatype Event = Call(asked: Asked) | Answer(query: nat, ip: Option<nat>) | Wake | Timeout

  predicate Enabled(s: Sys, e: Event) {
    match e
    case Call(asked) => s.phase.Idle?
    case Answer(query, ip) => query in s.outstanding
    case Wake => s.phase.Waiting? && !s.rec.inFlight
    case Timeout => s.phase.Waiting? && s.rec.inFlight
  }

  /** `onDnsFound`. The TLS client's version also clears `found` when there is no address. */
  function Answered(rec: Record, addr: Option<Addr>, tls: bool): Record {
    match addr
    case Some(a) => Record(false, true, a)
    case None => rec.(inFlight := false, found := rec.found && !tls)
  }

  function Ask(s: Sys, asked: Asked, tls: bool): (Sys, Result) {
    if s.rec.inFlight then (s, Failed(-98))
    else
      var q := s.next;
      var rec := s.rec.(inFlight := true, found := false);
      match asked
      case Cached(ip) => (s.(rec := rec.(inFlight := false), next := q + 1), Resolved(Addr(ip, q), q))
      case InProgress => (Sys(rec, s.outstanding + {q}, q + 1, Waiting(q)), Nothing)
      case Rejected(code) => (s.(rec := rec.(inFlight := false), next := q + 1), Failed(if tls then code else -99))
  }

  function Step(s: Sys, e: Event, tls: bool): (Sys, Result)
    requires Enabled(s, e)
  {
    match e
    case Call(asked) => Ask(s, asked, tls)
    case Answer(query, ip) =>
      var addr := match ip { case None => None case Some(a) => Some(Addr(a, query)) };
      (s.(rec := Answered(s.rec, addr, tls), outstanding := s.outstanding - {query}), Nothing)
    case Wake =>
      (s.(phase := Idle), if s.rec.found then Resolved(s.rec.addr, s.phase.query) else Failed(-100))
    case Timeout => (s.(phase := Idle), Failed(-100))
  }

  /** At most one lookup is outstanding, and the flag says whether one is; a call waits only for its own. */
  ghost predicate Inv(s: Sys) {
    && (s.rec.inFlight <==> s.outstanding != {})
    && (forall a, b :: a in s.outstanding && b in s.outstanding ==> a == b)
    && (forall a :: a in s.outstanding ==> a < s.next)
    && (s.phase.Waiting? ==>
          && (s.rec.inFlight ==> s.phase.query in s.outstanding)
          && (!s.rec.inFlight && s.rec.found ==> s.rec.addr.query == s.phase.query)
          && (s.rec.inFlight ==> !s.rec.found))
  }

  lemma StepKeeps(s: Sys, e: Event, tls: bool)
    requires Inv(s) && Enabled(s, e)
    ensures Inv(Step(s, e, tls).0)
  {
    if e.Answer? {
      assert s.outstanding - {e.query} == {};
    } else if e.Call? && !s.rec.inFlight {
      assert s.outstanding + {s.next} == {s.next};
    }
  }

  ghost predicate Run(states: seq<Sys>, events: seq<Event>, tls: bool) {
    && |states| == |events| + 1
    && !states[0].rec.inFlight && states[0].outstanding == {} && states[0].phase == Idle
    && forall i :: 0 <= i < |events| ==> Enabled(states[i], events[i]) && states[i + 1] == Step(states[i], events[i], tls).0
  }

  lemma {:induction false} RunKeeps(states: seq<Sys>, events: seq<Event>, tls: bool, n: nat)
    requires Run(states, events, tls) && n < |states|
    ensures Inv(states[n])
  {
    if n > 0 {
      RunKeeps(states, events, tls, n - 1);
      assert states[n - 1 + 1] == Step(states[n - 1], events[n - 1], tls).0;
      StepKeeps(states[n - 1], events[n - 1], tls);
    }
  }

  /** In every run, whatever timed out before, an address a call goes on with answers the lookup of that very call. */
  lemma AnswersNotMixedUp(states: seq<Sys>, events: seq<Event>, tls: bool, n: nat)
    requires Run(states, events, tls) && n < |events|
    ensures var r := Step(states[n], events[n], tls).1;
            && (r.Resolved? ==> r.addr.query == r.query)
            && (events[n].Wake? && r.Resolved? ==> r.query == states[n].phase.query)
            && (events[n].Call? && r.Resolved? ==> r.query == states[n].next)
  {
    RunKeeps(states, events, tls, n);
  }

  /** The event answers lookup `q` with an address. */
  predicate Tells(e: Event, q: nat) { e.Answer? && e.query == q && e.ip.Some? }

  /** A call that waits has an address exactly if its lookup was answered with one, and it is that one. */
  ghost predicate Told(s: Sys, events: seq<Event>) {
    && (forall m :: 0 <= m < |events| && events[m].Answer? ==> events[m].query < s.next)
    && (s.phase.Waiting? ==> s.phase.query < s.next)
    && (s.phase.Waiting? && s.rec.found ==>
          exists m :: 0 <= m < |events| && Tells(events[m], s.phase.query) && events[m].ip.value == s.rec.addr.ip)
    && (s.phase.Waiting? && !s.rec.found ==>
          forall m :: 0 <= m < |events| ==> !Tells(events[m], s.phase.query))
  }

  lemma ToldStep(s: Sys, events: seq<Event>, e: Event, tls: bool)
    requires Inv(s) && Told(s, events) && Enabled(s, e)
    ensures Told(Step(s, e, tls).0, events + [e])
  {
    var s', more := Step(s, e, tls).0, events + [e];
    assert more[|events|] == e;
    if s'.phase.Waiting? && s'.rec.found {
      assert Tells(more[|events|], s'.phase.query);
    }
  }

  lemma {:induction false} RunTold(states: seq<Sys>, events: seq<Event>, tls: bool, n: nat)
    requires Run(states, events, tls) && n < |states|
    ensures Told(states[n], events[..n])
  {
    if n > 0 {
      RunTold(states, events, tls, n - 1);
      RunKeeps(states, events, tls, n - 1);
      assert states[n - 1 + 1] == Step(states[n - 1], events[n - 1], tls).0;
      hide Told, Inv, Step;
      ToldStep(states[n - 1], events[..n - 1], events[n - 1], tls);
      assert events[..n - 1] + [events[n - 1]] == events[..n];
    }
  }

  /**
   In every run: a call goes on with the address that lwIP has at hand, as it is; a call that waited goes on if and only
   if its own lookup was answered with an address, and with that one; every other call fails with its code.
   */
  lemma UsedAsTold(states: seq<Sys>, events: seq<Event>, tls: bool, n: nat)
    requires Run(states, events, tls) && n < |events|
    ensures var s, e, r := states[n], events[n], Step(states[n], events[n], tls).1;
            && (e.Call? && s.rec.inFlight ==> r == Failed(-98))
            && (e.Call? && !s.rec.inFlight && e.asked.Cached? ==> r == Resolved(Addr(e.asked.ip, s.next), s.next))
            && (e.Call? && !s.rec.inFlight && e.asked.Rejected? ==> r == Failed(if tls then e.asked.code else -99))
            && (e.Timeout? ==> r == Failed(-100))
            && (e.Wake? ==> r == Failed(-100) || r.Resolved?)
            && (e.Wake? ==> (r.Resolved? <==> exists m :: 0 <= m < n && Tells(events[m], s.phase.query)))
            && (e.Wake? && r.Resolved? ==>
                  exists m :: 0 <= m < n && Tells(events[m], s.phase.query) && events[m].ip.value == r.addr.ip)
  {
    RunTold(states, events, tls, n);
    var s := states[n];
    if events[n].Wake? {
      var before := events[..n];
      if s.rec.found {
        var m :| 0 <= m < n && Tells(before[m], s.phase.query) && before[m].ip.value == s.rec.addr.ip;
        assert Tells(events[m], s.phase.query);
      } else {
        forall m | 0 <= m < n ensures !Tells(events[m], s.phase.query) {
          assert before[m] == events[m];
        }
      }
    }
  }

  /** What lwIP reports at a yield: the lookup it answers, with an address or without. */
  type Report = Option<(nat, Option<nat>)>

  /** The first report about lookup `q` at the yields from `k` to `patience`. */
  function FirstReport(reports: nat -> Report, q: nat, k: nat, patience: nat): Option<Option<nat>>
    decreases patience - k
  {
    if k >= patience then None
    else if reports(k).Some? && reports(k).value.0 == q then Some(reports(k).value.1)
    else FirstReport(reports, q, k + 1, patience)
  }

  /** The report is about lookup `q`. */
  predicate About(report: Report, q: nat) { report.Some? && report.value.0 == q }

  /** The first report about lookup `q`, from yield `from` on and within the patience, comes at `k`. */
  ghost predicate FirstAt(reports: nat -> Report, q: nat, from: nat, patience: nat, k: nat) {
    from <= k < patience && About(reports(k), q) && forall j: nat :: from <= j < k ==> !About(reports(j), q)
  }

  lemma {:induction false} FirstReportAt(reports: nat -> Report, q: nat, from: nat, patience: nat, k: nat)
    ensures FirstAt(reports, q, from, patience, k) ==> FirstReport(reports, q, from, patience) == Some(reports(k).value.1)
    decreases patience - from
  {
    if from < patience && !About(reports(from), q) {
      FirstReportAt(reports, q, from + 1, patience, k);
    }
  }

  lemma {:induction false} FirstReportFound(reports: nat -> Report, q: nat, from: nat, patience: nat) returns (k: nat)
    ensures FirstReport(reports, q, from, patience).Some? ==> FirstAt(reports, q, from, patience, k)
    decreases patience - from
  {
    k := from;
    if from < patience && !About(reports(from), q) {
      k := FirstReportFound(reports, q, from + 1, patience);
    }
  }

  /**
   What a lookup comes to, without its loop: an address that lwIP has at hand is used as it is; one it has to ask for
   is used if and only if the first report about this lookup within the patience has an address, and it is that one.
   */
  lemma OutcomeIs(asked: Asked, reports: nat -> Report, q: nat, patience: nat, tls: bool, ip: nat)
    ensures var r := Outcome(asked, reports, q, patience, tls);
            && (asked.Cached? ==> r == Resolved(Addr(asked.ip, q), q))
            && (asked.Rejected? ==> r == Failed(if tls then asked.code else -99))
            && (asked.InProgress? ==> r == Failed(-100) || r.Resolved?)
            && (asked.InProgress? ==>
                  (r == Resolved(Addr(ip, q), q) <==>
                   exists k :: FirstAt(reports, q, 0, patience, k) && reports(k).value.1 == Some(ip)))
  {
    var k := FirstReportFound(reports, q, 0, patience);
    forall j: nat ensures FirstAt(reports, q, 0, patience, j) ==> FirstReport(reports, q, 0, patience) == Some(reports(j).value.1) {
      FirstReportAt(reports, q, 0, patience, j);
    }
    hide FirstReport;
  }

  /** What a call that asked as lookup `q` comes to. */
  function Outcome(asked: Asked, reports: nat -> Report, q: nat, patience: nat, tls: bool): Result {
    match asked
    case Cached(ip) => Resolved(Addr(ip, q), q)
    case Rejected(code) => Failed(if tls then code else -99)
    case InProgress =>
      match FirstReport(reports, q, 0, patience)
      case Some(Some(ip)) => Resolved(Addr(ip, q), q)
      case _ => Failed(-100)
  }

  /** The events lead from `s` to `t` without a result. */
  predicate Reaches(s: Sys, events: seq<Event>, tls: bool, t: Sys)
    decreases |events|
  {
    if events == [] then t == s
    else
      Enabled(s, events[0]) &&
      var (s1, r) := Step(s, events[0], tls);
      r == Nothing && Reaches(s1, events[1..], tls, t)
  }

  lemma {:induction false} ReachesMore(s: Sys, events: seq<Event>, tls: bool, t: Sys, e: Event)
    requires Reaches(s, events, tls, t) && Enabled(t, e) && Step(t, e, tls).1 == Nothing
    ensures Reaches(s, events + [e], tls, Step(t, e, tls).0)
    decreases |events|
  {
    hide Step, Enabled;
    if events == [] {
      assert (events + [e])[1..] == [];
    } else {
      assert (events + [e])[1..] == events[1..] + [e];
      ReachesMore(Step(s, events[0], tls).0, events[1..], tls, t, e);
    }
  }

  lemma ReachesFirst(s: Sys, e: Event, events: seq<Event>, tls: bool, t: Sys)
    requires Enabled(s, e) && Step(s, e, tls).1 == Nothing && Reaches(Step(s, e, tls).0, events, tls, t)
    ensures Reaches(s, [e] + events, tls, t)
  {
    hide Step, Enabled;
    assert ([e] + events)[1..] == events;
  }

  /** A call plays like this: the events lead to a state in which the last one has this result. */
  ghost predicate Plays(s: Sys, events: seq<Event>, last: Event, tls: bool, t: Sys, r: Result) {
    exists mid :: Reaches(s, events, tls, mid) && Enabled(mid, last) && Step(mid, last, tls) == (t, r)
  }

  lemma PlaysAtOnce(s: Sys, e: Event, tls: bool)
    requires Enabled(s, e)
    ensures Plays(s, [], e, tls, Step(s, e, tls).0, Step(s, e, tls).1)
  {
    assert Reaches(s, [], tls, s);
  }

  /** The client's lookup record together with lwIP's lookups for it. */
  class Resolver {
    const tls: bool
    var inFlight: bool
    var found: bool
    var addr: Addr
    var outstanding: set<nat>
    var next: nat

    ghost function View(phase: Phase): Sys
      reads this
    {
      Sys(Record(inFlight, found, addr), outstanding, next, phase)
    }

    constructor (isTls: bool)
      ensures Inv(View(Idle)) && tls == isTls
    {
      tls, inFlight, found, addr, outstanding, next := isTls, false, false, Addr(0, 0), {}, 0;
    }

    method OnDnsFound(a: Option<Addr>)
      modifies this
      ensures Record(inFlight, found, addr) == Answered(old(Record(inFlight, found, addr)), a, tls)
      ensures outstanding == old(outstanding) && next == old(next)
    {
      if a.Some? {
        addr, found := a.value, true;
      } else if tls {
        found := false;
      }
      inFlight := false;
    }

    /** A yield during which lwIP may answer a lookup. */
    method Yield(answer: Report, ghost phase: Phase)
      requires Inv(View(phase))
      modifies this
      ensures Inv(View(phase)) && next == old(next)
      ensures if answer.Some? && answer.value.0 in old(outstanding)
              then !inFlight && (found && !old(found) ==> answer.value.1 == Some(addr.ip))
                   && (answer.value.1.Some? ==> found) && (answer.value.1.None? ==> found == (old(found) && !tls))
                   && View(phase) == Step(old(View(phase)), Answer(answer.value.0, answer.value.1), tls).0
              else View(phase) == old(View(phase))
    {
      if answer.Some? && answer.value.0 in outstanding {
        var (q, ip) := answer.value;
        StepKeeps(View(phase), Answer(q, ip), tls);
        outstanding := outstanding - {q};
        OnDnsFound(if ip.None? then None else Some(Addr(ip.value, q)));
      }
    }

    /** The wait of `connect`: until the lookup is answered or the patience is over. */
    method Await(q: nat, reports: nat -> Report, patience: nat) returns (ghost answers: seq<Event>)
      requires Inv(View(Waiting(q))) && inFlight
      modifies this
      ensures Inv(View(Waiting(q))) && next == old(next)
      ensures Reaches(old(View(Waiting(q))), answers, tls, View(Waiting(q)))
      ensures FirstReport(reports, q, 0, patience) == if inFlight then None else Some(if found then Some(addr.ip) else None)
    {
      ghost var start := View(Waiting(q));
      answers := [];
      var waited := 0;
      while inFlight && waited < patience
        invariant Inv(View(Waiting(q))) && next == old(next) && waited <= patience
        invariant Reaches(start, answers, tls, View(Waiting(q)))
        invariant inFlight ==> FirstReport(reports, q, 0, patience) == FirstReport(reports, q, waited, patience)
        invariant !inFlight ==> FirstReport(reports, q, 0, patience) == Some(if found then Some(addr.ip) else None)
      {
        ghost var before := View(Waiting(q));
        Yield(reports(waited), Waiting(q));
        if reports(waited).Some? && reports(waited).value.0 in before.outstanding {
          ghost var e := Answer(reports(waited).value.0, reports(waited).value.1);
          ReachesMore(start, answers, tls, before, e);
          answers := answers + [e];
        }
        waited := waited + 1;
      }
    }

    /**
     The lookup of `connect`; `patience` is how many yields fit into the timeout. The address it goes
     on with is the first one lwIP reports for this very lookup, and there is none after a timeout.
     The call plays like a run: the events, and the last one with its result.
     */
    method Lookup(asked: Asked, reports: nat -> Report, patience: nat)
      returns (r: Result, ghost events: seq<Event>, ghost last: Event)
      requires Inv(View(Idle))
      modifies this
      ensures Inv(View(Idle)) && !r.Nothing?
      ensures !old(inFlight) ==> r == Outcome(asked, reports, old(next), patience, tls)
      ensures old(inFlight) ==> r == Failed(-98) && View(Idle) == old(View(Idle))
      ensures Plays(old(View(Idle)), events, last, tls, View(Idle), r)
      ensures (if events == [] then last else events[0]) == Call(asked)
    {
      ghost var start := View(Idle);
      events, last := [], Call(asked);
      PlaysAtOnce(start, last, tls);
      if inFlight {
        return Failed(-98), events, last;
      }
      StepKeeps(start, last, tls);
      var q := next;
      inFlight, found := true, false;
      next := next + 1;
      match asked
      case Cached(ip) =>
        inFlight := false;
        return Resolved(Addr(ip, q), q), events, last;
      case Rejected(code) =>
        inFlight := false;
        return Failed(if tls then code else -99), events, last;
      case InProgress =>
        outstanding := outstanding + {q};
        assert Step(start, last, tls) == (View(Waiting(q)), Nothing);
        ghost var answers := Await(q, reports, patience);
        ReachesFirst(start, last, answers, tls, View(Waiting(q)));
        events, last := [last] + answers, if inFlight then Timeout else Wake;
        if inFlight || !found {
          return Failed(-100), events, last;
        }
        return Resolved(addr, q), events, last;
    }
  }
}
