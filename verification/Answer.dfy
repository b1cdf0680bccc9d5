/**
 * `submitAnswer` of apps/ios/answer.ts against every server that keeps its promises: a key is
 * applied at most once, a repeat of an applied key is never refused as not applied, and a key
 * refused as not applied is never applied, not even by a copy still on its way. Replies may be
 * lost, requests may be applied long after they were sent, and others may answer first.
 */
module Answer {

  datatype Option<+T> = None | Some(value: T)

  /** How a send can fail: `unknown` and `notApplied` are what the two classifiers say of the error. */
  datatype Reply = Accepted | Failed(unknown: bool, notApplied: bool)

  /** What the world decides at one moment. */
  datatype Choice = Choice(late: set<nat>, closed: bool, reply: Reply, taken: bool, canBuild: bool, knows: bool)

  datatype Outcome = Sent | Already | Error

  /** `REPEAT_AFTER_MS`. */
  const REPEAT_AFTER_MS: nat := 1000

  /** The delay before attempt `k + 2`: 50 ms doubling, up to 2 s. */
  function Delay(k: nat): nat {
    if k == 0 then 50 else if Delay(k - 1) * 2 < 2000 then Delay(k - 1) * 2 else 2000
  }

  /** All delays up to attempt `n + 1`. */
  function TotalDelay(n: nat): nat {
    if n == 0 then 0 else TotalDelay(n - 1) + Delay(n - 1)
  }

  // ----- what the app does, as seen from outside -----

  datatype Event = Built(key: nat) | CannotBuild | Answered(key: nat, reply: Reply) | Waited(ms: nat) | Asked(answer: Option<bool>)

  /** The course of one answer with `left` tries left, the first of which is number `attempt`. */
  ghost predicate Course(ev: seq<Event>, left: nat, attempt: nat, outcome: Outcome)
    decreases left
  {
    if left == 0 then ev == [] && outcome.Error?
    else if ev == [CannotBuild] then outcome.Error?
    else
      && |ev| > 1 && ev[0].Built? && ev[1].Answered? && ev[1].key == ev[0].key
      && if ev[1].reply.Accepted? then |ev| == 2 && outcome.Sent?
         else if !ev[1].reply.unknown then Decides(ev[2..], ev[1].reply, left, attempt, outcome)
         else
           && |ev| > 3 && ev[2] == Waited(REPEAT_AFTER_MS) && ev[3].Answered? && ev[3].key == ev[0].key
           && if ev[3].reply.Accepted? then |ev| == 4 && outcome.Sent?
              else Decides(ev[4..], ev[3].reply, left, attempt, outcome)
  }

  /** What follows a last failed send of a request. */
  ghost predicate Decides(ev: seq<Event>, last: Reply, left: nat, attempt: nat, outcome: Outcome)
    requires left > 0 && last.Failed?
    decreases left, 0
  {
    && |ev| > 0 && ev[0].Asked?
    && if ev[0].answer == Some(false) then |ev| == 1 && outcome.Already?
       else if !last.notApplied || left == 1 then |ev| == 1 && outcome.Error?
       else |ev| > 1 && ev[1] == Waited(Delay(attempt)) && Course(ev[2..], left - 1, attempt + 1, outcome)
  }

  /** How many events one try that is followed by another takes. */
  ghost function Skip(ev: seq<Event>): nat
    requires |ev| > 1 && ev[1].Answered?
  {
    if ev[1].reply.Failed? && ev[1].reply.unknown then 6 else 4
  }

  lemma FirstTry(ev: seq<Event>, left: nat, attempt: nat, outcome: Outcome)
    requires Course(ev, left, attempt, outcome) && |ev| > 1
    ensures ev[0].Built? && ev[1].Answered? && ev[1].key == ev[0].key
    ensures Skip(ev) == 6 ==> |ev| > 3 && ev[2] == Waited(REPEAT_AFTER_MS) && ev[3].Answered? && ev[3].key == ev[0].key
    ensures |ev| > Skip(ev) - 2 ==> ev[Skip(ev) - 2].Asked?
  {
    hide Delay;
  }

  lemma NextTry(ev: seq<Event>, left: nat, attempt: nat, outcome: Outcome)
    requires Course(ev, left, attempt, outcome) && |ev| > 1 && ev[1].Answered? && |ev| >= Skip(ev)
    ensures var n := Skip(ev);
      && left > 1 && ev[n - 1].Waited? && ev[n - 2].Asked? && ev[n - 2].answer != Some(false)
      && ev[n - 3].Answered? && ev[n - 3].reply.Failed? && ev[n - 3].reply.notApplied
      && Course(ev[n..], left - 1, attempt + 1, outcome)
  {
    hide Delay;
    var n := Skip(ev);
    var rest := ev[n - 2..];
    assert Decides(rest, ev[n - 3].reply, left, attempt, outcome);
    hide Course;
    assert rest[0] == ev[n - 2] && rest[1] == ev[n - 1] && rest[2..] == ev[n..];
  }

  /** A first send with an unknown outcome is always repeated, with the same key and after the fixed wait. */
  lemma {:induction false} UnknownIsRepeated(ev: seq<Event>, left: nat, attempt: nat, outcome: Outcome, p: nat)
    requires Course(ev, left, attempt, outcome) && 0 < p < |ev| && ev[p - 1].Built?
    requires ev[p].Answered? && ev[p].reply.Failed? && ev[p].reply.unknown
    ensures p + 2 < |ev| && ev[p + 1] == Waited(REPEAT_AFTER_MS) && ev[p + 2].Answered? && ev[p + 2].key == ev[p].key
    decreases left
  {
    FirstTry(ev, left, attempt, outcome);
    var n := Skip(ev);
    if p >= n {
      NextTry(ev, left, attempt, outcome);
      hide Course;
      UnknownIsRepeated(ev[n..], left - 1, attempt + 1, outcome, p - n);
    }
  }

  /** A new request is built only after the last one was refused as not applied and the item was not found settled. */
  lemma {:induction false} RebuiltOnlyAfterRefusal(ev: seq<Event>, left: nat, attempt: nat, outcome: Outcome, p: nat)
    requires Course(ev, left, attempt, outcome) && 0 < p < |ev| && (ev[p].Built? || ev[p].CannotBuild?)
    ensures p >= 3 && ev[p - 1].Waited? && ev[p - 2].Asked? && ev[p - 2].answer != Some(false)
    ensures ev[p - 3].Answered? && ev[p - 3].reply.Failed? && ev[p - 3].reply.notApplied
    decreases left
  {
    FirstTry(ev, left, attempt, outcome);
    var n := Skip(ev);
    if p >= n {
      NextTry(ev, left, attempt, outcome);
      hide Course;
      if p > n {
        RebuiltOnlyAfterRefusal(ev[n..], left - 1, attempt + 1, outcome, p - n);
      }
    }
  }

  class World {
    const choices: nat -> Choice
    ghost var log: seq<Event>
    var clock: nat
    var applied: set<nat>
    var refused: set<nat>
    var pending: set<nat>
    var waiting: bool
    var built: nat
    var sends: nat
    var waited: nat

    /** No refused key is applied, and an applied answer ends the wait. */
    ghost predicate Valid()
      reads this
    {
      && applied !! refused && pending !! refused
      && (forall k :: k in applied || k in refused || k in pending ==> k < built)
      && (applied != {} ==> !waiting)
    }

    /** What never goes back: refusals and applications stand, and a settled item stays settled. */
    twostate predicate Moves()
      reads this
    {
      old(refused) <= refused && old(applied) <= applied && (!old(waiting) ==> !waiting)
    }

    constructor (choices: nat -> Choice)
      ensures Valid() && built == sends == waited == 0 && log == []
    {
      this.choices := choices;
      clock, applied, refused, pending, waiting, built, sends, waited, log := 0, {}, {}, {}, true, 0, 0, 0, [];
    }

    /** Time passes: requests on their way may be applied, and someone else may settle the item. */
    method Pass() returns (c: Choice)
      requires Valid()
      modifies this
      ensures Valid() && Moves() && refused == old(refused) && built == old(built) && sends == old(sends) && waited == old(waited)
      ensures log == old(log)
    {
      c := choices(clock);
      clock := clock + 1;
      var late := c.late * pending;
      applied := applied + late;
      pending := pending - late;
      if late != {} || c.closed {
        waiting := false;
      }
    }

    method Build() returns (request: Option<nat>)
      requires Valid()
      modifies this
      ensures Valid() && Moves() && refused == old(refused) && sends == old(sends) && waited == old(waited)
      ensures request.None? ==> built == old(built)
      ensures request.Some? ==> built == old(built) + 1 && request.value == old(built)
      ensures log == old(log) + [if request.None? then CannotBuild else Built(request.value)]
    {
      var c := Pass();
      if !c.canBuild {
        log := log + [CannotBuild];
        return None;
      }
      log := log + [Built(built)];
      built := built + 1;
      return Some(built - 1);
    }

    method Send(request: nat) returns (reply: Reply)
      requires Valid() && request < built
      modifies this
      ensures Valid() && Moves() && built == old(built) && sends == old(sends) + 1 && waited == old(waited)
      ensures reply.Accepted? ==> request in applied
      ensures reply.Failed? && reply.notApplied ==> request in refused
      ensures refused <= old(refused) + {request}
      ensures log == old(log) + [Answered(request, reply)]
    {
      var c := Pass();
      sends := sends + 1;
      reply := c.reply;
      if reply.Accepted? && request in refused {
        reply := Failed(c.taken, true);
      } else if reply.Failed? && reply.notApplied && request in applied {
        reply := Failed(true, false);
      }
      if reply.Accepted? || (!reply.notApplied && c.taken && request !in refused) {
        applied := applied + {request};
        pending := pending - {request};
        waiting := false;
      } else if reply.notApplied {
        refused := refused + {request};
        pending := pending - {request};
      } else if request !in refused && request !in applied {
        pending := pending + {request};
      }
      log := log + [Answered(request, reply)];
    }

    /** `stillWaiting`: the truth, or nothing when it cannot say or throws. */
    method StillWaiting() returns (answer: Option<bool>)
      requires Valid()
      modifies this
      ensures Valid() && Moves() && refused == old(refused) && built == old(built) && sends == old(sends) && waited == old(waited)
      ensures answer == Some(false) ==> !waiting
      ensures log == old(log) + [Asked(answer)]
    {
      var c := Pass();
      answer := if c.knows then Some(waiting) else None;
      log := log + [Asked(answer)];
    }

    method Wait(ms: nat)
      requires Valid()
      modifies this
      ensures Valid() && Moves() && refused == old(refused) && built == old(built) && sends == old(sends) && waited == old(waited) + ms
      ensures log == old(log) + [Waited(ms)]
    {
      var _ := Pass();
      waited := waited + ms;
      log := log + [Waited(ms)];
    }

    /** `settled`. */
    method Settled() returns (settled: bool, ghost answer: Option<bool>)
      requires Valid()
      modifies this
      ensures Valid() && Moves() && refused == old(refused) && built == old(built) && sends == old(sends) && waited == old(waited)
      ensures settled ==> !waiting
      ensures log == old(log) + [Asked(answer)] && (settled <==> answer == Some(false))
    {
      var said := StillWaiting();
      settled, answer := said == Some(false), said;
    }

    /** The send of one request, and its repeat if the outcome is unknown. */
    method SendAndRepeat(request: nat) returns (last: Reply, ghost sent: seq<Event>)
      requires Valid() && request < built
      modifies this
      ensures Valid() && Moves() && built == old(built) && sends <= old(sends) + 2 && waited <= old(waited) + REPEAT_AFTER_MS
      ensures last.Accepted? ==> request in applied
      ensures last.Failed? && last.notApplied ==> request in refused
      ensures log == old(log) + sent && SendsOf([Built(request)] + sent, last)
    {
      last := Send(request);
      sent := [Answered(request, last)];
      if last.Failed? && last.unknown {
        Wait(REPEAT_AFTER_MS);
        last := Send(request);
        sent := sent + [Waited(REPEAT_AFTER_MS), Answered(request, last)];
      }
    }

    /** One try with `left` tries left: `None` if another one follows. */
    method Attempt(left: nat, wait: nat, ghost attempt: nat) returns (outcome: Option<Outcome>, ghost part: seq<Event>)
      requires Valid() && left > 0 && wait == Delay(attempt)
      modifies this
      ensures Valid() && Moves() && log == old(log) + part
      ensures old(built) <= built <= old(built) + 1 && sends <= old(sends) + 2 * (built - old(built))
      ensures waited <= old(waited) + REPEAT_AFTER_MS * (built - old(built)) + if outcome.None? then wait else 0
      ensures outcome.None? ==> left > 1 && built == old(built) + 1 && old(built) in refused && Opens(part, left, attempt)
      ensures outcome.Some? ==> Course(part, left, attempt, outcome.value) && (outcome.value != Error ==> !waiting)
      ensures outcome == Some(Sent) ==> built > old(built) && built - 1 in applied
    {
      hide Course, Opens, Delay, SendsOf;
      var request := Build();
      if request.None? {
        EndsUnbuilt(left, attempt);
        return Some(Error), [CannotBuild];
      }
      var last, sent := SendAndRepeat(request.value);
      part := [Built(request.value)] + sent;
      if last.Accepted? {
        EndsSent(part, left, attempt);
        return Some(Sent), part;
      }
      var settled, answer := Settled();
      if settled {
        EndsAsked(part, last, answer, left, attempt, Already);
        return Some(Already), part + [Asked(answer)];
      }
      if !last.notApplied || left == 1 {
        EndsAsked(part, last, answer, left, attempt, Error);
        return Some(Error), part + [Asked(answer)];
      }
      Wait(wait);
      GoesOn(part, last, answer, left, attempt);
      return None, part + [Asked(answer), Waited(wait)];
    }

    /**
     * `submitAnswer` with any try limit. All requests it built but the last are refused for good,
     * so at most one is ever applied; success means the item is settled; and builds, sends and
     * waiting are bounded by the limit.
     */
    method SubmitAnswer(tries: nat) returns (outcome: Outcome, ghost course: seq<Event>)
      requires Valid()
      modifies this
      ensures Valid() && Moves() && log == old(log) + course && Course(course, tries, 0, outcome)
      ensures forall k :: old(built) <= k < built - 1 ==> k in refused
      ensures outcome != Error ==> !waiting
      ensures outcome == Sent ==> built > old(built) && built - 1 in applied
      ensures old(built) <= built <= old(built) + tries
      ensures sends <= old(sends) + 2 * (built - old(built))
      ensures waited <= old(waited) + REPEAT_AFTER_MS * (built - old(built)) + TotalDelay(if tries == 0 then 0 else tries - 1)
    {
      hide Course, Delay, TotalDelay, Opens;
      DelayStep(0);
      var wait := 50;
      course := [];
      NothingYet(tries);
      for attempt := 0 to tries
        invariant Valid() && Moves() && built == old(built) + attempt && wait == Delay(attempt)
        invariant log == old(log) + course && Leads(course, tries, attempt)
        invariant forall k :: old(built) <= k < built ==> k in refused
        invariant sends <= old(sends) + 2 * attempt && attempt <= tries
        invariant waited <= old(waited) + REPEAT_AFTER_MS * attempt + TotalDelay(attempt)
        invariant attempt > 0 ==> attempt < tries
      {
        hide Leads;
        DelaysGrow(attempt, tries - 1);
        var done, part := Attempt(tries - attempt, wait, attempt);
        if done.Some? {
          LeadsTo(course, part, tries, attempt, done.value);
          course := course + part;
          return done.value, course;
        }
        LeadsOn(course, part, tries, attempt);
        course := course + part;
        DelayStep(attempt);
        wait := if wait * 2 < 2000 then wait * 2 else 2000;
      }
      NoTriesLeft(course, tries);
      return Error, course;
    }
  }

  // ----- the course as it is built up -----

  /** Whatever rounds off the course from attempt number `attempt` on rounds off the whole. */
  ghost predicate Leads(done: seq<Event>, tries: nat, attempt: nat) {
    attempt <= tries && forall rest, outcome :: Course(rest, tries - attempt, attempt, outcome) ==> Course(done + rest, tries, 0, outcome)
  }

  /** One try that another one may follow. */
  ghost predicate Opens(part: seq<Event>, left: nat, attempt: nat) {
    left > 0 && forall rest, outcome :: Course(rest, left - 1, attempt + 1, outcome) ==> Course(part + rest, left, attempt, outcome)
  }

  /** The sends of one request, the last of which got `last`. */
  ghost predicate SendsOf(part: seq<Event>, last: Reply) {
    && |part| > 1 && part[0].Built? && part[1].Answered? && part[1].key == part[0].key
    && ((|part| == 2 && part[1].reply == last && (last.Accepted? || !last.unknown))
        || (|part| == 4 && part[1].reply.Failed? && part[1].reply.unknown && part[2] == Waited(REPEAT_AFTER_MS)
            && part[3] == Answered(part[0].key, last)))
  }

  lemma NothingYet(tries: nat)
    ensures Leads([], tries, 0)
  {
    hide Course;
    assert forall rest: seq<Event> :: [] + rest == rest;
  }

  lemma NoTriesLeft(done: seq<Event>, tries: nat)
    requires Leads(done, tries, tries)
    ensures Course(done, tries, 0, Error)
  {
    assert Course([], 0, tries, Error);
    assert done + [] == done;
  }

  lemma LeadsTo(done: seq<Event>, part: seq<Event>, tries: nat, attempt: nat, outcome: Outcome)
    requires Leads(done, tries, attempt) && Course(part, tries - attempt, attempt, outcome)
    ensures Course(done + part, tries, 0, outcome)
  {
    hide Course;
  }

  lemma LeadsOn(done: seq<Event>, part: seq<Event>, tries: nat, attempt: nat)
    requires Leads(done, tries, attempt) && attempt < tries && Opens(part, tries - attempt, attempt)
    ensures Leads(done + part, tries, attempt + 1)
  {
    hide Course;
    forall rest, outcome | Course(rest, tries - attempt - 1, attempt + 1, outcome) ensures Course(done + part + rest, tries, 0, outcome) {
      assert done + part + rest == done + (part + rest);
    }
  }

  lemma EndsUnbuilt(left: nat, attempt: nat)
    requires left > 0
    ensures Course([CannotBuild], left, attempt, Error)
  {
  }

  lemma EndsSent(part: seq<Event>, left: nat, attempt: nat)
    requires left > 0 && SendsOf(part, Accepted)
    ensures Course(part, left, attempt, Sent)
  {
  }

  /** After the sends of a request that failed, the course goes on as the last reply decides. */
  lemma SendsThen(part: seq<Event>, last: Reply, rest: seq<Event>, left: nat, attempt: nat, outcome: Outcome)
    requires SendsOf(part, last) && last.Failed? && left > 0 && Decides(rest, last, left, attempt, outcome)
    ensures Course(part + rest, left, attempt, outcome)
  {
    var ev := part + rest;
    assert ev[|part|..] == rest && ev[..|part|] == part;
    assert forall k :: 0 <= k < |part| ==> ev[k] == part[k];
  }

  lemma EndsAsked(part: seq<Event>, last: Reply, answer: Option<bool>, left: nat, attempt: nat, outcome: Outcome)
    requires left > 0 && SendsOf(part, last) && last.Failed?
    requires if answer == Some(false) then outcome.Already? else outcome.Error? && (!last.notApplied || left == 1)
    ensures Course(part + [Asked(answer)], left, attempt, outcome)
  {
    hide Course;
    SendsThen(part, last, [Asked(answer)], left, attempt, outcome);
  }

  lemma GoesOn(part: seq<Event>, last: Reply, answer: Option<bool>, left: nat, attempt: nat)
    requires left > 1 && SendsOf(part, last) && last.Failed? && last.notApplied && answer != Some(false)
    ensures Opens(part + [Asked(answer), Waited(Delay(attempt))], left, attempt)
  {
    hide Course;
    var step := [Asked(answer), Waited(Delay(attempt))];
    forall rest, outcome | Course(rest, left - 1, attempt + 1, outcome) ensures Course(part + step + rest, left, attempt, outcome) {
      assert (step + rest)[2..] == rest;
      SendsThen(part, last, step + rest, left, attempt, outcome);
      assert part + step + rest == part + (step + rest);
    }
  }

  lemma DelayStep(n: nat)
    ensures Delay(0) == 50 && TotalDelay(0) == 0
    ensures Delay(n + 1) == (if Delay(n) * 2 < 2000 then Delay(n) * 2 else 2000) && TotalDelay(n + 1) == TotalDelay(n) + Delay(n)
  {
  }

  /** The delays are 50, 100, 200, 400, 800, 1600 and from then on 2000 ms; before the n-th try they add up to so much. */
  lemma {:induction false} DelayIs(n: nat)
    ensures Delay(n) == if n < 6 then [50, 100, 200, 400, 800, 1600][n] else 2000
    ensures TotalDelay(n) == if n < 6 then [0, 50, 150, 350, 750, 1550][n] else 3150 + 2000 * (n - 6)
  {
    if n > 0 {
      DelayIs(n - 1);
    }
  }

  lemma {:induction false} DelaysGrow(a: nat, b: nat)
    requires a <= b
    ensures TotalDelay(a) <= TotalDelay(b)
  {
    if a < b {
      DelaysGrow(a, b - 1);
    }
  }

  /** Whatever happens later, two requests of one answer are never both applied. */
  twostate lemma AtMostOneIsEverApplied(w: World, first: nat, end: nat, a: nat, b: nat)
    requires old(w.Valid()) && w.Valid() && w.Moves()
    requires old(forall k :: first <= k < end - 1 ==> k in w.refused)
    requires first <= a < end && first <= b < end && a in w.applied && b in w.applied
    ensures a == b
  {
  }

  /** No delay passes two seconds, so the waiting between tries grows at most linearly with the limit. */
  lemma DelayWithinLimits(n: nat)
    ensures Delay(n) <= 2000 && TotalDelay(n) <= 2000 * n
  {
  }
}
