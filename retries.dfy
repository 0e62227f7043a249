/**
 * The two retry loops of the scraper: `click_element_with_retries`, a
 * counted retry around one click, and `search_with_retries`, an initial pass
 * over the search terms followed by bounded retry rounds over the terms that
 * failed.
 *
 * The browser is replaced by oracles. A click attempt is looked up by its
 * index. A whole search session (start Chrome, open Google, search, filter,
 * scrape, quit) is looked up by its term and its round: round 0 is the
 * initial pass and round k is retry round k, so for one occurrence of a term
 * round k is its (k+1)-th attempt.
 */
module Retries {
  import opened Sequences
  import opened Scrape

  // ---------------------------------------------------------------------
  // click_element_with_retries
  // ---------------------------------------------------------------------

  /** How one wait for a clickable element, followed by the click, ends. */
  datatype ClickAttempt =
    | Clicked    // the element became clickable and was clicked
    | TimedOut   // `TimeoutException`: caught, followed by a pause
    | Raised     // any other exception: not caught

  /** What a call of `click_element_with_retries` does for its caller. */
  datatype ClickResult = Returned(clicked: bool) | Propagated

  /** The pause after each timed-out click attempt, in seconds. */
  const ClickPause: nat := 3

  /** The number of iterations of `range(retries)`. */
  function Bound(retries: int): nat {
    if retries < 0 then 0 else retries
  }

  /**
   * `click_element_with_retries(driver, by, value, retries)`. `attempts` is
   * the number of click attempts made and `slept` the seconds spent in
   * `time.sleep`.
   */
  method ClickElementWithRetries(attempt: nat -> ClickAttempt, retries: int)
    returns (r: ClickResult, attempts: nat, slept: nat)
    ensures attempts <= Bound(retries)
    ensures forall j :: 0 <= j < attempts - 1 ==> attempt(j) == TimedOut
    ensures r == Returned(true) <==>
              exists i :: 0 <= i < Bound(retries) && attempt(i) == Clicked &&
                          forall j :: 0 <= j < i ==> attempt(j) == TimedOut
    ensures r == Propagated <==>
              exists i :: 0 <= i < Bound(retries) && attempt(i) == Raised &&
                          forall j :: 0 <= j < i ==> attempt(j) == TimedOut
    ensures r == Returned(false) <==> forall i :: 0 <= i < Bound(retries) ==> attempt(i) == TimedOut
    ensures r == Returned(false) ==> attempts == Bound(retries) && slept == ClickPause * attempts
    ensures r != Returned(false) ==> 0 < attempts && attempt(attempts - 1) != TimedOut && slept == ClickPause * (attempts - 1)
  {
    var n := Bound(retries);
    attempts, slept := 0, 0;
    var i := 0;
    while i < n
      invariant 0 <= i <= n
      invariant attempts == i && slept == ClickPause * i
      invariant forall j :: 0 <= j < i ==> attempt(j) == TimedOut
    {
      var a := attempt(i);
      attempts := attempts + 1;
      if a == Clicked {
        return Returned(true), attempts, slept;
      } else if a == Raised {
        return Propagated, attempts, slept;
      }
      slept := slept + ClickPause;
      i := i + 1;
    }
    r := Returned(false);
  }

  // ---------------------------------------------------------------------
  // search_with_retries: the specification
  // ---------------------------------------------------------------------

  /**
   * How one search session for a term ends. `Scraped(page, closed)` means
   * `scrape_search_results` returned the records of `page` and they were
   * appended to `all_results`; `closed` is false when leaving the `with`
   * block (`driver.quit()`) then raised, which sends the term to
   * `failed_terms` although its records were kept. `Failed` is any
   * exception before that point.
   */
  datatype Outcome = Failed | Scraped(page: Page, closed: bool)

  type Oracle = (string, nat) -> Outcome

  /** The outcome of the session for `term` in `round`. */
  function Ask(outcome: Oracle, term: string, round: nat): Outcome {
    outcome(term, round)
  }

  /** The attempt raised nothing, so the term is not appended to `failed_terms`. */
  predicate Succeeded(o: Outcome) {
    o.Scraped? && o.closed
  }

  /** What one attempt adds to `all_results`. */
  function AttemptResults(term: string, o: Outcome): seq<Record> {
    if o.Scraped? then SearchRecords(term, o.page) else []
  }

  /** Observable effects: one browser session, or a `time.sleep`. */
  datatype Event = Searched(term: string, round: nat, ok: bool) | Slept(seconds: nat)

  /** The pause after each attempt of a retry round, in seconds. */
  const RoundPause: nat := 5

  /** The terms of `ts` whose attempt in `round` fails, in order, repeats kept. */
  function PassFailed(ts: seq<string>, outcome: Oracle, round: nat): seq<string> {
    if ts == [] then []
    else
      var init, last := ts[..|ts| - 1], ts[|ts| - 1];
      if Succeeded(Ask(outcome, last, round)) then PassFailed(init, outcome, round)
      else PassFailed(init, outcome, round) + [last]
  }

  /** A pass keeps every occurrence of a term that fails in that round and none of one that succeeds. */
  lemma {:induction false} PassFailedCount(ts: seq<string>, outcome: Oracle, round: nat, t: string)
    ensures multiset(PassFailed(ts, outcome, round))[t] ==
            if Succeeded(Ask(outcome, t, round)) then 0 else multiset(ts)[t]
  {
    if ts != [] {
      var init, last := ts[..|ts| - 1], ts[|ts| - 1];
      assert ts == init + [last];
      PassFailedCount(init, outcome, round, t);
    }
  }

  /** The failed terms of a pass are exactly the terms of its worklist that fail in that round. */
  lemma PassFailedMembers(ts: seq<string>, outcome: Oracle, round: nat)
    ensures forall t :: t in PassFailed(ts, outcome, round) <==> t in ts && !Succeeded(Ask(outcome, t, round))
  {
    forall t {
      PassFailedCount(ts, outcome, round, t);
    }
  }

  /** A retry round leaves the failed terms of its snapshot in snapshot order. */
  lemma {:induction false} PassFailedInOrder(ts: seq<string>, outcome: Oracle, round: nat)
    ensures IsSubsequence(PassFailed(ts, outcome, round), ts)
  {
    if ts != [] {
      var init, last := ts[..|ts| - 1], ts[|ts| - 1];
      assert ts == init + [last];
      PassFailedInOrder(init, outcome, round);
      SubsequenceSnoc(PassFailed(init, outcome, round), init, last);
    }
  }

  /** The records one pass over `ts` appends, in the order the attempts are made. */
  function PassResults(ts: seq<string>, outcome: Oracle, round: nat): seq<Record> {
    if ts == [] then []
    else
      var init, last := ts[..|ts| - 1], ts[|ts| - 1];
      PassResults(init, outcome, round) + AttemptResults(last, Ask(outcome, last, round))
  }

  /** Every record a pass appends names one of the terms searched in it. */
  lemma {:induction false} PassResultsNameTerms(ts: seq<string>, outcome: Oracle, round: nat)
    ensures forall x :: x in PassResults(ts, outcome, round) ==> x.company in ts
  {
    if ts != [] {
      var init, last := ts[..|ts| - 1], ts[|ts| - 1];
      assert ts == init + [last];
      PassResultsNameTerms(init, outcome, round);
      var o := Ask(outcome, last, round);
      if o.Scraped? {
        SearchRecordsName(last, o.page);
      }
    }
  }

  /** The events of one pass over `ts` in `round`. */
  function PassEvents(ts: seq<string>, outcome: Oracle, round: nat): seq<Event> {
    if ts == [] then []
    else
      var init, last := ts[..|ts| - 1], ts[|ts| - 1];
      PassEvents(init, outcome, round) + [Searched(last, round, Succeeded(Ask(outcome, last, round)))] +
      (if round > 0 then [Slept(RoundPause)] else [])
  }

  /**
   * Each term of the worklist gets one session, in order; in a retry round
   * a pause follows every session, successful or not, and the initial pass
   * never pauses.
   */
  lemma {:induction false} PassEventsShape(ts: seq<string>, outcome: Oracle, round: nat)
    ensures var r := PassEvents(ts, outcome, round);
            round == 0 ==>
              && |r| == |ts|
              && forall i :: 0 <= i < |ts| ==> r[i] == Searched(ts[i], 0, Succeeded(Ask(outcome, ts[i], 0)))
    ensures var r := PassEvents(ts, outcome, round);
            round > 0 ==>
              && |r| == 2 * |ts|
              && forall i :: 0 <= i < |ts| ==>
                   r[2 * i] == Searched(ts[i], round, Succeeded(Ask(outcome, ts[i], round))) && r[2 * i + 1] == Slept(RoundPause)
  {
    if round == 0 {
      InitialPassShape(ts, outcome);
    } else {
      RetryPassShape(ts, outcome, round);
    }
  }

  lemma {:induction false} InitialPassShape(ts: seq<string>, outcome: Oracle)
    ensures var r := PassEvents(ts, outcome, 0);
            && |r| == |ts|
            && forall i :: 0 <= i < |ts| ==> r[i] == Searched(ts[i], 0, Succeeded(Ask(outcome, ts[i], 0)))
  {
    if ts != [] {
      var init, last := ts[..|ts| - 1], ts[|ts| - 1];
      InitialPassShape(init, outcome);
      var p := PassEvents(init, outcome, 0);
      var r := PassEvents(ts, outcome, 0);
      assert r == p + [Searched(last, 0, Succeeded(Ask(outcome, last, 0)))];
      forall i | 0 <= i < |init|
        ensures r[i] == Searched(ts[i], 0, Succeeded(Ask(outcome, ts[i], 0)))
      {
        assert r[i] == p[i] && init[i] == ts[i];
      }
    }
  }

  lemma {:induction false} RetryPassShape(ts: seq<string>, outcome: Oracle, round: nat)
    requires round > 0
    ensures var r := PassEvents(ts, outcome, round);
            && |r| == 2 * |ts|
            && forall i :: 0 <= i < |ts| ==>
                 r[2 * i] == Searched(ts[i], round, Succeeded(Ask(outcome, ts[i], round))) && r[2 * i + 1] == Slept(RoundPause)
  {
    if ts != [] {
      var init, last := ts[..|ts| - 1], ts[|ts| - 1];
      RetryPassShape(init, outcome, round);
      var p := PassEvents(init, outcome, round);
      var r := PassEvents(ts, outcome, round);
      assert r == p + [Searched(last, round, Succeeded(Ask(outcome, last, round)))] + [Slept(RoundPause)];
      forall i | 0 <= i < |init|
        ensures r[2 * i] == Searched(ts[i], round, Succeeded(Ask(outcome, ts[i], round))) && r[2 * i + 1] == Slept(RoundPause)
      {
        assert r[2 * i] == p[2 * i] && r[2 * i + 1] == p[2 * i + 1] && init[i] == ts[i];
      }
    }
  }

  /** One more term at the end of a pass adds its own attempt to each of the three. */
  lemma PassSnoc(ts: seq<string>, x: string, outcome: Oracle, round: nat)
    ensures PassResults(ts + [x], outcome, round) == PassResults(ts, outcome, round) + AttemptResults(x, Ask(outcome, x, round))
    ensures PassFailed(ts + [x], outcome, round) ==
            PassFailed(ts, outcome, round) + (if Succeeded(Ask(outcome, x, round)) then [] else [x])
    ensures PassEvents(ts + [x], outcome, round) ==
            PassEvents(ts, outcome, round) + [Searched(x, round, Succeeded(Ask(outcome, x, round)))] +
            (if round > 0 then [Slept(RoundPause)] else [])
  {
    assert (ts + [x])[..|ts|] == ts;
  }

  /** `PassSnoc` at index `i` of `ts`, with the lists' contents before the pass in front. */
  lemma PassStep(results0: seq<Record>, failed0: seq<string>, events0: seq<Event>,
                 ts: seq<string>, i: nat, outcome: Oracle, round: nat)
    requires i < |ts|
    ensures results0 + PassResults(ts[..i + 1], outcome, round) ==
            (results0 + PassResults(ts[..i], outcome, round)) + AttemptResults(ts[i], Ask(outcome, ts[i], round))
    ensures failed0 + PassFailed(ts[..i + 1], outcome, round) ==
            (failed0 + PassFailed(ts[..i], outcome, round)) + (if Succeeded(Ask(outcome, ts[i], round)) then [] else [ts[i]])
    ensures var e := events0 + PassEvents(ts[..i], outcome, round) + [Searched(ts[i], round, Succeeded(Ask(outcome, ts[i], round)))];
            events0 + PassEvents(ts[..i + 1], outcome, round) == if round > 0 then e + [Slept(RoundPause)] else e
  {
    var done, x := ts[..i], ts[i];
    assert ts[..i + 1] == done + [x];
    PassSnoc(done, x, outcome, round);
    var o := Ask(outcome, x, round);
    var p := PassEvents(done, outcome, round);
    var s := [Searched(x, round, Succeeded(o))];
    AppendAssoc(results0, PassResults(done, outcome, round), AttemptResults(x, o));
    AppendAssoc(failed0, PassFailed(done, outcome, round), if Succeeded(o) then [] else [x]);
    AppendAssoc(events0, p, s);
    if round > 0 {
      AppendAssoc(events0, p + s, [Slept(RoundPause)]);
    } else {
      AppendEmpty(p + s);
    }
  }

  /**
   * `failed_terms` after the initial pass (k = 0) and after retry round k,
   * starting from `init` (the caller's list) and the search terms.
   */
  function Worklist(init: seq<string>, terms: seq<string>, outcome: Oracle, k: nat): seq<string> {
    if k == 0 then init + PassFailed(terms, outcome, 0)
    else PassFailed(Worklist(init, terms, outcome, k - 1), outcome, k)
  }

  /** `all_results` after the initial pass and after retry round k. */
  function ResultsThrough(results0: seq<Record>, init: seq<string>, terms: seq<string>, outcome: Oracle, k: nat): (r: seq<Record>)
    ensures results0 <= r
  {
    if k == 0 then results0 + PassResults(terms, outcome, 0)
    else ResultsThrough(results0, init, terms, outcome, k - 1) + PassResults(Worklist(init, terms, outcome, k - 1), outcome, k)
  }

  /** Every record of `rs` is one of `kept` or names a term of `names`, checked record by record. */
  ghost predicate KeptOrNamed(rs: seq<Record>, kept: seq<Record>, names: seq<string>)
    decreases |rs|
  {
    rs == [] ||
    (KeptOrNamed(rs[..|rs| - 1], kept, names) && (rs[|rs| - 1] in kept || rs[|rs| - 1].company in names))
  }

  lemma {:induction false} KeptOrNamedMembers(rs: seq<Record>, kept: seq<Record>, names: seq<string>)
    ensures KeptOrNamed(rs, kept, names) <==> forall x :: x in rs ==> x in kept || x.company in names
    decreases |rs|
  {
    if rs != [] {
      var init := rs[..|rs| - 1];
      KeptOrNamedMembers(init, kept, names);
      assert rs == init + [rs[|rs| - 1]];
    }
  }

  lemma {:induction false} KeptOrNamedAppend(a: seq<Record>, b: seq<Record>, kept: seq<Record>, names: seq<string>)
    requires KeptOrNamed(a, kept, names) && KeptOrNamed(b, kept, names)
    ensures KeptOrNamed(a + b, kept, names)
    decreases |b|
  {
    if b == [] {
      assert a + b == a;
    } else {
      var binit := b[..|b| - 1];
      KeptOrNamedAppend(a, binit, kept, names);
      assert (a + b)[..|a + b| - 1] == a + binit;
    }
  }

  /** The records of a pass name terms of `names` when its worklist is within `names`. */
  lemma PassResultsWithin(work: seq<string>, outcome: Oracle, round: nat, kept: seq<Record>, names: seq<string>)
    requires forall t :: t in work ==> t in names
    ensures KeptOrNamed(PassResults(work, outcome, round), kept, names)
  {
    PassResultsNameTerms(work, outcome, round);
    KeptOrNamedMembers(PassResults(work, outcome, round), kept, names);
  }

  /** Every record added names a term the caller had in the failed list or a search term. */
  lemma ResultsNameTerms(results0: seq<Record>, init: seq<string>, terms: seq<string>, outcome: Oracle, k: nat)
    ensures forall x :: x in ResultsThrough(results0, init, terms, outcome, k) ==> x in results0 || x.company in init + terms
  {
    ResultsKeptOrNamed(results0, init, terms, outcome, k);
    KeptOrNamedMembers(ResultsThrough(results0, init, terms, outcome, k), results0, init + terms);
  }

  lemma {:induction false} ResultsKeptOrNamed(results0: seq<Record>, init: seq<string>, terms: seq<string>, outcome: Oracle, k: nat)
    ensures KeptOrNamed(ResultsThrough(results0, init, terms, outcome, k), results0, init + terms)
  {
    var names := init + terms;
    if k == 0 {
      KeptOrNamedMembers(results0, results0, names);
      assert forall t :: t in terms ==> t in names;
      PassResultsWithin(terms, outcome, 0, results0, names);
      KeptOrNamedAppend(results0, PassResults(terms, outcome, 0), results0, names);
    } else {
      ResultsKeptOrNamed(results0, init, terms, outcome, k - 1);
      var before := ResultsThrough(results0, init, terms, outcome, k - 1);
      var work := Worklist(init, terms, outcome, k - 1);
      WorklistWithinTerms(init, terms, outcome, k - 1);
      PassResultsWithin(work, outcome, k, results0, names);
      KeptOrNamedAppend(before, PassResults(work, outcome, k), results0, names);
    }
  }

  /** The events of the initial pass and of retry rounds 1 to k. */
  function EventsThrough(init: seq<string>, terms: seq<string>, outcome: Oracle, k: nat): seq<Event> {
    if k == 0 then PassEvents(terms, outcome, 0)
    else EventsThrough(init, terms, outcome, k - 1) + PassEvents(Worklist(init, terms, outcome, k - 1), outcome, k)
  }

  /**
   * The number of retry rounds that run when k have run: a round runs while
   * rounds remain and the worklist is not empty (the `break`).
   */
  function RoundsFrom(init: seq<string>, terms: seq<string>, outcome: Oracle, retries: int, k: nat): (m: nat)
    ensures k <= m && (m == k || m <= retries)
    ensures m < retries ==> Worklist(init, terms, outcome, m) == []
    ensures forall j :: k <= j < m ==> Worklist(init, terms, outcome, j) != []
    decreases if k < retries then retries - k else 0
  {
    if retries <= k || Worklist(init, terms, outcome, k) == [] then k
    else RoundsFrom(init, terms, outcome, retries, k + 1)
  }

  /**
   * The number of retry rounds `search_with_retries` runs: at most
   * `retries`, none when `retries <= 0`, fewer only when the worklist
   * empties, and every round that runs starts from a non-empty worklist.
   */
  function RoundsRun(init: seq<string>, terms: seq<string>, outcome: Oracle, retries: int): (m: nat)
    ensures m <= Bound(retries)
    ensures retries <= 0 ==> m == 0
    ensures m < retries ==> Worklist(init, terms, outcome, m) == []
    ensures forall j :: 0 <= j < m ==> Worklist(init, terms, outcome, j) != []
  {
    RoundsFrom(init, terms, outcome, retries, 0)
  }

  // ---------------------------------------------------------------------
  // search_with_retries: the state it mutates
  // ---------------------------------------------------------------------

  /** The caller-owned lists `all_results` and `failed_terms`, and the effects so far. */
  class Ledger {
    var allResults: seq<Record>
    var failedTerms: seq<string>
    var events: seq<Event>

    constructor (results0: seq<Record>, failed0: seq<string>)
      ensures allResults == results0 && failedTerms == failed0 && events == []
    {
      allResults, failedTerms, events := results0, failed0, [];
    }

    /** One `try` block of `search_with_retries`: a session for `term`, caught if it raises. */
    method TrySearch(term: string, round: nat, outcome: Oracle) returns (ok: bool)
      modifies this
      ensures ok == Succeeded(Ask(outcome, term, round))
      ensures allResults == old(allResults) + AttemptResults(term, Ask(outcome, term, round))
      ensures failedTerms == old(failedTerms) + (if ok then [] else [term])
      ensures events == old(events) + [Searched(term, round, ok)]
    {
      var o := Ask(outcome, term, round);
      if o.Scraped? {
        var records := ScrapeSearchResults(term, o.page);
        allResults := allResults + records;
      }
      ok := Succeeded(o);
      if !ok {
        failedTerms := failedTerms + [term];
      }
      events := events + [Searched(term, round, ok)];
    }

    /** One pass over `ts` in `round`, pausing after each attempt of a retry round. */
    method Pass(ts: seq<string>, round: nat, outcome: Oracle)
      modifies this
      ensures allResults == old(allResults) + PassResults(ts, outcome, round)
      ensures failedTerms == old(failedTerms) + PassFailed(ts, outcome, round)
      ensures events == old(events) + PassEvents(ts, outcome, round)
    {
      ghost var results0, failed0, events0 := allResults, failedTerms, events;
      for i := 0 to |ts|
        invariant allResults == results0 + PassResults(ts[..i], outcome, round)
        invariant failedTerms == failed0 + PassFailed(ts[..i], outcome, round)
        invariant events == events0 + PassEvents(ts[..i], outcome, round)
      {
        PassStep(results0, failed0, events0, ts, i, outcome, round);
        var _ := TrySearch(ts[i], round, outcome);
        if round > 0 {
          events := events + [Slept(RoundPause)];   // the pause follows every attempt of a retry round
        }
      }
      assert ts[..|ts|] == ts;
    }

    /** `search_with_retries`: the initial pass over `terms`, then up to `retries` rounds over the failed terms. */
    method SearchWithRetries(terms: seq<string>, retries: int, outcome: Oracle)
      modifies this
      ensures var m := RoundsRun(old(failedTerms), terms, outcome, retries);
              && allResults == ResultsThrough(old(allResults), old(failedTerms), terms, outcome, m)
              && failedTerms == Worklist(old(failedTerms), terms, outcome, m)
              && events == old(events) + EventsThrough(old(failedTerms), terms, outcome, m)
    {
      ghost var results0, init, events0 := allResults, failedTerms, events;
      ghost var m := RoundsRun(init, terms, outcome, retries);
      Pass(terms, 0, outcome);
      var attempt := 1;
      while attempt <= retries
        invariant 1 <= attempt && attempt - 1 <= m
        invariant m == RoundsFrom(init, terms, outcome, retries, attempt - 1)
        invariant allResults == ResultsThrough(results0, init, terms, outcome, attempt - 1)
        invariant failedTerms == Worklist(init, terms, outcome, attempt - 1)
        invariant events == events0 + EventsThrough(init, terms, outcome, attempt - 1)
        decreases retries - attempt
      {
        if failedTerms == [] {
          break;
        }
        // the round works on a snapshot of the failed list, which starts again empty
        var remaining := failedTerms;
        failedTerms := [];
        AppendAssoc(events0, EventsThrough(init, terms, outcome, attempt - 1), PassEvents(remaining, outcome, attempt));
        assert [] + PassFailed(remaining, outcome, attempt) == PassFailed(remaining, outcome, attempt);
        Pass(remaining, attempt, outcome);
        attempt := attempt + 1;
      }
    }
  }

  // ---------------------------------------------------------------------
  // search_with_retries: what the bookkeeping guarantees
  // ---------------------------------------------------------------------

  /** The term failed in every round from `from` to `k`. */
  ghost predicate FailsRounds(outcome: Oracle, t: string, from: nat, k: nat) {
    forall r :: from <= r <= k ==> !Succeeded(Ask(outcome, t, r))
  }

  /**
   * How many times a term is in `failed_terms` after round k: each
   * occurrence in the caller's list stays while it fails every retry round,
   * each occurrence in the search terms while it fails every round from the
   * initial pass on.
   */
  lemma {:induction false} WorklistCount(init: seq<string>, terms: seq<string>, outcome: Oracle, k: nat, t: string)
    ensures multiset(Worklist(init, terms, outcome, k))[t] ==
            (if FailsRounds(outcome, t, 1, k) then multiset(init)[t] else 0) +
            (if FailsRounds(outcome, t, 0, k) then multiset(terms)[t] else 0)
  {
    if k == 0 {
      PassFailedCount(terms, outcome, 0, t);
    } else {
      WorklistCount(init, terms, outcome, k - 1, t);
      PassFailedCount(Worklist(init, terms, outcome, k - 1), outcome, k, t);
      if Succeeded(Ask(outcome, t, k)) {
        assert !FailsRounds(outcome, t, 1, k) && !FailsRounds(outcome, t, 0, k);
      } else {
        assert FailsRounds(outcome, t, 1, k) == FailsRounds(outcome, t, 1, k - 1);
        assert FailsRounds(outcome, t, 0, k) == FailsRounds(outcome, t, 0, k - 1);
      }
    }
  }

  /**
   * A term is still failed after round k exactly when one of its
   * occurrences failed on every one of its attempts so far.
   */
  lemma UnresolvedIff(init: seq<string>, terms: seq<string>, outcome: Oracle, k: nat, t: string)
    ensures t in Worklist(init, terms, outcome, k) <==>
            (t in init && FailsRounds(outcome, t, 1, k)) || (t in terms && FailsRounds(outcome, t, 0, k))
  {
    WorklistCount(init, terms, outcome, k, t);
  }

  /** Every failed term is one the caller put there or one of the search terms. */
  lemma {:induction false} WorklistWithinTerms(init: seq<string>, terms: seq<string>, outcome: Oracle, k: nat)
    ensures forall t :: t in Worklist(init, terms, outcome, k) ==> t in init + terms
  {
    if k == 0 {
      PassFailedMembers(terms, outcome, 0);
    } else {
      WorklistWithinTerms(init, terms, outcome, k - 1);
      PassFailedMembers(Worklist(init, terms, outcome, k - 1), outcome, k);
    }
  }

  /** The number of sessions opened for term `t`. */
  function Attempts(es: seq<Event>, t: string): nat {
    if es == [] then 0
    else Attempts(es[..|es| - 1], t) + (if es[|es| - 1].Searched? && es[|es| - 1].term == t then 1 else 0)
  }

  lemma {:induction false} AttemptsAppend(a: seq<Event>, b: seq<Event>, t: string)
    ensures Attempts(a + b, t) == Attempts(a, t) + Attempts(b, t)
  {
    if b == [] {
      assert a + b == a;
    } else {
      var binit := b[..|b| - 1];
      assert (a + b)[..|a + b| - 1] == a + binit;
      AttemptsAppend(a, binit, t);
    }
  }

  /** A pass opens one session per occurrence of the term in its worklist. */
  lemma {:induction false} AttemptsOfPass(ts: seq<string>, outcome: Oracle, round: nat, t: string)
    ensures Attempts(PassEvents(ts, outcome, round), t) == multiset(ts)[t]
  {
    if ts != [] {
      var init, last := ts[..|ts| - 1], ts[|ts| - 1];
      assert ts == init + [last];
      AttemptsOfPass(init, outcome, round, t);
      var e := [Searched(last, round, Succeeded(Ask(outcome, last, round)))];
      var p := if round > 0 then [Slept(RoundPause)] else [];
      AttemptsAppend(PassEvents(init, outcome, round), e, t);
      AttemptsAppend(PassEvents(init, outcome, round) + e, p, t);
      assert Attempts(e, t) == if last == t then 1 else 0 by {
        assert e[..0] == [];
      }
      if round > 0 {
        assert p[..0] == [];
      }
    }
  }

  /**
   * The sessions a term may get through round k: `n` in the initial pass
   * (its occurrences among the search terms) and at most `i + n` in each
   * retry round (`i` its occurrences in the caller's list).
   */
  function Budget(i: nat, n: nat, k: nat): nat {
    if k == 0 then n else Budget(i, n, k - 1) + i + n
  }

  lemma {:induction false} BudgetValue(i: nat, n: nat, k: nat)
    ensures Budget(i, n, k) == k * i + (k + 1) * n
  {
    if k > 0 {
      BudgetValue(i, n, k - 1);
      assert (k - 1) * i + i == k * i;
      assert k * n + n == (k + 1) * n;
    }
  }

  lemma BudgetBound(i: nat, n: nat, k: nat, b: nat)
    requires k <= b
    ensures Budget(i, n, k) <= (b + 1) * (i + n)
  {
    BudgetValue(i, n, k);
    var d: nat := b - k;
    assert (k + 1 + d) * i == k * i + (1 + d) * i;
    assert (k + 1 + d) * n == (k + 1) * n + d * n;
    assert (b + 1) * (i + n) == (b + 1) * i + (b + 1) * n;
  }

  lemma {:induction false} AttemptsWithinBudget(init: seq<string>, terms: seq<string>, outcome: Oracle, k: nat, t: string)
    ensures Attempts(EventsThrough(init, terms, outcome, k), t) <= Budget(multiset(init)[t], multiset(terms)[t], k)
    decreases k
  {
    if k == 0 {
      AttemptsOfPass(terms, outcome, 0, t);
    } else {
      AttemptsWithinBudget(init, terms, outcome, k - 1, t);
      AttemptsStep(init, terms, outcome, k, t);
    }
  }

  lemma AttemptsStep(init: seq<string>, terms: seq<string>, outcome: Oracle, k: nat, t: string)
    requires 0 < k
    requires Attempts(EventsThrough(init, terms, outcome, k - 1), t) <= Budget(multiset(init)[t], multiset(terms)[t], k - 1)
    ensures Attempts(EventsThrough(init, terms, outcome, k), t) <= Budget(multiset(init)[t], multiset(terms)[t], k)
  {
    var i, n := multiset(init)[t], multiset(terms)[t];
    var before, work := EventsThrough(init, terms, outcome, k - 1), Worklist(init, terms, outcome, k - 1);
    var round := PassEvents(work, outcome, k);
    assert EventsThrough(init, terms, outcome, k) == before + round;
    WorklistCountBound(init, terms, outcome, k - 1, t);
    AttemptsOfRound(work, outcome, k, t, i + n);
    AttemptsAppend(before, round, t);
  }

  /** A retry round adds one session per occurrence of the term in the worklist it starts from. */
  lemma AttemptsOfRound(work: seq<string>, outcome: Oracle, k: nat, t: string, bound: nat)
    requires multiset(work)[t] <= bound
    ensures Attempts(PassEvents(work, outcome, k), t) <= bound
  {
    AttemptsOfPass(work, outcome, k, t);
  }

  /** No occurrence is added to the failed list: a term is there at most as often as the caller and the search terms had it. */
  lemma WorklistCountBound(init: seq<string>, terms: seq<string>, outcome: Oracle, k: nat, t: string)
    ensures multiset(Worklist(init, terms, outcome, k))[t] <= multiset(init)[t] + multiset(terms)[t]
  {
    WorklistCount(init, terms, outcome, k, t);
  }

  /**
   * Through round k a term gets at most k + 1 sessions per occurrence, and
   * an occurrence in the caller's list at most k.
   */
  lemma AttemptsThrough(init: seq<string>, terms: seq<string>, outcome: Oracle, k: nat, t: string)
    ensures Attempts(EventsThrough(init, terms, outcome, k), t) <= k * multiset(init)[t] + (k + 1) * multiset(terms)[t]
  {
    AttemptsWithinBudget(init, terms, outcome, k, t);
    BudgetValue(multiset(init)[t], multiset(terms)[t], k);
  }

  /** With `retries` retry rounds, an occurrence of a term gets at most `retries + 1` sessions. */
  lemma AttemptBound(init: seq<string>, terms: seq<string>, outcome: Oracle, retries: int, t: string)
    ensures var m := RoundsRun(init, terms, outcome, retries);
            Attempts(EventsThrough(init, terms, outcome, m), t) <=
              (Bound(retries) + 1) * (multiset(init)[t] + multiset(terms)[t])
  {
    var m := RoundsRun(init, terms, outcome, retries);
    AttemptsWithinBudget(init, terms, outcome, m, t);
    BudgetBound(multiset(init)[t], multiset(terms)[t], m, Bound(retries));
  }

  /**
   * With `retries <= 0`, or when every term succeeds in the initial pass
   * and the caller's list is empty, no retry round runs and nothing pauses.
   */
  lemma NoRoundWithoutFailures(init: seq<string>, terms: seq<string>, outcome: Oracle, retries: int)
    requires retries <= 0 || (init == [] && forall t :: t in terms ==> Succeeded(Ask(outcome, t, 0)))
    ensures RoundsRun(init, terms, outcome, retries) == 0
    ensures forall e :: e in EventsThrough(init, terms, outcome, RoundsRun(init, terms, outcome, retries)) ==>
              e.Searched? && e.round == 0
  {
    if retries > 0 {
      var w := PassFailed(terms, outcome, 0);
      forall t {
        PassFailedCount(terms, outcome, 0, t);
      }
      assert multiset(w) == multiset{};
      assert Worklist(init, terms, outcome, 0) == w;
    }
    PassEventsShape(terms, outcome, 0);
  }

  /**
   * With `retries == 0` each term occurrence gets exactly one session and
   * the failed terms are those whose single attempt failed.
   */
  lemma NoRetriesSingleAttempt(terms: seq<string>, outcome: Oracle, t: string)
    ensures RoundsRun([], terms, outcome, 0) == 0
    ensures Attempts(EventsThrough([], terms, outcome, 0), t) == multiset(terms)[t]
    ensures Worklist([], terms, outcome, 0) == PassFailed(terms, outcome, 0)
  {
    AttemptsOfPass(terms, outcome, 0, t);
    assert [] + PassFailed(terms, outcome, 0) == PassFailed(terms, outcome, 0);
  }

  /**
   * A term that fails every session, with one retry round: two sessions,
   * one pause, no records, and the term is left in `failed_terms`.
   */
  lemma AlwaysFailingTerm(g: string, outcome: Oracle)
    requires forall r :: Ask(outcome, g, r) == Failed
    ensures RoundsRun([], [g], outcome, 1) == 1
    ensures ResultsThrough([], [], [g], outcome, 1) == []
    ensures Worklist([], [g], outcome, 1) == [g]
    ensures EventsThrough([], [g], outcome, 1) == [Searched(g, 0, false), Searched(g, 1, false), Slept(RoundPause)]
  {
    var single: seq<string> := [g];
    var none: seq<string> := [];
    assert single[..0] == none;
    assert !Succeeded(Ask(outcome, g, 0)) && !Succeeded(Ask(outcome, g, 1));
    AppendEmpty(single);
    assert PassFailed(single, outcome, 0) == single;
    assert Worklist(none, single, outcome, 0) == single;
    assert PassFailed(single, outcome, 1) == single;
    assert RoundsFrom(none, single, outcome, 1, 1) == 1;
    assert PassResults(single, outcome, 0) == [] && PassResults(single, outcome, 1) == [];
    var e0, e1 := Searched(g, 0, false), Searched(g, 1, false);
    assert PassEvents(single, outcome, 0) == [] + [e0] + [];
    assert PassEvents(single, outcome, 1) == [] + [e1] + [Slept(RoundPause)];
  }

  /**
   * Two terms, the first succeeding at once with the records of page `pa`,
   * the second failing in the initial pass and in round 1 and succeeding in
   * round 2 with the records of page `pb`: two retry rounds run, nothing is
   * left failed, and the second term's records come after the first's.
   */
  lemma LateSuccess(a: string, b: string, outcome: Oracle, pa: Page, pb: Page)
    requires a != b
    requires Ask(outcome, a, 0) == Scraped(pa, true)
    requires Ask(outcome, b, 0) == Failed && Ask(outcome, b, 1) == Failed && Ask(outcome, b, 2) == Scraped(pb, true)
    ensures RoundsRun([], [a, b], outcome, 2) == 2
    ensures Worklist([], [a, b], outcome, 2) == []
    ensures ResultsThrough([], [], [a, b], outcome, 2) == SearchRecords(a, pa) + SearchRecords(b, pb)
  {
    LateSuccessWorklists(a, b, outcome, pa, pb);
    var ra, rb := SearchRecords(a, pa), SearchRecords(b, pb);
    assert [a, b][..1] == [a] && [a][..0] == [] && [b][..0] == [];
    AppendEmpty(ra);
    AppendEmpty(rb);
    assert PassResults([a], outcome, 0) == ra;
    assert PassResults([a, b], outcome, 0) == ra + [];
    assert PassResults([b], outcome, 1) == [];
    assert PassResults([b], outcome, 2) == rb;
    assert ResultsThrough([], [], [a, b], outcome, 0) == [] + ra;
    assert ResultsThrough([], [], [a, b], outcome, 1) == ra + [];
  }

  lemma LateSuccessWorklists(a: string, b: string, outcome: Oracle, pa: Page, pb: Page)
    requires a != b
    requires Ask(outcome, a, 0) == Scraped(pa, true)
    requires Ask(outcome, b, 0) == Failed && Ask(outcome, b, 1) == Failed && Ask(outcome, b, 2) == Scraped(pb, true)
    ensures Worklist([], [a, b], outcome, 0) == [b]
    ensures Worklist([], [a, b], outcome, 1) == [b]
    ensures Worklist([], [a, b], outcome, 2) == []
  {
    assert [a, b][..1] == [a] && [a][..0] == [] && [b][..0] == [];
    assert PassFailed([a], outcome, 0) == [];
    assert PassFailed([a, b], outcome, 0) == [b];
    assert PassFailed([b], outcome, 1) == [b];
    assert PassFailed([b], outcome, 2) == [];
  }
}
