/**
 The failure windows of `handleReturningUserLogin` (limit 10) and
 `confirmReset` (limit 5): a map from e-mail to a count and the start of its
 window, changed in place around the password or code check.
 */
module Limiter {
  import opened Text

  const WINDOW_MS := 300_000
  const LOGIN_LIMIT: nat := 10
  const CONFIRM_LIMIT: nat := 5

  datatype Attempts = Attempts(count: nat, windowStart: int)

  type Table = map<Text, Attempts>

  datatype Verdict = Admitted | Limited(retryAfterSec: int)

  predicate Expired(r: Attempts, now: int) {
    now - r.windowStart > WINDOW_MS
  }

  function RetryAfter(r: Attempts, now: int): int {
    (WINDOW_MS - (now - r.windowStart) + 999) / 1000
  }

  /** The table after the check at the start of a call. */
  function AfterCheck(t: Table, key: Text, now: int): Table {
    if key in t && Expired(t[key], now) then t - {key} else t
  }

  function VerdictOf(limit: nat, t: Table, key: Text, now: int): Verdict {
    if key in t && !Expired(t[key], now) && t[key].count >= limit then Limited(RetryAfter(t[key], now)) else Admitted
  }

  /** The table after the outcome of an admitted call. */
  function AfterOutcome(t: Table, key: Text, now: int, ok: bool): Table {
    if ok then t - {key}
    else if key in t then t[key := t[key].(count := t[key].count + 1)]
    else t[key := Attempts(1, now)]
  }

  class FailureWindow {
    const limit: nat
    var attempts: Table

    constructor (limit: nat)
      ensures this.limit == limit && attempts == map[]
    {
      this.limit := limit;
      attempts := map[];
    }

    /** The first half of a call, before its awaits. */
    method Check(key: Text, now: int) returns (verdict: Verdict)
      modifies this
      ensures verdict == VerdictOf(limit, old(attempts), key, now)
      ensures attempts == AfterCheck(old(attempts), key, now)
    {
      if key in attempts {
        var record := attempts[key];
        if now - record.windowStart > WINDOW_MS {
          attempts := attempts - {key};
        } else if record.count >= limit {
          return Limited(RetryAfter(record, now));
        }
      }
      verdict := Admitted;
    }

    /** The second half, once the password or code has been compared. */
    method Settle(key: Text, now: int, ok: bool)
      modifies this
      ensures attempts == AfterOutcome(old(attempts), key, now, ok)
    {
      if !ok {
        if key in attempts {
          var current := attempts[key];
          attempts := attempts[key := current.(count := current.count + 1)];
        } else {
          attempts := attempts[key := Attempts(1, now)];
        }
      } else {
        attempts := attempts - {key};
      }
    }

    /** A whole call at one clock reading. */
    method Call(key: Text, now: int, ok: bool) returns (verdict: Verdict)
      modifies this
      ensures verdict == VerdictOf(limit, old(attempts), key, now)
      ensures attempts == AfterCall(limit, old(attempts), Request(key, now, ok))
    {
      verdict := Check(key, now);
      if verdict.Admitted? {
        Settle(key, now, ok);
      }
    }
  }

  // ---------------------------------------------------------------------------
  // Runs of whole calls
  // ---------------------------------------------------------------------------

  datatype Request = Request(key: Text, now: int, ok: bool)

  function AfterCall(limit: nat, t: Table, r: Request): Table {
    var checked := AfterCheck(t, r.key, r.now);
    if VerdictOf(limit, t, r.key, r.now).Admitted? then AfterOutcome(checked, r.key, r.now, r.ok) else checked
  }

  /** The table after a run, from an empty one. */
  function After(limit: nat, rs: seq<Request>): Table {
    if rs == [] then map[] else AfterCall(limit, After(limit, rs[..|rs| - 1]), rs[|rs| - 1])
  }

  /** The last request of a run reaches the comparison. */
  predicate LastEvaluated(limit: nat, rs: seq<Request>)
    requires rs != []
  {
    var last := rs[|rs| - 1];
    VerdictOf(limit, After(limit, rs[..|rs| - 1]), last.key, last.now).Admitted?
  }

  /** The clock readings of the evaluated failures of `key`. */
  function Failures(limit: nat, key: Text, rs: seq<Request>): seq<int> {
    if rs == [] then []
    else
      var last := rs[|rs| - 1];
      Failures(limit, key, rs[..|rs| - 1])
      + (if last.key == key && !last.ok && LastEvaluated(limit, rs) then [last.now] else [])
  }

  /** No evaluated request of `key` succeeds. */
  predicate NeverSucceeds(limit: nat, key: Text, rs: seq<Request>) {
    rs == []
    || (&& NeverSucceeds(limit, key, rs[..|rs| - 1])
        && !(rs[|rs| - 1].key == key && rs[|rs| - 1].ok && LastEvaluated(limit, rs)))
  }

  predicate ClockRuns(rs: seq<Request>) {
    forall i, j :: 0 <= i < j < |rs| ==> rs[i].now <= rs[j].now
  }

  /** How many of the readings fall within `lo` and `hi`, both included. */
  function CountWithin(ts: seq<int>, lo: int, hi: int): nat {
    if ts == [] then 0 else CountWithin(ts[..|ts| - 1], lo, hi) + (if lo <= ts[|ts| - 1] <= hi then 1 else 0)
  }

  // ---------------------------------------------------------------------------
  // The failures behind a counter
  // ---------------------------------------------------------------------------

  predicate Ordered(ts: seq<int>) {
    forall i, j :: 0 <= i < j < |ts| ==> ts[i] <= ts[j]
  }

  /** Any `2 * cap` consecutive readings take more than a window. */
  predicate Spaced(cap: nat, ts: seq<int>) {
    forall i, j :: 0 <= i < j < |ts| && i + 2 * cap - 1 <= j ==> ts[i] + WINDOW_MS < ts[j]
  }

  /**
   The record `r` counts the last readings, from its start on, and a window has
   passed between that start and the reading `cap` places before it.
   */
  predicate Counts(cap: nat, ts: seq<int>, r: Attempts) {
    && 1 <= r.count <= cap && r.count <= |ts|
    && ts[|ts| - r.count] == r.windowStart
    && forall i :: 0 <= i <= |ts| - r.count - cap ==> ts[i] + WINDOW_MS < r.windowStart
  }

  /**
   What a run without a success leaves for a key by the time `now`, if no record
   counts beyond `cap`: `ts` are the readings of the failures so far.
   */
  predicate Ledger(cap: nat, t: Table, key: Text, ts: seq<int>, now: int) {
    && Ordered(ts) && Spaced(cap, ts)
    && (forall i :: 0 <= i < |ts| ==> ts[i] <= now)
    && (key in t ==> Counts(cap, ts, t[key]))
    && (key !in t ==> forall i :: 0 <= i < |ts| && i + cap <= |ts| ==> ts[i] + WINDOW_MS < now)
  }

  lemma LedgerWaits(cap: nat, t: Table, key: Text, ts: seq<int>, now: int, later: int)
    requires Ledger(cap, t, key, ts, now) && now <= later
    ensures Ledger(cap, t, key, ts, later)
  {
  }

  /** A check removes a record only when its window is over. */
  lemma LedgerChecks(cap: nat, t: Table, key: Text, ts: seq<int>, now: int)
    requires Ledger(cap, t, key, ts, now)
    ensures Ledger(cap, AfterCheck(t, key, now), key, ts, now)
  {
    if key in t && Expired(t[key], now) {
      var start := |ts| - t[key].count;
      assert ts[start] + WINDOW_MS < now;
      forall i | 0 <= i < |ts| && i + cap <= |ts| ensures ts[i] + WINDOW_MS < now {
        assert i < start ==> ts[i] <= ts[start];
      }
    }
  }

  /** A failure is counted, in a record that has room or in a new one. */
  lemma LedgerFails(cap: nat, t: Table, key: Text, ts: seq<int>, now: int)
    requires cap > 0 && Ledger(cap, t, key, ts, now) && (key in t ==> t[key].count < cap)
    ensures Ledger(cap, AfterOutcome(t, key, now, false), key, ts + [now], now)
  {
    var n, ts' := |ts|, ts + [now];
    forall i | 0 <= i && i + 2 * cap - 1 <= n ensures ts[i] + WINDOW_MS < now {
      if key in t {
        var start := n - t[key].count;
        assert i <= start - cap && ts[i] + WINDOW_MS < ts[start] <= now;
      }
    }
    if key in t {
      var r := t[key].(count := t[key].count + 1);
      assert ts'[|ts'| - r.count] == ts[n - t[key].count];
      assert Counts(cap, ts', r);
    }
  }

  /** How many of the readings can fall into a span that begins after the first `m` of them. */
  lemma {:induction false} CountAfter(ts: seq<int>, m: nat, lo: int, hi: int)
    requires m <= |ts| && forall i :: 0 <= i < m ==> ts[i] < lo
    ensures CountWithin(ts, lo, hi) <= |ts| - m
  {
    if |ts| > 0 {
      CountAfter(ts[..|ts| - 1], if m < |ts| then m else m - 1, lo, hi);
    }
  }

  lemma {:induction false} SpacedSpan(cap: nat, ts: seq<int>, lo: int)
    requires cap > 0 && Spaced(cap, ts)
    ensures CountWithin(ts, lo, lo + WINDOW_MS) <= 2 * cap - 1
  {
    if ts != [] {
      var n := |ts| - 1;
      if lo <= ts[n] <= lo + WINDOW_MS && n >= 2 * cap - 1 {
        forall i | 0 <= i < n - (2 * cap - 1) + 1 ensures ts[i] < lo {
          assert ts[i] + WINDOW_MS < ts[n];
        }
        CountAfter(ts, n - (2 * cap - 1) + 1, lo, lo + WINDOW_MS);
      } else if lo <= ts[n] <= lo + WINDOW_MS {
        CountAfter(ts, 0, lo, lo + WINDOW_MS);
      } else {
        SpacedSpan(cap, ts[..n], lo);
      }
    }
  }

  lemma CallKeepsLedger(limit: nat, key: Text, t: Table, ts: seq<int>, r: Request)
    requires limit > 0 && Ledger(limit, t, key, ts, r.now)
    requires r.key == key && r.ok ==> VerdictOf(limit, t, key, r.now).Limited?
    ensures var counted := r.key == key && VerdictOf(limit, t, key, r.now).Admitted?;
            Ledger(limit, AfterCall(limit, t, r), key, ts + (if counted then [r.now] else []), r.now)
  {
    if r.key == key {
      LedgerChecks(limit, t, key, ts, r.now);
      if VerdictOf(limit, t, key, r.now).Admitted? {
        LedgerFails(limit, AfterCheck(t, key, r.now), key, ts, r.now);
      } else {
        assert ts + [] == ts;
      }
    } else {
      assert ts + [] == ts;
    }
  }

  lemma {:induction false} RunKeepsLedger(limit: nat, key: Text, rs: seq<Request>, now: int)
    requires limit > 0 && ClockRuns(rs) && NeverSucceeds(limit, key, rs)
    requires forall i :: 0 <= i < |rs| ==> rs[i].now <= now
    ensures Ledger(limit, After(limit, rs), key, Failures(limit, key, rs), now)
  {
    if rs != [] {
      var before, last := rs[..|rs| - 1], rs[|rs| - 1];
      RunKeepsLedger(limit, key, before, last.now);
      CallKeepsLedger(limit, key, After(limit, before), Failures(limit, key, before), last);
      LedgerWaits(limit, After(limit, rs), key, Failures(limit, key, rs), last.now, now);
    }
  }

  /**
   Over any run without a success for a key, any span of five minutes contains
   at most `2 * limit - 1` of its evaluated failures.
   */
  lemma SpanBound(limit: nat, key: Text, rs: seq<Request>, lo: int)
    requires limit > 0 && ClockRuns(rs) && NeverSucceeds(limit, key, rs)
    ensures CountWithin(Failures(limit, key, rs), lo, lo + 300_000) <= 2 * limit - 1
  {
    RunKeepsLedger(limit, key, rs, if rs == [] then 0 else rs[|rs| - 1].now);
    SpacedSpan(limit, Failures(limit, key, rs), lo);
  }

  /** Login admits 19 failures in five minutes, reset confirmation 9. */
  lemma ServiceBounds(key: Text, rs: seq<Request>, lo: int)
    requires ClockRuns(rs)
    ensures NeverSucceeds(LOGIN_LIMIT, key, rs) ==>
              CountWithin(Failures(LOGIN_LIMIT, key, rs), lo, lo + 300_000) <= 19
    ensures NeverSucceeds(CONFIRM_LIMIT, key, rs) ==>
              CountWithin(Failures(CONFIRM_LIMIT, key, rs), lo, lo + 300_000) <= 9
  {
    if NeverSucceeds(LOGIN_LIMIT, key, rs) {
      SpanBound(LOGIN_LIMIT, key, rs, lo);
    }
    if NeverSucceeds(CONFIRM_LIMIT, key, rs) {
      SpanBound(CONFIRM_LIMIT, key, rs, lo);
    }
  }

  // ---------------------------------------------------------------------------
  // Who is refused, and for how long
  // ---------------------------------------------------------------------------

  /**
   A call is refused exactly while its key has `limit` failures on record and
   the record is at most five minutes old; it is told the least number of
   seconds that covers the rest of them.
   */
  lemma RefusesExactly(limit: nat, t: Table, key: Text, now: int)
    ensures var verdict := VerdictOf(limit, t, key, now);
            && (verdict.Limited? <==> key in t && t[key].count >= limit && now - t[key].windowStart <= 300_000)
            && (verdict.Limited? ==>
                  var rest := 300_000 - (now - t[key].windowStart);
                  1000 * (verdict.retryAfterSec - 1) < rest <= 1000 * verdict.retryAfterSec)
  {
  }

  /** What a call leaves: an old record removed, a failure counted or begun, a success wiped, others untouched. */
  lemma CallMeaning(limit: nat, t: Table, r: Request, other: Text)
    ensures var after := AfterCall(limit, t, r);
            var live := r.key in t && r.now - t[r.key].windowStart <= 300_000;
            && (other != r.key ==> (other in after <==> other in t) && (other in t ==> after[other] == t[other]))
            && (live && t[r.key].count >= limit ==> after == t)
            && (r.ok && !(live && t[r.key].count >= limit) ==> r.key !in after)
            && (!r.ok && live && t[r.key].count < limit ==>
                  r.key in after && after[r.key] == Attempts(t[r.key].count + 1, t[r.key].windowStart))
            && (!r.ok && !live ==> r.key in after && after[r.key] == Attempts(1, r.now))
  {
  }

  /** Failures of one key that begin at `start` and all fall within its window. */
  predicate OneWindow(key: Text, rs: seq<Request>, start: int) {
    && ClockRuns(rs)
    && forall i :: 0 <= i < |rs| ==> rs[i].key == key && !rs[i].ok && start <= rs[i].now <= start + 300_000
  }

  lemma {:induction false} WindowFills(limit: nat, key: Text, rs: seq<Request>)
    requires limit > 0 && rs != [] && OneWindow(key, rs, rs[0].now)
    ensures key in After(limit, rs)
    ensures After(limit, rs)[key] == Attempts(if |rs| < limit then |rs| else limit, rs[0].now)
  {
    var before, last := rs[..|rs| - 1], rs[|rs| - 1];
    if before == [] {
      assert After(limit, before) == map[];
    } else {
      WindowFills(limit, key, before);
    }
    CallMeaning(limit, After(limit, before), last, key);
  }

  /** In a fresh window the eleventh failing login is the first to be refused, the sixth for reset confirmation. */
  lemma FirstRefusals(key: Text, rs: seq<Request>, now: int)
    requires rs != [] && OneWindow(key, rs, rs[0].now) && rs[|rs| - 1].now <= now <= rs[0].now + 300_000
    ensures VerdictOf(LOGIN_LIMIT, After(LOGIN_LIMIT, rs), key, now).Limited? <==> |rs| >= 10
    ensures VerdictOf(CONFIRM_LIMIT, After(CONFIRM_LIMIT, rs), key, now).Limited? <==> |rs| >= 5
  {
    WindowFills(LOGIN_LIMIT, key, rs);
    WindowFills(CONFIRM_LIMIT, key, rs);
  }

  /** `n` failing requests at one instant after a run. */
  function Burst(rs: seq<Request>, key: Text, now: int, n: nat): seq<Request> {
    if n == 0 then rs else Burst(rs, key, now, n - 1) + [Request(key, now, false)]
  }

  /** A run so far: legal, over by `now`, with `n` failures of `key` within `lo` and `hi`. */
  ghost predicate Reaches(limit: nat, rs: seq<Request>, key: Text, now: int, lo: int, hi: int, n: nat, r: Attempts) {
    && ClockRuns(rs) && NeverSucceeds(limit, key, rs)
    && (forall i :: 0 <= i < |rs| ==> rs[i].now <= now)
    && CountWithin(Failures(limit, key, rs), lo, hi) == n
    && key in After(limit, rs) && After(limit, rs)[key] == r
  }

  /** What one more failing request, admitted at `now`, does to a run. */
  lemma FailureAdds(limit: nat, rs: seq<Request>, key: Text, now: int)
    requires VerdictOf(limit, After(limit, rs), key, now).Admitted?
    ensures var bs := rs + [Request(key, now, false)];
            && Failures(limit, key, bs) == Failures(limit, key, rs) + [now]
            && After(limit, bs) == AfterOutcome(AfterCheck(After(limit, rs), key, now), key, now, false)
            && NeverSucceeds(limit, key, bs) == NeverSucceeds(limit, key, rs)
  {
    var last := Request(key, now, false);
    var bs := rs + [last];
    assert bs[..|bs| - 1] == rs && bs[|bs| - 1] == last;
  }

  lemma CountAdds(ts: seq<int>, now: int, lo: int, hi: int)
    ensures CountWithin(ts + [now], lo, hi) == CountWithin(ts, lo, hi) + (if lo <= now <= hi then 1 else 0)
  {
    assert (ts + [now])[..|ts|] == ts;
  }

  /** One more failing request, admitted at `now`. */
  lemma FailureReaches(limit: nat, rs: seq<Request>, key: Text, now: int, lo: int, hi: int)
    requires ClockRuns(rs) && NeverSucceeds(limit, key, rs) && forall i :: 0 <= i < |rs| ==> rs[i].now <= now
    requires VerdictOf(limit, After(limit, rs), key, now).Admitted?
    ensures var t := After(limit, rs);
            var n := CountWithin(Failures(limit, key, rs), lo, hi);
            Reaches(limit, rs + [Request(key, now, false)], key, now, lo, hi, n + (if lo <= now <= hi then 1 else 0),
                    if key in t && !Expired(t[key], now) then t[key].(count := t[key].count + 1) else Attempts(1, now))
  {
    FailureAdds(limit, rs, key, now);
    FailureRecords(limit, After(limit, rs), key, now);
    ClockGoesOn(rs, Request(key, now, false));
    CountAdds(Failures(limit, key, rs), now, lo, hi);
  }

  lemma FailureRecords(limit: nat, t: Table, key: Text, now: int)
    ensures var u := AfterOutcome(AfterCheck(t, key, now), key, now, false);
            && key in u
            && u[key] == if key in t && !Expired(t[key], now) then t[key].(count := t[key].count + 1)
                         else Attempts(1, now)
  {
  }

  lemma ClockGoesOn(rs: seq<Request>, r: Request)
    requires ClockRuns(rs) && forall i :: 0 <= i < |rs| ==> rs[i].now <= r.now
    ensures ClockRuns(rs + [r]) && forall i :: 0 <= i < |rs + [r]| ==> (rs + [r])[i].now <= r.now
  {
  }

  lemma AddsAt(limit: nat, rs: seq<Request>, key: Text, now: int, lo: int, hi: int, m: nat, r: Attempts)
    requires Reaches(limit, rs, key, now, lo, hi, m, r) && !Expired(r, now) && r.count < limit && lo <= now <= hi
    ensures Reaches(limit, rs + [Request(key, now, false)], key, now, lo, hi, m + 1, r.(count := r.count + 1))
  {
    FailureReaches(limit, rs, key, now, lo, hi);
  }

  lemma {:induction false} BurstReaches(limit: nat, rs: seq<Request>, key: Text, now: int, lo: int, hi: int,
                                        n: nat, r: Attempts, m: nat)
    requires Reaches(limit, rs, key, now, lo, hi, m, r) && !Expired(r, now)
    requires r.count + n <= limit && lo <= now <= hi
    ensures Reaches(limit, Burst(rs, key, now, n), key, now, lo, hi, m + n, r.(count := r.count + n))
  {
    if n > 0 {
      var before, so := Burst(rs, key, now, n - 1), r.(count := r.count + n - 1);
      BurstReaches(limit, rs, key, now, lo, hi, n - 1, r, m);
      AddsAt(limit, before, key, now, lo, hi, m + n - 1, so);
      assert so.(count := so.count + 1) == r.(count := r.count + n);
    }
  }

  lemma ReachesLater(limit: nat, rs: seq<Request>, key: Text, now: int, later: int, lo: int, hi: int,
                     n: nat, r: Attempts)
    requires Reaches(limit, rs, key, now, lo, hi, n, r) && now <= later
    ensures Reaches(limit, rs, key, later, lo, hi, n, r)
  {
  }

  lemma OpensAt(limit: nat, rs: seq<Request>, key: Text, now: int, lo: int, hi: int, n: nat)
    requires ClockRuns(rs) && NeverSucceeds(limit, key, rs) && forall i :: 0 <= i < |rs| ==> rs[i].now <= now
    requires key in After(limit, rs) ==> Expired(After(limit, rs)[key], now)
    requires CountWithin(Failures(limit, key, rs), lo, hi) == n
    ensures Reaches(limit, rs + [Request(key, now, false)], key, now, lo, hi, n + (if lo <= now <= hi then 1 else 0),
                    Attempts(1, now))
  {
    FailureReaches(limit, rs, key, now, lo, hi);
  }

  /** One failure, and `limit - 1` more in the last millisecond of its window. */
  lemma FillsFirstWindow(limit: nat, key: Text) returns (rs: seq<Request>)
    requires limit > 0
    ensures Reaches(limit, rs, key, WINDOW_MS, 1, 1 + WINDOW_MS, limit - 1, Attempts(limit, 0))
  {
    var begun := [] + [Request(key, 0, false)];
    assert After(limit, []) == map[] && Failures(limit, key, []) == [];
    OpensAt(limit, [], key, 0, 1, 1 + WINDOW_MS, 0);
    ReachesLater(limit, begun, key, 0, WINDOW_MS, 1, 1 + WINDOW_MS, 0, Attempts(1, 0));
    rs := Burst(begun, key, WINDOW_MS, limit - 1);
    BurstReaches(limit, begun, key, WINDOW_MS, 1, 1 + WINDOW_MS, limit - 1, Attempts(1, 0), 0);
  }

  /** `limit` more failures at the moment the window is over. */
  lemma FillsNextWindow(limit: nat, key: Text, full: seq<Request>, r: Attempts, now: int, hi: int, lo: int, n: nat)
    returns (rs: seq<Request>)
    requires limit > 0 && Reaches(limit, full, key, now, lo, hi, n, r) && now <= hi && Expired(r, hi) && lo <= hi
    ensures Reaches(limit, rs, key, hi, lo, hi, n + limit, Attempts(limit, hi))
  {
    OpensAt(limit, full, key, hi, lo, hi, n);
    var begun := full + [Request(key, hi, false)];
    BurstReaches(limit, begun, key, hi, lo, hi, limit - 1, Attempts(1, hi), n + 1);
    rs := Burst(begun, key, hi, limit - 1);
  }

  /** The bound is reached: the first window, then `limit` failures a millisecond after it. */
  lemma SpanBoundIsTight(limit: nat, key: Text) returns (rs: seq<Request>)
    requires limit > 0
    ensures ClockRuns(rs) && NeverSucceeds(limit, key, rs)
    ensures CountWithin(Failures(limit, key, rs), 1, 1 + 300_000) == 2 * limit - 1
  {
    var full := FillsFirstWindow(limit, key);
    rs := FillsNextWindow(limit, key, full, Attempts(limit, 0), WINDOW_MS, 1 + WINDOW_MS, 1, limit - 1);
  }

  /** A limited caller is told to wait at most five minutes, and a millisecond more clears the window. */
  lemma RetryAfterClears(limit: nat, t: Table, key: Text, now: int)
    requires key in t && t[key].windowStart <= now && VerdictOf(limit, t, key, now).Limited?
    ensures var wait := VerdictOf(limit, t, key, now).retryAfterSec;
            && 0 <= wait <= 300
            && VerdictOf(limit, t, key, now + 1000 * wait + 1).Admitted?
            && key !in AfterCheck(t, key, now + 1000 * wait + 1)
  {
  }

  // ---------------------------------------------------------------------------
  // Calls that interleave at their awaits
  // ---------------------------------------------------------------------------

  /** The two halves of calls for one key, in the order they run. */
  datatype Half = Begin(now: int) | Finish(now: int, ok: bool)

  /** The table and the number of admitted calls still waiting for their comparison. */
  datatype Flight = Flight(table: Table, pending: nat)

  predicate CanRun(f: Flight, h: Half) {
    h.Finish? ==> f.pending > 0
  }

  function RunHalf(limit: nat, key: Text, f: Flight, h: Half): Flight
    requires CanRun(f, h)
  {
    match h
    case Begin(now) =>
      var t := AfterCheck(f.table, key, now);
      if VerdictOf(limit, f.table, key, now).Admitted? then Flight(t, f.pending + 1) else Flight(t, f.pending)
    case Finish(now, ok) => Flight(AfterOutcome(f.table, key, now, ok), f.pending - 1)
  }

  /** The state after a run from the start, None unless every half can run and at most `k` calls are ever in flight. */
  function FlightAfter(limit: nat, key: Text, k: nat, hs: seq<Half>): Option<Flight> {
    if hs == [] then Some(Flight(map[], 0))
    else
      match FlightAfter(limit, key, k, hs[..|hs| - 1])
      case None => None
      case Some(f) =>
        var h := hs[|hs| - 1];
        if CanRun(f, h) && RunHalf(limit, key, f, h).pending <= k then Some(RunHalf(limit, key, f, h)) else None
  }

  /** With at most `k` calls in flight the count never exceeds `limit - 1 + k`. */
  lemma {:induction false} InterleavedCountBound(limit: nat, key: Text, k: nat, hs: seq<Half>)
    requires limit > 0 && FlightAfter(limit, key, k, hs).Some?
    ensures var f := FlightAfter(limit, key, k, hs).value;
            f.pending <= k && (key in f.table ==> f.table[key].count + f.pending <= limit - 1 + k)
  {
    if hs != [] {
      InterleavedCountBound(limit, key, k, hs[..|hs| - 1]);
    }
  }

  /** The clock readings of the failed comparisons. */
  function HalfFailures(hs: seq<Half>): seq<int> {
    if hs == [] then []
    else
      var last := hs[|hs| - 1];
      HalfFailures(hs[..|hs| - 1]) + (if last.Finish? && !last.ok then [last.now] else [])
  }

  /** The clock does not run backwards and no comparison succeeds. */
  predicate FailsInOrder(hs: seq<Half>) {
    hs == []
    || (var n := |hs| - 1;
        && FailsInOrder(hs[..n])
        && (hs[n].Finish? ==> !hs[n].ok)
        && (n > 0 ==> hs[n - 1].now <= hs[n].now))
  }

  lemma HalfKeepsLedger(limit: nat, key: Text, k: nat, f: Flight, ts: seq<int>, h: Half)
    requires limit > 0 && k > 0 && CanRun(f, h) && (h.Finish? ==> !h.ok)
    requires key in f.table ==> f.table[key].count + f.pending <= limit - 1 + k
    requires Ledger(limit - 1 + k, f.table, key, ts, h.now)
    ensures Ledger(limit - 1 + k, RunHalf(limit, key, f, h).table, key,
                   ts + (if h.Finish? && !h.ok then [h.now] else []), h.now)
  {
    match h
    case Begin(now) =>
      LedgerChecks(limit - 1 + k, f.table, key, ts, now);
      assert ts + [] == ts;
    case Finish(now, _) => LedgerFails(limit - 1 + k, f.table, key, ts, now);
  }

  lemma {:induction false} FlightKeepsLedger(limit: nat, key: Text, k: nat, hs: seq<Half>)
    requires limit > 0 && k > 0 && FlightAfter(limit, key, k, hs).Some? && FailsInOrder(hs) && hs != []
    ensures Ledger(limit - 1 + k, FlightAfter(limit, key, k, hs).value.table, key, HalfFailures(hs), hs[|hs| - 1].now)
  {
    var before, last := hs[..|hs| - 1], hs[|hs| - 1];
    var f := FlightAfter(limit, key, k, before).value;
    if before != [] {
      FlightKeepsLedger(limit, key, k, before);
      LedgerWaits(limit - 1 + k, f.table, key, HalfFailures(before), before[|before| - 1].now, last.now);
    }
    InterleavedCountBound(limit, key, k, before);
    HalfKeepsLedger(limit, key, k, f, HalfFailures(before), last);
  }

  /**
   With at most `k` calls in flight and none that succeeds, any span of five
   minutes contains at most `2 * (limit - 1 + k) - 1` evaluated failures, those
   included that a call adds to a record whose window has run out meanwhile.
   */
  lemma InterleavedSpanBound(limit: nat, key: Text, k: nat, hs: seq<Half>, lo: int)
    requires limit > 0 && k > 0 && FlightAfter(limit, key, k, hs).Some? && FailsInOrder(hs)
    ensures CountWithin(HalfFailures(hs), lo, lo + 300_000) <= 2 * (limit - 1 + k) - 1
  {
    if hs != [] {
      FlightKeepsLedger(limit, key, k, hs);
      SpacedSpan(limit - 1 + k, HalfFailures(hs), lo);
    }
  }

  // ---------------------------------------------------------------------------
  // The interleaved bound is reached
  // ---------------------------------------------------------------------------

  /** A run of halves so far: legal, over by `now`, with `n` failures within `lo` and `hi`. */
  predicate Flies(limit: nat, key: Text, k: nat, hs: seq<Half>, f: Flight, now: int, lo: int, hi: int, n: nat) {
    && FlightAfter(limit, key, k, hs) == Some(f)
    && FailsInOrder(hs) && (hs != [] ==> hs[|hs| - 1].now <= now)
    && CountWithin(HalfFailures(hs), lo, hi) == n
  }

  lemma FliesOn(limit: nat, key: Text, k: nat, hs: seq<Half>, f: Flight, now: int, lo: int, hi: int, n: nat, h: Half)
    requires Flies(limit, key, k, hs, f, now, lo, hi, n) && CanRun(f, h) && RunHalf(limit, key, f, h).pending <= k
    requires now <= h.now && (h.Finish? ==> !h.ok)
    ensures Flies(limit, key, k, hs + [h], RunHalf(limit, key, f, h), h.now, lo, hi,
                  n + (if h.Finish? && lo <= h.now <= hi then 1 else 0))
  {
    var hs' := hs + [h];
    assert hs'[..|hs'| - 1] == hs && hs'[|hs'| - 1] == h;
    if h.Finish? {
      CountAdds(HalfFailures(hs), h.now, lo, hi);
    } else {
      assert HalfFailures(hs) + [] == HalfFailures(hs);
    }
  }

  /** `j` calls begin while the key has no record in force. */
  lemma {:induction false} AllBegin(limit: nat, key: Text, k: nat, hs: seq<Half>, t: Table, now: int, at: int,
                                    lo: int, hi: int, n: nat, j: nat) returns (hs': seq<Half>)
    requires Flies(limit, key, k, hs, Flight(t, 0), now, lo, hi, n) && now <= at && 0 < j <= k
    requires key in t ==> Expired(t[key], at)
    ensures Flies(limit, key, k, hs', Flight(t - {key}, j), at, lo, hi, n)
  {
    if j == 1 {
      hs' := hs + [Begin(at)];
      FliesOn(limit, key, k, hs, Flight(t, 0), now, lo, hi, n, Begin(at));
      assert AfterCheck(t, key, at) == t - {key};
    } else {
      var before := AllBegin(limit, key, k, hs, t, now, at, lo, hi, n, j - 1);
      hs' := before + [Begin(at)];
      FliesOn(limit, key, k, before, Flight(t - {key}, j - 1), at, lo, hi, n, Begin(at));
    }
  }

  lemma FliesUntil(limit: nat, key: Text, k: nat, hs: seq<Half>, f: Flight, now: int, lo: int, hi: int, n: nat,
                   later: int)
    requires Flies(limit, key, k, hs, f, now, lo, hi, n) && now <= later
    ensures Flies(limit, key, k, hs, f, later, lo, hi, n)
  {
  }

  lemma FinishCounts(limit: nat, key: Text, t: Table, r: Attempts, pending: nat, at: int)
    requires pending > 0
    ensures RunHalf(limit, key, Flight(t[key := r], pending), Finish(at, false)) ==
            Flight(t[key := r.(count := r.count + 1)], pending - 1)
  {
    assert t[key := r][key := r.(count := r.count + 1)] == t[key := r.(count := r.count + 1)];
  }

  /** A failed comparison is counted in the record there is. */
  lemma CallEnds(limit: nat, key: Text, k: nat, hs: seq<Half>, t: Table, r: Attempts, pending: nat, at: int,
                 lo: int, hi: int, n: nat)
    requires Flies(limit, key, k, hs, Flight(t[key := r], pending), at, lo, hi, n) && 0 < pending <= k && lo <= at <= hi
    ensures Flies(limit, key, k, hs + [Finish(at, false)],
                  Flight(t[key := r.(count := r.count + 1)], pending - 1), at, lo, hi, n + 1)
  {
    FinishCounts(limit, key, t, r, pending, at);
    FliesOn(limit, key, k, hs, Flight(t[key := r], pending), at, lo, hi, n, Finish(at, false));
  }

  /** A call begins while the record has room. */
  lemma CallBegins(limit: nat, key: Text, k: nat, hs: seq<Half>, t: Table, r: Attempts, pending: nat, at: int,
                   lo: int, hi: int, n: nat)
    requires Flies(limit, key, k, hs, Flight(t[key := r], pending), at, lo, hi, n) && pending < k
    requires !Expired(r, at) && r.count < limit
    ensures Flies(limit, key, k, hs + [Begin(at)], Flight(t[key := r], pending + 1), at, lo, hi, n)
  {
    FliesOn(limit, key, k, hs, Flight(t[key := r], pending), at, lo, hi, n, Begin(at));
  }

  /** `j` calls one after the other, beside those in flight, while the record has room. */
  lemma {:induction false} CallsFill(limit: nat, key: Text, k: nat, hs: seq<Half>, t: Table, r: Attempts, pending: nat,
                                     at: int, lo: int, hi: int, n: nat, j: nat) returns (hs': seq<Half>)
    requires Flies(limit, key, k, hs, Flight(t[key := r], pending), at, lo, hi, n) && pending < k && lo <= at <= hi
    requires !Expired(r, at) && r.count + j <= limit
    ensures Flies(limit, key, k, hs', Flight(t[key := r.(count := r.count + j)], pending), at, lo, hi, n + j)
    decreases j
  {
    hs' := hs;
    if j > 0 {
      var begun := hs + [Begin(at)];
      CallBegins(limit, key, k, hs, t, r, pending, at, lo, hi, n);
      CallEnds(limit, key, k, begun, t, r, pending + 1, at, lo, hi, n);
      hs' := CallsFill(limit, key, k, begun + [Finish(at, false)], t, r.(count := r.count + 1), pending,
                       at, lo, hi, n + 1, j - 1);
    }
  }

  /** `j` calls in flight end in failure. */
  lemma {:induction false} CallsEnd(limit: nat, key: Text, k: nat, hs: seq<Half>, t: Table, r: Attempts, pending: nat,
                                    at: int, lo: int, hi: int, n: nat, j: nat) returns (hs': seq<Half>)
    requires Flies(limit, key, k, hs, Flight(t[key := r], pending), at, lo, hi, n) && j <= pending <= k
    requires lo <= at <= hi
    ensures Flies(limit, key, k, hs', Flight(t[key := r.(count := r.count + j)], pending - j), at, lo, hi, n + j)
    decreases j
  {
    hs' := hs;
    if j > 0 {
      CallEnds(limit, key, k, hs, t, r, pending, at, lo, hi, n);
      hs' := CallsEnd(limit, key, k, hs + [Finish(at, false)], t, r.(count := r.count + 1), pending - 1,
                      at, lo, hi, n + 1, j - 1);
    }
  }

  /** `k` calls begin at `start`, and the first of them to end opens a record. */
  lemma OpensWindow(limit: nat, key: Text, k: nat, hs: seq<Half>, t: Table, now: int, start: int,
                    lo: int, hi: int, n: nat) returns (hs': seq<Half>)
    requires k > 0 && Flies(limit, key, k, hs, Flight(t, 0), now, lo, hi, n)
    requires now <= start && (key in t ==> Expired(t[key], start))
    ensures Flies(limit, key, k, hs', Flight((t - {key})[key := Attempts(1, start)], k - 1), start, lo, hi,
                  n + (if lo <= start <= hi then 1 else 0))
  {
    var begun := AllBegin(limit, key, k, hs, t, now, start, lo, hi, n, k);
    hs' := begun + [Finish(start, false)];
    FliesOn(limit, key, k, begun, Flight(t - {key}, k), start, lo, hi, n, Finish(start, false));
  }

  /** `limit - 2 + k` more failures in an open record. */
  lemma FillsWindow(limit: nat, key: Text, k: nat, hs: seq<Half>, t: Table, r: Attempts, now: int, at: int,
                    lo: int, hi: int, n: nat) returns (hs': seq<Half>)
    requires limit > 0 && k > 0 && Flies(limit, key, k, hs, Flight(t[key := r], k - 1), now, lo, hi, n)
    requires r.count == 1 && now <= at && !Expired(r, at) && lo <= at <= hi
    ensures Flies(limit, key, k, hs', Flight(t[key := r.(count := limit - 1 + k)], 0), at, lo, hi, n + limit - 2 + k)
  {
    FliesUntil(limit, key, k, hs, Flight(t[key := r], k - 1), now, lo, hi, n, at);
    var filled := CallsFill(limit, key, k, hs, t, r, k - 1, at, lo, hi, n, limit - 1);
    hs' := CallsEnd(limit, key, k, filled, t, r.(count := limit), k - 1, at, lo, hi, n + limit - 1, k - 1);
  }

  /** The interleaved bound is reached: two windows, a millisecond apart. */
  lemma InterleavedSpanBoundIsTight(limit: nat, key: Text, k: nat) returns (hs: seq<Half>)
    requires limit > 0 && k > 0
    ensures FlightAfter(limit, key, k, hs).Some? && FailsInOrder(hs)
    ensures CountWithin(HalfFailures(hs), 1, 1 + 300_000) == 2 * (limit - 1 + k) - 1
  {
    var end := 1 + WINDOW_MS;
    assert Flies(limit, key, k, [], Flight(map[], 0), 0, 1, end, 0);
    var begun := OpensWindow(limit, key, k, [], map[], 0, 0, 1, end, 0);
    var t: Table := map[] - {key};
    var r := Attempts(1, 0);
    var full := FillsWindow(limit, key, k, begun, t, r, 0, WINDOW_MS, 1, end, 0);
    var t' := t[key := r.(count := limit - 1 + k)];
    var again := OpensWindow(limit, key, k, full, t', WINDOW_MS, end, 1, end, limit - 2 + k);
    hs := FillsWindow(limit, key, k, again, t' - {key}, Attempts(1, end), end, end, 1, end, limit - 1 + k);
  }
}
