/** `ResilientConsumer`: pass after pass of connect, subscribe and read,
    with a counter of consecutive failed passes, an exponential pause
    after each failure, and giving up once the counter passes the limit.
    The outcome of each pass is supplied from outside as a script. */
module Resilient {
  import opened Outcomes
  import opened Lines
  import opened Decimal
  import opened Consumers

  /** What the world does during one pass of `run_consumer_loop`: how the
      single connect attempt goes, whether setting keep-alive and writing
      the subscribe request succeed, and what is then read. */
  datatype Cycle = Cycle(attempt: Attempt, setupOk: bool, received: seq<ReadEvent>)

  /** The lines a pass handed to the handler and whether it ended `Ok`. */
  datatype CycleResult = CycleResult(handled: seq<string>, ok: bool)

  /** `run_consumer_loop`: connect with a single attempt, set up, then hand
      every non-blank line to the handler until the stream ends. */
  function RunCycle(addressParses: bool, c: Cycle): (r: CycleResult)
    ensures var connected := addressParses && c.attempt.Connects?;
            && (r.ok <==> connected && c.setupOk && forall i :: 0 <= i < |c.received| ==> c.received[i].Line?)
            && r.handled == (if connected && c.setupOk then NonBlank(LinesBeforeError(c.received)) else [])
  {
    var conn := ConnectSpec(addressParses, 1, _ => c.attempt);
    if conn.error.Some? || !c.setupOk then CycleResult([], false)
    else
      var d := Deliver(c.received);
      CycleResult(d.handled, d.ok)
  }

  function Pow2(n: nat): (p: nat)
    ensures p >= 1
  {
    if n == 0 then 1 else 2 * Pow2(n - 1)
  }

  /** The number of failed passes at the end of `rs`, back to the last
      successful one. */
  function TrailingFailures(rs: seq<CycleResult>): (n: nat)
    ensures n <= |rs|
  {
    if rs == [] || rs[|rs| - 1].ok then 0 else 1 + TrailingFailures(rs[..|rs| - 1])
  }

  /** The state of `start`: the failure counter, the pauses taken (in
      seconds), the lines handled, the passes run, and whether `start` has
      returned. */
  datatype Supervision = Supervision(
    failures: nat, sleeps: seq<nat>, handled: seq<string>, cycles: nat, gaveUp: bool)

  /** One turn of the loop in `start`. */
  function Tick(maxRetries: nat, st: Supervision, r: CycleResult): Supervision {
    if st.gaveUp then st
    else if r.ok then
      st.(failures := 0, handled := st.handled + r.handled, cycles := st.cycles + 1)
    else
      var f := st.failures + 1;
      if f > maxRetries then
        st.(failures := f, handled := st.handled + r.handled, cycles := st.cycles + 1, gaveUp := true)
      else
        st.(failures := f, sleeps := st.sleeps + [Pow2(f)], handled := st.handled + r.handled,
            cycles := st.cycles + 1)
  }

  /** `start` run against the outcomes `rs` of its passes, in order. It
      runs a pass only while it has not returned. */
  function Supervise(maxRetries: nat, rs: seq<CycleResult>): (r: Supervision)
    ensures r.cycles <= |rs|
    ensures !r.gaveUp ==> r.cycles == |rs| && r.failures == TrailingFailures(rs)
    ensures r.gaveUp ==> r.failures == maxRetries + 1 && TrailingFailures(rs[..r.cycles]) == maxRetries + 1
    // It returns at the first pass that brings the counter past the limit,
    // and only there.
    ensures forall i :: 0 <= i <= |rs| && (i < r.cycles || !r.gaveUp) ==>
              TrailingFailures(rs[..i]) <= maxRetries
    decreases |rs|
  {
    if rs == [] then Supervision(0, [], [], 0, false)
    else
      var p := rs[..|rs| - 1];
      var before := Supervise(maxRetries, p);
      assert forall i :: 0 <= i <= |p| ==> rs[..i] == p[..i];
      assert rs[..|rs|] == rs;
      Tick(maxRetries, before, rs[|rs| - 1])
  }

  /** `start` gives up exactly when, at some point, more than `maxRetries`
      passes in a row have failed. */
  lemma GivesUpIffTooManyFailures(maxRetries: nat, rs: seq<CycleResult>)
    ensures Supervise(maxRetries, rs).gaveUp <==>
              exists i :: 0 <= i <= |rs| && TrailingFailures(rs[..i]) > maxRetries
  {
    var r := Supervise(maxRetries, rs);
    if r.gaveUp {
      assert TrailingFailures(rs[..r.cycles]) > maxRetries;
    }
  }

  /** A successful pass resets the counter: a later give-up needs
      `maxRetries + 1` failures after it. */
  lemma SuccessResets(maxRetries: nat, rs: seq<CycleResult>, handled: seq<string>)
    requires !Supervise(maxRetries, rs).gaveUp
    ensures Supervise(maxRetries, rs + [CycleResult(handled, true)]).failures == 0
    ensures !Supervise(maxRetries, rs + [CycleResult(handled, true)]).gaveUp
    ensures Supervise(maxRetries, rs + [CycleResult(handled, true)]).sleeps
            == Supervise(maxRetries, rs).sleeps
  {
    assert (rs + [CycleResult(handled, true)])[..|rs|] == rs;
  }

  /** A failed pass raises the counter by one; within the limit `start`
      then sleeps `2^failures` seconds, past it it returns without a pause. */
  lemma FailureSleeps(maxRetries: nat, rs: seq<CycleResult>, r: CycleResult)
    requires !Supervise(maxRetries, rs).gaveUp && !r.ok
    ensures var before := Supervise(maxRetries, rs);
            var after := Supervise(maxRetries, rs + [r]);
            && after.failures == before.failures + 1
            && (after.gaveUp <==> after.failures > maxRetries)
            && (!after.gaveUp ==> after.sleeps == before.sleeps + [Pow2(after.failures)])
            && (after.gaveUp ==> after.sleeps == before.sleeps)
  {
    assert (rs + [r])[..|rs|] == rs;
  }

  /** `n` failed passes. */
  function Failures(n: nat): (rs: seq<CycleResult>)
    ensures |rs| == n && forall i :: 0 <= i < n ==> rs[i] == CycleResult([], false)
  {
    seq(n, i => CycleResult([], false))
  }

  /** The pauses after failures 1 .. n: 2, 4, ..., 2^n seconds. */
  function Backoff(n: nat): (b: seq<nat>)
    ensures |b| == n && forall i :: 0 <= i < n ==> b[i] == Pow2(i + 1)
  {
    seq(n, i requires 0 <= i < n => Pow2(i + 1))
  }

  /** From a fresh start, `n` failures in a row within the limit sleep
      2, 4, ..., 2^n seconds and leave the counter at `n`. */
  lemma {:induction false} BackoffSchedule(maxRetries: nat, n: nat)
    requires n <= maxRetries
    ensures var r := Supervise(maxRetries, Failures(n));
            r == Supervision(n, Backoff(n), [], n, false)
  {
    if n > 0 {
      BackoffSchedule(maxRetries, n - 1);
      assert Failures(n)[..n - 1] == Failures(n - 1);
      assert Supervise(maxRetries, Failures(n))
             == Tick(maxRetries, Supervise(maxRetries, Failures(n - 1)), CycleResult([], false));
      assert Backoff(n - 1) + [Pow2(n)] == Backoff(n);
    }
  }

  /** The loop of `start` resumed from state `st` over further passes `fs`. */
  function Resume(maxRetries: nat, st: Supervision, fs: seq<CycleResult>): Supervision
    decreases |fs|
  {
    if fs == [] then st
    else Tick(maxRetries, Resume(maxRetries, st, fs[..|fs| - 1]), fs[|fs| - 1])
  }

  /** The last pass of `rs + fs` is one more turn after the others. */
  lemma SuperviseSnoc(maxRetries: nat, rs: seq<CycleResult>, fs: seq<CycleResult>)
    requires fs != []
    ensures Supervise(maxRetries, rs + fs)
            == Tick(maxRetries, Supervise(maxRetries, rs + fs[..|fs| - 1]), fs[|fs| - 1])
  {
    var ys := rs + fs;
    assert Supervise(maxRetries, ys) == Tick(maxRetries, Supervise(maxRetries, ys[..|ys| - 1]), ys[|ys| - 1]);
    assert ys[..|ys| - 1] == rs + fs[..|fs| - 1];
    assert ys[|ys| - 1] == fs[|fs| - 1];
  }

  /** Running `start` over `rs` and then `fs` is resuming, after `rs`, over `fs`. */
  lemma {:induction false} SuperviseResume(maxRetries: nat, rs: seq<CycleResult>, fs: seq<CycleResult>)
    ensures Supervise(maxRetries, rs + fs) == Resume(maxRetries, Supervise(maxRetries, rs), fs)
    decreases |fs|
  {
    if fs == [] {
      assert rs + fs == rs;
    } else {
      SuperviseSnoc(maxRetries, rs, fs);
      SuperviseResume(maxRetries, rs, fs[..|fs| - 1]);
    }
  }

  /** From a state whose counter is zero, `n` failures within the limit
      add the pauses 2, 4, ..., 2^n seconds and leave the counter at `n`. */
  lemma {:induction false} ResumeFailures(maxRetries: nat, st: Supervision, n: nat)
    requires !st.gaveUp && st.failures == 0 && n <= maxRetries
    ensures var after := Resume(maxRetries, st, Failures(n));
            && !after.gaveUp
            && after.failures == n
            && after.sleeps == st.sleeps + Backoff(n)
  {
    if n > 0 {
      ResumeFailures(maxRetries, st, n - 1);
      assert Failures(n)[..n - 1] == Failures(n - 1);
      assert (st.sleeps + Backoff(n - 1)) + [Pow2(n)] == st.sleeps + Backoff(n);
    }
  }

  /** After any history that ends with the counter at zero, `n` failures
      in a row within the limit add the pauses 2, 4, ..., 2^n seconds: the
      schedule restarts after every successful pass. */
  lemma BackoffAfter(maxRetries: nat, rs: seq<CycleResult>, n: nat)
    requires !Supervise(maxRetries, rs).gaveUp && Supervise(maxRetries, rs).failures == 0
    requires n <= maxRetries
    ensures var after := Supervise(maxRetries, rs + Failures(n));
            && !after.gaveUp
            && after.failures == n
            && after.sleeps == Supervise(maxRetries, rs).sleeps + Backoff(n)
  {
    SuperviseResume(maxRetries, rs, Failures(n));
    ResumeFailures(maxRetries, Supervise(maxRetries, rs), n);
  }

  /** The failure after that gives up, without a further pause: `start`
      returns after `maxRetries + 1` failed passes. */
  lemma GiveUpAfterLimit(maxRetries: nat)
    ensures Supervise(maxRetries, Failures(maxRetries + 1))
            == Supervision(maxRetries + 1, Backoff(maxRetries), [], maxRetries + 1, true)
  {
    BackoffSchedule(maxRetries, maxRetries);
    assert Failures(maxRetries + 1)[..maxRetries] == Failures(maxRetries);
  }

  /** Three failures in a row sleep 2, 4 and 8 seconds. */
  lemma FirstThreePauses()
    ensures Supervise(3, Failures(3)).sleeps == [2, 4, 8]
  {
    BackoffSchedule(3, 3);
    assert Pow2(1) == 2 && Pow2(2) == 4 && Pow2(3) == 8;
  }

  /** A turn after `start` has returned changes nothing; before that it
      runs one more pass and collects its lines. */
  lemma TickCollects(maxRetries: nat, st: Supervision, r: CycleResult)
    ensures var t := Tick(maxRetries, st, r);
            && (st.gaveUp ==> t == st)
            && (!st.gaveUp ==> t.cycles == st.cycles + 1 && t.handled == st.handled + r.handled)
  {
  }

  /** Lines handed to the handler over passes `rs`, in order. */
  function AllHandled(rs: seq<CycleResult>): seq<string>
    decreases |rs|
  {
    if rs == [] then [] else rs[0].handled + AllHandled(rs[1..])
  }

  lemma {:induction false} AllHandledSnoc(rs: seq<CycleResult>, r: CycleResult)
    ensures AllHandled(rs + [r]) == AllHandled(rs) + r.handled
    decreases |rs|
  {
    if rs == [] {
      assert AllHandled([r]) == r.handled + AllHandled([]);
    } else {
      assert (rs + [r])[1..] == rs[1..] + [r];
      AllHandledSnoc(rs[1..], r);
    }
  }

  /** Every pass that `start` runs delivers its lines to the handler, in
      order, whether the pass then succeeds or fails. */
  lemma {:induction false} HandledInOrder(maxRetries: nat, rs: seq<CycleResult>)
    ensures var r := Supervise(maxRetries, rs);
            r.handled == AllHandled(rs[..r.cycles])
    decreases |rs|
  {
    if rs != [] {
      var p := rs[..|rs| - 1];
      HandledInOrder(maxRetries, p);
      var before := Supervise(maxRetries, p);
      TickCollects(maxRetries, before, rs[|rs| - 1]);
      var r := Supervise(maxRetries, rs);
      assert r == Tick(maxRetries, before, rs[|rs| - 1]);
      if !before.gaveUp {
        assert before.cycles == |p| && p[..before.cycles] == p;
        assert rs[..r.cycles] == p + [rs[|rs| - 1]];
        AllHandledSnoc(p, rs[|rs| - 1]);
      } else {
        assert rs[..before.cycles] == p[..before.cycles];
      }
    }
  }

  /** How `start` stands after the scripted passes: still looping, or
      returned with a result. */
  datatype Run = Run(supervision: Supervision, returned: Option<Result<()>>)

  /** `ResilientConsumer::start`. Its only `return` is the error after too
      many failures; a successful pass just loops again. */
  function Start(maxRetries: nat, addressParses: bool, cycles: seq<Cycle>): (r: Run)
    ensures r.returned.Some? <==> r.supervision.gaveUp
    ensures r.returned.Some? ==> r.returned.value.Err?
    ensures r.supervision.cycles <= |cycles|
  {
    var rs := seq(|cycles|, i requires 0 <= i < |cycles| => RunCycle(addressParses, cycles[i]));
    var st := Supervise(maxRetries, rs);
    if st.gaveUp then Run(st, Some(Err("Exceeded maximum retries (" + ShowNat(maxRetries) + ")")))
    else Run(st, None)
  }

  /** With an address that never parses every pass fails at once: `start`
      sleeps 2, 4, ..., 2^maxRetries seconds, hands nothing to the handler,
      and returns its error after exactly `maxRetries + 1` passes. */
  lemma BadAddressGivesUp(maxRetries: nat, cycles: seq<Cycle>)
    requires |cycles| == maxRetries + 1
    ensures Start(maxRetries, false, cycles)
            == Run(Supervision(maxRetries + 1, Backoff(maxRetries), [], maxRetries + 1, true),
                   Some(Err("Exceeded maximum retries (" + ShowNat(maxRetries) + ")")))
  {
    var rs := seq(|cycles|, i requires 0 <= i < |cycles| => RunCycle(false, cycles[i]));
    assert rs == Failures(maxRetries + 1);
    GiveUpAfterLimit(maxRetries);
  }
}
