/** The bounded fan-out of a deploy job (internal/deploy/manager.go, `run`). */
module FanOut {

  // Every goroutine has a program counter and the main loop has one of its own; a run is any sequence of labels
  // each of which is enabled when it is taken, so a statement about every run is a statement about every
  // interleaving. A label carries what the environment decides: the outcome of a host operation and whether a
  // store write was stored and acknowledged.

  datatype Outcome = Outcome(ok: bool, output: string, err: string)

  datatype HostStatus = Pending | Running | Success | Failed
  datatype HostRow = HostRow(status: HostStatus, output: string, error: string)

  datatype JobStatus = InProgress | Succeeded | AllFailed | Partial
  datatype JobRow = JobRow(status: JobStatus, succeeded: nat, failed: nat, finished: bool)

  /** A write is stored and acknowledged, refused, or stored although an error came back. */
  datatype Write = Acked | Refused | Unacked {
    predicate Stored() { !Refused? }
  }

  datatype HostPc =
    | Unstarted
    | Starting
    | Operating
    | Recording(o: Outcome)
    | Retrying(o: Outcome, cause: string)
    | Counting(o: Outcome)
    | Reporting(o: Outcome, s: nat, f: nat)
    | Releasing(o: Outcome)
    | Signalling(o: Outcome)
    | Done(o: Outcome)
  {
    predicate HasOutcome() { !Unstarted? && !Starting? && !Operating? }

    /** The counters already include this host. */
    predicate Counted() { Reporting? || Releasing? || Signalling? || Done? }
  }

  datatype MainPc =
    | Adding(i: nat)
    | Acquiring(i: nat)
    | Spawning(i: nat)
    | Joining
    | Finalizing
    | Ended(stored: bool)

  datatype Label =
    | Main
    | Start(i: nat, w: Write)
    | Return(i: nat, o: Outcome)
    | Record(i: nat, w: Write, cause: string)
    | Retry(i: nat, w: Write)
    | Count(i: nat)
    | Report(i: nat, w: Write)
    | Release(i: nat)
    | Signal(i: nat)
    | Finalize(w: Write)

  datatype Config = Config(hosts: seq<string>, concurrency: nat) {
    ghost predicate Valid() {
      && concurrency >= 1
      && forall i, j :: 0 <= i < j < |hosts| ==> hosts[i] != hosts[j]
    }
  }

  /** `jobLog` lists every row the job row has held, the current one last. */
  datatype State = State(
    main: MainPc,
    pcs: seq<HostPc>,
    sem: nat,
    wg: int,
    succeeded: nat,
    failed: nat,
    jobLog: seq<JobRow>,
    rows: map<string, HostRow>)

  function StatusOf(o: Outcome): HostStatus {
    if o.ok then Success else Failed
  }

  function FallbackRow(o: Outcome, cause: string): HostRow {
    HostRow(StatusOf(o), "", "result could not be stored (" + cause + "); original error: " + o.err)
  }

  function FinalStatus(succeeded: nat, failed: nat): JobStatus {
    if succeeded == 0 then AllFailed else if failed > 0 then Partial else Succeeded
  }

  /** CreateDeployJob leaves one "running" job row and a pending row for every host. */
  function Init(cfg: Config): State {
    State(
      if cfg.hosts == [] then Joining else Adding(0),
      seq(|cfg.hosts|, _ => Unstarted), 0, 0, 0, 0,
      [JobRow(InProgress, 0, 0, false)],
      map h | h in cfg.hosts :: HostRow(Pending, "", ""))
  }

  predicate Enabled(cfg: Config, s: State, l: Label) {
    match l
    case Main =>
      (match s.main
       case Adding(_) => true
       case Acquiring(_) => s.sem < cfg.concurrency
       case Spawning(i) => i < |s.pcs|
       case Joining => s.wg == 0
       case _ => false)
    case Start(i, _) => i < |s.pcs| && s.pcs[i].Starting?
    case Return(i, _) => i < |s.pcs| && s.pcs[i].Operating?
    case Record(i, _, _) => i < |s.pcs| && s.pcs[i].Recording?
    case Retry(i, _) => i < |s.pcs| && s.pcs[i].Retrying?
    case Count(i) => i < |s.pcs| && s.pcs[i].Counting?
    case Report(i, _) => i < |s.pcs| && s.pcs[i].Reporting?
    case Release(i) => i < |s.pcs| && s.pcs[i].Releasing? && s.sem > 0
    case Signal(i) => i < |s.pcs| && s.pcs[i].Signalling?
    case Finalize(_) => s.main.Finalizing?
  }

  function PutRow(cfg: Config, s: State, i: nat, w: Write, row: HostRow): map<string, HostRow> {
    if w.Stored() && i < |cfg.hosts| then s.rows[cfg.hosts[i] := row] else s.rows
  }

  /** UPDATE of the job row; only the finishing form touches finished_at. */
  function PutJob(s: State, w: Write, status: JobStatus, succeeded: nat, failed: nat, finishing: bool): seq<JobRow> {
    if w.Stored() && s.jobLog != []
    then s.jobLog + [JobRow(status, succeeded, failed, finishing || s.jobLog[|s.jobLog| - 1].finished)]
    else s.jobLog
  }

  function Apply(cfg: Config, s: State, l: Label): State
    requires Enabled(cfg, s, l)
  {
    match l
    case Main =>
      (match s.main
       case Adding(i) => s.(main := Acquiring(i), wg := s.wg + 1)
       case Acquiring(i) => s.(main := Spawning(i), sem := s.sem + 1)
       case Spawning(i) =>
         s.(main := if i + 1 < |s.pcs| then Adding(i + 1) else Joining, pcs := s.pcs[i := Starting])
       case _ => s.(main := Finalizing))
    case Start(i, w) =>
      s.(pcs := s.pcs[i := Operating], rows := PutRow(cfg, s, i, w, HostRow(Running, "", "")))
    case Return(i, o) => s.(pcs := s.pcs[i := Recording(o)])
    case Record(i, w, cause) =>
      var o := s.pcs[i].o;
      s.(pcs := s.pcs[i := if w.Acked? then Counting(o) else Retrying(o, cause)],
         rows := PutRow(cfg, s, i, w, HostRow(StatusOf(o), o.output, o.err)))
    case Retry(i, w) =>
      var o := s.pcs[i].o;
      s.(pcs := s.pcs[i := Counting(o)],
         rows := PutRow(cfg, s, i, w, FallbackRow(o, s.pcs[i].cause)))
    case Count(i) =>
      var o := s.pcs[i].o;
      var su := if o.ok then s.succeeded + 1 else s.succeeded;
      var fa := if o.ok then s.failed else s.failed + 1;
      s.(pcs := s.pcs[i := Reporting(o, su, fa)], succeeded := su, failed := fa)
    case Report(i, w) =>
      var p := s.pcs[i];
      s.(pcs := s.pcs[i := Releasing(p.o)], jobLog := PutJob(s, w, InProgress, p.s, p.f, false))
    case Release(i) => s.(pcs := s.pcs[i := Signalling(s.pcs[i].o)], sem := s.sem - 1)
    case Signal(i) => s.(pcs := s.pcs[i := Done(s.pcs[i].o)], wg := s.wg - 1)
    case Finalize(w) =>
      s.(main := Ended(w.Stored()),
         jobLog := PutJob(s, w, FinalStatus(s.succeeded, s.failed), s.succeeded, s.failed, true))
  }

  // ---------------------------------------------------------------- runs

  ghost predicate IsRun(cfg: Config, ls: seq<Label>)
    decreases |ls|, 0
  {
    ls == [] ||
    (IsRun(cfg, ls[..|ls| - 1]) && Enabled(cfg, After(cfg, ls[..|ls| - 1]), ls[|ls| - 1]))
  }

  /** The state a run ends in. */
  ghost function After(cfg: Config, ls: seq<Label>): State
    requires IsRun(cfg, ls)
    decreases |ls|, 1
  {
    if ls == [] then Init(cfg)
    else Apply(cfg, After(cfg, ls[..|ls| - 1]), ls[|ls| - 1])
  }

  // ---------------------------------------------------------------- sums over program counters

  ghost function Total(w: HostPc -> nat, pcs: seq<HostPc>): nat {
    if pcs == [] then 0 else w(pcs[0]) + Total(w, pcs[1..])
  }

  lemma {:induction false} TotalUpdate(w: HostPc -> nat, pcs: seq<HostPc>, i: nat, p: HostPc)
    requires i < |pcs|
    ensures Total(w, pcs[i := p]) + w(pcs[i]) == Total(w, pcs) + w(p)
  {
    if i == 0 {
      assert pcs[0 := p][1..] == pcs[1..];
    } else {
      assert pcs[i := p][1..] == pcs[1..][i - 1 := p];
      TotalUpdate(w, pcs[1..], i - 1, p);
    }
  }

  lemma {:induction false} TotalZero(w: HostPc -> nat, pcs: seq<HostPc>)
    ensures Total(w, pcs) == 0 <==> forall i :: 0 <= i < |pcs| ==> w(pcs[i]) == 0
  {
    if pcs != [] {
      TotalZero(w, pcs[1..]);
      assert forall i :: 0 < i < |pcs| ==> pcs[i] == pcs[1..][i - 1];
      assert forall i :: 0 <= i < |pcs[1..]| ==> pcs[1..][i] == pcs[i + 1];
    }
  }

  function Slot(p: HostPc): nat {
    if p.Unstarted? || p.Signalling? || p.Done? then 0 else 1
  }

  function Owed(p: HostPc): nat {
    if p.Unstarted? || p.Done? then 0 else 1
  }

  function CountedOk(p: HostPc): nat {
    if p.Counted() && p.o.ok then 1 else 0
  }

  function CountedBad(p: HostPc): nat {
    if p.Counted() && !p.o.ok then 1 else 0
  }

  /** Steps a goroutine may still take. */
  function Rank(p: HostPc): nat {
    match p
    case Unstarted => 9
    case Starting => 8
    case Operating => 7
    case Recording(_) => 6
    case Retrying(_, _) => 5
    case Counting(_) => 4
    case Reporting(_, _, _) => 3
    case Releasing(_) => 2
    case Signalling(_) => 1
    case Done(_) => 0
  }

  // ---------------------------------------------------------------- invariant

  /** Goroutines have been spawned for exactly the hosts the loop has passed. */
  ghost predicate SpawnedInOrder(cfg: Config, s: State) {
    && |s.pcs| == |cfg.hosts|
    && (match s.main
        case Adding(i) => i < |s.pcs| && forall j :: 0 <= j < |s.pcs| ==> (s.pcs[j].Unstarted? <==> i <= j)
        case Acquiring(i) => i < |s.pcs| && forall j :: 0 <= j < |s.pcs| ==> (s.pcs[j].Unstarted? <==> i <= j)
        case Spawning(i) => i < |s.pcs| && forall j :: 0 <= j < |s.pcs| ==> (s.pcs[j].Unstarted? <==> i <= j)
        case Joining => forall j :: 0 <= j < |s.pcs| ==> !s.pcs[j].Unstarted?
        case _ => forall j :: 0 <= j < |s.pcs| ==> s.pcs[j].Done?)
  }

  /** The semaphore, the wait group and the two counters agree with the program counters. */
  ghost predicate CountersAgree(cfg: Config, s: State) {
    && s.sem == Total(Slot, s.pcs) + (if s.main.Spawning? then 1 else 0)
    && s.sem <= cfg.concurrency
    && s.wg == Total(Owed, s.pcs) + (if s.main.Acquiring? || s.main.Spawning? then 1 else 0)
    && s.succeeded == Total(CountedOk, s.pcs)
    && s.failed == Total(CountedBad, s.pcs)
  }

  ghost predicate Inv(cfg: Config, s: State) {
    SpawnedInOrder(cfg, s) && CountersAgree(cfg, s)
  }

  lemma {:induction false} UnstartedTotals(n: nat)
    ensures var pcs := seq(n, _ => Unstarted);
      Total(Slot, pcs) == 0 && Total(Owed, pcs) == 0 && Total(CountedOk, pcs) == 0 && Total(CountedBad, pcs) == 0
  {
    var pcs := seq(n, _ => Unstarted);
    TotalZero(Slot, pcs);
    TotalZero(Owed, pcs);
    TotalZero(CountedOk, pcs);
    TotalZero(CountedBad, pcs);
  }

  lemma InitInv(cfg: Config)
    requires cfg.Valid()
    ensures Inv(cfg, Init(cfg))
  {
    UnstartedTotals(|cfg.hosts|);
  }

  /** What one step does to the four sums: only the stepping goroutine's term changes. */
  lemma StepTotals(pcs: seq<HostPc>, i: nat, p: HostPc)
    requires i < |pcs|
    ensures Total(Slot, pcs[i := p]) + Slot(pcs[i]) == Total(Slot, pcs) + Slot(p)
    ensures Total(Owed, pcs[i := p]) + Owed(pcs[i]) == Total(Owed, pcs) + Owed(p)
    ensures Total(CountedOk, pcs[i := p]) + CountedOk(pcs[i]) == Total(CountedOk, pcs) + CountedOk(p)
    ensures Total(CountedBad, pcs[i := p]) + CountedBad(pcs[i]) == Total(CountedBad, pcs) + CountedBad(p)
  {
    TotalUpdate(Slot, pcs, i, p);
    TotalUpdate(Owed, pcs, i, p);
    TotalUpdate(CountedOk, pcs, i, p);
    TotalUpdate(CountedBad, pcs, i, p);
  }

  /** A goroutine's own step touches no other program counter and not the loop. */
  lemma HostStep(cfg: Config, s: State, l: Label)
    requires Inv(cfg, s) && Enabled(cfg, s, l) && !l.Main? && !l.Finalize?
    ensures var s' := Apply(cfg, s, l);
      && l.i < |s.pcs| && s'.pcs == s.pcs[l.i := s'.pcs[l.i]] && s'.main == s.main
      && !s.pcs[l.i].Unstarted? && !s.pcs[l.i].Done? && !s'.pcs[l.i].Unstarted?
      && (s'.pcs[l.i].Done? <==> l.Signal?)
  {
  }

  lemma HostStepInv(cfg: Config, s: State, l: Label)
    requires Inv(cfg, s) && Enabled(cfg, s, l) && !l.Main? && !l.Finalize?
    ensures Inv(cfg, Apply(cfg, s, l))
  {
    hide Total, PutRow, PutJob, FallbackRow;
    var s' := Apply(cfg, s, l);
    HostStep(cfg, s, l);
    StepTotals(s.pcs, l.i, s'.pcs[l.i]);
    assert SpawnedInOrder(cfg, s');
    match l
    case Count(_) =>
    case Release(_) =>
    case Signal(_) =>
    case _ =>
  }

  lemma StepInv(cfg: Config, s: State, l: Label)
    requires Inv(cfg, s) && Enabled(cfg, s, l)
    ensures Inv(cfg, Apply(cfg, s, l))
  {
    if l.Main? {
      if s.main.Spawning? {
        StepTotals(s.pcs, s.main.i, Starting);
      } else if s.main.Joining? {
        TotalZero(Owed, s.pcs);
      }
    } else if !l.Finalize? {
      HostStepInv(cfg, s, l);
    }
  }

  lemma {:induction false} RunInv(cfg: Config, ls: seq<Label>)
    requires cfg.Valid() && IsRun(cfg, ls)
    ensures Inv(cfg, After(cfg, ls))
  {
    if ls == [] {
      InitInv(cfg);
    } else {
      var pre := ls[..|ls| - 1];
      RunInv(cfg, pre);
      StepInv(cfg, After(cfg, pre), ls[|ls| - 1]);
    }
  }

  lemma Extend(cfg: Config, ls: seq<Label>, l: Label)
    requires IsRun(cfg, ls) && Enabled(cfg, After(cfg, ls), l)
    ensures IsRun(cfg, ls + [l]) && After(cfg, ls + [l]) == Apply(cfg, After(cfg, ls), l)
  {
    assert (ls + [l])[..|ls + [l]| - 1] == ls;
  }

  lemma Take(cfg: Config, ls: seq<Label>, s: State, l: Label) returns (ls': seq<Label>, s': State)
    requires IsRun(cfg, ls) && After(cfg, ls) == s && Enabled(cfg, s, l)
    ensures IsRun(cfg, ls') && After(cfg, ls') == s' && s' == Apply(cfg, s, l)
  {
    Extend(cfg, ls, l);
    ls', s' := ls + [l], Apply(cfg, s, l);
  }

  // ---------------------------------------------------------------- bounded, never stuck, terminating

  function Flying(p: HostPc): nat {
    if p.Unstarted? || p.Done? || p.Signalling? || p.Releasing? then 0 else 1
  }

  lemma {:induction false} TotalMono(v: HostPc -> nat, w: HostPc -> nat, pcs: seq<HostPc>)
    requires forall p :: v(p) <= w(p)
    ensures Total(v, pcs) <= Total(w, pcs)
  {
    if pcs != [] {
      TotalMono(v, w, pcs[1..]);
    }
  }

  /** In every reachable state at most `concurrency` hosts are being worked on. */
  lemma AtMostConcurrency(cfg: Config, ls: seq<Label>)
    requires cfg.Valid() && IsRun(cfg, ls)
    ensures Total(Flying, After(cfg, ls).pcs) <= cfg.concurrency
  {
    RunInv(cfg, ls);
    TotalMono(Flying, Slot, After(cfg, ls).pcs);
  }

  function HostLabel(p: HostPc, i: nat): Label {
    match p
    case Starting => Start(i, Acked)
    case Operating => Return(i, Outcome(true, "", ""))
    case Recording(_) => Record(i, Acked, "")
    case Retrying(_, _) => Retry(i, Acked)
    case Counting(_) => Count(i)
    case Reporting(_, _, _) => Report(i, Acked)
    case Releasing(_) => Release(i)
    case _ => Signal(i)
  }

  /** A label of the first goroutine at or after i that has not returned. */
  function FirstLive(pcs: seq<HostPc>, i: nat): Label
    requires i <= |pcs|
    decreases |pcs| - i
  {
    if i == |pcs| then Main
    else if pcs[i].Unstarted? || pcs[i].Done? then FirstLive(pcs, i + 1)
    else HostLabel(pcs[i], i)
  }

  function DefaultLabel(cfg: Config, s: State): Label {
    if s.main.Finalizing? then Finalize(Acked)
    else if Enabled(cfg, s, Main) then Main
    else FirstLive(s.pcs, 0)
  }

  lemma {:induction false} FirstLiveEnabled(cfg: Config, s: State, i: nat)
    requires Inv(cfg, s) && i <= |s.pcs|
    requires exists j :: i <= j < |s.pcs| && Owed(s.pcs[j]) == 1
    ensures Enabled(cfg, s, FirstLive(s.pcs, i))
    decreases |s.pcs| - i
  {
    if Owed(s.pcs[i]) == 0 {
      FirstLiveEnabled(cfg, s, i + 1);
    } else if s.pcs[i].Releasing? {
      TotalZero(Slot, s.pcs);
    }
  }

  /** No reachable state but the last one is stuck, and the last one allows no step at all. */
  lemma NeverStuck(cfg: Config, s: State)
    requires cfg.Valid() && Inv(cfg, s)
    ensures (exists l :: Enabled(cfg, s, l)) <==> !s.main.Ended?
    ensures !s.main.Ended? ==> Enabled(cfg, s, DefaultLabel(cfg, s))
  {
    if !s.main.Ended? && !s.main.Finalizing? && !Enabled(cfg, s, Main) {
      TotalZero(Slot, s.pcs);
      TotalZero(Owed, s.pcs);
      assert exists j :: 0 <= j < |s.pcs| && Owed(s.pcs[j]) == 1 by {
        assert s.main.Acquiring? ==> Total(Slot, s.pcs) > 0;
        assert s.main.Joining? ==> Total(Owed, s.pcs) > 0;
        assert forall p: HostPc :: Slot(p) != 0 ==> Owed(p) == 1;
      }
      FirstLiveEnabled(cfg, s, 0);
    }
    if !s.main.Ended? {
      assert Enabled(cfg, s, DefaultLabel(cfg, s));
    }
  }

  function LoopRank(n: nat, m: MainPc): nat {
    match m
    case Adding(i) => if i <= n then 3 * (n - i) + 2 else 0
    case Acquiring(i) => if i <= n then 3 * (n - i) + 1 else 0
    case Spawning(i) => if i <= n then 3 * (n - i) else 0
    case Joining => 2
    case Finalizing => 1
    case Ended(_) => 0
  }

  ghost function Measure(s: State): nat {
    Total(Rank, s.pcs) + LoopRank(|s.pcs|, s.main)
  }

  /** Every step of every run uses up some of a finite measure. */
  lemma StepMeasure(cfg: Config, s: State, l: Label)
    requires Inv(cfg, s) && Enabled(cfg, s, l)
    ensures Measure(Apply(cfg, s, l)) < Measure(s)
  {
    if l.Main? {
      if s.main.Spawning? {
        TotalUpdate(Rank, s.pcs, s.main.i, Starting);
      }
    } else if !l.Finalize? {
      HostStep(cfg, s, l);
      TotalUpdate(Rank, s.pcs, l.i, Apply(cfg, s, l).pcs[l.i]);
    }
  }

  lemma {:induction false} InitMeasure(n: nat)
    ensures Total(Rank, seq(n, _ => Unstarted)) == 9 * n
  {
    if n > 0 {
      assert seq(n, _ => Unstarted)[1..] == seq(n - 1, _ => Unstarted);
      InitMeasure(n - 1);
    }
  }

  lemma {:induction false} RunMeasure(cfg: Config, ls: seq<Label>)
    requires cfg.Valid() && IsRun(cfg, ls)
    ensures |ls| + Measure(After(cfg, ls)) <= 12 * |cfg.hosts| + 2
  {
    if ls == [] {
      InitMeasure(|cfg.hosts|);
    } else {
      var pre := ls[..|ls| - 1];
      RunMeasure(cfg, pre);
      RunInv(cfg, pre);
      StepMeasure(cfg, After(cfg, pre), ls[|ls| - 1]);
    }
  }

  // ---------------------------------------------------------------- each host once

  /** How often the host operation of host i has returned. */
  ghost function Calls(ls: seq<Label>, i: nat): nat {
    if ls == [] then 0
    else Calls(ls[..|ls| - 1], i) + (if ls[|ls| - 1].Return? && ls[|ls| - 1].i == i then 1 else 0)
  }

  lemma {:induction false} CalledOnce(cfg: Config, ls: seq<Label>, i: nat)
    requires cfg.Valid() && IsRun(cfg, ls) && i < |cfg.hosts|
    ensures |After(cfg, ls).pcs| == |cfg.hosts|
    ensures var p := After(cfg, ls).pcs[i];
      && Calls(ls, i) == (if p.HasOutcome() then 1 else 0)
      && (p.HasOutcome() ==> Return(i, p.o) in ls)
  {
    RunInv(cfg, ls);
    if ls != [] {
      var pre, l := ls[..|ls| - 1], ls[|ls| - 1];
      RunInv(cfg, pre);
      CalledOnce(cfg, pre, i);
      assert forall x :: x in pre ==> x in ls;
      if !l.Main? && !l.Finalize? {
        HostStep(cfg, After(cfg, pre), l);
      }
      assert l in ls;
    }
  }

  // ---------------------------------------------------------------- host rows

  predicate VerdictWrite(l: Label, i: nat) {
    (l.Record? || l.Retry?) && l.i == i && l.w.Stored()
  }

  ghost predicate VerdictStored(ls: seq<Label>, i: nat) {
    exists k :: 0 <= k < |ls| && VerdictWrite(ls[k], i)
  }

  /** The full result of a host operation, or its verdict and error without the captured output. */
  ghost predicate VerdictRow(o: Outcome, row: HostRow) {
    row == HostRow(StatusOf(o), o.output, o.err) || exists cause :: row == FallbackRow(o, cause)
  }

  ghost predicate RowFits(p: HostPc, row: HostRow, stored: bool) {
    if p.Unstarted? || p.Starting? then row.status.Pending? && !stored
    else if !p.HasOutcome() || p.Recording? then (row.status.Pending? || row.status.Running?) && !stored
    else if stored then VerdictRow(p.o, row)
    else row.status.Pending? || row.status.Running?
  }

  ghost predicate RowsFit(cfg: Config, s: State, ls: seq<Label>) {
    && s.rows.Keys == (set h | h in cfg.hosts)
    && |s.pcs| == |cfg.hosts|
    && forall i :: 0 <= i < |cfg.hosts| ==> RowFits(s.pcs[i], s.rows[cfg.hosts[i]], VerdictStored(ls, i))
  }

  lemma StepRow(cfg: Config, s: State, l: Label, i: nat)
    requires cfg.Valid() && Inv(cfg, s) && Enabled(cfg, s, l) && i < |cfg.hosts|
    requires s.rows.Keys == (set h | h in cfg.hosts)
    ensures var s' := Apply(cfg, s, l);
      && s'.rows.Keys == s.rows.Keys
      && (l.Main? || l.Finalize? || l.i != i ==> s'.rows[cfg.hosts[i]] == s.rows[cfg.hosts[i]])
  {
    assert cfg.hosts[i] in s.rows;
  }

  lemma VerdictStoredStep(ls: seq<Label>, l: Label, i: nat)
    ensures VerdictStored(ls + [l], i) <==> VerdictStored(ls, i) || VerdictWrite(l, i)
  {
    hide VerdictWrite;
    assert (ls + [l])[|ls|] == l;
    assert forall k :: 0 <= k < |ls| ==> (ls + [l])[k] == ls[k];
  }

  /** A goroutine's own step takes its row from one fitting state to the next. */
  lemma OwnRowFits(cfg: Config, s: State, l: Label, stored: bool)
    requires cfg.Valid() && Enabled(cfg, s, l) && !l.Main? && !l.Finalize? && |s.pcs| == |cfg.hosts|
    requires cfg.hosts[l.i] in s.rows && RowFits(s.pcs[l.i], s.rows[cfg.hosts[l.i]], stored)
    ensures var s' := Apply(cfg, s, l);
      && |s'.pcs| == |cfg.hosts| && cfg.hosts[l.i] in s'.rows
      && RowFits(s'.pcs[l.i], s'.rows[cfg.hosts[l.i]], stored || VerdictWrite(l, l.i))
  {
    hide PutJob, FallbackRow;
  }

  lemma StepRowFits(cfg: Config, s: State, ls: seq<Label>, l: Label, i: nat)
    requires cfg.Valid() && Inv(cfg, s) && Enabled(cfg, s, l) && i < |cfg.hosts|
    requires RowsFit(cfg, s, ls)
    ensures var s' := Apply(cfg, s, l);
      && s'.rows.Keys == s.rows.Keys && |s'.pcs| == |cfg.hosts|
      && RowFits(s'.pcs[i], s'.rows[cfg.hosts[i]], VerdictStored(ls + [l], i))
  {
    StepRow(cfg, s, l, i);
    StepInv(cfg, s, l);
    VerdictStoredStep(ls, l, i);
    hide VerdictStored, RowFits, Apply, Total;
    assert cfg.hosts[i] in s.rows;
    if l.Main? || l.Finalize? {
      OtherRowFits(cfg, s, l, i, VerdictStored(ls, i));
    } else {
      HostStep(cfg, s, l);
      if l.i == i {
        OwnRowFits(cfg, s, l, VerdictStored(ls, i));
      }
    }
  }

  /** The main loop starts goroutines and writes no host row. */
  lemma OtherRowFits(cfg: Config, s: State, l: Label, i: nat, stored: bool)
    requires Inv(cfg, s) && Enabled(cfg, s, l) && (l.Main? || l.Finalize?) && i < |cfg.hosts|
    requires cfg.hosts[i] in s.rows && RowFits(s.pcs[i], s.rows[cfg.hosts[i]], stored)
    ensures var s' := Apply(cfg, s, l);
      |s'.pcs| == |cfg.hosts| && s'.rows == s.rows && RowFits(s'.pcs[i], s.rows[cfg.hosts[i]], stored)
  {
    hide PutJob, Total, VerdictRow;
  }

  lemma {:induction false} RunRows(cfg: Config, ls: seq<Label>)
    requires cfg.Valid() && IsRun(cfg, ls)
    ensures RowsFit(cfg, After(cfg, ls), ls)
  {
    if ls != [] {
      var pre, l := ls[..|ls| - 1], ls[|ls| - 1];
      RunRows(cfg, pre);
      RunInv(cfg, pre);
      assert pre + [l] == ls;
      forall i | 0 <= i < |cfg.hosts|
        ensures RowFits(After(cfg, ls).pcs[i], After(cfg, ls).rows[cfg.hosts[i]], VerdictStored(ls, i))
      {
        StepRowFits(cfg, After(cfg, pre), pre, l, i);
      }
      StepInv(cfg, After(cfg, pre), l);
      assert After(cfg, ls).rows.Keys == After(cfg, pre).rows.Keys by {
        if |cfg.hosts| > 0 {
          StepRow(cfg, After(cfg, pre), l, 0);
        }
      }
    }
  }

  /** pending, running, verdict: a step never takes a host row back, and never changes a verdict. */
  lemma RowNeverGoesBack(cfg: Config, ls: seq<Label>, l: Label, h: string)
    requires cfg.Valid() && IsRun(cfg, ls) && Enabled(cfg, After(cfg, ls), l) && h in cfg.hosts
    ensures h in After(cfg, ls).rows && h in Apply(cfg, After(cfg, ls), l).rows
    ensures var st, st' := After(cfg, ls).rows[h].status, Apply(cfg, After(cfg, ls), l).rows[h].status;
      st' == st || st == Pending || (st == Running && (st' == Success || st' == Failed))
  {
    var s := After(cfg, ls);
    var i :| 0 <= i < |cfg.hosts| && cfg.hosts[i] == h;
    RunInv(cfg, ls);
    RunRows(cfg, ls);
    StepRowFits(cfg, s, ls, l, i);
    StepRow(cfg, s, l, i);
    if !l.Main? && !l.Finalize? {
      HostStep(cfg, s, l);
    }
    hide VerdictStored, Total, IsRun, After;
  }

  /** Once a goroutine is past its writes, one of them was acknowledged or the fallback was tried. */
  lemma {:induction false} Attempted(cfg: Config, ls: seq<Label>, i: nat)
    requires cfg.Valid() && IsRun(cfg, ls) && i < |cfg.hosts|
    ensures |After(cfg, ls).pcs| == |cfg.hosts|
    ensures var p := After(cfg, ls).pcs[i];
      p.HasOutcome() && !p.Recording? && !p.Retrying? ==>
        exists k :: 0 <= k < |ls|
          && ((ls[k].Record? && ls[k].i == i && ls[k].w.Acked?) || (ls[k].Retry? && ls[k].i == i))
  {
    RunInv(cfg, ls);
    if ls != [] {
      var pre, l := ls[..|ls| - 1], ls[|ls| - 1];
      RunInv(cfg, pre);
      Attempted(cfg, pre, i);
      assert forall k :: 0 <= k < |pre| ==> pre[k] == ls[k];
      if !l.Main? && !l.Finalize? {
        HostStep(cfg, After(cfg, pre), l);
      }
    }
  }

  /** A finished host's row holds its verdict exactly when one of its two verdict writes was stored.
      A store that accepts every row without output therefore never loses a verdict. */
  lemma VerdictIsStored(cfg: Config, ls: seq<Label>, i: nat)
    requires cfg.Valid() && IsRun(cfg, ls) && i < |cfg.hosts|
    requires |After(cfg, ls).pcs| == |cfg.hosts| && After(cfg, ls).pcs[i].Done?
    ensures cfg.hosts[i] in After(cfg, ls).rows
    ensures After(cfg, ls).rows[cfg.hosts[i]].status == StatusOf(After(cfg, ls).pcs[i].o) <==> VerdictStored(ls, i)
    ensures VerdictStored(ls, i) ==> VerdictRow(After(cfg, ls).pcs[i].o, After(cfg, ls).rows[cfg.hosts[i]])
    ensures (forall k :: 0 <= k < |ls| && ls[k].Retry? ==> ls[k].w.Stored()) ==> VerdictStored(ls, i)
  {
    RunRows(cfg, ls);
    Attempted(cfg, ls, i);
    assert cfg.hosts[i] in After(cfg, ls).rows;
  }

  /** What a stored verdict says: the host succeeded or failed as its operation did, and the error of the operation is
      in the row, in the fallback form behind the reason and without the output. */
  lemma VerdictSays(cfg: Config, ls: seq<Label>, i: nat)
    requires cfg.Valid() && IsRun(cfg, ls) && i < |cfg.hosts| && VerdictStored(ls, i)
    requires |After(cfg, ls).pcs| == |cfg.hosts| && After(cfg, ls).pcs[i].Done?
    ensures cfg.hosts[i] in After(cfg, ls).rows
    ensures var o, row := After(cfg, ls).pcs[i].o, After(cfg, ls).rows[cfg.hosts[i]];
      && (row.status == Success <==> o.ok) && (row.status == Failed <==> !o.ok)
      && ((row.output == o.output && row.error == o.err)
          || (row.output == "" && exists cause ::
                row.error == "result could not be stored (" + cause + "); original error: " + o.err))
  {
    VerdictIsStored(cfg, ls, i);
    var o, row := After(cfg, ls).pcs[i].o, After(cfg, ls).rows[cfg.hosts[i]];
    hide After, IsRun, VerdictStored;
    if row != HostRow(StatusOf(o), o.output, o.err) {
      var cause :| row == FallbackRow(o, cause);
      assert row.error == "result could not be stored (" + cause + "); original error: " + o.err;
    }
  }

  // ---------------------------------------------------------------- the job row

  /** (su, fa) were the values of the two counters at some instant of the run. */
  ghost predicate WereCounters(cfg: Config, ls: seq<Label>, su: nat, fa: nat) {
    exists k :: 0 <= k <= |ls| && IsRun(cfg, ls[..k])
      && After(cfg, ls[..k]).succeeded == su && After(cfg, ls[..k]).failed == fa
  }

  lemma WereCountersLater(cfg: Config, ls: seq<Label>, l: Label, su: nat, fa: nat)
    requires WereCounters(cfg, ls, su, fa)
    ensures WereCounters(cfg, ls + [l], su, fa)
  {
    var k :| 0 <= k <= |ls| && IsRun(cfg, ls[..k])
      && After(cfg, ls[..k]).succeeded == su && After(cfg, ls[..k]).failed == fa;
    assert (ls + [l])[..k] == ls[..k];
  }

  lemma AreCounters(cfg: Config, ls: seq<Label>)
    requires IsRun(cfg, ls)
    ensures WereCounters(cfg, ls, After(cfg, ls).succeeded, After(cfg, ls).failed)
  {
    assert ls[..|ls|] == ls;
  }

  ghost predicate ProgressRow(cfg: Config, ls: seq<Label>, r: JobRow) {
    r.status == InProgress && !r.finished && r.succeeded + r.failed <= |cfg.hosts|
      && WereCounters(cfg, ls, r.succeeded, r.failed)
  }

  ghost predicate SnapshotsFit(cfg: Config, s: State, ls: seq<Label>) {
    forall i :: 0 <= i < |s.pcs| && s.pcs[i].Reporting? ==>
      s.pcs[i].s + s.pcs[i].f <= |cfg.hosts| && WereCounters(cfg, ls, s.pcs[i].s, s.pcs[i].f)
  }

  ghost predicate LogFits(cfg: Config, s: State, ls: seq<Label>) {
    && s.jobLog != []
    && (forall k :: 0 <= k < |s.jobLog| - 1 ==> ProgressRow(cfg, ls, s.jobLog[k]))
    && (if s.main == Ended(true)
        then s.jobLog[|s.jobLog| - 1] == JobRow(FinalStatus(s.succeeded, s.failed), s.succeeded, s.failed, true)
        else ProgressRow(cfg, ls, s.jobLog[|s.jobLog| - 1]))
  }

  lemma {:induction false} CountersBounded(pcs: seq<HostPc>)
    ensures Total(CountedOk, pcs) + Total(CountedBad, pcs) <= |pcs|
  {
    if pcs != [] {
      CountersBounded(pcs[1..]);
    }
  }

  lemma WereCountersAll(cfg: Config, ls: seq<Label>, l: Label)
    ensures forall su, fa :: WereCounters(cfg, ls, su, fa) ==> WereCounters(cfg, ls + [l], su, fa)
    ensures forall r :: ProgressRow(cfg, ls, r) ==> ProgressRow(cfg, ls + [l], r)
  {
    forall su, fa | WereCounters(cfg, ls, su, fa) ensures WereCounters(cfg, ls + [l], su, fa) {
      WereCountersLater(cfg, ls, l, su, fa);
    }
  }

  lemma StepSnapshots(cfg: Config, s: State, ls: seq<Label>, l: Label)
    requires Inv(cfg, s) && Enabled(cfg, s, l)
    requires SnapshotsFit(cfg, s, ls)
    requires WereCounters(cfg, ls + [l], Apply(cfg, s, l).succeeded, Apply(cfg, s, l).failed)
    requires Apply(cfg, s, l).succeeded + Apply(cfg, s, l).failed <= |cfg.hosts|
    ensures SnapshotsFit(cfg, Apply(cfg, s, l), ls + [l])
  {
    WereCountersAll(cfg, ls, l);
    if !l.Main? && !l.Finalize? {
      HostStep(cfg, s, l);
    }
  }

  lemma StepJobLog(cfg: Config, s: State, ls: seq<Label>, l: Label)
    requires Inv(cfg, s) && Enabled(cfg, s, l)
    requires SnapshotsFit(cfg, s, ls) && LogFits(cfg, s, ls)
    ensures LogFits(cfg, Apply(cfg, s, l), ls + [l])
  {
    hide WereCounters, Total, PutRow, FallbackRow, FinalStatus;
    WereCountersAll(cfg, ls, l);
    var s' := Apply(cfg, s, l);
    if l.Report? {
      assert !s.main.Ended?;
      assert s.pcs[l.i].Reporting?;
      assert s'.jobLog != s.jobLog ==> s'.jobLog[..|s.jobLog|] == s.jobLog;
    } else if l.Finalize? {
      assert s'.jobLog != s.jobLog ==> s'.jobLog[..|s.jobLog|] == s.jobLog;
    } else {
      assert s'.jobLog == s.jobLog && !s.main.Ended?;
    }
  }

  lemma StepLog(cfg: Config, ls: seq<Label>, l: Label)
    requires cfg.Valid() && IsRun(cfg, ls) && Enabled(cfg, After(cfg, ls), l)
    requires SnapshotsFit(cfg, After(cfg, ls), ls) && LogFits(cfg, After(cfg, ls), ls)
    ensures IsRun(cfg, ls + [l])
    ensures SnapshotsFit(cfg, After(cfg, ls + [l]), ls + [l]) && LogFits(cfg, After(cfg, ls + [l]), ls + [l])
  {
    Extend(cfg, ls, l);
    RunInv(cfg, ls);
    RunInv(cfg, ls + [l]);
    AreCounters(cfg, ls + [l]);
    CountersBounded(After(cfg, ls + [l]).pcs);
    StepSnapshots(cfg, After(cfg, ls), ls, l);
    StepJobLog(cfg, After(cfg, ls), ls, l);
  }

  lemma {:induction false} RunLog(cfg: Config, ls: seq<Label>)
    requires cfg.Valid() && IsRun(cfg, ls)
    ensures SnapshotsFit(cfg, After(cfg, ls), ls) && LogFits(cfg, After(cfg, ls), ls)
  {
    if ls == [] {
      AreCounters(cfg, ls);
    } else {
      var pre, l := ls[..|ls| - 1], ls[|ls| - 1];
      RunLog(cfg, pre);
      StepLog(cfg, pre, l);
      assert pre + [l] == ls;
    }
  }

  lemma {:induction false} AllCounted(pcs: seq<HostPc>)
    requires forall i :: 0 <= i < |pcs| ==> pcs[i].Done?
    ensures Total(CountedOk, pcs) + Total(CountedBad, pcs) == |pcs|
  {
    if pcs != [] {
      assert forall i :: 0 <= i < |pcs[1..]| ==> pcs[1..][i] == pcs[i + 1];
      AllCounted(pcs[1..]);
    }
  }

  /** The status computed from the two counters says whether all, some or none succeeded. */
  lemma FinalVerdict(pcs: seq<HostPc>, succeeded: nat, failed: nat)
    requires forall i :: 0 <= i < |pcs| ==> pcs[i].Done?
    requires succeeded == Total(CountedOk, pcs) && failed == Total(CountedBad, pcs)
    ensures succeeded + failed == |pcs|
    ensures FinalStatus(succeeded, failed) == AllFailed <==> forall i :: 0 <= i < |pcs| ==> !pcs[i].o.ok
    ensures pcs != [] ==> (FinalStatus(succeeded, failed) == Succeeded <==> forall i :: 0 <= i < |pcs| ==> pcs[i].o.ok)
    ensures FinalStatus(succeeded, failed) == Partial <==>
      (exists i :: 0 <= i < |pcs| && pcs[i].o.ok) && (exists i :: 0 <= i < |pcs| && !pcs[i].o.ok)
  {
    hide Total;
    AllCounted(pcs);
    TotalZero(CountedOk, pcs);
    TotalZero(CountedBad, pcs);
    if pcs != [] {
      assert pcs[0].Done?;
    }
  }

  lemma EndedFacts(cfg: Config, s: State, ls: seq<Label>)
    requires Inv(cfg, s) && LogFits(cfg, s, ls) && s.main == Ended(true)
    ensures |s.pcs| == |cfg.hosts| && (forall i :: 0 <= i < |s.pcs| ==> s.pcs[i].Done?)
    ensures s.succeeded == Total(CountedOk, s.pcs) && s.failed == Total(CountedBad, s.pcs)
    ensures s.jobLog != []
      && s.jobLog[|s.jobLog| - 1] == JobRow(FinalStatus(s.succeeded, s.failed), s.succeeded, s.failed, true)
    ensures forall k :: 0 <= k < |s.jobLog| - 1 ==> ProgressRow(cfg, ls, s.jobLog[k])
  {
    hide ProgressRow, Total;
  }

  /** Main result: whatever the interleaving, once `run` has ended with its last write stored, the job
      row is finished, its counters add up to the number of hosts, and its status says whether all, some
      or none of the host operations succeeded. Every earlier row was a snapshot of the counters. */
  lemma FinalRowIsTrue(cfg: Config, ls: seq<Label>)
    requires cfg.Valid() && IsRun(cfg, ls) && After(cfg, ls).main == Ended(true)
    ensures var s := After(cfg, ls);
      && |s.pcs| == |cfg.hosts|
        && (forall i :: 0 <= i < |s.pcs| ==> s.pcs[i].Done? && Return(i, s.pcs[i].o) in ls && Calls(ls, i) == 1)
      && s.jobLog != []
      && var row := s.jobLog[|s.jobLog| - 1];
         && row.finished
         && row.succeeded + row.failed == |cfg.hosts|
         && row.succeeded == Total(CountedOk, s.pcs) && row.failed == Total(CountedBad, s.pcs)
         && (row.status == AllFailed <==> forall i :: 0 <= i < |s.pcs| ==> !s.pcs[i].o.ok)
         && (cfg.hosts != [] ==> (row.status == Succeeded <==> forall i :: 0 <= i < |s.pcs| ==> s.pcs[i].o.ok))
         && (row.status == Partial <==>
               (exists i :: 0 <= i < |s.pcs| && s.pcs[i].o.ok) && (exists i :: 0 <= i < |s.pcs| && !s.pcs[i].o.ok))
         && forall k :: 0 <= k < |s.jobLog| - 1 ==> ProgressRow(cfg, ls, s.jobLog[k])
  {
    hide Inv, LogFits, SnapshotsFit, IsRun, After, Calls, Total, ProgressRow, FinalStatus;
    var s := After(cfg, ls);
    RunInv(cfg, ls);
    RunLog(cfg, ls);
    EndedFacts(cfg, s, ls);
    FinalVerdict(s.pcs, s.succeeded, s.failed);
    forall i | 0 <= i < |s.pcs| ensures Return(i, s.pcs[i].o) in ls && Calls(ls, i) == 1 {
      CalledOnce(cfg, ls, i);
    }
  }

  function HostsWith(hosts: seq<string>, rows: map<string, HostRow>, status: HostStatus): nat {
    if hosts == [] then 0
    else (if hosts[0] in rows && rows[hosts[0]].status == status then 1 else 0) + HostsWith(hosts[1..], rows, status)
  }

  lemma {:induction false} RowsAddUp(hosts: seq<string>, rows: map<string, HostRow>, pcs: seq<HostPc>)
    requires |pcs| == |hosts|
    requires forall i :: 0 <= i < |hosts| ==>
      pcs[i].Done? && hosts[i] in rows && rows[hosts[i]].status == if pcs[i].o.ok then Success else Failed
    ensures HostsWith(hosts, rows, Success) == Total(CountedOk, pcs)
    ensures HostsWith(hosts, rows, Failed) == Total(CountedBad, pcs)
  {
    if hosts != [] {
      RowsAddUp(hosts[1..], rows, pcs[1..]);
    }
  }

  /** Host rows and job row agree: where every verdict was stored, the rows marked as succeeded and as failed are as
      many as the last job row counts. */
  lemma HostRowsAddUp(cfg: Config, ls: seq<Label>)
    requires cfg.Valid() && IsRun(cfg, ls) && After(cfg, ls).main == Ended(true)
    requires forall i: nat :: i < |cfg.hosts| ==> VerdictStored(ls, i)
    ensures After(cfg, ls).jobLog != []
    ensures var s := After(cfg, ls);
      && HostsWith(cfg.hosts, s.rows, Success) == s.jobLog[|s.jobLog| - 1].succeeded
      && HostsWith(cfg.hosts, s.rows, Failed) == s.jobLog[|s.jobLog| - 1].failed
  {
    FinalRowIsTrue(cfg, ls);
    var s := After(cfg, ls);
    hide IsRun, After, VerdictStored, ProgressRow, Calls, Total;
    forall i: nat | i < |cfg.hosts|
      ensures cfg.hosts[i] in s.rows && s.rows[cfg.hosts[i]].status == if s.pcs[i].o.ok then Success else Failed
    {
      VerdictSays(cfg, ls, i);
    }
    RowsAddUp(cfg.hosts, s.rows, s.pcs);
  }

  // ---------------------------------------------------------------- when progress rows never go back

  ghost predicate NeverDecrease(log: seq<JobRow>) {
    forall k, l :: 0 <= k < l < |log| ==> log[k].succeeded <= log[l].succeeded && log[k].failed <= log[l].failed
  }

  /** Snapshots still to be written hold the current counters, and so bound the rows already written. */
  ghost predicate Steady(s: State) {
    && (forall i :: 0 <= i < |s.pcs| && s.pcs[i].Reporting? ==> s.pcs[i].s == s.succeeded && s.pcs[i].f == s.failed)
    && (forall k :: 0 <= k < |s.jobLog| ==> s.jobLog[k].succeeded <= s.succeeded && s.jobLog[k].failed <= s.failed)
    && NeverDecrease(s.jobLog)
  }

  lemma TwoSlots(pcs: seq<HostPc>, i: nat, j: nat)
    requires i < |pcs| && j < |pcs| && i != j && Slot(pcs[i]) == 1 && Slot(pcs[j]) == 1
    ensures Total(Slot, pcs) >= 2
  {
    TotalUpdate(Slot, pcs, i, Unstarted);
    TotalZero(Slot, pcs[i := Unstarted]);
    assert Slot(pcs[i := Unstarted][j]) == 1;
  }

  lemma {:induction false} SlotsBounded(pcs: seq<HostPc>)
    ensures Total(Slot, pcs) <= |pcs|
  {
    if pcs != [] {
      SlotsBounded(pcs[1..]);
    }
  }

  /** The semaphore is held from before the first write until after the progress write. */
  lemma SteadyStep(cfg: Config, s: State, l: Label)
    requires Inv(cfg, s) && Enabled(cfg, s, l) && Steady(s) && Total(Slot, s.pcs) <= 1
    ensures Steady(Apply(cfg, s, l))
  {
    hide PutRow, FallbackRow, FinalStatus, Total;
    var s' := Apply(cfg, s, l);
    if !l.Main? && !l.Finalize? {
      HostStep(cfg, s, l);
    }
    if l.Count? {
      forall j | 0 <= j < |s.pcs| && j != l.i ensures !s.pcs[j].Reporting? {
        if Slot(s.pcs[j]) == 1 {
          TwoSlots(s.pcs, l.i, j);
        }
      }
    }
    assert s'.jobLog != s.jobLog ==> |s'.jobLog| == |s.jobLog| + 1 && s'.jobLog[..|s.jobLog|] == s.jobLog;
    assert forall k :: 0 <= k < |s.jobLog| ==> s'.jobLog[k] == s.jobLog[k];
  }

  lemma {:induction false} SteadyRun(cfg: Config, ls: seq<Label>)
    requires cfg.Valid() && IsRun(cfg, ls) && (cfg.concurrency == 1 || |cfg.hosts| <= 1)
    ensures Steady(After(cfg, ls))
  {
    if ls != [] {
      var pre := ls[..|ls| - 1];
      SteadyRun(cfg, pre);
      RunInv(cfg, pre);
      SlotsBounded(After(cfg, pre).pcs);
      SteadyStep(cfg, After(cfg, pre), ls[|ls| - 1]);
    }
  }

  const FINE: Outcome := Outcome(true, "", "")

  ghost predicate Reaches(cfg: Config, ls: seq<Label>, main: MainPc, pcs: seq<HostPc>, succeeded: nat,
      jobLog: seq<JobRow>) {
    && IsRun(cfg, ls)
    && var s := After(cfg, ls);
       s.main == main && s.pcs == pcs && s.succeeded == succeeded && s.failed == 0 && s.jobLog == jobLog
  }

  /** The goroutines of the first two hosts are spawned. */
  lemma BothSpawned(cfg: Config) returns (ls: seq<Label>, main: MainPc)
    requires cfg.Valid() && cfg.concurrency >= 2 && |cfg.hosts| >= 2
    ensures Reaches(cfg, ls, main, Init(cfg).pcs[0 := Starting][1 := Starting], 0, [JobRow(InProgress, 0, 0, false)])
  {
    var s := Init(cfg);
    var pcs := s.pcs;
    ls := [];
    assert IsRun(cfg, ls) && After(cfg, ls) == s;
    hide IsRun, After, PutRow;
    ls, s := Take(cfg, ls, s, Main);
    ls, s := Take(cfg, ls, s, Main);
    ls, s := Take(cfg, ls, s, Main);
    assert s.main == Adding(1) && s.sem == 1 && s.pcs == pcs[0 := Starting];
    ls, s := Take(cfg, ls, s, Main);
    ls, s := Take(cfg, ls, s, Main);
    ls, s := Take(cfg, ls, s, Main);
    main := s.main;
  }

  lemma HostCounts(cfg: Config, ls: seq<Label>, main: MainPc, i: nat, pcs: seq<HostPc>, n: nat, log: seq<JobRow>)
    returns (ls': seq<Label>)
    requires i < |pcs| && pcs[i] == Starting && Reaches(cfg, ls, main, pcs, n, log)
    ensures Reaches(cfg, ls', main, pcs[i := Reporting(FINE, n + 1, 0)], n + 1, log)
  {
    var s := After(cfg, ls);
    hide IsRun, After, PutRow;
    ls' := ls;
    ls', s := Take(cfg, ls', s, Start(i, Acked));
    assert s.pcs == pcs[i := Operating];
    ls', s := Take(cfg, ls', s, Return(i, FINE));
    assert s.pcs == pcs[i := Recording(FINE)];
    ls', s := Take(cfg, ls', s, Record(i, Acked, ""));
    assert s.pcs == pcs[i := Counting(FINE)];
    ls', s := Take(cfg, ls', s, Count(i));
    assert s.pcs == pcs[i := Reporting(FINE, n + 1, 0)];
  }

  lemma HostReports(cfg: Config, ls: seq<Label>, main: MainPc, i: nat, pcs: seq<HostPc>, n: nat, log: seq<JobRow>,
      m: nat)
    returns (ls': seq<Label>)
    requires i < |pcs| && pcs[i] == Reporting(FINE, m, 0) && Reaches(cfg, ls, main, pcs, n, log)
    requires log != [] && !log[|log| - 1].finished
    ensures Reaches(cfg, ls', main, pcs[i := Releasing(FINE)], n, log + [JobRow(InProgress, m, 0, false)])
  {
    var s := After(cfg, ls);
    hide IsRun, After;
    ls', s := Take(cfg, ls, s, Report(i, Acked));
  }

  /** Two hosts finish, and the one that counted first writes its progress row last: the job row shows two
      finished hosts and then one. */
  lemma ProgressMayGoBackwards(cfg: Config) returns (ls: seq<Label>)
    requires cfg.Valid() && cfg.concurrency >= 2 && |cfg.hosts| >= 2
    ensures IsRun(cfg, ls)
    ensures var log := After(cfg, ls).jobLog; |log| == 3 && log[1].succeeded == 2 && log[2].succeeded == 1
  {
    hide IsRun, After;
    var main;
    ls, main := BothSpawned(cfg);
    var log := [JobRow(InProgress, 0, 0, false)];
    var pcs := Init(cfg).pcs[0 := Starting][1 := Starting];
    ls := HostCounts(cfg, ls, main, 0, pcs, 0, log);
    pcs := pcs[0 := Reporting(FINE, 1, 0)];
    ls := HostCounts(cfg, ls, main, 1, pcs, 1, log);
    pcs := pcs[1 := Reporting(FINE, 2, 0)];
    ls := HostReports(cfg, ls, main, 1, pcs, 2, log, 2);
    ls := HostReports(cfg, ls, main, 0, pcs[1 := Releasing(FINE)], 2, log + [JobRow(InProgress, 2, 0, false)], 1);
  }

  ghost predicate NeverGoesBack(cfg: Config) {
    forall ls :: IsRun(cfg, ls) ==> NeverDecrease(After(cfg, ls).jobLog)
  }

  /** Main result: the stored rows of a job never decrease, in every run, exactly when one host is worked on at
      a time: with one slot, or with one host. */
  lemma NeverGoesBackIff(cfg: Config)
    requires cfg.Valid()
    ensures NeverGoesBack(cfg) <==> cfg.concurrency == 1 || |cfg.hosts| <= 1
  {
    hide IsRun, After;
    if cfg.concurrency == 1 || |cfg.hosts| <= 1 {
      forall ls | IsRun(cfg, ls) ensures NeverDecrease(After(cfg, ls).jobLog) {
        SteadyRun(cfg, ls);
      }
    } else {
      var ls := ProgressMayGoBackwards(cfg);
      assert !NeverDecrease(After(cfg, ls).jobLog);
    }
  }

  // ---------------------------------------------------------------- the running job

  /** The switch on the counters after the join. */
  method Verdict(succeeded: nat, failed: nat) returns (status: JobStatus)
    ensures status == FinalStatus(succeeded, failed)
  {
    status := Succeeded;
    if succeeded == 0 {
      status := AllFailed;
    } else if failed > 0 {
      status := Partial;
    }
  }

  /** The variables the goroutines of one job share, changed one atomic step at a time. `trace` is the
      run so far; Valid says that the variables are what that run leaves behind. */
  class Job {
    const cfg: Config
    var main: MainPc
    var pcs: seq<HostPc>
    var sem: nat
    var wg: int
    var succeeded: nat
    var failed: nat
    var jobLog: seq<JobRow>
    var rows: map<string, HostRow>
    ghost var trace: seq<Label>

    function Shared(): State
      reads this
    {
      State(main, pcs, sem, wg, succeeded, failed, jobLog, rows)
    }

    ghost predicate Valid()
      reads this
    {
      cfg.Valid() && IsRun(cfg, trace) && After(cfg, trace) == Shared()
    }

    constructor (hosts: seq<string>, concurrency: nat)
      requires Config(hosts, concurrency).Valid()
      ensures Valid() && cfg == Config(hosts, concurrency) && trace == []
    {
      cfg := Config(hosts, concurrency);
      main := if hosts == [] then Joining else Adding(0);
      pcs := seq(|hosts|, _ => Unstarted);
      sem, wg, succeeded, failed := 0, 0, 0, 0;
      jobLog := [JobRow(InProgress, 0, 0, false)];
      rows := map h | h in hosts :: HostRow(Pending, "", "");
      trace := [];
    }

    method UpsertHostResult(i: nat, w: Write, row: HostRow)
      requires i < |cfg.hosts|
      modifies this`rows
      ensures rows == PutRow(cfg, old(Shared()), i, w, row)
      ensures if w.Stored() then cfg.hosts[i] in rows && rows[cfg.hosts[i]] == row else rows == old(rows)
      ensures rows - {cfg.hosts[i]} == old(rows) - {cfg.hosts[i]}
    {
      if w.Stored() {
        rows := rows[cfg.hosts[i] := row];
      }
    }

    method SetJobStatus(w: Write, status: JobStatus, su: nat, fa: nat, finishing: bool)
      requires jobLog != []
      modifies this`jobLog
      ensures jobLog == PutJob(old(Shared()), w, status, su, fa, finishing)
      ensures old(jobLog) <= jobLog && (old(jobLog[|jobLog| - 1].finished) ==> jobLog[|jobLog| - 1].finished)
    {
      if w.Stored() {
        jobLog := jobLog + [JobRow(status, su, fa, finishing || jobLog[|jobLog| - 1].finished)];
      }
    }

    /** One step of the main loop. */
    method MainStep()
      requires Valid() && Enabled(cfg, Shared(), Main)
      modifies this
      ensures Valid() && trace == old(trace) + [Main]
    {
      RunInv(cfg, trace);
      Extend(cfg, trace, Main);
      match main {
        case Adding(i) => wg, main := wg + 1, Acquiring(i);
        case Acquiring(i) => sem, main := sem + 1, Spawning(i);
        case Spawning(i) =>
          pcs := pcs[i := Starting];
          main := if i + 1 < |pcs| then Adding(i + 1) else Joining;
        case Joining => main := Finalizing;
        case _ =>
      }
      trace := trace + [Main];
    }

    /** The three writes of a host row. */
    method WriteStep(l: Label)
      requires (l.Start? || l.Record? || l.Retry?) && Enabled(cfg, Shared(), l) && |pcs| == |cfg.hosts|
      modifies this`rows, this`pcs
      ensures Shared() == Apply(cfg, old(Shared()), l)
    {
      var i, w := l.i, l.w;
      match l {
        case Start(_, _) =>
          UpsertHostResult(i, w, HostRow(Running, "", ""));
          pcs := pcs[i := Operating];
        case Record(_, _, cause) =>
          var o := pcs[i].o;
          UpsertHostResult(i, w, HostRow(StatusOf(o), o.output, o.err));
          pcs := pcs[i := if w == Acked then Counting(o) else Retrying(o, cause)];
        case Retry(_, _) =>
          var o := pcs[i].o;
          UpsertHostResult(i, w, FallbackRow(o, pcs[i].cause));
          pcs := pcs[i := Counting(o)];
        case _ =>
      }
    }

    /** The other steps of a goroutine. */
    method LocalStep(l: Label)
      requires (l.Return? || l.Count? || l.Report? || l.Release? || l.Signal?) && Enabled(cfg, Shared(), l)
        && jobLog != []
      modifies this
      ensures Shared() == Apply(cfg, old(Shared()), l) && trace == old(trace)
    {
      var i := l.i;
      match l {
        case Return(_, o) =>
          pcs := pcs[i := Recording(o)];
        case Count(_) =>
          var o := pcs[i].o;
          if o.ok {
            succeeded := succeeded + 1;
          } else {
            failed := failed + 1;
          }
          pcs := pcs[i := Reporting(o, succeeded, failed)];
        case Report(_, w) =>
          SetJobStatus(w, InProgress, pcs[i].s, pcs[i].f, false);
          pcs := pcs[i := Releasing(pcs[i].o)];
        case Release(_) =>
          sem := sem - 1;
          pcs := pcs[i := Signalling(pcs[i].o)];
        case Signal(_) =>
          wg := wg - 1;
          pcs := pcs[i := Done(pcs[i].o)];
        case _ =>
      }
    }

    /** One step of the goroutine of host l.i, or the final write. */
    method WorkStep(l: Label)
      requires Valid() && Enabled(cfg, Shared(), l) && !l.Main?
      modifies this
      ensures Valid() && trace == old(trace) + [l]
    {
      RunInv(cfg, trace);
      RunLog(cfg, trace);
      Extend(cfg, trace, l);
      assert |pcs| == |cfg.hosts| && jobLog != [];
      hide Inv, SnapshotsFit, LogFits, IsRun, After, FallbackRow, FinalStatus;
      if l.Start? || l.Record? || l.Retry? {
        WriteStep(l);
      } else if l.Finalize? {
        var final := Verdict(succeeded, failed);
        SetJobStatus(l.w, final, succeeded, failed, true);
        main := Ended(l.w.Stored());
      } else {
        LocalStep(l);
      }
      trace := trace + [l];
    }

    /** Run the job to its end under any scheduler and any environment: `choose` picks each next label. */
    method Run(choose: (State, nat) -> Label)
      requires Valid()
      modifies this
      ensures Valid() && main.Ended? && old(trace) <= trace
      ensures main.stored ==> jobLog != []
      ensures main.stored ==> jobLog[|jobLog| - 1].finished
      ensures main.stored ==> jobLog[|jobLog| - 1].succeeded + jobLog[|jobLog| - 1].failed == |cfg.hosts|
    {
      var n := 0;
      while !main.Ended?
        invariant Valid() && old(trace) <= trace
        decreases Measure(Shared())
      {
        RunInv(cfg, trace);
        NeverStuck(cfg, Shared());
        var l := choose(Shared(), n);
        if !Enabled(cfg, Shared(), l) {
          l := DefaultLabel(cfg, Shared());
        }
        StepMeasure(cfg, Shared(), l);
        Extend(cfg, trace, l);
        if l.Main? {
          MainStep();
        } else {
          WorkStep(l);
        }
        n := n + 1;
      }
      if main.stored {
        FinalRowIsTrue(cfg, trace);
      }
    }
  }
}
