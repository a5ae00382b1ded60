/** The exchange between the server and one agent of a group (opampserver, cmd/demo-agent/main.go). */
module Convergence {
  import opened Text
  import opened ConfigCodec
  import V = VersionStore
  import O = Offers

  type Version = O.Version
  type RemoteConfig = O.RemoteConfig

  /** What a report says: the hash of the last offer, and the effective config. A heartbeat says neither. */
  datatype Msg = Msg(status: Option<string>, effective: Option<Files>)

  // Versions are created and rolled back, offers and reports are in flight, applies fail, connections are lost.

  /** history: every version the group ever had; cur: the index of the current one; reported: the hash the
      agent last reported, blank before the first offer; applied: whether it was reported as applied; effHash: the
      hash the server stored of the effective config; down and up: offers and reports in flight, oldest first. */
  datatype State = State(
    history: seq<Version>,
    cur: nat,
    effective: Files,
    reported: string,
    applied: bool,
    effHash: string,
    down: seq<RemoteConfig>,
    up: seq<Msg>)

  /** How the client library sends the status and the effective config of an apply: in one message, in two,
      or, where the status is as before, without it. */
  datatype Reporting = Together | Apart | Unchanged

  datatype Step =
    | Create(files: Files)
    | Rollback(version: nat)
    | Late(version: nat)
    | Push
    | Deliver(applies: bool, reporting: Reporting)
    | Receive
    | Heartbeat
    | Reconnect

  function OfferOf(v: Version): RemoteConfig {
    O.RemoteConfig(Offered(v.files), v.hash)
  }

  function Current(s: State): Version
    requires s.cur < |s.history|
  {
    s.history[s.cur]
  }

  /** The reply to a message: an offer unless this message reports the current hash. */
  function Reply(v: Version, m: Msg): seq<RemoteConfig> {
    if m.status != Some(v.hash) then [OfferOf(v)] else []
  }

  /** The messages after an offer of that hash was applied, or failed to be. */
  function Reports(applies: bool, reporting: Reporting, h: string, effective: Files): seq<Msg> {
    if !applies then (if reporting == Unchanged then [] else [Msg(Some(h), None)])
    else
      match reporting
      case Together => [Msg(Some(h), Some(effective))]
      case Apart => [Msg(Some(h), None), Msg(None, Some(effective))]
      case Unchanged => [Msg(None, Some(effective))]
  }

  predicate Enabled(s: State, step: Step) {
    && s.cur < |s.history|
    && match step
       case Create(files) => files != map[]
       case Rollback(i) => i < |s.history|
       case Late(i) => i < |s.history|
       case Deliver(applies, reporting) =>
         s.down != [] && (reporting == Unchanged ==> s.reported == s.down[0].configHash && s.applied == applies)
       case Receive => s.up != []
       case _ => true
  }

  ghost function Apply(hash: Hash, s: State, step: Step): State
    requires Enabled(s, step)
  {
    match step
    case Create(files) =>
      s.(history := s.history + [O.Version(files, hash(Encode(files)))], cur := |s.history|)
    case Rollback(i) => s.(cur := i)
    // an offer read from the store before the operator changed it
    case Late(i) => s.(down := s.down + [OfferOf(s.history[i])])
    case Push => s.(down := s.down + [OfferOf(Current(s))])
    case Deliver(applies, reporting) =>
      var o := s.down[0];
      var effective := if applies then o.config else s.effective;
      s.(effective := effective, reported := o.configHash, applied := applies, down := s.down[1..],
         up := s.up + Reports(applies, reporting, o.configHash, effective))
    case Receive =>
      var m := s.up[0];
      s.(effHash := if m.effective.Some? then hash(Encode(m.effective.value)) else s.effHash,
         down := s.down + Reply(Current(s), m), up := s.up[1..])
    case Heartbeat => s.(up := s.up + [Msg(None, None)])
    case Reconnect =>
      s.(down := [], up := [Msg(if s.reported == "" then None else Some(s.reported), Some(s.effective))])
  }

  // ---------------------------------------------------------------- the operators' steps are the store's

  function VersionOf(r: V.Row): Version {
    O.Version(map n | n in r.files :: File(r.files[n].0, r.files[n].1), r.hash)
  }

  /** The protocol's versions are those of a group in the store, and the current one is the same. */
  ghost predicate Mirrors(s: State, h: V.History) {
    && |s.history| == |h.versions| && h.current == s.cur + 1
    && forall i :: 0 <= i < |s.history| ==> s.history[i] == VersionOf(h.versions[i])
  }

  /** Creating a version and rolling back do here what they do in the store: a new version is added behind the others
      and becomes the current one, and a rollback makes an older one current. Neither touches what the agent has. */
  lemma OperatorsAreTheStore(hash: Hash, s: State, m: V.Model, g: string, row: V.Row, v: nat)
    requires g in m && Mirrors(s, m[g]) && s.cur < |s.history| && VersionOf(row).files != map[]
    requires row.hash == hash(Encode(VersionOf(row).files))
    ensures var t := Apply(hash, s, Create(VersionOf(row).files));
      && Mirrors(t, V.Created(m, g, row)[g]) && Current(t) == VersionOf(row)
      && t == s.(history := t.history, cur := t.cur)
    ensures 1 <= v <= |s.history| ==>
      var t := Apply(hash, s, Rollback(v - 1));
      Mirrors(t, V.RolledBack(m, g, v)[g]) && Current(t) == s.history[v - 1] && t == s.(cur := v - 1)
  {
    hide Encode;
  }

  // ---------------------------------------------------------------- what the server learns of an apply

  /** The reports of an apply, however they are batched, tell the server what the agent now runs; those of a failed one
      tell it the hash and nothing about the config. */
  lemma ApplyIsLearned(hash: Hash, s: State, applies: bool, reporting: Reporting)
    requires Enabled(s, Deliver(applies, reporting)) && s.up == []
    ensures var t := Apply(hash, s, Deliver(applies, reporting));
      && t.effective == (if applies then s.down[0].config else s.effective) && t.reported == s.down[0].configHash
      && |t.up| == (if applies then (if reporting == Apart then 2 else 1) else if reporting == Unchanged then 0 else 1)
      && (forall m :: m in t.up && m.status.Some? ==> m.status.value == s.down[0].configHash)
      && (reporting == Unchanged <==> forall m :: m in t.up ==> m.status.None?)
      && if !applies then forall m :: m in t.up ==> m.effective.None?
         else var u := Apply(hash, t, Receive);
           (if reporting == Apart then Apply(hash, u, Receive) else u).effHash == hash(Encode(t.effective))
  {
    hide Encode, Offered;
    var t := Apply(hash, s, Deliver(applies, reporting));
    assert t.up == Reports(applies, reporting, s.down[0].configHash, t.effective);
  }

  ghost predicate IsRun(hash: Hash, s: State, steps: seq<Step>)
    decreases |steps|
  {
    steps == [] || (Enabled(s, steps[0]) && IsRun(hash, Apply(hash, s, steps[0]), steps[1..]))
  }

  ghost function After(hash: Hash, s: State, steps: seq<Step>): State
    requires IsRun(hash, s, steps)
    decreases |steps|
  {
    if steps == [] then s else After(hash, Apply(hash, s, steps[0]), steps[1..])
  }

  /** The digest has 32 bytes; nothing else is assumed of the hash function here. */
  ghost predicate IsDigest(hash: Hash) {
    forall x :: |hash(x)| == DIGEST
  }

  /** An agent that was offered nothing yet, in a group with a first version; its effective config is whatever
      it found on disk. */
  ghost predicate Init(hash: Hash, s: State) {
    && |s.history| == 1 && s.cur == 0 && s.history[0].files != map[]
    && s.history[0].hash == hash(Encode(s.history[0].files))
    && s.reported == "" && !s.applied && s.down == [] && s.up == []
  }

  /** Every offer in flight is the offer of some version. */
  ghost predicate Inv(s: State) {
    && s.cur < |s.history|
    && (forall k :: 0 <= k < |s.down| ==> OffersVersion(s.history, s.down[k]))
  }

  /** Every version has files and is stored under the hash of its stream. */
  ghost predicate Genuine(hash: Hash, history: seq<Version>) {
    forall i :: 0 <= i < |history| ==>
      history[i].files != map[] && history[i].hash == hash(Encode(history[i].files)) && |history[i].hash| == DIGEST
  }

  ghost predicate OffersVersion(history: seq<Version>, o: RemoteConfig) {
    exists i :: 0 <= i < |history| && o == OfferOf(history[i])
  }

  lemma InvStep(hash: Hash, s: State, step: Step)
    requires Inv(s) && Enabled(s, step)
    ensures Inv(Apply(hash, s, step)) && s.history <= Apply(hash, s, step).history
  {
    hide Encode, Offered, OfferOf, Reports;
    var t := Apply(hash, s, step);
    assert forall i :: 0 <= i < |s.history| ==> t.history[i] == s.history[i];
    forall k | 0 <= k < |t.down| ensures OffersVersion(t.history, t.down[k]) {
      var o := t.down[k];
      if step.Late? && k == |s.down| {
        assert o == OfferOf(t.history[step.version]);
      } else if (step.Push? || step.Receive?) && k == |s.down| {
        assert o == OfferOf(t.history[s.cur]);
      } else {
        var j := if step.Deliver? then k + 1 else k;
        assert s.down[j] == o;
        var i :| 0 <= i < |s.history| && o == OfferOf(s.history[i]);
        assert o == OfferOf(t.history[i]);
      }
    }
  }

  /** In every run each offer in flight is that of some version, each version keeps its place and its hash. */
  lemma {:induction false} InvRun(hash: Hash, s: State, steps: seq<Step>)
    requires IsDigest(hash) && Inv(s) && Genuine(hash, s.history) && IsRun(hash, s, steps)
    ensures var t := After(hash, s, steps); Inv(t) && Genuine(hash, t.history) && s.history <= t.history
    decreases |steps|
  {
    hide Inv, Apply, IsDigest, Genuine;
    if steps != [] {
      InvStep(hash, s, steps[0]);
      GenuineStep(hash, s, steps[0]);
      InvRun(hash, Apply(hash, s, steps[0]), steps[1..]);
    }
  }

  lemma GenuineStep(hash: Hash, s: State, step: Step)
    requires IsDigest(hash) && Genuine(hash, s.history) && Enabled(s, step)
    ensures Genuine(hash, Apply(hash, s, step).history)
  {
    hide Encode, Offered;
  }

  // ---------------------------------------------------------------- when the operators have stopped

  /** Versions with one hash have the same files. */
  ghost predicate Faithful(history: seq<Version>) {
    forall i, j :: 0 <= i < |history| && 0 <= j < |history| && history[i].hash == history[j].hash ==>
      history[i].files == history[j].files
  }

  predicate Tells(hash: Hash, x: string, y: string) {
    hash(x) == hash(y) ==> x == y
  }

  /** For versions without NULs that says no more than that the hash function tells their streams apart. */
  lemma FaithfulIff(hash: Hash, history: seq<Version>)
    requires Genuine(hash, history) && forall i :: 0 <= i < |history| ==> NulFree(history[i].files)
    ensures Faithful(history) <==>
      forall i, j :: 0 <= i < |history| && 0 <= j < |history| ==>
        Tells(hash, Encode(history[i].files), Encode(history[j].files))
  {
    hide Encode, NulFree;
    forall i, j | 0 <= i < |history| && 0 <= j < |history|
      ensures Encode(history[i].files) == Encode(history[j].files) ==> history[i].files == history[j].files
    {
      if Encode(history[i].files) == Encode(history[j].files) {
        EncodeInjective(history[i].files, history[j].files);
      }
    }
    assert forall i, j :: 0 <= i < |history| && 0 <= j < |history| ==>
      (Tells(hash, Encode(history[i].files), Encode(history[j].files)) <==>
        (history[i].hash == history[j].hash ==> history[i].files == history[j].files));
  }

  /** Nothing but deliveries that apply, receipts, heartbeats and pushes of the current version. */
  predicate IsQuiet(step: Step) {
    step.Push? || (step.Deliver? && step.applies) || step.Receive? || step.Heartbeat?
  }

  /** The agent runs the current version and reports its hash. */
  predicate Good(s: State)
    requires s.cur < |s.history|
  {
    s.effective == Offered(Current(s).files) && s.reported == Current(s).hash
  }

  /** How many offers must be delivered until only current ones are left. */
  function Lag(down: seq<RemoteConfig>, c: RemoteConfig): (n: nat)
    ensures n <= |down|
  {
    if down == [] then 0
    else if down[|down| - 1] != c then |down|
    else Lag(down[..|down| - 1], c)
  }

  /** A message that makes the server offer the current version. */
  predicate Kicks(m: Msg, h: string) {
    m.status != Some(h)
  }

  /** How many messages are received before the first that kicks; one too many if none does. */
  function Wait(up: seq<Msg>, h: string): (n: nat)
    ensures n < |up| ==> Kicks(up[n], h)
    ensures n <= |up| + 1 && n != |up|
    ensures forall i :: 0 <= i < n && i < |up| ==> !Kicks(up[i], h)
  {
    if up == [] then 1 else if Kicks(up[0], h) then 0 else 1 + Wait(up[1..], h)
  }

  /** The agent is good and every offer in flight is the current one. */
  predicate Settled(s: State)
    requires s.cur < |s.history|
  {
    Good(s) && Lag(s.down, OfferOf(Current(s))) == 0
  }

  /** The current version is offered behind every stale offer in flight. */
  predicate Offering(s: State)
    requires s.cur < |s.history|
  {
    Lag(s.down, OfferOf(Current(s))) < |s.down|
  }

  /** How many helpful steps are left. */
  function Rank(s: State): nat
    requires s.cur < |s.history|
  {
    if Settled(s) then 0
    else if Offering(s) then Lag(s.down, OfferOf(Current(s))) + 1
    else 2 * |s.down| + Wait(s.up, Current(s).hash) + 2
  }

  /** A delivery always helps, a receipt or a push does while the current version is not yet on its way, and
      a heartbeat does if also no kicking message is. */
  predicate Helps(s: State, step: Step)
    requires s.cur < |s.history|
  {
    && !Settled(s)
    && (step.Deliver? || (!Offering(s) && (step.Receive? || step.Push? ||
          (step.Heartbeat? && Wait(s.up, Current(s).hash) > |s.up|))))
  }

  lemma {:induction false} LagTail(down: seq<RemoteConfig>, c: RemoteConfig)
    requires down != []
    ensures Lag(down[1..], c) == if Lag(down, c) == 0 then 0 else Lag(down, c) - 1
    ensures Lag(down, c) == 0 ==> down[0] == c
  {
    var last := |down| - 1;
    if down[last] == c && last > 0 {
      LagTail(down[..last], c);
      assert down[1..][..last - 1] == down[..last][1..];
    }
  }

  lemma LagSnoc(down: seq<RemoteConfig>, o: RemoteConfig, c: RemoteConfig)
    ensures Lag(down + [o], c) == if o == c then Lag(down, c) else |down| + 1
  {
    assert (down + [o])[..|down|] == down;
  }

  lemma {:induction false} WaitSnoc(up: seq<Msg>, m: Msg, h: string)
    ensures Wait(up + [m], h) == (if Wait(up, h) < |up| then Wait(up, h) else if Kicks(m, h) then |up| else |up| + 2)
  {
    if up != [] {
      assert (up + [m])[1..] == up[1..] + [m];
      if !Kicks(up[0], h) {
        WaitSnoc(up[1..], m, h);
      }
    } else {
      assert up + [m] == [m] && [m][1..] == [];
    }
  }

  /** In a faithful history an offer is known by its hash. */
  lemma KnownByHash(s: State, o: RemoteConfig)
    requires s.cur < |s.history| && Faithful(s.history) && OffersVersion(s.history, o)
    requires o.configHash == Current(s).hash
    ensures o == OfferOf(Current(s))
  {
    hide Offered;
    var i :| 0 <= i < |s.history| && o == OfferOf(s.history[i]);
    assert s.history[i].files == s.history[s.cur].files;
  }

  /** Reports of a stale offer kick; reports of any offer let the wait grow by one at most. */
  lemma ReportsKick(up: seq<Msg>, reporting: Reporting, h: string, effective: Files, cur: string)
    ensures Wait(up + Reports(true, reporting, h, effective), cur) <= Wait(up, cur) + 1
    ensures |Reports(true, reporting, h, effective)| > 0
    ensures h != cur ==> Wait(up + Reports(true, reporting, h, effective), cur) <= |up|
    ensures h != cur ==> Wait(up + Reports(true, reporting, h, effective), cur) <= Wait(up, cur)
  {
    var r := Reports(true, reporting, h, effective);
    WaitSnoc(up, r[0], cur);
    assert r == if reporting == Apart then [r[0], r[1]] else [r[0]];
    if reporting == Apart {
      WaitSnoc(up + [r[0]], r[1], cur);
      assert up + r == up + [r[0]] + [r[1]];
    }
  }

  lemma DeliverStep(hash: Hash, s: State, reporting: Reporting)
    requires Inv(s) && Faithful(s.history) && Enabled(s, Deliver(true, reporting))
    ensures var t := Apply(hash, s, Deliver(true, reporting));
      t.cur == s.cur < |s.history| && t.history == s.history && (Settled(s) ==> Settled(t))
        && (!Settled(s) ==> Rank(t) < Rank(s))
  {
    hide Faithful, Offered, Lag, Reports, OffersVersion, Wait;
    var t := Apply(hash, s, Deliver(true, reporting));
    var c, o := OfferOf(Current(s)), s.down[0];
    LagTail(s.down, c);
    ReportsKick(s.up, reporting, o.configHash, o.config, c.configHash);
    if o == c {
      assert Good(t);
    } else {
      assert OffersVersion(s.history, o);
      if o.configHash == c.configHash {
        KnownByHash(s, o);
      }
    }
  }

  lemma EmptyLag(down: seq<RemoteConfig>, c: RemoteConfig)
    requires down == []
    ensures Lag(down, c) == 0
  {
  }

  lemma ReceiveStep(hash: Hash, s: State)
    requires Inv(s) && Enabled(s, Receive)
    ensures var t := Apply(hash, s, Receive);
      t.cur == s.cur < |s.history| && t.history == s.history && (Settled(s) ==> Settled(t)) && Rank(t) <= Rank(s)
        && (!Settled(s) && !Offering(s) ==> Rank(t) < Rank(s))
  {
    hide Inv, Offered, Lag;
    var t := Apply(hash, s, Receive);
    var c, m := OfferOf(Current(s)), s.up[0];
    LagSnoc(s.down, c, c);
    assert t.down == if Kicks(m, c.configHash) then s.down + [c] else s.down;
  }

  lemma PushStep(hash: Hash, s: State)
    requires Inv(s) && Enabled(s, Push)
    ensures var t := Apply(hash, s, Push);
      t.cur == s.cur < |s.history| && t.history == s.history && (Settled(s) ==> Settled(t)) && Rank(t) <= Rank(s)
        && (!Settled(s) && !Offering(s) ==> Rank(t) < Rank(s))
  {
    hide Inv, Offered, Lag, Wait;
    LagSnoc(s.down, OfferOf(Current(s)), OfferOf(Current(s)));
  }

  lemma HeartbeatStep(hash: Hash, s: State)
    requires Inv(s) && Enabled(s, Heartbeat)
    ensures var t := Apply(hash, s, Heartbeat);
      t.cur == s.cur < |s.history| && t.history == s.history && (Settled(s) ==> Settled(t)) && Rank(t) <= Rank(s)
        && (Helps(s, Heartbeat) ==> Rank(t) < Rank(s))
  {
    hide Inv, Offered, Lag;
    WaitSnoc(s.up, Msg(None, None), Current(s).hash);
  }

  /** No quiet step moves the agent away from its goal, and every helpful one moves it closer. */
  lemma RankStep(hash: Hash, s: State, step: Step)
    requires Inv(s) && Faithful(s.history) && Enabled(s, step) && IsQuiet(step)
    ensures var t := Apply(hash, s, step);
      t.cur == s.cur && t.history == s.history && (Settled(s) ==> Settled(t))
    ensures Rank(Apply(hash, s, step)) + (if Helps(s, step) then 1 else 0) <= Rank(s)
  {
    hide Inv, Faithful, Rank, Settled, Offering, Wait, Apply;
    ApplyKeeps(hash, s, step);
    match step {
      case Deliver(_, reporting) => DeliverStep(hash, s, reporting); SettledRank(Apply(hash, s, step));
      case Receive => ReceiveStep(hash, s);
      case Push => PushStep(hash, s);
      case Heartbeat => HeartbeatStep(hash, s);
      case _ =>
    }
    SettledRank(s);
  }

  lemma ApplyKeeps(hash: Hash, s: State, step: Step)
    requires Inv(s) && Enabled(s, step) && IsQuiet(step)
    ensures Apply(hash, s, step).cur == s.cur < |s.history| && Apply(hash, s, step).history == s.history
  {
  }

  lemma SettledRank(s: State)
    requires s.cur < |s.history|
    ensures Rank(s) == 0 <==> Settled(s)
  {
    hide Lag, Offered, Wait;
  }

  ghost predicate IsQuietRun(hash: Hash, s: State, steps: seq<Step>) {
    IsRun(hash, s, steps) && forall i :: 0 <= i < |steps| ==> IsQuiet(steps[i])
  }

  /** The helpful steps of a run. */
  ghost function HelpfulSteps(hash: Hash, s: State, steps: seq<Step>): nat
    requires IsRun(hash, s, steps)
    decreases |steps|
  {
    if steps == [] then 0
    else (if Helps(s, steps[0]) then 1 else 0) + HelpfulSteps(hash, Apply(hash, s, steps[0]), steps[1..])
  }

  lemma {:induction false} RankRun(hash: Hash, s: State, steps: seq<Step>)
    requires Inv(s) && Faithful(s.history) && IsQuietRun(hash, s, steps)
    ensures var t := After(hash, s, steps);
      t.cur == s.cur < |s.history| && t.history == s.history && HelpfulSteps(hash, s, steps) + Rank(t) <= Rank(s)
    decreases |steps|
  {
    hide Inv, Faithful, Rank, Helps, Apply, IsQuiet, Enabled;
    CurrentExists(s);
    if steps != [] {
      assert IsQuiet(steps[0]);
      RankStep(hash, s, steps[0]);
      InvStep(hash, s, steps[0]);
      var t := Apply(hash, s, steps[0]);
      assert forall i :: 0 <= i < |steps[1..]| ==> IsQuiet(steps[1..][i]);
      RankRun(hash, t, steps[1..]);
    }
  }

  lemma CurrentExists(s: State)
    requires Inv(s)
    ensures s.cur < |s.history|
  {
  }

  /** Main result: after any run at all, once the operators have stopped, Rank(s) helpful steps bring the agent
      to the current version: it runs the offered form of its files and reports their hash. */
  lemma Converges(hash: Hash, s0: State, before: seq<Step>, steps: seq<Step>)
    requires IsDigest(hash) && Init(hash, s0) && IsRun(hash, s0, before)
    requires var s := After(hash, s0, before);
      s.cur < |s.history| && Faithful(s.history) && IsQuietRun(hash, s, steps)
        && HelpfulSteps(hash, s, steps) >= Rank(s)
    ensures var s, t := After(hash, s0, before), After(hash, After(hash, s0, before), steps);
      t.cur == s.cur < |t.history| && t.history == s.history && Settled(t)
    ensures var s, t := After(hash, s0, before), After(hash, After(hash, s0, before), steps);
      t.effective == Offered(Current(s).files) && t.reported == Current(s).hash == hash(Encode(Current(s).files))
  {
    hide Rank, HelpfulSteps, Faithful, After, IsRun, Encode, Lag;
    assert Inv(s0) && Genuine(hash, s0.history);
    InvRun(hash, s0, before);
    var s := After(hash, s0, before);
    assert Current(s).hash == hash(Encode(Current(s).files));
    hide Inv, Genuine;
    RankRun(hash, s, steps);
    SettledRank(After(hash, s, steps));
  }

  lemma {:induction false} RunSnoc(hash: Hash, s: State, steps: seq<Step>, x: Step)
    requires IsRun(hash, s, steps) && Enabled(After(hash, s, steps), x)
    ensures IsRun(hash, s, steps + [x]) && After(hash, s, steps + [x]) == Apply(hash, After(hash, s, steps), x)
    decreases |steps|
  {
    hide Apply;
    if steps == [] {
      assert steps + [x] == [x] && [x][1..] == [];
      hide Enabled;
    } else {
      assert (steps + [x])[1..] == steps[1..] + [x];
      RunSnoc(hash, Apply(hash, s, steps[0]), steps[1..], x);
    }
  }

  /** What an operator creates, or rolls back to, is what the agent comes to run. */
  lemma OperatorsChoiceArrives(hash: Hash, s0: State, before: seq<Step>, x: Step, steps: seq<Step>)
    requires IsDigest(hash) && Init(hash, s0) && IsRun(hash, s0, before) && (x.Create? || x.Rollback?)
    requires Enabled(After(hash, s0, before), x)
    requires var s := Apply(hash, After(hash, s0, before), x);
      s.cur < |s.history| && Faithful(s.history) && IsQuietRun(hash, s, steps)
      && HelpfulSteps(hash, s, steps) >= Rank(s)
    ensures var files := if x.Create? then x.files else After(hash, s0, before).history[x.version].files;
      var t := After(hash, Apply(hash, After(hash, s0, before), x), steps);
      t.effective == Offered(files) && t.reported == hash(Encode(files))
  {
    RunSnoc(hash, s0, before, x);
    var s := Apply(hash, After(hash, s0, before), x);
    assert Current(s).files == if x.Create? then x.files else After(hash, s0, before).history[x.version].files;
    hide Rank, HelpfulSteps, Faithful, IsRun, After, Apply, Encode, Offered, IsQuietRun;
    Converges(hash, s0, before + [x], steps);
  }

  /** Until then some helpful step can always be taken. */
  lemma HelpIsAtHand(s: State) returns (step: Step)
    requires s.cur < |s.history| && !Settled(s)
    ensures Enabled(s, step) && IsQuiet(step) && Helps(s, step)
  {
    hide Settled, Lag;
    if Offering(s) {
      step := Deliver(true, Together);
    } else if s.up != [] {
      step := Receive;
    } else {
      step := Heartbeat;
    }
  }

  /** A lost connection costs no more than four helpful steps, and nothing if the agent had settled. */
  lemma ReconnectIsCheap(hash: Hash, s: State)
    requires Inv(s)
    ensures var t := Apply(hash, s, Reconnect);
      t.cur == s.cur < |s.history| && t.history == s.history && Rank(t) <= 4 && (Settled(s) ==> Settled(t))
  {
    hide Inv, Offered;
    assert s.cur < |s.history| by {
      CurrentExists(s);
    }
    EmptyLag([], OfferOf(Current(s)));
  }

  // ---------------------------------------------------------------- without heartbeats

  /** Something in flight will yet reach the agent or make the server offer, or the agent is good already. */
  predicate Settling(s: State)
    requires s.cur < |s.history|
  {
    s.down != [] || Wait(s.up, Current(s).hash) < |s.up| || Good(s)
  }

  lemma SettlingStep(hash: Hash, s: State, step: Step)
    requires Inv(s) && Faithful(s.history) && Enabled(s, step)
    requires step.Receive? || (step.Deliver? && step.applies)
    ensures var t := Apply(hash, s, step);
      t.cur == s.cur < |s.history| && t.history == s.history && (Settling(t) <==> Settling(s))
  {
    hide Faithful, Offered, Reports, OffersVersion;
    var t := Apply(hash, s, step);
    var c := OfferOf(Current(s));
    if step.Deliver? {
      var o := s.down[0];
      ReportsKick(s.up, step.reporting, o.configHash, o.config, c.configHash);
      assert OffersVersion(s.history, o);
      if o.configHash == c.configHash {
        KnownByHash(s, o);
        assert Good(t);
      } else {
        assert Wait(t.up, c.configHash) <= |s.up|;
      }
    }
  }

  lemma {:induction false} SettlingRun(hash: Hash, s: State, steps: seq<Step>)
    requires Inv(s) && Faithful(s.history) && IsQuietRun(hash, s, steps)
    requires forall i :: 0 <= i < |steps| ==> steps[i].Receive? || steps[i].Deliver?
    ensures var t := After(hash, s, steps);
      t.cur == s.cur < |s.history| && t.history == s.history && (Settling(t) <==> Settling(s))
    decreases |steps|
  {
    hide Inv, Faithful, Settling, Apply, Enabled;
    CurrentExists(s);
    if steps != [] {
      assert IsQuiet(steps[0]);
      SettlingStep(hash, s, steps[0]);
      InvStep(hash, s, steps[0]);
      assert forall i :: 0 <= i < |steps[1..]| ==> steps[1..][i] == steps[i + 1];
      SettlingRun(hash, Apply(hash, s, steps[0]), steps[1..]);
    }
  }

  /** Main result: when everything in flight has been handled and no heartbeat came, the agent has reached the
      current version exactly if the state was settling when the operators stopped. */
  lemma DrainedIsSettledIff(hash: Hash, s: State, steps: seq<Step>)
    requires Inv(s) && Faithful(s.history) && IsQuietRun(hash, s, steps)
    requires forall i :: 0 <= i < |steps| ==> steps[i].Receive? || steps[i].Deliver?
    requires After(hash, s, steps).down == [] && After(hash, s, steps).up == []
    ensures var t := After(hash, s, steps);
      s.cur < |s.history| && t.cur == s.cur && t.history == s.history && (Settled(t) <==> Settling(s))
  {
    hide Inv, Faithful, IsQuietRun, After;
    SettlingRun(hash, s, steps);
  }

  /** The state that is not settling: the current version failed to apply, the failure was reported under the
      version's own hash, and nothing is in flight. No report of it is answered with another offer. */
  lemma FailedApplyIsNotRetried(hash: Hash, s: State) returns (failed: State, t: State)
    requires s.cur < |s.history| && s.down == [OfferOf(Current(s))] && s.up == []
    requires s.effective != Offered(Current(s).files)
    ensures Enabled(s, Deliver(false, Together)) && failed == Apply(hash, s, Deliver(false, Together))
    ensures Enabled(failed, Receive) && t == Apply(hash, failed, Receive)
    ensures t.down == [] && t.up == [] && t.cur < |t.history| && !Settling(t) && !Good(t)
  {
    hide Offered;
    failed := Apply(hash, s, Deliver(false, Together));
    t := Apply(hash, failed, Receive);
  }

  // ---------------------------------------------------------------- how long the exchange goes on

  /** How the client library reports an apply, as a function of the state: the status always goes out, together
      with the effective config; or it is left out where it did not change; or the two also go out apart. */
  datatype Policy = Always | Batched | Separate

  /** The status that was last reported, if it was that of an apply. */
  function Prev(s: State): Option<string> {
    if s.applied then Some(s.reported) else None
  }

  function ReportingOf(policy: Policy, s: State): Reporting
    requires s.down != []
  {
    if policy.Always? then Together
    else if Prev(s) == Some(s.down[0].configHash) then Unchanged
    else if policy.Batched? then Together
    else Apart
  }

  predicate Exchanges(policy: Policy, s: State, step: Step) {
    Enabled(s, step) && (step.Receive? || (step.Deliver? && step == Deliver(true, ReportingOf(policy, s))))
  }

  /** A run of receipts and deliveries under the policy. */
  ghost predicate IsExchange(policy: Policy, hash: Hash, s: State, steps: seq<Step>)
    decreases |steps|
  {
    steps == [] || (Exchanges(policy, s, steps[0]) && IsExchange(policy, hash, Apply(hash, s, steps[0]), steps[1..]))
  }

  /** How many kicking messages the delivery of an offer of hash x sends, after one of hash prev. */
  function Yield(policy: Policy, prev: Option<string>, x: string, h: string): nat {
    match policy
    case Always => if x != h then 1 else 0
    case Batched => if x != h || prev == Some(x) then 1 else 0
    case Separate => if x != h && prev != Some(x) then 2 else 1
  }

  /** How many kicking messages the offers in flight will send. */
  function Due(policy: Policy, down: seq<RemoteConfig>, prev: Option<string>, h: string): nat {
    if down == [] then 0
    else Yield(policy, prev, down[0].configHash, h) + Due(policy, down[1..], Some(down[0].configHash), h)
  }

  function LastOf(down: seq<RemoteConfig>, prev: Option<string>): Option<string> {
    if down == [] then prev else Some(down[|down| - 1].configHash)
  }

  function UpKicks(up: seq<Msg>, h: string): nat {
    if up == [] then 0 else (if Kicks(up[0], h) then 1 else 0) + UpKicks(up[1..], h)
  }

  /** Kicking messages in flight and to come, but for those that new offers will cause. */
  function Pending(policy: Policy, s: State): nat
    requires s.cur < |s.history|
  {
    UpKicks(s.up, Current(s).hash) + Due(policy, s.down, Prev(s), Current(s).hash)
  }

  /** No kick is pending, or just one, and the offer it causes will not kick again. */
  predicate Ends(policy: Policy, s: State)
    requires s.cur < |s.history|
  {
    var h := Current(s).hash;
    policy.Always? || Pending(policy, s) == 0
      || (Pending(policy, s) == 1 && Yield(policy, LastOf(s.down, Prev(s)), h, h) == 0)
  }

  /** How many steps are left of an exchange that ends. */
  function StepsLeft(policy: Policy, s: State): nat
    requires s.cur < |s.history|
  {
    2 * (|s.down| + Pending(policy, s)) + |s.up|
  }

  lemma {:induction false} DueSnoc(policy: Policy, down: seq<RemoteConfig>, o: RemoteConfig, prev: Option<string>,
      h: string)
    ensures Due(policy, down + [o], prev, h) ==
      Due(policy, down, prev, h) + Yield(policy, LastOf(down, prev), o.configHash, h)
  {
    hide Yield;
    if down == [] {
      assert down + [o] == [o] && [o][1..] == [];
    } else {
      assert (down + [o])[1..] == down[1..] + [o];
      DueSnoc(policy, down[1..], o, Some(down[0].configHash), h);
    }
  }

  lemma {:induction false} UpKicksAppend(up: seq<Msg>, ms: seq<Msg>, h: string)
    ensures UpKicks(up + ms, h) == UpKicks(up, h) + UpKicks(ms, h)
  {
    if up == [] {
      assert up + ms == ms;
    } else {
      assert (up + ms)[1..] == up[1..] + ms;
      UpKicksAppend(up[1..], ms, h);
    }
  }

  lemma ReportsYield(policy: Policy, s: State, h: string)
    requires s.down != []
    ensures var o := s.down[0];
      UpKicks(Reports(true, ReportingOf(policy, s), o.configHash, o.config), h) ==
        Yield(policy, Prev(s), o.configHash, h)
    ensures !policy.Separate? ==> |Reports(true, ReportingOf(policy, s), s.down[0].configHash, s.down[0].config)| == 1
  {
    var o := s.down[0];
    var full, status, rest := Msg(Some(o.configHash), Some(o.config)), Msg(Some(o.configHash), None),
      Msg(None, Some(o.config));
    assert [full][1..] == [] && [rest][1..] == [] && [status, rest][1..] == [rest];
    assert UpKicks([rest], h) == 1;
    assert UpKicks([full], h) == UpKicks([status], h) == (if o.configHash != h then 1 else 0) by {
      assert [status][1..] == [];
    }
    assert UpKicks([status, rest], h) == (if o.configHash != h then 1 else 0) + 1;
  }

  lemma ReceiveExchange(policy: Policy, hash: Hash, s: State)
    requires Exchanges(policy, s, Receive)
    ensures var t := Apply(hash, s, Receive);
      && t.cur == s.cur < |s.history| && t.history == s.history && (Ends(policy, t) <==> Ends(policy, s))
      && (Ends(policy, s) ==> StepsLeft(policy, t) + 1 == StepsLeft(policy, s))
  {
    hide Encode, Offered, Due;
    var t := Apply(hash, s, Receive);
    var c := OfferOf(Current(s));
    DueSnoc(policy, s.down, c, Prev(s), c.configHash);
    assert t.down == if Kicks(s.up[0], c.configHash) then s.down + [c] else s.down;
  }

  lemma DeliverExchange(policy: Policy, hash: Hash, s: State)
    requires s.down != [] && Exchanges(policy, s, Deliver(true, ReportingOf(policy, s)))
    ensures var t := Apply(hash, s, Deliver(true, ReportingOf(policy, s)));
      && t.cur == s.cur < |s.history| && t.history == s.history && (Ends(policy, t) <==> Ends(policy, s))
      && (Ends(policy, s) ==> StepsLeft(policy, t) + 1 == StepsLeft(policy, s))
  {
    hide Encode, Offered, Reports, ReportingOf;
    var t := Apply(hash, s, Deliver(true, ReportingOf(policy, s)));
    var o, h := s.down[0], Current(s).hash;
    ReportsYield(policy, s, h);
    UpKicksAppend(s.up, Reports(true, ReportingOf(policy, s), o.configHash, o.config), h);
    hide UpKicks;
    assert Pending(policy, t) == Pending(policy, s);
    assert LastOf(t.down, Prev(t)) == LastOf(s.down, Prev(s));
  }

  lemma ExchangeStep(policy: Policy, hash: Hash, s: State, step: Step)
    requires Exchanges(policy, s, step)
    ensures var t := Apply(hash, s, step);
      && t.cur == s.cur < |s.history| && t.history == s.history && (Ends(policy, t) <==> Ends(policy, s))
      && (Ends(policy, s) ==> StepsLeft(policy, t) + 1 == StepsLeft(policy, s))
  {
    hide Apply, Ends, StepsLeft;
    if step.Receive? {
      ReceiveExchange(policy, hash, s);
    } else {
      DeliverExchange(policy, hash, s);
    }
  }

  lemma MayBeTaken(policy: Policy, s: State, step: Step)
    requires Exchanges(policy, s, step)
    ensures Enabled(s, step)
  {
  }

  /** An exchange that ends has no more than StepsLeft steps. */
  lemma {:induction false} ExchangeEnds(policy: Policy, hash: Hash, s: State, steps: seq<Step>)
    requires s.cur < |s.history| && Ends(policy, s) && IsExchange(policy, hash, s, steps)
    ensures |steps| <= StepsLeft(policy, s)
    decreases |steps|
  {
    hide Apply, Ends, StepsLeft, Exchanges;
    if steps != [] {
      MayBeTaken(policy, s, steps[0]);
      ExchangeStep(policy, hash, s, steps[0]);
      ExchangeEnds(policy, hash, Apply(hash, s, steps[0]), steps[1..]);
    }
  }

  /** One that does not end can always be continued: something is in flight. */
  lemma SomethingInFlight(policy: Policy, s: State) returns (step: Step)
    requires s.cur < |s.history| && !Ends(policy, s)
    ensures Exchanges(policy, s, step) && (s.down != [] || s.up != [])
  {
    step := if s.down == [] then Receive else Deliver(true, ReportingOf(policy, s));
  }

  lemma {:induction false} ExchangeGoesOn(policy: Policy, hash: Hash, s: State, n: nat) returns (steps: seq<Step>)
    requires s.cur < |s.history| && !Ends(policy, s)
    ensures |steps| == n && IsExchange(policy, hash, s, steps)
    decreases n
  {
    hide Apply, Ends, Exchanges;
    steps := [];
    if n > 0 {
      var step := SomethingInFlight(policy, s);
      MayBeTaken(policy, s, step);
      ExchangeStep(policy, hash, s, step);
      var rest := ExchangeGoesOn(policy, hash, Apply(hash, s, step), n - 1);
      steps := [step] + rest;
      assert steps[1..] == rest;
    }
  }

  /** And none of its runs ever drains. */
  lemma {:induction false} NeverDrains(policy: Policy, hash: Hash, s: State, steps: seq<Step>)
    requires s.cur < |s.history| && !Ends(policy, s) && IsExchange(policy, hash, s, steps)
    ensures IsRun(hash, s, steps) && (After(hash, s, steps).down != [] || After(hash, s, steps).up != [])
    decreases |steps|
  {
    hide Apply, Ends, Exchanges;
    if steps == [] {
      var step := SomethingInFlight(policy, s);
    } else {
      MayBeTaken(policy, s, steps[0]);
      ExchangeStep(policy, hash, s, steps[0]);
      NeverDrains(policy, hash, Apply(hash, s, steps[0]), steps[1..]);
    }
  }

  ghost predicate BoundedBy(policy: Policy, hash: Hash, s: State, n: nat) {
    forall steps :: IsExchange(policy, hash, s, steps) ==> |steps| <= n
  }

  /** Main result: from any state, the exchange of offers and reports is bounded exactly if it ends in the sense
      above: always when every report carries the status; otherwise a matter of the kicks in flight, the hashes
      on their way and the hash last reported. */
  lemma ExchangeEndsIff(policy: Policy, hash: Hash, s: State)
    requires s.cur < |s.history|
    ensures (exists n: nat :: BoundedBy(policy, hash, s, n)) <==> Ends(policy, s)
  {
    hide Ends, StepsLeft, IsExchange;
    if Ends(policy, s) {
      forall steps | IsExchange(policy, hash, s, steps) ensures |steps| <= StepsLeft(policy, s) {
        ExchangeEnds(policy, hash, s, steps);
      }
      assert BoundedBy(policy, hash, s, StepsLeft(policy, s));
    } else {
      forall n: nat ensures !BoundedBy(policy, hash, s, n) {
        var steps := ExchangeGoesOn(policy, hash, s, n + 1);
      }
    }
  }

  /** Where the unchanged status is left out: nothing that kicks is in flight and at most one offer, or two of
      which the first is the current one and the second is not; and a current offer comes to an agent that has
      not reported it. Or one kick is in flight and nothing else that matters. */
  predicate BatchedEnds(s: State)
    requires s.cur < |s.history|
  {
    var h, k := Current(s).hash, UpKicks(s.up, Current(s).hash);
    || (k == 0 && s.down == [])
    || (k == 1 && s.down == [] && Prev(s) != Some(h))
    || (k == 0 && |s.down| == 1 && (s.down[0].configHash == h ==> Prev(s) != Some(h)))
    || (k == 0 && |s.down| == 2 && s.down[0].configHash == h && Prev(s) != Some(h) && s.down[1].configHash != h)
  }

  lemma {:induction false} StaleLastIsDue(down: seq<RemoteConfig>, prev: Option<string>, h: string)
    requires down != [] && down[|down| - 1].configHash != h
    ensures Due(Batched, down, prev, h) >= 1
  {
    if |down| > 1 {
      StaleLastIsDue(down[1..], Some(down[0].configHash), h);
    }
  }

  lemma DueOfTwo(down: seq<RemoteConfig>, prev: Option<string>, h: string)
    requires |down| >= 2
    ensures Due(Batched, down, prev, h) == Yield(Batched, prev, down[0].configHash, h)
      + Yield(Batched, Some(down[0].configHash), down[1].configHash, h)
      + Due(Batched, down[2..], Some(down[1].configHash), h)
  {
    hide Yield;
    assert down[1..][1..] == down[2..];
    assert down[1..][0] == down[1];
  }

  lemma BatchedEndsIff(s: State)
    requires s.cur < |s.history|
    ensures Ends(Batched, s) <==> BatchedEnds(s)
  {
    hide Offered, UpKicks;
    var down, h := s.down, Current(s).hash;
    if |down| == 1 {
      assert down[1..] == [];
      assert Due(Batched, down, Prev(s), h) == Yield(Batched, Prev(s), down[0].configHash, h);
    } else if |down| >= 2 {
      DueOfTwo(down, Prev(s), h);
      if |down| == 2 {
        assert down[2..] == [];
      } else if down[|down| - 1].configHash != h {
        StaleLastIsDue(down[2..], Some(down[1].configHash), h);
      }
    }
  }

  /** Where the two reports go out apart, the exchange ends only if nothing in flight is an offer or kicks. */
  lemma SeparateEndsIff(s: State)
    requires s.cur < |s.history|
    ensures Ends(Separate, s) <==> s.down == [] && UpKicks(s.up, Current(s).hash) == 0
  {
    hide UpKicks;
  }

  /** So, unless every report carries the status, one heartbeat of an agent at rest starts an exchange for ever. */
  lemma HeartbeatStartsForEver(policy: Policy, hash: Hash, s: State)
    requires s.cur < |s.history| && Good(s) && s.applied && s.down == [] && s.up == []
    ensures Enabled(s, Heartbeat)
    ensures var t := Apply(hash, s, Heartbeat);
      Ends(policy, s) && t.cur < |t.history| && (Ends(policy, t) <==> policy.Always?)
  {
    hide Offered;
    assert s.up + [Msg(None, None)] == [Msg(None, None)] && [Msg(None, None)][1..] == [];
  }

  // ---------------------------------------------------------------- what the server sees afterwards

  /** A message about the current version, or about nothing. */
  predicate Fresh(m: Msg, v: Version) {
    (m.status.Some? ==> m.status.value == v.hash) && (m.effective.Some? ==> m.effective.value == Offered(v.files))
  }

  /** Settled, and all but the n oldest reports in flight were sent since. */
  ghost predicate CalmBut(s: State, n: nat)
    requires s.cur < |s.history|
  {
    Settled(s) && forall i :: n <= i < |s.up| ==> Fresh(s.up[i], Current(s))
  }

  function Less1(n: nat): nat {
    if n == 0 then 0 else n - 1
  }

  /** Calm lasts, and receipts use up the older reports. */
  lemma CalmStep(hash: Hash, s: State, step: Step, n: nat)
    requires Inv(s) && Faithful(s.history) && Enabled(s, step) && (IsQuiet(step) || step.Reconnect?) && CalmBut(s, n)
    ensures var t := Apply(hash, s, step);
      t.cur == s.cur && t.history == s.history && CalmBut(t, if step.Receive? then Less1(n) else n)
  {
    hide Encode, Offered, Faithful, Lag, Wait, Inv;
    var t := Apply(hash, s, step);
    if step.Reconnect? {
      ReconnectIsCheap(hash, s);
    } else {
      RankStep(hash, s, step);
    }
    if step.Deliver? {
      LagTail(s.down, OfferOf(Current(s)));
      assert forall i :: |s.up| <= i < |t.up| ==>
        t.up[i] == Reports(true, step.reporting, Current(s).hash, Offered(Current(s).files))[i - |s.up|];
    } else if step.Receive? {
      assert forall i :: 0 <= i < |t.up| ==> t.up[i] == s.up[i + 1];
    }
  }

  ghost function Receipts(steps: seq<Step>): nat {
    if steps == [] then 0 else (if steps[0].Receive? then 1 else 0) + Receipts(steps[1..])
  }

  /** Once settled, the reports then in flight are the last that can be answered with a config. */
  lemma {:induction false} BecomesCalm(hash: Hash, s: State, steps: seq<Step>, n: nat)
    requires Inv(s) && Faithful(s.history) && IsRun(hash, s, steps) && CalmBut(s, n)
    requires forall i :: 0 <= i < |steps| ==> IsQuiet(steps[i]) || steps[i].Reconnect?
    requires Receipts(steps) >= n
    ensures var t := After(hash, s, steps); t.cur == s.cur && t.history == s.history && CalmBut(t, 0)
    decreases |steps|
  {
    hide Inv, Faithful, Apply, IsQuiet, Enabled, CalmBut;
    CurrentExists(s);
    if steps != [] {
      assert IsQuiet(steps[0]) || steps[0].Reconnect?;
      CalmStep(hash, s, steps[0], n);
      InvStep(hash, s, steps[0]);
      assert forall i :: 0 <= i < |steps[1..]| ==> steps[1..][i] == steps[i + 1];
      BecomesCalm(hash, Apply(hash, s, steps[0]), steps[1..], if steps[0].Receive? then Less1(n) else n);
    }
  }

  /** In calm a message that carries a status is not answered with a config. A received effective config is
      stored under the version's own hash if no content type is blank; if one is, under the hash of another stream. */
  lemma CalmReceipt(hash: Hash, s: State)
    requires s.cur < |s.history| && Genuine(hash, s.history) && NulFree(Current(s).files) && s.up != [] && CalmBut(s, 0)
    ensures Enabled(s, Receive) && (s.up[0].status.Some? ==> Apply(hash, s, Receive).down == s.down)
    ensures s.up[0].effective.Some? ==>
      Apply(hash, s, Receive).effHash == hash(Encode(Offered(Current(s).files)))
    ensures NoBlankType(Current(s).files) <==> Encode(Offered(Current(s).files)) == Encode(Current(s).files)
    ensures s.up[0].effective.Some? && NoBlankType(Current(s).files) ==>
      Apply(hash, s, Receive).effHash == Current(s).hash
  {
    hide Encode, Offered, NoBlankType, Lag, NulFree;
    OfferedStreamAgrees(Current(s).files);
    assert Fresh(s.up[0], Current(s));
    assert s.down + [] == s.down;
  }

  /** The reply used here is the config part of the server's reply. */
  lemma ReplyIsThePoll(hash: Hash, base: string, cat: O.Catalog, a: O.Agent, group: string, m: Msg, msg: O.Message,
      push: O.Offer)
    requires a.acceptsConfig && group in cat.current && cat.current[group].files != map[]
      && cat.current[group].hash != ""
    requires O.IsPushOffer(hash, base, cat, a, group, push) && msg.configHash == m.status
    ensures O.Trimmed(push, msg).remoteConfig ==
      if Reply(cat.current[group], m) == [] then None else Some(Reply(cat.current[group], m)[0])
    ensures push.remoteConfig == Some(OfferOf(cat.current[group]))
  {
    hide Offered, O.PackagesOffer;
  }

  // ---------------------------------------------------------------- the agent

  /** cmd/demo-agent: the fields it keeps and the last status it gave to the client library. */
  class DemoAgent {
    var effective: Files
    var reported: string
    var applied: bool

    constructor (onDisk: Files)
      ensures effective == onDisk && reported == ""
    {
      effective, reported, applied := onDisk, "", false;
    }

    /** applyRemoteConfig; `broken` are the names whose file cannot be written. A failure leaves the effective
        config alone and still reports the offered hash. */
    method ApplyRemoteConfig(rc: RemoteConfig, broken: set<string>)
      modifies this
      ensures applied <==> rc.config.Keys !! broken
      ensures effective == if rc.config.Keys !! broken then rc.config else old(effective)
      ensures reported == rc.configHash
      ensures forall hash, s: State, reporting ::
        s.cur < |s.history| && s.down != [] && s.down[0] == rc && Enabled(s, Deliver(applied, reporting))
        && s.effective == old(effective) ==>
          Apply(hash, s, Deliver(applied, reporting)).effective == effective
          && Apply(hash, s, Deliver(applied, reporting)).reported == reported
          && Apply(hash, s, Deliver(applied, reporting)).applied == applied
    {
      var newEffective: Files := map[];
      var rest := rc.config.Keys;
      while rest != {}
        invariant rest <= rc.config.Keys && newEffective == map n | n in rc.config.Keys - rest :: rc.config[n]
        invariant (rc.config.Keys - rest) !! broken
        invariant effective == old(effective)
        decreases rest
      {
        var name :| name in rest;
        newEffective := newEffective[name := rc.config[name]];
        if name in broken {
          reported, applied := rc.configHash, false;
          return;
        }
        rest := rest - {name};
      }
      assert newEffective == rc.config;
      effective := newEffective;
      reported, applied := rc.configHash, true;
    }

    method GetEffectiveConfig() returns (cm: Files)
      ensures cm == effective
    {
      cm := map[];
      var rest := effective.Keys;
      while rest != {}
        invariant rest <= effective.Keys && cm == map n | n in effective.Keys - rest :: effective[n]
        decreases rest
      {
        var name :| name in rest;
        cm, rest := cm[name := effective[name]], rest - {name};
      }
      assert cm == effective;
    }
  }
}
