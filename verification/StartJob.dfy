/** From a deploy request to a finished job: validation, target expansion and the fan-out
    (internal/deploy/manager.go, `StartJob`). */
module StartJob {
  import opened Text
  import opened Targets
  import NetAddr
  import Fan = FanOut

  datatype Request = Request(action: string, targetSpec: string, user: string, password: string, privateKey: string)

  /** What the connector and the store answer to this request. */
  datatype Surroundings = Surroundings(enabled: bool, tokenRenewed: bool, scriptFetched: bool, jobStored: bool)

  datatype Refusal =
    | UnknownAction | BadTargets(e: Targets.Error) | NoUser | NoCredentials | NoToken | NotConfigured | NoScript
    | NotStored

  /** NewManager: without a positive concurrency there are ten slots. */
  function Slots(concurrency: int): (n: nat)
    ensures n >= 1
  {
    if concurrency <= 0 then 10 else concurrency
  }

  predicate Installs(action: string) {
    action == "install" || action == "repair" || action == "upgrade"
  }

  predicate Known(action: string) {
    Installs(action) || action == "preflight" || action == "uninstall"
  }

  /** A blank action is an installation. */
  function ActionOf(req: Request): string {
    if req.action == "" then "install" else req.action
  }

  /** Everything a request needs besides its targets. */
  predicate Admissible(req: Request, env: Surroundings) {
    && Known(ActionOf(req))
    && req.user != ""
    && (req.password != "" || TrimSpace(req.privateKey) != "")
    && (env.enabled ==> env.tokenRenewed)
    && (Installs(ActionOf(req)) ==> env.enabled && env.scriptFetched)
    && env.jobStored
  }

  /** The checks in their order; the first that fails is the one reported. */
  ghost predicate Judged(req: Request, env: Surroundings, fits: bool, refusal: Option<Refusal>) {
    var installs := req.action in {"", "install", "repair", "upgrade"};
    if !installs && req.action != "preflight" && req.action != "uninstall" then refusal == Some(UnknownAction)
    else if !fits then refusal.Some? && refusal.value.BadTargets?
    else if req.user == "" then refusal == Some(NoUser)
    else if req.password == "" && (forall i :: 0 <= i < |req.privateKey| ==> IsSpace(req.privateKey[i]))
    then refusal == Some(NoCredentials)
    else if env.enabled && !env.tokenRenewed then refusal == Some(NoToken)
    else if installs && !env.enabled then refusal == Some(NotConfigured)
    else if installs && !env.scriptFetched then refusal == Some(NoScript)
    else refusal == if env.jobStored then None else Some(NotStored)
  }

  ghost predicate Started(t: NetAddr.Text6, req: Request, env: Surroundings) {
    Admissible(req, env) && Fits(Denoting(t), Fields(req.targetSpec, IsSep))
  }

  ghost function HostsOf(t: NetAddr.Text6, req: Request): seq<string>
    requires Fits(Denoting(t), Fields(req.targetSpec, IsSep))
  {
    Dedup(Flatten(Denoting(t), Fields(req.targetSpec, IsSep)))
  }

  /** A job starts exactly for an admissible request whose targets fit, with the hosts the targets denote. They
      are distinct, so every host row has one writer. */
  method Start(t: NetAddr.Text6, concurrency: int, req: Request, env: Surroundings)
    returns (r: Result<Fan.Job, Refusal>)
    requires t.Law()
    ensures r.Ok? <==> Started(t, req, env)
    ensures r.Ok? ==> fresh(r.value) && r.value.Valid() && r.value.trace == []
    ensures r.Ok? ==> r.value.cfg == Fan.Config(HostsOf(t, req), Slots(concurrency))
    ensures r.Ok? ==> r.value.cfg.concurrency == if concurrency > 0 then concurrency else 10
    ensures Judged(req, env, Fits(Denoting(t), Fields(req.targetSpec, IsSep)), if r.Ok? then None else Some(r.error))
  {
    ghost var l, r0 := TrimSpaceIs(req.privateKey);
    hide Denoting, Fields, Flatten, Dedup, TrimSpace;
    var action := if req.action == "" then "install" else req.action;
    if !Known(action) {
      return Err(UnknownAction);
    }
    var expanded := ExpandTargets(t, req.targetSpec);
    if expanded.Err? {
      return Err(BadTargets(expanded.error));
    }
    if req.user == "" {
      return Err(NoUser);
    }
    if req.password == "" && TrimSpace(req.privateKey) == "" {
      return Err(NoCredentials);
    }
    if env.enabled && !env.tokenRenewed {
      return Err(NoToken);
    }
    if Installs(action) {
      if !env.enabled {
        return Err(NotConfigured);
      }
      if !env.scriptFetched {
        return Err(NoScript);
      }
    }
    if !env.jobStored {
      return Err(NotStored);
    }
    DedupElements(Flatten(Denoting(t), Fields(req.targetSpec, IsSep)));
    var job := new Fan.Job(expanded.value, Slots(concurrency));
    r := Ok(job);
  }

  /** The configuration that a started job runs under. */
  ghost function ConfigOf(t: NetAddr.Text6, concurrency: int, req: Request): Fan.Config
    requires Fits(Denoting(t), Fields(req.targetSpec, IsSep))
  {
    Fan.Config(HostsOf(t, req), Slots(concurrency))
  }

  /** The last row of a run that stored it: finished, with the verdict on exactly the distinct hosts that the spec
      denotes, each of which was operated on once. */
  ghost predicate TrueRow(cfg: Fan.Config, trace: seq<Fan.Label>, row: Fan.JobRow)
    requires Fan.IsRun(cfg, trace)
  {
    var pcs := Fan.After(cfg, trace).pcs;
    && |pcs| == |cfg.hosts|
    && (forall i :: 0 <= i < |pcs| ==> pcs[i].Done? && Fan.Return(i, pcs[i].o) in trace && Fan.Calls(trace, i) == 1)
    && row.finished
    && row.succeeded == Fan.Total(Fan.CountedOk, pcs) && row.failed == Fan.Total(Fan.CountedBad, pcs)
    && row.succeeded + row.failed == |cfg.hosts|
    && (row.status == Fan.AllFailed <==> forall i :: 0 <= i < |pcs| ==> !pcs[i].o.ok)
    && (row.status == Fan.Succeeded <==> forall i :: 0 <= i < |pcs| ==> pcs[i].o.ok)
    && (row.status == Fan.Partial <==>
         (exists i :: 0 <= i < |pcs| && pcs[i].o.ok) && (exists i :: 0 <= i < |pcs| && !pcs[i].o.ok))
  }

  /** From the spec to the last row, under every scheduler and environment: a request that starts a job runs it to
      its end; there is a row exactly if the last write is stored, and then it is true. */
  method Deploy(t: NetAddr.Text6, concurrency: int, req: Request, env: Surroundings,
      choose: (Fan.State, nat) -> Fan.Label)
    returns (row: Option<Fan.JobRow>, ghost trace: seq<Fan.Label>)
    requires t.Law()
    ensures !Started(t, req, env) ==> row == None
    ensures Started(t, req, env) ==>
      var cfg := ConfigOf(t, concurrency, req);
      && cfg.Valid() && 1 <= |cfg.hosts| <= MAX_TARGETS && Fan.IsRun(cfg, trace) && Fan.After(cfg, trace).main.Ended?
      && (row.Some? <==> Fan.After(cfg, trace).main.stored)
      && (row.Some? ==> TrueRow(cfg, trace, row.value))
  {
    hide Fields, Denoting, Flatten, Dedup, Fan.After, Fan.IsRun, Fan.Calls, Fan.Total, Admissible, Fan.ProgressRow;
    row, trace := None, [];
    var r := Start(t, concurrency, req, env);
    if r.Ok? {
      var job := r.value;
      job.Run(choose);
      trace := job.trace;
      if job.main.stored {
        Fan.FinalRowIsTrue(job.cfg, trace);
        row := Some(job.jobLog[|job.jobLog| - 1]);
      }
    }
  }
}
