/** What the server does with one message of an agent (internal/opampserver/message.go): register the connection,
    store each section that the message carries, resolve the group from what is stored, and answer. */
module Messages {
  import opened Text
  import O = Offers
  import R = Registry
  import C = ConfigCodec

  datatype Description = Description(
    identifying: map<string, string>, nonIdentifying: map<string, string>, acceptsConfig: bool, acceptsPackages: bool)

  datatype RemoteStatus = Unset | Applied | Applying | Failed

  datatype ConfigStatus = ConfigStatus(status: RemoteStatus, error: string, hash: string)

  /** The optional sections. An effective config may come without a config map. */
  datatype Report = Report(
    description: Option<Description>,
    effective: Option<Option<C.Reported>>,
    configStatus: Option<ConfigStatus>,
    packagesHash: Option<string>)

  /** Which of the writes for a message the store took; the errors of the others are only logged. */
  datatype Stores = Stores(touched: bool, description: bool, effective: bool, configStatus: bool, packages: bool,
      loaded: bool)

  /** A message as it was heard, with the fate of its writes. */
  datatype Heard = Heard(uid: string, report: Report, stores: Stores)

  datatype AgentRow = AgentRow(
    description: Option<Description>,
    effectiveHash: Option<string>,
    configStatus: Option<ConfigStatus>,
    packagesHash: Option<string>)

  const BLANK_ROW: AgentRow := AgentRow(None, None, None, None)

  // ---------------------------------------------------------------- what was heard last

  /** The row of an agent exists since the first touch that the store took. */
  ghost predicate Exists(heard: seq<Heard>, u: string) {
    exists i :: 0 <= i < |heard| && heard[i].uid == u && heard[i].stores.touched
  }

  /** The last value of a section that messages of the agent carried into its row. */
  ghost function Last<T>(heard: seq<Heard>, u: string, section: Heard -> Option<T>): Option<T> {
    if heard == [] then None
    else
      var n := |heard| - 1;
      if heard[n].uid == u && Exists(heard, u) && section(heard[n]).Some? then section(heard[n])
      else Last(heard[..n], u, section)
  }

  function DescriptionIn(h: Heard): Option<Description> {
    if h.stores.description then h.report.description else None
  }

  /** Blank without a config map, else the hash of the reported files. */
  ghost function EffectiveIn(hash: C.Hash): Heard -> Option<string> {
    (h: Heard) =>
      if !h.stores.effective || h.report.effective.None? then None
      else match h.report.effective.value case None => Some("") case Some(r) => Some(hash(C.Encode(C.FilesOf(r))))
  }

  function ConfigStatusIn(h: Heard): Option<ConfigStatus> {
    if h.stores.configStatus then h.report.configStatus else None
  }

  function PackagesIn(h: Heard): Option<string> {
    if h.stores.packages then h.report.packagesHash else None
  }

  ghost function RowOf(hash: C.Hash, heard: seq<Heard>, u: string): AgentRow {
    AgentRow(Last(heard, u, DescriptionIn), Last(heard, u, EffectiveIn(hash)), Last(heard, u, ConfigStatusIn),
      Last(heard, u, PackagesIn))
  }

  lemma ExistsStep(heard: seq<Heard>, h: Heard, u: string)
    ensures Exists(heard + [h], u) <==> Exists(heard, u) || (h.uid == u && h.stores.touched)
  {
    var more := heard + [h];
    assert more[|heard|] == h;
    assert forall i :: 0 <= i < |heard| ==> more[i] == heard[i];
  }

  lemma LastStep<T>(heard: seq<Heard>, h: Heard, u: string, section: Heard -> Option<T>)
    ensures Last(heard + [h], u, section) ==
      if h.uid == u && Exists(heard + [h], u) && section(h).Some? then section(h) else Last(heard, u, section)
  {
    hide Exists;
    assert (heard + [h])[..|heard|] == heard;
  }

  lemma {:induction false} NothingBeforeTheRow<T>(heard: seq<Heard>, u: string, section: Heard -> Option<T>)
    requires !Exists(heard, u)
    ensures Last(heard, u, section) == None
  {
    if heard != [] {
      var n := |heard| - 1;
      assert heard == heard[..n] + [heard[n]];
      ExistsStep(heard[..n], heard[n], u);
      NothingBeforeTheRow(heard[..n], u, section);
    }
  }

  /** The row after one more message, from the row before it. */
  ghost function NextRow(hash: C.Hash, row: AgentRow, h: Heard): AgentRow {
    AgentRow(
      if DescriptionIn(h).Some? then DescriptionIn(h) else row.description,
      if EffectiveIn(hash)(h).Some? then EffectiveIn(hash)(h) else row.effectiveHash,
      if ConfigStatusIn(h).Some? then ConfigStatusIn(h) else row.configStatus,
      if PackagesIn(h).Some? then PackagesIn(h) else row.packagesHash)
  }

  ghost function RowAfter(hash: C.Hash, heard: seq<Heard>, h: Heard, u: string): AgentRow {
    if h.uid == u && Exists(heard + [h], u) then NextRow(hash, RowOf(hash, heard, u), h) else RowOf(hash, heard, u)
  }

  lemma RowStep(hash: C.Hash, heard: seq<Heard>, h: Heard, u: string)
    ensures RowOf(hash, heard + [h], u) == RowAfter(hash, heard, h, u)
    ensures !Exists(heard, u) ==> RowOf(hash, heard, u) == BLANK_ROW
  {
    hide Exists, Last, EffectiveIn, DescriptionIn, ConfigStatusIn, PackagesIn;
    LastStep(heard, h, u, DescriptionIn);
    LastStep(heard, h, u, EffectiveIn(hash));
    LastStep(heard, h, u, ConfigStatusIn);
    LastStep(heard, h, u, PackagesIn);
    if !Exists(heard, u) {
      NothingBeforeTheRow(heard, u, DescriptionIn);
      NothingBeforeTheRow(heard, u, EffectiveIn(hash));
      NothingBeforeTheRow(heard, u, ConfigStatusIn);
      NothingBeforeTheRow(heard, u, PackagesIn);
    }
  }

  // ---------------------------------------------------------------- the server

  datatype Kind = ConnectedEvent | ConfigApplied | ConfigFailed

  datatype AgentEvent = AgentEvent(uid: string, kind: Kind)

  function ConfigEvents(uid: string, status: Option<ConfigStatus>): seq<AgentEvent> {
    if status.None? then []
    else if status.value.status == Applied then [AgentEvent(uid, ConfigApplied)]
    else if status.value.status == Failed then [AgentEvent(uid, ConfigFailed)]
    else []
  }

  function NoOffer(uid: string): O.Offer {
    O.Offer(uid, None, None)
  }

  /** The agent as the reply sees it: its stored description, whether or not this message carried one. */
  function AgentOf(uid: string, assignment: Option<string>, d: Option<Description>): O.Agent {
    match d
    case Some(x) => O.Agent(uid, assignment, x.identifying, x.nonIdentifying, x.acceptsConfig, x.acceptsPackages)
    case None => O.Agent(uid, assignment, map[], map[], false, false)
  }

  /** The two hashes that the reply compares with are those of this message, not the stored ones. */
  function HashesOf(uid: string, report: Report): O.Message {
    O.Message(uid, match report.configStatus case Some(s) => Some(s.hash) case None => None, report.packagesHash)
  }

  ghost predicate IsReply(hash: C.Hash, base: string, cat: O.Catalog, a: O.Agent, msg: O.Message, reply: O.Offer) {
    exists group :: O.Governs(group, cat, a) && O.IsReply(hash, base, cat, a, group, msg, reply)
  }

  // ---------------------------------------------------------------- the reply, said of store and message directly

  /** The group: as assigned, else the least by name whose selector the stored attributes meet, else the default. */
  ghost predicate Chosen(g: string, cat: O.Catalog, assignment: Option<string>, d: Description) {
    if assignment.Some? && assignment.value != "" then g == assignment.value
    else if cat.groups.None? then g == cat.defaultGroup
    else
      var names := set x | x in cat.groups.value && x.name != cat.defaultGroup && x.selector != map[]
                           && O.HasLabels(x.selector, d.identifying, d.nonIdentifying) :: x.name;
      if names == {} then g == cat.defaultGroup else g in names && forall y :: y in names ==> g == y || C.Less(g, y)
  }

  /** The current version of the group, unless its hash is the reported one. */
  ghost predicate ConfigIn(cat: O.Catalog, g: string, accepts: bool, reported: string, rc: Option<O.RemoteConfig>) {
    && (rc.Some? <==>
         accepts && g in cat.current && cat.current[g].files != map[] && cat.current[g].hash != reported)
    && (rc.Some? ==>
         rc.value.configHash == cat.current[g].hash && rc.value.config == C.Offered(cat.current[g].files))
  }

  /** The packages of the group, unless the hash of all of them is the reported one. */
  ghost predicate PackagesOf(hash: C.Hash, base: string, cat: O.Catalog, g: string, accepts: bool, reported: string,
                             pa: Option<O.PackagesAvailable>) {
    if accepts && g in cat.packages && cat.packages[g] != []
    then exists all :: O.OffersPackages(hash, base, cat.packages[g], all)
           && pa == if all.allHash == reported then None else Some(all)
    else pa.None?
  }

  ghost predicate Answers(hash: C.Hash, base: string, cat: O.Catalog, assignment: Option<string>,
                          stored: Option<Description>, report: Report, reply: O.Offer) {
    match stored
    case None => reply.remoteConfig.None? && reply.packages.None?
    case Some(d) =>
      var config := match report.configStatus case Some(s) => s.hash case None => "";
      var all := match report.packagesHash case Some(x) => x case None => "";
      exists g :: Chosen(g, cat, assignment, d)
        && ConfigIn(cat, g, d.acceptsConfig, config, reply.remoteConfig)
        && PackagesOf(hash, base, cat, g, d.acceptsPackages, all, reply.packages)
  }

  lemma GovernsChosen(g: string, cat: O.Catalog, uid: string, assignment: Option<string>, d: Description)
    requires O.Governs(g, cat, AgentOf(uid, assignment, Some(d)))
    ensures Chosen(g, cat, assignment, d)
  {
    var a := AgentOf(uid, assignment, Some(d));
    if cat.groups.Some? {
      forall x: O.Group
        ensures O.Candidate(cat.defaultGroup, x, a) <==>
          x.name != cat.defaultGroup && x.selector != map[] && O.HasLabels(x.selector, d.identifying, d.nonIdentifying)
      {
      }
      var names := set x | x in cat.groups.value && x.name != cat.defaultGroup && x.selector != map[]
                           && O.HasLabels(x.selector, d.identifying, d.nonIdentifying) :: x.name;
      assert names == O.Claimants(cat.defaultGroup, cat.groups.value, a);
    }
  }

  lemma PartsAnswer(hash: C.Hash, base: string, cat: O.Catalog, a: O.Agent, g: string, msg: O.Message, push: O.Offer)
    requires O.IsPushOffer(hash, base, cat, a, g, push)
    ensures O.Trimmed(push, msg).uid == msg.uid
    ensures ConfigIn(cat, g, a.acceptsConfig, match msg.configHash case Some(h) => h case None => "",
                     O.Trimmed(push, msg).remoteConfig)
    ensures PackagesOf(hash, base, cat, g, a.acceptsPackages, match msg.packagesHash case Some(h) => h case None => "",
                       O.Trimmed(push, msg).packages)
  {
    hide O.OffersPackages, C.Offered;
  }

  lemma ReplyAnswers(hash: C.Hash, base: string, cat: O.Catalog, uid: string, assignment: Option<string>,
                     stored: Option<Description>, report: Report, reply: O.Offer)
    requires IsReply(hash, base, cat, AgentOf(uid, assignment, stored), HashesOf(uid, report), reply)
    ensures reply.uid == uid && Answers(hash, base, cat, assignment, stored, report, reply)
  {
    var a, msg := AgentOf(uid, assignment, stored), HashesOf(uid, report);
    var g :| O.Governs(g, cat, a) && O.IsReply(hash, base, cat, a, g, msg, reply);
    var push :| O.IsPushOffer(hash, base, cat, a, g, push) && reply == O.Trimmed(push, msg);
    PartsAnswer(hash, base, cat, a, g, msg, push);
    if stored.Some? {
      GovernsChosen(g, cat, uid, assignment, stored.value);
    }
    hide O.Governs, O.IsPushOffer, O.Trimmed, Chosen, O.OffersPackages, C.Offered;
  }

  lemma NoOfferIs(uid: string)
    ensures NoOffer(uid) == O.Offer(uid, None, None)
  {
  }

  lemma ConfigEventsAre(uid: string, status: Option<ConfigStatus>)
    ensures ConfigEvents(uid, status) ==
      match status
      case None => []
      case Some(s) =>
        (match s.status
         case Applied => [AgentEvent(uid, ConfigApplied)]
         case Failed => [AgentEvent(uid, ConfigFailed)]
         case _ => [])
  {
  }

  /** Governing group and push offer are unique, hence so is the reply. */
  lemma ReplyIsUnique(hash: C.Hash, base: string, cat: O.Catalog, a: O.Agent, msg: O.Message, x: O.Offer, y: O.Offer)
    requires cat.Valid() && IsReply(hash, base, cat, a, msg, x) && IsReply(hash, base, cat, a, msg, y)
    ensures x == y
  {
    hide O.Governs, O.IsPushOffer, O.Trimmed;
    var g :| O.Governs(g, cat, a) && O.IsReply(hash, base, cat, a, g, msg, x);
    var k :| O.Governs(k, cat, a) && O.IsReply(hash, base, cat, a, k, msg, y);
    O.GoverningIsUnique(g, k, cat, cat, a);
    var p :| O.IsPushOffer(hash, base, cat, a, g, p) && x == O.Trimmed(p, msg);
    var q :| O.IsPushOffer(hash, base, cat, a, g, q) && y == O.Trimmed(q, msg);
    O.PushOfferUnique(hash, base, cat, a, g, p, q);
  }

  class Server {
    const hash: C.Hash
    const registry: R.Manager
    var agents: map<string, AgentRow>
    var events: seq<AgentEvent>
    ghost var heard: seq<Heard>

    /** Each row holds, section by section, what was last heard. */
    ghost predicate RowsValid()
      reads `agents, `heard
    {
      forall u :: (u in agents <==> Exists(heard, u)) && (u in agents ==> agents[u] == RowOf(hash, heard, u))
    }

    ghost predicate Valid()
      reads `agents, `heard, registry
    {
      registry.Valid() && RowsValid()
    }

    constructor (hash: C.Hash)
      ensures Valid() && heard == [] && events == [] && this.hash == hash && fresh(registry) && registry.log == []
      ensures registry.due == map[] && registry.writes == []
    {
      this.hash := hash;
      registry := new R.Manager();
      agents, events, heard := map[], [], [];
    }

    /** persistReportedState on a row that exists. */
    method Persist(row: AgentRow, h: Heard) returns (next: AgentRow)
      ensures next == NextRow(hash, row, h)
    {
      next := row;
      if h.report.description.Some? && h.stores.description {
        next := next.(description := h.report.description);
      }
      if h.report.effective.Some? && h.stores.effective {
        var eh := C.EffectiveConfigHash(hash, h.report.effective.value);
        next := next.(effectiveHash := Some(eh));
      }
      if h.report.configStatus.Some? && h.stores.configStatus {
        next := next.(configStatus := h.report.configStatus);
      }
      if h.report.packagesHash.Some? && h.stores.packages {
        next := next.(packagesHash := h.report.packagesHash);
      }
    }

    /** The agent's row by TouchAgent and persistReportedState. */
    method Store(h: Heard)
      requires RowsValid()
      modifies this`agents, this`heard
      ensures RowsValid() && heard == old(heard) + [h]
    {
      hide Exists, NextRow, RowOf;
      Remember(h);
      if h.stores.touched && h.uid !in agents {
        agents := agents[h.uid := BLANK_ROW];
      }
      if h.uid in agents {
        var row := Persist(agents[h.uid], h);
        agents := agents[h.uid := row];
      }
      heard := heard + [h];
    }

    /** Main result: after every history of messages the rows are what was last heard, and the reply is the one
        that the stored description and the hashes of this very message determine. */
    method OnMessage(base: string, cat: O.Catalog, assignment: Option<string>, conn: R.Conn, h: Heard)
      returns (reply: O.Offer)
      requires Valid() && cat.Valid() && conn !in registry.due
      modifies this, registry
      ensures Valid()
      ensures h.uid == "" ==> heard == old(heard) && agents == old(agents) && events == old(events)
      ensures h.uid == "" ==>
        registry.log == old(registry.log) && registry.writes == old(registry.writes) && reply == O.Offer("", None, None)
      ensures registry.due == old(registry.due)
      ensures h.uid != "" ==> heard == old(heard) + [h] && registry.log == old(registry.log) + [R.Message(h.uid, conn)]
      ensures h.uid != "" ==>
        registry.writes == old(registry.writes) + (if h.stores.touched then [|old(registry.log)|] else [])
      ensures h.uid != "" ==>
        events == old(events)
          + (if R.Owns(old(registry.log), h.uid, conn) then [] else [AgentEvent(h.uid, ConnectedEvent)])
          + (match h.report.configStatus
             case None => []
             case Some(s) =>
               (match s.status
                case Applied => [AgentEvent(h.uid, ConfigApplied)]
                case Failed => [AgentEvent(h.uid, ConfigFailed)]
                case _ => []))
      ensures h.uid != "" && !(h.stores.loaded && Exists(heard, h.uid)) ==> reply == O.Offer(h.uid, None, None)
      ensures h.uid != "" && h.stores.loaded && Exists(heard, h.uid) ==>
        IsReply(hash, base, cat, AgentOf(h.uid, assignment, Last(heard, h.uid, DescriptionIn)),
          HashesOf(h.uid, h.report), reply)
      ensures h.uid != "" && h.stores.loaded && Exists(heard, h.uid) ==>
        reply.uid == h.uid
        && Answers(hash, base, cat, assignment, Last(heard, h.uid, DescriptionIn), h.report, reply)
    {
      NoOfferIs("");
      NoOfferIs(h.uid);
      ConfigEventsAre(h.uid, h.report.configStatus);
      hide *;
      if h.uid == "" {
        return NoOffer("");
      }
      SplitValid();
      var isNew := registry.RegisterConn(h.uid, conn);
      registry.TouchAgent(h.uid, conn, h.stores.touched);
      Store(h);
      if isNew {
        events := events + [AgentEvent(h.uid, ConnectedEvent)];
      } else {
        assert events + [] == events;
      }
      events := events + ConfigEvents(h.uid, h.report.configStatus);
      reply := NoOffer(h.uid);
      RowLookup(h.uid);
      if h.stores.loaded && h.uid in agents {
        reply := Answer(base, cat, AgentOf(h.uid, assignment, agents[h.uid].description), HashesOf(h.uid, h.report));
        ReplyAnswers(hash, base, cat, h.uid, assignment, agents[h.uid].description, h.report, reply);
      }
      SplitValid();
    }

    lemma SplitValid()
      ensures Valid() <==> registry.Valid() && RowsValid()
    {
    }

    lemma RowLookup(u: string)
      requires RowsValid()
      ensures u in agents <==> Exists(heard, u)
      ensures u in agents ==> agents[u].description == Last(heard, u, DescriptionIn)
    {
      hide Exists, Last;
    }

    method Answer(base: string, cat: O.Catalog, a: O.Agent, msg: O.Message) returns (reply: O.Offer)
      requires cat.Valid()
      ensures IsReply(hash, base, cat, a, msg, reply)
    {
      var group := O.ResolveGroup(cat, a);
      reply := O.BuildServerToAgent(hash, base, cat, a, group, msg);
    }

    lemma Remember(h: Heard)
      ensures forall u :: Exists(heard + [h], u) <==> Exists(heard, u) || (h.uid == u && h.stores.touched)
      ensures forall u :: RowOf(hash, heard + [h], u) == RowAfter(hash, heard, h, u)
      ensures forall u :: !Exists(heard, u) ==> RowOf(hash, heard, u) == BLANK_ROW
    {
      hide *;
      forall u ensures Exists(heard + [h], u) <==> Exists(heard, u) || (h.uid == u && h.stores.touched) {
        ExistsStep(heard, h, u);
      }
      forall u
        ensures RowOf(hash, heard + [h], u) == RowAfter(hash, heard, h, u)
        ensures !Exists(heard, u) ==> RowOf(hash, heard, u) == BLANK_ROW
      {
        RowStep(hash, heard, h, u);
      }
    }
  }
}
