/** The connections of the OpAMP server: the registry they change under a lock, and the status they write after it. */
module Registry {
  import opened Text

  // internal/opampserver/server.go, internal/opampserver/message.go, internal/opampserver/push.go. The registry is
  // held against the history of what its connections did, the stored status against the registry; the status writes
  // of different connections come in any order.

  type Conn = nat

  /** What happens under the lock: a message from a connection under an instance UID, or the end of a connection. */
  datatype Event = Message(uid: string, conn: Conn) | Close(conn: Conn)

  // ---------------------------------------------------------------- what a history means

  /** The UID a connection is known under: that of its last message since it last closed. */
  ghost function UidOf(log: seq<Event>, c: Conn): Option<string> {
    if log == [] then None
    else
      var e := log[|log| - 1];
      if e.conn != c then UidOf(log[..|log| - 1], c) else if e.Message? then Some(e.uid) else None
  }

  /** Event e ends a connection known under u. */
  ghost predicate Ends(log: seq<Event>, j: nat, u: string)
    requires j < |log|
  {
    log[j].Close? && UidOf(log[..j], log[j].conn) == Some(u)
  }

  /** Message i was sent by c under u, nobody has sent one under u since, and c has not been closed under u. */
  ghost predicate Claim(log: seq<Event>, u: string, c: Conn, i: nat) {
    && i < |log| && log[i] == Message(u, c)
    && forall j :: i < j < |log| ==> !(log[j].Message? && log[j].uid == u) && !(log[j].conn == c && Ends(log, j, u))
  }

  ghost predicate Owns(log: seq<Event>, u: string, c: Conn) {
    exists i: nat :: Claim(log, u, c, i)
  }

  lemma PrefixEnds(log: seq<Event>, e: Event, j: nat, u: string)
    requires j < |log|
    ensures (log + [e])[j] == log[j] && (Ends(log + [e], j, u) <==> Ends(log, j, u))
  {
    assert (log + [e])[..j] == log[..j];
  }

  /** A claim outlives an event unless that event is a message under u or ends c under u. */
  lemma ClaimStep(log: seq<Event>, e: Event, u: string, c: Conn, i: nat)
    requires i < |log|
    ensures Claim(log + [e], u, c, i) <==>
      Claim(log, u, c, i) && !(e.Message? && e.uid == u) && !(e == Close(c) && UidOf(log, c) == Some(u))
  {
    hide UidOf;
    var more := log + [e];
    assert more[..|log|] == log && more[|log|] == e;
    forall j | 0 <= j < |log| ensures more[j] == log[j] && (Ends(more, j, u) <==> Ends(log, j, u)) {
      PrefixEnds(log, e, j, u);
    }
    assert Ends(more, |log|, u) <==> e.Close? && UidOf(log, e.conn) == Some(u);
    if Claim(more, u, c, i) {
      forall j | i < j < |log| ensures !(log[j].Message? && log[j].uid == u) && !(log[j].conn == c && Ends(log, j, u)) {
        assert more[j] == log[j];
      }
    }
  }

  /** A message gives u to its sender, the end of its owner takes u away, and nothing else changes it. */
  ghost predicate OwnsAfter(log: seq<Event>, e: Event, u: string, c: Conn) {
    if e.Message? && e.uid == u then e.conn == c
    else Owns(log, u, c) && !(e == Close(c) && UidOf(log, c) == Some(u))
  }

  lemma OwnsStep(log: seq<Event>, e: Event, u: string, c: Conn)
    ensures Owns(log + [e], u, c) <==> OwnsAfter(log, e, u, c)
  {
    hide UidOf;
    var more := log + [e];
    forall i: nat | i < |log|
      ensures Claim(more, u, c, i) <==>
        Claim(log, u, c, i) && !(e.Message? && e.uid == u) && !(e == Close(c) && UidOf(log, c) == Some(u))
    {
      ClaimStep(log, e, u, c, i);
    }
    if Owns(more, u, c) {
      var i: nat :| Claim(more, u, c, i);
      assert i == |log| ==> more[|log|] == e;
    }
    if e == Message(u, c) {
      assert Claim(more, u, c, |log|);
    } else if Owns(log, u, c) {
      var i: nat :| Claim(log, u, c, i);
      assert Claim(more, u, c, i) <==> !(e.Message? && e.uid == u) && !(e == Close(c) && UidOf(log, c) == Some(u));
    }
  }

  /** A UID has one owner at most. */
  lemma OneOwner(log: seq<Event>, u: string, c: Conn, d: Conn)
    requires Owns(log, u, c) && Owns(log, u, d)
    ensures c == d
  {
    hide UidOf;
    var i: nat :| Claim(log, u, c, i);
    var k: nat :| Claim(log, u, d, k);
    assert !(i < k) && !(k < i);
  }

  ghost function UidAfter(log: seq<Event>, e: Event, c: Conn): Option<string> {
    if e.conn != c then UidOf(log, c) else if e.Message? then Some(e.uid) else None
  }

  lemma UidStep(log: seq<Event>, e: Event, c: Conn)
    ensures UidOf(log + [e], c) == UidAfter(log, e, c)
  {
    assert (log + [e])[..|log|] == log;
  }

  // ---------------------------------------------------------------- connections that keep one UID

  ghost predicate Keeps(log: seq<Event>, c: Conn, u: string) {
    forall j :: 0 <= j < |log| ==> log[j].Message? && log[j].conn == c ==> log[j].uid == u
  }

  /** c sent message i under u, the last that anybody sent under u, and has not closed since. */
  ghost predicate LastAndOpen(log: seq<Event>, u: string, c: Conn, i: nat) {
    && i < |log| && log[i] == Message(u, c)
    && forall j :: i < j < |log| ==> !(log[j].Message? && log[j].uid == u) && log[j] != Close(c)
  }

  lemma {:induction false} KnownSince(log: seq<Event>, u: string, c: Conn, i: nat)
    requires i < |log| && log[i] == Message(u, c) && forall j :: i < j < |log| ==> log[j].conn != c
    ensures UidOf(log, c) == Some(u)
  {
    if i < |log| - 1 {
      KnownSince(log[..|log| - 1], u, c, i);
    }
  }

  /** For a connection that keeps one UID, owning it means to have sent the last message under it and to be open;
      the registry then also has the connection under that UID. */
  lemma KeepingConnection(log: seq<Event>, u: string, c: Conn)
    requires Keeps(log, c, u)
    ensures Owns(log, u, c) <==> exists i: nat :: LastAndOpen(log, u, c, i)
    ensures Owns(log, u, c) ==> UidOf(log, c) == Some(u)
  {
    hide UidOf;
    if i: nat :| Claim(log, u, c, i) {
      forall j | i < j < |log| ensures log[j].conn != c {
        SilentSinceClaim(log, u, c, i, j);
      }
      assert LastAndOpen(log, u, c, i);
      KnownSince(log, u, c, i);
    }
    if i: nat :| LastAndOpen(log, u, c, i) {
      assert Claim(log, u, c, i);
    }
  }

  lemma {:induction false} SilentSinceClaim(log: seq<Event>, u: string, c: Conn, i: nat, j: nat)
    requires Keeps(log, c, u) && Claim(log, u, c, i) && i < j < |log|
    ensures log[j].conn != c
    decreases j
  {
    hide UidOf;
    forall k | i < k < j ensures log[k].conn != c {
      SilentSinceClaim(log, u, c, i, k);
    }
    KnownSince(log[..j], u, c, i);
    var ended := Ends(log, j, u);
  }

  /** In general the owner of u is known under u exactly when it sent nothing under another UID since. */
  lemma OwnerKnownUnderUid(log: seq<Event>, u: string, c: Conn, i: nat)
    requires Claim(log, u, c, i)
    ensures UidOf(log, c) == Some(u) <==> forall j :: i < j < |log| ==> !(log[j].Message? && log[j].conn == c)
  {
    hide UidOf;
    if forall j :: i < j < |log| ==> !(log[j].Message? && log[j].conn == c) {
      forall j | i < j < |log| ensures log[j].conn != c {
        NoCloseSinceClaim(log, u, c, i, j);
      }
      KnownSince(log, u, c, i);
    } else {
      var j :| i < j < |log| && log[j].Message? && log[j].conn == c;
      NotUnderUid(log, u, c, j);
    }
  }

  lemma {:induction false} NoCloseSinceClaim(log: seq<Event>, u: string, c: Conn, i: nat, j: nat)
    requires Claim(log, u, c, i) && i < j < |log|
    requires forall k :: i < k < |log| ==> !(log[k].Message? && log[k].conn == c)
    ensures log[j].conn != c
    decreases j
  {
    hide UidOf;
    forall k | i < k < j ensures log[k].conn != c {
      NoCloseSinceClaim(log, u, c, i, k);
    }
    KnownSince(log[..j], u, c, i);
    var ended := Ends(log, j, u);
  }

  lemma {:induction false} NotUnderUid(log: seq<Event>, u: string, c: Conn, j: nat)
    requires j < |log| && log[j].Message? && log[j].conn == c && log[j].uid != u
    requires forall k :: j < k < |log| ==> !(log[k].Message? && log[k].uid == u)
    ensures UidOf(log, c) != Some(u)
  {
    if j < |log| - 1 {
      NotUnderUid(log[..|log| - 1], u, c, j);
    }
  }

  /** However many other connections close, the sender of the last message under u owns it while it is open. */
  lemma NewerIsNotEvicted(log: seq<Event>, u: string, c: Conn, i: nat)
    requires LastAndOpen(log, u, c, i)
    ensures Owns(log, u, c)
  {
    assert Claim(log, u, c, i);
  }

  /** A connection that changed its UID leaves an entry behind that its end does not remove. */
  lemma ChangedUidLeavesEntry(u: string, v: string, c: Conn) returns (log: seq<Event>)
    requires u != v
    ensures log == [Message(u, c), Message(v, c), Close(c)]
    ensures Owns(log, u, c) && UidOf(log, c) == None && !Owns(log, v, c)
  {
    log := [Message(u, c), Message(v, c), Close(c)];
    assert log[..2] == [Message(u, c), Message(v, c)];
    OwnsStep([], Message(u, c), u, c);
    OwnsStep([Message(u, c)], Message(v, c), u, c);
    OwnsStep([Message(u, c), Message(v, c)], Close(c), u, c);
    OwnsStep([Message(u, c), Message(v, c)], Close(c), v, c);
    assert [] + [Message(u, c)] == [Message(u, c)];
    assert [Message(u, c)] + [Message(v, c)] == [Message(u, c), Message(v, c)];
    assert [Message(u, c), Message(v, c)] + [Close(c)] == log;
  }

  // ---------------------------------------------------------------- locked steps and status writes

  datatype Status = Connected | Disconnected

  /** Step p of the history leads to a status write for u: connected for a message, disconnected for the end of a
      connection known under u. */
  ghost predicate Bears(log: seq<Event>, u: string, p: nat) {
    p < |log| && if log[p].Message? then log[p].uid == u else Ends(log, p, u)
  }

  ghost predicate HasWrite(log: seq<Event>, p: nat) {
    p < |log| && (log[p].Message? || UidOf(log[..p], log[p].conn).Some?)
  }

  /** One step of a run: a locked change of the registry, or the status write that a connection still owes for its last
      one, with whether the store took it. */
  datatype Action = Locked(event: Event) | Write(conn: Conn, stored: bool)

  /** The history of locked steps, the step whose write a connection owes, and the steps whose writes are stored, in
      the order of the writes. */
  datatype State = State(log: seq<Event>, due: map<Conn, nat>, writes: seq<nat>)

  /** The calls of one connection follow each other, so it has one write to do at most. */
  ghost predicate Enabled(s: State, a: Action) {
    match a
    case Locked(e) => e.conn !in s.due
    case Write(c, _) => c in s.due
  }

  ghost function Step(s: State, a: Action): State
    requires Enabled(s, a)
  {
    match a
    case Locked(e) =>
      var owes := e.Message? || UidOf(s.log, e.conn).Some?;
      s.(log := s.log + [e], due := if owes then s.due[e.conn := |s.log|] else s.due)
    case Write(c, stored) => s.(due := s.due - {c}, writes := if stored then s.writes + [s.due[c]] else s.writes)
  }

  const START: State := State([], map[], [])

  /** The state after a run from the empty server, if each of its steps was enabled. */
  ghost function After(run: seq<Action>): Option<State> {
    if run == [] then Some(START)
    else
      match After(run[..|run| - 1])
      case None => None
      case Some(s) => if Enabled(s, run[|run| - 1]) then Some(Step(s, run[|run| - 1])) else None
  }

  ghost predicate Reaches(run: seq<Action>, s: State) {
    After(run) == Some(s)
  }

  lemma ReachesStep(run: seq<Action>, s: State, a: Action)
    requires Reaches(run, s) && Enabled(s, a)
    ensures Reaches(run + [a], Step(s, a))
  {
    hide Step, Enabled;
    assert (run + [a])[..|run|] == run;
  }

  /** TouchAgent creates the row where there is none, SetAgentStatus does nothing then. */
  ghost function StatusAfter(log: seq<Event>, p: nat, u: string, before: Option<Status>): Option<Status> {
    if !Bears(log, u, p) then before
    else if log[p].Message? then Some(Connected)
    else if before.None? then None
    else Some(Disconnected)
  }

  /** The status after these writes. */
  ghost function StoredStatus(log: seq<Event>, writes: seq<nat>, u: string): Option<Status> {
    if writes == [] then None
    else
      var n := |writes| - 1;
      StatusAfter(log, writes[n], u, StoredStatus(log, writes[..n], u))
  }

  lemma {:induction false} StoredPrefix(log: seq<Event>, e: Event, writes: seq<nat>, u: string)
    requires forall p :: p in writes ==> p < |log|
    ensures StoredStatus(log + [e], writes, u) == StoredStatus(log, writes, u)
  {
    if writes != [] {
      var n := |writes| - 1;
      assert writes[n] in writes && forall p :: p in writes[..n] ==> p in writes;
      PrefixEnds(log, e, writes[n], u);
      StoredPrefix(log, e, writes[..n], u);
    }
  }

  // ---------------------------------------------------------------- what every run keeps

  ghost predicate DueFits(s: State, c: Conn)
    requires c in s.due
  {
    && HasWrite(s.log, s.due[c]) && s.log[s.due[c]].conn == c && s.due[c] !in s.writes
    && forall j :: s.due[c] < j < |s.log| ==> s.log[j].conn != c
  }

  /** Of two stored writes, the later one belongs to a connection that had not locked again by the step of the earlier
      one. */
  ghost predicate InOrder(log: seq<Event>, early: nat, late: nat) {
    && early != late && early < |log| && late < |log|
    && forall q :: late < q <= early ==> log[q].conn != log[late].conn
  }

  ghost predicate Inv(s: State) {
    && (forall c :: c in s.due ==> DueFits(s, c))
    && (forall p :: p in s.writes ==> HasWrite(s.log, p))
    && (forall i, j :: 0 <= i < j < |s.writes| ==> InOrder(s.log, s.writes[i], s.writes[j]))
  }

  /** No write has failed: that of each step is stored or still due. */
  ghost predicate AllKept(s: State) {
    forall p: nat :: HasWrite(s.log, p) ==> p in s.writes || (s.log[p].conn in s.due && s.due[s.log[p].conn] == p)
  }

  lemma HasWritePrefix(log: seq<Event>, e: Event, p: nat)
    requires p < |log|
    ensures HasWrite(log + [e], p) <==> HasWrite(log, p)
  {
    assert (log + [e])[..p] == log[..p];
  }

  lemma InvLocked(s: State, e: Event)
    requires Inv(s) && Enabled(s, Locked(e))
    ensures Inv(Step(s, Locked(e)))
    ensures AllKept(s) ==> AllKept(Step(s, Locked(e)))
  {
    hide UidOf;
    var t := Step(s, Locked(e));
    assert t.log[..|s.log|] == s.log;
    forall p: nat | p < |s.log| ensures HasWrite(t.log, p) <==> HasWrite(s.log, p) {
      HasWritePrefix(s.log, e, p);
    }
    forall c | c in t.due ensures DueFits(t, c) {
      assert c in s.due ==> DueFits(s, c);
    }
    forall i, j | 0 <= i < j < |t.writes| ensures InOrder(t.log, t.writes[i], t.writes[j]) {
      assert InOrder(s.log, s.writes[i], s.writes[j]);
    }
  }

  lemma InvWrite(s: State, c: Conn, stored: bool)
    requires Inv(s) && Enabled(s, Write(c, stored))
    ensures Inv(Step(s, Write(c, stored)))
    ensures AllKept(s) && stored ==> AllKept(Step(s, Write(c, stored)))
  {
    hide UidOf;
    var t := Step(s, Write(c, stored));
    assert DueFits(s, c);
    forall d | d in t.due ensures DueFits(t, d) {
      assert DueFits(s, d);
    }
    forall i, j | 0 <= i < j < |t.writes| ensures InOrder(t.log, t.writes[i], t.writes[j]) {
      assert s.writes[i] in s.writes;
      assert j < |s.writes| ==> InOrder(s.log, s.writes[i], s.writes[j]);
    }
  }

  ghost predicate AllStored(run: seq<Action>) {
    forall a :: a in run && a.Write? ==> a.stored
  }

  /** In every run, whatever the order of the steps and the fate of the writes. */
  lemma {:induction false} InvRun(run: seq<Action>, s: State)
    requires Reaches(run, s)
    ensures Inv(s)
    ensures AllStored(run) ==> AllKept(s)
    decreases run
  {
    if run != [] {
      var a := run[|run| - 1];
      var r := After(run[..|run| - 1]).value;
      assert a in run;
      InvRun(run[..|run| - 1], r);
      hide Inv, AllKept, Step;
      match a
      case Locked(e) => InvLocked(r, e);
      case Write(c, stored) => InvWrite(r, c, stored);
    }
  }

  // ---------------------------------------------------------------- what the store says in the end

  ghost predicate IsLast(log: seq<Event>, writes: seq<nat>, u: string, k: nat) {
    k < |writes| && Bears(log, u, writes[k]) && forall j :: k < j < |writes| ==> !Bears(log, u, writes[j])
  }

  /** The last write for u decides. */
  lemma {:induction false} LastDecides(log: seq<Event>, writes: seq<nat>, u: string)
    ensures forall k: nat :: IsLast(log, writes, u, k) ==>
      (StoredStatus(log, writes, u) == Some(Connected) <==> log[writes[k]].Message?)
    ensures (forall p :: p in writes ==> !Bears(log, u, p)) ==> StoredStatus(log, writes, u) == None
    ensures (exists p :: p in writes && Bears(log, u, p)) ==> exists k: nat :: IsLast(log, writes, u, k)
  {
    hide Bears;
    if writes != [] {
      var n := |writes| - 1;
      LastDecides(log, writes[..n], u);
      if Bears(log, u, writes[n]) {
        assert IsLast(log, writes, u, n);
      } else {
        forall k: nat ensures IsLast(log, writes, u, k) <==> IsLast(log, writes[..n], u, k) {
          assert k < n ==> writes[..n][k] == writes[k];
        }
        if p :| p in writes && Bears(log, u, p) {
          assert p in writes[..n];
        }
      }
    }
  }

  /** Step p is for u, and its connection did not lock again before the last step for u. */
  ghost predicate CanBeLast(log: seq<Event>, u: string, p: nat) {
    && p < |log| && Bears(log, u, p)
    && forall q, y: nat :: p < q <= y && y < |log| && log[q].conn == log[p].conn ==> !Bears(log, u, y)
  }

  /** The run does these locked steps and stores all their writes. */
  ghost predicate Settles(run: seq<Action>, s: State, log: seq<Event>) {
    Reaches(run, s) && AllStored(run) && s.log == log && s.due == map[]
  }

  lemma BearsHasWrite(log: seq<Event>, u: string, p: nat)
    requires Bears(log, u, p)
    ensures HasWrite(log, p)
  {
  }

  lemma LastIsCandidate(run: seq<Action>, s: State, u: string, k: nat)
    requires Settles(run, s, s.log) && IsLast(s.log, s.writes, u, k)
    ensures CanBeLast(s.log, u, s.writes[k])
  {
    InvRun(run, s);
    hide Bears, HasWrite, Reaches, AllStored;
    var p := s.writes[k];
    forall q, y: nat | p < q <= y && y < |s.log| && s.log[q].conn == s.log[p].conn ensures !Bears(s.log, u, y) {
      if Bears(s.log, u, y) {
        BearsHasWrite(s.log, u, y);
      }
    }
  }

  /** Write p is still due after n steps if everything else is written at once. */
  ghost predicate Waits(log: seq<Event>, p: nat, n: nat)
    requires p < |log| && n <= |log|
  {
    p < n && forall j :: p < j < n ==> log[j].conn != log[p].conn
  }

  // ---------------------------------------------------------------- every candidate has its run

  lemma AndThen(run: seq<Action>, s: State, a: Action) returns (more: seq<Action>, t: State)
    requires Reaches(run, s) && Enabled(s, a)
    ensures Reaches(more, t) && more == run + [a] && t == Step(s, a)
  {
    more, t := run + [a], Step(s, a);
    ReachesStep(run, s, a);
  }

  ghost predicate Ready(log: seq<Event>, writes: seq<nat>, u: string, p: nat) {
    exists k: nat :: IsLast(log, writes, u, k) && writes[k] == p
  }

  lemma BecomesReady(log: seq<Event>, writes: seq<nat>, u: string, p: nat)
    requires Bears(log, u, p) && writes != [] && writes[|writes| - 1] == p
    ensures Ready(log, writes, u, p)
  {
    assert IsLast(log, writes, u, |writes| - 1);
  }

  lemma StaysReady(log: seq<Event>, writes: seq<nat>, u: string, p: nat, y: nat)
    requires Ready(log, writes, u, p) && !Bears(log, u, y)
    ensures Ready(log, writes + [y], u, p)
  {
    hide Bears;
    var k: nat :| IsLast(log, writes, u, k) && writes[k] == p;
    assert IsLast(log, writes + [y], u, k);
  }

  /** One locked step with its write. */
  lemma AtOnce(run: seq<Action>, s: State, log: seq<Event>, n: nat) returns (more: seq<Action>, t: State)
    requires Reaches(run, s) && AllStored(run) && n < |log| && s.log == log[..n] && log[n].conn !in s.due
    ensures Reaches(more, t) && AllStored(more) && t.log == log[..n + 1] && t.due == s.due
    ensures t.writes == s.writes || t.writes == s.writes + [n]
  {
    hide Reaches, UidOf;
    assert log[..n + 1] == log[..n] + [log[n]];
    more, t := AndThen(run, s, Locked(log[n]));
    if log[n].conn in t.due {
      more, t := AndThen(more, t, Write(log[n].conn, true));
    }
  }

  /** Of the first n steps, each write done at once, but that of step p only when its connection locks again. */
  lemma {:induction false} Delay(log: seq<Event>, u: string, p: nat, n: nat) returns (run: seq<Action>, s: State)
    requires CanBeLast(log, u, p) && n <= |log|
    ensures Reaches(run, s) && AllStored(run) && s.log == log[..n]
    ensures s.due == if Waits(log, p, n) then map[log[p].conn := p] else map[]
    ensures p < n && !Waits(log, p, n) ==> Ready(log, s.writes, u, p)
  {
    if n == 0 {
      return [], START;
    }
    run, s := Delay(log, u, p, n - 1);
    hide Reaches, UidOf, IsLast;
    if n - 1 == p {
      assert log[..n] == log[..p] + [log[p]];
      run, s := AndThen(run, s, Locked(log[p]));
    } else {
      if Waits(log, p, n - 1) && log[n - 1].conn == log[p].conn {
        run, s := AndThen(run, s, Write(log[p].conn, true));
        BecomesReady(log, s.writes, u, p);
      }
      ghost var before := s.writes;
      run, s := AtOnce(run, s, log, n - 1);
      if p < n && !Waits(log, p, n) && s.writes != before {
        var q :| p < q < n && log[q].conn == log[p].conn;
        StaysReady(log, before, u, p, n - 1);
      }
    }
  }

  lemma CandidateWins(log: seq<Event>, u: string, p: nat) returns (run: seq<Action>, s: State)
    requires CanBeLast(log, u, p)
    ensures Settles(run, s, log) && Ready(log, s.writes, u, p)
  {
    run, s := Delay(log, u, p, |log|);
    hide Reaches, UidOf;
    assert log[..|log|] == log;
    if Waits(log, p, |log|) {
      run, s := AndThen(run, s, Write(log[p].conn, true));
      BecomesReady(log, s.writes, u, p);
    }
  }

  // ---------------------------------------------------------------- when the store is right

  ghost predicate Owned(log: seq<Event>, u: string) {
    exists c :: Owns(log, u, c)
  }

  ghost predicate StoredRight(s: State, u: string) {
    StoredStatus(s.log, s.writes, u) == Some(Connected) <==> Owned(s.log, u)
  }

  lemma OwnedBears(log: seq<Event>, u: string) returns (p: nat)
    requires Owned(log, u)
    ensures Bears(log, u, p)
  {
    var c :| Owns(log, u, c);
    p :| Claim(log, u, c, p);
  }

  ghost predicate CandidatesRight(log: seq<Event>, u: string) {
    forall p: nat :: CanBeLast(log, u, p) ==> (log[p].Message? <==> Owned(log, u))
  }

  lemma RightIfCandidates(run: seq<Action>, s: State, u: string)
    requires Settles(run, s, s.log) && CandidatesRight(s.log, u)
    ensures StoredRight(s, u)
  {
    InvRun(run, s);
    LastDecides(s.log, s.writes, u);
    hide Bears, HasWrite, Reaches, AllStored, StoredStatus, Owned, CanBeLast;
    if p :| p in s.writes && Bears(s.log, u, p) {
      var k: nat :| IsLast(s.log, s.writes, u, k);
      LastIsCandidate(run, s, u, k);
    } else if Owned(s.log, u) {
      var p := OwnedBears(s.log, u);
      BearsHasWrite(s.log, u, p);
      assert false;
    }
  }

  lemma SettlesLog(run: seq<Action>, s: State, log: seq<Event>)
    requires Settles(run, s, log)
    ensures s.log == log
  {
  }

  /** Main result: after the locked steps of log, every order of the status writes leaves the agent connected exactly
      when it has an owner, if and only if each step whose write can be the last says what the registry says. */
  lemma RightIff(log: seq<Event>, u: string)
    ensures (forall run, s :: Settles(run, s, log) ==> StoredRight(s, u)) <==> CandidatesRight(log, u)
  {
    hide Settles, Owned, Bears, StoredStatus, IsLast;
    if CandidatesRight(log, u) {
      hide CandidatesRight;
      forall run, s | Settles(run, s, log) ensures StoredRight(s, u) {
        assert s.log == log by { SettlesLog(run, s, log); }
        RightIfCandidates(run, s, u);
      }
    } else {
      var p: nat :| CanBeLast(log, u, p) && !(log[p].Message? <==> Owned(log, u));
      var run, s := CandidateWins(log, u, p);
      SettlesLog(run, s, log);
      LastDecides(log, s.writes, u);
    }
  }

  /** Connection c sent the last message under u, and p is the last of its steps for u. */
  ghost predicate LastSender(log: seq<Event>, u: string, c: Conn, i: nat, p: nat) {
    && i < |log| && log[i] == Message(u, c) && (forall j :: i < j < |log| ==> !(log[j].Message? && log[j].uid == u))
    && Bears(log, u, p) && log[p].conn == c && forall j: nat :: p < j < |log| && log[j].conn == c ==> !Bears(log, u, j)
  }

  lemma SenderOwnsIff(log: seq<Event>, u: string, c: Conn, i: nat, p: nat)
    requires LastSender(log, u, c, i, p)
    ensures Owned(log, u) <==> log[p].Message?
  {
    hide UidOf;
    assert Bears(log, u, i);
    if log[p].Message? {
      assert Claim(log, u, c, p);
      assert Owns(log, u, c);
    } else {
      forall d, h: nat ensures !Claim(log, u, d, h) {
      }
    }
  }

  /** Whatever writes failed or are still due: once the last sender's last write for u is stored, the stored status can
      only be wrong by the write of another connection. */
  lemma LastSenderDecides(run: seq<Action>, s: State, u: string, c: Conn, i: nat, p: nat, k: nat)
    requires Reaches(run, s) && LastSender(s.log, u, c, i, p) && p in s.writes && IsLast(s.log, s.writes, u, k)
    ensures !StoredRight(s, u) ==> s.log[s.writes[k]].conn != c && s.log[s.writes[k]].Message? != s.log[p].Message?
  {
    InvRun(run, s);
    LastDecides(s.log, s.writes, u);
    SenderOwnsIff(s.log, u, c, i, p);
    hide UidOf, HasWrite, Reaches, StoredStatus, Owned;
    var w := s.writes[k];
    if s.log[w].conn == c {
      var h :| 0 <= h < |s.writes| && s.writes[h] == p;
      assert h < k ==> InOrder(s.log, p, w);
    }
  }

  lemma LateDisconnectStatus(u: string, c: Conn, d: Conn, log: seq<Event>)
    requires c != d && log == [Message(u, d), Close(d), Message(u, c)]
    ensures Owns(log, u, c) && StoredStatus(log, [0, 2, 1], u) == Some(Disconnected)
  {
    assert log[..1] == [Message(u, d)];
    assert Claim(log, u, c, 2);
    var w: seq<nat> := [0, 2, 1];
    assert w[..2][..1] == [0] && w[..2][1] == 2;
    assert StoredStatus(log, w[..2], u) == Some(Connected);
  }

  lemma LateConnectStatus(u: string, c: Conn, d: Conn, log: seq<Event>)
    requires c != d && log == [Message(u, c), Message(u, d), Close(d)]
    ensures !Owned(log, u) && StoredStatus(log, [1, 2, 0], u) == Some(Connected)
  {
    assert log[..2] == [Message(u, c), Message(u, d)];
    assert log[..2][1].conn == d;
    assert Ends(log, 2, u);
    forall x, i: nat ensures !Claim(log, u, x, i) {
    }
  }

  /** The connection d ends, c takes its UID over, and d's write comes last: c owns the UID and is stored as
      disconnected. */
  lemma LateDisconnect(u: string, c: Conn, d: Conn) returns (run: seq<Action>, s: State)
    requires c != d
    ensures run == [Locked(Message(u, d)), Write(d, true), Locked(Close(d)), Locked(Message(u, c)), Write(c, true),
      Write(d, true)]
    ensures Settles(run, s, [Message(u, d), Close(d), Message(u, c)])
    ensures Owns(s.log, u, c) && StoredStatus(s.log, s.writes, u) == Some(Disconnected)
  {
    hide StoredStatus, Owns;
    run, s := [], START;
    run, s := AndThen(run, s, Locked(Message(u, d)));
    run, s := AndThen(run, s, Write(d, true));
    run, s := AndThen(run, s, Locked(Close(d)));
    run, s := AndThen(run, s, Locked(Message(u, c)));
    run, s := AndThen(run, s, Write(c, true));
    run, s := AndThen(run, s, Write(d, true));
    assert s.log == [Message(u, d), Close(d), Message(u, c)] && s.writes == [0, 2, 1];
    LateDisconnectStatus(u, c, d, s.log);
  }

  /** The connection c registers, d takes its UID over and ends, and c's write comes last: nobody owns the UID, and it
      is stored as connected. */
  lemma LateConnect(u: string, c: Conn, d: Conn) returns (run: seq<Action>, s: State)
    requires c != d
    ensures run == [Locked(Message(u, c)), Locked(Message(u, d)), Write(d, true), Locked(Close(d)), Write(d, true),
      Write(c, true)]
    ensures Settles(run, s, [Message(u, c), Message(u, d), Close(d)])
    ensures !Owned(s.log, u) && StoredStatus(s.log, s.writes, u) == Some(Connected)
  {
    hide StoredStatus, Owned;
    run, s := [], START;
    run, s := AndThen(run, s, Locked(Message(u, c)));
    run, s := AndThen(run, s, Locked(Message(u, d)));
    run, s := AndThen(run, s, Write(d, true));
    run, s := AndThen(run, s, Locked(Close(d)));
    run, s := AndThen(run, s, Write(d, true));
    run, s := AndThen(run, s, Write(c, true));
    assert s.log == [Message(u, c), Message(u, d), Close(d)] && s.writes == [1, 2, 0];
    LateConnectStatus(u, c, d, s.log);
  }

  // ---------------------------------------------------------------- writes in the order of the locks

  ghost predicate Ascending(writes: seq<nat>) {
    forall i, j :: 0 <= i < j < |writes| ==> writes[i] < writes[j]
  }

  lemma LastIsNewest(run: seq<Action>, s: State, u: string, k: nat, y: nat)
    requires Settles(run, s, s.log) && Ascending(s.writes) && IsLast(s.log, s.writes, u, k) && Bears(s.log, u, y)
    ensures y <= s.writes[k]
  {
    InvRun(run, s);
    BearsHasWrite(s.log, u, y);
    hide Bears, HasWrite, Reaches, AllStored;
    var i :| 0 <= i < |s.writes| && s.writes[i] == y;
  }

  /** An agent stored as connected then has an owner. */
  lemma ConnectedIsOwned(run: seq<Action>, s: State, u: string)
    requires Settles(run, s, s.log) && Ascending(s.writes) && StoredStatus(s.log, s.writes, u) == Some(Connected)
    ensures Owned(s.log, u)
  {
    LastDecides(s.log, s.writes, u);
    hide UidOf, StoredStatus, Settles, Ascending;
    var k: nat :| IsLast(s.log, s.writes, u, k);
    var p := s.writes[k];
    forall j: nat | p < j < |s.log| ensures !(s.log[j].Message? && s.log[j].uid == u) && !Ends(s.log, j, u) {
      if Bears(s.log, u, j) {
        LastIsNewest(run, s, u, k, j);
      }
    }
    assert Claim(s.log, u, s.log[p].conn, p);
    assert Owns(s.log, u, s.log[p].conn);
  }

  /** An agent with an owner is then stored as disconnected exactly when another connection known under its UID ended
      after the owner's last message. */
  lemma OwnedButDisconnected(run: seq<Action>, s: State, u: string, c: Conn, i: nat)
    requires Settles(run, s, s.log) && Ascending(s.writes) && Claim(s.log, u, c, i)
    ensures StoredStatus(s.log, s.writes, u) != Some(Connected) <==>
      exists j: nat :: i < j < |s.log| && s.log[j].conn != c && Ends(s.log, j, u)
  {
    LastDecides(s.log, s.writes, u);
    InvRun(run, s);
    BearsHasWrite(s.log, u, i);
    hide UidOf, StoredStatus, Settles, Ascending, HasWrite;
    var k: nat :| IsLast(s.log, s.writes, u, k);
    LastIsNewest(run, s, u, k, i);
    if j: nat :| i < j < |s.log| && s.log[j].conn != c && Ends(s.log, j, u) {
      LastIsNewest(run, s, u, k, j);
    }
  }

  // ---------------------------------------------------------------- the registry

  class Manager {
    var byUID: map<string, Conn>
    var byConn: map<Conn, string>
    var status: map<string, Status>
    ghost var log: seq<Event>
    ghost var due: map<Conn, nat>
    ghost var writes: seq<nat>
    ghost var run: seq<Action>

    /** Main result: over every interleaving of the locked steps and the writes, byUID holds exactly the owners of the
        history, byConn the UIDs, and the store the status by the writes done. */
    ghost predicate Valid()
      reads this
    {
      && Reaches(run, State(log, due, writes))
      && (forall u, c :: u in byUID && byUID[u] == c <==> Owns(log, u, c))
      && (forall c :: UidOf(log, c) == if c in byConn then Some(byConn[c]) else None)
      && (forall u :: StoredStatus(log, writes, u) == if u in status then Some(status[u]) else None)
    }

    constructor ()
      ensures Valid() && log == [] && due == map[] && writes == []
    {
      byUID, byConn, status := map[], map[], map[];
      log, due, writes, run := [], map[], [], [];
      new;
      assert forall u, c, i: nat :: !Claim(log, u, c, i);
    }

    lemma Event(e: Event)
      requires Valid() && e.conn !in due
      ensures forall u, c :: Owns(log + [e], u, c) <==> OwnsAfter(log, e, u, c)
      ensures forall c :: UidOf(log + [e], c) == UidAfter(log, e, c)
      ensures forall u :: StoredStatus(log + [e], writes, u) == StoredStatus(log, writes, u)
      ensures Reaches(run + [Locked(e)], Step(State(log, due, writes), Locked(e)))
    {
      ReachesStep(run, State(log, due, writes), Locked(e));
      InvRun(run, State(log, due, writes));
      hide *;
      forall u, c ensures Owns(log + [e], u, c) <==> OwnsAfter(log, e, u, c) {
        OwnsStep(log, e, u, c);
      }
      forall c ensures UidOf(log + [e], c) == UidAfter(log, e, c) {
        UidStep(log, e, c);
      }
      forall u ensures StoredStatus(log + [e], writes, u) == StoredStatus(log, writes, u) {
        StoredPrefix(log, e, writes, u);
      }
    }

    lemma Written(uid: string, c: Conn, stored: bool)
      requires Valid() && c in due && Bears(log, uid, due[c])
      ensures Reaches(run + [Write(c, stored)], Step(State(log, due, writes), Write(c, stored)))
      ensures forall u ::
        StoredStatus(log, writes + [due[c]], u) == StatusAfter(log, due[c], u, StoredStatus(log, writes, u))
      ensures forall u :: Bears(log, u, due[c]) <==> u == uid
    {
      ReachesStep(run, State(log, due, writes), Write(c, stored));
      hide Reaches, UidOf;
      assert (writes + [due[c]])[..|writes|] == writes;
    }

    /** registerConn; the caller goes on to TouchAgent. */
    method RegisterConn(uid: string, conn: Conn) returns (isNew: bool)
      requires Valid() && conn !in due
      modifies this
      ensures Valid() && log == old(log) + [Message(uid, conn)] && writes == old(writes) && status == old(status)
      ensures due == old(due)[conn := |old(log)|]
      ensures isNew <==> !Owns(old(log), uid, conn)
    {
      hide UidOf, Owns, StoredStatus, Reaches;
      Event(Message(uid, conn));
      isNew := !(uid in byUID && byUID[uid] == conn);
      byUID := byUID[uid := conn];
      byConn := byConn[conn := uid];
      due := due[conn := |log|];
      log := log + [Message(uid, conn)];
      run := run + [Locked(Message(uid, conn))];
    }

    /** The locked part of onConnectionClose; where it knew the connection, the caller goes on to SetAgentStatus, even
        where a newer connection has taken the UID over. */
    method OnConnectionClose(conn: Conn) returns (closed: Option<string>)
      requires Valid() && conn !in due
      modifies this
      ensures Valid() && log == old(log) + [Close(conn)] && writes == old(writes) && status == old(status)
      ensures closed == UidOf(old(log), conn)
      ensures due == if closed.Some? then old(due)[conn := |old(log)|] else old(due)
      ensures byUID.Keys <= old(byUID).Keys
      ensures forall u :: u in old(byUID) && old(byUID)[u] != conn ==> u in byUID && byUID[u] == old(byUID)[u]
    {
      hide UidOf, Owns, StoredStatus, Reaches;
      Event(Close(conn));
      closed := None;
      if conn in byConn {
        var uid := byConn[conn];
        closed := Some(uid);
        byConn := byConn - {conn};
        if uid in byUID && byUID[uid] == conn {
          byUID := byUID - {uid};
        }
        due := due[conn := |log|];
      }
      log := log + [Close(conn)];
      run := run + [Locked(Close(conn))];
    }

    /** The upsert after a message. */
    method TouchAgent(uid: string, conn: Conn, stored: bool)
      requires Valid() && conn in due && due[conn] < |log| && log[due[conn]] == Message(uid, conn)
      modifies `status, `due, `writes, `run
      ensures Valid() && due == old(due) - {conn}
      ensures writes == if stored then old(writes) + [old(due)[conn]] else old(writes)
    {
      hide UidOf, Owns, StoredStatus, Reaches;
      Written(uid, conn, stored);
      if stored {
        status := status[uid := Connected];
        writes := writes + [due[conn]];
      }
      due := due - {conn};
      run := run + [Write(conn, stored)];
    }

    /** The update after the end of a connection known under uid. */
    method SetAgentStatus(uid: string, conn: Conn, stored: bool)
      requires Valid() && conn in due && due[conn] < |log| && Ends(log, due[conn], uid)
      modifies `status, `due, `writes, `run
      ensures Valid() && due == old(due) - {conn}
      ensures writes == if stored then old(writes) + [old(due)[conn]] else old(writes)
    {
      hide UidOf, Owns, StoredStatus, Reaches;
      Written(uid, conn, stored);
      if stored {
        if uid in status {
          status := status[uid := Disconnected];
        }
        writes := writes + [due[conn]];
      }
      due := due - {conn};
      run := run + [Write(conn, stored)];
    }

    /** The UIDs that have an owner, read from the registry. */
    method ConnectedUids() returns (out: set<string>)
      requires Valid()
      ensures forall u :: u in out <==> Owned(log, u)
    {
      hide Owns, UidOf, StoredStatus, Reaches;
      out := {};
      var rest := byUID.Keys;
      while rest != {}
        invariant rest <= byUID.Keys && out == byUID.Keys - rest
        decreases rest
      {
        var u :| u in rest;
        out, rest := out + {u}, rest - {u};
      }
      forall u ensures u in out <==> Owned(log, u) {
        if u in byUID {
          assert Owns(log, u, byUID[u]);
        }
      }
    }
  }
}
