/**
 * Whose messages HandleMessage gets under an id. The code knows only ids, and gives them out again; when is what comes
 * under a new peer's id the new peer's own?
 */
module Attribution {
  import opened Wrappers
  import opened Wire
  import opened Events
  import opened Relay

  /** Nothing of the session is on its way to HandleMessage's queue any more, and nothing can come. */
  predicate Silent(s: Node, c: Session) {
    !Runs(s, c) && forall k :: 0 <= k < |Underway(s)| ==> Underway(s)[k].session != c
  }

  /** All sessions with the id are silent, but for one. */
  predicate SilentBut(s: Node, id: PeerId, d: Session) {
    forall c :: c in s.sessions && s.sessions[c].peerid == id && c != d ==> Silent(s, c)
  }

  predicate AllSilent(s: Node, id: PeerId) {
    forall c :: c in s.sessions && s.sessions[c].peerid == id ==> Silent(s, c)
  }

  /** All messages with the id in the log, from entry n on, are of session d. */
  predicate Own(log: seq<Told>, n: nat, id: PeerId, d: Session) {
    forall k :: n <= k < |log| && log[k].event.ReadyMessage? && log[k].event.peerid == id ==> log[k].session == d
  }

  /** The action gives out the id again. */
  predicate Reissues(s: Node, a: Action, id: PeerId) {
    a.Manages? && R.Creation(a.event).Some? && s.manager.peerid == id
  }

  /** How it can go on from a state while the id is not given out again. */
  function Onward(s: Node, id: PeerId, more: seq<Action>): Option<Node> {
    if more == [] then Some(s)
    else
      var n := |more| - 1;
      match Onward(s, id, more[..n])
      case None => None
      case Some(t) => if Enabled(t, more[n]) && !Reissues(t, more[n], id) then Some(Step(t, more[n])) else None
  }

  lemma {:induction false} OnwardIsRun(actions: seq<Action>, s: Node, id: PeerId, more: seq<Action>)
    requires Run(actions) == Some(s) && Onward(s, id, more).Some?
    ensures Run(actions + more) == Onward(s, id, more)
    decreases |more|
  {
    if more == [] {
      assert actions + more == actions;
    } else {
      hide Step, Enabled;
      OnwardIsRun(actions, s, id, more[..|more| - 1]);
      assert (actions + more)[..|actions + more| - 1] == actions + more[..|more| - 1];
    }
  }

  // ---- Silent predecessors are enough ----

  lemma StoppedStays(s: Node, a: Action, c: Session)
    requires SameSessions(s) && Enabled(s, a) && c in s.sessions && !Runs(s, c)
    ensures c in Step(s, a).sessions && !Runs(Step(s, a), c)
  {
    SessionsStay(s, a);
    LoopMoves(s, a, c);
    hide R.Step, P.PeerLoopStep, LoopEvent;
  }

  /** Only running loops put messages underway. */
  lemma UnderwayGrows(s: Node, a: Action, k: nat)
    requires Enabled(s, a) && |s.hand| <= 1 && k < |Underway(Step(s, a))|
    ensures (exists j :: 0 <= j < |Underway(s)| && Underway(s)[j] == Underway(Step(s, a))[k])
            || Runs(s, Underway(Step(s, a))[k].session)
  {
    UnderwayMoves(s, a);
    if a.PeerSends? { assert Runs(s, a.sender); }
    hide Step, Underway, Enabled, Runs;
    var t := Underway(Step(s, a))[k];
    if a.ManagerSends? {
      assert Underway(s)[k + 1] == t;
    } else if k < |Underway(s)| {
      assert Underway(s)[k] == t;
    }
  }

  lemma SilentStays(s: Node, a: Action, c: Session)
    requires SameSessions(s) && |s.hand| <= 1 && Enabled(s, a) && c in s.sessions && Silent(s, c)
    ensures c in Step(s, a).sessions && Silent(Step(s, a), c)
  {
    StoppedStays(s, a, c);
    hide Step, Underway, Enabled, Runs;
    var t := Step(s, a);
    forall k | 0 <= k < |Underway(t)| ensures Underway(t)[k].session != c { UnderwayGrows(s, a, k); }
  }

  lemma InvFacts(s: Node)
    requires Inv(s)
    ensures SameSessions(s) && |s.hand| <= 1
    ensures forall k :: 0 <= k < |Underway(s)| ==>
              Underway(s)[k].session in s.sessions && Underway(s)[k].peerid == s.sessions[Underway(s)[k].session].peerid
    ensures s.hand != [] ==> Underway(s) != [] && Underway(s)[0] == s.hand[0]
  {
    hide R.Inv, AllConserved, NewFirst;
  }

  lemma SilentButStays(s: Node, a: Action, id: PeerId, d: Session)
    requires Inv(s) && Enabled(s, a) && !Reissues(s, a, id) && SilentBut(s, id, d)
    ensures SilentBut(Step(s, a), id, d)
  {
    var t := Step(s, a);
    InvFacts(s);
    hide Step, Silent, Inv, Underway, SameSessions;
    forall c | c in t.sessions && t.sessions[c].peerid == id && c != d
      ensures Silent(t, c)
    {
      if c in s.sessions {
        SameId(s, a, c);
        SilentStays(s, a, c);
      } else {
        NewStretch(s, a, c);
      }
    }
  }

  lemma OwnAppend(log: seq<Told>, e: Told, n: nat, id: PeerId, d: Session)
    requires Own(log, n, id, d) && (e.event.ReadyMessage? && e.event.peerid == id ==> e.session == d)
    ensures Own(log + [e], n, id, d)
  {
  }

  /** Of the sessions with the id, PeerManager has in hand what is of d. */
  lemma HandIsOwn(s: Node, id: PeerId, d: Session)
    requires Inv(s) && SilentBut(s, id, d) && s.hand != [] && s.hand[0].peerid == id
    ensures s.hand[0].session == d
  {
    InvFacts(s);
    hide Inv, Underway, Runs;
    var c := s.hand[0].session;
    assert c != d ==> Silent(s, c);
  }

  lemma OwnStays(s: Node, a: Action, n: nat, id: PeerId, d: Session)
    requires Inv(s) && Enabled(s, a) && SilentBut(s, id, d) && Own(s.log, n, id, d)
    ensures Own(Step(s, a).log, n, id, d)
  {
    LogMoves(s, a);
    InvFacts(s);
    hide Step, Inv, Underway, Runs, Enabled, Own;
    if a.ManagerSends? && s.hand[0].peerid == id { HandIsOwn(s, id, d); }
    var t := Step(s, a);
    if t.log != s.log { OwnAppend(s.log, t.log[|s.log|], n, id, d); }
  }

  lemma NothingYet(log: seq<Told>, id: PeerId, d: Session)
    ensures Own(log, |log|, id, d)
  {
  }

  lemma {:induction false} SilenceSuffices(s: Node, id: PeerId, d: Session, more: seq<Action>)
    requires Inv(s) && SilentBut(s, id, d) && Onward(s, id, more).Some?
    ensures var t := Onward(s, id, more).value;
            Inv(t) && SilentBut(t, id, d) && Own(t.log, |s.log|, id, d)
    decreases |more|
  {
    hide Inv, Step, Enabled, SilentBut, Own;
    assert Own(s.log, |s.log|, id, d) by { NothingYet(s.log, id, d); }
    if more != [] {
      var n := |more| - 1;
      SilenceSuffices(s, id, d, more[..n]);
      var t := Onward(s, id, more[..n]).value;
      Relay.StepKeeps(t, more[n]);
      SilentButStays(t, more[n], id, d);
      OwnStays(t, more[n], |s.log|, id, d);
    }
  }

  // ---- And needed ----

  lemma GoOn(s: Node, id: PeerId, before: seq<Action>, t: Node, a: Action) returns (more: seq<Action>, u: Node)
    requires Onward(s, id, before) == Some(t) && Inv(t) && Enabled(t, a) && !a.Manages?
    ensures more == before + [a] && u == Step(t, a) && Onward(s, id, more) == Some(u) && Inv(u)
  {
    hide Step, Inv, Enabled;
    more, u := before + [a], Step(t, a);
    assert more[..|before|] == before;
    Relay.StepKeeps(t, a);
  }

  /** PeerManager passes on the first message underway. */
  lemma PassFirst(s: Node, id: PeerId, before: seq<Action>, t: Node) returns (more: seq<Action>, u: Node)
    requires Onward(s, id, before) == Some(t) && Inv(t) && Underway(t) != []
    ensures Onward(s, id, more) == Some(u) && Inv(u) && Underway(u) == Underway(t)[1..]
    ensures u.log == t.log + [Told(Underway(t)[0].session, ReadyMessage(Underway(t)[0].peerid, Underway(t)[0].message))]
  {
    more, u := before, t;
    if u.hand == [] {
      UnderwayMoves(u, ManagerTakes);
      LogMoves(u, ManagerTakes);
      more, u := GoOn(s, id, more, u, ManagerTakes);
    }
    InvFacts(u);
    hide Inv, Underway, Onward;
    UnderwayMoves(u, ManagerSends);
    LogMoves(u, ManagerSends);
    more, u := GoOn(s, id, more, u, ManagerSends);
  }

  /** It passes on what is underway one by one, and a message of session c at last. */
  lemma {:induction false} PassOn(s: Node, id: PeerId, before: seq<Action>, t: Node, k: nat)
    returns (more: seq<Action>, u: Node)
    requires Onward(s, id, before) == Some(t) && Inv(t) && k < |Underway(t)|
    ensures Onward(s, id, more) == Some(u) && |t.log| < |u.log|
    ensures var e := Underway(t)[k];
            u.log[|u.log| - 1] == Told(e.session, ReadyMessage(e.peerid, e.message))
    decreases k
  {
    hide Inv, Onward, Underway;
    more, u := PassFirst(s, id, before, t);
    if k > 0 {
      more, u := PassOn(s, id, more, u, k - 1);
    }
  }

  /** A loop that runs can put a message underway. */
  lemma PutUnderway(s: Node, id: PeerId, before: seq<Action>, t: Node, c: Session) returns (more: seq<Action>, u: Node)
    requires Onward(s, id, before) == Some(t) && Inv(t) && Runs(t, c)
    ensures Onward(s, id, more) == Some(u) && Inv(u) && u.log == t.log
    ensures Underway(u) != [] && Underway(u)[|Underway(u)| - 1].session == c
    ensures Underway(u)[|Underway(u)| - 1].peerid == t.sessions[c].peerid
  {
    hide Inv, Onward, Underway;
    more, u := before, t;
    if u.sessions[c].hand == [] {
      InvFacts(u);
      UnderwayMoves(u, Emit(c, Verack));
      more, u := GoOn(s, id, more, u, Emit(c, Verack));
      InvFacts(u);
      UnderwayMoves(u, PeerTakes(c));
      more, u := GoOn(s, id, more, u, PeerTakes(c));
    }
    InvFacts(u);
    UnderwayMoves(u, PeerSends(c));
    more, u := GoOn(s, id, more, u, PeerSends(c));
  }

  /** A predecessor that is not silent can still put a message under the new peer's id. */
  lemma NoiseLeaks(s: Node, id: PeerId, d: Session, c: Session) returns (more: seq<Action>)
    requires Inv(s) && c in s.sessions && s.sessions[c].peerid == id && c != d && !Silent(s, c)
    ensures Onward(s, id, more).Some? && !Own(Onward(s, id, more).value.log, |s.log|, id, d)
  {
    hide Inv, Step, Enabled, Underway, Runs;
    var none: seq<Action> := [];
    assert Onward(s, id, none) == Some(s);
    hide Onward;
    var t, k := s, 0;
    more := none;
    if Runs(s, c) {
      more, t := PutUnderway(s, id, none, s, c);
      k := |Underway(t)| - 1;
    } else {
      k :| 0 <= k < |Underway(s)| && Underway(s)[k].session == c;
    }
    hide Silent;
    InvFacts(s);
    var u;
    more, u := PassOn(s, id, more, t, k);
    assert u.log[|u.log| - 1].session != d;
  }

  // ---- Exactly when ----

  lemma CreationFacts(s: Node, e: R.Event)
    requires Inv(s) && Enabled(s, Manages(e)) && R.Creation(e).Some?
    ensures var t, d := Step(s, Manages(e)), R.Creation(e).value.channel;
            d !in s.sessions && t.sessions == s.sessions[d := Stretch(s.manager.peerid, [], [], [], P.START)]
            && Underway(t) == Underway(s)
  {
    R.CreationStep(s.manager, e);
    InvFacts(s);
    UnderwayMoves(s, Manages(e));
    hide Inv, R.Step;
  }

  lemma SameSilence(s: Node, t: Node, c: Session)
    requires c in s.sessions && c in t.sessions && t.sessions[c] == s.sessions[c] && Underway(t) == Underway(s)
    ensures Silent(t, c) <==> Silent(s, c)
  {
    hide Underway;
  }

  lemma SilentButNew(s: Node, t: Node, id: PeerId, d: Session, stretch: Stretch)
    requires d !in s.sessions && t.sessions == s.sessions[d := stretch] && Underway(t) == Underway(s)
    ensures SilentBut(t, id, d) <==> AllSilent(s, id)
  {
    hide Underway, Silent;
    forall c | c in s.sessions ensures Silent(t, c) <==> Silent(s, c) { SameSilence(s, t, c); }
    if SilentBut(t, id, d) {
      forall c | c in s.sessions && s.sessions[c].peerid == id ensures Silent(s, c) {
        assert c in t.sessions && t.sessions[c].peerid == id && c != d;
      }
    }
  }

  /**
   * What HandleMessage is told under a new peer's id is the new peer's own, in whatever way it goes on until the id is
   * given out again, if and only if every earlier session with the id was silent when the peer was created.
   */
  lemma OwnExactly(actions: seq<Action>, e: R.Event)
    requires Run(actions).Some? && Enabled(Run(actions).value, Manages(e)) && R.Creation(e).Some?
    ensures var s := Run(actions).value;
            var id, d := s.manager.peerid, R.Creation(e).value.channel;
            AllSilent(s, id) <==> AlwaysOwn(Step(s, Manages(e)), id, d)
  {
    var s := Run(actions).value;
    RunKeeps(actions);
    Relay.StepKeeps(s, Manages(e));
    CreationFacts(s, e);
    var t, id, d := Step(s, Manages(e)), s.manager.peerid, R.Creation(e).value.channel;
    SilentButNew(s, t, id, d, Stretch(id, [], [], [], P.START));
    hide Inv, Step, Run, Onward, AllSilent;
    if SilentBut(t, id, d) {
      forall more | Onward(t, id, more).Some? ensures Own(Onward(t, id, more).value.log, |t.log|, id, d) {
        SilenceSuffices(t, id, d, more);
      }
    } else {
      var c :| c in t.sessions && t.sessions[c].peerid == id && c != d && !Silent(t, c);
      var more := NoiseLeaks(t, id, d, c);
    }
  }

  ghost predicate AlwaysOwn(s: Node, id: PeerId, d: Session) {
    forall more :: Onward(s, id, more).Some? ==> Own(Onward(s, id, more).value.log, |s.log|, id, d)
  }

  lemma RunMore(actions: seq<Action>, s: Node, a: Action) returns (more: seq<Action>, t: Node)
    requires Run(actions) == Some(s) && Enabled(s, a)
    ensures more == actions + [a] && t == Step(s, a) && Run(more) == Some(t)
    ensures ManagerEvents(more) == ManagerEvents(actions) + ManagerEvent(s, a)
  {
    hide Step, Enabled;
    more, t := actions + [a], Step(s, a);
    assert more[..|actions|] == actions;
  }

  /** The only session's way from its opening, through one message, to the end of its loop. */
  lemma OneMessage(s: Node)
    requires s.sessions == map[0 := Stretch(1, [], [], [], P.START)] && s.shared == [] && s.hand == []
    ensures Enabled(s, Emit(0, Verack))
    ensures var s1 := Step(s, Emit(0, Verack));
            s1 == s.(sessions := map[0 := Stretch(1, [Verack], [Verack], [], P.START)])
            && Enabled(s1, PeerTakes(0))
            && Step(s1, PeerTakes(0)) == s.(sessions := map[0 := Stretch(1, [Verack], [], [Verack], P.START)])
  {
    hide R.Step;
    var p, q := Stretch(1, [Verack], [Verack], [], P.START), Stretch(1, [Verack], [], [Verack], P.START);
    assert [] + [Verack] == [Verack] && [Verack][1..] == [];
    assert s.sessions[0 := p] == map[0 := p];
    assert map[0 := p][0 := q] == map[0 := q];
  }

  lemma OneHandOver(s: Node)
    requires s.sessions == map[0 := Stretch(1, [Verack], [], [Verack], P.START)] && s.shared == [] && s.hand == []
    ensures Enabled(s, PeerSends(0))
    ensures var s1 := Step(s, PeerSends(0));
            s1.shared == [Tagged(0, 1, Verack)] && s1.hand == [] && s1.manager == s.manager
            && s1.sessions == map[0 := Stretch(1, [Verack], [], [], P.PeerLoop([], [Verack], P.Running))]
            && Enabled(s1, PeerSees(0, P.TaskReadCompleted))
            && var s2 := Step(s1, PeerSees(0, P.TaskReadCompleted));
               s2 == s1.(sessions := s2.sessions) && s2.sessions.Keys == {0} && s2.sessions[0].peerid == 1
                   && !Runs(s2, 0)
  {
    hide R.Step;
    var p := Stretch(1, [Verack], [], [], P.PeerLoop([], [Verack], P.Running));
    assert s.sessions[0 := p] == map[0 := p];
    assert [Verack][1..] == [] && [] + [Verack] == [Verack];
  }

  lemma FirstConnection(e: R.Event, c: ConnectionContext)
    requires e == R.Event.IncomingConnection(Some(R.Created(0, 0, c, true)))
    ensures Enabled(START, Manages(e)) && ManagerEvent(START, Manages(e)) == [e]
    ensures var s := Step(START, Manages(e));
            s.manager == R.Step(R.START, e).manager && s.shared == [] && s.hand == []
            && s.sessions == map[0 := Stretch(1, [], [], [], P.START)]
  {
    R.IncomingEffect(R.START, R.Created(0, 0, c, true));
    hide R.Step;
  }

  /** A peer connects, and a message from it is on the shared channel when its loop ends. */
  lemma MessageLeftBehind(e: R.Event, c: ConnectionContext) returns (actions: seq<Action>, s: Node)
    requires e == R.Event.IncomingConnection(Some(R.Created(0, 0, c, true)))
    ensures Run(actions) == Some(s) && ManagerEvents(actions) == [e]
    ensures s.manager == R.Step(R.START, e).manager
    ensures s.hand == [] && s.shared == [Tagged(0, 1, Verack)]
    ensures s.sessions.Keys == {0} && s.sessions[0].peerid == 1 && !Runs(s, 0)
  {
    actions, s := [], START;
    assert Run(actions) == Some(s) && ManagerEvents(actions) == [];
    hide R.Step, Run, ManagerEvents, Step, Enabled, Runs;
    FirstConnection(e, c);
    actions, s := RunMore(actions, s, Manages(e));
    OneMessage(s);
    actions, s := RunMore(actions, s, Emit(0, Verack));
    actions, s := RunMore(actions, s, PeerTakes(0));
    OneHandOver(s);
    actions, s := RunMore(actions, s, PeerSends(0));
    actions, s := RunMore(actions, s, PeerSees(0, P.TaskReadCompleted));
  }

  /** The peer's end is taken note of before its message. */
  lemma JoinBefore(s: Node, e: R.Event, c: ConnectionContext)
    requires e == R.Event.IncomingConnection(Some(R.Created(0, 0, c, true)))
    requires s.manager == R.Step(R.START, e).manager && s.hand == [] && s.shared == [Tagged(0, 1, Verack)]
    requires s.sessions.Keys == {0} && s.sessions[0].peerid == 1 && !Runs(s, 0)
    ensures var a := Manages(R.Joined(0, R.PeerError, true));
            && Enabled(s, a) && ManagerEvent(s, a) == [a.event] && R.InStackOrder(s.manager, a.event)
            && var t := Step(s, a);
               t.manager.tasks == map[] && t.manager.peerid == 1 && t.manager.channels.Keys == {0}
               && t.hand == [] && t.shared == [Tagged(0, 1, Verack)]
  {
    R.IncomingEffect(R.START, R.Created(0, 0, c, true));
    R.JoinedEffect(s.manager, 0);
    hide R.Step;
  }

  /** The next connection is given the same id. */
  lemma SecondConnection(s: Node, e: R.Event, c: ConnectionContext)
    requires e == R.Event.IncomingConnection(Some(R.Created(1, 1, c, true)))
    requires s.manager.tasks == map[] && s.manager.peerid == 1 && s.manager.channels.Keys == {0} && s.hand == []
    ensures Enabled(s, Manages(e)) && ManagerEvent(s, Manages(e)) == [e]
    ensures R.Enabled(s.manager, e) && R.InStackOrder(s.manager, e)
    ensures var t := Step(s, Manages(e));
            && t.hand == [] && t.shared == s.shared && |t.log| == |s.log| + 1
            && t.log[|s.log|] == Told(1, IncidentNewConnection(1, c.(typeConnect := IncomingConnection)))
  {
    R.IncomingEffect(s.manager, R.Created(1, 1, c, true));
    hide R.Step;
  }

  /** PeerManager passes on what it has in hand. */
  lemma Passed(s: Node, e: Tagged)
    requires s.hand == [] && s.shared == [e]
    ensures Enabled(s, ManagerTakes) && ManagerEvent(s, ManagerTakes) == []
    ensures var t := Step(s, ManagerTakes);
            && Enabled(t, ManagerSends) && ManagerEvent(t, ManagerSends) == [R.PeerMessage(e.peerid, e.message, true)]
            && Step(t, ManagerSends).log == s.log + [Told(e.session, ReadyMessage(e.peerid, e.message))]
  {
    var t := Step(s, ManagerTakes);
    LogMoves(t, ManagerSends);
    hide R.Step;
  }

  /** One more action of a run in stack order, which is an event for PeerManager or none. */
  lemma StackMore(actions: seq<Action>, s: Node, a: Action) returns (more: seq<Action>, t: Node)
    requires Run(actions) == Some(s) && Enabled(s, a)
    requires R.Run(ManagerEvents(actions)).Some? && R.StackRun(ManagerEvents(actions))
    requires var es := ManagerEvent(s, a);
             es == [] || (|es| == 1 && R.Enabled(s.manager, es[0]) && R.InStackOrder(s.manager, es[0]))
    ensures t == Step(s, a) && Run(more) == Some(t)
    ensures R.Run(ManagerEvents(more)).Some? && R.StackRun(ManagerEvents(more))
  {
    hide Step, Enabled, ManagerEvent, R.Step, R.Enabled, R.InStackOrder;
    more, t := RunMore(actions, s, a);
    RunsRegistry(actions);
    RunsRegistry(more);
    var es, added := ManagerEvents(actions), ManagerEvent(s, a);
    if added == [] {
      assert es + added == es;
    } else {
      assert (es + added)[..|es|] == es;
    }
  }

  /** The log ends with the announcement of session 1 under id 1, and a message of session 0 under the same id. */
  predicate EndsLate(log: seq<Told>, c: ConnectionContext) {
    && |log| >= 2
    && log[|log| - 2] == Told(1, IncidentNewConnection(1, c.(typeConnect := IncomingConnection)))
    && log[|log| - 1] == Told(0, ReadyMessage(1, Verack))
  }

  /** The peer is joined in stack order, with its message left. */
  lemma JoinedBehind(c: ConnectionContext) returns (actions: seq<Action>, s: Node)
    ensures Run(actions) == Some(s) && R.Run(ManagerEvents(actions)).Some? && R.StackRun(ManagerEvents(actions))
    ensures s.manager.tasks == map[] && s.manager.peerid == 1 && s.manager.channels.Keys == {0}
    ensures s.hand == [] && s.shared == [Tagged(0, 1, Verack)]
  {
    var e := R.Event.IncomingConnection(Some(R.Created(0, 0, c, true)));
    var j := R.Joined(0, R.PeerError, true);
    hide Run, ManagerEvents, Step, Enabled, Runs, R.StackRun, R.Run, R.Step, R.InStackOrder, ManagerEvent;
    actions, s := MessageLeftBehind(e, c);
    StackOfFirst(e, c);
    JoinBefore(s, e, c);
    actions, s := StackMore(actions, s, Manages(j));
  }

  lemma StackOfFirst(e: R.Event, c: ConnectionContext)
    requires e == R.Event.IncomingConnection(Some(R.Created(0, 0, c, true)))
    ensures R.Run([e]).Some? && R.StackRun([e])
  {
    R.IncomingEffect(R.START, R.Created(0, 0, c, true));
    StackOfOne(e);
    hide R.Step;
  }

  /**
   * A run in stack order in which a message that a joined peer left on the shared channel is passed to HandleMessage
   * behind the announcement of the next peer, which has been given the same id.
   */
  lemma LateMessage(c: ConnectionContext) returns (actions: seq<Action>)
    ensures Run(actions).Some? && R.Run(ManagerEvents(actions)).Some? && R.StackRun(ManagerEvents(actions))
    ensures EndsLate(Run(actions).value.log, c)
  {
    var n := R.Event.IncomingConnection(Some(R.Created(1, 1, c, true)));
    hide ManagerEvent, R.InStackOrder, LogIsQueue;
    hide Run, ManagerEvents, Step, Enabled, Runs, R.StackRun, R.Run, R.Step, R.Enabled;
    var s;
    actions, s := JoinedBehind(c);
    SecondConnection(s, n, c);
    assert ManagerEvent(s, Manages(n))[0] == n;
    actions, s := StackMore(actions, s, Manages(n));
    var log := s.log;
    actions, s := PassLast(actions, s, Tagged(0, 1, Verack));
    assert s.log[..|log|] == log;
    assert EndsLate(s.log, c);
  }

  /** PeerManager passes on the only message underway. */
  lemma PassLast(actions: seq<Action>, s: Node, e: Tagged) returns (more: seq<Action>, t: Node)
    requires Run(actions) == Some(s) && s.hand == [] && s.shared == [e]
    requires R.Run(ManagerEvents(actions)).Some? && R.StackRun(ManagerEvents(actions))
    ensures Run(more) == Some(t) && R.Run(ManagerEvents(more)).Some? && R.StackRun(ManagerEvents(more))
    ensures t.log == s.log + [Told(e.session, ReadyMessage(e.peerid, e.message))]
  {
    hide Run, ManagerEvents, Step, Enabled, Runs, R.StackRun, R.Run, R.Step, ManagerEvent, R.InStackOrder;
    Passed(s, e);
    more, t := StackMore(actions, s, ManagerTakes);
    MessageKeepsOrder(t.manager, R.PeerMessage(e.peerid, e.message, true));
    more, t := StackMore(more, t, ManagerSends);
  }

  lemma MessageKeepsOrder(m: R.Manager, e: R.Event)
    requires e.PeerMessage?
    ensures R.Enabled(m, e) && R.InStackOrder(m, e)
  {
  }

  lemma StackOfOne(e: R.Event)
    requires !e.Joined? && R.Enabled(R.START, e) && R.Step(R.START, e).left.None?
    ensures R.Run([e]).Some? && R.StackRun([e])
  {
    hide R.Step;
    assert [e][..0] == [];
    assert R.StackRun([]);
  }
}
