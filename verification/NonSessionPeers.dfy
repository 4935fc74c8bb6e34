/** How the handler works through its peers: order, completion, signals, and where it gets stuck. */
module NonSessionPeers {
  import opened Wrappers
  import opened PeerMaps
  import opened NonSessions
  import opened NonSessionRuns
  import opened NonSessionOrder

  /** The peers whose signal lists have ended, in that order. */
  function CompletedIds(trace: seq<Mark>): seq<string> {
    if trace == [] then []
    else
      var m := trace[|trace| - 1];
      var earlier := CompletedIds(trace[..|trace| - 1]);
      if m.Completed? then earlier + [m.done] else earlier
  }

  lemma {:induction false} CompletedAppend(a: seq<Mark>, b: seq<Mark>)
    ensures CompletedIds(a + b) == CompletedIds(a) + CompletedIds(b)
    decreases |b|
  {
    if b == [] {
      assert a + b == a;
    } else {
      CompletedAppend(a, b[..|b| - 1]);
      assert (a + b)[..|a + b| - 1] == a + b[..|b| - 1];
    }
  }

  lemma {:induction false} NoneCompleted(marks: seq<Mark>)
    requires forall m :: m in marks ==> !m.Completed?
    ensures CompletedIds(marks) == []
  {
    if marks != [] { NoneCompleted(marks[..|marks| - 1]); }
  }

  /** The current peer is the first unfinished one: its rank is the number of finished peers. */
  predicate Pending(s: Session) {
    && s.handshakedPeers < |s.peers|
    && s.current == Some(s.peers[s.handshakedPeers].id)
  }

  /** The current peer is the last finished one, or there is none of either. */
  predicate Finished(s: Session) {
    && s.handshakedPeers <= |s.peers|
    && s.current == if s.handshakedPeers == 0 then None else Some(s.peers[s.handshakedPeers - 1].id)
  }

  predicate InOrder(s: Session) {
    && Sorted(s.peers)
    && s.handshakedPeers <= |s.peers|
    && CompletedIds(s.trace) == Ids(s.peers[..s.handshakedPeers])
    && (s.state == PeerAwaitSignalList ==> Pending(s))
    && (s.state == Failed ==> Pending(s) || Finished(s))
    && (s.state != PeerAwaitSignalList && s.state != Failed ==> Finished(s))
  }

  lemma PendingOrFinished(s: Session)
    requires Sorted(s.peers)
    ensures !(Pending(s) && Finished(s))
  {
    if Pending(s) && Finished(s) {
      IdsAreDistinct(s.peers, s.handshakedPeers, s.handshakedPeers - 1);
    }
  }

  /** What keeps the order: no start while a peer is pending, and no hello from before the current peer. */
  predicate Orderly(s: Session, m: Message) {
    match m
    case StartSession => !Pending(s)
    case PeerHello(id) => s.current.Some? ==> Less(s.current.value, id)
    case _ => true
  }

  lemma AdvanceIsNextPeer(s: Session)
    requires Sorted(s.peers) && Finished(s) && s.handshakedPeers < |s.peers|
    ensures Advance(s) == Some(s.peers[s.handshakedPeers].id)
  {
    if s.handshakedPeers > 0 { NextIsSuccessor(s.peers, s.handshakedPeers - 1); }
  }

  lemma OpeningCompletesNobody(e: Session)
    ensures CompletedIds(Opening(e)) == []
  {
    hide Greets;
    NoneCompleted(Opening(e));
  }

  lemma RestCompletesNobody(e: Session)
    ensures CompletedIds(Rested(e).trace) == CompletedIds(e.trace)
  {
    hide RestState;
    hide RestPeer;
    hide Opening;
    OpeningCompletesNobody(e);
    CompletedAppend(e.trace + Opening(e), Asking(e));
    CompletedAppend(e.trace, Opening(e));
    NoneCompleted(Asking(e));
  }

  lemma RestPosition(e: Session)
    requires InOrder(e)
    ensures RestState(e) == PeerAwaitSignalList ==>
              e.handshakedPeers < |e.peers| && RestPeer(e) == Some(e.peers[e.handshakedPeers].id)
    ensures RestState(e) != PeerAwaitSignalList ==>
              RestPeer(e) == e.current && (RestState(e) == Failed <==> e.state == Failed)
  {
    if e.state != PeerAwaitSignalList && RestState(e) == PeerAwaitSignalList { AdvanceIsNextPeer(e); }
  }

  /** Running the machine on an ordered session keeps it ordered and never leaves the map. */
  lemma RestIsInOrder(e: Session)
    requires InOrder(e)
    ensures Step(e) == Ok(Rested(e)) && InOrder(Rested(e))
  {
    hide Step;
    hide RestState;
    hide RestPeer;
    hide Opening;
    StepInClosedForm(e);
    RestCompletesNobody(e);
    RestPosition(e);
    assert e.state == PeerAwaitSignalList ==> RestState(e) == PeerAwaitSignalList by { RestOfWaiting(e); }
  }

  lemma RestOfWaiting(e: Session)
    ensures e.state == PeerAwaitSignalList ==> RestState(e) == PeerAwaitSignalList
  {
  }

  lemma LogKeepsOrder(s: Session, m: Mark)
    requires InOrder(s) && !m.Completed?
    ensures InOrder(Logged(s, m))
  {
    CompletedAppend(s.trace, [m]);
    NoneCompleted([m]);
  }

  /** A new peer that sorts after the current one leaves everything up to the current one in place. */
  lemma EmplaceBehind(s: Session, id: string)
    requires InOrder(s) && !Known(s.peers, id) && s.current.Some? && Less(s.current.value, id)
    ensures var k := if Pending(s) then s.handshakedPeers else s.handshakedPeers - 1;
            var r := Emplace(s.peers, Peer(id, []));
            k < |r| && r[..k + 1] == s.peers[..k + 1]
  {
    hide Emplace;
    EmplaceShifts(s.peers, Peer(id, []), if Pending(s) then s.handshakedPeers else s.handshakedPeers - 1);
    assert |Emplace(s.peers, Peer(id, []))| == |s.peers| + 1 by { EmplaceAddsOne(s.peers, Peer(id, [])); }
  }

  lemma EmplaceKeepsOrder(s: Session, id: string)
    requires InOrder(s) && !Known(s.peers, id) && Orderly(s, PeerHello(id))
    ensures InOrder(s.(peers := Emplace(s.peers, Peer(id, []))))
  {
    hide Emplace;
    var p := Peer(id, []);
    EmplaceKeepsSorted(s.peers, p);
    EmplaceAddsOne(s.peers, p);
    if s.current.Some? {
      EmplaceBehind(s, id);
      var k := if Pending(s) then s.handshakedPeers else s.handshakedPeers - 1;
      var r := Emplace(s.peers, p);
      assert r[k] == r[..k + 1][k] == s.peers[k];
      assert r[..s.handshakedPeers] == r[..k + 1][..s.handshakedPeers] == s.peers[..s.handshakedPeers];
    }
  }

  lemma ListEndKeepsOrder(s: Session)
    requires InOrder(s)
    ensures OnListEnd(s).Ok? && InOrder(OnListEnd(s).session)
  {
    if s.state == PeerAwaitSignalList {
      var id := s.current.value;
      CompletedAppend(s.trace, [Completed(id)]);
      assert [Completed(id)][..0] == [];
      assert CompletedIds([Completed(id)]) == [id];
      assert s.peers[..s.handshakedPeers + 1] == s.peers[..s.handshakedPeers] + [s.peers[s.handshakedPeers]];
      assert Ids(s.peers[..s.handshakedPeers + 1]) == Ids(s.peers[..s.handshakedPeers]) + [id];
    }
  }

  lemma SignalKeepsOrder(s: Session, signal: Signal)
    requires InOrder(s) && s.current.Some?
    ensures OnSignal(s, signal).Ok? && InOrder(OnSignal(s, signal).session)
  {
    var r := Register(s.peers, s.current.value, signal);
    assert Ids(r[..s.handshakedPeers]) == Ids(s.peers[..s.handshakedPeers]);
  }

  /** The only messages an ordered session cannot take. */
  predicate Refused(s: Session, m: Message) {
    || (m.PeerHello? && Known(s.peers, m.id))
    || (m.SignalReply? && (m.path != OSC_SIGNAL_LIST || s.current.None?))
  }

  lemma EntryIsInOrder(s: Session, m: Message)
    requires Consistent(s) && InOrder(s) && Orderly(s, m) && Entry(s, m).Some?
    ensures InOrder(Entry(s, m).value)
  {
    match m
    case AnnounceReply(path, capabilities) =>
      if IsAcceptance(s, m) { LogKeepsOrder(s.(handshakeComplete := true), Accepted); }
    case Open(id, true) => LogKeepsOrder(s.(clientId := id, projectOpened := true), OpenReply);
    case PeerHello(id) => EmplaceKeepsOrder(s, id);
    case _ =>
  }

  lemma OrderlyRunningStep(s: Session, m: Message)
    requires Consistent(s) && InOrder(s) && Orderly(s, m) && Entry(s, m).Some?
    ensures Handle(s, m).Ok? && InOrder(Handle(s, m).session)
  {
    hide Step;
    hide RestState;
    hide RestPeer;
    hide InOrder;
    EntryIsInOrder(s, m);
    RestIsInOrder(Entry(s, m).value);
    EntryRuns(s, m);
  }

  lemma OrderlyOtherStep(s: Session, m: Message)
    requires Consistent(s) && InOrder(s) && Orderly(s, m) && Entry(s, m).None?
    ensures Handle(s, m).Ok? <==> !Refused(s, m)
    ensures Handle(s, m).Ok? ==> InOrder(Handle(s, m).session)
  {
    hide InOrder;
    match m
    case Reply(path) => ListEndKeepsOrder(s);
    case SignalReply(path, signal) => if s.current.Some? { SignalKeepsOrder(s, signal); }
    case Open(id, _) => FailedOpenKeepsOrder(s, id);
    case Save => LogKeepsOrder(s, SaveReply);
    case SignalListQuery => LogKeepsOrder(s, OwnSignals);
    case _ =>
  }

  lemma FailedOpenKeepsOrder(s: Session, id: string)
    requires InOrder(s)
    ensures InOrder(Logged(s.(clientId := id, state := Failed), OpenError))
  {
    LogKeepsOrder(s.(clientId := id, state := Failed), OpenError);
  }

  /**
   An orderly message keeps the order of peers, and is handled without ever leaving the map or
   failing an assertion unless it is one of the refused ones.
   */
  lemma OrderlyStep(s: Session, m: Message)
    requires Consistent(s) && InOrder(s) && Orderly(s, m)
    ensures Handle(s, m).Ok? <==> !Refused(s, m)
    ensures Handle(s, m).Ok? ==> InOrder(Handle(s, m).session)
  {
    if Entry(s, m).Some? { OrderlyRunningStep(s, m); } else { OrderlyOtherStep(s, m); }
  }

  // ---- Exactly which messages break the order, and which of them leave the map ----

  /** The position of the current peer in the map. */
  function CurrentIndex(s: Session): int {
    if Pending(s) then s.handshakedPeers else s.handshakedPeers - 1
  }

  /** A fresh hello from before the current peer moves that peer one place up. */
  lemma LateHelloShifts(s: Session, id: string)
    requires InOrder(s) && s.current.Some? && !Known(s.peers, id) && !Less(s.current.value, id)
    ensures var r, k := Emplace(s.peers, Peer(id, [])), CurrentIndex(s);
            && Sorted(r) && |r| == |s.peers| + 1 && 0 <= k < |s.peers|
            && r[k + 1] == s.peers[k] && s.current == Some(r[k + 1].id) && Less(id, s.current.value)
  {
    hide Emplace;
    var p := Peer(id, []);
    EmplaceShifts(s.peers, p, CurrentIndex(s));
    EmplaceKeepsSorted(s.peers, p);
    EmplaceAddsOne(s.peers, p);
  }

  /** So that peer, its successor or the list of finished peers is out of turn. */
  lemma LateHelloMisplaces(s: Session, id: string)
    requires Consistent(s) && InOrder(s) && s.current.Some? && !Known(s.peers, id) && !Less(s.current.value, id)
    ensures Handle(s, PeerHello(id)).Ok? ==> !InOrder(Handle(s, PeerHello(id)).session)
  {
    hide Step;
    hide Handle;
    hide Emplace;
    hide RestState;
    hide RestPeer;
    var e := s.(peers := Emplace(s.peers, Peer(id, [])));
    assert Entry(s, PeerHello(id)) == Some(e);
    EntryRuns(s, PeerHello(id));
    LateHelloShifts(s, id);
    PendingOrFinished(s);
    if s.state == Running || s.state == PeerAwaitSignalList {
      OutOfTurn(e, CurrentIndex(s) + 1);
    } else {
      RestsWithoutAsking(e);
      FinishedDiffer(s, e);
    }
  }

  lemma RestsWithoutAsking(e: Session)
    requires Consistent(e) && e.state != Running && e.state != PeerAwaitSignalList
    ensures Rested(e).state == e.state && Rested(e).current == e.current
  {
    hide Opening;
  }

  /** At rest outside the exchange, a shifted current peer contradicts the rank of the finished ones. */
  lemma FinishedDiffer(s: Session, e: Session)
    requires Consistent(s) && InOrder(s) && s.state != Running && s.state != PeerAwaitSignalList
    requires s.current.Some? && e == s.(peers := e.peers) && Sorted(e.peers) && |e.peers| == |s.peers| + 1
    requires var k := CurrentIndex(s); 0 <= k < |s.peers| && e.peers[k + 1] == s.peers[k]
    requires Rested(e).state == e.state && Rested(e).current == e.current
    ensures !InOrder(Rested(e))
  {
    hide Opening;
    hide RestState;
    hide RestPeer;
    var h, k := s.handshakedPeers, CurrentIndex(s);
    RestCompletesNobody(e);
    LessIsStrict(e.peers[k].id, e.peers[k + 1].id);
    if k == h {
      if h > 0 { LessIsStrict(e.peers[h - 1].id, e.peers[h + 1].id); }
    } else {
      assert Ids(s.peers[..h])[h - 1] != Ids(e.peers[..h])[h - 1];
    }
  }

  lemma OutOfTurn(e: Session, i: nat)
    requires Sorted(e.peers) && i < |e.peers| && e.current == Some(e.peers[i].id)
    requires (e.state == PeerAwaitSignalList && e.handshakedPeers + 1 == i)
          || (e.state == Running && e.handshakedPeers == i)
    ensures RestState(e) == PeerAwaitSignalList && !Pending(Rested(e))
  {
    hide Opening;
    hide Next;
    var h := e.handshakedPeers;
    if e.state == PeerAwaitSignalList {
      LessIsStrict(e.peers[h].id, e.peers[i].id);
    } else {
      NextIsSuccessor(e.peers, i);
      if i + 1 < |e.peers| { LessIsStrict(e.peers[i].id, e.peers[i + 1].id); }
    }
  }

  /** A fresh hello keeps the order exactly when it sorts after the current peer. */
  lemma HelloKeepsOrderIff(s: Session, id: string)
    requires Consistent(s) && InOrder(s) && s.current.Some? && !Known(s.peers, id)
    ensures Handle(s, PeerHello(id)).Ok? && InOrder(Handle(s, PeerHello(id)).session) <==> Less(s.current.value, id)
  {
    hide Handle;
    hide InOrder;
    if Less(s.current.value, id) { OrderlyStep(s, PeerHello(id)); } else { LateHelloMisplaces(s, id); }
  }

  /** Restarting moves the iterator past a pending peer, or leaves it pending before the handshake. */
  lemma RestartMisplaces(e: Session)
    requires Sorted(e.peers) && Pending(e)
    requires e.state == HelloStart || (e.state == HandshakeStart && !e.handshakeComplete)
    ensures !InOrder(Rested(e))
  {
    hide Opening;
    hide Next;
    hide CompletedIds;
    hide Ids;
    hide Asking;
    var h := e.handshakedPeers;
    if e.state == HelloStart {
      NextIsSuccessor(e.peers, h);
      if h + 1 < |e.peers| { LessIsStrict(e.peers[h].id, e.peers[h + 1].id); }
    } else {
      PendingOrFinished(e);
    }
  }

  /** A start keeps the order exactly when no peer is pending; otherwise it skips that peer. */
  lemma StartKeepsOrderIff(s: Session)
    requires Consistent(s) && InOrder(s)
    ensures Handle(s, StartSession).Ok? && InOrder(Handle(s, StartSession).session) <==> !Pending(s)
  {
    if !Pending(s) {
      OrderlyStep(s, StartSession);
    } else {
      hide Handle;
      hide Rested;
      EntryRuns(s, StartSession);
      RestartMisplaces(Entry(s, StartSession).value);
    }
  }

  /** Any message at all keeps the order exactly when it is orderly and not refused. */
  lemma OrderKeptIff(s: Session, m: Message)
    requires Consistent(s) && InOrder(s)
    ensures Handle(s, m).Ok? && InOrder(Handle(s, m).session) <==> Orderly(s, m) && !Refused(s, m)
  {
    hide Step;
    hide InOrder;
    if Orderly(s, m) {
      OrderlyStep(s, m);
    } else if m == StartSession {
      StartKeepsOrderIff(s);
    } else if !Known(s.peers, m.id) {
      HelloKeepsOrderIff(s, m.id);
    }
  }

  /** A start while the list of the last peer is pending, after a completed handshake. */
  predicate RestartsBehindLast(s: Session, m: Message) {
    m == StartSession && s.handshakeComplete && Pending(s) && s.handshakedPeers + 1 == |s.peers|
  }

  /** A fresh hello from before the last peer, after all known peers have finished. */
  predicate JoinsBeforeLast(s: Session, m: Message) {
    && m.PeerHello? && !Known(s.peers, m.id)
    && s.state == Running && s.handshakedPeers == |s.peers| > 0
    && Less(m.id, s.peers[|s.peers| - 1].id)
  }

  /** Once behind the last peer, the machine has nobody to ask and dereferences the end. */
  lemma AskingBehindLast(e: Session, i: nat)
    requires Sorted(e.peers) && i < |e.peers| && e.current == Some(e.peers[i].id) && e.handshakedPeers <= i
    requires e.state == HelloStart || e.state == Running
    ensures RestOutcome(e) == Faulted(EndDereferenced) <==> i + 1 == |e.peers|
  {
    hide Opening;
    hide Next;
    NextIsSuccessor(e.peers, i);
  }

  lemma LeavesMapOnStart(s: Session)
    requires Consistent(s) && InOrder(s)
    ensures Handle(s, StartSession) == Faulted(EndDereferenced) <==> RestartsBehindLast(s, StartSession)
  {
    hide Handle;
    hide InOrder;
    hide Opening;
    if !Pending(s) {
      OrderlyStep(s, StartSession);
    } else {
      EntryRuns(s, StartSession);
      assert Sorted(s.peers) by { OrderIsSorted(s); }
      if s.handshakeComplete { AskingBehindLast(Entry(s, StartSession).value, s.handshakedPeers); }
    }
  }

  lemma OrderIsSorted(s: Session)
    requires InOrder(s)
    ensures Sorted(s.peers)
  {
  }

  lemma LeavesMapOnHello(s: Session, id: string)
    requires Consistent(s) && InOrder(s) && !Known(s.peers, id)
    ensures Handle(s, PeerHello(id)) == Faulted(EndDereferenced) <==> JoinsBeforeLast(s, PeerHello(id))
  {
    hide Handle;
    hide Emplace;
    hide Opening;
    var m := PeerHello(id);
    if Orderly(s, m) {
      OrderlyStep(s, m);
      if JoinsBeforeLast(s, m) { LessIsStrict(id, s.peers[|s.peers| - 1].id); }
    } else {
      var e := s.(peers := Emplace(s.peers, Peer(id, [])));
      assert Entry(s, m) == Some(e) && Consistent(e) by { EmplaceAddsOne(s.peers, Peer(id, [])); }
      EntryRuns(s, m);
      LateHelloShifts(s, id);
      PendingOrFinished(s);
      if s.state == Running {
        AskingBehindLast(e, s.handshakedPeers);
      }
    }
  }

  /**
   Exactly two messages make an ordered session dereference the end of the peer map: a restart while
   the last peer is awaited, and a peer that joins after all others have finished and sorts before the
   last of them.
   */
  lemma LeavesMapExactlyWhen(s: Session, m: Message)
    requires Consistent(s) && InOrder(s)
    ensures Handle(s, m) == Faulted(EndDereferenced) <==> RestartsBehindLast(s, m) || JoinsBeforeLast(s, m)
  {
    hide Step;
    hide InOrder;
    if m == StartSession {
      LeavesMapOnStart(s);
    } else if m.PeerHello? && !Known(s.peers, m.id) {
      LeavesMapOnHello(s, m.id);
    } else if Entry(s, m).Some? {
      OrderlyStep(s, m);
    }
  }

  // ---- Orderly runs ----

  /** Every message finds the session in a state where it keeps the order. */
  predicate OrderlyRun(messages: seq<Message>) {
    messages == [] ||
    (var earlier := messages[..|messages| - 1];
     OrderlyRun(earlier) && Run(NEW_SESSION, earlier).Ok?
     && Orderly(Run(NEW_SESSION, earlier).session, messages[|messages| - 1]))
  }

  /**
   In an orderly run peers complete in the order of their ids, each once, without gaps: the finished
   ones are the first handshakedPeers entries of the map, and while a list is awaited the iterator is
   at the next entry. A run can only end at a refused message.
   */
  lemma {:induction false} PeersCompleteInOrder(messages: seq<Message>)
    requires OrderlyRun(messages)
    ensures match Run(NEW_SESSION, messages)
            case Ok(s) => InOrder(s)
            case Faulted(f) => f == AssertionFailed
    ensures Run(NEW_SESSION, messages).Ok? <==>
              messages == [] ||
              !Refused(Run(NEW_SESSION, messages[..|messages| - 1]).session, messages[|messages| - 1])
  {
    if messages != [] {
      hide Step;
      var earlier, m := messages[..|messages| - 1], messages[|messages| - 1];
      PeersCompleteInOrder(earlier);
      RunIsConsistent(earlier);
      OrderlyStep(Run(NEW_SESSION, earlier).session, m);
      if Entry(Run(NEW_SESSION, earlier).session, m).Some? { OrderlyRunningStep(Run(NEW_SESSION, earlier).session, m); }
    }
  }

  /** Every peer that says hello while another is current sorts behind it. */
  predicate HellosSortBehind(messages: seq<Message>) {
    messages == [] ||
    (var earlier, m := messages[..|messages| - 1], messages[|messages| - 1];
     && HellosSortBehind(earlier)
     && (m.PeerHello? && Run(NEW_SESSION, earlier).Ok? ==> Orderly(Run(NEW_SESSION, earlier).session, m)))
  }

  lemma {:induction false} SingleStartIsOrderly(messages: seq<Message>)
    requires Starts(messages) <= 1 && HellosSortBehind(messages)
    requires messages != [] ==> Run(NEW_SESSION, messages[..|messages| - 1]).Ok?
    ensures OrderlyRun(messages)
  {
    if messages != [] {
      hide Handle;
      var earlier, m := messages[..|messages| - 1], messages[|messages| - 1];
      SingleStartIsOrderly(earlier);
      if m == StartSession { NothingBeforeStart(earlier); }
    }
  }

  /**
   With a single start and hellos that sort behind the current peer, every run keeps the order: while
   a signal list is awaited the iterator names the peer whose rank is handshakedPeers, and the peers
   whose lists have ended are the first handshakedPeers of the map, in order.
   */
  lemma SingleStartKeepsPeersInOrder(messages: seq<Message>)
    requires Starts(messages) <= 1 && HellosSortBehind(messages) && Run(NEW_SESSION, messages).Ok?
    ensures var s := Run(NEW_SESSION, messages).session;
            && InOrder(s)
            && (s.state == PeerAwaitSignalList ==>
                  s.handshakedPeers < |s.peers| && s.current == Some(s.peers[s.handshakedPeers].id))
            && CompletedIds(s.trace) == Ids(s.peers[..s.handshakedPeers])
  {
    SingleStartIsOrderly(messages);
    PeersCompleteInOrder(messages);
  }

  // ---- Two concrete runs ----

  /** Started, accepted and opened, with no peer yet. */
  const GREETED := NEW_SESSION.(
    state := Running, handshakeComplete := true, projectOpened := true,
    trace := [Announce, Accepted, OpenReply, Hello("")])

  lemma RunMore(messages: seq<Message>, m: Message)
    ensures Run(NEW_SESSION, messages + [m])
         == match Run(NEW_SESSION, messages) case Faulted(f) => Faulted(f) case Ok(s) => Handle(s, m)
  {
    assert (messages + [m])[..|messages|] == messages;
  }

  const GREETING: seq<Message> := [StartSession, AnnounceReply(NSM_ANNOUNCE, REQUIRED_CAPABILITY), Open("", true)]

  lemma GreetingRuns()
    ensures Run(NEW_SESSION, GREETING) == Ok(GREETED)
  {
    hide Step;
    hide Handle;
    var reply, open := AnnounceReply(NSM_ANNOUNCE, REQUIRED_CAPABILITY), Open("", true);
    var s1 := NEW_SESSION.(state := HandshakeAwaitReply, trace := [Announce]);
    var s2 := s1.(state := SessionAwaitOpen, handshakeComplete := true, trace := [Announce, Accepted]);
    assert Handle(NEW_SESSION, StartSession) == Ok(s1) by {
      EntryRuns(NEW_SESSION, StartSession);
      assert [] + ([Announce] + []) == [Announce];
    }
    assert Handle(s1, reply) == Ok(s2) by {
      assert OccursAt(REQUIRED_CAPABILITY, REQUIRED_CAPABILITY, 0);
      EntryRuns(s1, reply);
      assert ([Announce] + [Accepted]) + ([] + []) == [Announce, Accepted];
    }
    assert Handle(s2, open) == Ok(GREETED) by {
      EntryRuns(s2, open);
      assert ([Announce, Accepted] + [OpenReply]) + ([] + [Hello("")]) == [Announce, Accepted, OpenReply, Hello("")];
    }
    RunMore([], StartSession);
    RunMore([StartSession], reply);
    RunMore([StartSession, reply], open);
    assert [] + [StartSession] == [StartSession] && [StartSession] + [reply] == [StartSession, reply];
    assert [StartSession, reply] + [open] == GREETING;
  }

  lemma AskFirst(s: Session, id: string)
    requires s.state == Running && s.peers == [] && s.handshakedPeers == 0 && s.current == None
    ensures Handle(s, PeerHello(id))
         == Ok(s.(state := PeerAwaitSignalList, peers := [Peer(id, [])], current := Some(id),
                  trace := s.trace + [Request(id)]))
  {
    hide Step;
    hide Handle;
    EntryRuns(s, PeerHello(id));
    assert Emplace([], Peer(id, [])) == [Peer(id, [])];
    assert s.trace + ([] + []) + [Request(id)] == s.trace + [Request(id)];
  }

  /**
   The assumption on hello ids is needed: a peer that joins after the only other one has finished and
   sorts before it makes the handler dereference the end of the map.
   */
  lemma EarlierIdLeavesMap()
    ensures Run(NEW_SESSION, GREETING + [PeerHello("b")] + [Reply(OSC_SIGNAL_LIST)] + [PeerHello("a")])
         == Faulted(EndDereferenced)
  {
    hide Step;
    hide Run;
    GreetingRuns();
    AskFirst(GREETED, "b");
    RunMore(GREETING, PeerHello("b"));
    var asked := Handle(GREETED, PeerHello("b")).session;
    RunMore(GREETING + [PeerHello("b")], Reply(OSC_SIGNAL_LIST));
    var done := Handle(asked, Reply(OSC_SIGNAL_LIST)).session;
    RunMore(GREETING + [PeerHello("b")] + [Reply(OSC_SIGNAL_LIST)], PeerHello("a"));
    var a, b := Peer("a", []), Peer("b", []);
    assert done.peers == [b] && done.state == Running && done.handshakedPeers == 1 && done.current == Some("b");
    assert !Known([b], "a") && !Less("b", "a");
    assert Place([b], "a") == 0 && Emplace([b], a) == [a, b];
    assert [a, b][1..] == [b] && [b][1..] == [];
    assert Next([a, b], "b") == None;
    EntryRuns(done, PeerHello("a"));
  }

  /** The other way out of the map: starting again while the only peer is awaited. */
  lemma RestartLeavesMap()
    ensures Run(NEW_SESSION, GREETING + [PeerHello("a")] + [StartSession]) == Faulted(EndDereferenced)
  {
    hide Step;
    hide Run;
    GreetingRuns();
    AskFirst(GREETED, "a");
    RunMore(GREETING, PeerHello("a"));
    RunMore(GREETING + [PeerHello("a")], StartSession);
    var asked := Handle(GREETED, PeerHello("a")).session;
    assert asked.peers[1..] == [];
    EntryRuns(asked, StartSession);
  }

  lemma SecondSortsBehind()
    ensures !Known([Peer("a", [])], "b")
    ensures Emplace([Peer("a", [])], Peer("b", [])) == [Peer("a", []), Peer("b", [])]
  {
    var a := [Peer("a", [])];
    assert Less("a", "b") && a[1..] == [];
    assert Place(a, "b") == 1;
  }

  /** With two peers, the end of the first list leaves the second one unasked. */
  lemma SecondPeerIsLeftWaiting()
    ensures var run := Run(NEW_SESSION, GREETING + [PeerHello("a")] + [PeerHello("b")] + [Reply(OSC_SIGNAL_LIST)]);
            run.Ok? && Stalled(run.session) && Request("b") !in run.session.trace
  {
    hide Step;
    hide Run;
    hide Emplace;
    hide Known;
    GreetingRuns();
    AskFirst(GREETED, "a");
    RunMore(GREETING, PeerHello("a"));
    var asked := Handle(GREETED, PeerHello("a")).session;
    RunMore(GREETING + [PeerHello("a")], PeerHello("b"));
    var a, b := Peer("a", []), Peer("b", []);
    SecondSortsBehind();
    EntryRuns(asked, PeerHello("b"));
    var both := Handle(asked, PeerHello("b")).session;
    RunMore(GREETING + [PeerHello("a")] + [PeerHello("b")], Reply(OSC_SIGNAL_LIST));
  }

  // ---- Where it gets stuck ----

  /** Running although a peer has not been asked. */
  predicate Stalled(s: Session) {
    s.state == Running && s.handshakedPeers < |s.peers|
  }

  /**
   The end of a signal list does not run the machine: with another peer waiting the handler stalls,
   and it stays stalled exactly until a message that does run the machine.
   */
  lemma StalledExactlyWhen(s: Session, m: Message)
    requires Consistent(s) && Handle(s, m).Ok?
    ensures Stalled(Handle(s, m).session) <==>
            || (m == Reply("/signal/list") && s.state == PeerAwaitSignalList && s.handshakedPeers + 1 < |s.peers|)
            || (Stalled(s) && Entry(s, m).None? && !(m.Open? && !m.jackConnects))
  {
    hide Step;
    if Entry(s, m).Some? { EntryRuns(s, m); }
  }

  // ---- Exactly who has been asked ----

  /** The signal list of this peer has ended. */
  predicate HasFinished(s: Session, id: string) {
    exists j :: 0 <= j < s.handshakedPeers && j < |s.peers| && s.peers[j].id == id
  }

  predicate IsAwaited(s: Session, id: string) {
    Pending(s) && s.current == Some(id)
  }

  /** The finished peers and the pending one have been asked for their signals, and nobody else. */
  ghost predicate AskedExactly(s: Session) {
    forall id: string :: Request(id) in s.trace <==> HasFinished(s, id) || IsAwaited(s, id)
  }

  lemma RequestsInNewMarks(s: Session, m: Message, id: string)
    ensures Request(id) in NewMarks(s, m) <==> Asked(s, m) == Some(id)
  {
    hide Asked;
    var requests := if Asked(s, m).Some? then [Request(Asked(s, m).value)] else [];
    assert Request(id) !in OwnMarks(s, m);
    assert Request(id) in requests <==> Asked(s, m) == Some(id);
  }

  /** An orderly message that runs the machine leaves the finished peers and a pending one in place. */
  lemma EntryKeepsPositions(s: Session, m: Message, id: string)
    requires InOrder(s) && Orderly(s, m) && Entry(s, m).Some?
    ensures var e := Entry(s, m).value;
            (HasFinished(e, id) <==> HasFinished(s, id)) && (IsAwaited(e, id) <==> IsAwaited(s, id))
  {
    hide InOrder;
    if m.PeerHello? && s.current.Some? {
      hide Emplace;
      EmplaceKeepsPlaces(s, m.id);
      SamePlaces(s, Entry(s, m).value, id);
    } else if m.PeerHello? {
      assert s.handshakedPeers == 0 by { NobodyYet(s); }
    }
  }

  lemma NobodyYet(s: Session)
    requires InOrder(s) && s.current.None?
    ensures s.handshakedPeers == 0
  {
  }

  lemma EmplaceKeepsPlaces(s: Session, id: string)
    requires InOrder(s) && s.current.Some? && !Known(s.peers, id) && Less(s.current.value, id)
    ensures var peers, k := Emplace(s.peers, Peer(id, [])), CurrentIndex(s);
            && Sorted(s.peers) && Sorted(peers) && 0 <= k < |s.peers| && k < |peers|
            && (Pending(s) || Finished(s))
            && forall j :: 0 <= j <= k ==> peers[j] == s.peers[j]
  {
    hide Emplace;
    hide CompletedIds;
    var p := Peer(id, []);
    EmplaceKeepsSorted(s.peers, p);
    EmplaceBehind(s, id);
    var peers, k := Emplace(s.peers, p), CurrentIndex(s);
    forall j | 0 <= j <= k ensures peers[j] == s.peers[j] {
      assert peers[j] == peers[..k + 1][j] && s.peers[j] == s.peers[..k + 1][j];
    }
  }

  lemma SamePlaces(s: Session, e: Session, id: string)
    requires s.current.Some? && e == s.(peers := e.peers) && Sorted(s.peers) && Sorted(e.peers)
    requires 0 <= CurrentIndex(s) < |s.peers| && CurrentIndex(s) < |e.peers| && (Pending(s) || Finished(s))
    requires forall j :: 0 <= j <= CurrentIndex(s) ==> e.peers[j] == s.peers[j]
    ensures (HasFinished(e, id) <==> HasFinished(s, id)) && (IsAwaited(e, id) <==> IsAwaited(s, id))
  {
    if Finished(s) {
      PendingOrFinished(s);
      assert Finished(e);
      PendingOrFinished(e);
    }
    assert forall j :: 0 <= j < s.handshakedPeers ==> e.peers[j] == s.peers[j];
  }

  /** Running the machine asks exactly the peer it then waits for, which is the one already awaited if any. */
  lemma RestAsksPending(e: Session, id: string)
    requires InOrder(e)
    requires Pending(e) ==> e.state == PeerAwaitSignalList || e.state == Failed
    ensures IsAwaited(Rested(e), id) <==> IsAwaited(e, id) || Request(id) in Asking(e)
    ensures HasFinished(Rested(e), id) <==> HasFinished(e, id)
  {
    hide RestState;
    hide RestPeer;
    hide Opening;
    hide CompletedIds;
    RestPosition(e);
    RestOfWaiting(e);
    assert e.state == Failed ==> RestState(e) == Failed by { RestOfFailed(e); }
  }

  lemma RestOfFailed(e: Session)
    ensures e.state == Failed ==> RestState(e) == Failed
  {
  }

  lemma PendingStates(s: Session, m: Message)
    requires Consistent(s) && InOrder(s) && Orderly(s, m) && Entry(s, m).Some? && Pending(Entry(s, m).value)
    ensures Entry(s, m).value.state == PeerAwaitSignalList || Entry(s, m).value.state == Failed
  {
    hide Emplace;
    hide CompletedIds;
    EntryIsInOrder(s, m);
    PendingOrFinished(Entry(s, m).value);
  }

  lemma RunningKeepsAsked(s: Session, m: Message, id: string)
    requires Consistent(s) && InOrder(s) && AskedExactly(s) && Orderly(s, m) && Entry(s, m).Some? && Handle(s, m).Ok?
    ensures var t := Handle(s, m).session;
            Request(id) in t.trace <==> HasFinished(t, id) || IsAwaited(t, id)
  {
    hide Handle;
    hide Step;
    hide NewMarks;
    hide Asked;
    hide Rested;
    hide Asking;
    hide InOrder;
    hide Orderly;
    hide HasFinished;
    hide IsAwaited;
    hide Pending;
    var e := Entry(s, m).value;
    EntryRuns(s, m);
    EntryIsInOrder(s, m);
    RestIsInOrder(e);
    StepInClosedForm(e);
    EntryKeepsPositions(s, m, id);
    if Pending(e) { PendingStates(s, m); }
    RestAsksPending(e, id);
    AskingOfEntry(s, m);
    WhatIsSent(s, m);
    RequestsInNewMarks(s, m, id);
  }

  lemma OtherKeepsAsked(s: Session, m: Message, id: string)
    requires Consistent(s) && InOrder(s) && AskedExactly(s) && Entry(s, m).None? && Handle(s, m).Ok?
    ensures var t := Handle(s, m).session;
            Request(id) in t.trace <==> HasFinished(t, id) || IsAwaited(t, id)
  {
    hide Step;
    hide CompletedIds;
    var t := Handle(s, m).session;
    assert Request(id) in t.trace <==> Request(id) in s.trace;
    if m == Reply(OSC_SIGNAL_LIST) && s.state == PeerAwaitSignalList {
      assert Finished(t);
      OneMoreFinished(s, t, id);
    } else if m.SignalReply? {
      assert forall j :: 0 <= j < |s.peers| ==> t.peers[j].id == s.peers[j].id;
    }
  }

  lemma OneMoreFinished(s: Session, t: Session, id: string)
    requires Sorted(s.peers) && Pending(s) && Finished(t)
    requires t.peers == s.peers && t.current == s.current && t.handshakedPeers == s.handshakedPeers + 1
    ensures HasFinished(t, id) <==> HasFinished(s, id) || IsAwaited(s, id)
    ensures !IsAwaited(t, id)
  {
    PendingOrFinished(t);
    if IsAwaited(s, id) { assert t.peers[s.handshakedPeers].id == id; }
  }

  /**
   The counterpart of completing in order: in an orderly run exactly the finished peers and the pending
   one have ever been asked for their signals.
   */
  lemma {:induction false} PeersAskedInOrder(messages: seq<Message>)
    requires OrderlyRun(messages) && Run(NEW_SESSION, messages).Ok?
    ensures AskedExactly(Run(NEW_SESSION, messages).session)
  {
    if messages != [] {
      hide Handle;
      hide AskedExactly;
      hide InOrder;
      hide Orderly;
      hide Entry;
      var earlier, m := messages[..|messages| - 1], messages[|messages| - 1];
      PeersAskedInOrder(earlier);
      PeersCompleteInOrder(earlier);
      RunIsConsistent(earlier);
      KeepsAsked(Run(NEW_SESSION, earlier).session, m);
    }
  }

  lemma KeepsAsked(s: Session, m: Message)
    requires Consistent(s) && InOrder(s) && AskedExactly(s) && Orderly(s, m) && Handle(s, m).Ok?
    ensures AskedExactly(Handle(s, m).session)
  {
    hide Handle;
    hide InOrder;
    hide Orderly;
    hide Entry;
    hide HasFinished;
    hide IsAwaited;
    forall id: string
      ensures var t := Handle(s, m).session;
              Request(id) in t.trace <==> HasFinished(t, id) || IsAwaited(t, id)
    {
      if Entry(s, m).Some? { RunningKeepsAsked(s, m, id); } else { OtherKeepsAsked(s, m, id); }
    }
  }

  /** Some peer of the map has never been asked. */
  predicate SomeoneUnasked(s: Session) {
    exists k :: 0 <= k < |s.peers| && Request(s.peers[k].id) !in s.trace
  }

  /**
   What being stalled means: an orderly run that rests in the running state has left a peer unasked
   exactly when it is stalled, and then it is the peers from rank handshakedPeers on.
   */
  lemma StalledLeavesUnasked(messages: seq<Message>)
    requires OrderlyRun(messages) && Run(NEW_SESSION, messages).Ok?
    requires Run(NEW_SESSION, messages).session.state == Running
    ensures var s := Run(NEW_SESSION, messages).session;
            && (SomeoneUnasked(s) <==> Stalled(s))
            && forall k :: 0 <= k < |s.peers| ==> (Request(s.peers[k].id) !in s.trace <==> k >= s.handshakedPeers)
  {
    hide Run;
    hide OrderlyRun;
    hide CompletedIds;
    var s := Run(NEW_SESSION, messages).session;
    PeersAskedInOrder(messages);
    PeersCompleteInOrder(messages);
    PendingOrFinished(s);
    forall k | 0 <= k < |s.peers|
      ensures Request(s.peers[k].id) !in s.trace <==> k >= s.handshakedPeers
    {
      if HasFinished(s, s.peers[k].id) {
        var j :| 0 <= j < s.handshakedPeers && j < |s.peers| && s.peers[j].id == s.peers[k].id;
        IdsAreDistinct(s.peers, j, k);
      }
    }
    if Stalled(s) { assert Request(s.peers[s.handshakedPeers].id) !in s.trace; }
  }

  // ---- Signals ----

  /** The map stays sorted and the iterator stays in it, in every run. */
  predicate Located(s: Session) {
    Sorted(s.peers) && (s.current.Some? ==> Known(s.peers, s.current.value))
  }

  lemma {:induction false} NextIsKnown(peers: seq<Peer>, id: string)
    ensures Begin(peers).Some? ==> Known(peers, Begin(peers).value)
    ensures Next(peers, id).Some? ==> Known(peers, Next(peers, id).value)
  {
    if peers != [] {
      assert Known(peers, peers[0].id);
      NextIsKnown(peers[1..], id);
      if Next(peers, id).Some? { KnownInTail(peers, Next(peers, id).value); }
    }
  }

  /** The number of signals a message adds. */
  function SignalsIn(m: Message): nat {
    if m.SignalReply? then 1 else 0
  }

  lemma EntryKeepsSignals(s: Session, m: Message)
    requires Located(s) && Entry(s, m).Some?
    ensures Located(Entry(s, m).value)
    ensures SignalCount(Entry(s, m).value.peers) == SignalCount(s.peers) && !m.SignalReply?
  {
    if m.PeerHello? {
      hide Emplace;
      var p := Peer(m.id, []);
      EmplaceKeepsSorted(s.peers, p);
      SignalCountEmplace(s.peers, p);
      if s.current.Some? { EmplaceAddsKey(s.peers, p, s.current.value); }
    }
  }

  lemma RestIsLocated(e: Session)
    requires Located(e)
    ensures Located(Rested(e)) && Rested(e).peers == e.peers
  {
    hide RestState;
    hide Opening;
    if e.current.Some? { NextIsKnown(e.peers, e.current.value); } else { NextIsKnown(e.peers, ""); }
  }

  lemma StepKeepsSignals(s: Session, m: Message)
    requires Located(s) && Handle(s, m).Ok?
    ensures Located(Handle(s, m).session)
    ensures SignalCount(Handle(s, m).session.peers) == SignalCount(s.peers) + SignalsIn(m)
  {
    hide Step;
    hide Rested;
    hide SignalCount;
    if Entry(s, m).Some? {
      EntryRuns(s, m);
      EntryKeepsSignals(s, m);
      RestIsLocated(Entry(s, m).value);
    } else if m.SignalReply? {
      var id := s.current.value;
      SignalCountRegister(s.peers, id, m.signal);
      var i :| 0 <= i < |s.peers| && s.peers[i].id == id;
      assert Register(s.peers, id, m.signal)[i].id == id;
    }
  }

  function SignalReplies(messages: seq<Message>): nat {
    if messages == [] then 0
    else SignalReplies(messages[..|messages| - 1]) + SignalsIn(messages[|messages| - 1])
  }

  /** No signal is lost or counted twice: the peers hold as many signals as replies have arrived. */
  lemma {:induction false} SignalsAreConserved(messages: seq<Message>)
    requires Run(NEW_SESSION, messages).Ok?
    ensures Located(Run(NEW_SESSION, messages).session)
    ensures SignalCount(Run(NEW_SESSION, messages).session.peers) == SignalReplies(messages)
  {
    if messages != [] {
      hide Handle;
      SignalsAreConserved(messages[..|messages| - 1]);
      StepKeepsSignals(Run(NEW_SESSION, messages[..|messages| - 1]).session, messages[|messages| - 1]);
    }
  }

  /** The signals that have arrived while a peer was the current one, oldest first. */
  function SignalsFor(messages: seq<Message>, id: string): seq<Signal> {
    if messages == [] then []
    else
      var earlier, m := messages[..|messages| - 1], messages[|messages| - 1];
      var before := Run(NEW_SESSION, earlier);
      if before.Ok? && before.session.current == Some(id) && m.SignalReply? then SignalsFor(earlier, id) + [m.signal]
      else SignalsFor(earlier, id)
  }

  /** Each peer of the map holds the given signals, and there are none for any other id. */
  ghost predicate Hold(peers: seq<Peer>, signals: string -> seq<Signal>) {
    && (forall i :: 0 <= i < |peers| ==> peers[i].signals == signals(peers[i].id))
    && (forall id: string :: !Known(peers, id) ==> signals(id) == [])
  }

  lemma EmplaceHolds(peers: seq<Peer>, id: string, signals: string -> seq<Signal>)
    requires !Known(peers, id) && Hold(peers, signals)
    ensures Hold(Emplace(peers, Peer(id, [])), signals)
  {
    var p := Peer(id, []);
    var r := Emplace(peers, p);
    forall other: string | !Known(r, other) ensures signals(other) == [] {
      EmplaceAddsKey(peers, p, other);
    }
  }

  lemma RegisterHolds(peers: seq<Peer>, id: string, signal: Signal,
                      before: string -> seq<Signal>, after: string -> seq<Signal>)
    requires Known(peers, id) && Hold(peers, before)
    requires forall other: string :: after(other) == if other == id then before(id) + [signal] else before(other)
    ensures Hold(Register(peers, id, signal), after)
  {
    var r := Register(peers, id, signal);
    forall other: string | Known(peers, other) ensures Known(r, other) {
      var i :| 0 <= i < |peers| && peers[i].id == other;
      assert r[i].id == other;
    }
  }

  lemma StepHolds(s: Session, m: Message, before: string -> seq<Signal>, after: string -> seq<Signal>)
    requires Located(s) && Handle(s, m).Ok? && Hold(s.peers, before)
    requires forall id: string :: after(id)
               == if s.current == Some(id) && m.SignalReply? then before(id) + [m.signal] else before(id)
    ensures Hold(Handle(s, m).session.peers, after)
  {
    hide Step;
    hide Rested;
    hide Hold;
    if m.SignalReply? {
      RegisterHolds(s.peers, s.current.value, m.signal, before, after);
    } else {
      assert Hold(s.peers, after) by { SameHold(s.peers, before, after); }
      if Entry(s, m).Some? {
        EntryRuns(s, m);
        EntryKeepsSignals(s, m);
        RestIsLocated(Entry(s, m).value);
        if m.PeerHello? { EmplaceHolds(s.peers, m.id, after); }
      }
    }
  }

  lemma SameHold(peers: seq<Peer>, before: string -> seq<Signal>, after: string -> seq<Signal>)
    requires Hold(peers, before) && forall id: string :: after(id) == before(id)
    ensures Hold(peers, after)
  {
  }

  /**
   In every run each peer holds exactly the signals of the replies that arrived while it was the
   current one, in order, and no reply belongs to an id outside the map.
   */
  lemma {:induction false} SignalsBelongToPeers(messages: seq<Message>)
    requires Run(NEW_SESSION, messages).Ok?
    ensures Hold(Run(NEW_SESSION, messages).session.peers, id => SignalsFor(messages, id))
  {
    if messages != [] {
      hide Handle;
      hide Hold;
      var earlier, m := messages[..|messages| - 1], messages[|messages| - 1];
      SignalsBelongToPeers(earlier);
      SignalsAreConserved(earlier);
      StepHolds(Run(NEW_SESSION, earlier).session, m, id => SignalsFor(earlier, id), id => SignalsFor(messages, id));
    }
  }

  // ---- Leaving the map, in every run ----

  /**
   In every run, orderly or not, the handler dereferences the end of the map exactly when it moves on
   from the last key of the map.
   */
  lemma LeavesMapInEveryRun(messages: seq<Message>, m: Message)
    requires Run(NEW_SESSION, messages).Ok?
    ensures var s := Run(NEW_SESSION, messages).session;
            Handle(s, m) == Faulted(EndDereferenced) <==>
              && AsksNext(s, m) && |PeersAfter(s, m)| > 0
              && s.current == Some(PeersAfter(s, m)[|PeersAfter(s, m)| - 1].id)
  {
    hide Handle;
    hide AsksNext;
    var s := Run(NEW_SESSION, messages).session;
    RunIsConsistent(messages);
    SignalsAreConserved(messages);
    FaultsExactlyWhen(s, m);
    if AsksNext(s, m) { NobodyLeft(s, m); }
  }

  lemma NobodyLeft(s: Session, m: Message)
    requires Located(s) && AsksNext(s, m) && Consistent(s)
    ensures |PeersAfter(s, m)| > 0
    ensures Asked(s, m) == None <==> s.current == Some(PeersAfter(s, m)[|PeersAfter(s, m)| - 1].id)
  {
    hide Emplace;
    hide Next;
    var peers := PeersAfter(s, m);
    if IsFreshHello(s, m) {
      EmplaceKeepsSorted(s.peers, Peer(m.id, []));
      if s.current.Some? { EmplaceAddsKey(s.peers, Peer(m.id, []), s.current.value); }
    }
    if s.current.Some? {
      var i :| 0 <= i < |peers| && peers[i].id == s.current.value;
      NextIsSuccessor(peers, i);
      if i + 1 < |peers| { LessIsStrict(peers[i].id, peers[|peers| - 1].id); }
    }
  }

  // ---- Completions answer requests ----

  /** Every list that has ended was asked for before. */
  predicate CompletionsFollowRequests(trace: seq<Mark>) {
    forall k :: 0 <= k < |trace| && trace[k].Completed? ==> Request(trace[k].done) in trace[..k]
  }

  /** Whoever is awaited has been asked. */
  predicate AwaitedIsAsked(s: Session) {
    s.state == PeerAwaitSignalList && s.current.Some? ==> Request(s.current.value) in s.trace
  }

  lemma CompletionsAppend(a: seq<Mark>, b: seq<Mark>)
    requires CompletionsFollowRequests(a)
    requires forall k :: 0 <= k < |b| && b[k].Completed? ==> Request(b[k].done) in a
    ensures CompletionsFollowRequests(a + b)
  {
    forall k | 0 <= k < |a + b| && (a + b)[k].Completed? ensures Request((a + b)[k].done) in (a + b)[..k] {
      if k < |a| {
        assert (a + b)[..k] == a[..k];
      } else {
        assert (a + b)[k] == b[k - |a|] && (a + b)[..k] == a + b[..k - |a|];
      }
    }
  }

  lemma StepAsksAwaited(s: Session, m: Message)
    requires Consistent(s) && AwaitedIsAsked(s) && Handle(s, m).Ok?
    ensures AwaitedIsAsked(Handle(s, m).session)
  {
    hide Step;
    hide Opening;
    if Entry(s, m).Some? {
      EntryRuns(s, m);
      var e := Entry(s, m).value;
      assert Rested(e).state == PeerAwaitSignalList && Rested(e).current.Some? ==>
        Asking(e) == [Request(Rested(e).current.value)];
    }
  }

  /** In every run a signal list ends only for a peer that has been asked for it before. */
  lemma {:induction false} CompletionsAnswerRequests(messages: seq<Message>)
    requires Run(NEW_SESSION, messages).Ok?
    ensures CompletionsFollowRequests(Run(NEW_SESSION, messages).session.trace)
    ensures AwaitedIsAsked(Run(NEW_SESSION, messages).session)
  {
    if messages != [] {
      hide Handle;
      hide AwaitedIsAsked;
      hide CompletionsFollowRequests;
      var earlier, m := messages[..|messages| - 1], messages[|messages| - 1];
      CompletionsAnswerRequests(earlier);
      RunIsConsistent(earlier);
      var s := Run(NEW_SESSION, earlier).session;
      StepAsksAwaited(s, m);
      WhatIsSent(s, m);
      OwnCompletions(s, m);
      CompletionsAppend(s.trace, NewMarks(s, m));
    } else {
      assert CompletionsFollowRequests(NEW_SESSION.trace);
    }
  }

  lemma OwnCompletions(s: Session, m: Message)
    requires AwaitedIsAsked(s)
    ensures forall k :: 0 <= k < |NewMarks(s, m)| && NewMarks(s, m)[k].Completed? ==>
              Request(NewMarks(s, m)[k].done) in s.trace
  {
    hide Asked;
    forall k | 0 <= k < |NewMarks(s, m)| && NewMarks(s, m)[k].Completed?
      ensures Request(NewMarks(s, m)[k].done) in s.trace
    {
      assert k < |OwnMarks(s, m)| && NewMarks(s, m)[k] == OwnMarks(s, m)[k];
    }
  }
}
