/** What holds in every run of the session handler, and exactly which messages can break it. */
module NonSessionRuns {
  import opened Wrappers
  import opened PeerMaps
  import opened NonSessions

  // ---- The self-calling step in closed form ----

  /** The rerun reaches the hello. */
  predicate Greets(s: Session) {
    || s.state == HelloStart
    || (s.state == SessionAwaitOpen && s.projectOpened)
    || ((s.state == HandshakeAwaitReply || s.state == HandshakeStart) && s.handshakeComplete && s.projectOpened)
  }

  function Announcements(s: Session): seq<Mark> {
    if s.state == HandshakeStart then [Announce] else []
  }

  function Greetings(s: Session): seq<Mark> {
    if Greets(s) then [Hello(s.clientId)] else []
  }

  /** What is sent before a peer is asked. */
  function Opening(s: Session): seq<Mark> {
    Announcements(s) + Greetings(s)
  }

  /** The state in which the machine comes to rest. */
  function RestState(s: Session): State {
    match s.state
    case Failed => Failed
    case NoSession => NoSession
    case PeerAwaitSignalList => PeerAwaitSignalList
    case _ =>
      if Greets(s) || s.state == Running then
        if s.handshakedPeers < |s.peers| then PeerAwaitSignalList else Running
      else if s.state == SessionAwaitOpen || s.handshakeComplete then SessionAwaitOpen
      else HandshakeAwaitReply
  }

  /** The peer iterator after the step: it moves exactly when a peer is newly asked. */
  function RestPeer(s: Session): Option<string> {
    if s.state != PeerAwaitSignalList && RestState(s) == PeerAwaitSignalList then Advance(s) else s.current
  }

  /** The request to the peer it rests at. */
  function Asking(s: Session): seq<Mark> {
    if RestState(s) == PeerAwaitSignalList && RestPeer(s).Some? then [Request(RestPeer(s).value)] else []
  }

  function Rested(s: Session): Session {
    s.(state := RestState(s), current := RestPeer(s), trace := s.trace + Opening(s) + Asking(s))
  }

  function RestOutcome(s: Session): Outcome {
    if RestState(s) == PeerAwaitSignalList && RestPeer(s).None? then Faulted(EndDereferenced) else Ok(Rested(s))
  }

  ghost predicate RestsAsDescribed(s: Session) {
    Step(s) == RestOutcome(s)
  }

  lemma LateStates(s: Session)
    requires s.state in {Failed, NoSession, PeerAwaitSignalList, Running}
    ensures RestsAsDescribed(s)
  {
    assert Opening(s) == [] && s.trace + [] == s.trace;
    if s.state == Running && s.handshakedPeers < |s.peers| {
      var t := s.(state := PeerAwaitSignalList, current := Advance(s));
      assert Step(s) == Step(t);
    }
  }

  lemma HelloState(s: Session)
    requires s.state == HelloStart
    ensures RestsAsDescribed(s)
  {
    var t := Logged(s.(state := Running), Hello(s.clientId));
    LateStates(t);
    assert Step(s) == Step(t);
    assert Opening(t) == [] && Opening(s) == [Hello(s.clientId)];
    assert t.trace + [] == t.trace;
  }

  lemma OpenState(s: Session)
    requires s.state == SessionAwaitOpen
    ensures RestsAsDescribed(s)
  {
    var t := s.(state := HelloStart);
    if s.projectOpened {
      HelloState(t);
      assert Step(s) == Step(t) && Opening(s) == Opening(t);
    } else {
      assert Opening(s) == [] && s.trace + [] == s.trace;
    }
  }

  lemma ReplyState(s: Session)
    requires s.state == HandshakeAwaitReply
    ensures RestsAsDescribed(s)
  {
    var t := s.(state := SessionAwaitOpen);
    if s.handshakeComplete {
      OpenState(t);
      assert Step(s) == Step(t) && Opening(s) == Opening(t);
    } else {
      assert Opening(s) == [] && s.trace + [] == s.trace;
    }
  }

  lemma StartState(s: Session)
    requires s.state == HandshakeStart
    ensures RestsAsDescribed(s)
  {
    var t := Logged(s.(state := HandshakeAwaitReply), Announce);
    ReplyState(t);
    assert Step(s) == Step(t);
    assert (s.trace + [Announce]) + Opening(t) == s.trace + Opening(s);
  }

  /**
   However often the machine reruns itself, it sends at most an announce, then a hello, then one
   signal-list request, and fails only where it would dereference the end of the peer map.
   */
  lemma StepInClosedForm(s: Session)
    ensures Step(s) == RestOutcome(s)
  {
    match s.state
    case HandshakeStart => StartState(s);
    case HandshakeAwaitReply => ReplyState(s);
    case SessionAwaitOpen => OpenState(s);
    case HelloStart => HelloState(s);
    case _ => LateStates(s);
  }

  /** The session on which a message runs the machine, if it does. */
  function Entry(s: Session, m: Message): Option<Session> {
    match m
    case StartSession => Some(s.(state := if s.handshakeComplete then HelloStart else HandshakeStart))
    case AnnounceReply(path, capabilities) =>
      if path != NSM_ANNOUNCE then None
      else if s.state != HandshakeAwaitReply then Some(s.(state := Failed))
      else if HasSubstring(capabilities, REQUIRED_CAPABILITY) then Some(Logged(s.(handshakeComplete := true), Accepted))
      else Some(s.(state := Failed, handshakeComplete := true))
    case Error(path) => if path == NSM_ANNOUNCE then Some(s.(handshakeComplete := false, state := Failed)) else None
    case Open(id, true) => Some(Logged(s.(clientId := id, projectOpened := true), OpenReply))
    case PeerHello(id) => if Known(s.peers, id) then None else Some(s.(peers := Emplace(s.peers, Peer(id, []))))
    case _ => None
  }

  lemma EntryRuns(s: Session, m: Message)
    requires Entry(s, m).Some?
    ensures Handle(s, m) == RestOutcome(Entry(s, m).value)
  {
    hide Step;
    StepInClosedForm(Entry(s, m).value);
  }

  // ---- Runs ----

  function Run(s: Session, messages: seq<Message>): Outcome {
    if messages == [] then Ok(s)
    else
      match Run(s, messages[..|messages| - 1])
      case Faulted(f) => Faulted(f)
      case Ok(t) => Handle(t, messages[|messages| - 1])
  }

  /** After every message the machine is at rest, and its fields agree with its state. */
  predicate Consistent(s: Session) {
    && s.state != HandshakeStart && s.state != HelloStart
    && (s.state == HandshakeAwaitReply ==> !s.handshakeComplete)
    && (s.state in {SessionAwaitOpen, PeerAwaitSignalList, Running} ==> s.handshakeComplete)
    && (s.state == SessionAwaitOpen ==> !s.projectOpened)
    && s.handshakedPeers <= |s.peers|
    && (s.state == PeerAwaitSignalList ==> s.handshakedPeers < |s.peers| && s.current.Some?)
  }

  lemma StepIsConsistent(s: Session, m: Message)
    requires Consistent(s) && Handle(s, m).Ok?
    ensures Consistent(Handle(s, m).session)
  {
    hide Step;
    if Entry(s, m).Some? { EntryRuns(s, m); }
  }

  lemma {:induction false} RunIsConsistent(messages: seq<Message>)
    requires Run(NEW_SESSION, messages).Ok?
    ensures Consistent(Run(NEW_SESSION, messages).session)
  {
    if messages != [] {
      RunIsConsistent(messages[..|messages| - 1]);
      StepIsConsistent(Run(NEW_SESSION, messages[..|messages| - 1]).session, messages[|messages| - 1]);
    }
  }

  // ---- Exactly when something is sent ----

  predicate IsAcceptance(s: Session, m: Message) {
    && m.AnnounceReply? && m.path == NSM_ANNOUNCE && s.state == HandshakeAwaitReply
    && HasSubstring(m.capabilities, REQUIRED_CAPABILITY)
  }

  predicate IsOpening(m: Message) {
    m.Open? && m.jackConnects
  }

  /** The three ways to a hello: accepted when already open, opened when accepted, or a restart. */
  predicate HelloNow(s: Session, m: Message) {
    || (IsAcceptance(s, m) && s.projectOpened)
    || (IsOpening(m) && s.state == SessionAwaitOpen)
    || (m == StartSession && s.handshakeComplete)
  }

  predicate AnnounceNow(s: Session, m: Message) {
    m == StartSession && !s.handshakeComplete
  }

  function CountHellos(trace: seq<Mark>): nat {
    if trace == [] then 0 else CountHellos(trace[..|trace| - 1]) + (if trace[|trace| - 1].Hello? then 1 else 0)
  }

  lemma {:induction false} CountHellosAppend(a: seq<Mark>, b: seq<Mark>)
    ensures CountHellos(a + b) == CountHellos(a) + CountHellos(b)
    decreases |b|
  {
    if b == [] {
      assert a + b == a;
    } else {
      CountHellosAppend(a, b[..|b| - 1]);
      assert (a + b)[..|a + b| - 1] == a + b[..|b| - 1];
    }
  }

  /** What a message adds to the trace without running the machine. */
  function OwnMarks(s: Session, m: Message): seq<Mark> {
    match m
    case AnnounceReply(_, _) => if IsAcceptance(s, m) then [Accepted] else []
    case Open(_, jackConnects) => if jackConnects then [OpenReply] else [OpenError]
    case Save => [SaveReply]
    case SignalListQuery => [OwnSignals]
    case Reply(path) =>
      if path == OSC_SIGNAL_LIST && s.state == PeerAwaitSignalList && s.current.Some?
      then [Completed(s.current.value)] else []
    case _ => []
  }

  /** A peer that is not yet in the map says hello. */
  predicate IsFreshHello(s: Session, m: Message) {
    m.PeerHello? && !Known(s.peers, m.id)
  }

  function PeersAfter(s: Session, m: Message): seq<Peer> {
    if IsFreshHello(s, m) then Emplace(s.peers, Peer(m.id, [])) else s.peers
  }

  /** An open or a fresh hello makes whoever is being waited for be asked again. */
  predicate AsksAgain(s: Session, m: Message) {
    s.state == PeerAwaitSignalList && (IsOpening(m) || IsFreshHello(s, m))
  }

  /** A hello of ours, or an open or a fresh hello after it, moves on to the next peer if one has not finished. */
  predicate AsksNext(s: Session, m: Message) {
    && (HelloNow(s, m) || (s.state == Running && (IsOpening(m) || IsFreshHello(s, m))))
    && s.handshakedPeers < |PeersAfter(s, m)|
  }

  /** Whom a message makes the handler ask. */
  function Asked(s: Session, m: Message): Option<string> {
    if AsksAgain(s, m) then s.current
    else if !AsksNext(s, m) then None
    else if s.current.None? then Begin(PeersAfter(s, m))
    else Next(PeersAfter(s, m), s.current.value)
  }

  function ClientIdAfter(s: Session, m: Message): string {
    if m.Open? then m.clientId else s.clientId
  }

  function NewMarks(s: Session, m: Message): seq<Mark> {
    OwnMarks(s, m)
    + (if AnnounceNow(s, m) then [Announce] else [])
    + (if HelloNow(s, m) then [Hello(ClientIdAfter(s, m))] else [])
    + (if Asked(s, m).Some? then [Request(Asked(s, m).value)] else [])
  }

  /** The session on which the machine runs, and what it sends, in terms of the message. */
  lemma OpeningOfEntry(s: Session, m: Message)
    requires Consistent(s) && Entry(s, m).Some?
    ensures var e := Entry(s, m).value;
            && e.trace == s.trace + OwnMarks(s, m) && e.clientId == ClientIdAfter(s, m)
            && e.peers == PeersAfter(s, m)
            && (Greets(e) <==> HelloNow(s, m)) && (e.state == HandshakeStart <==> AnnounceNow(s, m))
  {
    hide Emplace;
  }

  lemma AskingOfEntry(s: Session, m: Message)
    requires Consistent(s) && Entry(s, m).Some? && RestOutcome(Entry(s, m).value).Ok?
    ensures Asking(Entry(s, m).value) == if Asked(s, m).Some? then [Request(Asked(s, m).value)] else []
  {
    hide Emplace;
    hide Next;
    hide Opening;
    OpeningOfEntry(s, m);
    assert |PeersAfter(s, m)| >= |s.peers| by { EmplaceAddsOne(s.peers, Peer(if m.PeerHello? then m.id else "", [])); }
  }

  /**
   Exactly what a message adds to the trace, from the state before it alone: its own marks, an announce,
   a hello and a request, each exactly when its time has come.
   */
  lemma WhatIsSent(s: Session, m: Message)
    requires Consistent(s) && Handle(s, m).Ok?
    ensures Handle(s, m).session.trace == s.trace + NewMarks(s, m)
  {
    hide Step;
    hide Asked;
    hide RestState;
    hide RestPeer;
    if Entry(s, m).Some? {
      EntryRuns(s, m);
      OpeningOfEntry(s, m);
      AskingOfEntry(s, m);
      var e := Entry(s, m).value;
      Regroup(s.trace, OwnMarks(s, m), Announcements(e), Greetings(e), Asking(e));
    } else {
      assert Asked(s, m) == None by { NobodyAsked(s, m); }
      assert NewMarks(s, m) == OwnMarks(s, m);
    }
  }

  /** Every fault of a handler at rest: nobody to ask, a known peer's hello, or a stray signal. */
  lemma FaultsExactlyWhen(s: Session, m: Message)
    requires Consistent(s)
    ensures Handle(s, m) == Faulted(EndDereferenced) <==> AsksNext(s, m) && Asked(s, m) == None
    ensures Handle(s, m) == Faulted(AssertionFailed) <==>
            || (m.PeerHello? && Known(s.peers, m.id))
            || (m.SignalReply? && (m.path != "/signal/list" || s.current.None?))
  {
    hide Step;
    hide Next;
    hide Emplace;
    hide Opening;
    if Entry(s, m).Some? {
      EntryRuns(s, m);
      OpeningOfEntry(s, m);
      assert |PeersAfter(s, m)| >= |s.peers| by { EmplaceAddsOne(s.peers, Peer(if m.PeerHello? then m.id else "", [])); }
    }
  }

  lemma NobodyAsked(s: Session, m: Message)
    requires Entry(s, m).None?
    ensures Asked(s, m) == None
  {
  }

  lemma Regroup<T>(a: seq<T>, b: seq<T>, c: seq<T>, d: seq<T>, e: seq<T>)
    ensures (a + b) + (c + d) + e == a + (b + c + d + e)
  {
  }

  /** A hello may still come. */
  predicate HelloPending(s: Session) {
    s.state in {HandshakeStart, HandshakeAwaitReply, SessionAwaitOpen, HelloStart}
  }

  function Starts(messages: seq<Message>): nat {
    if messages == [] then 0
    else Starts(messages[..|messages| - 1]) + (if messages[|messages| - 1] == StartSession then 1 else 0)
  }

  lemma CountMarks(s: Session, m: Message)
    requires Consistent(s) && Handle(s, m).Ok?
    ensures CountHellos(Handle(s, m).session.trace) == CountHellos(s.trace) + (if HelloNow(s, m) then 1 else 0)
  {
    hide Handle;
    WhatIsSent(s, m);
    CountHellosAppend(s.trace, NewMarks(s, m));
    CountNew(s, m);
  }

  lemma CountNew(s: Session, m: Message)
    ensures CountHellos(NewMarks(s, m)) == if HelloNow(s, m) then 1 else 0
  {
    var own := OwnMarks(s, m);
    var announces: seq<Mark> := if AnnounceNow(s, m) then [Announce] else [];
    var hellos := if HelloNow(s, m) then [Hello(ClientIdAfter(s, m))] else [];
    var requests := if Asked(s, m).Some? then [Request(Asked(s, m).value)] else [];
    assert NewMarks(s, m) == own + announces + hellos + requests;
    assert |own| <= 1 && (own != [] ==> !own[0].Hello?);
    hide *;
    CountParts(own, announces, hellos, requests);
  }

  lemma CountParts(own: seq<Mark>, announces: seq<Mark>, hellos: seq<Mark>, requests: seq<Mark>)
    requires |own| <= 1 && |announces| <= 1 && |hellos| <= 1 && |requests| <= 1
    requires forall m :: m in own + announces + requests ==> !m.Hello?
    requires forall m :: m in hellos ==> m.Hello?
    ensures CountHellos(own + announces + hellos + requests) == |hellos|
  {
    CountHellosAppend(own + announces + hellos, requests);
    CountHellosAppend(own + announces, hellos);
    CountHellosAppend(own, announces);
    OneMark(own);
    OneMark(announces);
    OneMark(hellos);
    OneMark(requests);
  }

  lemma OneMark(marks: seq<Mark>)
    requires |marks| <= 1
    ensures CountHellos(marks) == if marks != [] && marks[0].Hello? then 1 else 0
  {
    if marks != [] { assert marks[..0] == []; }
  }

  /** Every session start pays for at most one hello, sent or still to come. */
  lemma {:induction false} HellosNeverExceedStarts(messages: seq<Message>)
    requires Run(NEW_SESSION, messages).Ok?
    ensures var s := Run(NEW_SESSION, messages).session;
            CountHellos(s.trace) + (if HelloPending(s) then 1 else 0) <= Starts(messages)
  {
    if messages != [] {
      var earlier, m := messages[..|messages| - 1], messages[|messages| - 1];
      HellosNeverExceedStarts(earlier);
      RunIsConsistent(earlier);
      var s := Run(NEW_SESSION, earlier).session;
      CountMarks(s, m);
      PendingAfter(s, m);
    }
  }

  lemma PendingAfter(s: Session, m: Message)
    requires Consistent(s) && Handle(s, m).Ok?
    ensures HelloNow(s, m) ==> (HelloPending(s) || m == StartSession) && !HelloPending(Handle(s, m).session)
    ensures HelloPending(Handle(s, m).session) ==> HelloPending(s) || m == StartSession
  {
    hide Step;
    if Entry(s, m).Some? { EntryRuns(s, m); }
  }
}
