/**
 The session state machine of driver-osc/src/NonSessionHandler.cpp: every incoming message is one
 atomic step. What is sent, and which replies were accepted, is recorded in a trace.
 */
module NonSessions {
  import opened Wrappers
  import opened PeerMaps

  const NSM_ANNOUNCE := "/nsm/server/announce"
  const OSC_SIGNAL_LIST := "/signal/list"
  const REQUIRED_CAPABILITY := "broadcast"

  datatype State =
    | NoSession
    | HandshakeStart
    | HandshakeAwaitReply
    | SessionAwaitOpen
    | HelloStart
    | PeerAwaitSignalList
    | Running
    | Failed

  /** What the outside can observe, and two facts about replies that the protocol's order is about. */
  datatype Mark =
    | Announce
    | Accepted                    // an announce reply with the required capability, in time
    | OpenReply
    | OpenError
    | Hello(clientId: string)
    | Request(peer: string)       // a signal-list request to a peer
    | Completed(done: string)     // the end of that peer's signal list
    | SaveReply
    | OwnSignals                  // our own signal list, on request

  datatype Session = Session(
    state: State,
    handshakeComplete: bool,
    projectOpened: bool,
    clientId: string,
    peers: seq<Peer>,
    handshakedPeers: nat,
    current: Option<string>,
    trace: seq<Mark>)

  const NEW_SESSION := Session(NoSession, false, false, "", [], 0, None, [])

  /** Where the C++ code would dereference an end iterator or fail an assertion. */
  datatype Fault = EndDereferenced | AssertionFailed

  datatype Outcome = Ok(session: Session) | Faulted(fault: Fault)

  /** Incoming messages, by their OSC path and argument types, and the call that starts a session. */
  datatype Message =
    | StartSession
    | Reply(path: string)                                     // "s"
    | AnnounceReply(path: string, capabilities: string)       // "ssss"
    | SignalReply(path: string, signal: Signal)               // "ssfff"
    | Error(path: string)                                     // "sis"
    | Open(clientId: string, jackConnects: bool)              // "sss"
    | Save
    | SignalListQuery
    | PeerHello(id: string)                                   // "ssss"

  // ---- Specification: one step, all steps, one message ----

  function Logged(s: Session, m: Mark): Session {
    s.(trace := s.trace + [m])
  }

  /** The position of the peer to ask next. */
  function Advance(s: Session): Option<string> {
    if s.current.None? then Begin(s.peers) else Next(s.peers, s.current.value)
  }

  /** Later states have a smaller rank; the machine reruns itself only downwards. */
  function Rank(state: State): nat {
    match state
    case HandshakeStart => 6
    case HandshakeAwaitReply => 5
    case SessionAwaitOpen => 4
    case HelloStart => 3
    case Running => 2
    case PeerAwaitSignalList => 1
    case NoSession => 0
    case Failed => 0
  }

  function Step(s: Session): Outcome
    decreases Rank(s.state)
  {
    match s.state
    case Failed => Ok(s)
    case NoSession => Ok(s)
    case HandshakeStart => Step(Logged(s.(state := HandshakeAwaitReply), Announce))
    case HandshakeAwaitReply => if s.handshakeComplete then Step(s.(state := SessionAwaitOpen)) else Ok(s)
    case SessionAwaitOpen => if s.projectOpened then Step(s.(state := HelloStart)) else Ok(s)
    case HelloStart => Step(Logged(s.(state := Running), Hello(s.clientId)))
    case PeerAwaitSignalList =>
      if s.current.None? then Faulted(EndDereferenced) else Ok(Logged(s, Request(s.current.value)))
    case Running =>
      if s.handshakedPeers < |s.peers| then Step(s.(state := PeerAwaitSignalList, current := Advance(s))) else Ok(s)
  }

  predicate OccursAt(s: string, t: string, i: nat) {
    i + |t| <= |s| && s[i..i + |t|] == t
  }

  predicate HasSubstring(s: string, t: string) {
    exists i: nat :: i <= |s| && OccursAt(s, t, i)
  }

  function OnAnnounceReply(s: Session, capabilities: string): Outcome {
    if s.state == HandshakeAwaitReply then
      if HasSubstring(capabilities, REQUIRED_CAPABILITY)
      then Step(Logged(s.(handshakeComplete := true), Accepted))
      else Step(s.(state := Failed, handshakeComplete := true))
    else Step(s.(state := Failed))
  }

  function OnOpen(s: Session, clientId: string, jackConnects: bool): Outcome {
    var t := s.(clientId := clientId);
    if jackConnects then Step(Logged(t.(projectOpened := true), OpenReply))
    else Ok(Logged(t.(state := Failed), OpenError))
  }

  function OnPeerHello(s: Session, id: string): Outcome {
    if Known(s.peers, id) then Faulted(AssertionFailed)
    else Step(s.(peers := Emplace(s.peers, Peer(id, []))))
  }

  function OnListEnd(s: Session): Outcome {
    if s.state != PeerAwaitSignalList then Ok(s)
    else if s.current.None? then Faulted(AssertionFailed)
    else Ok(Logged(s.(state := Running, handshakedPeers := s.handshakedPeers + 1), Completed(s.current.value)))
  }

  function OnSignal(s: Session, signal: Signal): Outcome {
    if s.current.None? then Faulted(AssertionFailed)
    else Ok(s.(peers := Register(s.peers, s.current.value, signal)))
  }

  function Handle(s: Session, m: Message): Outcome {
    match m
    case StartSession => Step(s.(state := if s.handshakeComplete then HelloStart else HandshakeStart))
    case Reply(path) => if path == OSC_SIGNAL_LIST then OnListEnd(s) else Ok(s)
    case AnnounceReply(path, capabilities) => if path == NSM_ANNOUNCE then OnAnnounceReply(s, capabilities) else Ok(s)
    case SignalReply(path, signal) => if path == OSC_SIGNAL_LIST then OnSignal(s, signal) else Faulted(AssertionFailed)
    case Error(path) => if path == NSM_ANNOUNCE then Step(s.(handshakeComplete := false, state := Failed)) else Ok(s)
    case Open(clientId, jackConnects) => OnOpen(s, clientId, jackConnects)
    case Save => Ok(Logged(s, SaveReply))
    case SignalListQuery => Ok(Logged(s, OwnSignals))
    case PeerHello(id) => OnPeerHello(s, id)
  }

  // ---- The class ----

  class NonSessionHandler {
    var state: State
    var handshakeComplete: bool
    var projectOpened: bool
    var clientId: string
    var peers: seq<Peer>
    var handshakedPeers: nat
    var current: Option<string>
    ghost var trace: seq<Mark>

    ghost function View(): Session
      reads this
    {
      Session(state, handshakeComplete, projectOpened, clientId, peers, handshakedPeers, current, trace)
    }

    /** The object and the reported fault are as the outcome says. */
    ghost predicate Is(fault: Option<Fault>, outcome: Outcome)
      reads this
    {
      match outcome
      case Ok(s) => fault == None && View() == s
      case Faulted(f) => fault == Some(f)
    }

    constructor ()
      ensures View() == NEW_SESSION
    {
      state, handshakeComplete, projectOpened, clientId := NoSession, false, false, "";
      peers, handshakedPeers, current, trace := [], 0, None, [];
    }

    ghost method Log(m: Mark)
      modifies this`trace
      ensures trace == old(trace) + [m]
    {
      trace := trace + [m];
    }

    method StepStateMachine() returns (fault: Option<Fault>)
      modifies this
      ensures Is(fault, Step(old(View())))
      decreases Rank(state)
    {
      fault := None;
      var rerun := false;
      match state {
        case Failed =>
        case NoSession =>
        case HandshakeStart =>
          state := HandshakeAwaitReply;
          Log(Announce);
          rerun := true;
        case HandshakeAwaitReply =>
          if handshakeComplete {
            state := SessionAwaitOpen;
            rerun := true;
          }
        case SessionAwaitOpen =>
          if projectOpened {
            state := HelloStart;
            rerun := true;
          }
        case HelloStart =>
          Log(Hello(clientId));
          state := Running;
          rerun := true;
        case PeerAwaitSignalList =>
          if current.None? {
            return Some(EndDereferenced);
          }
          Log(Request(current.value));
        case Running =>
          if handshakedPeers < |peers| {
            if current.None? {
              current := Begin(peers);
            } else {
              current := Next(peers, current.value);
            }
            state := PeerAwaitSignalList;
            rerun := true;
          }
      }
      if rerun {
        fault := StepStateMachine();
      }
    }

    method Start() returns (fault: Option<Fault>)
      modifies this
      ensures Is(fault, Handle(old(View()), StartSession))
    {
      if handshakeComplete {
        state := HelloStart;
      } else {
        state := HandshakeStart;
      }
      fault := StepStateMachine();
    }

    method HandleReply(path: string) returns (fault: Option<Fault>)
      modifies this
      ensures Is(fault, Handle(old(View()), Reply(path)))
    {
      if path == OSC_SIGNAL_LIST {
        if state != PeerAwaitSignalList {
          return None;
        }
        if current.None? {
          return Some(AssertionFailed);
        }
        state := Running;
        handshakedPeers := handshakedPeers + 1;
        Log(Completed(current.value));
      }
      return None;
    }

    method CheckCapabilities(capabilities: string)
      modifies this`state
      ensures state == if HasSubstring(capabilities, REQUIRED_CAPABILITY) then old(state) else Failed
    {
      if !HasSubstring(capabilities, REQUIRED_CAPABILITY) {
        state := Failed;
      }
    }

    method HandleAnnounceReply(path: string, capabilities: string) returns (fault: Option<Fault>)
      modifies this
      ensures Is(fault, Handle(old(View()), AnnounceReply(path, capabilities)))
    {
      if path != NSM_ANNOUNCE {
        return None;
      }
      if state == HandshakeAwaitReply {
        CheckCapabilities(capabilities);
        handshakeComplete := true;
        if state != Failed {
          Log(Accepted);
        }
      } else {
        state := Failed;
      }
      fault := StepStateMachine();
    }

    method HandleError(path: string) returns (fault: Option<Fault>)
      modifies this
      ensures Is(fault, Handle(old(View()), Error(path)))
    {
      if path != NSM_ANNOUNCE {
        return None;
      }
      handshakeComplete := false;
      state := Failed;
      fault := StepStateMachine();
    }

    /** Whether the JACK client connects is decided outside. */
    method HandleOpen(id: string, jackConnects: bool) returns (fault: Option<Fault>)
      modifies this
      ensures Is(fault, Handle(old(View()), Open(id, jackConnects)))
    {
      clientId := id;
      if !jackConnects {
        Log(OpenError);
        state := Failed;
        return None;
      }
      Log(OpenReply);
      projectOpened := true;
      fault := StepStateMachine();
    }

    method HandleSave() returns (fault: Option<Fault>)
      modifies this
      ensures Is(fault, Handle(old(View()), Save))
    {
      Log(SaveReply);
      fault := None;
    }

    method HandleSignalList() returns (fault: Option<Fault>)
      modifies this
      ensures Is(fault, Handle(old(View()), SignalListQuery))
    {
      Log(OwnSignals);
      fault := None;
    }

    method HandleSignalReply(path: string, signal: Signal) returns (fault: Option<Fault>)
      modifies this
      ensures Is(fault, Handle(old(View()), SignalReply(path, signal)))
    {
      if path != OSC_SIGNAL_LIST {
        return Some(AssertionFailed);
      }
      if current.None? {
        return Some(AssertionFailed);
      }
      peers := Register(peers, current.value, signal);
      fault := None;
    }

    method HandlePeerHello(id: string) returns (fault: Option<Fault>)
      modifies this
      ensures Is(fault, Handle(old(View()), PeerHello(id)))
    {
      if Known(peers, id) {
        return Some(AssertionFailed);
      }
      peers := Emplace(peers, Peer(id, []));
      fault := StepStateMachine();
    }
  }
}
