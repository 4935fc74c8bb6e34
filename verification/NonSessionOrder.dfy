/** The order of the handshake, and the finality of failure, in every run of the session handler. */
module NonSessionOrder {
  import opened Wrappers
  import opened NonSessions
  import opened NonSessionRuns

  /** Every hello has the mark before it. */
  predicate HellosFollow(trace: seq<Mark>, m: Mark) {
    forall k :: 0 <= k < |trace| && trace[k].Hello? ==> m in trace[..k]
  }

  predicate HasHello(trace: seq<Mark>) {
    exists k :: 0 <= k < |trace| && trace[k].Hello?
  }

  /** Every signal-list request has a hello before it. */
  predicate RequestsFollowHello(trace: seq<Mark>) {
    forall k :: 0 <= k < |trace| && trace[k].Request? ==> HasHello(trace[..k])
  }

  lemma HellosFollowAppend(a: seq<Mark>, b: seq<Mark>, m: Mark)
    ensures HellosFollow(a + b, m) <==>
            HellosFollow(a, m) && forall k :: 0 <= k < |b| && b[k].Hello? ==> m in a || m in b[..k]
  {
    forall k | 0 <= k < |a| ensures (a + b)[k] == a[k] && (a + b)[..k] == a[..k] {
    }
    forall k | 0 <= k < |b| ensures (a + b)[|a| + k] == b[k] && (a + b)[..|a| + k] == a + b[..k] {
    }
    if HellosFollow(a, m) && forall k :: 0 <= k < |b| && b[k].Hello? ==> m in a || m in b[..k] {
      forall k | 0 <= k < |a + b| && (a + b)[k].Hello? ensures m in (a + b)[..k] {
        if k >= |a| { assert (a + b)[k] == b[k - |a|] && (a + b)[..k] == a + b[..k - |a|]; }
      }
    }
    if HellosFollow(a + b, m) {
      forall k | 0 <= k < |b| && b[k].Hello? ensures m in a || m in b[..k] {
        assert (a + b)[|a| + k].Hello?;
      }
      forall k | 0 <= k < |a| && a[k].Hello? ensures m in a[..k] {
        assert (a + b)[k].Hello?;
      }
    }
  }

  /** The new marks contain a hello exactly when it is time, right behind what stands before it. */
  lemma WhereTheHelloIs(s: Session, m: Message, k: nat)
    requires k < |NewMarks(s, m)|
    ensures NewMarks(s, m)[k].Hello? <==> HelloNow(s, m) && k == |OwnMarks(s, m)|
    ensures NewMarks(s, m)[k].Hello? ==> NewMarks(s, m)[..k] == OwnMarks(s, m)
    ensures NewMarks(s, m)[k].Request? ==>
              Asked(s, m).Some? && (HelloNow(s, m) ==> HasHello(NewMarks(s, m)[..k]))
  {
    var marks := NewMarks(s, m);
    if HelloNow(s, m) {
      assert !AnnounceNow(s, m);
      assert marks == OwnMarks(s, m) + [Hello(ClientIdAfter(s, m))]
                      + (if Asked(s, m).Some? then [Request(Asked(s, m).value)] else []);
      if marks[k].Request? { assert marks[..k][|OwnMarks(s, m)|].Hello?; }
    }
  }

  // ---- In every run ----

  /** Facts about the trace that the state remembers. */
  predicate Remembers(s: Session) {
    && ((s.state in {HandshakeAwaitReply, SessionAwaitOpen, PeerAwaitSignalList, Running} || s.handshakeComplete) ==>
          Announce in s.trace)
    && (s.state in {PeerAwaitSignalList, Running} ==> HasHello(s.trace))
    && (s.projectOpened ==> OpenReply in s.trace)
    && (s.state == SessionAwaitOpen ==> Accepted in s.trace)
  }

  lemma HasHelloAppend(a: seq<Mark>, b: seq<Mark>)
    ensures HasHello(a + b) <==> HasHello(a) || HasHello(b)
  {
    if HasHello(a) {
      var k :| 0 <= k < |a| && a[k].Hello?;
      assert (a + b)[k].Hello?;
    }
    if HasHello(b) {
      var k :| 0 <= k < |b| && b[k].Hello?;
      assert (a + b)[|a| + k].Hello?;
    }
  }

  /** The state after a message, in terms of the state before and what was just sent. */
  lemma RestingFacts(s: Session, m: Message)
    requires Consistent(s) && Handle(s, m).Ok?
    ensures var t := Handle(s, m).session;
            && (t.state in {PeerAwaitSignalList, Running} ==>
                  s.state in {PeerAwaitSignalList, Running} || HelloNow(s, m))
            && (t.state in {HandshakeAwaitReply, SessionAwaitOpen} || t.handshakeComplete ==>
                  s.state in {HandshakeAwaitReply, SessionAwaitOpen} || s.handshakeComplete || AnnounceNow(s, m))
            && (t.projectOpened ==> s.projectOpened || IsOpening(m))
            && (t.state == SessionAwaitOpen ==> s.state == SessionAwaitOpen || IsAcceptance(s, m))
  {
    hide Step;
    if Entry(s, m).Some? { EntryRuns(s, m); }
  }

  lemma NewMarksContain(s: Session, m: Message)
    ensures HelloNow(s, m) ==> HasHello(NewMarks(s, m))
    ensures AnnounceNow(s, m) ==> Announce in NewMarks(s, m)
    ensures IsOpening(m) ==> OpenReply in NewMarks(s, m)
    ensures IsAcceptance(s, m) ==> Accepted in NewMarks(s, m)
  {
    var marks := NewMarks(s, m);
    if HelloNow(s, m) { assert marks[|OwnMarks(s, m)|].Hello?; }
    if AnnounceNow(s, m) { assert marks[|OwnMarks(s, m)|] == Announce; }
    if IsOpening(m) { assert marks[0] == OpenReply; }
    if IsAcceptance(s, m) { assert marks[0] == Accepted; }
  }

  lemma StepRemembers(s: Session, m: Message)
    requires Consistent(s) && Remembers(s) && Handle(s, m).Ok?
    ensures Remembers(Handle(s, m).session)
  {
    hide Handle;
    hide NewMarks;
    var t := Handle(s, m).session;
    WhatIsSent(s, m);
    RestingFacts(s, m);
    NewMarksContain(s, m);
    HasHelloAppend(s.trace, NewMarks(s, m));
    StepIsConsistent(s, m);
  }

  lemma StepKeepsRequestOrder(s: Session, m: Message)
    requires Consistent(s) && Remembers(s) && Handle(s, m).Ok? && RequestsFollowHello(s.trace)
    ensures RequestsFollowHello(Handle(s, m).session.trace)
  {
    hide Handle;
    hide Step;
    var t := Handle(s, m).session;
    WhatIsSent(s, m);
    var marks := NewMarks(s, m);
    forall k | 0 <= k < |t.trace| && t.trace[k].Request? ensures HasHello(t.trace[..k]) {
      if k < |s.trace| {
        assert t.trace[..k] == s.trace[..k];
      } else {
        WhereTheHelloIs(s, m, k - |s.trace|);
        assert Asked(s, m).Some? && !HelloNow(s, m) ==> s.state in {PeerAwaitSignalList, Running};
        assert t.trace[..k] == s.trace + marks[..k - |s.trace|];
        HasHelloAppend(s.trace, marks[..k - |s.trace|]);
      }
    }
  }

  lemma StepKeepsHelloOrder(s: Session, m: Message, before: Mark)
    requires Consistent(s) && Handle(s, m).Ok? && HellosFollow(s.trace, before)
    ensures HellosFollow(Handle(s, m).session.trace, before) <==>
            (HelloNow(s, m) ==> before in s.trace || before in OwnMarks(s, m))
  {
    hide Handle;
    var t := Handle(s, m).session;
    WhatIsSent(s, m);
    var marks := NewMarks(s, m);
    HellosFollowAppend(s.trace, marks, before);
    forall k: nat | k < |marks|
      ensures marks[k].Hello? <==> HelloNow(s, m) && k == |OwnMarks(s, m)|
      ensures marks[k].Hello? ==> marks[..k] == OwnMarks(s, m)
    {
      WhereTheHelloIs(s, m, k);
    }
    if HelloNow(s, m) { assert marks[|OwnMarks(s, m)|].Hello?; }
  }

  /** In every run a hello comes after an announce, and a signal-list request after a hello. */
  lemma {:induction false} OrderInEveryRun(messages: seq<Message>)
    requires Run(NEW_SESSION, messages).Ok?
    ensures var s := Run(NEW_SESSION, messages).session;
            Consistent(s) && Remembers(s) && HellosFollow(s.trace, Announce) && RequestsFollowHello(s.trace)
  {
    if messages != [] {
      var earlier, m := messages[..|messages| - 1], messages[|messages| - 1];
      OrderInEveryRun(earlier);
      var s := Run(NEW_SESSION, earlier).session;
      StepIsConsistent(s, m);
      StepRemembers(s, m);
      StepKeepsRequestOrder(s, m);
      StepKeepsHelloOrder(s, m, Announce);
    }
  }

  // ---- Consent: the accepted reply and the open ----

  /** Every hello was preceded by an accepted announce reply and by a successful open. */
  predicate Consented(trace: seq<Mark>) {
    HellosFollow(trace, Accepted) && HellosFollow(trace, OpenReply)
  }

  /** A session past the handshake has been accepted, unless it was restarted. */
  predicate AcceptedSoFar(s: Session) {
    s.state in {SessionAwaitOpen, PeerAwaitSignalList, Running} ==> Accepted in s.trace
  }

  lemma AcceptanceIsTheWayIn(s: Session, m: Message)
    requires Consistent(s) && Handle(s, m).Ok?
    requires m == StartSession ==> !s.handshakeComplete
    ensures Handle(s, m).session.state in {SessionAwaitOpen, PeerAwaitSignalList, Running} ==>
              s.state in {SessionAwaitOpen, PeerAwaitSignalList, Running} || IsAcceptance(s, m)
  {
    hide Step;
    if Entry(s, m).Some? { EntryRuns(s, m); }
  }

  lemma StepKeepsAcceptance(s: Session, m: Message)
    requires Consistent(s) && AcceptedSoFar(s) && Handle(s, m).Ok?
    requires m == StartSession ==> !s.handshakeComplete
    ensures AcceptedSoFar(Handle(s, m).session)
  {
    hide Handle;
    hide NewMarks;
    AcceptanceIsTheWayIn(s, m);
    WhatIsSent(s, m);
    NewMarksContain(s, m);
  }

  /**
   A message keeps the consent to every hello exactly when it is not a restart of a completed
   handshake that was never accepted or never opened.
   */
  lemma ConsentIsKeptIff(s: Session, m: Message)
    requires Consistent(s) && Remembers(s) && Consented(s.trace) && Handle(s, m).Ok?
    ensures Consented(Handle(s, m).session.trace) <==>
            (m == StartSession && s.handshakeComplete ==> Accepted in s.trace && OpenReply in s.trace)
  {
    hide Handle;
    StepKeepsHelloOrder(s, m, Accepted);
    StepKeepsHelloOrder(s, m, OpenReply);
  }

  // Which messages bring the consent.

  /** An announce reply with the required capability arrives while it is awaited. */
  predicate AcceptanceArrived(messages: seq<Message>) {
    messages != [] &&
    (var earlier := messages[..|messages| - 1];
     || AcceptanceArrived(earlier)
     || (Run(NEW_SESSION, earlier).Ok? && IsAcceptance(Run(NEW_SESSION, earlier).session, messages[|messages| - 1])))
  }

  /** An open arrives for which JACK connects. */
  predicate OpeningArrived(messages: seq<Message>) {
    exists k :: 0 <= k < |messages| && IsOpening(messages[k])
  }

  lemma OpeningArrivedSnoc(messages: seq<Message>)
    requires messages != []
    ensures OpeningArrived(messages) <==>
            OpeningArrived(messages[..|messages| - 1]) || IsOpening(messages[|messages| - 1])
  {
    var earlier := messages[..|messages| - 1];
    if OpeningArrived(earlier) {
      var k :| 0 <= k < |earlier| && IsOpening(earlier[k]);
      assert messages[k] == earlier[k];
    }
    if OpeningArrived(messages) && !IsOpening(messages[|messages| - 1]) {
      var k :| 0 <= k < |messages| && IsOpening(messages[k]);
      assert earlier[k] == messages[k];
    }
  }

  lemma NewMarksOnlyContain(s: Session, m: Message)
    ensures Accepted in NewMarks(s, m) <==> IsAcceptance(s, m)
    ensures OpenReply in NewMarks(s, m) <==> IsOpening(m)
  {
    hide Asked;
    NewMarksContain(s, m);
  }

  /** The marks of consent are in the trace exactly when the messages that give it have arrived. */
  lemma {:induction false} MarksTellMessages(messages: seq<Message>)
    requires Run(NEW_SESSION, messages).Ok?
    ensures var trace := Run(NEW_SESSION, messages).session.trace;
            && (Accepted in trace <==> AcceptanceArrived(messages))
            && (OpenReply in trace <==> OpeningArrived(messages))
  {
    if messages != [] {
      hide Handle;
      hide NewMarks;
      hide OpeningArrived;
      hide IsAcceptance;
      hide IsOpening;
      var earlier, m := messages[..|messages| - 1], messages[|messages| - 1];
      MarksTellMessages(earlier);
      RunIsConsistent(earlier);
      var s := Run(NEW_SESSION, earlier).session;
      WhatIsSent(s, m);
      NewMarksOnlyContain(s, m);
      OpeningArrivedSnoc(messages);
    } else {
      assert !OpeningArrived(messages);
    }
  }

  /** Every start that finds the handshake complete comes after an acceptance and a successful open. */
  predicate RestartsWithConsent(messages: seq<Message>) {
    messages == [] ||
    (var earlier, m := messages[..|messages| - 1], messages[|messages| - 1];
     && RestartsWithConsent(earlier)
     && (m == StartSession && Run(NEW_SESSION, earlier).Ok? && Run(NEW_SESSION, earlier).session.handshakeComplete ==>
           AcceptanceArrived(earlier) && OpeningArrived(earlier)))
  }

  lemma ConsentIsNotRegained(s: Session, m: Message)
    requires Consistent(s) && Handle(s, m).Ok? && Consented(Handle(s, m).session.trace)
    ensures Consented(s.trace)
  {
    hide Handle;
    hide NewMarks;
    WhatIsSent(s, m);
    HellosFollowAppend(s.trace, NewMarks(s, m), Accepted);
    HellosFollowAppend(s.trace, NewMarks(s, m), OpenReply);
  }

  /**
   Over every run: each hello has the consent of an accepted announce reply and a successful open
   exactly when no start has found the handshake complete before both of these had arrived.
   */
  lemma {:induction false} ConsentIff(messages: seq<Message>)
    requires Run(NEW_SESSION, messages).Ok?
    ensures Consented(Run(NEW_SESSION, messages).session.trace) <==> RestartsWithConsent(messages)
  {
    if messages != [] {
      hide Handle;
      hide Consented;
      hide AcceptanceArrived;
      hide OpeningArrived;
      hide Remembers;
      var earlier, m := messages[..|messages| - 1], messages[|messages| - 1];
      ConsentIff(earlier);
      OrderInEveryRun(earlier);
      MarksTellMessages(earlier);
      var s := Run(NEW_SESSION, earlier).session;
      if Consented(s.trace) {
        ConsentIsKeptIff(s, m);
      } else if Consented(Handle(s, m).session.trace) {
        ConsentIsNotRegained(s, m);
      }
    } else {
      assert Consented(NEW_SESSION.trace);
    }
  }

  /** That is not an idle condition: a restart after a refused handshake greets without consent. */
  lemma RestartSkipsConsent()
    ensures var messages := [StartSession, AnnounceReply(NSM_ANNOUNCE, ""), StartSession];
            && Run(NEW_SESSION, messages).Ok?
            && Run(NEW_SESSION, messages).session.trace == [Announce, Hello("")]
            && !Consented(Run(NEW_SESSION, messages).session.trace)
  {
    hide Step;
    var m1, m2, m3 := StartSession, AnnounceReply(NSM_ANNOUNCE, ""), StartSession;
    assert [m1, m2, m3][..2] == [m1, m2] && [m1, m2][..1] == [m1] && [m1][..0] == [];
    var s1 := NEW_SESSION.(state := HandshakeAwaitReply, trace := [Announce]);
    var s2 := s1.(state := Failed, handshakeComplete := true);
    var s3 := s2.(state := Running, trace := [Announce, Hello("")]);
    EntryRuns(NEW_SESSION, m1);
    assert Run(NEW_SESSION, [m1]) == Ok(s1) by { assert [] + ([Announce] + []) == [Announce]; }
    assert !HasSubstring("", REQUIRED_CAPABILITY);
    EntryRuns(s1, m2);
    assert Run(NEW_SESSION, [m1, m2]) == Ok(s2);
    EntryRuns(s2, m3);
    assert Run(NEW_SESSION, [m1, m2, m3]) == Ok(s3) by {
      assert [Announce] + ([] + [Hello("")]) == [Announce, Hello("")];
    }
    assert s3.trace[1].Hello? && Accepted !in s3.trace[..1];
  }

  /** Before the first start nothing is sent and no handshake completes. */
  lemma {:induction false} NothingBeforeStart(messages: seq<Message>)
    requires Starts(messages) == 0 && Run(NEW_SESSION, messages).Ok?
    ensures var s := Run(NEW_SESSION, messages).session;
            s.state in {NoSession, Failed} && !s.handshakeComplete && s.current == None && CountHellos(s.trace) == 0
  {
    if messages != [] {
      hide Step;
      var earlier, m := messages[..|messages| - 1], messages[|messages| - 1];
      NothingBeforeStart(earlier);
      var s := Run(NEW_SESSION, earlier).session;
      RunIsConsistent(earlier);
      CountMarks(s, m);
      if Entry(s, m).Some? { EntryRuns(s, m); }
    }
  }

  /**
   With a single session start there is at most one hello; it comes after the announce, after an
   accepted announce reply and after a successful open, and before any signal-list request.
   */
  lemma {:induction false} SingleStartOrder(messages: seq<Message>)
    requires Starts(messages) <= 1 && Run(NEW_SESSION, messages).Ok?
    ensures var s := Run(NEW_SESSION, messages).session;
            && CountHellos(s.trace) <= 1
            && HellosFollow(s.trace, Announce) && Consented(s.trace) && RequestsFollowHello(s.trace)
            && AcceptedSoFar(s)
  {
    HellosNeverExceedStarts(messages);
    OrderInEveryRun(messages);
    if messages != [] {
      hide Handle;
      var earlier, m := messages[..|messages| - 1], messages[|messages| - 1];
      SingleStartOrder(earlier);
      OrderInEveryRun(earlier);
      var s := Run(NEW_SESSION, earlier).session;
      if m == StartSession { NothingBeforeStart(earlier); }
      ConsentIsKeptIff(s, m);
      StepKeepsAcceptance(s, m);
    }
  }

  // ---- What the flags remember ----

  lemma ContainsIffSubstring(s: string, t: string)
    ensures HasSubstring(s, t) <==> exists a: string, b: string :: s == a + t + b
  {
    if i: nat :| i <= |s| && OccursAt(s, t, i) {
      assert s == s[..i] + t + s[i + |t|..];
    }
    if a: string, b: string :| s == a + t + b {
      assert s[|a|..|a| + |t|] == t;
      assert OccursAt(s, t, |a|);
    }
  }

  /**
   The announce reply that is waited for is accepted exactly if the word stands anywhere in the server's
   capabilities; otherwise it fails the session. A reply at any other time fails it too.
   */
  lemma AcceptedIffListed(s: Session, capabilities: string)
    requires Consistent(s) && Handle(s, AnnounceReply("/nsm/server/announce", capabilities)).Ok?
    ensures var t := Handle(s, AnnounceReply("/nsm/server/announce", capabilities)).session;
            var listed := exists a: string, b: string :: capabilities == a + "broadcast" + b;
            && (t.state != Failed <==> s.state == HandshakeAwaitReply && listed)
            && (t.state != Failed ==> s.trace + [Accepted] <= t.trace && t.handshakeComplete)
            && (t.state == Failed ==> t.trace == s.trace)
  {
    hide Step;
    hide HasSubstring;
    ContainsIffSubstring(capabilities, "broadcast");
    EntryRuns(s, AnnounceReply("/nsm/server/announce", capabilities));
  }

  /** An announce reply arrives as the k-th message while it is waited for, and no announce error follows. */
  predicate AnsweredAt(messages: seq<Message>, k: nat)
    requires k < |messages|
  {
    && Run(NEW_SESSION, messages[..k]).Ok? && Run(NEW_SESSION, messages[..k]).session.state == HandshakeAwaitReply
    && messages[k].AnnounceReply? && messages[k].path == "/nsm/server/announce"
    && forall j :: k < j < |messages| ==> !IsAnnounceError(messages[j])
  }

  predicate IsAnnounceError(m: Message) {
    m.Error? && m.path == "/nsm/server/announce"
  }

  lemma AnsweredAtSnoc(messages: seq<Message>, k: nat)
    requires messages != [] && k < |messages| - 1
    ensures AnsweredAt(messages, k) <==>
            AnsweredAt(messages[..|messages| - 1], k) && !IsAnnounceError(messages[|messages| - 1])
  {
    hide Run;
    var earlier := messages[..|messages| - 1];
    assert earlier[..k] == messages[..k] && earlier[k] == messages[k];
    assert forall j :: k < j < |earlier| ==> earlier[j] == messages[j];
  }

  /** Which open came last. */
  predicate LastOpen(messages: seq<Message>, k: nat)
    requires k < |messages|
  {
    messages[k].Open? && forall j :: k < j < |messages| ==> !messages[j].Open?
  }

  lemma FlagsStep(s: Session, m: Message)
    requires Consistent(s) && Handle(s, m).Ok?
    ensures var t := Handle(s, m).session;
            && (t.handshakeComplete <==>
                  || (s.state == HandshakeAwaitReply && m.AnnounceReply? && m.path == "/nsm/server/announce")
                  || (s.handshakeComplete && !IsAnnounceError(m)))
            && (t.projectOpened <==> s.projectOpened || IsOpening(m))
            && t.clientId == if m.Open? then m.clientId else s.clientId
  {
    hide Step;
    if Entry(s, m).Some? { EntryRuns(s, m); }
  }

  /**
   The fields in terms of the messages that have arrived: the handshake is complete exactly if a reply
   arrived in time and no announce error since, the project is open exactly if some open succeeded, and
   the client id is that of the last open.
   */
  lemma {:induction false} FlagsTellMessages(messages: seq<Message>)
    requires Run(NEW_SESSION, messages).Ok?
    ensures var s := Run(NEW_SESSION, messages).session;
            && (s.handshakeComplete <==> exists k: nat :: k < |messages| && AnsweredAt(messages, k))
            && (s.projectOpened <==> OpeningArrived(messages))
            && (forall k: nat :: k < |messages| && LastOpen(messages, k) ==> s.clientId == messages[k].clientId)
  {
    if messages != [] {
      hide Handle;
      hide AnsweredAt;
      hide OpeningArrived;
      hide IsAnnounceError;
      var n := |messages| - 1;
      var earlier, m := messages[..n], messages[n];
      FlagsTellMessages(earlier);
      RunIsConsistent(earlier);
      var s := Run(NEW_SESSION, earlier).session;
      FlagsStep(s, m);
      OpeningArrivedSnoc(messages);
      forall k: nat | k < n ensures AnsweredAt(messages, k) <==> AnsweredAt(earlier, k) && !IsAnnounceError(m) {
        AnsweredAtSnoc(messages, k);
      }
      AnsweredLast(messages);
      forall k: nat | k < n && LastOpen(messages, k) ensures LastOpen(earlier, k) && !m.Open? {
        assert forall j :: k < j < n ==> earlier[j] == messages[j];
      }
    }
  }

  lemma AnsweredLast(messages: seq<Message>)
    requires messages != []
    ensures var n := |messages| - 1;
            AnsweredAt(messages, n) <==>
              && Run(NEW_SESSION, messages[..n]).Ok? && Run(NEW_SESSION, messages[..n]).session.state == HandshakeAwaitReply
              && messages[n].AnnounceReply? && messages[n].path == "/nsm/server/announce"
  {
    hide Run;
  }

  // ---- Every request is answered ----

  predicate IsAnswer(m: Mark) {
    m.OpenReply? || m.OpenError? || m.SaveReply? || m.OwnSignals?
  }

  /** The answer a message asks for, if any. */
  function AnswerTo(m: Message): seq<Mark> {
    match m
    case Open(_, jackConnects) => if jackConnects then [OpenReply] else [OpenError]
    case Save => [SaveReply]
    case SignalListQuery => [OwnSignals]
    case _ => []
  }

  /** The answers in a trace, and those that the messages ask for. */
  function Answers(trace: seq<Mark>): seq<Mark> {
    if trace == [] then []
    else
      var m := trace[|trace| - 1];
      Answers(trace[..|trace| - 1]) + (if IsAnswer(m) then [m] else [])
  }

  function Awaited(messages: seq<Message>): seq<Mark> {
    if messages == [] then []
    else
      Awaited(messages[..|messages| - 1]) + AnswerTo(messages[|messages| - 1])
  }

  lemma {:induction false} AnswersAppend(a: seq<Mark>, b: seq<Mark>)
    ensures Answers(a + b) == Answers(a) + Answers(b)
    decreases |b|
  {
    if b == [] {
      assert a + b == a;
    } else {
      AnswersAppend(a, b[..|b| - 1]);
      assert (a + b)[..|a + b| - 1] == a + b[..|b| - 1];
    }
  }

  lemma {:induction false} NoAnswers(marks: seq<Mark>)
    requires forall k :: 0 <= k < |marks| ==> !IsAnswer(marks[k])
    ensures Answers(marks) == []
  {
    if marks != [] { NoAnswers(marks[..|marks| - 1]); }
  }

  lemma AnswersInNewMarks(s: Session, m: Message)
    ensures Answers(NewMarks(s, m)) == AnswerTo(m)
  {
    hide Asked;
    hide HelloNow;
    hide AnnounceNow;
    hide OwnMarks;
    hide Answers;
    var own := OwnMarks(s, m);
    var sends := NewMarks(s, m)[|own|..];
    assert NewMarks(s, m) == own + sends;
    AnswersAppend(own, sends);
    NoAnswers(sends);
    OwnAnswer(s, m);
  }

  lemma OwnAnswer(s: Session, m: Message)
    ensures Answers(OwnMarks(s, m)) == AnswerTo(m)
  {
    hide IsAcceptance;
    if OwnMarks(s, m) != [] { assert OwnMarks(s, m)[..0] == []; }
  }

  /** In every run, every open, save and signal-list query is answered once and in order, and nothing else is. */
  lemma {:induction false} EveryRequestIsAnswered(messages: seq<Message>)
    requires Run(NEW_SESSION, messages).Ok?
    ensures Answers(Run(NEW_SESSION, messages).session.trace) == Awaited(messages)
  {
    if messages != [] {
      hide Handle;
      hide NewMarks;
      hide Answers;
      hide AnswerTo;
      var earlier, m := messages[..|messages| - 1], messages[|messages| - 1];
      EveryRequestIsAnswered(earlier);
      RunIsConsistent(earlier);
      var s := Run(NEW_SESSION, earlier).session;
      WhatIsSent(s, m);
      AnswersAppend(s.trace, NewMarks(s, m));
      AnswersInNewMarks(s, m);
    }
  }

  // ---- Failure is final ----

  /** Exactly these messages fail a session that has not failed. */
  lemma FailsExactlyWhen(s: Session, m: Message)
    requires Consistent(s) && s.state != Failed && Handle(s, m).Ok?
    ensures Handle(s, m).session.state == Failed <==>
            || (m.AnnounceReply? && m.path == NSM_ANNOUNCE
                && (s.state != HandshakeAwaitReply || !HasSubstring(m.capabilities, REQUIRED_CAPABILITY)))
            || (m.Error? && m.path == NSM_ANNOUNCE)
            || (m.Open? && !m.jackConnects)
  {
    hide Step;
    if Entry(s, m).Some? { EntryRuns(s, m); }
  }

  /** The protocol messages in a trace. */
  function Sends(trace: seq<Mark>): seq<Mark> {
    if trace == [] then []
    else
      var m := trace[|trace| - 1];
      var earlier := Sends(trace[..|trace| - 1]);
      if m.Announce? || m.Hello? || m.Request? then earlier + [m] else earlier
  }

  lemma {:induction false} SendsAppend(a: seq<Mark>, b: seq<Mark>)
    ensures Sends(a + b) == Sends(a) + Sends(b)
    decreases |b|
  {
    if b == [] {
      assert a + b == a;
    } else {
      SendsAppend(a, b[..|b| - 1]);
      assert (a + b)[..|a + b| - 1] == a + b[..|b| - 1];
    }
  }

  lemma FailedStays(s: Session, m: Message)
    requires Consistent(s) && s.state == Failed && m != StartSession && Handle(s, m).Ok?
    ensures Handle(s, m).session.state == Failed
  {
    hide Step;
    if Entry(s, m).Some? { EntryRuns(s, m); }
  }

  lemma FailedStep(s: Session, m: Message)
    requires Consistent(s) && s.state == Failed && m != StartSession && Handle(s, m).Ok?
    ensures Handle(s, m).session.state == Failed
    ensures Sends(Handle(s, m).session.trace) == Sends(s.trace)
  {
    hide Handle;
    FailedStays(s, m);
    WhatIsSent(s, m);
    var own := OwnMarks(s, m);
    assert NewMarks(s, m) == own;
    SendsAppend(s.trace, own);
    if own != [] { assert own[..0] == []; }
  }

  /** After a failure nothing is announced, greeted or asked any more until the next start. */
  lemma {:induction false} FailureIsFinal(s: Session, messages: seq<Message>)
    requires Consistent(s) && s.state == Failed && StartSession !in messages && Run(s, messages).Ok?
    ensures Run(s, messages).session.state == Failed
    ensures Sends(Run(s, messages).session.trace) == Sends(s.trace)
    ensures Consistent(Run(s, messages).session)
  {
    if messages != [] {
      hide Handle;
      FailureIsFinal(s, messages[..|messages| - 1]);
      FailedStep(Run(s, messages[..|messages| - 1]).session, messages[|messages| - 1]);
      StepIsConsistent(Run(s, messages[..|messages| - 1]).session, messages[|messages| - 1]);
    }
  }
}
