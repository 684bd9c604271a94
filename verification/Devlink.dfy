/** Device-to-device history transfer (apps/web/src/services/devicelink.ts): an exporter, an importer and
    the relay between them. Each event is one stretch of a handler between two awaits, so the events of
    the two devices, their users and the relay interleave freely. Both devices are honest and share the
    channel key once they have one; frames keep their order and a broken link loses a tail of them. */
module Devlink {
  import opened Hiding

  datatype Rec = Rec(id: string, content: string)

  datatype Frame = Hello | Ready | LinkInfo | Manifest(count: nat) | Chunk(index: nat, rec: Rec) | Done | PeerLeft

  datatype Outcome = Pending | Resolved(count: nat) | Rejected

  datatype Exporter = Exporter(
    key: bool, confirmed: bool, sentReady: bool, readyOut: bool, peerReady: bool,
    streaming: bool, next: nat, finished: bool, outcome: Outcome)

  /** `seen` counts the stream's frames handled so far and `taken` says of each chunk whether its import
      succeeded. */
  datatype Importer = Importer(
    key: bool, helloOut: bool, confirmed: bool, sentReady: bool, readyOut: bool,
    total: nat, store: seq<Rec>, finished: bool, outcome: Outcome, seen: nat, taken: seq<bool>)

  datatype Wire = Wire(open: bool, queue: seq<Frame>)

  datatype State = State(exp: Exporter, imp: Importer, toExp: Wire, toImp: Wire)

  const START: State := State(
    Exporter(false, false, false, false, false, false, 0, false, Pending),
    Importer(false, false, false, false, false, 0, [], false, Pending, 0, []),
    Wire(true, []), Wire(true, []))

  datatype Event =
    | ExpConfirm | ExpReceive(ok: bool) | ExpReadyOut | ExpLinkOut | ExpMaybeStream | ExpSend | ExpFail
    | ImpKey | ImpHello | ImpConfirm | ImpReceive(ok: bool) | ImpReadyOut | ImpLinkOut | ImpFail
    | CutToExp(keep: nat) | CutToImp(keep: nat) | TellExp | TellImp

  // The stream: a manifest, a chunk for each record, a closing frame.

  function Length(recs: seq<Rec>): nat { |recs| + 2 }

  function StreamFrame(recs: seq<Rec>, k: nat): Frame
    requires k < Length(recs)
  {
    if k == 0 then Manifest(|recs|) else if k <= |recs| then Chunk(k - 1, recs[k - 1]) else Done
  }

  predicate IsData(f: Frame) { f.Manifest? || f.Chunk? || f.Done? }

  function Data(q: seq<Frame>): seq<Frame> {
    if q == [] then [] else (if IsData(q[0]) then [q[0]] else []) + Data(q[1..])
  }

  function Send(w: Wire, f: Frame): Wire { if w.open then w.(queue := w.queue + [f]) else w }

  function Min(a: nat, b: nat): nat { if a < b then a else b }

  function Cut(w: Wire, keep: nat): Wire { Wire(false, w.queue[..Min(keep, |w.queue|)]) }

  function Close(s: State): State { s.(toExp := s.toExp.(open := false), toImp := s.toImp.(open := false)) }

  function Settle(o: Outcome, to: Outcome): Outcome { if o.Pending? then to else o }

  // The exporter's handlers.

  function ExpTryReady(e: Exporter): Exporter {
    if !e.key || !e.confirmed || e.sentReady then e else e.(sentReady := true)
  }

  function MaybeStream(e: Exporter): Exporter {
    if e.streaming || !e.key || !e.sentReady || !e.peerReady then e else e.(streaming := true)
  }

  function FailExporter(s: State): State {
    if s.exp.finished then s
    else Close(s.(exp := s.exp.(finished := true, outcome := Settle(s.exp.outcome, Rejected))))
  }

  function ExporterTakes(s: State, f: Frame, ok: bool): State {
    match f
    case Hello => if ok then s.(exp := ExpTryReady(s.exp.(key := true))) else FailExporter(s)
    case Ready => if s.exp.key then s.(exp := MaybeStream(s.exp.(peerReady := true))) else s
    case PeerLeft => FailExporter(s)
    case _ => s
  }

  /** The next frame of the stream; after the last one the transfer is done. */
  function StreamOn(s: State, recs: seq<Rec>): State
    requires s.exp.next < Length(recs)
  {
    var e := s.exp.(next := s.exp.next + 1);
    s.(toImp := Send(s.toImp, StreamFrame(recs, s.exp.next)),
       exp := if e.next == Length(recs) then e.(finished := true, outcome := Settle(e.outcome, Resolved(|recs|))) else e)
  }

  // The importer's handlers.

  function ImpTryReady(i: Importer): Importer {
    if !i.key || !i.confirmed || i.sentReady || i.finished then i else i.(sentReady := true)
  }

  function FailImporter(s: State): State {
    if s.imp.finished then s
    else Close(s.(imp := s.imp.(finished := true, outcome := Settle(s.imp.outcome, Rejected))))
  }

  function ImporterTakes(s: State, f: Frame, ok: bool): State {
    var i := if IsData(f) then s.imp.(seen := s.imp.seen + 1) else s.imp;
    match f
    case Manifest(n) => s.(imp := i.(total := n))
    case Chunk(_, rec) => s.(imp := i.(store := if ok then i.store + [rec] else i.store, taken := i.taken + [ok]))
    case Done => Close(s.(imp := i.(finished := true, outcome := Settle(i.outcome, Resolved(|i.store|)))))
    case PeerLeft => FailImporter(s)
    case _ => s
  }

  /** One event; an event that cannot happen in s changes nothing. */
  function Step(recs: seq<Rec>, s: State, ev: Event): State {
    match ev
    case ExpConfirm => s.(exp := ExpTryReady(s.exp.(confirmed := true)))
    case ExpReceive(ok) =>
      if s.toExp.queue == [] then s
      else ExporterTakes(s.(toExp := s.toExp.(queue := s.toExp.queue[1..])), s.toExp.queue[0], ok)
    case ExpReadyOut =>
      if s.exp.sentReady && !s.exp.readyOut
      then s.(exp := s.exp.(readyOut := true), toImp := Send(s.toImp, Ready)) else s
    case ExpLinkOut => if s.exp.readyOut then s.(toImp := Send(s.toImp, LinkInfo)) else s
    case ExpMaybeStream => if s.exp.readyOut then s.(exp := MaybeStream(s.exp)) else s
    case ExpSend => if s.exp.streaming && s.exp.next < Length(recs) then StreamOn(s, recs) else s
    case ExpFail => FailExporter(s)
    case ImpKey => s.(imp := s.imp.(key := true))
    case ImpHello =>
      if s.imp.key && !s.imp.helloOut
      then s.(imp := ImpTryReady(s.imp.(helloOut := true)), toExp := Send(s.toExp, Hello)) else s
    case ImpConfirm => s.(imp := ImpTryReady(s.imp.(confirmed := true)))
    case ImpReceive(ok) =>
      if s.toImp.queue == [] || !s.imp.key then s
      else ImporterTakes(s.(toImp := s.toImp.(queue := s.toImp.queue[1..])), s.toImp.queue[0], ok)
    case ImpReadyOut =>
      if s.imp.sentReady && !s.imp.readyOut
      then s.(imp := s.imp.(readyOut := true), toExp := Send(s.toExp, Ready)) else s
    case ImpLinkOut => if s.imp.readyOut then s.(toExp := Send(s.toExp, LinkInfo)) else s
    case ImpFail => FailImporter(s)
    case CutToExp(keep) => s.(toExp := Cut(s.toExp, keep))
    case CutToImp(keep) => s.(toImp := Cut(s.toImp, keep))
    case TellExp => s.(toExp := Wire(false, s.toExp.queue + [PeerLeft]))
    case TellImp => s.(toImp := Wire(false, s.toImp.queue + [PeerLeft]))
  }

  function Run(recs: seq<Rec>, events: seq<Event>): State
    decreases |events|
  {
    if events == [] then START else Step(recs, Run(recs, events[..|events| - 1]), events[|events| - 1])
  }

  // Consent: what each flag and frame of the handshake stands for.

  ghost predicate Consent(s: State) {
    && (s.exp.sentReady ==> s.exp.confirmed)
    && (s.imp.sentReady ==> s.imp.confirmed)
    && (s.imp.readyOut ==> s.imp.sentReady)
    && (s.exp.peerReady || Ready in s.toExp.queue ==> s.imp.sentReady)
    && (s.exp.streaming ==> s.exp.sentReady && s.exp.peerReady)
    && (s.exp.next > 0 ==> s.exp.streaming)
  }

  lemma ConsentOnFail(s: State)
    requires Consent(s)
    ensures Consent(FailExporter(s)) && Consent(FailImporter(s))
  {}

  lemma ConsentOnReceive(s: State, ok: bool)
    requires Consent(s) && s.toExp.queue != []
    ensures Consent(ExporterTakes(s.(toExp := s.toExp.(queue := s.toExp.queue[1..])), s.toExp.queue[0], ok))
  {
    var f, t := s.toExp.queue[0], s.(toExp := s.toExp.(queue := s.toExp.queue[1..]));
    assert f in s.toExp.queue;
    assert Ready in t.toExp.queue ==> Ready in s.toExp.queue;
    ConsentOnFail(t);
  }

  lemma ConsentOnImport(s: State, f: Frame, ok: bool)
    requires Consent(s)
    ensures Consent(ImporterTakes(s, f, ok))
  {}

  lemma ConsentOnSend(s: State, f: Frame)
    requires Consent(s) && (f == Ready ==> s.imp.sentReady)
    ensures Consent(s.(toExp := Send(s.toExp, f)))
  {}

  lemma ConsentKept(recs: seq<Rec>, s: State, ev: Event)
    requires Consent(s)
    ensures Consent(Step(recs, s, ev))
  {
    match ev
    case ExpReceive(ok) =>
      if s.toExp.queue != [] {
        ConsentOnReceive(s, ok);
      }
    case ImpReceive(ok) =>
      if s.toImp.queue != [] {
        ConsentOnImport(s.(toImp := s.toImp.(queue := s.toImp.queue[1..])), s.toImp.queue[0], ok);
      }
    case ExpFail => ConsentOnFail(s);
    case ImpFail => ConsentOnFail(s);
    case ImpHello => ConsentOnSend(s, Hello);
    case ImpReadyOut =>
      if s.imp.sentReady {
        ConsentOnSend(s, Ready);
      }
    case ImpLinkOut => ConsentOnSend(s, LinkInfo);
    case CutToExp(keep) =>
      assert Ready in Cut(s.toExp, keep).queue ==> Ready in s.toExp.queue;
    case _ =>
  }

  /** The records whose import succeeded. */
  function Kept(recs: seq<Rec>, taken: seq<bool>): seq<Rec>
    requires |taken| <= |recs|
  {
    if taken == [] then [] else
    var k := |taken| - 1;
    Kept(recs, taken[..k]) + if taken[k] then [recs[k]] else []
  }

  predicate InStream(recs: seq<Rec>, q: seq<Frame>, seen: nat) {
    seen + |q| <= Length(recs) && forall k :: 0 <= k < |q| ==> q[k] == StreamFrame(recs, seen + k)
  }

  /** The frames in flight continue the stream where the importer stands, and reach where the exporter
      stands while the wire is whole. */
  ghost predicate Flow(recs: seq<Rec>, w: Wire, next: nat, seen: nat) {
    && InStream(recs, Data(w.queue), seen)
    && seen + |Data(w.queue)| <= next <= Length(recs)
    && (w.open ==> seen + |Data(w.queue)| == next)
  }

  /** What the importer has made of the frames it saw. */
  ghost predicate Taken(recs: seq<Rec>, i: Importer) {
    && |i.taken| == (if i.seen == 0 then 0 else Min(i.seen - 1, |recs|))
    && i.store == Kept(recs, i.taken)
    && (i.seen > 0 ==> i.total == |recs|)
    && (i.outcome.Resolved? ==> i.seen == Length(recs) && i.outcome.count == |i.store|)
  }

  ghost predicate Inv(recs: seq<Rec>, s: State) {
    Consent(s) && Follows(recs, s)
  }

  lemma {:induction false} DataAppend(q: seq<Frame>, f: Frame)
    ensures Data(q + [f]) == Data(q) + if IsData(f) then [f] else []
  {
    if q != [] {
      DataAppend(q[1..], f);
      assert (q + [f])[1..] == q[1..] + [f];
    }
  }

  lemma {:induction false} DataTake(q: seq<Frame>, n: nat)
    requires n <= |q|
    ensures |Data(q[..n])| <= |Data(q)| && Data(q[..n]) == Data(q)[..|Data(q[..n])|]
  {
    if n > 0 {
      DataTake(q[1..], n - 1);
      assert q[..n][1..] == q[1..][..n - 1];
    }
  }

  lemma SendFlow(recs: seq<Rec>, w: Wire, next: nat, seen: nat, f: Frame)
    requires Flow(recs, w, next, seen)
    ensures !IsData(f) ==> Flow(recs, Send(w, f), next, seen)
    ensures next < Length(recs) && f == StreamFrame(recs, next) ==> Flow(recs, Send(w, f), next + 1, seen)
  {
    DataAppend(w.queue, f);
  }

  lemma CutFlow(recs: seq<Rec>, w: Wire, next: nat, seen: nat, keep: nat)
    requires Flow(recs, w, next, seen)
    ensures Flow(recs, Cut(w, keep), next, seen)
  {
    DataTake(w.queue, Min(keep, |w.queue|));
  }

  /** Handling the head of the queue advances the stream exactly when it is one of its frames. */
  lemma TakeFlow(recs: seq<Rec>, w: Wire, next: nat, seen: nat)
    requires Flow(recs, w, next, seen) && w.queue != []
    ensures IsData(w.queue[0]) ==> seen < Length(recs) && w.queue[0] == StreamFrame(recs, seen)
    ensures Flow(recs, w.(queue := w.queue[1..]), next, if IsData(w.queue[0]) then seen + 1 else seen)
  {
    var q := w.queue;
    if IsData(q[0]) {
      assert Data(q)[0] == q[0] && Data(q)[1..] == Data(q[1..]);
      forall k | 0 <= k < |Data(q[1..])| ensures Data(q[1..])[k] == StreamFrame(recs, seen + 1 + k) {
        assert Data(q[1..])[k] == Data(q)[k + 1];
      }
    } else {
      assert Data(q) == Data(q[1..]);
    }
  }

  lemma TakenKept(recs: seq<Rec>, s: State, f: Frame, ok: bool)
    requires Taken(recs, s.imp)
    requires IsData(f) ==> s.imp.seen < Length(recs) && f == StreamFrame(recs, s.imp.seen)
    ensures Taken(recs, ImporterTakes(s, f, ok).imp)
  {
    if f.Chunk? {
      var taken := s.imp.taken + [ok];
      assert taken[..|taken| - 1] == s.imp.taken;
    }
  }

  /** The part of the invariant that follows the stream. */
  ghost predicate Follows(recs: seq<Rec>, s: State) {
    && Flow(recs, s.toImp, s.exp.next, s.imp.seen)
    && Taken(recs, s.imp)
    && (s.exp.outcome.Resolved? ==> s.exp.next == Length(recs) && s.exp.outcome.count == |recs|)
  }

  lemma FollowsOnFail(recs: seq<Rec>, s: State)
    requires Follows(recs, s)
    ensures Follows(recs, FailExporter(s)) && Follows(recs, FailImporter(s))
  {}

  lemma FollowsOnReceive(recs: seq<Rec>, s: State, f: Frame, ok: bool)
    requires Follows(recs, s)
    ensures Follows(recs, ExporterTakes(s, f, ok))
  {
    FollowsOnFail(recs, s);
    ReceiveTouches(s, f, ok);
    if SameStream(s, ExporterTakes(s, f, ok)) {
      FollowsAlike(recs, s, ExporterTakes(s, f, ok));
    }
  }

  lemma ReceiveTouches(s: State, f: Frame, ok: bool)
    ensures ExporterTakes(s, f, ok) == FailExporter(s) || SameStream(s, ExporterTakes(s, f, ok))
  {}

  predicate SameStream(s: State, t: State) {
    && t.toImp == s.toImp && t.exp.next == s.exp.next && t.exp.outcome == s.exp.outcome
    && t.imp.seen == s.imp.seen && t.imp.taken == s.imp.taken && t.imp.store == s.imp.store && t.imp.outcome == s.imp.outcome && t.imp.total == s.imp.total
  }

  lemma FollowsAlike(recs: seq<Rec>, s: State, t: State)
    requires Follows(recs, s) && SameStream(s, t)
    ensures Follows(recs, t)
  {}

  lemma FollowsOnImport(recs: seq<Rec>, s: State, ok: bool)
    requires Follows(recs, s) && s.toImp.queue != []
    ensures Follows(recs, ImporterTakes(s.(toImp := s.toImp.(queue := s.toImp.queue[1..])), s.toImp.queue[0], ok))
  {
    var t := s.(toImp := s.toImp.(queue := s.toImp.queue[1..]));
    TakeFlow(recs, s.toImp, s.exp.next, s.imp.seen);
    TakenKept(recs, t, s.toImp.queue[0], ok);
    ImportTouches(t, s.toImp.queue[0], ok);
    CloseFlow(recs, t.toImp, s.exp.next, if IsData(s.toImp.queue[0]) then s.imp.seen + 1 else s.imp.seen);
  }

  lemma ImportTouches(s: State, f: Frame, ok: bool)
    ensures var t := ImporterTakes(s, f, ok);
      && t.exp == s.exp && (t.toImp == s.toImp || t.toImp == s.toImp.(open := false))
      && t.imp.seen == if IsData(f) then s.imp.seen + 1 else s.imp.seen
  {}

  lemma CloseFlow(recs: seq<Rec>, w: Wire, next: nat, seen: nat)
    requires Flow(recs, w, next, seen)
    ensures Flow(recs, w.(open := false), next, seen)
  {}

  lemma FollowsOnSend(recs: seq<Rec>, s: State)
    requires Follows(recs, s) && s.exp.next < Length(recs)
    ensures Follows(recs, StreamOn(s, recs))
  {
    SendFlow(recs, s.toImp, s.exp.next, s.imp.seen, StreamFrame(recs, s.exp.next));
  }

  lemma FollowsKept(recs: seq<Rec>, s: State, ev: Event)
    requires Follows(recs, s)
    ensures Follows(recs, Step(recs, s, ev))
  {
    match ev
    case ExpReceive(ok) =>
      if s.toExp.queue != [] {
        FollowsOnReceive(recs, s.(toExp := s.toExp.(queue := s.toExp.queue[1..])), s.toExp.queue[0], ok);
      }
    case ExpReadyOut => SendFlow(recs, s.toImp, s.exp.next, s.imp.seen, Ready);
    case ExpLinkOut => SendFlow(recs, s.toImp, s.exp.next, s.imp.seen, LinkInfo);
    case ExpSend =>
      if s.exp.next < Length(recs) {
        FollowsOnSend(recs, s);
      }
    case ImpReceive(ok) =>
      if s.toImp.queue != [] {
        FollowsOnImport(recs, s, ok);
      }
    case ExpFail => FollowsOnFail(recs, s);
    case ImpFail => FollowsOnFail(recs, s);
    case CutToImp(keep) => CutFlow(recs, s.toImp, s.exp.next, s.imp.seen, keep);
    case TellImp => DataAppend(s.toImp.queue, PeerLeft);
    case _ =>
      HandshakeTouches(recs, s, ev);
      FollowsAlike(recs, s, Step(recs, s, ev));
  }

  lemma HandshakeTouches(recs: seq<Rec>, s: State, ev: Event)
    requires ev in {ExpConfirm, ExpMaybeStream, ImpKey, ImpHello, ImpConfirm, ImpReadyOut, ImpLinkOut, TellExp} || ev.CutToExp?
    ensures SameStream(s, Step(recs, s, ev))
  {}

  lemma {:induction false} RunKeepsInv(recs: seq<Rec>, events: seq<Event>)
    ensures Inv(recs, Run(recs, events))
    decreases |events|
  {
    if events != [] {
      RunKeepsInv(recs, events[..|events| - 1]);
      ConsentKept(recs, Run(recs, events[..|events| - 1]), events[|events| - 1]);
      FollowsKept(recs, Run(recs, events[..|events| - 1]), events[|events| - 1]);
    }
  }

  /** Nothing of the history leaves the exporter before both users confirmed the code. */
  lemma NothingBeforeBothConfirm(recs: seq<Rec>, events: seq<Event>)
    ensures var s := Run(recs, events);
      s.exp.next > 0 || Data(s.toImp.queue) != [] || s.imp.store != [] ==> s.exp.confirmed && s.imp.confirmed
  {
    RunKeepsInv(recs, events);
    var s := Run(recs, events);
    assert s.imp.seen == 0 ==> s.imp.taken == [];
  }

  lemma {:induction false} KeptAll(recs: seq<Rec>, taken: seq<bool>)
    requires |taken| <= |recs|
    ensures |Kept(recs, taken)| <= |taken|
    ensures |Kept(recs, taken)| == |taken| <==> forall k :: 0 <= k < |taken| ==> taken[k]
    ensures |Kept(recs, taken)| == |taken| ==> Kept(recs, taken) == recs[..|taken|]
  {
    if taken != [] {
      var k := |taken| - 1;
      KeptAll(recs, taken[..k]);
      assert recs[..k + 1] == recs[..k] + [recs[k]];
      assert forall j :: 0 <= j < k ==> taken[..k][j] == taken[j];
    }
  }

  /** At every moment the importer holds the exporter's list, from the start and in order, less the
      records whose import failed; with no failure that is a prefix of it. From the first record on it knows how
      many there are. */
  lemma ImporterHoldsPrefix(recs: seq<Rec>, events: seq<Event>)
    ensures var i := Run(recs, events).imp;
      && |i.taken| <= |recs| && i.store == Kept(recs, i.taken)
      && ((forall k :: 0 <= k < |i.taken| ==> i.taken[k]) ==> i.store == recs[..|i.taken|])
      && (i.taken != [] ==> i.total == |recs|)
  {
    RunKeepsInv(recs, events);
    var i := Run(recs, events).imp;
    KeptAll(recs, i.taken);
  }

  /** When the importer reports success it has been through the whole list; the count it reports is the
      exporter's exactly when no import failed, and then it holds the whole list. */
  lemma DoneMeansComplete(recs: seq<Rec>, events: seq<Event>)
    requires Run(recs, events).imp.outcome.Resolved?
    ensures var i := Run(recs, events).imp;
      && |i.taken| == |recs| && i.store == Kept(recs, i.taken) && i.outcome.count == |i.store|
      && (i.outcome.count == |recs| <==> forall k :: 0 <= k < |recs| ==> i.taken[k])
      && (i.outcome.count == |recs| ==> i.store == recs)
  {
    RunKeepsInv(recs, events);
    var i := Run(recs, events).imp;
    KeptAll(recs, i.taken);
    assert recs[..|recs|] == recs;
  }

  // When the importer's ready frame reaches an exporter that can read it.

  /** The importer's ready frame left before its hello, which can happen when the user confirms between
      the key and the hello. */
  ghost predicate EarlyReady(recs: seq<Rec>, events: seq<Event>) {
    exists k :: 0 <= k < |events| && ReadyLeavesFirst(Run(recs, events[..k]), events[k])
  }

  predicate ReadyLeavesFirst(s: State, ev: Event) {
    ev == ImpReadyOut && s.imp.sentReady && !s.imp.readyOut && !s.imp.helloOut
  }

  /** Frames on the way to the exporter stand for flags of the importer. */
  ghost predicate Sent(s: State) {
    && (s.exp.key || Hello in s.toExp.queue ==> s.imp.helloOut)
    && (s.exp.peerReady || Ready in s.toExp.queue ==> s.imp.readyOut)
  }

  lemma SentKept(recs: seq<Rec>, s: State, ev: Event)
    requires Sent(s)
    ensures Sent(Step(recs, s, ev))
  {
    if ev.ExpReceive? {
      if s.toExp.queue != [] {
        SentOnReceive(s, ev.ok);
      }
    } else {
      QueueMoves(recs, s, ev);
    }
  }

  lemma SentOnReceive(s: State, ok: bool)
    requires Sent(s) && s.toExp.queue != []
    ensures Sent(ExporterTakes(s.(toExp := s.toExp.(queue := s.toExp.queue[1..])), s.toExp.queue[0], ok))
  {
    assert s.toExp.queue == [s.toExp.queue[0]] + s.toExp.queue[1..];
  }

  /** What a step can do to the queue towards the exporter. */
  lemma QueueMoves(recs: seq<Rec>, s: State, ev: Event)
    ensures var q, r := s.toExp.queue, Step(recs, s, ev).toExp.queue;
      || r == q
      || (ev.ExpReceive? && q != [] && r == q[1..])
      || (ev.CutToExp? && r == Cut(s.toExp, ev.keep).queue)
      || (exists f :: r == q + [f] && f == Appended(ev) && (f == Hello ==> ev == ImpHello) && (f == Ready ==> ev == ImpReadyOut))
  {
    var q, r := s.toExp.queue, Step(recs, s, ev).toExp.queue;
    match ev
    case ImpHello => assert r == q || r == q + [Appended(ev)];
    case ImpReadyOut => assert r == q || r == q + [Appended(ev)];
    case ImpLinkOut => assert r == q || r == q + [Appended(ev)];
    case TellExp => assert r == q + [Appended(ev)];
    case _ =>
  }

  function Appended(ev: Event): Frame {
    match ev case ImpHello => Hello case ImpReadyOut => Ready case ImpLinkOut => LinkInfo case _ => PeerLeft
  }

  /** No ready frame stands behind a hello. */
  ghost predicate ReadyAhead(q: seq<Frame>) { forall i, j :: 0 <= j < i < |q| && q[j] == Hello ==> q[i] != Ready }

  /** The ready frame, sent only once, was dropped or will be: the exporter has no key when it comes. */
  ghost predicate ReadyLost(s: State) {
    && s.imp.readyOut && !s.exp.peerReady && !s.exp.streaming && s.exp.next == 0
    && (Ready in s.toExp.queue ==> !s.exp.key) && ReadyAhead(s.toExp.queue)
  }

  lemma LostOnReceive(s: State, ok: bool)
    requires ReadyLost(s) && s.toExp.queue != []
    ensures ReadyLost(ExporterTakes(s.(toExp := s.toExp.(queue := s.toExp.queue[1..])), s.toExp.queue[0], ok))
  {
    var q, rest := s.toExp.queue, s.toExp.queue[1..];
    assert forall i :: 0 <= i < |rest| ==> rest[i] == q[i + 1];
    assert Ready in rest ==> Ready in q;
    assert q[0] == Ready ==> Ready in q;
    assert q[0] == Hello ==> Ready !in rest;
  }

  lemma LostKept(recs: seq<Rec>, s: State, ev: Event)
    requires ReadyLost(s)
    ensures ReadyLost(Step(recs, s, ev))
  {
    if ev.ExpReceive? {
      if s.toExp.queue != [] {
        LostOnReceive(s, ev.ok);
      }
    } else {
      QueueMoves(recs, s, ev);
      var q, r := s.toExp.queue, Step(recs, s, ev).toExp.queue;
      assert Ready in r ==> Ready in q;
    }
  }

  lemma EarlyLoses(recs: seq<Rec>, s: State)
    requires Consent(s) && Sent(s) && ReadyLeavesFirst(s, ImpReadyOut)
    ensures ReadyLost(Step(recs, s, ImpReadyOut))
  {}

  lemma {:induction false} RunKeepsSent(recs: seq<Rec>, events: seq<Event>)
    ensures Sent(Run(recs, events))
    decreases |events|
  {
    if events != [] {
      RunKeepsSent(recs, events[..|events| - 1]);
      SentKept(recs, Run(recs, events[..|events| - 1]), events[|events| - 1]);
    }
  }

  lemma EarlyNow(recs: seq<Rec>, front: seq<Event>)
    requires ReadyLeavesFirst(Run(recs, front), ImpReadyOut)
    ensures ReadyLost(Step(recs, Run(recs, front), ImpReadyOut))
  {
    RunKeepsInv(recs, front);
    RunKeepsSent(recs, front);
    EarlyLoses(recs, Run(recs, front));
  }

  lemma EarlyBeforeOrNow(recs: seq<Rec>, events: seq<Event>)
    requires EarlyReady(recs, events)
    ensures events != []
    ensures EarlyReady(recs, events[..|events| - 1]) || ReadyLeavesFirst(Run(recs, events[..|events| - 1]), events[|events| - 1])
  {
    var front := events[..|events| - 1];
    var k :| 0 <= k < |events| && ReadyLeavesFirst(Run(recs, events[..k]), events[k]);
    if k < |front| {
      assert front[..k] == events[..k] && front[k] == events[k];
    }
  }

  /** A ready frame that left before the hello is lost for good, and the transfer never starts. */
  lemma {:induction false} EarlyReadyStalls(recs: seq<Rec>, events: seq<Event>)
    requires EarlyReady(recs, events)
    ensures ReadyLost(Run(recs, events))
    decreases |events|
  {
    EarlyBeforeOrNow(recs, events);
    var front := events[..|events| - 1];
    if EarlyReady(recs, front) {
      EarlyReadyStalls(recs, front);
      LostKept(recs, Run(recs, front), events[|events| - 1]);
    } else {
      EarlyNow(recs, front);
    }
  }

  /** No failure, no cancel, no broken link. */
  predicate IsCalm(ev: Event) {
    !ev.ExpFail? && !ev.ImpFail? && !ev.CutToExp? && !ev.TellExp? && !ev.TellImp? && (ev.ExpReceive? ==> ev.ok)
  }

  ghost predicate Calm(events: seq<Event>) { forall i :: 0 <= i < |events| ==> IsCalm(events[i]) }

  /** Each ready frame on its way will find an exporter with a key. */
  ghost predicate Readable(q: seq<Frame>, key: bool) {
    forall i :: 0 <= i < |q| && q[i] == Ready ==> key || Hello in q[..i]
  }

  ghost predicate OnTime(s: State) {
    && (s.toExp.open || s.exp.peerReady) && (s.exp.peerReady ==> s.exp.key)
    && PeerLeft !in s.toExp.queue && PeerLeft !in s.toImp.queue
    && (s.imp.helloOut ==> s.exp.key || Hello in s.toExp.queue)
    && (s.imp.readyOut ==> s.exp.peerReady || Ready in s.toExp.queue)
    && Readable(s.toExp.queue, s.exp.key)
  }

  lemma OnTimeReceive(s: State)
    requires OnTime(s) && s.toExp.queue != []
    ensures OnTime(ExporterTakes(s.(toExp := s.toExp.(queue := s.toExp.queue[1..])), s.toExp.queue[0], true))
  {
    var q, rest := s.toExp.queue, s.toExp.queue[1..];
    assert q == [q[0]] + rest && q[0] in q;
    assert q[..0] == [];
    var key := s.exp.key || q[0] == Hello;
    forall i | 0 <= i < |rest| && rest[i] == Ready ensures key || Hello in rest[..i] {
      assert q[i + 1] == Ready && q[..i + 1] == [q[0]] + rest[..i];
    }
  }

  lemma OnTimeSend(s: State, f: Frame)
    requires OnTime(s) && f != PeerLeft && (f == Ready ==> s.exp.key || Hello in s.toExp.queue)
    ensures OnTime(s.(toExp := Send(s.toExp, f)))
  {
    var q := s.toExp.queue;
    forall i | 0 <= i < |q + [f]| && (q + [f])[i] == Ready ensures s.exp.key || Hello in (q + [f])[..i] {
      assert (q + [f])[..i] == q[..i];
      assert q[..|q|] == q;
    }
  }

  lemma OnTimeImport(recs: seq<Rec>, s: State, ok: bool)
    requires OnTime(s) && Inv(recs, s) && s.toImp.queue != []
    ensures OnTime(ImporterTakes(s.(toImp := s.toImp.(queue := s.toImp.queue[1..])), s.toImp.queue[0], ok))
  {
    var q := s.toImp.queue;
    assert q[0] in q && (PeerLeft in q[1..] ==> PeerLeft in q);
    TakeFlow(recs, s.toImp, s.exp.next, s.imp.seen);
    assert IsData(q[0]) ==> s.exp.next > 0;
  }

  lemma OnTimeKept(recs: seq<Rec>, s: State, ev: Event)
    requires OnTime(s) && Inv(recs, s) && IsCalm(ev) && !ReadyLeavesFirst(s, ev)
    ensures OnTime(Step(recs, s, ev))
  {
    match ev
    case ExpReceive(_) =>
      if s.toExp.queue != [] {
        OnTimeReceive(s);
      }
    case ImpReceive(ok) =>
      if s.toImp.queue != [] {
        OnTimeImport(recs, s, ok);
      }
    case ImpHello => OnTimeSend(s, Hello);
    case ImpLinkOut => OnTimeSend(s, LinkInfo);
    case ImpReadyOut =>
      if s.imp.helloOut {
        OnTimeSend(s, Ready);
      }
    case CutToImp(keep) =>
      assert PeerLeft in Cut(s.toImp, keep).queue ==> PeerLeft in s.toImp.queue;
    case _ =>
  }

  lemma NotEarlyBefore(recs: seq<Rec>, events: seq<Event>)
    requires events != [] && !EarlyReady(recs, events)
    ensures !EarlyReady(recs, events[..|events| - 1])
    ensures !ReadyLeavesFirst(Run(recs, events[..|events| - 1]), events[|events| - 1])
  {
    var front := events[..|events| - 1];
    forall k | 0 <= k < |front| ensures !ReadyLeavesFirst(Run(recs, front[..k]), front[k]) {
      assert front[..k] == events[..k];
    }
  }

  lemma {:induction false} LateReadyArrives(recs: seq<Rec>, events: seq<Event>)
    requires Calm(events) && !EarlyReady(recs, events)
    ensures OnTime(Run(recs, events))
    decreases |events|
  {
    if events != [] {
      var n := |events| - 1;
      var front := events[..n];
      NotEarlyBefore(recs, events);
      LateReadyArrives(recs, front);
      RunKeepsInv(recs, front);
      OnTimeKept(recs, Run(recs, front), events[n]);
    }
  }

  /** The exporter has seen the ready frame, or will have a key when it comes. */
  ghost predicate ReadyCounts(s: State) {
    s.exp.peerReady || (Ready in s.toExp.queue && Readable(s.toExp.queue, s.exp.key))
  }

  /** Without failures, the importer's ready frame counts if and only if it did not leave before the hello. */
  lemma ReadyCountsIff(recs: seq<Rec>, events: seq<Event>)
    requires Calm(events) && Run(recs, events).imp.readyOut
    ensures ReadyCounts(Run(recs, events)) <==> !EarlyReady(recs, events)
  {
    var s := Run(recs, events);
    if EarlyReady(recs, events) {
      EarlyReadyStalls(recs, events);
      if Ready in s.toExp.queue {
        var i :| 0 <= i < |s.toExp.queue| && s.toExp.queue[i] == Ready;
        assert Hello !in s.toExp.queue[..i];
      }
    } else {
      LateReadyArrives(recs, events);
    }
  }

  /** A user who confirms between the key and the hello can bring a loss about. */
  lemma EarlyConfirmLosesReady(recs: seq<Rec>)
    ensures EarlyReady(recs, [ImpKey, ImpConfirm, ImpReadyOut])
  {
    var e0: seq<Event>, e1, e2 := [], [ImpKey], [ImpKey, ImpConfirm];
    var e3 := [ImpKey, ImpConfirm, ImpReadyOut];
    assert e1[..0] == e0 && e2[..1] == e1 && e3[..2] == e2;
    assert Run(recs, e2).imp.sentReady;
    assert ReadyLeavesFirst(Run(recs, e3[..2]), e3[2]);
  }

  // ---------- a transfer that is not stalled can be completed ----------

  /** No failure, no broken link, and every import succeeds. */
  predicate IsSmooth(ev: Event) { IsCalm(ev) && !ev.CutToImp? && (ev.ImpReceive? ==> ev.ok) }

  ghost predicate Smooth(events: seq<Event>) { forall i :: 0 <= i < |events| ==> IsSmooth(events[i]) }

  function OutcomeAt(recs: seq<Rec>, k: nat): Outcome { if k == Length(recs) then Resolved(|recs|) else Pending }

  ghost predicate AllTaken(taken: seq<bool>) { forall k :: 0 <= k < |taken| ==> taken[k] }

  /** How far each side is decides its outcome, and the wire stays whole until the importer has all. */
  ghost predicate Whole(recs: seq<Rec>, s: State) {
    && s.exp.outcome == OutcomeAt(recs, s.exp.next) && (s.exp.finished ==> s.exp.next == Length(recs))
    && s.imp.outcome == OutcomeAt(recs, s.imp.seen) && (s.imp.finished ==> s.imp.seen == Length(recs))
    && (s.toImp.open || s.imp.seen == Length(recs)) && AllTaken(s.imp.taken)
    && PeerLeft !in s.toExp.queue && PeerLeft !in s.toImp.queue
  }

  lemma WholeOnReceive(recs: seq<Rec>, s: State)
    requires Whole(recs, s) && s.toExp.queue != []
    ensures var t := ExporterTakes(s.(toExp := s.toExp.(queue := s.toExp.queue[1..])), s.toExp.queue[0], true);
      Whole(recs, t) && t.imp == s.imp && t.toImp == s.toImp && t.exp.confirmed == s.exp.confirmed && t.exp.next == s.exp.next
  {
    assert s.toExp.queue == [s.toExp.queue[0]] + s.toExp.queue[1..];
  }

  lemma WholeOnImport(recs: seq<Rec>, s: State)
    requires Whole(recs, s) && Inv(recs, s) && s.toImp.queue != []
    ensures var t := ImporterTakes(s.(toImp := s.toImp.(queue := s.toImp.queue[1..])), s.toImp.queue[0], true);
      Whole(recs, t) && t.exp == s.exp && t.imp.key == s.imp.key && t.toImp.queue == s.toImp.queue[1..]
  {
    var f := s.toImp.queue[0];
    assert s.toImp.queue == [f] + s.toImp.queue[1..];
    TakeFlow(recs, s.toImp, s.exp.next, s.imp.seen);
    if f.Done? {
      KeptAll(recs, s.imp.taken);
    }
  }

  lemma WholeOnSend(recs: seq<Rec>, s: State, f: Frame)
    requires Whole(recs, s) && f != PeerLeft
    ensures Whole(recs, s.(toExp := Send(s.toExp, f))) && Whole(recs, s.(toImp := Send(s.toImp, f)))
  {}

  lemma WholeKept(recs: seq<Rec>, s: State, ev: Event)
    requires Whole(recs, s) && Inv(recs, s) && IsSmooth(ev)
    ensures Whole(recs, Step(recs, s, ev))
  {
    match ev
    case ExpReceive(_) =>
      if s.toExp.queue != [] {
        WholeOnReceive(recs, s);
      }
    case ImpReceive(_) =>
      if s.toImp.queue != [] {
        WholeOnImport(recs, s);
      }
    case ExpReadyOut => WholeOnSend(recs, s, Ready);
    case ExpLinkOut => WholeOnSend(recs, s, LinkInfo);
    case ExpSend =>
      if s.exp.next < Length(recs) {
        WholeOnSend(recs, s, StreamFrame(recs, s.exp.next));
      }
    case ImpHello => WholeOnSend(recs, s, Hello);
    case ImpReadyOut => WholeOnSend(recs, s, Ready);
    case ImpLinkOut => WholeOnSend(recs, s, LinkInfo);
    case _ =>
  }

  lemma {:induction false} RunWhole(recs: seq<Rec>, events: seq<Event>)
    requires Smooth(events)
    ensures Whole(recs, Run(recs, events))
    decreases |events|
  {
    if events != [] {
      var front := events[..|events| - 1];
      RunWhole(recs, front);
      RunKeepsInv(recs, front);
      WholeKept(recs, Run(recs, front), events[|events| - 1]);
    }
  }

  /** A smooth run in which no ready frame was early; hidden. */
  ghost predicate Fine(recs: seq<Rec>, events: seq<Event>) {
    forall z: nat :: Look(z) ==> Smooth(events) && !EarlyReady(recs, events)
  }

  lemma FineFacts(recs: seq<Rec>, events: seq<Event>)
    requires Fine(recs, events)
    ensures Inv(recs, Run(recs, events)) && OnTime(Run(recs, events)) && Whole(recs, Run(recs, events))
  {
    assert Look(0);
    RunKeepsInv(recs, events);
    RunWhole(recs, events);
    LateReadyArrives(recs, events);
  }

  lemma Go(recs: seq<Rec>, events: seq<Event>, ev: Event) returns (more: seq<Event>)
    requires Fine(recs, events) && IsSmooth(ev) && !ReadyLeavesFirst(Run(recs, events), ev)
    ensures Fine(recs, more) && events <= more && Run(recs, more) == Step(recs, Run(recs, events), ev)
  {
    assert Look(0);
    more := events + [ev];
    assert more[..|events|] == events;
    forall k | 0 <= k < |more| ensures !ReadyLeavesFirst(Run(recs, more[..k]), more[k]) {
      assert k < |events| ==> more[..k] == events[..k] && more[k] == events[k];
    }
  }

  /** The importer has its key, said hello, confirmed and sent its ready frame, unless it is done. */
  lemma Introduce(recs: seq<Rec>, events: seq<Event>) returns (more: seq<Event>)
    requires Fine(recs, events)
    ensures Fine(recs, more) && events <= more
    ensures var s := Run(recs, more); s.imp.key && s.imp.helloOut && (s.imp.readyOut || s.imp.finished)
  {
    IntroduceSteps(recs, Run(recs, events));
    more := Go(recs, events, ImpKey);
    more := Go(recs, more, ImpHello);
    more := Go(recs, more, ImpConfirm);
    more := Go(recs, more, ImpReadyOut);
  }

  lemma IntroduceSteps(recs: seq<Rec>, s: State)
    ensures var t := Step(recs, Step(recs, Step(recs, s, ImpKey), ImpHello), ImpConfirm);
      var u := Step(recs, t, ImpReadyOut);
      t.imp.helloOut && u.imp.key && u.imp.helloOut && (u.imp.readyOut || u.imp.finished)
  {}

  lemma {:induction false} EmptyToExp(recs: seq<Rec>, events: seq<Event>) returns (more: seq<Event>)
    requires Fine(recs, events)
    ensures Fine(recs, more) && events <= more
    ensures var s, t := Run(recs, events), Run(recs, more); t.toExp.queue == [] && t.imp == s.imp
    decreases |Run(recs, events).toExp.queue|
  {
    more := events;
    var s := Run(recs, events);
    if s.toExp.queue != [] {
      FineFacts(recs, events);
      WholeOnReceive(recs, s);
      ReceiveShortens(s);
      more := Go(recs, events, ExpReceive(true));
      more := EmptyToExp(recs, more);
    }
  }

  lemma ReceiveShortens(s: State)
    requires s.toExp.queue != []
    ensures ExporterTakes(s.(toExp := s.toExp.(queue := s.toExp.queue[1..])), s.toExp.queue[0], true).toExp.queue == s.toExp.queue[1..]
  {}

  /** With every frame taken, the exporter confirms, sends its ready frame and starts to stream. */
  lemma StartStreaming(recs: seq<Rec>, events: seq<Event>) returns (more: seq<Event>)
    requires Fine(recs, events)
    requires var s := Run(recs, events); s.toExp.queue == [] && s.imp.key && s.imp.helloOut && s.imp.readyOut
    ensures Fine(recs, more) && events <= more && Run(recs, more).exp.streaming && Run(recs, more).imp.key
  {
    FineFacts(recs, events);
    StreamSteps(recs, Run(recs, events));
    more := Go(recs, events, ExpConfirm);
    more := Go(recs, more, ExpReadyOut);
    more := Go(recs, more, ExpMaybeStream);
  }

  lemma StreamSteps(recs: seq<Rec>, s: State)
    requires s.exp.key && s.exp.peerReady
    ensures var t := Step(recs, Step(recs, Step(recs, s, ExpConfirm), ExpReadyOut), ExpMaybeStream);
      t.exp.streaming && t.imp == s.imp
  {}

  lemma {:induction false} SendAll(recs: seq<Rec>, events: seq<Event>) returns (more: seq<Event>)
    requires Fine(recs, events) && Run(recs, events).exp.streaming && Run(recs, events).imp.key
    ensures Fine(recs, more) && events <= more && Run(recs, more).exp.next == Length(recs) && Run(recs, more).imp.key
    decreases Length(recs) - Run(recs, events).exp.next
  {
    more := events;
    FineFacts(recs, events);
    if Run(recs, events).exp.next < Length(recs) {
      more := Go(recs, events, ExpSend);
      more := SendAll(recs, more);
    }
  }

  lemma {:induction false} EmptyToImp(recs: seq<Rec>, events: seq<Event>) returns (more: seq<Event>)
    requires Fine(recs, events) && Run(recs, events).imp.key
    ensures Fine(recs, more) && events <= more
    ensures Run(recs, more).toImp.queue == [] && Run(recs, more).exp == Run(recs, events).exp
    decreases |Run(recs, events).toImp.queue|
  {
    more := events;
    var s := Run(recs, events);
    if s.toImp.queue != [] {
      FineFacts(recs, events);
      WholeOnImport(recs, s);
      more := Go(recs, events, ImpReceive(true));
      more := EmptyToImp(recs, more);
    }
  }

  /** Both sides report the whole list, and the importer holds it. */
  predicate Completed(recs: seq<Rec>, s: State) {
    s.exp.outcome == Resolved(|recs|) && s.imp.outcome == Resolved(|recs|) && s.imp.store == recs
  }

  lemma DoneIsCompleted(recs: seq<Rec>, events: seq<Event>)
    requires Fine(recs, events) && Run(recs, events).imp.seen == Length(recs)
    ensures Completed(recs, Run(recs, events))
  {
    FineFacts(recs, events);
    KeptAll(recs, Run(recs, events).imp.taken);
    assert recs[..|recs|] == recs;
  }

  lemma Complete(recs: seq<Rec>, events: seq<Event>) returns (more: seq<Event>)
    requires Fine(recs, events)
    ensures Fine(recs, more) && events <= more && Completed(recs, Run(recs, more))
  {
    more := Introduce(recs, events);
    FineFacts(recs, more);
    if !Run(recs, more).imp.finished {
      more := EmptyToExp(recs, more);
      more := StartStreaming(recs, more);
      more := SendAll(recs, more);
      more := EmptyToImp(recs, more);
      FineFacts(recs, more);
    }
    DoneIsCompleted(recs, more);
  }

  lemma EarlyNeverCompletes(recs: seq<Rec>, events: seq<Event>, more: seq<Event>)
    requires EarlyReady(recs, events)
    ensures !Completed(recs, Run(recs, events + more))
  {
    var all := events + more;
    var k :| 0 <= k < |events| && ReadyLeavesFirst(Run(recs, events[..k]), events[k]);
    assert all[..k] == events[..k] && all[k] == events[k];
    EarlyReadyStalls(recs, all);
    RunKeepsInv(recs, all);
  }

  /** From every run without failures the transfer can still be completed, with the whole list on the
      importer and both sides reporting it, if and only if no ready frame left before the hello. */
  lemma CanCompleteIff(recs: seq<Rec>, events: seq<Event>)
    requires Smooth(events)
    ensures (exists more :: Completed(recs, Run(recs, events + more))) <==> !EarlyReady(recs, events)
  {
    if EarlyReady(recs, events) {
      forall more ensures !Completed(recs, Run(recs, events + more)) {
        EarlyNeverCompletes(recs, events, more);
      }
    } else {
      assert Fine(recs, events);
      var all := Complete(recs, events);
      assert all == events + all[|events|..];
    }
  }

  // Failures: a side that fails reports it and stays failed, and tells the other.

  /** An exporter that is not finished has no outcome and frames still to send. */
  predicate ExpUnsettled(recs: seq<Rec>, e: Exporter) { e.finished || (e.outcome.Pending? && e.next < Length(recs)) }

  predicate ImpUnsettled(i: Importer) { i.finished || i.outcome.Pending? }

  lemma ExpUnsettledKept(recs: seq<Rec>, s: State, ev: Event)
    requires ExpUnsettled(recs, s.exp)
    ensures ExpUnsettled(recs, Step(recs, s, ev).exp)
    ensures s.exp.outcome == Rejected ==> Step(recs, s, ev).exp.outcome == Rejected
  {}

  lemma ImpUnsettledKept(recs: seq<Rec>, s: State, ev: Event)
    requires ImpUnsettled(s.imp)
    ensures ImpUnsettled(Step(recs, s, ev).imp)
    ensures s.imp.outcome == Rejected ==> Step(recs, s, ev).imp.outcome == Rejected
  {}

  lemma {:induction false} RunUnsettled(recs: seq<Rec>, events: seq<Event>)
    ensures ExpUnsettled(recs, Run(recs, events).exp) && ImpUnsettled(Run(recs, events).imp)
    decreases |events|
  {
    if events != [] {
      RunUnsettled(recs, events[..|events| - 1]);
      ExpUnsettledKept(recs, Run(recs, events[..|events| - 1]), events[|events| - 1]);
      ImpUnsettledKept(recs, Run(recs, events[..|events| - 1]), events[|events| - 1]);
    }
  }

  /** The importer will never see the end of the stream. */
  predicate Stopped(recs: seq<Rec>, s: State) {
    !s.toImp.open && s.imp.seen + |Data(s.toImp.queue)| < Length(recs)
  }

  lemma StoppedKept(recs: seq<Rec>, s: State, ev: Event)
    requires Stopped(recs, s)
    ensures Stopped(recs, Step(recs, s, ev))
  {
    match ev
    case ImpReceive(ok) =>
      if s.toImp.queue != [] {
        ImportTouches(s.(toImp := s.toImp.(queue := s.toImp.queue[1..])), s.toImp.queue[0], ok);
      }
    case CutToImp(keep) => DataTake(s.toImp.queue, Min(keep, |s.toImp.queue|));
    case TellImp => DataAppend(s.toImp.queue, PeerLeft);
    case _ =>
  }

  lemma {:induction false} StaysFailed(recs: seq<Rec>, events: seq<Event>, more: seq<Event>)
    ensures Run(recs, events).exp.outcome == Rejected ==> Run(recs, events + more).exp.outcome == Rejected
    ensures Run(recs, events).imp.outcome == Rejected ==> Run(recs, events + more).imp.outcome == Rejected
    ensures Stopped(recs, Run(recs, events)) ==> Stopped(recs, Run(recs, events + more))
    decreases |more|
  {
    if more == [] {
      assert events + more == events;
    } else {
      var front, ev := more[..|more| - 1], more[|more| - 1];
      StaysFailed(recs, events, front);
      assert (events + more)[..|events + more| - 1] == events + front;
      var s := Run(recs, events + front);
      RunUnsettled(recs, events + front);
      ExpUnsettledKept(recs, s, ev);
      ImpUnsettledKept(recs, s, ev);
      if Stopped(recs, s) {
        StoppedKept(recs, s, ev);
      }
    }
  }

  /** In every run, an exporter that fails or is cancelled before it is done rejects, and whatever happens then
      neither changes that nor lets the importer report a complete transfer. */
  lemma ExporterFailureIsFinal(recs: seq<Rec>, events: seq<Event>, more: seq<Event>)
    requires !Run(recs, events).exp.finished
    ensures var s := Run(recs, events + [ExpFail] + more); s.exp.outcome == Rejected && !s.imp.outcome.Resolved?
  {
    var failed := events + [ExpFail];
    RunUnsettled(recs, events);
    RunKeepsInv(recs, events);
    assert failed[..|failed| - 1] == events;
    assert Stopped(recs, Run(recs, failed));
    StaysFailed(recs, failed, more);
    RunKeepsInv(recs, failed + more);
  }

  /** In every run, an importer that fails or is cancelled before it is done rejects, for good. */
  lemma ImporterFailureIsFinal(recs: seq<Rec>, events: seq<Event>, more: seq<Event>)
    requires !Run(recs, events).imp.finished
    ensures Run(recs, events + [ImpFail] + more).imp.outcome == Rejected
  {
    var failed := events + [ImpFail];
    RunUnsettled(recs, events);
    assert failed[..|failed| - 1] == events;
    StaysFailed(recs, failed, more);
  }

  /** Once the relay has told a device that its peer left, the device finishes by handling its frames. */
  lemma {:induction false} PeerLeftEnds(recs: seq<Rec>, events: seq<Event>) returns (more: seq<Event>)
    requires PeerLeft in Run(recs, events).toExp.queue
    ensures events <= more && (forall k :: |events| <= k < |more| ==> more[k] == ExpReceive(true)) && Run(recs, more).exp.finished
    decreases |Run(recs, events).toExp.queue|
  {
    var s := Run(recs, events);
    more := events + [ExpReceive(true)];
    assert more[..|more| - 1] == events;
    if s.toExp.queue[0] != PeerLeft {
      more := PeerLeftEnds(recs, more);
    }
  }

  lemma {:induction false} PeerLeftEndsImport(recs: seq<Rec>, events: seq<Event>) returns (more: seq<Event>)
    requires PeerLeft in Run(recs, events).toImp.queue && Run(recs, events).imp.key
    ensures events <= more && (forall k :: |events| <= k < |more| ==> more[k] == ImpReceive(true)) && Run(recs, more).imp.finished
    decreases |Run(recs, events).toImp.queue|
  {
    var s := Run(recs, events);
    more := events + [ImpReceive(true)];
    assert more[..|more| - 1] == events;
    if s.toImp.queue[0] != PeerLeft {
      more := PeerLeftEndsImport(recs, more);
    }
  }
}
