/** The in-memory map of open connections (server/src/ws/state.rs). A channel is named, and the map
    keeps each account's channels, newest last. */
module Online {

  type User = nat
  type ChannelId = nat
  type Frame = nat

  /** A channel: what was pushed into it and not read, and whether its receiver still exists. */
  datatype Channel = Channel(queue: seq<Frame>, open: bool)

  /** The newest channel of the list whose receiver exists: where a push lands. */
  function Target(conns: seq<ChannelId>, channels: map<ChannelId, Channel>): (k: int)
    ensures -1 <= k < |conns|
    ensures k >= 0 ==> conns[k] in channels && channels[conns[k]].open
    ensures forall j :: k < j < |conns| ==> !(conns[j] in channels && channels[conns[j]].open)
  {
    if conns == [] then -1
    else if conns[|conns| - 1] in channels && channels[conns[|conns| - 1]].open then |conns| - 1
    else Target(conns[..|conns| - 1], channels)
  }

  function Without(conns: seq<ChannelId>, c: ChannelId): (rest: seq<ChannelId>)
    ensures c !in rest && forall x :: x in rest <==> x in conns && x != c
  {
    if conns == [] then []
    else Without(conns[..|conns| - 1], c) + if conns[|conns| - 1] == c then [] else [conns[|conns| - 1]]
  }

  lemma {:induction false} WithoutAbsent(conns: seq<ChannelId>, c: ChannelId)
    requires c !in conns
    ensures Without(conns, c) == conns
  {
    if conns != [] {
      WithoutAbsent(conns[..|conns| - 1], c);
    }
  }

  class OnlineMap {
    var conns: map<User, seq<ChannelId>>
    var channels: map<ChannelId, Channel>

    /** No account is listed without a connection. */
    ghost predicate Valid()
      reads this
    {
      forall u :: u in conns ==> conns[u] != []
    }

    constructor ()
      ensures Valid() && conns == map[] && channels == map[]
    {
      conns, channels := map[], map[];
    }

    /** The connection becomes the account's newest: while its receiver exists it is where a push lands, and
        removing it gives back the connections there were. Other accounts are untouched. */
    method Insert(user: User, c: ChannelId)
      requires Valid()
      modifies this`conns
      ensures Valid() && user in conns && conns[user] != [] && conns[user][|conns[user]| - 1] == c
      ensures conns[user][..|conns[user]| - 1] == if user in old(conns) then old(conns)[user] else []
      ensures forall u :: u != user ==> (u in conns <==> u in old(conns)) && (u in conns ==> conns[u] == old(conns)[u])
      ensures forall chans: map<ChannelId, Channel> :: c in chans && chans[c].open ==> Target(conns[user], chans) == |conns[user]| - 1
      ensures c !in conns[user][..|conns[user]| - 1] ==> Without(conns[user], c) == conns[user][..|conns[user]| - 1]
    {
      var list := if user in conns then conns[user] else [];
      conns := conns[user := list + [c]];
      assert (list + [c])[..|list|] == list;
      if c !in list {
        WithoutAbsent(list, c);
      }
    }

    /** Drops one connection; the entry goes with the last one. */
    method Remove(user: User, c: ChannelId)
      requires Valid()
      modifies this`conns
      ensures Valid()
      ensures user !in old(conns) ==> conns == old(conns)
      ensures user in old(conns) ==>
                var rest := Without(old(conns)[user], c);
                conns == if rest == [] then old(conns) - {user} else old(conns)[user := rest]
    {
      if user in conns {
        var kept: seq<ChannelId> := [];
        var list := conns[user];
        for i := 0 to |list|
          invariant kept == Without(list[..i], c)
          invariant conns == old(conns)
        {
          assert list[..i + 1][..i] == list[..i];
          if list[i] != c {
            kept := kept + [list[i]];
          }
        }
        assert list[..|list|] == list;
        conns := if kept == [] then conns - {user} else conns[user := kept];
      }
    }

    /** Offers the frame to the account's channels, newest first, until one takes it. */
    method Send(user: User, frame: Frame) returns (taken: bool)
      modifies this`channels
      ensures var list := if user in conns then conns[user] else [];
              var k := Target(list, old(channels));
              taken == (k >= 0) &&
              channels == if k < 0 then old(channels)
                          else old(channels)[list[k] := Channel(old(channels)[list[k]].queue + [frame], true)]
    {
      if user !in conns {
        return false;
      }
      var list := conns[user];
      for i := |list| downto 0
        invariant channels == old(channels)
        invariant Target(list, channels) == Target(list[..i], channels)
      {
        assert list[..i + 1][..i] == list[..i];
        if list[i] in channels && channels[list[i]].open {
          channels := channels[list[i] := Channel(channels[list[i]].queue + [frame], true)];
          return true;
        }
      }
      return false;
    }
  }
}

/** Live pushes and the paged backlog of one account (server/src/ws/handler.rs,
    server/src/routes/messages.rs), under every interleaving of sends, acks, expiry, connects and
    closes. One step is one clock read, one database statement, one push or one frame written. */
module Delivery {
  import opened Results
  import opened Online

  const PAGE: nat := 200

  type MessageId = nat
  type SendId = nat

  /** A row of message_queue; the cursor orders rows by time and then by id. */
  datatype Row = Row(queuedAt: int, id: MessageId)
  datatype Cursor = Cursor(at: int, id: int)

  predicate After(r: Row, c: Cursor) { r.queuedAt > c.at || (r.queuedAt == c.at && r.id > c.id) }
  function KeyOf(r: Row): Cursor { Cursor(r.queuedAt, r.id) }

  /** Where a `send` request stands. */
  datatype Sending = Stamped(now: int) | Enqueued(row: Row) | Pushed(row: Row)

  /** One connection's writer: the frames it was pushed, and its pager. `newest` holds from its insertion
      until another connects or its writer ends. `present` is the set of rows in the mailbox when it was inserted. */
  datatype Conn = Conn(
    present: set<Row>, until: Option<int>, cursor: Option<Cursor>, pending: seq<Row>, emitted: seq<Row>,
    received: set<Row>, open: bool, newest: bool)

  datatype State = State(
    clock: int, rows: set<Row>, ids: set<MessageId>, sends: map<SendId, Sending>, online: seq<ChannelId>,
    conns: map<ChannelId, Conn>)

  datatype Event =
    | Tick(secs: nat) | Stamp(send: SendId) | Enqueue(send: SendId, id: MessageId) | Push(send: SendId)
    | Remove(gone: set<Row>) | Connect(c: ChannelId) | ReadClock(c: ChannelId)
    | Fetch(c: ChannelId, page: seq<Row>) | Emit(c: ChannelId) | WriterEnds(c: ChannelId) | Close(c: ChannelId)

  /** dequeue_page: the first rows after the cursor and up to `until`, oldest first, a page at most. */
  ghost predicate IsPage(page: seq<Row>, rows: set<Row>, until: int, after: Cursor) {
    && |page| <= PAGE
    && (forall i :: 0 <= i < |page| ==> page[i] in rows && page[i].queuedAt <= until && After(page[i], after))
    && Ascending(page)
    && (forall r :: r in rows && r.queuedAt <= until && After(r, after) && r !in page ==>
          |page| == PAGE && After(r, KeyOf(page[|page| - 1])))
  }

  ghost predicate Ascending(s: seq<Row>) { forall i, j :: 0 <= i < j < |s| ==> After(s[j], KeyOf(s[i])) }

  const START: Cursor := Cursor(-0x8000_0000, 0)

  function NextCursor(page: seq<Row>): Option<Cursor> {
    if |page| == PAGE then Some(KeyOf(page[|page| - 1])) else None
  }

  function Demoted(conns: map<ChannelId, Conn>): map<ChannelId, Conn> {
    map c | c in conns :: conns[c].(newest := false)
  }

  /** A push goes to the newest connection still open. */
  function Pushing(s: State, row: Row): State {
    var live := map c | c in s.conns :: Channel([], s.conns[c].open);
    var k := Target(s.online, live);
    if k < 0 then s
    else s.(conns := s.conns[s.online[k] := s.conns[s.online[k]].(received := s.conns[s.online[k]].received + {row})])
  }

  ghost predicate Step(s: State, t: State, e: Event) {
    match e
    case Tick(secs) => t == s.(clock := s.clock + secs)
    case Stamp(id) => id !in s.sends && t == s.(sends := s.sends[id := Stamped(s.clock)])
    case Enqueue(id, m) =>
      id in s.sends && s.sends[id].Stamped? && m !in s.ids &&
      var row := Row(s.sends[id].now, m);
      t == s.(rows := s.rows + {row}, ids := s.ids + {m}, sends := s.sends[id := Enqueued(row)])
    case Push(id) =>
      id in s.sends && s.sends[id].Enqueued? &&
      t == Pushing(s, s.sends[id].row).(sends := s.sends[id := Pushed(s.sends[id].row)])
    case Remove(gone) => t == s.(rows := s.rows - gone)
    case Connect(c) =>
      c !in s.conns && c !in s.online &&
      t == s.(online := s.online + [c],
              conns := Demoted(s.conns)[c := Conn(s.rows, None, Some(START), [], [], {}, true, true)])
    case ReadClock(c) =>
      c in s.conns && s.conns[c].until.None? &&
      t == s.(conns := s.conns[c := s.conns[c].(until := Some(s.clock))])
    case Fetch(c, page) =>
      c in s.conns && s.conns[c].until.Some? && s.conns[c].pending == [] && s.conns[c].cursor.Some? &&
      IsPage(page, s.rows, s.conns[c].until.value, s.conns[c].cursor.value) &&
      t == s.(conns := s.conns[c := s.conns[c].(pending := page, cursor := NextCursor(page))])
    case Emit(c) =>
      c in s.conns && s.conns[c].pending != [] &&
      var k := s.conns[c];
      t == s.(conns := s.conns[c := k.(pending := k.pending[1..], emitted := k.emitted + [k.pending[0]])])
    case WriterEnds(c) => c in s.conns && t == s.(conns := s.conns[c := s.conns[c].(open := false, newest := false)])
    case Close(c) => c in s.conns && t == s.(online := Without(s.online, c), conns := s.conns - {c})
  }

  ghost predicate Init(s: State) {
    s.rows == {} && s.ids == {} && s.sends == map[] && s.online == [] && s.conns == map[] && s.clock >= 0
  }

  // ---------- the invariant ----------

  /** Still to be pushed. */
  predicate Unpushed(sends: map<SendId, Sending>, r: Row) { exists id :: id in sends && sends[id] == Enqueued(r) }

  /** A row in the mailbox reaches the newest connection one way or another: its push is still to
      come, it was pushed to the connection, or it lies in the connection's backlog range. */
  ghost predicate Reaches(sends: map<SendId, Sending>, k: Conn, r: Row) {
    Unpushed(sends, r) || r in k.received || (r in k.present && (k.until.Some? ==> r.queuedAt <= k.until.value))
  }

  /** What the pager has read so far: in order, in range, and with no gap. */
  ghost predicate PagerOk(s: State, k: Conn) {
    var out := k.emitted + k.pending;
    && Ascending(out)
    && (k.until.None? ==> out == [] && k.cursor == Some(START))
    && (k.until.Some? ==>
          && (forall r :: r in out ==> r.queuedAt <= k.until.value)
          && (forall r :: r in s.rows && r in k.present && r.queuedAt <= k.until.value ==>
                r in out || (k.cursor.Some? && After(r, k.cursor.value))))
    && (k.cursor.Some? ==> forall r :: r in out ==> !After(r, k.cursor.value))
  }

  ghost predicate ConnOk(s: State, c: ChannelId) {
    c in s.conns &&
    var k := s.conns[c];
    && PagerOk(s, k)
    && (forall r :: r in k.present ==> r.id in s.ids && 0 <= r.queuedAt <= s.clock)
    && (forall r :: r in k.present && k.until.Some? ==> r.queuedAt <= k.until.value)
    && (k.newest ==> k.open && s.online != [] && s.online[|s.online| - 1] == c && forall r :: r in s.rows ==> Reaches(s.sends, k, r))
  }

  ghost predicate Inv(s: State) {
    && s.clock >= 0
    && (forall r :: r in s.rows ==> r.id in s.ids && 0 <= r.queuedAt <= s.clock)
    && (forall id :: id in s.sends ==>
          match s.sends[id]
          case Stamped(now) => 0 <= now <= s.clock
          case Enqueued(row) => row.id in s.ids
          case Pushed(_) => true)
    && (forall c :: c in s.online ==> c in s.conns)
    && (forall c :: c in s.conns ==> ConnOk(s, c))
  }

  // ---------- every step keeps it ----------

  lemma Between(x: Row, y: Row, c: Cursor)
    requires !After(x, c) && After(y, c)
    ensures After(y, KeyOf(x))
  {}

  lemma FetchKeeps(s: State, k: Conn, page: seq<Row>)
    requires PagerOk(s, k) && k.until.Some? && k.pending == [] && k.cursor.Some?
    requires IsPage(page, s.rows, k.until.value, k.cursor.value)
    ensures PagerOk(s, k.(pending := page, cursor := NextCursor(page)))
  {
    var t := k.(pending := page, cursor := NextCursor(page));
    var out := t.emitted + t.pending;
    assert k.emitted + k.pending == k.emitted;
    forall i, j | 0 <= i < j < |out| ensures After(out[j], KeyOf(out[i])) {
      if i < |k.emitted| <= j {
        Between(out[i], out[j], k.cursor.value);
      }
    }
    if t.cursor.Some? {
      var last := page[PAGE - 1];
      forall r | r in out ensures !After(r, KeyOf(last)) {
        var i :| 0 <= i < |out| && out[i] == r;
        assert i == |out| - 1 || After(out[|out| - 1], KeyOf(out[i]));
      }
    }
  }

  lemma EmitKeeps(s: State, k: Conn)
    requires PagerOk(s, k) && k.pending != []
    ensures PagerOk(s, k.(pending := k.pending[1..], emitted := k.emitted + [k.pending[0]]))
  {
    var t := k.(pending := k.pending[1..], emitted := k.emitted + [k.pending[0]]);
    assert t.emitted + t.pending == k.emitted + k.pending;
  }

  /** Changes outside a connection that cannot hurt it. */
  lemma Untouched(s: State, t: State, c: ChannelId)
    requires Inv(s) && c in s.conns && c in t.conns && t.conns[c] == s.conns[c]
    requires s.ids <= t.ids && s.clock <= t.clock
    requires forall r :: r in t.rows ==> r in s.rows || (Unpushed(t.sends, r) && r.id !in s.ids)
    requires forall r :: r in t.rows && Unpushed(s.sends, r) ==> Unpushed(t.sends, r) || r in s.conns[c].received
    requires s.conns[c].newest ==> t.online != [] && t.online[|t.online| - 1] == c
    ensures ConnOk(t, c)
  {
    var k := s.conns[c];
    assert ConnOk(s, c);
    if k.newest {
      forall r | r in t.rows ensures Reaches(t.sends, k, r) {
        if r in s.rows {
          assert Reaches(s.sends, k, r);
        }
      }
    }
  }

  lemma SendStepsKeep(s: State, t: State, e: Event)
    requires Inv(s) && Step(s, t, e) && (e.Tick? || e.Stamp? || e.Enqueue? || e.Remove?)
    ensures Inv(t)
  {
    forall r | Unpushed(s.sends, r) ensures Unpushed(t.sends, r) {
      var id :| id in s.sends && s.sends[id] == Enqueued(r);
      assert id in t.sends && t.sends[id] == Enqueued(r);
    }
    if e.Enqueue? {
      var row := Row(s.sends[e.send].now, e.id);
      assert e.send in t.sends && t.sends[e.send] == Enqueued(row);
    }
    forall c | c in t.conns ensures ConnOk(t, c) {
      Untouched(s, t, c);
    }
  }

  lemma PushTarget(s: State, c: ChannelId)
    requires Inv(s) && c in s.conns && s.conns[c].newest
    ensures Target(s.online, map d | d in s.conns :: Channel([], s.conns[d].open)) == |s.online| - 1
    ensures s.online != [] && s.online[|s.online| - 1] == c
  {
    assert ConnOk(s, c);
  }

  lemma PushedStillReach(s: State, t: State, e: Event, c: ChannelId)
    requires Inv(s) && Step(s, t, e) && e.Push? && c in s.conns && s.conns[c].newest
    ensures forall r :: r in t.rows ==> Reaches(t.sends, t.conns[c], r)
  {
    var row := s.sends[e.send].row;
    PushTarget(s, c);
    assert ConnOk(s, c);
    forall r | r in t.rows ensures Reaches(t.sends, t.conns[c], r) {
      assert Reaches(s.sends, s.conns[c], r);
      if r != row && Unpushed(s.sends, r) {
        var id :| id in s.sends && s.sends[id] == Enqueued(r);
        assert id in t.sends && t.sends[id] == Enqueued(r);
      }
    }
  }

  lemma PushedConn(s: State, t: State, e: Event, c: ChannelId)
    requires Inv(s) && Step(s, t, e) && e.Push? && c in t.conns
    ensures c in s.conns && t.conns[c] == s.conns[c].(received := t.conns[c].received)
    ensures t.online == s.online && t.rows == s.rows && t.ids == s.ids && t.clock == s.clock
  {}

  lemma PushedConnOk(s: State, t: State, e: Event, c: ChannelId)
    requires Inv(s) && Step(s, t, e) && e.Push? && c in t.conns
    ensures ConnOk(t, c)
  {
    PushedConn(s, t, e, c);
    assert ConnOk(s, c);
    if s.conns[c].newest {
      PushedStillReach(s, t, e, c);
    }
  }

  /** A push adds its row to one connection; to the newest one, if it has stayed newest. */
  lemma PushKeeps(s: State, t: State, e: Event)
    requires Inv(s) && Step(s, t, e) && e.Push?
    ensures Inv(t)
  {
    assert t.conns.Keys == s.conns.Keys && t.online == s.online;
    forall c | c in t.conns ensures ConnOk(t, c) {
      PushedConnOk(s, t, e, c);
    }
  }

  lemma ConnectKeeps(s: State, t: State, e: Event)
    requires Inv(s) && Step(s, t, e) && e.Connect?
    ensures Inv(t)
  {
    forall c | c in t.conns ensures ConnOk(t, c) {
      if c != e.c {
        assert ConnOk(s, c);
        assert t.conns[c] == s.conns[c].(newest := false);
      } else {
        assert t.conns[c].emitted + t.conns[c].pending == [];
        forall r | r in t.rows ensures Reaches(t.sends, t.conns[c], r) {}
      }
    }
  }

  /** A step of one connection's writer that leaves its pager in order. */
  lemma WriterStepKeeps(s: State, t: State, c: ChannelId)
    requires Inv(s) && c in s.conns && t == s.(conns := t.conns) && c in t.conns && t.conns == s.conns[c := t.conns[c]]
    requires PagerOk(t, t.conns[c])
    requires var k, l := s.conns[c], t.conns[c];
             l.present == k.present && l.received == k.received && (l.newest ==> k.newest && l.open) &&
             (l.until == k.until || l.until == Some(s.clock))
    ensures Inv(t)
  {
    assert ConnOk(s, c);
    forall r | r in t.rows && t.conns[c].newest ensures Reaches(t.sends, t.conns[c], r) {
      assert Reaches(s.sends, s.conns[c], r);
    }
    forall d | d in t.conns ensures ConnOk(t, d) {
      if d != c {
        Untouched(s, t, d);
      }
    }
  }

  lemma ReadClockKeeps(s: State, k: Conn)
    requires PagerOk(s, k) && k.until.None? && forall r :: r in k.present ==> 0 <= r.queuedAt
    ensures PagerOk(s, k.(until := Some(s.clock)))
  {}

  lemma WriterKeeps(s: State, t: State, e: Event)
    requires Inv(s) && Step(s, t, e) && (e.ReadClock? || e.Fetch? || e.Emit? || e.WriterEnds?)
    ensures Inv(t)
  {
    var k := s.conns[e.c];
    assert ConnOk(s, e.c);
    match e {
      case Fetch(c, page) => FetchKeeps(s, k, page);
      case Emit(c) => EmitKeeps(s, k);
      case ReadClock(c) => ReadClockKeeps(s, k);
      case _ =>
    }
    WriterStepKeeps(s, t, e.c);
  }

  lemma {:induction false} WithoutKeepsLast(conns: seq<ChannelId>, c: ChannelId)
    requires conns != [] && conns[|conns| - 1] != c
    ensures Without(conns, c) != [] && Without(conns, c)[|Without(conns, c)| - 1] == conns[|conns| - 1]
  {}

  lemma CloseKeeps(s: State, t: State, e: Event)
    requires Inv(s) && Step(s, t, e) && e.Close?
    ensures Inv(t)
  {
    forall d | d in t.conns ensures ConnOk(t, d) {
      assert ConnOk(s, d);
      if s.conns[d].newest {
        WithoutKeepsLast(s.online, e.c);
      }
      Untouched(s, t, d);
    }
  }

  lemma StepKeeps(s: State, t: State, e: Event)
    requires Inv(s) && Step(s, t, e)
    ensures Inv(t)
  {
    match e
    case Push(_) => PushKeeps(s, t, e);
    case Connect(_) => ConnectKeeps(s, t, e);
    case Close(_) => CloseKeeps(s, t, e);
    case Tick(_) => SendStepsKeep(s, t, e);
    case Stamp(_) => SendStepsKeep(s, t, e);
    case Enqueue(_, _) => SendStepsKeep(s, t, e);
    case Remove(_) => SendStepsKeep(s, t, e);
    case _ => WriterKeeps(s, t, e);
  }

  // ---------- whole runs ----------

  datatype Run = Run(states: seq<State>, events: seq<Event>)

  ghost predicate IsRun(r: Run) {
    && |r.states| == |r.events| + 1
    && Init(r.states[0])
    && forall k :: 0 <= k < |r.events| ==> Step(r.states[k], r.states[k + 1], r.events[k])
  }

  lemma {:induction false} RunKeepsInv(r: Run, n: nat)
    requires IsRun(r) && n < |r.states|
    ensures Inv(r.states[n])
    decreases n
  {
    if n > 0 {
      RunKeepsInv(r, n - 1);
      StepKeeps(r.states[n - 1], r.states[n], r.events[n - 1]);
    }
  }

  /** In every run, a connection that has stayed its account's newest misses no message: whatever is
      in the mailbox is still to be pushed, was pushed to it, or lies in its backlog range. */
  lemma NothingMissed(r: Run, n: nat, c: ChannelId, row: Row)
    requires IsRun(r) && n < |r.states| && c in r.states[n].conns && r.states[n].conns[c].newest && row in r.states[n].rows
    ensures var s, k := r.states[n], r.states[n].conns[c];
            Unpushed(s.sends, row) || row in k.received || (row in k.present && (k.until.Some? ==> row.queuedAt <= k.until.value))
  {
    RunKeepsInv(r, n);
    assert ConnOk(r.states[n], c);
    assert Reaches(r.states[n].sends, r.states[n].conns[c], row);
  }

  /** In every run, a pager writes rows in cursor order, none twice, and when it has finished every row
      of its backlog range that is still in the mailbox has been written. */
  lemma BacklogComplete(r: Run, n: nat, c: ChannelId)
    requires IsRun(r) && n < |r.states| && c in r.states[n].conns
    ensures var s, k := r.states[n], r.states[n].conns[c];
            Ascending(k.emitted) &&
            (k.until.Some? && k.cursor.None? && k.pending == [] ==> forall x :: x in s.rows && x in k.present ==> x in k.emitted)
  {
    RunKeepsInv(r, n);
    var s, k := r.states[n], r.states[n].conns[c];
    assert ConnOk(s, c);
    var out := k.emitted + k.pending;
    forall i, j | 0 <= i < j < |k.emitted| ensures After(k.emitted[j], KeyOf(k.emitted[i])) {
      assert out[i] == k.emitted[i] && out[j] == k.emitted[j];
    }
    if k.pending == [] {
      assert out == k.emitted;
    }
  }

  /** The pager has nothing left to read or to write. */
  predicate Finished(k: Conn) { k.until.Some? && k.cursor.None? && k.pending == [] }

  /** So a connection that has stayed its account's newest, whose pager has finished, has been given every
      message in the mailbox whose send is over: pushed to it or written to it. */
  lemma EverythingDelivered(r: Run, n: nat, c: ChannelId, row: Row)
    requires IsRun(r) && n < |r.states| && c in r.states[n].conns && r.states[n].conns[c].newest
    requires Finished(r.states[n].conns[c])
    requires row in r.states[n].rows && !Unpushed(r.states[n].sends, row)
    ensures row in r.states[n].conns[c].received || row in r.states[n].conns[c].emitted
  {
    NothingMissed(r, n, c, row);
    BacklogComplete(r, n, c);
  }

  // ---------- from the sender's side ----------

  /** The row a send has put into the mailbox. */
  function RowOf(x: Sending): Option<Row> {
    match x case Stamped(_) => None case Enqueued(row) => Some(row) case Pushed(row) => Some(row)
  }

  predicate Has(s: State, id: SendId, row: Row) { id in s.sends && RowOf(s.sends[id]) == Some(row) }

  /** An ack or the expiry took the row out after the send had put it in. */
  predicate RemovedAt(r: Run, m: nat, id: SendId, row: Row) {
    m < |r.events| && m < |r.states| && Has(r.states[m], id, row) && r.events[m].Remove? && row in r.events[m].gone
  }

  /** In every run, what was sent is in the mailbox until it is removed. */
  lemma {:induction false} SentIsStored(r: Run, n: nat, id: SendId, row: Row)
    requires IsRun(r) && n < |r.states| && Has(r.states[n], id, row)
    ensures row in r.states[n].rows || exists m :: 0 <= m < n && RemovedAt(r, m, id, row)
    decreases n
  {
    if n > 0 {
      var s, t, e := r.states[n - 1], r.states[n], r.events[n - 1];
      assert Step(s, t, e);
      if Has(s, id, row) {
        SentIsStored(r, n - 1, id, row);
        if row in s.rows && row !in t.rows {
          assert RemovedAt(r, n - 1, id, row);
        }
      } else {
        assert e.Enqueue? && row in t.rows;
      }
    }
  }

  /** Each row has one send. */
  lemma {:induction false} OneSendPerRow(r: Run, n: nat, a: SendId, b: SendId, x: Row, y: Row)
    requires IsRun(r) && n < |r.states| && Has(r.states[n], a, x) && Has(r.states[n], b, y) && x.id == y.id
    ensures a == b && x.id in r.states[n].ids
    decreases n
  {
    if n > 0 {
      var s, t, e := r.states[n - 1], r.states[n], r.events[n - 1];
      assert Step(s, t, e);
      if Has(s, a, x) {
        OneSendPerRow(r, n - 1, a, a, x, x);
      }
      if Has(s, b, y) {
        OneSendPerRow(r, n - 1, b, b, y, y);
      }
      if Has(s, a, x) && Has(s, b, y) {
        OneSendPerRow(r, n - 1, a, b, x, y);
      }
    }
  }

  /** In every run, a message whose send is over and that nobody removed was pushed to, or written by, a
      connection that has stayed its account's newest and whose pager has finished. */
  lemma SentIsDelivered(r: Run, n: nat, id: SendId, row: Row, c: ChannelId)
    requires IsRun(r) && n < |r.states| && id in r.states[n].sends && r.states[n].sends[id] == Pushed(row)
    requires forall m :: 0 <= m < n ==> !RemovedAt(r, m, id, row)
    requires c in r.states[n].conns && r.states[n].conns[c].newest && Finished(r.states[n].conns[c])
    ensures row in r.states[n].conns[c].received || row in r.states[n].conns[c].emitted
  {
    var s := r.states[n];
    SentIsStored(r, n, id, row);
    if other :| other in s.sends && s.sends[other] == Enqueued(row) {
      OneSendPerRow(r, n, id, other, row, row);
    }
    EverythingDelivered(r, n, c, row);
  }

  // ---------- where a push lands ----------

  /** c is open, and every connection made after it has closed. */
  ghost predicate NewestOpen(s: State, c: ChannelId) {
    c in s.conns && s.conns[c].open &&
    exists k :: 0 <= k < |s.online| && s.online[k] == c && ClosedFrom(s, k + 1)
  }

  ghost predicate ClosedFrom(s: State, k: nat) {
    forall j :: k <= j < |s.online| ==> s.online[j] in s.conns && !s.conns[s.online[j]].open
  }

  /** In every run, a push lands on the newest connection still open and on no other. */
  lemma PushLands(r: Run, n: nat, id: SendId, c: ChannelId)
    requires IsRun(r) && n < |r.events| && r.events[n] == Push(id) && c in r.states[n].conns
    ensures id in r.states[n].sends && r.states[n].sends[id].Enqueued? && c in r.states[n + 1].conns
    ensures var k := r.states[n].conns[c];
      r.states[n + 1].conns[c] == if NewestOpen(r.states[n], c) then k.(received := k.received + {r.states[n].sends[id].row}) else k
  {
    RunKeepsInv(r, n);
    assert Step(r.states[n], r.states[n + 1], r.events[n]);
    PushingLands(r.states[n], r.states[n].sends[id].row, c);
  }

  lemma PushingLands(s: State, row: Row, c: ChannelId)
    requires c in s.conns && forall d :: d in s.online ==> d in s.conns
    ensures c in Pushing(s, row).conns
    ensures Pushing(s, row).conns[c] == if NewestOpen(s, c) then s.conns[c].(received := s.conns[c].received + {row}) else s.conns[c]
  {
    var live := map c | c in s.conns :: Channel([], s.conns[c].open);
    var k := Target(s.online, live);
    assert forall j :: 0 <= j < |s.online| ==> s.online[j] in s.conns;
    assert ClosedFrom(s, k + 1);
    if NewestOpen(s, c) {
      var i :| 0 <= i < |s.online| && s.online[i] == c && ClosedFrom(s, i + 1);
      assert i == k || i < k;
    }
  }

  // ---------- every pager can finish ----------

  /** The rows a page is taken from. */
  ghost function Backlog(rows: set<Row>, until: int, after: Cursor): set<Row> {
    set r | r in rows && r.queuedAt <= until && After(r, after)
  }

  lemma {:induction false} Smallest(rows: set<Row>) returns (m: Row)
    requires rows != {}
    ensures m in rows && forall x :: x in rows && x != m ==> After(x, KeyOf(m))
    decreases |rows|
  {
    var first :| first in rows;
    m := first;
    var rest := rows - {first};
    if rest != {} {
      var k := Smallest(rest);
      m := if After(first, KeyOf(k)) then k else first;
    }
    forall x | x in rows && x != m ensures After(x, KeyOf(m)) {
      assert x == first || x in rest;
    }
  }

  /** The n smallest rows, in order. */
  lemma {:induction false} SmallestRows(rows: set<Row>, n: nat) returns (page: seq<Row>)
    ensures |page| <= n && Ascending(page) && forall i :: 0 <= i < |page| ==> page[i] in rows
    ensures forall r :: r in rows && r !in page ==> |page| == n && forall i :: 0 <= i < |page| ==> After(r, KeyOf(page[i]))
    decreases n
  {
    page := [];
    if n > 0 && rows != {} {
      var m := Smallest(rows);
      var rest := SmallestRows(rows - {m}, n - 1);
      page := [m] + rest;
    }
  }

  lemma PageExists(rows: set<Row>, until: int, after: Cursor) returns (page: seq<Row>)
    ensures IsPage(page, rows, until, after)
  {
    page := SmallestRows(Backlog(rows, until, after), PAGE);
    forall r | r in rows && r.queuedAt <= until && After(r, after) && r !in page
      ensures |page| == PAGE && After(r, KeyOf(page[|page| - 1]))
    {
      assert r in Backlog(rows, until, after);
    }
  }

  function Last(r: Run): State
    requires r.states != []
  {
    r.states[|r.states| - 1]
  }

  lemma GoOn(r: Run, e: Event, t: State) returns (q: Run)
    requires IsRun(r) && Step(Last(r), t, e)
    ensures IsRun(q) && Last(q) == t && r.states <= q.states && r.events <= q.events
  {
    q := Run(r.states + [t], r.events + [e]);
    forall k | 0 <= k < |q.events| ensures Step(q.states[k], q.states[k + 1], q.events[k]) {
      if k < |r.events| {
        assert Step(r.states[k], r.states[k + 1], r.events[k]);
      }
    }
  }

  /** Two states that differ in one connection's pager only. */
  predicate SamePlace(s: State, t: State, c: ChannelId) {
    && t.rows == s.rows && t.sends == s.sends && c in s.conns && c in t.conns
    && t.conns[c].newest == s.conns[c].newest && t.conns[c].received == s.conns[c].received
  }

  /** A full page leaves less behind its last row. */
  lemma BacklogShrinks(rows: set<Row>, until: int, after: Cursor, page: seq<Row>)
    requires IsPage(page, rows, until, after) && page != []
    ensures |Backlog(rows, until, KeyOf(page[|page| - 1]))| < |Backlog(rows, until, after)|
  {
    var a, b := Backlog(rows, until, after), Backlog(rows, until, KeyOf(page[|page| - 1]));
    assert page[|page| - 1] in a && page[|page| - 1] !in b;
    assert b <= a - {page[|page| - 1]};
    Smaller(b, a - {page[|page| - 1]});
  }

  lemma {:induction false} Smaller(a: set<Row>, b: set<Row>)
    requires a <= b
    ensures |a| <= |b|
  {
    if a != {} {
      var x :| x in a;
      Smaller(a - {x}, b - {x});
    }
  }

  ghost function ToRead(s: State, c: ChannelId): nat
    requires c in s.conns && s.conns[c].until.Some?
  {
    if s.conns[c].cursor.None? then 0 else 1 + |Backlog(s.rows, s.conns[c].until.value, s.conns[c].cursor.value)|
  }

  lemma {:induction false} PagerRunsOn(r: Run, c: ChannelId) returns (q: Run)
    requires IsRun(r) && c in Last(r).conns && Last(r).conns[c].until.Some?
    ensures IsRun(q) && r.states <= q.states && r.events <= q.events
    ensures SamePlace(Last(r), Last(q), c) && Finished(Last(q).conns[c])
    decreases ToRead(Last(r), c), |Last(r).conns[c].pending|
  {
    var s := Last(r);
    var k := s.conns[c];
    if k.pending != [] {
      var t := s.(conns := s.conns[c := k.(pending := k.pending[1..], emitted := k.emitted + [k.pending[0]])]);
      q := GoOn(r, Emit(c), t);
      q := PagerRunsOn(q, c);
    } else if k.cursor.Some? {
      var page := PageExists(s.rows, k.until.value, k.cursor.value);
      if page != [] {
        BacklogShrinks(s.rows, k.until.value, k.cursor.value, page);
      }
      var t := s.(conns := s.conns[c := k.(pending := page, cursor := NextCursor(page))]);
      q := GoOn(r, Fetch(c, page), t);
      q := PagerRunsOn(q, c);
    } else {
      q := r;
    }
  }

  /** Every run can go on until the pager of a connection has finished, with nothing else changed. */
  lemma PagerFinishes(r: Run, c: ChannelId) returns (q: Run)
    requires IsRun(r) && c in Last(r).conns
    ensures IsRun(q) && r.states <= q.states && r.events <= q.events
    ensures SamePlace(Last(r), Last(q), c) && Finished(Last(q).conns[c])
  {
    var s := Last(r);
    q := r;
    if s.conns[c].until.None? {
      q := GoOn(r, ReadClock(c), s.(conns := s.conns[c := s.conns[c].(until := Some(s.clock))]));
    }
    q := PagerRunsOn(q, c);
  }

  /** Every run can go on with a whole send, after which its row is in the mailbox and its push is over. */
  lemma SendRuns(r: Run, id: SendId, m: MessageId) returns (q: Run)
    requires IsRun(r) && id !in Last(r).sends && m !in Last(r).ids
    ensures IsRun(q) && r.states <= q.states && r.events <= q.events
    ensures var row, t := Row(Last(r).clock, m), Last(q);
      && id in t.sends && t.sends[id] == Pushed(row) && row in t.rows && Last(r).rows <= t.rows
      && t.online == Last(r).online && t.conns.Keys == Last(r).conns.Keys
      && forall c :: c in t.conns ==> t.conns[c].newest == Last(r).conns[c].newest
  {
    var s, row := Last(r), Row(Last(r).clock, m);
    var a := s.(sends := s.sends[id := Stamped(s.clock)]);
    q := GoOn(r, Stamp(id), a);
    var b := a.(rows := a.rows + {row}, ids := a.ids + {m}, sends := a.sends[id := Enqueued(row)]);
    q := GoOn(q, Enqueue(id, m), b);
    q := GoOn(q, Push(id), Pushing(b, row).(sends := b.sends[id := Pushed(row)]));
  }

  lemma PushedIsOver(r: Run, id: SendId, row: Row)
    requires IsRun(r) && id in Last(r).sends && Last(r).sends[id] == Pushed(row)
    ensures !Unpushed(Last(r).sends, row)
  {
    if other :| other in Last(r).sends && Last(r).sends[other] == Enqueued(row) {
      OneSendPerRow(r, |r.events|, id, other, row, row);
    }
  }

  /** A message sent to an account whose newest connection is c can reach it in every run. */
  lemma OnlineMessageArrives(r: Run, c: ChannelId, id: SendId, m: MessageId) returns (q: Run)
    requires IsRun(r) && c in Last(r).conns && Last(r).conns[c].newest && id !in Last(r).sends && m !in Last(r).ids
    ensures IsRun(q) && r.states <= q.states && r.events <= q.events && c in Last(q).conns
    ensures var row := Row(Last(r).clock, m); row in Last(q).conns[c].received || row in Last(q).conns[c].emitted
  {
    var p := SendRuns(r, id, m);
    q := PagerFinishes(p, c);
    PushedIsOver(q, id, Row(Last(r).clock, m));
    EverythingDelivered(q, |q.events|, c, Row(Last(r).clock, m));
  }

  /** A message sent while nobody listens is in the backlog of the next connection, in every run. */
  lemma OfflineMessageArrives(r: Run, c: ChannelId, id: SendId, m: MessageId) returns (q: Run)
    requires IsRun(r) && c !in Last(r).conns && c !in Last(r).online && id !in Last(r).sends && m !in Last(r).ids
    ensures IsRun(q) && r.states <= q.states && r.events <= q.events && c in Last(q).conns
    ensures Row(Last(r).clock, m) in Last(q).conns[c].emitted
  {
    var p := SendRuns(r, id, m);
    var s := Last(p);
    var t := s.(online := s.online + [c],
                conns := Demoted(s.conns)[c := Conn(s.rows, None, Some(START), [], [], {}, true, true)]);
    p := GoOn(p, Connect(c), t);
    q := PagerFinishes(p, c);
    PushedIsOver(q, id, Row(Last(r).clock, m));
    EverythingDelivered(q, |q.events|, c, Row(Last(r).clock, m));
  }
}
