/** The offline outbox (apps/web/src/services/outbox.ts): sealed blobs parked while the network is away
    and sent again, oldest first, by a flush that stops at the first failure worth retrying. */
module Outbox {
  import opened Results

  /** A parked blob; `message` is the local message it belongs to, or "" for none. */
  datatype Row = Row(id: nat, blob: string, message: string, createdAt: nat, ttl: Option<nat>, attempts: nat)

  datatype Sent = Sent(id: nat, at: nat, ttl: Option<nat>)

  datatype Status = Queued | Delivered | Failed

  /** How a send ended: the server took it, refused it for good (400, 404, 413), or it may work later. */
  datatype Reply = Accepted | Refused | Retry

  /** The stored rows in listing order, the messages' status, and, as history, every blob ever enqueued
      (its index is its id), every attempt to send one, the attempts that were acknowledged, and the blobs
      given up. An attempt that ends in `Retry` may have reached the server all the same. */
  datatype Book = Book(
    rows: seq<Row>, status: map<string, Status>, enqueued: seq<Row>, posts: seq<Sent>, sent: seq<Sent>, dropped: seq<nat>)

  /** The book and the rows a running flush has still to go through. */
  datatype State = State(book: Book, flush: Option<seq<Row>>)

  const EMPTY: State := State(Book([], map[], [], [], [], []), None)

  datatype Event =
    | Enqueue(blob: string, message: string, ttl: Option<nat>, at: nat)
    | Start
    | Next(at: nat, reply: Reply)

  /** Into created_at order, after the rows of the same instant. */
  function Insert(rows: seq<Row>, r: Row): seq<Row> {
    if rows == [] || rows[|rows| - 1].createdAt <= r.createdAt then rows + [r]
    else Insert(rows[..|rows| - 1], r) + [rows[|rows| - 1]]
  }

  function Delete(rows: seq<Row>, id: nat): seq<Row> {
    if rows == [] then [] else
    var last := rows[|rows| - 1];
    Delete(rows[..|rows| - 1], id) + if last.id == id then [] else [last]
  }

  function Bump(rows: seq<Row>, id: nat): seq<Row> {
    if rows == [] then [] else
    var last := rows[|rows| - 1];
    Bump(rows[..|rows| - 1], id) + [if last.id == id then last.(attempts := last.attempts + 1) else last]
  }

  function Elapsed(at: nat, createdAt: nat): nat { if at < createdAt then 0 else (at - createdAt) / 1000 }

  function Mark(status: map<string, Status>, message: string, to: Status): map<string, Status> {
    if message == "" then status else status[message := to]
  }

  predicate Expired(r: Row, at: nat) { r.ttl.Some? && Elapsed(at, r.createdAt) >= r.ttl.value }

  /** The ttl a blob is sent with. */
  function Remaining(r: Row, at: nat): Option<nat>
    requires !Expired(r, at)
  {
    if r.ttl.None? then None else Some(r.ttl.value - Elapsed(at, r.createdAt))
  }

  function GiveUp(s: Book, r: Row): Book {
    s.(rows := Delete(s.rows, r.id), status := Mark(s.status, r.message, Failed), dropped := s.dropped + [r.id])
  }

  function Succeed(s: Book, r: Row, x: Sent): Book {
    s.(rows := Delete(s.rows, r.id), status := Mark(s.status, r.message, Delivered), sent := s.sent + [x])
  }

  /** One turn of the flush's loop on row r. */
  function Turn(s: Book, r: Row, at: nat, reply: Reply): Book {
    if Expired(r, at) then GiveUp(s, r) else
    var x := Sent(r.id, at, Remaining(r, at));
    var posted := s.(posts := s.posts + [x]);
    match reply
    case Accepted => Succeed(posted, r, x)
    case Refused => GiveUp(posted, r)
    case Retry => posted.(rows := Bump(s.rows, r.id))
  }

  predicate Stops(r: Row, at: nat, reply: Reply) { !Expired(r, at) && reply.Retry? }

  function Park(s: Book, blob: string, message: string, ttl: Option<nat>, at: nat): Book {
    var r := Row(|s.enqueued|, blob, message, at, ttl, 0);
    s.(rows := Insert(s.rows, r), status := Mark(s.status, message, Queued), enqueued := s.enqueued + [r])
  }

  function Step(s: State, ev: Event): State {
    match ev
    case Enqueue(blob, message, ttl, at) => s.(book := Park(s.book, blob, message, ttl, at))
    case Start => if s.flush.Some? then s else s.(flush := Some(s.book.rows))
    case Next(at, reply) =>
      if s.flush.None? then s
      else if s.flush.value == [] then s.(flush := None)
      else
        var r := s.flush.value[0];
        State(Turn(s.book, r, at, reply), if Stops(r, at, reply) then None else Some(s.flush.value[1..]))
  }

  function Run(s: State, events: seq<Event>): State
    decreases |events|
  {
    if events == [] then s else Step(Run(s, events[..|events| - 1]), events[|events| - 1])
  }

  /** Each local message is enqueued once. */
  ghost predicate LinkedOnce(events: seq<Event>) {
    forall i, j :: 0 <= i < j < |events| && events[i].Enqueue? && events[j].Enqueue? && events[i].message == events[j].message
      ==> events[i].message == ""
  }

  // Conservation: each blob enqueued is stored, sent or given up, once.

  function Stored(rows: seq<Row>, id: nat): nat {
    if rows == [] then 0 else Stored(rows[..|rows| - 1], id) + if rows[|rows| - 1].id == id then 1 else 0
  }

  function Sends(sent: seq<Sent>, id: nat): nat {
    if sent == [] then 0 else Sends(sent[..|sent| - 1], id) + if sent[|sent| - 1].id == id then 1 else 0
  }

  function Drops(dropped: seq<nat>, id: nat): nat {
    if dropped == [] then 0 else Drops(dropped[..|dropped| - 1], id) + if dropped[|dropped| - 1] == id then 1 else 0
  }

  predicate OneFate(s: Book, id: nat) {
    Stored(s.rows, id) + Sends(s.sent, id) + Drops(s.dropped, id) == if id < |s.enqueued| then 1 else 0
  }

  /** Stored rows are the blobs enqueued, but for the number of attempts. */
  ghost predicate RowsOk(rows: seq<Row>, enqueued: seq<Row>) {
    forall i :: 0 <= i < |rows| ==> Original(rows[i], enqueued)
  }

  predicate Original(r: Row, enqueued: seq<Row>) { r.id < |enqueued| && enqueued[r.id] == r.(attempts := 0) }

  /** A blob sent had time left, and was sent with exactly that time. */
  predicate InTime(e: Row, x: Sent) { !Expired(e, x.at) && x.ttl == Remaining(e, x.at) }

  ghost predicate PostsOk(posts: seq<Sent>, enqueued: seq<Row>) {
    forall i :: 0 <= i < |posts| ==> posts[i].id < |enqueued| && InTime(enqueued[posts[i].id], posts[i])
  }

  ghost predicate FlushOk(flush: seq<Row>, rows: seq<Row>, enqueued: seq<Row>) {
    RowsOk(flush, enqueued) && forall id :: Stored(flush, id) <= Stored(rows, id)
  }

  predicate StatusIs(s: Book, id: nat, f: Status) {
    && (f == Queued <==> Stored(s.rows, id) == 1)
    && (f == Delivered <==> Sends(s.sent, id) == 1)
    && (f == Failed <==> Drops(s.dropped, id) == 1)
  }

  ghost predicate StatusOk(s: Book) {
    forall id :: 0 <= id < |s.enqueued| && s.enqueued[id].message != "" ==>
      s.enqueued[id].message in s.status && StatusIs(s, id, s.status[s.enqueued[id].message])
  }

  ghost predicate OneMessageEach(enqueued: seq<Row>) {
    forall i, j :: 0 <= i < j < |enqueued| && enqueued[i].message == enqueued[j].message ==> enqueued[i].message == ""
  }

  /** Each blob has one fate, and rows and attempts are of blobs enqueued. */
  ghost predicate Counted(s: Book) {
    && (forall id :: OneFate(s, id)) && RowsOk(s.rows, s.enqueued) && PostsOk(s.posts, s.enqueued)
    && forall i :: 0 <= i < |s.sent| ==> s.sent[i] in s.posts
  }

  /** Each message tells the fate of its blob. */
  ghost predicate Told(s: Book) { StatusOk(s) && OneMessageEach(s.enqueued) }

  ghost predicate Inv(s: State) {
    Counted(s.book) && (s.flush.Some? ==> FlushOk(s.flush.value, s.book.rows, s.book.enqueued))
  }

  lemma {:induction false} StoredHead(rows: seq<Row>, id: nat)
    requires rows != []
    ensures Stored(rows, id) == Stored(rows[1..], id) + if rows[0].id == id then 1 else 0
  {
    if |rows| > 1 {
      StoredHead(rows[..|rows| - 1], id);
      assert rows[..|rows| - 1][1..] == rows[1..][..|rows| - 2];
    }
  }

  lemma StoredPush(rows: seq<Row>, r: Row, id: nat)
    ensures Stored(rows + [r], id) == Stored(rows, id) + if r.id == id then 1 else 0
  {
    assert (rows + [r])[..|rows|] == rows;
  }

  lemma {:induction false} StoredInsert(rows: seq<Row>, r: Row, id: nat)
    ensures Stored(Insert(rows, r), id) == Stored(rows, id) + if r.id == id then 1 else 0
  {
    StoredPush(rows, r, id);
    if rows != [] {
      StoredInsert(rows[..|rows| - 1], r, id);
      StoredPush(Insert(rows[..|rows| - 1], r), rows[|rows| - 1], id);
    }
  }

  lemma {:induction false} InsertOk(rows: seq<Row>, r: Row, enqueued: seq<Row>)
    requires RowsOk(rows, enqueued) && Original(r, enqueued)
    ensures RowsOk(Insert(rows, r), enqueued)
  {
    if rows != [] {
      InsertOk(rows[..|rows| - 1], r, enqueued);
    }
  }

  lemma {:induction false} StoredDelete(rows: seq<Row>, gone: nat, id: nat)
    ensures Stored(Delete(rows, gone), id) == if id == gone then 0 else Stored(rows, id)
  {
    if rows != [] {
      var front, last := rows[..|rows| - 1], rows[|rows| - 1];
      StoredDelete(front, gone, id);
      if last.id == gone {
        assert Delete(rows, gone) == Delete(front, gone);
      } else {
        StoredPush(Delete(front, gone), last, id);
      }
    }
  }

  lemma {:induction false} DeleteOk(rows: seq<Row>, gone: nat, enqueued: seq<Row>)
    requires RowsOk(rows, enqueued)
    ensures RowsOk(Delete(rows, gone), enqueued)
  {
    if rows != [] {
      DeleteOk(rows[..|rows| - 1], gone, enqueued);
    }
  }

  lemma {:induction false} StoredBump(rows: seq<Row>, which: nat, id: nat)
    ensures Stored(Bump(rows, which), id) == Stored(rows, id)
  {
    if rows != [] {
      var front, last := rows[..|rows| - 1], rows[|rows| - 1];
      StoredBump(front, which, id);
      StoredPush(Bump(front, which), if last.id == which then last.(attempts := last.attempts + 1) else last, id);
    }
  }

  lemma {:induction false} BumpOk(rows: seq<Row>, which: nat, enqueued: seq<Row>)
    requires RowsOk(rows, enqueued)
    ensures RowsOk(Bump(rows, which), enqueued)
  {
    if rows != [] {
      BumpOk(rows[..|rows| - 1], which, enqueued);
    }
  }

  lemma SendsPush(sent: seq<Sent>, x: Sent, id: nat)
    ensures Sends(sent + [x], id) == Sends(sent, id) + if x.id == id then 1 else 0
  {
    assert (sent + [x])[..|sent|] == sent;
  }

  lemma DropsPush(dropped: seq<nat>, x: nat, id: nat)
    ensures Drops(dropped + [x], id) == Drops(dropped, id) + if x == id then 1 else 0
  {
    assert (dropped + [x])[..|dropped|] == dropped;
  }

  /** The row the flush is at is stored, once. */
  lemma AtHead(s: Book, flush: seq<Row>)
    requires Counted(s) && flush != [] && FlushOk(flush, s.rows, s.enqueued)
    ensures Stored(s.rows, flush[0].id) == 1 && Original(flush[0], s.enqueued)
    ensures FlushOk(flush[1..], Delete(s.rows, flush[0].id), s.enqueued)
  {
    var r := flush[0];
    StoredHead(flush, r.id);
    assert OneFate(s, r.id);
    forall id ensures Stored(flush[1..], id) <= Stored(Delete(s.rows, r.id), id) {
      StoredHead(flush, id);
      StoredDelete(s.rows, r.id, id);
      assert Stored(flush, id) <= Stored(s.rows, id);
    }
  }

  /** Between s and t blob r left the queue and became f. */
  ghost predicate Left(s: Book, t: Book, r: Row, f: Status) {
    && t.rows == Delete(s.rows, r.id) && t.enqueued == s.enqueued && t.status == Mark(s.status, r.message, f)
    && f != Queued
    && (f == Failed ==> t.sent == s.sent && t.dropped == s.dropped + [r.id])
    && (f == Delivered ==> t.dropped == s.dropped && exists x: Sent :: x.id == r.id && t.sent == s.sent + [x])
  }

  lemma LeftAt(s: Book, t: Book, r: Row, f: Status, id: nat)
    requires Left(s, t, r, f) && OneFate(s, id) && OneFate(s, r.id) && Stored(s.rows, r.id) == 1
    ensures OneFate(t, id)
    ensures if id == r.id then StatusIs(t, id, f) else forall g :: StatusIs(s, id, g) ==> StatusIs(t, id, g)
  {
    StoredDelete(s.rows, r.id, id);
    DropsPush(s.dropped, r.id, id);
    if f == Delivered {
      var x: Sent :| x.id == r.id && t.sent == s.sent + [x];
      SendsPush(s.sent, x, id);
    }
  }

  lemma LeftCounts(s: Book, t: Book, r: Row, f: Status)
    requires Counted(s) && Left(s, t, r, f) && Stored(s.rows, r.id) == 1
    ensures (forall id :: OneFate(t, id)) && RowsOk(t.rows, t.enqueued)
  {
    DeleteOk(s.rows, r.id, s.enqueued);
    forall id: nat ensures OneFate(t, id) {
      assert OneFate(s, id) && OneFate(s, r.id);
      LeftAt(s, t, r, f, id);
    }
  }

  lemma LeftTells(s: Book, t: Book, r: Row, f: Status)
    requires Counted(s) && Told(s) && Left(s, t, r, f) && Stored(s.rows, r.id) == 1 && Original(r, s.enqueued)
    ensures Told(t)
  {
    forall id | 0 <= id < |t.enqueued| && t.enqueued[id].message != ""
      ensures t.enqueued[id].message in t.status && StatusIs(t, id, t.status[t.enqueued[id].message])
    {
      assert OneFate(s, id) && OneFate(s, r.id);
      LeftAt(s, t, r, f, id);
      assert id != r.id ==> t.enqueued[id].message != r.message;
    }
  }

  /** What a turn does: it gives the row up, gets it acknowledged, or leaves it for later. */
  lemma TurnLeaves(s: Book, r: Row, at: nat, reply: Reply)
    ensures var t := Turn(s, r, at, reply);
      && (Expired(r, at) || reply.Refused? ==> Left(s, t, r, Failed))
      && (!Expired(r, at) && reply.Accepted? ==> Left(s, t, r, Delivered))
      && (Stops(r, at, reply) ==> t == s.(rows := Bump(s.rows, r.id), posts := t.posts))
      && t.posts == s.posts + (if Expired(r, at) then [] else [Sent(r.id, at, Remaining(r, at))])
  {
    if !Expired(r, at) && reply.Accepted? {
      var x := Sent(r.id, at, Remaining(r, at));
      assert Turn(s, r, at, reply).sent == s.sent + [x];
    }
  }

  lemma TurnPosts(s: Book, r: Row, at: nat, reply: Reply)
    requires Counted(s) && Original(r, s.enqueued)
    ensures var t := Turn(s, r, at, reply);
      PostsOk(t.posts, t.enqueued) && forall i :: 0 <= i < |t.sent| ==> t.sent[i] in t.posts
  {}

  lemma TurnCounts(s: Book, r: Row, at: nat, reply: Reply)
    requires Counted(s) && Stored(s.rows, r.id) == 1 && Original(r, s.enqueued)
    ensures Counted(Turn(s, r, at, reply))
  {
    var t := Turn(s, r, at, reply);
    TurnLeaves(s, r, at, reply);
    TurnPosts(s, r, at, reply);
    if Stops(r, at, reply) {
      BumpCounts(s, t, r.id);
    } else {
      LeftCounts(s, t, r, if Expired(r, at) || reply.Refused? then Failed else Delivered);
    }
  }

  lemma TurnTells(s: Book, r: Row, at: nat, reply: Reply)
    requires Counted(s) && Told(s) && Stored(s.rows, r.id) == 1 && Original(r, s.enqueued)
    ensures Told(Turn(s, r, at, reply))
  {
    var t := Turn(s, r, at, reply);
    TurnLeaves(s, r, at, reply);
    if Stops(r, at, reply) {
      BumpTells(s, t, r.id);
    } else {
      LeftTells(s, t, r, if Expired(r, at) || reply.Refused? then Failed else Delivered);
    }
  }

  lemma BumpCounts(s: Book, t: Book, id: nat)
    requires Counted(s) && t == s.(rows := Bump(s.rows, id), posts := t.posts)
    ensures (forall k :: OneFate(t, k)) && RowsOk(t.rows, t.enqueued)
  {
    BumpOk(s.rows, id, s.enqueued);
    forall k: nat ensures OneFate(t, k) {
      StoredBump(s.rows, id, k);
      assert OneFate(s, k);
    }
  }

  lemma BumpTells(s: Book, t: Book, id: nat)
    requires Told(s) && t == s.(rows := Bump(s.rows, id), posts := t.posts)
    ensures Told(t)
  {
    forall k | 0 <= k < |t.enqueued| && t.enqueued[k].message != ""
      ensures t.enqueued[k].message in t.status && StatusIs(t, k, t.status[t.enqueued[k].message])
    {
      StoredBump(s.rows, id, k);
      assert StatusIs(s, k, s.status[s.enqueued[k].message]);
    }
  }

  /** A parked blob is one more row, and changes no other count. */
  lemma ParkAt(s: Book, blob: string, message: string, ttl: Option<nat>, at: nat, id: nat)
    ensures var t := Park(s, blob, message, ttl, at);
      && Stored(t.rows, id) == Stored(s.rows, id) + (if id == |s.enqueued| then 1 else 0)
      && (OneFate(s, id) ==> OneFate(t, id))
  {
    StoredInsert(s.rows, Row(|s.enqueued|, blob, message, at, ttl, 0), id);
  }

  lemma ParkCounts(s: Book, blob: string, message: string, ttl: Option<nat>, at: nat)
    requires Counted(s)
    ensures Counted(Park(s, blob, message, ttl, at))
  {
    var r, t := Row(|s.enqueued|, blob, message, at, ttl, 0), Park(s, blob, message, ttl, at);
    InsertOk(s.rows, r, t.enqueued);
    forall id: nat ensures OneFate(t, id) {
      assert OneFate(s, id);
      ParkAt(s, blob, message, ttl, at, id);
    }
  }

  lemma ParkTells(s: Book, blob: string, message: string, ttl: Option<nat>, at: nat)
    requires Told(s) && OneFate(s, |s.enqueued|)
    requires message != "" ==> forall i :: 0 <= i < |s.enqueued| ==> s.enqueued[i].message != message
    ensures Told(Park(s, blob, message, ttl, at))
  {
    var t := Park(s, blob, message, ttl, at);
    forall id | 0 <= id < |t.enqueued| && t.enqueued[id].message != ""
      ensures t.enqueued[id].message in t.status && StatusIs(t, id, t.status[t.enqueued[id].message])
    {
      ParkAt(s, blob, message, ttl, at, id);
      if id < |s.enqueued| {
        assert t.enqueued[id] == s.enqueued[id];
        assert StatusIs(s, id, s.status[s.enqueued[id].message]);
      }
    }
  }

  lemma FlushKeptByPark(flush: seq<Row>, s: Book, blob: string, message: string, ttl: Option<nat>, at: nat)
    requires FlushOk(flush, s.rows, s.enqueued)
    ensures FlushOk(flush, Park(s, blob, message, ttl, at).rows, Park(s, blob, message, ttl, at).enqueued)
  {
    var t := Park(s, blob, message, ttl, at);
    forall id ensures Stored(flush, id) <= Stored(t.rows, id) {
      ParkAt(s, blob, message, ttl, at, id);
      assert Stored(flush, id) <= Stored(s.rows, id);
    }
  }

  lemma StepCounts(s: State, ev: Event)
    requires Inv(s)
    ensures Inv(Step(s, ev))
  {
    match ev
    case Enqueue(blob, message, ttl, at) =>
      ParkCounts(s.book, blob, message, ttl, at);
      if s.flush.Some? {
        FlushKeptByPark(s.flush.value, s.book, blob, message, ttl, at);
      }
    case Start =>
    case Next(at, reply) =>
      if s.flush.Some? && s.flush.value != [] {
        var r := s.flush.value[0];
        AtHead(s.book, s.flush.value);
        TurnLeaves(s.book, r, at, reply);
        TurnCounts(s.book, r, at, reply);
      }
  }

  lemma StepTells(s: State, ev: Event)
    requires Inv(s) && Told(s.book)
    requires ev.Enqueue? && ev.message != "" ==> forall i :: 0 <= i < |s.book.enqueued| ==> s.book.enqueued[i].message != ev.message
    ensures Told(Step(s, ev).book)
  {
    match ev
    case Enqueue(blob, message, ttl, at) =>
      assert OneFate(s.book, |s.book.enqueued|);
      ParkTells(s.book, blob, message, ttl, at);
    case Start =>
    case Next(at, reply) =>
      if s.flush.Some? && s.flush.value != [] {
        AtHead(s.book, s.flush.value);
        TurnTells(s.book, s.flush.value[0], at, reply);
      }
  }

  lemma {:induction false} RunKeepsInv(events: seq<Event>)
    ensures Inv(Run(EMPTY, events))
    decreases |events|
  {
    if events != [] {
      RunKeepsInv(events[..|events| - 1]);
      StepCounts(Run(EMPTY, events[..|events| - 1]), events[|events| - 1]);
    }
  }

  predicate Names(events: seq<Event>, message: string) {
    exists k :: 0 <= k < |events| && events[k].Enqueue? && events[k].message == message
  }

  /** The messages enqueued so far are those of the events. */
  ghost predicate From(enqueued: seq<Row>, events: seq<Event>) {
    forall i :: 0 <= i < |enqueued| ==> Names(events, enqueued[i].message)
  }

  lemma {:induction false} RunTells(events: seq<Event>)
    requires LinkedOnce(events)
    ensures Told(Run(EMPTY, events).book) && From(Run(EMPTY, events).book.enqueued, events)
    decreases |events|
  {
    if events != [] {
      var front, ev := events[..|events| - 1], events[|events| - 1];
      RunTells(front);
      RunKeepsInv(front);
      var s := Run(EMPTY, front);
      FromGrows(s, front, ev);
      assert events == front + [ev];
      if ev.Enqueue? && ev.message != "" {
        NewMessage(s.book.enqueued, front, ev);
      }
      StepTells(s, ev);
    }
  }

  lemma FromGrows(s: State, front: seq<Event>, ev: Event)
    requires From(s.book.enqueued, front)
    ensures From(Step(s, ev).book.enqueued, front + [ev])
  {
    var events, t := front + [ev], Step(s, ev);
    assert events[|front|] == ev;
    forall i | 0 <= i < |t.book.enqueued| ensures Names(events, t.book.enqueued[i].message) {
      if i < |s.book.enqueued| {
        assert t.book.enqueued[i] == s.book.enqueued[i];
        assert Names(front, s.book.enqueued[i].message);
        var k :| 0 <= k < |front| && front[k].Enqueue? && front[k].message == s.book.enqueued[i].message;
        assert events[k] == front[k];
      }
    }
  }

  lemma NewMessage(enqueued: seq<Row>, front: seq<Event>, ev: Event)
    requires LinkedOnce(front + [ev]) && ev.Enqueue? && ev.message != "" && From(enqueued, front)
    ensures forall i :: 0 <= i < |enqueued| ==> enqueued[i].message != ev.message
  {
    var events := front + [ev];
    forall i | 0 <= i < |enqueued| ensures enqueued[i].message != ev.message {
      assert Names(front, enqueued[i].message);
      var k :| 0 <= k < |front| && front[k].Enqueue? && front[k].message == enqueued[i].message;
      assert events[k] == front[k] && events[|front|] == ev;
    }
  }

  // Attempts.

  /** Each stored row carries the number of attempts made for it. */
  ghost predicate Tallied(rows: seq<Row>, posts: seq<Sent>) { forall r :: r in rows ==> Sends(posts, r.id) == r.attempts }

  lemma {:induction false} InInsert(rows: seq<Row>, r: Row, x: Row)
    requires x in Insert(rows, r)
    ensures x in rows || x == r
  {
    if rows != [] && rows[|rows| - 1].createdAt > r.createdAt && x != rows[|rows| - 1] {
      InInsert(rows[..|rows| - 1], r, x);
    }
  }

  lemma {:induction false} InDelete(rows: seq<Row>, id: nat, x: Row)
    requires x in Delete(rows, id)
    ensures x in rows && x.id != id
  {
    if x in Delete(rows[..|rows| - 1], id) {
      InDelete(rows[..|rows| - 1], id, x);
    }
  }

  lemma {:induction false} InBump(rows: seq<Row>, id: nat, x: Row)
    requires x in Bump(rows, id)
    ensures exists y :: y in rows && x == if y.id == id then y.(attempts := y.attempts + 1) else y
  {
    if x in Bump(rows[..|rows| - 1], id) {
      InBump(rows[..|rows| - 1], id, x);
    }
  }

  lemma {:induction false} NoPosts(posts: seq<Sent>, enqueued: seq<Row>)
    requires PostsOk(posts, enqueued)
    ensures Sends(posts, |enqueued|) == 0
  {
    if posts != [] {
      NoPosts(posts[..|posts| - 1], enqueued);
    }
  }

  lemma TurnTallies(s: Book, r: Row, at: nat, reply: Reply)
    requires Tallied(s.rows, s.posts)
    ensures Tallied(Turn(s, r, at, reply).rows, Turn(s, r, at, reply).posts)
  {
    var t := Turn(s, r, at, reply);
    TurnLeaves(s, r, at, reply);
    forall x | x in t.rows ensures Sends(t.posts, x.id) == x.attempts {
      if !Expired(r, at) {
        SendsPush(s.posts, Sent(r.id, at, Remaining(r, at)), x.id);
      }
      if Stops(r, at, reply) {
        InBump(s.rows, r.id, x);
      } else {
        InDelete(s.rows, r.id, x);
      }
    }
  }

  lemma ParkTallies(s: Book, blob: string, message: string, ttl: Option<nat>, at: nat)
    requires Counted(s) && Tallied(s.rows, s.posts)
    ensures Tallied(Park(s, blob, message, ttl, at).rows, s.posts)
  {
    NoPosts(s.posts, s.enqueued);
    forall x | x in Park(s, blob, message, ttl, at).rows ensures Sends(s.posts, x.id) == x.attempts {
      InInsert(s.rows, Row(|s.enqueued|, blob, message, at, ttl, 0), x);
    }
  }

  /** In every run, each queued row carries the number of attempts made to send it. */
  lemma {:induction false} AttemptsCounted(events: seq<Event>)
    ensures var s := Run(EMPTY, events).book; forall r :: r in s.rows ==> Sends(s.posts, r.id) == r.attempts
    decreases |events|
  {
    if events != [] {
      var front, ev := events[..|events| - 1], events[|events| - 1];
      AttemptsCounted(front);
      RunKeepsInv(front);
      var s := Run(EMPTY, front);
      assert Tallied(s.book.rows, s.book.posts);
      match ev
      case Enqueue(blob, message, ttl, at) => ParkTallies(s.book, blob, message, ttl, at);
      case Start =>
      case Next(at, reply) =>
        if s.flush.Some? && s.flush.value != [] {
          TurnTallies(s.book, s.flush.value[0], at, reply);
        }
      assert Tallied(Step(s, ev).book.rows, Step(s, ev).book.posts);
    }
  }

  /** In every run, on any clock, with enqueues and flushes interleaved: each blob enqueued is exactly one
      of still queued, acknowledged once, or given up, and its message says which. */
  lemma EveryBlobAccountedFor(events: seq<Event>, id: nat)
    requires id < |Run(EMPTY, events).book.enqueued|
    ensures var s := Run(EMPTY, events).book;
      Stored(s.rows, id) + Sends(s.sent, id) + Drops(s.dropped, id) == 1
    ensures LinkedOnce(events) ==>
      var s := Run(EMPTY, events).book;
      s.enqueued[id].message != "" ==>
        s.enqueued[id].message in s.status && StatusIs(s, id, s.status[s.enqueued[id].message])
  {
    RunKeepsInv(events);
    assert OneFate(Run(EMPTY, events).book, id);
    if LinkedOnce(events) {
      RunTells(events);
    }
  }

  /** No attempt is made at or past its blob's ttl, elapsed plus remaining time is the ttl chosen, and
      every acknowledged send is one of the attempts. */
  lemma SentInTime(events: seq<Event>)
    ensures var s := Run(EMPTY, events).book;
      && (forall i :: 0 <= i < |s.posts| ==> Timely(s.posts[i], s.enqueued))
      && (forall i :: 0 <= i < |s.sent| ==> s.sent[i] in s.posts)
  {
    RunKeepsInv(events);
    var s := Run(EMPTY, events).book;
    forall i | 0 <= i < |s.posts| ensures Timely(s.posts[i], s.enqueued) {
      assert InTime(s.enqueued[s.posts[i].id], s.posts[i]);
    }
  }

  /** The attempt carries the ttl chosen less the whole seconds gone by; a clock before the enqueue counts as none. */
  predicate Timely(x: Sent, enqueued: seq<Row>) {
    x.id < |enqueued| && x.ttl.Some? == enqueued[x.id].ttl.Some? &&
    (x.ttl.Some? ==>
       var gone := enqueued[x.id].ttl.value - x.ttl.value;
       && x.ttl.value > 0 && gone >= 0 && (gone > 0 ==> enqueued[x.id].createdAt + 1000 * gone <= x.at)
       && x.at < enqueued[x.id].createdAt + 1000 * (gone + 1))
  }

  /** A blob has run out exactly when its ttl, in seconds since it was enqueued, has gone by. */
  lemma ExpiredIff(r: Row, at: nat)
    ensures Expired(r, at) <==> r.ttl.Some? && (r.ttl.value == 0 || at >= r.createdAt + 1000 * r.ttl.value)
  {}

  // Order.

  lemma RunPush(s: State, events: seq<Event>, ev: Event)
    ensures Run(s, events + [ev]) == Step(Run(s, events), ev)
  {
    assert (events + [ev])[..|events|] == events;
  }

  lemma {:induction false} RunConcat(s: State, a: seq<Event>, b: seq<Event>)
    ensures Run(s, a + b) == Run(Run(s, a), b)
    decreases |b|
  {
    if b == [] {
      assert a + b == a;
    } else {
      RunConcat(s, a, b[..|b| - 1]);
      assert (a + b)[..|a + b| - 1] == a + b[..|b| - 1];
    }
  }

  lemma RunCons(s: State, ev: Event, events: seq<Event>)
    ensures Run(s, [ev] + events) == Run(Step(s, ev), events)
  {
    RunConcat(s, [ev], events);
    RunPush(s, [], ev);
    assert [] + [ev] == [ev];
  }

  /** The clock has not gone back behind a row still stored. */
  predicate NotBack(rows: seq<Row>, ev: Event) {
    ev.Enqueue? ==> forall i :: 0 <= i < |rows| ==> rows[i].createdAt <= ev.at
  }

  predicate GuardAt(events: seq<Event>, k: nat)
    requires k < |events|
  {
    NotBack(Run(EMPTY, events[..k]).book.rows, events[k])
  }

  ghost predicate NoRollback(events: seq<Event>) { forall k :: 0 <= k < |events| ==> GuardAt(events, k) }

  predicate IdsAscend(rows: seq<Row>) { forall i, j :: 0 <= i < j < |rows| ==> rows[i].id < rows[j].id }

  /** Rows stand in the order they were enqueued, after everything attempted or acknowledged; n blobs have
      been enqueued. */
  ghost predicate Queue(rows: seq<Row>, posts: seq<Sent>, sent: seq<Sent>, n: nat) {
    && IdsAscend(rows)
    && (forall i :: 0 <= i < |rows| ==> rows[i].id < n)
    && Behind(sent, rows, n) && (forall i, j :: 0 <= i < j < |sent| ==> sent[i].id < sent[j].id)
    && AtMost(posts, rows, n) && (forall i, j :: 0 <= i < j < |posts| ==> posts[i].id <= posts[j].id)
  }

  ghost predicate Behind(sent: seq<Sent>, rows: seq<Row>, n: nat) {
    && (forall i :: 0 <= i < |sent| ==> sent[i].id < n)
    && (forall i, j :: 0 <= i < |sent| && 0 <= j < |rows| ==> sent[i].id < rows[j].id)
  }

  ghost predicate AtMost(posts: seq<Sent>, rows: seq<Row>, n: nat) {
    && (forall i :: 0 <= i < |posts| ==> posts[i].id < n)
    && (forall i, j :: 0 <= i < |posts| && 0 <= j < |rows| ==> posts[i].id <= rows[j].id)
  }

  predicate AtFront(flush: Option<seq<Row>>, rows: seq<Row>) {
    flush.Some? ==> |flush.value| <= |rows| && flush.value == rows[..|flush.value|]
  }

  lemma {:induction false} DeleteFirst(rows: seq<Row>)
    requires rows != [] && forall i :: 0 < i < |rows| ==> rows[i].id != rows[0].id
    ensures Delete(rows, rows[0].id) == rows[1..]
  {
    var front, last := rows[..|rows| - 1], rows[|rows| - 1];
    if |rows| == 1 {
      assert Delete(front, rows[0].id) == [];
    } else {
      DeleteFirst(front);
      assert front[1..] + [last] == rows[1..];
    }
  }

  lemma {:induction false} BumpShape(rows: seq<Row>, id: nat)
    ensures |Bump(rows, id)| == |rows|
    ensures forall i :: 0 <= i < |rows| ==> Bump(rows, id)[i] == rows[i].(attempts := Bump(rows, id)[i].attempts)
  {
    if rows != [] {
      BumpShape(rows[..|rows| - 1], id);
    }
  }

  lemma QueueMoves(rows: seq<Row>, posts: seq<Sent>, sent: seq<Sent>, n: nat, x: Sent)
    requires Queue(rows, posts, sent, n) && rows != [] && x.id == rows[0].id
    ensures Queue(rows, posts + [x], sent, n)
    ensures Queue(rows[1..], posts, sent, n) && Queue(rows[1..], posts + [x], sent, n)
    ensures Queue(rows[1..], posts + [x], sent + [x], n)
  {
    var rest := rows[1..];
    assert forall i :: 0 <= i < |rest| ==> rest[i] == rows[i + 1];
    assert forall j :: 0 <= j < |rows| ==> x.id <= rows[j].id;
    assert forall j :: 0 <= j < |rest| ==> x.id < rest[j].id;
    assert IdsAscend(rest);
  }

  lemma QueueBumped(rows: seq<Row>, posts: seq<Sent>, sent: seq<Sent>, n: nat, id: nat)
    requires Queue(rows, posts, sent, n)
    ensures Queue(Bump(rows, id), posts, sent, n)
  {
    BumpShape(rows, id);
  }

  ghost predicate QueueOk(s: Book) { Queue(s.rows, s.posts, s.sent, |s.enqueued|) }

  /** A turn on the first row keeps the queue, and stops there or takes that row out. */
  lemma TurnInOrder(s: Book, at: nat, reply: Reply)
    requires QueueOk(s) && s.rows != []
    ensures var t := Turn(s, s.rows[0], at, reply);
      QueueOk(t) && t.rows == if Stops(s.rows[0], at, reply) then Bump(s.rows, s.rows[0].id) else s.rows[1..]
  {
    var r := s.rows[0];
    var x := Sent(r.id, at, if Expired(r, at) then None else Remaining(r, at));
    DeleteFirst(s.rows);
    QueueMoves(s.rows, s.posts, s.sent, |s.enqueued|, x);
    QueueBumped(s.rows, s.posts + [x], s.sent, |s.enqueued|, r.id);
  }

  lemma ParkInOrder(s: Book, blob: string, message: string, ttl: Option<nat>, at: nat)
    requires QueueOk(s) && forall i :: 0 <= i < |s.rows| ==> s.rows[i].createdAt <= at
    ensures var t := Park(s, blob, message, ttl, at);
      QueueOk(t) && t.rows == s.rows + [Row(|s.enqueued|, blob, message, at, ttl, 0)]
  {}

  lemma FrontMoves(flush: seq<Row>, rows: seq<Row>)
    requires AtFront(Some(flush), rows) && flush != []
    ensures rows != [] && flush[0] == rows[0] && AtFront(Some(flush[1..]), rows[1..])
  {
    assert flush[1..] == rows[1..][..|flush| - 1];
  }

  ghost predicate Ordered(s: State) { QueueOk(s.book) && AtFront(s.flush, s.book.rows) }

  lemma StepInOrder(s: State, ev: Event)
    requires Ordered(s) && NotBack(s.book.rows, ev)
    ensures Ordered(Step(s, ev))
  {
    match ev
    case Enqueue(blob, message, ttl, at) => ParkInOrder(s.book, blob, message, ttl, at);
    case Start =>
    case Next(at, reply) =>
      if s.flush.Some? && s.flush.value != [] {
        FrontMoves(s.flush.value, s.book.rows);
        TurnInOrder(s.book, at, reply);
      }
  }

  lemma {:induction false} RunInOrder(events: seq<Event>)
    requires NoRollback(events)
    ensures Ordered(Run(EMPTY, events))
    decreases |events|
  {
    if events != [] {
      var front := events[..|events| - 1];
      GuardsBefore(events, |events| - 1);
      RunInOrder(front);
      assert GuardAt(events, |events| - 1);
      StepInOrder(Run(EMPTY, front), events[|events| - 1]);
    }
  }

  lemma GuardsBefore(events: seq<Event>, n: nat)
    requires NoRollback(events) && n <= |events|
    ensures NoRollback(events[..n])
  {
    forall k | 0 <= k < n ensures GuardAt(events[..n], k) {
      assert GuardAt(events, k);
      assert events[..n][..k] == events[..k];
    }
  }

  /** As long as no blob is enqueued at an earlier time than a row still stored, blobs are attempted and
      acknowledged in the order they were enqueued, across flushes and failures, and none is sent while an
      earlier one is still queued. */
  lemma SentInQueueOrder(events: seq<Event>)
    requires NoRollback(events)
    ensures var s := Run(EMPTY, events).book;
      && (forall i, j :: 0 <= i < j < |s.sent| ==> s.sent[i].id < s.sent[j].id)
      && (forall i, j :: 0 <= i < j < |s.posts| ==> s.posts[i].id <= s.posts[j].id)
      && !Overtaken(s) && IdsAscend(s.rows)
  {
    RunInOrder(events);
  }

  /** A blob was sent while an earlier one was still queued. */
  ghost predicate Overtaken(s: Book) {
    exists i, j :: 0 <= i < |s.sent| && 0 <= j < |s.rows| && s.sent[i].id > s.rows[j].id
  }

  // And only as long as that.

  predicate ByTime(rows: seq<Row>) { forall i, j :: 0 <= i < j < |rows| ==> rows[i].createdAt <= rows[j].createdAt }

  lemma {:induction false} InsertByTime(rows: seq<Row>, r: Row)
    requires ByTime(rows)
    ensures ByTime(Insert(rows, r)) && forall x :: x in Insert(rows, r) <==> x in rows || x == r
  {
    if rows != [] && rows[|rows| - 1].createdAt > r.createdAt {
      var front, last := rows[..|rows| - 1], rows[|rows| - 1];
      InsertByTime(front, r);
      assert rows == front + [last];
      assert forall x :: x in Insert(front, r) ==> x.createdAt <= last.createdAt;
    }
  }

  lemma {:induction false} DeleteByTime(rows: seq<Row>, id: nat)
    requires ByTime(rows)
    ensures ByTime(Delete(rows, id)) && forall x :: x in Delete(rows, id) ==> x in rows
  {
    if rows != [] {
      var front, last := rows[..|rows| - 1], rows[|rows| - 1];
      DeleteByTime(front, id);
      assert forall x :: x in front ==> x in rows && x.createdAt <= last.createdAt;
    }
  }

  lemma StepByTime(s: State, ev: Event)
    requires ByTime(s.book.rows)
    ensures ByTime(Step(s, ev).book.rows)
  {
    match ev
    case Enqueue(blob, message, ttl, at) => InsertByTime(s.book.rows, Row(|s.book.enqueued|, blob, message, at, ttl, 0));
    case Start =>
    case Next(at, reply) =>
      if s.flush.Some? && s.flush.value != [] {
        var r := s.flush.value[0];
        DeleteByTime(s.book.rows, r.id);
        BumpShape(s.book.rows, r.id);
      }
  }

  lemma {:induction false} RunByTime(events: seq<Event>)
    ensures ByTime(Run(EMPTY, events).book.rows)
    decreases |events|
  {
    if events != [] {
      RunByTime(events[..|events| - 1]);
      StepByTime(Run(EMPTY, events[..|events| - 1]), events[|events| - 1]);
    }
  }

  lemma InsertsBefore(rows: seq<Row>, r: Row)
    requires ByTime(rows) && exists k :: 0 <= k < |rows| && rows[k].createdAt > r.createdAt
    ensures var t := Insert(rows, r);
      |t| > 0 && t[|t| - 1] == rows[|rows| - 1] && exists i :: 0 <= i < |t| - 1 && t[i] == r
  {
    var front, last := rows[..|rows| - 1], rows[|rows| - 1];
    InsertByTime(front, r);
    assert r in Insert(front, r);
    var i :| 0 <= i < |Insert(front, r)| && Insert(front, r)[i] == r;
    assert Insert(rows, r) == Insert(front, r) + [last];
    assert Insert(rows, r)[i] == r;
  }

  lemma ParkReorders(s: Book, blob: string, message: string, ttl: Option<nat>, at: nat)
    requires ByTime(s.rows) && RowsOk(s.rows, s.enqueued) && exists k :: 0 <= k < |s.rows| && s.rows[k].createdAt > at
    ensures !IdsAscend(Park(s, blob, message, ttl, at).rows)
  {
    var r := Row(|s.enqueued|, blob, message, at, ttl, 0);
    InsertsBefore(s.rows, r);
    var t := Insert(s.rows, r);
    var i :| 0 <= i < |t| - 1 && t[i] == r;
    assert Original(s.rows[|s.rows| - 1], s.enqueued);
    assert t[i].id >= t[|t| - 1].id;
  }

  /** A blob enqueued at an earlier time than a stored row goes in front of an earlier blob. */
  lemma RollbackReorders(events: seq<Event>, ev: Event)
    requires ev.Enqueue? && !NotBack(Run(EMPTY, events).book.rows, ev)
    ensures !IdsAscend(Run(EMPTY, events + [ev]).book.rows)
  {
    RunByTime(events);
    RunKeepsInv(events);
    RunPush(EMPTY, events, ev);
    ParkReorders(Run(EMPTY, events).book, ev.blob, ev.message, ev.ttl, ev.at);
  }

  lemma UnguardedReorders(events: seq<Event>, k: nat)
    requires k < |events| && !GuardAt(events, k)
    ensures !IdsAscend(Run(EMPTY, events[..k + 1]).book.rows)
  {
    var front := events[..k];
    assert events[..k + 1] == front + [events[k]];
    RollbackReorders(front, events[k]);
  }

  /** Stored rows stand in the order they were enqueued, at every moment of the run, if and only if no blob
      was enqueued at an earlier time than a row then stored. */
  lemma StoredInOrderIff(events: seq<Event>)
    ensures (forall k :: 0 <= k <= |events| ==> IdsAscend(Run(EMPTY, events[..k]).book.rows)) <==> NoRollback(events)
  {
    if NoRollback(events) {
      forall k | 0 <= k <= |events| ensures IdsAscend(Run(EMPTY, events[..k]).book.rows) {
        GuardsBefore(events, k);
        SentInQueueOrder(events[..k]);
      }
    } else {
      var k :| 0 <= k < |events| && !GuardAt(events, k);
      UnguardedReorders(events, k);
    }
  }

  // Out of order rows are sent out of order.

  /** A ttl of zero has run out from the start: such a blob is never sent. */
  predicate NoZeroTtl(events: seq<Event>) { forall k :: 0 <= k < |events| && events[k].Enqueue? ==> events[k].ttl != Some(0) }

  predicate Live(rows: seq<Row>) { forall i :: 0 <= i < |rows| ==> rows[i].ttl != Some(0) }

  lemma {:induction false} RunLive(events: seq<Event>)
    requires NoZeroTtl(events)
    ensures Live(Run(EMPTY, events).book.enqueued)
    decreases |events|
  {
    if events != [] {
      RunLive(events[..|events| - 1]);
    }
  }

  lemma LiveRows(rows: seq<Row>, enqueued: seq<Row>)
    requires RowsOk(rows, enqueued) && Live(enqueued)
    ensures Live(rows)
  {
    forall i | 0 <= i < |rows| ensures rows[i].ttl != Some(0) {
      assert Original(rows[i], enqueued);
    }
  }

  ghost predicate DistinctIds(rows: seq<Row>) { forall i, j :: 0 <= i < j < |rows| ==> rows[i].id != rows[j].id }

  lemma {:induction false} StoredOnce(rows: seq<Row>, i: nat)
    requires i < |rows|
    ensures Stored(rows, rows[i].id) >= 1
  {
    if i < |rows| - 1 {
      StoredOnce(rows[..|rows| - 1], i);
    }
  }

  lemma {:induction false} StoredTwice(rows: seq<Row>, i: nat, j: nat)
    requires i < j < |rows| && rows[i].id == rows[j].id
    ensures Stored(rows, rows[i].id) >= 2
  {
    var front := rows[..|rows| - 1];
    if j < |rows| - 1 {
      StoredTwice(front, i, j);
    } else {
      StoredOnce(front, i);
    }
  }

  lemma CountedDistinct(s: Book)
    requires Counted(s)
    ensures DistinctIds(s.rows)
  {
    forall i, j | 0 <= i < j < |s.rows| ensures s.rows[i].id != s.rows[j].id {
      assert OneFate(s, s.rows[i].id);
      if s.rows[i].id == s.rows[j].id {
        StoredTwice(s.rows, i, j);
      }
    }
  }

  function Refusals(n: nat): seq<Event> { if n == 0 then [] else Refusals(n - 1) + [Next(0, Refused)] }

  lemma RefuseHead(t: State, r: Row, rest: seq<Row>)
    requires t.book.rows == [r] + rest && t.flush == Some([r] + rest) && r.ttl != Some(0)
    requires forall i :: 0 <= i < |rest| ==> rest[i].id != r.id
    ensures var u := Step(t, Next(0, Refused));
      u.book.rows == rest && u.flush == Some(rest) && u.book.sent == t.book.sent
  {
    DeleteFirst([r] + rest);
  }

  ghost predicate Drained(s: Book, n: nat, t: State)
    requires n <= |s.rows|
  {
    t.book.rows == s.rows[n..] && t.flush == Some(s.rows[n..]) && t.book.sent == s.sent
  }

  lemma DrainOne(s: Book, n: nat, t: State)
    requires DistinctIds(s.rows) && Live(s.rows) && n < |s.rows| && Drained(s, n, t)
    ensures Drained(s, n + 1, Step(t, Next(0, Refused)))
  {
    assert s.rows[n..] == [s.rows[n]] + s.rows[n + 1..];
    RefuseHead(t, s.rows[n], s.rows[n + 1..]);
  }

  /** A flush whose first n sends are refused for good has the rest of the rows before it. */
  lemma {:induction false} DrainTo(s: Book, n: nat)
    requires DistinctIds(s.rows) && Live(s.rows) && n <= |s.rows|
    ensures Drained(s, n, Run(State(s, Some(s.rows)), Refusals(n)))
  {
    var start := State(s, Some(s.rows));
    if n == 0 {
      assert s.rows[0..] == s.rows;
    } else {
      DrainTo(s, n - 1);
      DrainOne(s, n - 1, Run(start, Refusals(n - 1)));
      RunPush(start, Refusals(n - 1), Next(0, Refused));
    }
  }

  // A flush while the server answers.

  /** The sends of the rows that have time left, in order, and the ids of those that have none. */
  function Due(rows: seq<Row>, at: nat): seq<Sent> {
    if rows == [] then [] else
    var k := |rows| - 1;
    Due(rows[..k], at) + if Expired(rows[k], at) then [] else [Sent(rows[k].id, at, Remaining(rows[k], at))]
  }

  function Overdue(rows: seq<Row>, at: nat): seq<nat> {
    if rows == [] then [] else
    var k := |rows| - 1;
    Overdue(rows[..k], at) + if Expired(rows[k], at) then [rows[k].id] else []
  }

  function Answers(n: nat, at: nat): seq<Event> { if n == 0 then [] else Answers(n - 1, at) + [Next(at, Accepted)] }

  ghost predicate Flushed(s: Book, n: nat, at: nat, t: State)
    requires n <= |s.rows|
  {
    && t.book.rows == s.rows[n..] && t.flush == Some(s.rows[n..]) && t.book.enqueued == s.enqueued
    && t.book.sent == s.sent + Due(s.rows[..n], at) && t.book.dropped == s.dropped + Overdue(s.rows[..n], at)
  }

  lemma FlushOne(s: Book, n: nat, at: nat, t: State)
    requires DistinctIds(s.rows) && n < |s.rows| && Flushed(s, n, at, t)
    ensures Flushed(s, n + 1, at, Step(t, Next(at, Accepted)))
  {
    assert s.rows[n..] == [s.rows[n]] + s.rows[n + 1..];
    assert s.rows[..n + 1][..n] == s.rows[..n];
    DeleteFirst(s.rows[n..]);
  }

  lemma {:induction false} FlushTo(s: Book, n: nat, at: nat)
    requires DistinctIds(s.rows) && n <= |s.rows|
    ensures Flushed(s, n, at, Run(State(s, Some(s.rows)), Answers(n, at)))
  {
    var start := State(s, Some(s.rows));
    if n == 0 {
      assert s.rows[0..] == s.rows;
    } else {
      FlushTo(s, n - 1, at);
      FlushOne(s, n - 1, at, Run(start, Answers(n - 1, at)));
      RunPush(start, Answers(n - 1, at), Next(at, Accepted));
    }
  }

  /** After every run with no flush under way, a flush while the server answers empties the queue: the rows with
      time left are acknowledged in order and the others are given up, and the flush ends. */
  lemma FlushEmptiesQueue(events: seq<Event>, at: nat)
    requires Run(EMPTY, events).flush.None?
    ensures var s := Run(EMPTY, events).book;
      var t := Run(EMPTY, events + ([Start] + Answers(|s.rows| + 1, at)));
      && t.flush.None? && t.book.rows == [] && t.book.enqueued == s.enqueued
      && t.book.sent == s.sent + Due(s.rows, at) && t.book.dropped == s.dropped + Overdue(s.rows, at)
  {
    var s := Run(EMPTY, events);
    var n := |s.book.rows|;
    RunKeepsInv(events);
    CountedDistinct(s.book);
    FlushTo(s.book, n, at);
    assert s.book.rows[..n] == s.book.rows;
    RunConcat(EMPTY, events, [Start] + Answers(n + 1, at));
    RunCons(s, Start, Answers(n + 1, at));
    RunPush(Step(s, Start), Answers(n, at), Next(at, Accepted));
  }

  predicate Drains(events: seq<Event>) { forall k :: 0 <= k < |events| ==> !events[k].Enqueue? }

  lemma {:induction false} RefusalsDrain(n: nat)
    ensures Drains(Refusals(n))
  {
    if n > 0 {
      RefusalsDrain(n - 1);
    }
  }

  /** With live rows, one failed send ends whatever flush is under way. */
  lemma EndFlush(s: State)
    requires s.flush.Some? ==> Live(s.flush.value)
    ensures var t := Step(s, Next(0, Retry));
      && t.flush.None? && t.book.sent == s.book.sent && |t.book.rows| == |s.book.rows|
      && forall i :: 0 <= i < |s.book.rows| ==> t.book.rows[i].id == s.book.rows[i].id && t.book.rows[i].ttl == s.book.rows[i].ttl
  {
    if s.flush.Some? && s.flush.value != [] {
      BumpShape(s.book.rows, s.flush.value[0].id);
    }
  }

  lemma SendHead(t: State, r: Row, rest: seq<Row>)
    requires t.book.rows == [r] + rest && t.flush == Some([r] + rest) && Live([r])
    requires forall i :: 0 <= i < |rest| ==> rest[i].id != r.id
    ensures var u := Step(t, Next(0, Accepted)).book;
      u.rows == rest && |u.sent| == |t.book.sent| + 1 && u.sent[|t.book.sent|].id == r.id
  {
    DeleteFirst([r] + rest);
    assert [r][0].ttl != Some(0);
  }

  function SendRowAt(i: nat): seq<Event> { Refusals(i) + [Next(0, Accepted)] }

  /** From any state with rows i before j out of order, a flush can send i while j is still queued. */
  lemma FlushOvertakes(s: Book, i: nat, j: nat)
    requires DistinctIds(s.rows) && Live(s.rows) && i < j < |s.rows| && s.rows[i].id > s.rows[j].id
    ensures Overtaken(Run(State(s, Some(s.rows)), SendRowAt(i)).book)
  {
    var start := State(s, Some(s.rows));
    DrainTo(s, i);
    RunPush(start, Refusals(i), Next(0, Accepted));
    var r, rest := s.rows[i], s.rows[i + 1..];
    assert s.rows[i..] == [r] + rest;
    SendHead(Run(start, Refusals(i)), r, rest);
    assert rest[j - i - 1] == s.rows[j];
  }

  /** What a failed send leaves of a run: the same rows, each once and none with a ttl of zero. */
  lemma AfterFailedSend(events: seq<Event>)
    requires NoZeroTtl(events)
    ensures var s, t := Run(EMPTY, events).book, Step(Run(EMPTY, events), Next(0, Retry));
      && t.flush.None? && DistinctIds(t.book.rows) && Live(t.book.rows) && |t.book.rows| == |s.rows|
      && forall i :: 0 <= i < |s.rows| ==> t.book.rows[i].id == s.rows[i].id
  {
    var s := Run(EMPTY, events);
    RunKeepsInv(events);
    RunLive(events);
    LiveRows(s.book.rows, s.book.enqueued);
    if s.flush.Some? {
      LiveRows(s.flush.value, s.book.enqueued);
    }
    EndFlush(s);
    CountedDistinct(s.book);
  }

  function Overtake(i: nat): seq<Event> { [Next(0, Retry)] + ([Start] + SendRowAt(i)) }

  lemma OvertakeDrains(i: nat)
    ensures Drains(Overtake(i))
  {
    RefusalsDrain(i);
  }

  lemma OvertakeRuns(events: seq<Event>, i: nat)
    ensures Run(EMPTY, events + Overtake(i)) == Run(Step(Step(Run(EMPTY, events), Next(0, Retry)), Start), SendRowAt(i))
  {
    var s := Run(EMPTY, events);
    RunConcat(EMPTY, events, Overtake(i));
    RunCons(s, Next(0, Retry), [Start] + SendRowAt(i));
    RunCons(Step(s, Next(0, Retry)), Start, SendRowAt(i));
  }

  lemma OutOfOrderOvertakes(events: seq<Event>, i: nat, j: nat)
    requires NoZeroTtl(events)
    requires i < j < |Run(EMPTY, events).book.rows|
    requires Run(EMPTY, events).book.rows[i].id > Run(EMPTY, events).book.rows[j].id
    ensures Drains(Overtake(i)) && Overtaken(Run(EMPTY, events + Overtake(i)).book)
  {
    AfterFailedSend(events);
    OvertakeDrains(i);
    OvertakeRuns(events, i);
    FlushOvertakes(Step(Run(EMPTY, events), Next(0, Retry)).book, i, j);
  }

  lemma GuardsAfter(events: seq<Event>, more: seq<Event>)
    requires NoRollback(events) && Drains(more)
    ensures NoRollback(events + more)
  {
    var all := events + more;
    forall k | 0 <= k < |all| ensures GuardAt(all, k) {
      if k < |events| {
        assert GuardAt(events, k);
        assert all[..k] == events[..k];
      } else {
        assert all[k] == more[k - |events|];
      }
    }
  }

  /** Some way to go on from event k, with no further enqueue, sends a blob while an earlier one is queued. */
  ghost predicate CanOvertakeAt(events: seq<Event>, k: nat)
    requires k <= |events|
  {
    exists more :: Drains(more) && Overtaken(Run(EMPTY, events[..k] + more).book)
  }

  lemma GuardedNotOvertaken(events: seq<Event>, k: nat)
    requires NoRollback(events) && k <= |events|
    ensures !CanOvertakeAt(events, k)
  {
    GuardsBefore(events, k);
    forall more | Drains(more) ensures !Overtaken(Run(EMPTY, events[..k] + more).book) {
      GuardsAfter(events[..k], more);
      SentInQueueOrder(events[..k] + more);
    }
  }

  /** Rows not in ascending order have two in descending order, since no id is stored twice. */
  lemma OutOfOrder(events: seq<Event>) returns (i: nat, j: nat)
    requires !IdsAscend(Run(EMPTY, events).book.rows)
    ensures var rows := Run(EMPTY, events).book.rows; i < j < |rows| && rows[i].id > rows[j].id
  {
    RunKeepsInv(events);
    CountedDistinct(Run(EMPTY, events).book);
    var rows := Run(EMPTY, events).book.rows;
    i, j :| 0 <= i < j < |rows| && !(rows[i].id < rows[j].id);
  }

  lemma RollbackOvertakes(front: seq<Event>, ev: Event)
    requires NoZeroTtl(front + [ev]) && ev.Enqueue? && !NotBack(Run(EMPTY, front).book.rows, ev)
    ensures exists more :: Drains(more) && Overtaken(Run(EMPTY, front + [ev] + more).book)
  {
    RollbackReorders(front, ev);
    var i, j := OutOfOrder(front + [ev]);
    OutOfOrderOvertakes(front + [ev], i, j);
  }

  lemma UnguardedCanOvertake(events: seq<Event>, k: nat)
    requires NoZeroTtl(events) && k < |events| && !GuardAt(events, k)
    ensures CanOvertakeAt(events, k + 1)
  {
    var front := events[..k];
    assert events[..k + 1] == front + [events[k]];
    RollbackOvertakes(front, events[k]);
  }

  /** At no moment of the run can the outbox go on to send a blob while an earlier one is queued, if and
      only if no blob was enqueued at an earlier time than a row then stored. */
  lemma NeverOvertakenIff(events: seq<Event>)
    requires NoZeroTtl(events)
    ensures (forall k :: 0 <= k <= |events| ==> !CanOvertakeAt(events, k)) <==> NoRollback(events)
  {
    if NoRollback(events) {
      forall k | 0 <= k <= |events| ensures !CanOvertakeAt(events, k) {
        GuardedNotOvertaken(events, k);
      }
    } else {
      var k :| 0 <= k < |events| && !GuardAt(events, k);
      UnguardedCanOvertake(events, k);
    }
  }

  lemma LaterFirst(s: State, blob: string, at: nat, now: nat)
    requires s.flush.None? && |s.book.rows| == 1 && s.book.rows[0].createdAt > at
    requires s.book.rows[0].id < |s.book.enqueued|
    ensures var t := Step(Step(Step(s, Enqueue(blob, "", None, at)), Start), Next(now, Accepted));
      t.book.sent == s.book.sent + [Sent(|s.book.enqueued|, now, None)] && t.book.rows == s.book.rows
  {
    var r, rows := Row(|s.book.enqueued|, blob, "", at, None, 0), s.book.rows;
    assert rows[..0] == [] && Insert([], r) == [r];
    assert Insert(rows, r) == [r] + rows;
    DeleteFirst([r] + rows);
  }

  /** From the empty outbox: of two blobs with the clock set back between them, the later one is sent first. */
  lemma ClockRollbackReorders(first: string, second: string, at: nat, earlier: nat, now: nat)
    requires earlier < at
    ensures var events := [Enqueue(first, "", None, at)] + [Enqueue(second, "", None, earlier)] + [Start] + [Next(now, Accepted)];
      var s := Run(EMPTY, events).book;
      s.sent == [Sent(1, now, None)] && s.rows == [Row(0, first, "", at, None, 0)]
  {
    var e1 := [Enqueue(first, "", None, at)];
    var e2 := e1 + [Enqueue(second, "", None, earlier)];
    RunPush(EMPTY, [], e1[0]);
    assert [] + e1 == e1;
    var s := Run(EMPTY, e1);
    assert s.book.rows == [Row(0, first, "", at, None, 0)] && s.book.enqueued == s.book.rows;
    RunPush(EMPTY, e1, Enqueue(second, "", None, earlier));
    RunPush(EMPTY, e2, Start);
    RunPush(EMPTY, e2 + [Start], Next(now, Accepted));
    LaterFirst(s, second, earlier, now);
  }

  /** The outbox of one tab. The clock's readings and the outcomes of the sends are inputs. */
  class Store {
    var rows: seq<Row>
    var status: map<string, Status>
    var flushing: bool
    ghost var enqueued: seq<Row>
    ghost var posts: seq<Sent>
    ghost var sent: seq<Sent>
    ghost var dropped: seq<nat>

    ghost function Contents(): Book
      reads this
    {
      Book(rows, status, enqueued, posts, sent, dropped)
    }

    constructor ()
      ensures Contents() == EMPTY.book && !flushing
    {
      rows, status, flushing, enqueued, posts, sent, dropped := [], map[], false, [], [], [], [];
    }

    method EnqueueBlob(id: nat, blob: string, message: string, ttl: Option<nat>, now: nat)
      requires id == |enqueued|
      modifies this
      ensures Contents() == Park(old(Contents()), blob, message, ttl, now) && flushing == old(flushing)
    {
      var r := Row(id, blob, message, now, ttl, 0);
      rows := Insert(rows, r);
      status := Mark(status, message, Queued);
      enqueued := enqueued + [r];
    }

    /** What the loop does to one row; true when the flush must stop. */
    method SendRow(r: Row, now: nat, reply: Reply) returns (stop: bool)
      modifies this
      ensures Contents() == Turn(old(Contents()), r, now, reply) && stop == Stops(r, now, reply)
      ensures flushing == old(flushing)
    {
      var elapsed := if now < r.createdAt then 0 else (now - r.createdAt) / 1000;
      stop := false;
      if r.ttl.Some? && elapsed >= r.ttl.value {
        rows := Delete(rows, r.id);
        status := Mark(status, r.message, Failed);
        dropped := dropped + [r.id];
        return;
      }
      var attempt := Sent(r.id, now, if r.ttl.None? then None else Some(r.ttl.value - elapsed));
      posts := posts + [attempt];
      match reply
      case Accepted =>
        sent := sent + [attempt];
        rows := Delete(rows, r.id);
        status := Mark(status, r.message, Delivered);
      case Refused =>
        rows := Delete(rows, r.id);
        status := Mark(status, r.message, Failed);
        dropped := dropped + [r.id];
      case Retry =>
        rows := Bump(rows, r.id);
        stop := true;
    }

    /** A whole flush is a run of the model that ends with no flush under way. */
    method FlushOutbox(clock: nat -> nat, replies: nat -> Reply) returns (ghost events: seq<Event>)
      modifies this
      ensures old(flushing) ==> Contents() == old(Contents()) && flushing && events == []
      ensures !old(flushing) ==> !flushing && Run(State(old(Contents()), None), events) == State(Contents(), None)
    {
      events := [];
      if flushing {
        return;
      }
      flushing := true;
      var snapshot, i, stop := rows, 0, false;
      ghost var start := State(Contents(), None);
      events := [Start];
      RunPush(start, [], Start);
      assert [] + [Start] == events;
      while i < |snapshot| && !stop
        invariant 0 <= i <= |snapshot| && flushing
        invariant Run(start, events) == State(Contents(), if stop then None else Some(snapshot[i..]))
      {
        ghost var ev := Next(clock(i), replies(i));
        RunPush(start, events, ev);
        stop := SendRow(snapshot[i], clock(i), replies(i));
        events := events + [ev];
        i := i + 1;
        assert snapshot[i - 1..][1..] == snapshot[i..];
      }
      if !stop {
        RunPush(start, events, Next(0, Retry));
        events := events + [Next(0, Retry)];
      }
      flushing := false;
    }
  }
}
