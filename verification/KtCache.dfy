/** The cached Merkle snapshot (server/src/kt_cache.rs) under every interleaving of commits to the log
    and concurrent `snapshot` calls. One step of the system is one database read, one access to the
    shared slot or one gate operation, which is where the Rust code can be interleaved. */
module KtCache {
  import opened ByteStrings
  import opened MerkleTree
  import opened KtLog
  import opened Results

  /** A row of kt_log. The bundle hash is stored as text and decoded by `hex`. */
  datatype KtEntry = KtEntry(user: Bytes, bundleHash: string, timestamp: int)
  datatype Row = Row(seqno: nat, entry: KtEntry)

  /** SHA-256 and the hex decoder. */
  datatype Env = Env(sha: Hash, hex: string -> Option<Bytes>)

  datatype Snapshot = Snapshot(
    generation: nat, entries: seq<KtEntry>, leaves: seq<Digest>, root: Digest, indexByUser: map<Bytes, nat>)

  // ---------- building a snapshot ----------

  predicate Decodes(env: Env, e: KtEntry) {
    env.hex(e.bundleHash).Some? && |env.hex(e.bundleHash).value| == DIGEST_LEN && Is64Bit(e.timestamp)
  }

  function Decoded(env: Env, e: KtEntry): Entry
    requires Decodes(env, e)
  {
    Entry(e.user, env.hex(e.bundleHash).value, e.timestamp)
  }

  predicate AllDecode(env: Env, entries: seq<KtEntry>) {
    forall i :: 0 <= i < |entries| ==> Decodes(env, entries[i])
  }

  function DecodedLog(env: Env, entries: seq<KtEntry>): (log: seq<Entry>)
    requires AllDecode(env, entries)
    ensures |log| == |entries| && ValidLog(log)
  {
    seq(|entries|, i requires 0 <= i < |entries| => Decoded(env, entries[i]))
  }

  /** The index sends each user of the log, and nobody else, to that user's last entry. */
  ghost predicate IndexesLatest(entries: seq<KtEntry>, index: map<Bytes, nat>) {
    && (forall i :: 0 <= i < |entries| ==> entries[i].user in index)
    && (forall u :: u in index ==> index[u] < |entries| && entries[index[u]].user == u)
    && (forall u, i :: u in index && index[u] < i < |entries| ==> entries[i].user != u)
  }

  /** A snapshot agrees with itself: leaves and root are those of its own entries. */
  ghost predicate WellBuilt(env: Env, s: Snapshot) {
    && AllDecode(env, s.entries)
    && s.leaves == Leaves(env.sha, DecodedLog(env, s.entries))
    && s.root == Root(env.sha, DecodedLog(env, s.entries))
    && IndexesLatest(s.entries, s.indexByUser)
  }

  /** Fails on the first entry whose bundle hash is not 32 bytes of hex. */
  method EntriesToLeaves(env: Env, entries: seq<KtEntry>) returns (r: Result<seq<Digest>, nat>)
    requires forall i :: 0 <= i < |entries| ==> Is64Bit(entries[i].timestamp)
    ensures r.Success? <==> AllDecode(env, entries)
    ensures r.Success? ==> r.value == Leaves(env.sha, DecodedLog(env, entries))
    ensures r.Failure? ==> r.error < |entries| && !Decodes(env, entries[r.error]) && AllDecode(env, entries[..r.error])
  {
    var leaves: seq<Digest> := [];
    for i := 0 to |entries|
      invariant AllDecode(env, entries[..i]) && leaves == Leaves(env.sha, DecodedLog(env, entries[..i]))
    {
      var e := entries[i];
      var bh := env.hex(e.bundleHash);
      if bh.None? || |bh.value| != DIGEST_LEN {
        return Failure(i);
      }
      leaves := leaves + [env.sha([0] + e.user + bh.value + BigEndian(Unsigned(e.timestamp), 8))];
    }
    assert entries[..|entries|] == entries;
    r := Success(leaves);
  }

  /** Later entries overwrite earlier ones. */
  method BuildIndex(entries: seq<KtEntry>) returns (index: map<Bytes, nat>)
    ensures IndexesLatest(entries, index)
  {
    index := map[];
    for i := 0 to |entries|
      invariant IndexesLatest(entries[..i], index)
    {
      index := index[entries[i].user := i];
    }
    assert entries[..|entries|] == entries;
  }

  method BuildSnapshot(env: Env, generation: nat, entries: seq<KtEntry>) returns (r: Result<Snapshot, nat>)
    requires forall i :: 0 <= i < |entries| ==> Is64Bit(entries[i].timestamp)
    ensures r.Success? <==> AllDecode(env, entries)
    ensures r.Success? ==> r.value.generation == generation && r.value.entries == entries && WellBuilt(env, r.value)
  {
    var leaves := EntriesToLeaves(env, entries);
    if leaves.Failure? {
      return Failure(leaves.error);
    }
    var root := ComputeLogRoot(env.sha, leaves.value);
    var index := BuildIndex(entries);
    r := Success(Snapshot(generation, entries, leaves.value, root, index));
  }

  // ---------- the log ----------

  /** The listing's order: a row into its place by sequence number. */
  function Place(rows: seq<Row>, row: Row): seq<Row> {
    if rows == [] || rows[|rows| - 1].seqno <= row.seqno then rows + [row]
    else Place(rows[..|rows| - 1], row) + [rows[|rows| - 1]]
  }

  /** The rows by sequence number; `log` has them in the order in which they became visible. */
  function Sorted(log: seq<Row>): seq<Row> {
    if log == [] then [] else Place(Sorted(log[..|log| - 1]), log[|log| - 1])
  }

  ghost predicate Ascending(rows: seq<Row>) { forall i, j :: 0 <= i < j < |rows| ==> rows[i].seqno <= rows[j].seqno }

  lemma {:induction false} PlaceKeeps(rows: seq<Row>, row: Row)
    requires Ascending(rows)
    ensures Ascending(Place(rows, row)) && |Place(rows, row)| == |rows| + 1
    ensures forall x :: x in Place(rows, row) <==> x in rows || x == row
  {
    if rows != [] && rows[|rows| - 1].seqno > row.seqno {
      var front, last := rows[..|rows| - 1], rows[|rows| - 1];
      PlaceKeeps(front, row);
      assert rows == front + [last];
      assert forall x :: x in Place(front, row) ==> x.seqno <= last.seqno;
    }
  }

  /** Sorting lists the same rows, by sequence number. */
  lemma {:induction false} SortedLists(log: seq<Row>)
    ensures Ascending(Sorted(log)) && |Sorted(log)| == |log|
    ensures forall x :: x in Sorted(log) <==> x in log
  {
    if log != [] {
      SortedLists(log[..|log| - 1]);
      PlaceKeeps(Sorted(log[..|log| - 1]), log[|log| - 1]);
      assert log == log[..|log| - 1] + [log[|log| - 1]];
    }
  }

  lemma {:induction false} SortedAlready(log: seq<Row>)
    requires Ascending(log)
    ensures Sorted(log) == log
  {
    if log != [] {
      SortedAlready(log[..|log| - 1]);
    }
  }

  /** MAX(seq), 0 for the empty log. */
  function Latest(log: seq<Row>): nat {
    if log == [] then 0 else
    var before := Latest(log[..|log| - 1]);
    if log[|log| - 1].seqno > before then log[|log| - 1].seqno else before
  }

  lemma {:induction false} LatestBounds(log: seq<Row>, i: nat)
    requires i < |log|
    ensures log[i].seqno <= Latest(log)
  {
    if i < |log| - 1 {
      LatestBounds(log[..|log| - 1], i);
    }
  }

  lemma {:induction false} LatestGrows(log: seq<Row>, j: nat, k: nat)
    requires j <= k <= |log|
    ensures Latest(log[..j]) <= Latest(log[..k])
    decreases k
  {
    if j < k {
      LatestGrows(log, j, k - 1);
      assert log[..k][..k - 1] == log[..k - 1];
    }
  }

  function Entries(rows: seq<Row>): (es: seq<KtEntry>)
    ensures |es| == |rows|
  {
    seq(|rows|, i requires 0 <= i < |rows| => rows[i].entry)
  }

  // ---------- the system ----------

  type CallId = nat

  /** A snapshot, and how many rows were visible when its entries were listed. */
  datatype Served = Served(snap: Snapshot, seen: nat)

  /** Where a `snapshot` call stands. */
  datatype Stage =
    | Started                       // before the first latest_seq
    | FastRead(gen: nat)            // has the generation, before looking at the slot
    | Waiting                       // missed, waiting for the gate
    | Locked                        // holds the gate, before the second latest_seq
    | SlowRead(gen: nat)            // before looking at the slot again
    | Listing(gen: nat)             // missed again, before list_all_entries
    | Publishing(built: Served)     // built, before storing it
    | Returned(served: Served)
    | Failed

  predicate HoldsGate(s: Stage) { s.Locked? || s.SlowRead? || s.Listing? || s.Publishing? }

  /** `began` is the number of rows visible when the call began. */
  datatype Call = Call(stage: Stage, began: nat)

  datatype State = State(log: seq<Row>, slot: Option<Served>, gate: Option<CallId>, calls: map<CallId, Call>)

  function Hit(slot: Option<Served>, gen: nat): bool { slot.Some? && slot.value.snap.generation == gen }

  function Move(s: State, id: CallId, stage: Stage): State
    requires id in s.calls
  {
    s.(calls := s.calls[id := s.calls[id].(stage := stage)])
  }

  datatype Event =
    | Commit(row: Row) | Begin(id: CallId) | ReadGen(id: CallId) | LookUp(id: CallId) | Lock(id: CallId)
    | ReadGenAgain(id: CallId) | LookUpAgain(id: CallId) | List(id: CallId, built: Snapshot) | ListFails(id: CallId)
    | Publish(id: CallId)

  predicate At(s: State, id: CallId, stage: Stage) { id in s.calls && s.calls[id].stage == stage }

  function StageOf(s: State, id: CallId): Stage { if id in s.calls then s.calls[id].stage else Failed }

  ghost predicate Init(s: State) {
    s.log == [] && s.slot.None? && s.gate.None? && s.calls == map[]
  }

  /** A sequence number is taken before its transaction commits, so rows may become visible in any
      order; no number is taken twice. */
  ghost predicate Unused(log: seq<Row>, row: Row) {
    row.seqno > 0 && forall i :: 0 <= i < |log| ==> log[i].seqno != row.seqno
  }

  /** A commit, or one step of a call. */
  ghost predicate Step(env: Env, s: State, t: State, e: Event) {
    match e
    case Commit(row) => Unused(s.log, row) && t == s.(log := s.log + [row])
    case _ => CallStep(env, s, t, e)
  }

  ghost predicate CallStep(env: Env, s: State, t: State, e: Event) {
    match e
    case Commit(_) => false
    case Begin(id) => id !in s.calls && t == s.(calls := s.calls[id := Call(Started, |s.log|)])
    case ReadGen(id) => At(s, id, Started) && t == Move(s, id, FastRead(Latest(s.log)))
    case LookUp(id) =>
      StageOf(s, id).FastRead? &&
      t == Move(s, id, if Hit(s.slot, StageOf(s, id).gen) then Returned(s.slot.value) else Waiting)
    case Lock(id) => At(s, id, Waiting) && s.gate.None? && t == Move(s, id, Locked).(gate := Some(id))
    case ReadGenAgain(id) => At(s, id, Locked) && t == Move(s, id, SlowRead(Latest(s.log)))
    case LookUpAgain(id) =>
      StageOf(s, id).SlowRead? &&
      t == if Hit(s.slot, StageOf(s, id).gen) then Move(s, id, Returned(s.slot.value)).(gate := None)
           else Move(s, id, Listing(StageOf(s, id).gen))
    case List(id, built) =>
      StageOf(s, id).Listing? && WellBuilt(env, built) &&
      built.generation == StageOf(s, id).gen && built.entries == Entries(Sorted(s.log)) &&
      t == Move(s, id, Publishing(Served(built, |s.log|)))
    case ListFails(id) => StageOf(s, id).Listing? && t == Move(s, id, Failed).(gate := None)
    case Publish(id) =>
      StageOf(s, id).Publishing? &&
      t == Move(s, id, Returned(StageOf(s, id).built)).(gate := None, slot := Some(StageOf(s, id).built))
  }

  // ---------- the invariant ----------

  /** Built from the rows listed, under a generation read no later than the listing. */
  ghost predicate Genuine(env: Env, log: seq<Row>, v: Served) {
    && WellBuilt(env, v.snap)
    && v.seen <= |log| && v.snap.entries == Entries(Sorted(log[..v.seen]))
    && v.snap.generation <= Latest(log[..v.seen])
  }

  /** A generation read by a call that began with `began` rows. */
  ghost predicate Reads(log: seq<Row>, gen: nat, began: nat)
    requires began <= |log|
  {
    Latest(log[..began]) <= gen <= Latest(log)
  }

  /** The slot, if filled, is strictly behind the generation being rebuilt. */
  predicate Behind(slot: Option<Served>, gen: nat) { slot.Some? ==> slot.value.snap.generation < gen }

  ghost predicate CallInv(env: Env, s: State, c: Call) {
    c.began <= |s.log| &&
    match c.stage
    case FastRead(gen) => Reads(s.log, gen, c.began)
    case SlowRead(gen) => Reads(s.log, gen, c.began) && (s.slot.Some? ==> s.slot.value.snap.generation <= gen)
    case Listing(gen) => Reads(s.log, gen, c.began) && Behind(s.slot, gen)
    case Publishing(v) =>
      Genuine(env, s.log, v) && c.began <= v.seen && Latest(s.log[..c.began]) <= v.snap.generation && Behind(s.slot, v.snap.generation)
    case Returned(v) => Genuine(env, s.log, v) && Latest(s.log[..c.began]) <= v.snap.generation
    case _ => true
  }

  ghost predicate Inv(env: Env, s: State) {
    && (s.slot.Some? ==> Genuine(env, s.log, s.slot.value))
    && (forall id :: id in s.calls ==> CallInv(env, s, s.calls[id]))
    && (forall id :: id in s.calls && HoldsGate(s.calls[id].stage) ==> s.gate == Some(id))
  }

  lemma GenuineGrows(env: Env, log: seq<Row>, row: Row, v: Served)
    requires Genuine(env, log, v)
    ensures Genuine(env, log + [row], v)
  {
    assert (log + [row])[..v.seen] == log[..v.seen];
  }

  lemma CommitKeeps(env: Env, s: State, row: Row)
    requires Inv(env, s)
    ensures Inv(env, s.(log := s.log + [row]))
  {
    var t := s.(log := s.log + [row]);
    if s.slot.Some? {
      GenuineGrows(env, s.log, row, s.slot.value);
    }
    forall id | id in t.calls ensures CallInv(env, t, t.calls[id]) {
      CallKept(env, s, row, id);
    }
  }

  lemma CallKept(env: Env, s: State, row: Row, id: CallId)
    requires id in s.calls && CallInv(env, s, s.calls[id])
    ensures CallInv(env, s.(log := s.log + [row]), s.calls[id])
  {
    var c, log := s.calls[id], s.log + [row];
    assert log[..c.began] == s.log[..c.began] && log[..|s.log|] == s.log;
    if c.stage.Publishing? {
      GenuineGrows(env, s.log, row, c.stage.built);
    } else if c.stage.Returned? {
      GenuineGrows(env, s.log, row, c.stage.served);
    }
  }

  /** A step that changes one call and leaves log and slot alone keeps the invariant if the call's own
      part holds and the gate still names every holder. */
  lemma OneCallMoves(env: Env, s: State, t: State, id: CallId)
    requires Inv(env, s) && t.log == s.log && t.slot == s.slot
    requires id in t.calls && t.calls == s.calls[id := t.calls[id]] && CallInv(env, t, t.calls[id])
    requires HoldsGate(t.calls[id].stage) ==> t.gate == Some(id)
    requires t.gate == s.gate || s.gate.None? || s.gate == Some(id)
    ensures Inv(env, t)
  {
    forall k | k in t.calls ensures CallInv(env, t, t.calls[k]) && (HoldsGate(t.calls[k].stage) ==> t.gate == Some(k)) {
      if k != id {
        assert t.calls[k] == s.calls[k] && CallInv(env, s, s.calls[k]);
      }
    }
  }

  lemma ReadKeeps(env: Env, s: State, t: State, e: Event)
    requires Inv(env, s) && CallStep(env, s, t, e) && (e.ReadGen? || e.Lock? || e.ReadGenAgain?)
    ensures Inv(env, t)
  {
    assert CallInv(env, s, s.calls[e.id]);
    LatestGrows(s.log, s.calls[e.id].began, |s.log|);
    assert s.log[..|s.log|] == s.log;
    if s.slot.Some? {
      LatestGrows(s.log, s.slot.value.seen, |s.log|);
    }
    OneCallMoves(env, s, t, e.id);
  }

  lemma LookUpKeeps(env: Env, s: State, t: State, e: Event)
    requires Inv(env, s) && CallStep(env, s, t, e) && (e.LookUp? || e.LookUpAgain?)
    ensures Inv(env, t)
  {
    assert CallInv(env, s, s.calls[e.id]);
    OneCallMoves(env, s, t, e.id);
  }

  lemma ListKeeps(env: Env, s: State, t: State, e: Event)
    requires Inv(env, s) && CallStep(env, s, t, e) && (e.List? || e.ListFails?)
    ensures Inv(env, t)
  {
    assert CallInv(env, s, s.calls[e.id]);
    assert s.log[..|s.log|] == s.log;
    OneCallMoves(env, s, t, e.id);
  }

  lemma PublishKeeps(env: Env, s: State, t: State, e: Event)
    requires Inv(env, s) && CallStep(env, s, t, e) && e.Publish?
    ensures Inv(env, t)
  {
    assert CallInv(env, s, s.calls[e.id]);
    forall k | k in t.calls ensures CallInv(env, t, t.calls[k]) && !HoldsGate(t.calls[k].stage) {
      if k != e.id {
        assert t.calls[k] == s.calls[k] && CallInv(env, s, s.calls[k]);
      }
    }
  }

  lemma CallStepKeeps(env: Env, s: State, t: State, e: Event)
    requires Inv(env, s) && CallStep(env, s, t, e)
    ensures Inv(env, t)
  {
    match e
    case LookUp(_) => LookUpKeeps(env, s, t, e);
    case LookUpAgain(_) => LookUpKeeps(env, s, t, e);
    case List(_, _) => ListKeeps(env, s, t, e);
    case ListFails(_) => ListKeeps(env, s, t, e);
    case Publish(_) => PublishKeeps(env, s, t, e);
    case Begin(id) => OneCallMoves(env, s, t, id);
    case _ => ReadKeeps(env, s, t, e);
  }

  // ---------- whole runs ----------

  datatype Run = Run(states: seq<State>, events: seq<Event>)

  ghost predicate IsRun(env: Env, r: Run) {
    && |r.states| == |r.events| + 1
    && Init(r.states[0])
    && forall k :: 0 <= k < |r.events| ==> StepAt(env, r, k)
  }

  ghost predicate StepAt(env: Env, r: Run, k: nat)
    requires |r.states| == |r.events| + 1 && k < |r.events|
  {
    Step(env, r.states[k], r.states[k + 1], r.events[k])
  }

  lemma {:induction false} RunKeepsInv(env: Env, r: Run, n: nat)
    requires IsRun(env, r) && n < |r.states|
    ensures Inv(env, r.states[n])
    decreases n
  {
    if n > 0 {
      RunKeepsInv(env, r, n - 1);
      var s, t, e := r.states[n - 1], r.states[n], r.events[n - 1];
      assert StepAt(env, r, n - 1);
      if e.Commit? {
        CommitKeeps(env, s, e.row);
      } else {
        CallStepKeeps(env, s, t, e);
      }
    }
  }

  /** The call returned a snapshot that lacks row i of the log, which was visible when the call began. */
  predicate Misses(s: State, id: CallId, i: nat) {
    StageOf(s, id).Returned? && s.calls[id].stage.served.seen <= i < s.calls[id].began <= |s.log|
  }

  lemma {:induction false} LogNumbersDistinct(env: Env, r: Run, n: nat, i: nat, j: nat)
    requires IsRun(env, r) && n < |r.states| && i < j < |r.states[n].log|
    ensures r.states[n].log[i].seqno != r.states[n].log[j].seqno
    decreases n
  {
    if n > 0 {
      var s, e := r.states[n - 1], r.events[n - 1];
      assert StepAt(env, r, n - 1);
      if j < |s.log| {
        LogNumbersDistinct(env, r, n - 1, i, j);
      }
    }
  }

  /** In every run, whatever the order of commits, a returned snapshot is the listing of the rows visible
      at some moment, with the leaves, root and index of those rows; and it lacks a row visible when its
      call began exactly when that row committed after the listing with a number up to the generation. */
  lemma EverySnapshotConsistent(env: Env, r: Run, n: nat, id: CallId)
    requires IsRun(env, r) && n < |r.states| && StageOf(r.states[n], id).Returned?
    ensures var s, c := r.states[n], r.states[n].calls[id];
      var v := c.stage.served;
      && v.seen <= |s.log| && v.snap.entries == Entries(Sorted(s.log[..v.seen])) && WellBuilt(env, v.snap)
      && c.began <= |s.log|
      && forall i :: 0 <= i < c.began ==> (s.log[i] !in s.log[..v.seen] <==> v.seen <= i && s.log[i].seqno <= v.snap.generation)
  {
    RunKeepsInv(env, r, n);
    var s, c := r.states[n], r.states[n].calls[id];
    var v := c.stage.served;
    assert CallInv(env, s, c);
    forall i | 0 <= i < c.began
      ensures s.log[i] !in s.log[..v.seen] <==> v.seen <= i && s.log[i].seqno <= v.snap.generation
    {
      LatestBounds(s.log[..c.began], i);
      if i < v.seen {
        assert s.log[..v.seen][i] == s.log[i];
      } else {
        forall j | 0 <= j < v.seen ensures s.log[j] != s.log[i] {
          LogNumbersDistinct(env, r, n, j, i);
        }
      }
    }
  }

  /** Rebuilds are single-flight and never repeat: at most one call is past the gate, and every
      snapshot published has a strictly larger generation than the one it replaces. */
  lemma RebuildsOncePerGeneration(env: Env, r: Run, n: nat, id: CallId)
    requires IsRun(env, r) && n < |r.events| && r.events[n] == Publish(id)
    ensures var s, t := r.states[n], r.states[n + 1];
            t.slot.Some? && (s.slot.Some? ==> s.slot.value.snap.generation < t.slot.value.snap.generation) &&
            (forall k :: k in s.calls && HoldsGate(s.calls[k].stage) ==> k == id)
  {
    RunKeepsInv(env, r, n);
    var s := r.states[n];
    assert StepAt(env, r, n);
    assert CallInv(env, s, s.calls[id]);
  }

  // ---------- which commits a snapshot can miss ----------

  /** The snapshot is in the slot, or built and about to be stored. */
  ghost predicate InFlight(s: State, v: Served) {
    s.slot == Some(v) || exists id :: id in s.calls && s.calls[id].stage == Publishing(v)
  }

  /** The commit lands below the latest number while a snapshot of that generation is in flight. */
  ghost predicate Late(s: State, row: Row) {
    row.seqno < Latest(s.log) && exists v :: InFlight(s, v) && v.snap.generation == Latest(s.log)
  }

  /** A snapshot in flight has been so at every commit since its listing. */
  lemma {:induction false} InFlightSince(env: Env, r: Run, n: nat, v: Served, m: nat)
    requires IsRun(env, r) && n < |r.states| && InFlight(r.states[n], v)
    requires m < n && r.events[m].Commit? && v.seen <= |r.states[m].log|
    ensures InFlight(r.states[m], v)
    decreases n
  {
    if m < n - 1 {
      LongerAfterCommit(env, r, m, n - 1);
    }
    WasInFlightAt(env, r, n - 1, v);
    if m < n - 1 {
      InFlightSince(env, r, n - 1, v, m);
    }
  }

  lemma LongerAfterCommit(env: Env, r: Run, m: nat, n: nat)
    requires IsRun(env, r) && m < n < |r.states| && r.events[m].Commit?
    ensures |r.states[m].log| < |r.states[n].log|
  {
    assert StepAt(env, r, m);
    LogGrows(env, r, m + 1, n);
  }

  lemma WasInFlightAt(env: Env, r: Run, k: nat, v: Served)
    requires IsRun(env, r) && k < |r.events| && InFlight(r.states[k + 1], v)
    requires r.events[k].List? ==> v.seen < |r.states[k].log|
    ensures InFlight(r.states[k], v)
  {
    assert StepAt(env, r, k);
    WasInFlight(env, r.states[k], r.states[k + 1], r.events[k], v);
  }

  lemma WasInFlight(env: Env, s: State, t: State, e: Event, v: Served)
    requires Step(env, s, t, e) && InFlight(t, v) && (e.List? ==> v.seen < |s.log|)
    ensures InFlight(s, v)
  {
    if t.slot == Some(v) && t.slot != s.slot {
      assert e.Publish? && s.calls[e.id].stage == Publishing(v);
    } else if t.slot != Some(v) {
      var id :| id in t.calls && t.calls[id].stage == Publishing(v);
      assert id in s.calls && s.calls[id].stage == Publishing(v);
    }
  }

  lemma {:induction false} LogGrows(env: Env, r: Run, m: nat, n: nat)
    requires IsRun(env, r) && m <= n < |r.states|
    ensures r.states[m].log <= r.states[n].log
    decreases n
  {
    if m < n {
      LogGrows(env, r, m, n - 1);
      assert StepAt(env, r, n - 1);
    }
  }

  /** A snapshot that a call returned was in flight at every commit between its listing and the call. */
  lemma {:induction false} ServedSince(env: Env, r: Run, n: nat, id: CallId, m: nat)
    requires IsRun(env, r) && m < n < |r.states| && r.events[m].Commit?
    requires Misses(r.states[n], id, |r.states[m].log|)
    ensures InFlight(r.states[m], r.states[n].calls[id].stage.served)
    decreases n
  {
    var s, t, e, v := r.states[n - 1], r.states[n], r.events[n - 1], r.states[n].calls[id].stage.served;
    assert StepAt(env, r, n - 1);
    if StageOf(s, id) == t.calls[id].stage {
      StillBegun(env, r, n, id, m);
      ServedSince(env, r, n - 1, id, m);
    } else {
      assert InFlight(s, v);
      InFlightSince(env, r, n - 1, v, m);
    }
  }

  /** Every row that a returned snapshot lacks was committed late. */
  lemma MissedOnlyIfLate(env: Env, r: Run, n: nat, id: CallId, m: nat)
    requires IsRun(env, r) && m < n < |r.states| && r.events[m].Commit?
    requires Misses(r.states[n], id, |r.states[m].log|)
    ensures Late(r.states[m], r.events[m].row)
  {
    var s, v := r.states[m], r.states[n].calls[id].stage.served;
    ServedSince(env, r, n, id, m);
    ReturnedBounds(env, r, n, id);
    assert StepAt(env, r, m);
    LogGrows(env, r, m + 1, n);
    LandsBelow(s.log, r.states[n].log, r.events[m].row, v.snap.generation, v.seen, r.states[n].calls[id].began);
  }

  lemma ReturnedBounds(env: Env, r: Run, n: nat, id: CallId)
    requires IsRun(env, r) && n < |r.states| && StageOf(r.states[n], id).Returned?
    ensures var s, c := r.states[n], r.states[n].calls[id];
      var v := c.stage.served;
      v.seen <= |s.log| && c.began <= |s.log| && Latest(s.log[..c.began]) <= v.snap.generation <= Latest(s.log[..v.seen])
  {
    RunKeepsInv(env, r, n);
    assert CallInv(env, r.states[n], r.states[n].calls[id]);
  }

  /** A row added to `before` that a generation read later does not go beyond lies below the latest number. */
  lemma LandsBelow(before: seq<Row>, log: seq<Row>, row: Row, gen: nat, seen: nat, began: nat)
    requires Unused(before, row) && before + [row] <= log && seen <= |before| < began <= |log|
    requires Latest(log[..began]) <= gen <= Latest(log[..seen])
    ensures row.seqno < Latest(before) && gen == Latest(before)
  {
    var i := |before|;
    assert log[..i] == before && log[i] == row;
    LatestGrows(log, seen, i);
    LatestGrows(log, i, i + 1);
    LatestGrows(log, i + 1, began);
    LatestBounds(log[..i + 1], i);
    NotLatest(before, row);
  }

  lemma {:induction false} NotLatest(log: seq<Row>, row: Row)
    requires Unused(log, row)
    ensures Latest(log) != row.seqno
  {
    if log != [] {
      NotLatest(log[..|log| - 1], row);
    }
  }

  lemma StillBegun(env: Env, r: Run, n: nat, id: CallId, m: nat)
    requires IsRun(env, r) && m < n < |r.states| && r.events[m].Commit?
    requires Misses(r.states[n], id, |r.states[m].log|) && StageOf(r.states[n - 1], id) == r.states[n].calls[id].stage
    ensures m < n - 1 && Misses(r.states[n - 1], id, |r.states[m].log|)
  {
    var s, t, e := r.states[n - 1], r.states[n], r.events[n - 1];
    assert StepAt(env, r, n - 1);
    SameBeginning(env, s, t, e, id);
    RunKeepsInv(env, r, n - 1);
    assert CallInv(env, s, s.calls[id]);
  }

  lemma SameBeginning(env: Env, s: State, t: State, e: Event, id: CallId)
    requires Step(env, s, t, e) && id in s.calls
    ensures id in t.calls && t.calls[id].began == s.calls[id].began
  {}

  // ---------- and every late commit can be missed ----------

  /** The run goes on with this commit. */
  ghost predicate Continues(env: Env, q: Run, r: Run, row: Row) {
    && IsRun(env, q) && |q.events| > |r.events| && r.events <= q.events && r.states <= q.states
    && q.events[|r.events|] == Commit(row)
  }

  ghost predicate CanBeMissed(env: Env, r: Run, row: Row)
    requires IsRun(env, r)
  {
    exists q: Run, n: nat, id ::
      Continues(env, q, r, row) && n < |q.states| && Misses(q.states[n], id, |r.states[|r.events|].log|)
  }

  function Extended(r: Run, e: Event, t: State): Run { Run(r.states + [t], r.events + [e]) }

  function Last(r: Run): State
    requires r.states != []
  {
    r.states[|r.states| - 1]
  }

  lemma Extend(env: Env, r: Run, e: Event, t: State)
    requires IsRun(env, r) && Step(env, Last(r), t, e)
    ensures IsRun(env, Extended(r, e, t)) && Last(Extended(r, e, t)) == t
    ensures r.events <= Extended(r, e, t).events && r.states <= Extended(r, e, t).states
  {
    var q := Extended(r, e, t);
    forall k | 0 <= k < |q.events| ensures Step(env, q.states[k], q.states[k + 1], q.events[k]) {
      if k < |r.events| {
        assert StepAt(env, r, k);
      }
    }
  }

  /** A fresh call that finds a current snapshot in the slot returns it. */
  lemma FreshCallHits(env: Env, r: Run, id: CallId) returns (q: Run)
    requires IsRun(env, r) && id !in Last(r).calls && Hit(Last(r).slot, Latest(Last(r).log))
    ensures IsRun(env, q) && r.events <= q.events && r.states <= q.states
    ensures Last(q).log == Last(r).log && Last(q).calls == Last(r).calls[id := Call(Returned(Last(r).slot.value), |Last(r).log|)]
  {
    var s := Last(r);
    var t := s.(calls := s.calls[id := Call(Started, |s.log|)]);
    var q1 := Extended(r, Begin(id), t);
    Extend(env, r, Begin(id), t);
    var u := Move(t, id, FastRead(Latest(t.log)));
    var q2 := Extended(q1, ReadGen(id), u);
    Extend(env, q1, ReadGen(id), u);
    var w := Move(u, id, Returned(u.slot.value));
    q := Extended(q2, LookUp(id), w);
    Extend(env, q2, LookUp(id), w);
  }

  /** A snapshot in flight can be stored. */
  lemma StoreInFlight(env: Env, r: Run, v: Served) returns (q: Run)
    requires IsRun(env, r) && InFlight(Last(r), v)
    ensures IsRun(env, q) && r.events <= q.events && r.states <= q.states
    ensures Last(q).log == Last(r).log && Last(q).slot == Some(v) && Last(q).calls.Keys == Last(r).calls.Keys
  {
    var s := Last(r);
    if s.slot == Some(v) {
      q := r;
    } else {
      var id :| id in s.calls && s.calls[id].stage == Publishing(v);
      var t := Move(s, id, Returned(v)).(gate := None, slot := Some(v));
      q := Extended(r, Publish(id), t);
      Extend(env, r, Publish(id), t);
    }
  }

  lemma LateIsMissed(env: Env, r: Run, row: Row, v: Served, id: CallId) returns (q: Run)
    requires IsRun(env, r) && Unused(Last(r).log, row) && row.seqno < Latest(Last(r).log)
    requires InFlight(Last(r), v) && v.snap.generation == Latest(Last(r).log) && id !in Last(r).calls
    ensures Continues(env, q, r, row) && Misses(Last(q), id, |Last(r).log|)
    ensures Last(q).log == Last(r).log + [row] && Last(q).calls[id].stage == Returned(v)
  {
    var s := Last(r);
    SeenBy(env, r, v);
    var t := s.(log := s.log + [row]);
    var q1 := GoOn(env, r, Commit(row), t);
    assert t.log[..|s.log|] == s.log && Latest(t.log) == Latest(s.log);
    assert InFlight(t, v);
    var q2 := StoreInFlight(env, q1, v);
    q := FreshCallHits(env, q2, id);
    assert q1.events[|r.events|] == Commit(row);
  }

  lemma SeenBy(env: Env, r: Run, v: Served)
    requires IsRun(env, r) && InFlight(Last(r), v)
    ensures v.seen <= |Last(r).log|
  {
    var s := Last(r);
    RunKeepsInv(env, r, |r.events|);
    if s.slot != Some(v) {
      var id :| id in s.calls && s.calls[id].stage == Publishing(v);
      assert CallInv(env, s, s.calls[id]);
    }
  }

  lemma FreshId(ids: set<CallId>) returns (id: CallId)
    ensures id !in ids
  {
    id := 0;
    var left := ids;
    while id in ids
      invariant left <= ids && forall k :: k in ids && k !in left ==> k < id
      invariant forall k :: k in left ==> k >= id
      decreases |left|
    {
      assert id in left;
      left := left - {id};
      id := id + 1;
    }
  }

  /** Whether a commit can be missed is decided when it commits: by whether it lands below the latest
      number while a snapshot of that generation is in the slot or about to be stored there. */
  lemma CanBeMissedIff(env: Env, r: Run, row: Row)
    requires IsRun(env, r) && Unused(Last(r).log, row)
    ensures CanBeMissed(env, r, row) <==> Late(Last(r), row)
  {
    if CanBeMissed(env, r, row) {
      var q: Run, n: nat, id :|
        Continues(env, q, r, row) && n < |q.states| && Misses(q.states[n], id, |r.states[|r.events|].log|);
      var m := |r.events|;
      assert q.states[m] == r.states[m];
      LongerLater(env, q, m, n);
      MissedOnlyIfLate(env, q, n, id, m);
    }
    if Late(Last(r), row) {
      var v :| InFlight(Last(r), v) && v.snap.generation == Latest(Last(r).log);
      var id := FreshId(Last(r).calls.Keys);
      var q := LateIsMissed(env, r, row, v, id);
      assert Misses(q.states[|q.states| - 1], id, |r.states[|r.events|].log|);
    }
  }

  lemma LongerLater(env: Env, r: Run, m: nat, n: nat)
    requires IsRun(env, r) && m < |r.states| && n < |r.states| && |r.states[m].log| < |r.states[n].log|
    ensures m < n
  {
    if n <= m {
      LogGrows(env, r, n, m);
    }
  }

  // ---------- commits in order ----------

  /** Every commit of the run lands above the rows already visible. */
  ghost predicate InOrder(r: Run)
    requires |r.states| == |r.events| + 1
  {
    forall k :: 0 <= k < |r.events| && r.events[k].Commit? ==> r.events[k].row.seqno > Latest(r.states[k].log)
  }

  lemma {:induction false} OrderedLog(env: Env, r: Run, n: nat)
    requires IsRun(env, r) && InOrder(r) && n < |r.states|
    ensures Ascending(r.states[n].log)
    decreases n
  {
    if n > 0 {
      OrderedLog(env, r, n - 1);
      var s, e := r.states[n - 1], r.events[n - 1];
      assert StepAt(env, r, n - 1);
      if e.Commit? {
        forall i | 0 <= i < |s.log| ensures s.log[i].seqno <= e.row.seqno {
          LatestBounds(s.log, i);
        }
      }
    }
  }

  /** With commits in order, a returned snapshot is a prefix of the log that holds every entry present
      when its call began. */
  lemma OrderedSnapshotsComplete(env: Env, r: Run, n: nat, id: CallId)
    requires IsRun(env, r) && InOrder(r) && n < |r.states| && StageOf(r.states[n], id).Returned?
    ensures var s, c := r.states[n], r.states[n].calls[id];
      c.stage.served.snap.entries <= Entries(Sorted(s.log)) && c.began <= |c.stage.served.snap.entries|
  {
    var s, c := r.states[n], r.states[n].calls[id];
    var v := c.stage.served;
    RunKeepsInv(env, r, n);
    assert CallInv(env, s, c);
    OrderedLog(env, r, n);
    SortedAlready(s.log);
    SortedAlready(s.log[..v.seen]);
    if c.began > v.seen {
      CommitOf(env, r, n, v.seen);
      var m :| 0 <= m < n && r.events[m].Commit? && |r.states[m].log| == v.seen;
      MissedOnlyIfLate(env, r, n, id, m);
    }
  }

  /** Each row of the log has its commit. */
  lemma {:induction false} CommitOf(env: Env, r: Run, n: nat, i: nat)
    requires IsRun(env, r) && n < |r.states| && i < |r.states[n].log|
    ensures exists m :: 0 <= m < n && r.events[m].Commit? && |r.states[m].log| == i
    decreases n
  {
    if n > 0 {
      var s, e := r.states[n - 1], r.events[n - 1];
      assert StepAt(env, r, n - 1);
      if i < |s.log| {
        CommitOf(env, r, n - 1, i);
      } else {
        assert e.Commit?;
      }
    }
  }

  // ---------- a run that misses a row ----------

  function SnapshotOf(env: Env, row: Row): Snapshot
    requires Decodes(env, row.entry)
  {
    var log := DecodedLog(env, [row.entry]);
    Snapshot(row.seqno, [row.entry], Leaves(env.sha, log), Root(env.sha, log), map[row.entry.user := 0])
  }

  lemma OneRow(row: Row)
    ensures Latest([row]) == row.seqno && Sorted([row]) == [row]
  {
    assert [row][..0] == [];
    assert Latest([]) == 0 && Sorted([]) == [];
  }

  /** From the start: one row commits and a call builds a snapshot of it. */
  lemma FirstSnapshot(env: Env, row: Row) returns (r: Run)
    requires Decodes(env, row.entry) && row.seqno > 0
    ensures IsRun(env, r) && Last(r).log == [row] && Last(r).slot == Some(Served(SnapshotOf(env, row), 1))
    ensures Last(r).calls.Keys == {0}
  {
    var snap := SnapshotOf(env, row);
    var start := State([], None, None, map[]);
    r := Run([start], []);
    var s := start.(log := [] + [row]);
    Extend(env, r, Commit(row), s);
    r := Extended(r, Commit(row), s);
    assert s.log == [row];
    OneRow(row);
    r := MissToListing(env, r, 0);
    s := Last(r);
    assert Entries([row]) == [row.entry];
    var t := Move(s, 0, Publishing(Served(snap, 1)));
    Extend(env, r, List(0, snap), t);
    r := Extended(r, List(0, snap), t);
    r := StoreInFlight(env, r, Served(snap, 1));
  }

  /** A fresh call that finds the slot empty goes through to the listing. */
  lemma MissToListing(env: Env, r: Run, id: CallId) returns (q: Run)
    requires IsRun(env, r) && id !in Last(r).calls && Last(r).slot.None? && Last(r).gate.None?
    ensures IsRun(env, q) && Last(q) == With(Last(r), Some(id), id, Listing(Latest(Last(r).log)))
  {
    var s := Last(r);
    q := GoOn(env, r, Begin(id), With(s, None, id, Started));
    q := GoOn(env, q, ReadGen(id), With(s, None, id, FastRead(Latest(s.log))));
    q := GoOn(env, q, LookUp(id), With(s, None, id, Waiting));
    q := PastTheGate(env, s, q, id);
  }

  lemma PastTheGate(env: Env, s: State, r: Run, id: CallId) returns (q: Run)
    requires IsRun(env, r) && s.slot.None? && Last(r) == With(s, None, id, Waiting)
    ensures IsRun(env, q) && Last(q) == With(s, Some(id), id, Listing(Latest(s.log)))
  {
    WithMoves(s, None, id, Waiting, Locked);
    WithMoves(s, Some(id), id, Locked, SlowRead(Latest(s.log)));
    WithMoves(s, Some(id), id, SlowRead(Latest(s.log)), Listing(Latest(s.log)));
    q := GoOn(env, r, Lock(id), With(s, Some(id), id, Locked));
    q := GoOn(env, q, ReadGenAgain(id), With(s, Some(id), id, SlowRead(Latest(s.log))));
    q := GoOn(env, q, LookUpAgain(id), With(s, Some(id), id, Listing(Latest(s.log))));
  }

  /** s with one more call, begun now and come to `stage`. */
  function With(s: State, gate: Option<CallId>, id: CallId, stage: Stage): State {
    s.(gate := gate, calls := s.calls[id := Call(stage, |s.log|)])
  }

  lemma WithMoves(s: State, gate: Option<CallId>, id: CallId, a: Stage, b: Stage)
    ensures Move(With(s, gate, id, a), id, b) == With(s, gate, id, b)
  {}

  lemma GoOn(env: Env, r: Run, e: Event, t: State) returns (q: Run)
    requires IsRun(env, r) && Step(env, Last(r), t, e)
    ensures IsRun(env, q) && Last(q) == t && q == Extended(r, e, t)
  {
    q := Extended(r, e, t);
    Extend(env, r, e, t);
  }

  // ---------- every call can return ----------

  /** Whoever the gate names is past it. */
  predicate GateHeld(s: State) { s.gate.Some? ==> s.gate.value in s.calls && HoldsGate(s.calls[s.gate.value].stage) }

  lemma {:induction false} RunHoldsGate(env: Env, r: Run, n: nat)
    requires IsRun(env, r) && n < |r.states|
    ensures GateHeld(r.states[n])
    decreases n
  {
    if n > 0 {
      RunHoldsGate(env, r, n - 1);
      RunKeepsInv(env, r, n - 1);
      assert StepAt(env, r, n - 1);
      StepHoldsGate(env, r.states[n - 1], r.states[n], r.events[n - 1]);
    }
  }

  lemma StepHoldsGate(env: Env, s: State, t: State, e: Event)
    requires Step(env, s, t, e) && GateHeld(s)
    requires forall id :: id in s.calls && HoldsGate(s.calls[id].stage) ==> s.gate == Some(id)
    ensures GateHeld(t)
  {}

  /** Some index of the log. */
  function IndexOf(entries: seq<KtEntry>): (index: map<Bytes, nat>)
    ensures IndexesLatest(entries, index)
  {
    if entries == [] then map[] else
    var k := |entries| - 1;
    var before := IndexOf(entries[..k]);
    IndexGrows(entries, before);
    before[entries[k].user := k]
  }

  lemma IndexGrows(entries: seq<KtEntry>, before: map<Bytes, nat>)
    requires entries != [] && IndexesLatest(entries[..|entries| - 1], before)
    ensures IndexesLatest(entries, before[entries[|entries| - 1].user := |entries| - 1])
  {
    var k := |entries| - 1;
    assert forall i :: 0 <= i < k ==> entries[..k][i] == entries[i];
  }

  function Built(env: Env, gen: nat, entries: seq<KtEntry>): (snap: Snapshot)
    requires AllDecode(env, entries)
    ensures WellBuilt(env, snap) && snap.generation == gen && snap.entries == entries
  {
    var log := DecodedLog(env, entries);
    Snapshot(gen, entries, Leaves(env.sha, log), Root(env.sha, log), IndexOf(entries))
  }

  /** q goes on from r without a commit, with call id returned and the gate free. */
  ghost predicate Returns(env: Env, r: Run, q: Run, id: CallId) {
    && IsRun(env, r) && IsRun(env, q) && r.events <= q.events && r.states <= q.states
    && Last(q).log == Last(r).log && Last(q).gate.None?
    && id in Last(q).calls && Last(q).calls[id].stage.Returned?
    && forall k :: k in Last(r).calls && k != id ==> k in Last(q).calls && Last(q).calls[k] == Last(r).calls[k]
  }

  lemma FinishListing(env: Env, r: Run, id: CallId) returns (q: Run)
    requires IsRun(env, r) && StageOf(Last(r), id).Listing? && AllDecode(env, Entries(Sorted(Last(r).log)))
    ensures Returns(env, r, q, id)
  {
    var s := Last(r);
    var v := Served(Built(env, StageOf(s, id).gen, Entries(Sorted(s.log))), |s.log|);
    q := GoOn(env, r, List(id, v.snap), Move(s, id, Publishing(v)));
    q := FinishPublishing(env, q, id);
  }

  lemma FinishPublishing(env: Env, r: Run, id: CallId) returns (q: Run)
    requires IsRun(env, r) && StageOf(Last(r), id).Publishing?
    ensures Returns(env, r, q, id)
  {
    var s := Last(r);
    var v := StageOf(s, id).built;
    q := GoOn(env, r, Publish(id), Move(s, id, Returned(v)).(gate := None, slot := Some(v)));
  }

  lemma FinishSlowRead(env: Env, r: Run, id: CallId) returns (q: Run)
    requires IsRun(env, r) && StageOf(Last(r), id).SlowRead? && AllDecode(env, Entries(Sorted(Last(r).log)))
    ensures Returns(env, r, q, id)
  {
    var s := Last(r);
    var gen := StageOf(s, id).gen;
    if Hit(s.slot, gen) {
      q := GoOn(env, r, LookUpAgain(id), Move(s, id, Returned(s.slot.value)).(gate := None));
    } else {
      q := GoOn(env, r, LookUpAgain(id), Move(s, id, Listing(gen)));
      q := FinishListing(env, q, id);
    }
  }

  /** A call past the gate can be run to its end, which frees the gate. */
  lemma HolderReturns(env: Env, r: Run, id: CallId) returns (q: Run)
    requires IsRun(env, r) && HoldsGate(StageOf(Last(r), id)) && AllDecode(env, Entries(Sorted(Last(r).log)))
    ensures Returns(env, r, q, id)
  {
    var s := Last(r);
    match StageOf(s, id)
    case Locked =>
      q := GoOn(env, r, ReadGenAgain(id), Move(s, id, SlowRead(Latest(s.log))));
      q := FinishSlowRead(env, q, id);
    case SlowRead(_) => q := FinishSlowRead(env, r, id);
    case Listing(_) => q := FinishListing(env, r, id);
    case Publishing(_) => q := FinishPublishing(env, r, id);
  }

  /** A call at the gate can be run to its end, after whoever is past it. */
  lemma WaitingReturns(env: Env, r: Run, id: CallId) returns (q: Run)
    requires IsRun(env, r) && At(Last(r), id, Waiting) && AllDecode(env, Entries(Sorted(Last(r).log)))
    ensures IsRun(env, q) && r.events <= q.events && r.states <= q.states && Last(q).log == Last(r).log
    ensures id in Last(q).calls && Last(q).calls[id].stage.Returned?
  {
    RunHoldsGate(env, r, |r.events|);
    q := r;
    if Last(r).gate.Some? {
      q := HolderReturns(env, r, Last(r).gate.value);
    }
    var s := Last(q);
    q := GoOn(env, q, Lock(id), Move(s, id, Locked).(gate := Some(id)));
    q := HolderReturns(env, q, id);
  }

  /** Every run can go on, without another commit, until a given call has returned a snapshot, if the entries
      decode and the call has not failed: nobody is left waiting at the gate for ever. */
  lemma EveryCallCanReturn(env: Env, r: Run, id: CallId) returns (q: Run)
    requires IsRun(env, r) && id in Last(r).calls && !Last(r).calls[id].stage.Failed?
    requires AllDecode(env, Entries(Sorted(Last(r).log)))
    ensures IsRun(env, q) && r.events <= q.events && r.states <= q.states && Last(q).log == Last(r).log
    ensures id in Last(q).calls && Last(q).calls[id].stage.Returned?
  {
    q := r;
    if At(Last(r), id, Started) || StageOf(Last(r), id).FastRead? {
      q := FastPath(env, r, id);
    }
    if At(Last(q), id, Waiting) {
      q := WaitingReturns(env, q, id);
    } else if HoldsGate(StageOf(Last(q), id)) {
      q := HolderReturns(env, q, id);
    }
  }

  /** A call that has not looked at the slot finds its snapshot there or goes to the gate. */
  lemma FastPath(env: Env, r: Run, id: CallId) returns (q: Run)
    requires IsRun(env, r) && (At(Last(r), id, Started) || StageOf(Last(r), id).FastRead?)
    ensures IsRun(env, q) && r.events <= q.events && r.states <= q.states && Last(q).log == Last(r).log
    ensures id in Last(q).calls && (Last(q).calls[id].stage.Returned? || Last(q).calls[id].stage.Waiting?)
  {
    q := r;
    if At(Last(q), id, Started) {
      q := GoOn(env, q, ReadGen(id), Move(Last(q), id, FastRead(Latest(Last(q).log))));
    }
    var s := Last(q);
    q := GoOn(env, q, LookUp(id), Move(s, id, if Hit(s.slot, StageOf(s, id).gen) then Returned(s.slot.value) else Waiting));
  }

  /** For any two rows there is a run, from the start, in which the one with the smaller number commits
      last and a call that began after that commit returns a snapshot without it. */
  lemma LateCommitMissesRow(env: Env, first: Row, late: Row) returns (q: Run)
    requires Decodes(env, first.entry) && 0 < late.seqno < first.seqno
    ensures IsRun(env, q) && Last(q).log == [first, late] && Misses(Last(q), 1, 1)
    ensures Last(q).calls[1].stage.served.snap.entries == [first.entry]
  {
    var r := FirstSnapshot(env, first);
    OneRow(first);
    q := LateIsMissed(env, r, late, Served(SnapshotOf(env, first), 1), 1);
  }
}
