/** Re-upload in batches and the move to opaque blob ids (apps/web/src/services/history-backup.ts). The
    function `own` decrypts a ciphertext and names the opaque id of the record it holds; None where
    decryption fails. */
module HistoryMigration {
  import opened Results
  import opened HistoryPaging
  import opened Hiding

  const MAX_COUNT: nat := 200
  const MAX_BODY: nat := 1_500_000
  const MAX_HISTORY_BATCH: nat := 500

  datatype Blob = Blob(id: string, ciphertext: string)
  type Table = map<string, string>
  type Own = string -> Option<string>

  function Size(b: Blob): nat { |b.id| + |b.ciphertext| }

  /** The table after upserting the blobs in order. */
  function Put(m: Table, blobs: seq<Blob>): Table {
    if blobs == [] then m else
    var b := blobs[|blobs| - 1];
    Put(m, blobs[..|blobs| - 1])[b.id := b.ciphertext]
  }

  lemma {:induction false} PutConcat(m: Table, a: seq<Blob>, b: seq<Blob>)
    ensures Put(m, a + b) == Put(Put(m, a), b)
  {
    if b == [] {
      assert a + b == a;
    } else {
      PutConcat(m, a, b[..|b| - 1]);
      assert (a + b)[..|a + b| - 1] == a + b[..|b| - 1];
    }
  }

  function Without(m: Table, ids: seq<string>): Table { map id | id in m && id !in ids :: m[id] }

  /** The first n blobs are accepted and the next one, if there is one, is refused. */
  predicate RefusedAt(accepts: Blob -> bool, blobs: seq<Blob>, n: nat) {
    n <= |blobs| && (forall i :: 0 <= i < n ==> accepts(blobs[i])) && (n < |blobs| ==> !accepts(blobs[n]))
  }

  /** The server's rows of one user, and what its validation takes: a blob id and base64 of bounded size. */
  class BackupTable {
    var rows: Table
    const accepts: Blob -> bool
    const acceptsId: string -> bool

    constructor (m: Table, accepts: Blob -> bool, acceptsId: string -> bool)
      ensures rows == m && this.accepts == accepts && this.acceptsId == acceptsId
    {
      rows := m;
      this.accepts := accepts;
      this.acceptsId := acceptsId;
    }

    /** The handler validates and upserts one blob after the other: a refusal leaves the ones before it stored. */
    method Upload(blobs: seq<Blob>) returns (ok: bool, ghost n: nat)
      modifies this
      ensures ok <==> 0 < |blobs| <= MAX_HISTORY_BATCH && n == |blobs|
      ensures 0 < |blobs| <= MAX_HISTORY_BATCH ==> RefusedAt(accepts, blobs, n)
      ensures n <= |blobs| && rows == Put(old(rows), blobs[..n])
    {
      n := 0;
      if blobs == [] || |blobs| > MAX_HISTORY_BATCH {
        return false, n;
      }
      var i := 0;
      while i < |blobs|
        invariant 0 <= i == n <= |blobs| && rows == Put(old(rows), blobs[..i])
        invariant forall j :: 0 <= j < i ==> accepts(blobs[j])
      {
        if !accepts(blobs[i]) {
          return false, n;
        }
        rows := rows[blobs[i].id := blobs[i].ciphertext];
        i := i + 1;
        n := i;
        assert blobs[..i][..i - 1] == blobs[..i - 1];
      }
      return true, n;
    }

    /** All ids are validated before any row goes; then exactly the rows named are gone. */
    method DeleteIds(ids: seq<string>) returns (ok: bool)
      modifies this
      ensures ok <==> 0 < |ids| <= MAX_HISTORY_BATCH && forall id :: id in ids ==> acceptsId(id)
      ensures !ok ==> rows == old(rows)
      ensures ok ==> forall id :: id in rows <==> id in old(rows) && id !in ids
      ensures forall id :: id in rows ==> id in old(rows) && rows[id] == old(rows)[id]
    {
      if ids == [] || |ids| > MAX_HISTORY_BATCH || exists id :: id in ids && !acceptsId(id) {
        return false;
      }
      rows := Without(rows, ids);
      return true;
    }
  }

  /** The size of the blobs from k up to i. */
  function Bytes(blobs: seq<Blob>, k: nat, i: nat): nat
    requires k <= i <= |blobs|
    decreases i
  {
    if k == i then 0 else Bytes(blobs, k, i - 1) + Size(blobs[i - 1])
  }

  /** The blobs from k up to i make a batch: few enough, and small enough unless it is a single one. */
  predicate Fits(blobs: seq<Blob>, k: nat, i: nat)
    requires k <= i <= |blobs|
  {
    0 < i - k <= MAX_COUNT && (i - k == 1 || Bytes(blobs, k, i) <= MAX_BODY)
  }

  /** Batch j, from cut j to the next, fits and could not have taken the item after it. */
  predicate GoodBatch(blobs: seq<Blob>, cuts: seq<nat>, j: nat)
    requires j + 1 < |cuts|
  {
    var k, i := cuts[j], cuts[j + 1];
    k <= i <= |blobs| && Fits(blobs, k, i) && (i < |blobs| ==> !Fits(blobs, k, i + 1))
  }

  /** The blobs before the last cut, in order, are the batches sent. */
  ghost predicate Batched(blobs: seq<Blob>, cuts: seq<nat>) {
    && cuts != [] && cuts[0] == 0 && cuts[|cuts| - 1] <= |blobs|
    && (forall j :: 0 <= j < |cuts| - 1 ==> GoodBatch(blobs, cuts, j))
  }

  lemma AppendCut(blobs: seq<Blob>, cuts: seq<nat>, i: nat)
    requires Batched(blobs, cuts) && cuts[|cuts| - 1] <= i <= |blobs|
    requires Fits(blobs, cuts[|cuts| - 1], i) && (i < |blobs| ==> !Fits(blobs, cuts[|cuts| - 1], i + 1))
    ensures Batched(blobs, cuts + [i])
  {
    var all := cuts + [i];
    forall j | 0 <= j < |all| - 1 ensures GoodBatch(blobs, all, j) {
      assert j < |cuts| - 1 ==> GoodBatch(blobs, cuts, j);
    }
  }

  /** Sends the batch held back, if any; the blobs before k have gone to the table `start`. */
  method Flush(table: BackupTable, batch: seq<Blob>, ghost start: Table, ghost blobs: seq<Blob>, ghost k: nat)
    returns (ok: bool, ghost n: nat)
    requires k + |batch| <= |blobs| && batch == blobs[k..k + |batch|]
    requires |batch| <= MAX_COUNT && table.rows == Put(start, blobs[..k])
    modifies table
    ensures RefusedAt(table.accepts, batch, n) && (ok <==> n == |batch|)
    ensures table.rows == Put(start, blobs[..k + n])
  {
    ok, n := true, 0;
    if batch != [] {
      ok, n := table.Upload(batch);
    }
    PutConcat(start, blobs[..k], batch[..n]);
    PrefixGrows(blobs, k, k + |batch|, n);
  }

  lemma PrefixGrows(blobs: seq<Blob>, k: nat, i: nat, n: nat)
    requires k + n <= i <= |blobs|
    ensures blobs[..k] + blobs[k..i][..n] == blobs[..k + n]
  {
    assert blobs[k..i][..n] == blobs[k..k + n];
  }

  /** The loop's state: blobs before k are sent and accepted, those from k to i are held back. Hidden. */
  ghost predicate Holding(accepts: Blob -> bool, blobs: seq<Blob>, cuts: seq<nat>, k: nat, i: nat) {
    k <= i <= |blobs| && (k == i ==> i == 0) && forall z: nat :: Look(z) ==>
      && Batched(blobs, cuts) && cuts[|cuts| - 1] == k && (k == i || Fits(blobs, k, i))
      && forall j :: 0 <= j < k ==> accepts(blobs[j])
  }

  /** The next item goes into the batch held back. */
  lemma HoldNext(accepts: Blob -> bool, blobs: seq<Blob>, cuts: seq<nat>, k: nat, i: nat)
    requires Holding(accepts, blobs, cuts, k, i) && i < |blobs|
    requires k == i || (i - k < MAX_COUNT && Bytes(blobs, k, i) + Size(blobs[i]) <= MAX_BODY)
    ensures Holding(accepts, blobs, cuts, k, i + 1) && Bytes(blobs, k, i + 1) == Bytes(blobs, k, i) + Size(blobs[i])
  {
    assert Look(0);
  }

  /** The batch held back is sent and the next item starts a new one. */
  lemma StartNext(accepts: Blob -> bool, blobs: seq<Blob>, cuts: seq<nat>, k: nat, i: nat)
    requires Holding(accepts, blobs, cuts, k, i) && k < i < |blobs| && RefusedAt(accepts, blobs[k..i], i - k)
    requires i - k >= MAX_COUNT || Bytes(blobs, k, i) + Size(blobs[i]) > MAX_BODY
    ensures Holding(accepts, blobs, cuts + [i], i, i + 1) && Bytes(blobs, i, i + 1) == Size(blobs[i])
  {
    assert Look(0);
    assert Bytes(blobs, k, i + 1) == Bytes(blobs, k, i) + Size(blobs[i]);
    assert Bytes(blobs, i, i) == 0;
    AppendCut(blobs, cuts, i);
    forall j | 0 <= j < i ensures accepts(blobs[j]) {
      assert j >= k ==> blobs[k..i][j - k] == blobs[j];
    }
  }

  lemma HeldCount(accepts: Blob -> bool, blobs: seq<Blob>, cuts: seq<nat>, k: nat, i: nat)
    requires Holding(accepts, blobs, cuts, k, i)
    ensures i - k <= MAX_COUNT
  {
    assert Look(0);
  }

  /** A batch refused at its n-th blob is the whole list refused there. */
  lemma RefusedHere(accepts: Blob -> bool, blobs: seq<Blob>, cuts: seq<nat>, k: nat, i: nat, n: nat)
    requires Holding(accepts, blobs, cuts, k, i) && RefusedAt(accepts, blobs[k..i], n) && (n < i - k || i == |blobs|)
    ensures RefusedAt(accepts, blobs, k + n)
  {
    assert Look(0);
    var slice := blobs[k..i];
    forall j | 0 <= j < k + n ensures accepts(blobs[j]) {
      assert j >= k ==> slice[j - k] == blobs[j];
    }
  }

  function Closed(cuts: seq<nat>, k: nat, i: nat): seq<nat> { if k < i then cuts + [i] else cuts }

  lemma AllSent(accepts: Blob -> bool, blobs: seq<Blob>, cuts: seq<nat>, k: nat)
    requires Holding(accepts, blobs, cuts, k, |blobs|)
    ensures var all := Closed(cuts, k, |blobs|); Batched(blobs, all) && all[|all| - 1] == |blobs|
  {
    assert Look(0);
    if k < |blobs| {
      AppendCut(blobs, cuts, |blobs|);
    }
  }

  /** Stops at the first refusal, with the blobs before it stored and no others. */
  method UploadBatched(table: BackupTable, blobs: seq<Blob>) returns (ok: bool, ghost n: nat, ghost cuts: seq<nat>)
    modifies table
    ensures RefusedAt(table.accepts, blobs, n) && (ok <==> n == |blobs|)
    ensures table.rows == Put(old(table.rows), blobs[..n])
    ensures ok ==> Batched(blobs, cuts) && cuts[|cuts| - 1] == |blobs|
  {
    var batch: seq<Blob>, bytes := [], 0;
    ghost var k := 0;
    cuts := [0];
    var i := 0;
    while i < |blobs|
      invariant Holding(table.accepts, blobs, cuts, k, i) && batch == blobs[k..i] && bytes == Bytes(blobs, k, i)
      invariant table.rows == Put(old(table.rows), blobs[..k])
    {
      var size := Size(blobs[i]);
      HeldCount(table.accepts, blobs, cuts, k, i);
      if batch != [] && (|batch| >= MAX_COUNT || bytes + size > MAX_BODY) {
        ok, n := Flush(table, batch, old(table.rows), blobs, k);
        if !ok {
          RefusedHere(table.accepts, blobs, cuts, k, i, n);
          n := k + n;
          return;
        }
        StartNext(table.accepts, blobs, cuts, k, i);
        k, cuts := i, cuts + [i];
        batch, bytes := [], 0;
      } else {
        HoldNext(table.accepts, blobs, cuts, k, i);
      }
      batch := batch + [blobs[i]];
      bytes := bytes + size;
      i := i + 1;
    }
    HeldCount(table.accepts, blobs, cuts, k, i);
    ok, n := Flush(table, batch, old(table.rows), blobs, k);
    RefusedHere(table.accepts, blobs, cuts, k, i, n);
    AllSent(table.accepts, blobs, cuts, k);
    n, cuts := k + n, Closed(cuts, k, i);
  }

  /** The listing of a table, in some order that puts older uploads first. */
  ghost predicate Lists(rows: seq<Row>, m: Table) {
    && (forall i, j :: 0 <= i < j < |rows| ==> rows[i].id != rows[j].id)
    && (forall i :: 0 <= i < |rows| ==> rows[i].id in m && m[rows[i].id] == rows[i].ciphertext)
    && (forall id :: id in m ==> exists i :: 0 <= i < |rows| && rows[i].id == id)
  }

  /** Row r holds a record whose opaque id is o, under another id. */
  predicate Legacy(own: Own, r: Row, o: string) { own(r.ciphertext) == Some(o) && o != r.id }

  predicate Stale(own: Own, r: Row) { own(r.ciphertext).Some? && own(r.ciphertext) != Some(r.id) }

  /** The ids of stale rows, in listing order. */
  function StaleIds(own: Own, rows: seq<Row>): seq<string> {
    if rows == [] then [] else
    StaleIds(own, rows[..|rows| - 1]) + if Stale(own, rows[|rows| - 1]) then [rows[|rows| - 1].id] else []
  }

  /** For each record found only under foreign ids, its last such row. */
  function Missing(own: Own, rows: seq<Row>, ids: set<string>): Table {
    if rows == [] then map[] else
    var r, m := rows[|rows| - 1], Missing(own, rows[..|rows| - 1], ids);
    if Stale(own, r) && own(r.ciphertext).value !in ids then m[own(r.ciphertext).value := r.ciphertext] else m
  }

  /** What `dropLegacyIds` leaves of table m. */
  function Migrated(own: Own, rows: seq<Row>, m: Table): Table {
    Without(m + Missing(own, rows, m.Keys), StaleIds(own, rows))
  }

  lemma {:induction false} StaleIdsAre(own: Own, rows: seq<Row>, id: string)
    ensures id in StaleIds(own, rows) <==> exists i :: 0 <= i < |rows| && rows[i].id == id && Stale(own, rows[i])
  {
    if rows != [] {
      var k := |rows| - 1;
      StaleIdsAre(own, rows[..k], id);
      assert id in StaleIds(own, rows[..k]) ==> exists i :: 0 <= i < k && rows[..k][i].id == id && Stale(own, rows[..k][i]);
      assert forall i :: 0 <= i < k ==> rows[..k][i] == rows[i];
    }
  }

  /** The row at i is the last one holding record o under another id. */
  ghost predicate LastLegacy(own: Own, rows: seq<Row>, o: string, i: int) {
    0 <= i < |rows| && Legacy(own, rows[i], o) && forall j :: i < j < |rows| ==> !Legacy(own, rows[j], o)
  }

  lemma {:induction false} MissingIsNewest(own: Own, rows: seq<Row>, ids: set<string>, o: string)
    ensures o in Missing(own, rows, ids) <==> o !in ids && exists i :: 0 <= i < |rows| && Legacy(own, rows[i], o)
    ensures o in Missing(own, rows, ids) ==>
      exists i :: LastLegacy(own, rows, o, i) && Missing(own, rows, ids)[o] == rows[i].ciphertext
  {
    if rows != [] {
      var k := |rows| - 1;
      var front := rows[..k];
      MissingIsNewest(own, front, ids, o);
      assert forall i :: 0 <= i < k ==> front[i] == rows[i];
      if Legacy(own, rows[k], o) {
        assert LastLegacy(own, rows, o, k);
      } else if o in Missing(own, front, ids) {
        var i :| LastLegacy(own, front, o, i) && Missing(own, front, ids)[o] == front[i].ciphertext;
        assert LastLegacy(own, rows, o, i);
      }
    }
  }

  /** Where each row of the migrated table comes from. */
  lemma MigratedRow(own: Own, rows: seq<Row>, m: Table, id: string)
    requires Lists(rows, m)
    ensures var after := Migrated(own, rows, m);
      && (id in m ==> (id in after <==> own(m[id]) == None || own(m[id]) == Some(id)))
      && (id in m && id in after ==> after[id] == m[id])
      && (id !in m ==> (id in after <==> exists i :: LastLegacy(own, rows, id, i)))
      && (id !in m && id in after ==> exists i :: LastLegacy(own, rows, id, i) && after[id] == rows[i].ciphertext)
  {
    StaleIdsAre(own, rows, id);
    MissingIsNewest(own, rows, m.Keys, id);
  }

  /** Afterwards every row that can be decrypted stands under its own record's opaque id. */
  lemma OnlyOwnIds(own: Own, rows: seq<Row>, m: Table, id: string)
    requires Lists(rows, m) && id in Migrated(own, rows, m)
    ensures own(Migrated(own, rows, m)[id]) in {None, Some(id)}
  {
    MigratedRow(own, rows, m, id);
  }

  /** Rows already under their own id, and rows that cannot be decrypted, are unchanged. */
  lemma OwnRowsUnchanged(own: Own, rows: seq<Row>, m: Table, id: string)
    requires Lists(rows, m) && id in m && own(m[id]) in {None, Some(id)}
    ensures id in Migrated(own, rows, m) && Migrated(own, rows, m)[id] == m[id]
  {
    MigratedRow(own, rows, m, id);
  }

  /** Some row of the table holds the record with opaque id o. */
  ghost predicate Holds(own: Own, m: Table, o: string) { exists id :: id in m && own(m[id]) == Some(o) }

  /** A stored record survives exactly when no other row stands under its opaque id. */
  lemma RecordSurvivesIff(own: Own, rows: seq<Row>, m: Table, o: string)
    requires Lists(rows, m) && Holds(own, m, o)
    ensures Holds(own, Migrated(own, rows, m), o) <==> (o in m ==> own(m[o]) == Some(o))
  {
    var after := Migrated(own, rows, m);
    MigratedRow(own, rows, m, o);
    if o !in m {
      var id :| id in m && own(m[id]) == Some(o);
      var i :| 0 <= i < |rows| && rows[i].id == id;
      assert Legacy(own, rows[i], o);
      MissingIsNewest(own, rows, m.Keys, o);
      assert own(after[o]) == Some(o);
    } else if own(m[o]) == Some(o) {
      assert own(after[o]) == Some(o);
    } else {
      forall id | id in after ensures own(after[id]) != Some(o) {
        OnlyOwnIds(own, rows, m, id);
      }
    }
  }

  /** A second pass finds nothing to do. */
  lemma MigrationSettles(own: Own, rows: seq<Row>, m: Table, again: seq<Row>)
    requires Lists(rows, m) && Lists(again, Migrated(own, rows, m))
    ensures Migrated(own, again, Migrated(own, rows, m)) == Migrated(own, rows, m)
  {
    var after := Migrated(own, rows, m);
    forall id ensures id in Migrated(own, again, after) <==> id in after
      ensures id in after ==> Migrated(own, again, after)[id] == after[id]
    {
      MigratedRow(own, again, after, id);
      if id in after {
        OnlyOwnIds(own, rows, m, id);
      } else if i :| LastLegacy(own, again, id, i) {
        OnlyOwnIds(own, rows, m, again[i].id);
      }
    }
  }

  /** With a row of record "b" standing under the opaque id "a", migration loses record "a". */
  lemma ForeignRowLosesRecord(own: Own, rows: seq<Row>)
    requires own("A") == Some("a") && own("B") == Some("b")
    requires rows == [Row(1, "old", "A"), Row(2, "a", "B")]
    ensures var m := map["old" := "A", "a" := "B"];
      Lists(rows, m) && Holds(own, m, "a") && !Holds(own, Migrated(own, rows, m), "a")
  {
    var m := map["old" := "A", "a" := "B"];
    assert rows[0].id == "old" && rows[1].id == "a";
    assert own(m["old"]) == Some("a");
    RecordSurvivesIff(own, rows, m, "a");
  }

  lemma {:induction false} PutRow(own: Own, m: Table, blobs: seq<Blob>, id: string)
    requires forall b :: b in blobs ==> own(b.ciphertext) == Some(b.id)
    ensures id in Put(m, blobs) <==> id in m || exists b :: b in blobs && b.id == id
    ensures (exists b :: b in blobs && b.id == id) ==> own(Put(m, blobs)[id]) == Some(id)
    ensures id in m && !(exists b :: b in blobs && b.id == id) ==> Put(m, blobs)[id] == m[id]
  {
    if blobs != [] {
      var front := blobs[..|blobs| - 1];
      assert blobs == front + [blobs[|blobs| - 1]];
      PutRow(own, m, front, id);
    }
  }

  predicate Local(blobs: seq<Blob>, o: string) { exists b :: b in blobs && b.id == o }

  /** The whole migration, re-upload of the device's own records included: a record on the device or the
      server is on the server afterwards exactly when the device has it, or it stood under its own id, or
      nothing did and the device's uploads left a copy of it. */
  lemma MigrationKeepsIff(own: Own, m: Table, local: seq<Blob>, rows: seq<Row>, o: string)
    requires forall b :: b in local ==> own(b.ciphertext) == Some(b.id)
    requires Lists(rows, Put(m, local))
    ensures Holds(own, Migrated(own, rows, Put(m, local)), o) <==>
      || Local(local, o)
      || (o in m && own(m[o]) == Some(o))
      || (o !in m && exists id :: id in m && own(m[id]) == Some(o) && !Local(local, id))
  {
    var full := Put(m, local);
    PutRow(own, m, local, o);
    forall id ensures id in full <==> id in m || Local(local, id)
      ensures Local(local, id) ==> own(full[id]) == Some(id)
      ensures id in m && !Local(local, id) ==> full[id] == m[id]
    {
      PutRow(own, m, local, id);
    }
    if Holds(own, full, o) {
      RecordSurvivesIff(own, rows, full, o);
    } else {
      var after := Migrated(own, rows, full);
      forall id | id in after ensures own(after[id]) != Some(o) {
        MigratedRow(own, rows, full, id);
      }
    }
  }

  /** The map's entries as blobs, in the order their keys were first set. */
  function Entries(order: seq<string>, missing: Table): seq<Blob>
    requires forall o :: o in order ==> o in missing
  {
    seq(|order|, i requires 0 <= i < |order| => Blob(order[i], missing[order[i]]))
  }

  lemma {:induction false} PutEntriesAt(m: Table, order: seq<string>, missing: Table, id: string)
    requires forall o :: o in order ==> o in missing
    ensures var t := Put(m, Entries(order, missing));
      && (id in t <==> id in m || id in order)
      && (id in t ==> t[id] == if id in order then missing[id] else m[id])
  {
    if order != [] {
      var k := |order| - 1;
      var front := order[..k];
      assert order == front + [order[k]];
      PutEntriesAt(m, front, missing, id);
      assert Entries(order, missing)[..k] == Entries(front, missing);
    }
  }

  lemma PutEntries(m: Table, order: seq<string>, missing: Table)
    requires forall o :: o in order <==> o in missing
    ensures Put(m, Entries(order, missing)) == m + missing
  {
    forall id ensures var t := Put(m, Entries(order, missing));
      (id in t <==> id in m + missing) && (id in t ==> t[id] == (m + missing)[id])
    {
      PutEntriesAt(m, order, missing, id);
    }
  }

  function LegacyRows(own: Own, rows: seq<Row>): seq<Row> {
    if rows == [] then [] else
    LegacyRows(own, rows[..|rows| - 1]) + if Stale(own, rows[|rows| - 1]) then [rows[|rows| - 1]] else []
  }

  function Ids(rows: seq<Row>): seq<string> { seq(|rows|, i requires 0 <= i < |rows| => rows[i].id) }

  lemma {:induction false} MissingFromLegacy(own: Own, rows: seq<Row>, ids: set<string>)
    ensures Missing(own, LegacyRows(own, rows), ids) == Missing(own, rows, ids)
  {
    if rows != [] {
      var front, r := rows[..|rows| - 1], rows[|rows| - 1];
      MissingFromLegacy(own, front, ids);
      if Stale(own, r) {
        var legacy := LegacyRows(own, front);
        assert LegacyRows(own, rows) == legacy + [r];
        assert (legacy + [r])[..|legacy|] == legacy;
      } else {
        assert LegacyRows(own, rows) == LegacyRows(own, front);
      }
    }
  }

  lemma {:induction false} StaleIdsFromLegacy(own: Own, rows: seq<Row>)
    ensures Ids(LegacyRows(own, rows)) == StaleIds(own, rows)
  {
    if rows != [] {
      StaleIdsFromLegacy(own, rows[..|rows| - 1]);
    }
  }

  method CollectMissing(own: Own, legacy: seq<Row>, ids: set<string>) returns (missing: Table, order: seq<string>)
    requires forall r :: r in legacy ==> Stale(own, r)
    ensures missing == Missing(own, legacy, ids)
    ensures forall o :: o in order <==> o in missing
  {
    missing, order := map[], [];
    var i := 0;
    while i < |legacy|
      invariant 0 <= i <= |legacy|
      invariant missing == Missing(own, legacy[..i], ids)
      invariant forall o :: o in order <==> o in missing
    {
      assert legacy[i] in legacy;
      var o := own(legacy[i].ciphertext).value;
      if o !in ids {
        order := if o in missing then order else order + [o];
        missing := missing[o := legacy[i].ciphertext];
      }
      assert legacy[..i + 1][..i] == legacy[..i];
      i := i + 1;
    }
    assert legacy[..i] == legacy;
  }

  /** Deletes slice by slice, and stops at a slice that is refused. */
  method DeleteSlices(table: BackupTable, stale: seq<string>) returns (ok: bool, ghost n: nat)
    modifies table
    ensures ok <==> forall id :: id in stale ==> table.acceptsId(id)
    ensures n <= |stale| && (ok ==> n == |stale|) && table.rows == Without(old(table.rows), stale[..n])
  {
    var i := 0;
    n := 0;
    assert Without(table.rows, stale[..0]) == table.rows;
    while i < |stale|
      invariant 0 <= i && n == Min(i, |stale|) && forall id :: id in stale[..n] ==> table.acceptsId(id)
      invariant table.rows == Without(old(table.rows), stale[..n])
    {
      var j := Min(i + MAX_COUNT, |stale|);
      assert stale[..j] == stale[..i] + stale[i..j];
      ok := table.DeleteIds(stale[i..j]);
      if !ok {
        return;
      }
      i := i + MAX_COUNT;
      n := j;
    }
    ok := true;
  }

  lemma {:induction false} LegacyRowsStale(own: Own, rows: seq<Row>)
    ensures forall r :: r in LegacyRows(own, rows) ==> Stale(own, r)
  {
    if rows != [] {
      LegacyRowsStale(own, rows[..|rows| - 1]);
    }
  }

  method CollectLegacy(own: Own, rows: seq<Row>) returns (ids: set<string>, legacy: seq<Row>)
    ensures forall id :: id in ids <==> exists j :: 0 <= j < |rows| && rows[j].id == id
    ensures legacy == LegacyRows(own, rows)
  {
    ids, legacy := {}, [];
    var i := 0;
    while i < |rows|
      invariant 0 <= i <= |rows|
      invariant forall id :: id in ids <==> exists j :: 0 <= j < i && rows[j].id == id
      invariant legacy == LegacyRows(own, rows[..i])
    {
      ids := ids + {rows[i].id};
      assert rows[..i + 1][..i] == rows[..i];
      if own(rows[i].ciphertext).Some? && own(rows[i].ciphertext).value != rows[i].id {
        legacy := legacy + [rows[i]];
      }
      i := i + 1;
    }
    assert rows[..i] == rows;
  }

  /** What an interrupted pass leaves: every row there was, with some of the missing copies added; or, all of
      those added, some of the stale rows gone. */
  ghost predicate Unfinished(own: Own, rows: seq<Row>, m: Table, t: Table) {
    || (forall id :: id in m ==> id in t && t[id] == m[id])
    || (exists n: nat :: n <= |StaleIds(own, rows)| && t == Without(m + Missing(own, rows, m.Keys), StaleIds(own, rows)[..n]))
  }

  /** Interrupted or not, no record is lost that a whole pass would keep. */
  lemma UnfinishedKeepsRecords(own: Own, rows: seq<Row>, m: Table, t: Table, o: string)
    requires Lists(rows, m) && Holds(own, m, o) && (o in m ==> own(m[o]) == Some(o)) && Unfinished(own, rows, m, t)
    ensures Holds(own, t, o)
  {
    RecordSurvivesIff(own, rows, m, o);
    MigratedRow(own, rows, m, o);
    var held :| held in m && own(m[held]) == Some(o);
    if !(forall id :: id in m ==> id in t && t[id] == m[id]) {
      var n: nat :| n <= |StaleIds(own, rows)| && t == Without(m + Missing(own, rows, m.Keys), StaleIds(own, rows)[..n]);
      var last :| last in Migrated(own, rows, m) && own(Migrated(own, rows, m)[last]) == Some(o);
      assert last !in StaleIds(own, rows)[..n];
      assert last in t && t[last] == Migrated(own, rows, m)[last];
    }
  }

  /** Uploads the missing copies; refused half way, it has changed no row there was. */
  method UploadMissing(table: BackupTable, own: Own, legacy: seq<Row>) returns (ok: bool)
    requires forall r :: r in legacy ==> Stale(own, r)
    modifies table
    ensures ok ==> table.rows == old(table.rows) + Missing(own, legacy, old(table.rows).Keys)
    ensures forall id :: id in old(table.rows) ==> id in table.rows && table.rows[id] == old(table.rows)[id]
  {
    ghost var start := table.rows;
    var missing, order := CollectMissing(own, legacy, table.rows.Keys);
    var blobs := Entries(order, missing);
    MissingNew(own, legacy, start.Keys);
    PutEntries(start, order, missing);
    assert blobs[..|blobs|] == blobs;
    ghost var n, cuts;
    ok, n, cuts := UploadBatched(table, blobs);
    PutKeepsOthers(start, blobs[..n]);
  }

  method DropLegacyIds(table: BackupTable, own: Own, rows: seq<Row>) returns (ok: bool)
    requires Lists(rows, table.rows)
    modifies table
    ensures ok ==> table.rows == Migrated(own, rows, old(table.rows))
    ensures !ok ==> Unfinished(own, rows, old(table.rows), table.rows)
  {
    var ids, legacy := CollectLegacy(own, rows);
    assert ids == table.rows.Keys;
    LegacyRowsStale(own, rows);
    MissingFromLegacy(own, rows, ids);
    StaleIdsFromLegacy(own, rows);
    ok := UploadMissing(table, own, legacy);
    if ok {
      ghost var n;
      ok, n := DeleteSlices(table, Ids(legacy));
      assert Ids(legacy)[..|legacy|] == Ids(legacy);
    }
  }

  /** Copies go only under ids that no row has. */
  lemma MissingNew(own: Own, rows: seq<Row>, ids: set<string>)
    ensures forall o :: o in Missing(own, rows, ids) ==> o !in ids
  {
    forall o | o in Missing(own, rows, ids) ensures o !in ids {
      MissingIsNewest(own, rows, ids, o);
    }
  }

  lemma {:induction false} PutKeepsOthers(m: Table, blobs: seq<Blob>)
    ensures forall id :: id in m && (forall b :: b in blobs ==> b.id != id) ==> id in Put(m, blobs) && Put(m, blobs)[id] == m[id]
  {
    if blobs != [] {
      PutKeepsOthers(m, blobs[..|blobs| - 1]);
      assert blobs[|blobs| - 1] in blobs;
    }
  }
}
