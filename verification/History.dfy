/** The cursor of the backup listing, `<created_at>:<blob_id>` (server/src/routes/history.rs,
    server/src/validate.rs). */
module HistoryCursor {
  import opened Results

  const MAX_BLOB_ID: nat := 64

  predicate IsI32(n: int) { -0x8000_0000 <= n < 0x8000_0000 }

  predicate IsDigit(c: char) { '0' <= c <= '9' }

  function PrintNat(n: nat): (s: string)
    ensures s != "" && forall c :: c in s ==> IsDigit(c)
  {
    var d := '0' + (n % 10) as char;
    if n < 10 then [d] else PrintNat(n / 10) + [d]
  }

  function Print(n: int): string { if n < 0 then var m: nat := -n; "-" + PrintNat(m) else PrintNat(n) }

  function DigitValue(c: char): (v: nat)
    requires IsDigit(c)
    ensures v < 10
  {
    c as int - '0' as int
  }

  /** The value of a string of digits. */
  function DigitsValue(s: string): nat
    requires forall c :: c in s ==> IsDigit(c)
  {
    if s == "" then 0 else
    var high: nat := DigitsValue(s[..|s| - 1]);
    high * 10 + DigitValue(s[|s| - 1])
  }

  /** str::parse::<i32>: an optional sign, at least one digit, and no overflow. */
  function ParseI32(s: string): Option<int> {
    var signed := s != "" && (s[0] == '-' || s[0] == '+');
    var digits := if signed then s[1..] else s;
    if digits == "" || exists c :: c in digits && !IsDigit(c) then None else
    var n: int := if signed && s[0] == '-' then 0 - DigitsValue(digits) else DigitsValue(digits);
    if IsI32(n) then Some(n) else None
  }

  lemma {:induction false} PrintNatValue(n: nat)
    ensures DigitsValue(PrintNat(n)) == n
  {
    var s := PrintNat(n);
    if n >= 10 {
      PrintNatValue(n / 10);
      assert s[..|s| - 1] == PrintNat(n / 10);
    } else {
      assert s[..|s| - 1] == "";
    }
  }

  /** Printing and parsing undo each other, for every number of 32 bits; longer ones are refused. */
  lemma ParsePrint(n: int)
    ensures ParseI32(Print(n)) == (if IsI32(n) then Some(n) else None) && ':' !in Print(n)
  {
    PrintNatValue(if n < 0 then -n else n);
    if n < 0 {
      assert Print(n)[1..] == PrintNat(-n);
    } else {
      assert IsDigit(Print(n)[0]);
    }
  }

  /** The index of the first colon, or the length. */
  function FindColon(s: string): (k: nat)
    ensures k <= |s| && ':' !in s[..k] && (k < |s| ==> s[k] == ':')
  {
    if s == "" || s[0] == ':' then 0 else
    var k := 1 + FindColon(s[1..]);
    assert s[..k] == [s[0]] + s[1..][..k - 1];
    k
  }

  predicate Control(c: char) { c < 0x20 as char && c != 0x09 as char && c != 0x0A as char }

  /** Ids the cursor check accepts; every id the upload check accepts is one. */
  predicate CursorId(id: string) { 0 < |id| <= MAX_BLOB_ID && forall c :: c in id ==> !Control(c) }

  function ParseCursor(s: string): Option<(int, string)> {
    var k := FindColon(s);
    if k == |s| then None else
    var at, id := ParseI32(s[..k]), s[k + 1..];
    if at.None? || !CursorId(id) then None else Some((at.value, id))
  }

  function PrintCursor(at: int, id: string): string { Print(at) + ":" + id }

  /** The first colon is the one after a prefix that holds none. */
  lemma {:induction false} FindColonAfter(p: string, rest: string)
    requires ':' !in p
    ensures FindColon(p + ":" + rest) == |p|
  {
    var s := p + ":" + rest;
    if p != "" {
      assert s[1..] == p[1..] + ":" + rest;
      FindColonAfter(p[1..], rest);
    }
  }

  /** Printing a cursor and parsing it undo each other, for every id the check accepts. */
  lemma CursorRoundTrip(at: int, id: string)
    ensures ParseCursor(Print(at) + ":" + id) == if IsI32(at) && CursorId(id) then Some((at, id)) else None
  {
    ParsePrint(at);
    FindColonAfter(Print(at), id);
    var s, k := PrintCursor(at, id), |Print(at)|;
    assert s[..k] == Print(at) && s[k + 1..] == id;
  }

  predicate UploadId(id: string) {
    0 < |id| <= MAX_BLOB_ID &&
    forall c :: c in id ==> IsDigit(c) || 'a' <= c <= 'z' || 'A' <= c <= 'Z' || c == '_' || c == '-'
  }

  lemma UploadIdsAreCursorIds(id: string)
    requires UploadId(id)
    ensures CursorId(id)
  {}
}

/** The paged backup listing (server/src/routes/history.rs) and the client's loop over it
    (apps/web/src/services/history-backup.ts). `less` is the database's order on ids. */
module HistoryPaging {
  import opened Results
  import opened HistoryCursor

  datatype Row = Row(createdAt: int, id: string, ciphertext: string)
  type Less = (string, string) -> bool

  ghost predicate StrictOrder(less: Less) {
    && (forall x :: !less(x, x))
    && (forall x, y :: less(x, y) || less(y, x) || x == y)
    && (forall x, y, z :: Transitive(less, x, y, z))
    && (forall x :: x != "" ==> less("", x))
  }

  ghost predicate Transitive(less: Less, x: string, y: string, z: string) { less(x, y) && less(y, z) ==> less(x, z) }

  predicate After(less: Less, r: Row, at: int, id: string) { r.createdAt > at || (r.createdAt == at && less(id, r.id)) }

  /** A user's rows in listing order, with ids and times as `upload` writes them. */
  ghost predicate Stored(less: Less, rows: seq<Row>) {
    && (forall i :: 0 <= i < |rows| ==> CursorId(rows[i].id) && 0 <= rows[i].createdAt && IsI32(rows[i].createdAt))
    && (forall i, j :: 0 <= i < j < |rows| ==> After(less, rows[j], rows[i].createdAt, rows[i].id))
  }

  /** SELECT ... WHERE (created_at, blob_id) > cursor ORDER BY created_at, blob_id. */
  function Later(less: Less, rows: seq<Row>, at: int, id: string): seq<Row> {
    if rows == [] then []
    else (if After(less, rows[0], at, id) then [rows[0]] else []) + Later(less, rows[1..], at, id)
  }

  function Min(a: nat, b: nat): nat { if a < b then a else b }

  /** The limit given, brought into 1 to 500; 200 if none is given. */
  function PageLimit(limit: Option<int>): (n: nat)
    ensures 1 <= n <= 500 && (limit.None? ==> n == 200)
    ensures limit.Some? && 1 <= limit.value <= 500 ==> n == limit.value
    ensures limit.Some? && limit.value < 1 ==> n == 1
    ensures limit.Some? && limit.value > 500 ==> n == 500
  {
    var l := if limit.Some? then limit.value else 200;
    if l < 1 then 1 else if l > 500 then 500 else l
  }

  datatype Page = Page(blobs: seq<Row>, next: Option<string>)

  function Start(after: Option<string>): Option<(int, string)> {
    if after.None? then Some((0, "")) else ParseCursor(after.value)
  }

  /** The first n of the selected rows, with a cursor from the last one if there were n. */
  function PageOf(later: seq<Row>, n: nat): Page
    requires n > 0
  {
    var page := later[..Min(n, |later|)];
    Page(page, if |page| == n then Some(PrintCursor(page[n - 1].createdAt, page[n - 1].id)) else None)
  }

  /** The handler: None for a cursor that does not parse. */
  function List(less: Less, rows: seq<Row>, after: Option<string>, limit: Option<int>): Option<Page> {
    var cursor := Start(after);
    if cursor.None? then None
    else Some(PageOf(Later(less, rows, cursor.value.0, cursor.value.1), PageLimit(limit)))
  }

  lemma {:induction false} LaterIsSuffix(less: Less, rows: seq<Row>, k: nat, at: int, id: string)
    requires k <= |rows|
    requires forall i :: 0 <= i < k ==> !After(less, rows[i], at, id)
    requires forall i :: k <= i < |rows| ==> After(less, rows[i], at, id)
    ensures Later(less, rows, at, id) == rows[k..]
    decreases |rows|
  {
    if rows != [] {
      if k > 0 {
        LaterIsSuffix(less, rows[1..], k - 1, at, id);
        assert rows[1..][k - 1..] == rows[k..];
      } else {
        LaterIsSuffix(less, rows[1..], 0, at, id);
        assert rows == [rows[0]] + rows[1..];
      }
    }
  }

  /** What the cursor left by the first k rows selects. */
  lemma LaterAfterRow(less: Less, rows: seq<Row>, k: nat)
    requires StrictOrder(less) && Stored(less, rows) && 0 < k <= |rows|
    ensures Later(less, rows, rows[k - 1].createdAt, rows[k - 1].id) == rows[k..]
  {
    var last := rows[k - 1];
    forall i | 0 <= i < k ensures !After(less, rows[i], last.createdAt, last.id) {
      if i < k - 1 {
        assert After(less, last, rows[i].createdAt, rows[i].id);
        assert Transitive(less, rows[i].id, last.id, rows[i].id);
      }
    }
    LaterIsSuffix(less, rows, k, last.createdAt, last.id);
  }

  lemma LaterFromStart(less: Less, rows: seq<Row>)
    requires StrictOrder(less) && Stored(less, rows)
    ensures Later(less, rows, 0, "") == rows
  {
    LaterIsSuffix(less, rows, 0, 0, "");
  }

  /** The cursor that stands for the first k rows. */
  function CursorAt(rows: seq<Row>, k: nat): Option<string>
    requires k <= |rows|
  {
    if k == 0 then None else Some(PrintCursor(rows[k - 1].createdAt, rows[k - 1].id))
  }

  lemma CursorSelects(less: Less, rows: seq<Row>, k: nat)
    requires StrictOrder(less) && Stored(less, rows) && k <= |rows|
    ensures var at := Start(CursorAt(rows, k));
      at.Some? && Later(less, rows, at.value.0, at.value.1) == rows[k..]
  {
    if k == 0 {
      LaterFromStart(less, rows);
    } else {
      LaterAfterRow(less, rows, k);
      CursorRoundTrip(rows[k - 1].createdAt, rows[k - 1].id);
    }
  }

  /** The page after the first k rows is the next run of rows, and it names a next cursor exactly when it
      is full. */
  lemma PageAfter(less: Less, rows: seq<Row>, k: nat, limit: Option<int>)
    requires StrictOrder(less) && Stored(less, rows) && k <= |rows|
    ensures var j := Min(k + PageLimit(limit), |rows|);
      List(less, rows, CursorAt(rows, k), limit)
      == Some(Page(rows[k..j], if j == k + PageLimit(limit) then CursorAt(rows, j) else None))
  {
    CursorSelects(less, rows, k);
    PageOfSuffix(rows, k, PageLimit(limit));
  }

  lemma PageOfSuffix(rows: seq<Row>, k: nat, n: nat)
    requires k <= |rows| && n > 0
    ensures var j := Min(k + n, |rows|);
      PageOf(rows[k..], n) == Page(rows[k..j], if j == k + n then CursorAt(rows, j) else None)
  {
    var j := Min(k + n, |rows|);
    assert rows[k..][..j - k] == rows[k..j];
    assert j > k ==> rows[k..j][j - k - 1] == rows[j - 1];
  }

  /** The client's loop: page after page until there is no next cursor. Every row is visited once, in
      order, and no cursor is refused. */
  method ListAll(less: Less, rows: seq<Row>, limit: Option<int>) returns (visited: seq<Row>)
    requires StrictOrder(less) && Stored(less, rows)
    ensures visited == rows
  {
    visited := [];
    var after: Option<string> := None;
    ghost var k := 0;
    while true
      invariant k <= |rows| && visited == rows[..k] && after == CursorAt(rows, k)
      decreases |rows| - k
    {
      PageAfter(less, rows, k, limit);
      var page := List(less, rows, after, limit);
      ghost var j := Min(k + PageLimit(limit), |rows|);
      assert rows[..k] + rows[k..j] == rows[..j];
      visited := visited + page.value.blobs;
      if page.value.next.None? {
        break;
      }
      after, k := page.value.next, j;
    }
  }
}
