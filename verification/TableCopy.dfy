/** Copying one table from SQLite to PostgreSQL and judging the copy
    (scripts/production_hardening/migrate_sqlite_to_postgres.py). */
module TableCopy {
  type Byte = bv8

  /** A float is its IEEE 754 bits. */
  datatype Cell = Null | Bool(b: bool) | Int(n: int) | Float(bits: bv64) | Text(s: string) | Bytes(bs: seq<Byte>)

  datatype TargetType = BigInt | Double | ByteA | TextType

  type Row = seq<Cell>

  /** Library functions: UTF-8 decoding with replacement, and base64. */
  datatype Codec = Codec(decode: seq<Byte> -> string, base64: seq<Byte> -> string)

  /** The columns of a table: their target types and the positions of the primary key. */
  datatype Columns = Columns(types: seq<TargetType>, key: seq<nat>)

  function CoerceForTarget(v: Cell, t: TargetType, codec: Codec): Cell {
    match v
    case Bool(b) => if t != TextType then Int(if b then 1 else 0) else Text(if b then "true" else "false")
    case Bytes(bs) => if t != ByteA then Text(codec.decode(bs)) else v
    case _ => v
  }

  function CoerceRow(row: Row, c: Columns, codec: Codec): Row {
    seq(|row|, i requires 0 <= i < |row| =>
      if i < |c.types| then CoerceForTarget(row[i], c.types[i], codec) else row[i])
  }

  function CoerceRows(rows: seq<Row>, c: Columns, codec: Codec): (r: seq<Row>)
    ensures |r| == |rows| && forall i | 0 <= i < |rows| :: r[i] == CoerceRow(rows[i], c, codec)
  {
    seq(|rows|, i requires 0 <= i < |rows| => CoerceRow(rows[i], c, codec))
  }

  function NormalizeValue(v: Cell, codec: Codec): Cell {
    match v
    case Bool(b) => Int(if b then 1 else 0)
    case Bytes(bs) => Text(codec.base64(bs))
    case _ => v
  }

  function NormalizeRow(row: Row, codec: Codec): Row {
    seq(|row|, i requires 0 <= i < |row| => NormalizeValue(row[i], codec))
  }

  function NormalizeRows(rows: seq<Row>, codec: Codec): (r: seq<Row>)
    ensures |r| == |rows| && forall i | 0 <= i < |rows| :: r[i] == NormalizeRow(rows[i], codec)
  {
    seq(|rows|, i requires 0 <= i < |rows| => NormalizeRow(rows[i], codec))
  }

  // ----- INSERT ... ON CONFLICT DO NOTHING -----

  function KeyOf(row: Row, c: Columns): seq<Cell> {
    seq(|c.key|, i requires 0 <= i < |c.key| => if c.key[i] < |row| then row[c.key[i]] else Null)
  }

  predicate Conflicts(target: seq<Row>, row: Row, c: Columns) {
    c.key != [] && exists r <- target :: KeyOf(r, c) == KeyOf(row, c)
  }

  function Insert(target: seq<Row>, row: Row, c: Columns): seq<Row> {
    if Conflicts(target, row, c) then target else target + [row]
  }

  function InsertAll(target: seq<Row>, rows: seq<Row>, c: Columns): seq<Row>
    decreases |rows|
  {
    if rows == [] then target else InsertAll(Insert(target, rows[0], c), rows[1..], c)
  }

  // ----- batches -----

  /** A Python slice with a start inside the list: a negative stop counts from the end. */
  function Slice<T>(rows: seq<T>, start: nat, stop: int): seq<T>
    requires start <= |rows|
  {
    var s := if stop < 0 then |rows| + stop else if stop > |rows| then |rows| else stop;
    if s <= start then [] else rows[start..s]
  }

  function Stride(batchSize: int): nat { if batchSize < 1 then 1 else batchSize }

  /** The rows sent to the target by the batches from start on. */
  function Sent<T>(rows: seq<T>, batchSize: int, start: nat): seq<T>
    decreases |rows| - start
  {
    if start >= |rows| then []
    else Slice(rows, start, start + batchSize) + Sent(rows, batchSize, start + Stride(batchSize))
  }

  lemma SplitAt<T>(rows: seq<T>, start: nat, next: nat)
    requires start <= next <= |rows|
    ensures rows[start..next] + rows[next..] == rows[start..]
  {}

  lemma {:induction false} EveryRowIsSent<T>(rows: seq<T>, batchSize: int, start: nat)
    requires batchSize >= 1 && start <= |rows|
    ensures Sent(rows, batchSize, start) == rows[start..]
    decreases |rows| - start
  {
    if start < |rows| {
      var next := start + batchSize;
      if next < |rows| {
        EveryRowIsSent(rows, batchSize, next);
        SplitAt(rows, start, next);
      } else {
        assert Sent(rows, batchSize, next) == [];
      }
    }
  }

  lemma {:induction false} EmptyBatchesSendNothing<T>(rows: seq<T>, start: nat)
    ensures Sent(rows, 0, start) == []
    decreases |rows| - start
  {
    if start < |rows| { EmptyBatchesSendNothing(rows, start + 1); }
  }

  // ----- the content hash -----

  /** What is hashed: the JSON of one normalised row, or the sorted row digests joined by newlines. */
  datatype Payload = RowJson(row: Row) | Joined(digests: seq<nat>)

  ghost predicate CollisionFree(sha: Payload -> nat) {
    forall x, y :: sha(x) == sha(y) ==> x == y
  }

  predicate Sorted(s: seq<nat>) { forall i, j | 0 <= i < j < |s| :: s[i] <= s[j] }

  function InsertSorted(x: nat, s: seq<nat>): (r: seq<nat>)
    requires Sorted(s)
    ensures Sorted(r) && multiset(r) == multiset(s) + multiset{x}
    ensures forall y <- r :: y == x || y in s
  {
    if s == [] || x <= s[0] then [x] + s
    else
      assert s == [s[0]] + s[1..];
      var rest := InsertSorted(x, s[1..]);
      SmallestFirst(s[0], x, s[1..], rest);
      [s[0]] + rest
  }

  lemma SmallestFirst(head: nat, x: nat, s: seq<nat>, rest: seq<nat>)
    requires Sorted([head] + s) && head < x && Sorted(rest) && forall y <- rest :: y == x || y in s
    ensures Sorted([head] + rest)
  {
    var all, sorted := [head] + s, [head] + rest;
    forall y <- rest ensures head <= y {
      if y in s {
        var i :| 0 <= i < |s| && s[i] == y;
        assert all[0] <= all[i + 1];
      }
    }
    forall i, j | 0 <= i < j < |sorted| ensures sorted[i] <= sorted[j] {
      assert sorted[j] == rest[j - 1] && rest[j - 1] in rest;
      if i > 0 { assert sorted[i] == rest[i - 1]; }
    }
  }

  /** list.sort. */
  function Sort(s: seq<nat>): (r: seq<nat>)
    ensures Sorted(r) && multiset(r) == multiset(s)
  {
    if s == [] then []
    else
      assert s == [s[0]] + s[1..];
      InsertSorted(s[0], Sort(s[1..]))
  }

  lemma Cancel<T>(x: T, a: multiset<T>, b: multiset<T>)
    requires multiset{x} + a == multiset{x} + b
    ensures a == b
  {
    assert a == (multiset{x} + a) - multiset{x};
  }

  lemma SameHead(a: seq<nat>, b: seq<nat>)
    requires Sorted(a) && Sorted(b) && multiset(a) == multiset(b) && a != []
    ensures b != [] && a[0] == b[0]
  {
    assert a[0] in multiset(b);
    assert b[0] in multiset(a);
  }

  lemma {:induction false} SortedIsUnique(a: seq<nat>, b: seq<nat>)
    requires Sorted(a) && Sorted(b) && multiset(a) == multiset(b)
    ensures a == b
  {
    if a == [] {
      assert b == [] by { assert |multiset(b)| == |b|; }
    } else {
      SameHead(a, b);
      assert a == [a[0]] + a[1..] && b == [b[0]] + b[1..];
      Cancel(a[0], multiset(a[1..]), multiset(b[1..]));
      SortedIsUnique(a[1..], b[1..]);
    }
  }

  function Digests(rows: seq<Row>, codec: Codec, sha: Payload -> nat): seq<nat> {
    if rows == [] then [] else [sha(RowJson(NormalizeRow(rows[0], codec)))] + Digests(rows[1..], codec, sha)
  }

  function Hash(rows: seq<Row>, codec: Codec, sha: Payload -> nat): nat {
    sha(Joined(Sort(Digests(rows, codec, sha))))
  }

  /** _content_hash. */
  method ContentHash(rows: seq<Row>, codec: Codec, sha: Payload -> nat) returns (hash: nat)
    ensures hash == Hash(rows, codec, sha)
  {
    var digests: seq<nat> := [];
    for i := 0 to |rows|
      invariant Digests(rows, codec, sha) == digests + Digests(rows[i..], codec, sha)
    {
      assert rows[i..][0] == rows[i] && rows[i..][1..] == rows[i + 1..];
      digests := digests + [sha(RowJson(NormalizeRow(rows[i], codec)))];
    }
    assert rows[|rows|..] == [] && digests + [] == digests;
    digests := Sort(digests);
    hash := sha(Joined(digests));
  }

  /** How often a digest occurs is how often its row does. */
  lemma {:induction false} DigestCounts(rows: seq<Row>, codec: Codec, sha: Payload -> nat, row: Row)
    requires CollisionFree(sha)
    ensures multiset(Digests(rows, codec, sha))[sha(RowJson(row))] == multiset(NormalizeRows(rows, codec))[row]
  {
    if rows == [] {
      assert NormalizeRows(rows, codec) == [];
    } else {
      var d, rest := sha(RowJson(NormalizeRow(rows[0], codec))), Digests(rows[1..], codec, sha);
      assert multiset([d] + rest) == multiset{d} + multiset(rest);
      assert NormalizeRows(rows, codec) == [NormalizeRow(rows[0], codec)] + NormalizeRows(rows[1..], codec);
      DigestCounts(rows[1..], codec, sha, row);
      assert sha(RowJson(row)) == d <==> RowJson(row) == RowJson(NormalizeRow(rows[0], codec));
    }
  }

  lemma {:induction false} DigestsComeFromRows(rows: seq<Row>, codec: Codec, sha: Payload -> nat, d: nat)
    requires d in Digests(rows, codec, sha)
    ensures exists row :: row in NormalizeRows(rows, codec) && d == sha(RowJson(row))
  {
    var n := NormalizeRow(rows[0], codec);
    assert NormalizeRows(rows, codec) == [n] + NormalizeRows(rows[1..], codec);
    if d == sha(RowJson(n)) {
      assert n in NormalizeRows(rows, codec);
    } else {
      DigestsComeFromRows(rows[1..], codec, sha, d);
    }
  }

  lemma SameDigestsSameRows(a: seq<Row>, b: seq<Row>, codec: Codec, sha: Payload -> nat)
    requires CollisionFree(sha) && multiset(Digests(a, codec, sha)) == multiset(Digests(b, codec, sha))
    ensures multiset(NormalizeRows(a, codec)) == multiset(NormalizeRows(b, codec))
  {
    forall row ensures multiset(NormalizeRows(a, codec))[row] == multiset(NormalizeRows(b, codec))[row] {
      DigestCounts(a, codec, sha, row);
      DigestCounts(b, codec, sha, row);
    }
  }

  lemma SameRowsSameCount(a: seq<Row>, b: seq<Row>, codec: Codec, sha: Payload -> nat, d: nat)
    requires CollisionFree(sha) && multiset(NormalizeRows(a, codec)) == multiset(NormalizeRows(b, codec))
    requires d in Digests(a, codec, sha)
    ensures multiset(Digests(a, codec, sha))[d] == multiset(Digests(b, codec, sha))[d]
  {
    DigestsComeFromRows(a, codec, sha, d);
    var row :| d == sha(RowJson(row));
    DigestCounts(a, codec, sha, row);
    DigestCounts(b, codec, sha, row);
  }

  lemma SameRowsSameDigests(a: seq<Row>, b: seq<Row>, codec: Codec, sha: Payload -> nat)
    requires CollisionFree(sha) && multiset(NormalizeRows(a, codec)) == multiset(NormalizeRows(b, codec))
    ensures multiset(Digests(a, codec, sha)) == multiset(Digests(b, codec, sha))
  {
    var da, db := Digests(a, codec, sha), Digests(b, codec, sha);
    forall d ensures multiset(da)[d] == multiset(db)[d] {
      if d in da {
        SameRowsSameCount(a, b, codec, sha, d);
      } else if d in db {
        SameRowsSameCount(b, a, codec, sha, d);
      }
    }
  }

  /** Two row lists hash alike exactly if one is a permutation of the other after normalisation. */
  lemma HashIsMultisetIdentity(a: seq<Row>, b: seq<Row>, codec: Codec, sha: Payload -> nat)
    requires CollisionFree(sha)
    ensures Hash(a, codec, sha) == Hash(b, codec, sha)
            <==> multiset(NormalizeRows(a, codec)) == multiset(NormalizeRows(b, codec))
  {
    var da, db := Digests(a, codec, sha), Digests(b, codec, sha);
    if Hash(a, codec, sha) == Hash(b, codec, sha) {
      assert Joined(Sort(da)) == Joined(Sort(db));
      assert multiset(da) == multiset(db);
      SameDigestsSameRows(a, b, codec, sha);
    }
    if multiset(NormalizeRows(a, codec)) == multiset(NormalizeRows(b, codec)) {
      SameRowsSameDigests(a, b, codec, sha);
      SortedIsUnique(Sort(da), Sort(db));
    }
  }

  // ----- the copy -----

  datatype Status = Ok | CountMismatch | HashMismatch

  datatype Report = Report(status: Status, sourceRows: nat, targetRows: nat, copied: int)

  function Verdict(source: seq<Row>, target: seq<Row>, c: Columns, codec: Codec, sha: Payload -> nat): Status {
    if |source| != |target| then CountMismatch
    else if Hash(CoerceRows(source, c, codec), codec, sha) != Hash(CoerceRows(target, c, codec), codec, sha)
    then HashMismatch
    else Ok
  }

  function Typed(rows: seq<Row>, c: Columns, codec: Codec): seq<Row> {
    NormalizeRows(CoerceRows(rows, c, codec), codec)
  }

  /** The verdict is ok exactly if source and target hold the same rows, each as often. */
  lemma VerdictIsExact(source: seq<Row>, target: seq<Row>, c: Columns, codec: Codec, sha: Payload -> nat)
    requires CollisionFree(sha)
    ensures Verdict(source, target, c, codec, sha) == Ok
            <==> multiset(Typed(source, c, codec)) == multiset(Typed(target, c, codec))
  {
    HashIsMultisetIdentity(CoerceRows(source, c, codec), CoerceRows(target, c, codec), codec, sha);
    assert |multiset(Typed(source, c, codec))| == |source| && |multiset(Typed(target, c, codec))| == |target|;
  }

  lemma {:induction false} InsertAllInTwo(target: seq<Row>, a: seq<Row>, b: seq<Row>, c: Columns)
    ensures InsertAll(target, a + b, c) == InsertAll(InsertAll(target, a, c), b, c)
    decreases |a|
  {
    if a == [] {
      assert a + b == b;
    } else {
      assert (a + b)[0] == a[0] && (a + b)[1..] == a[1..] + b;
      InsertAllInTwo(Insert(target, a[0], c), a[1..], b, c);
    }
  }

  /** What is still to be inserted once the batches before start are done. */
  function ToInsert(source: seq<Row>, batchSize: int, start: nat, c: Columns, codec: Codec): seq<Row> {
    CoerceRows(Sent(source, batchSize, start), c, codec)
  }

  lemma SentSplits(source: seq<Row>, batchSize: int, start: nat, c: Columns, codec: Codec)
    requires start < |source|
    ensures ToInsert(source, batchSize, start, c, codec)
            == CoerceRows(Slice(source, start, start + batchSize), c, codec)
               + ToInsert(source, batchSize, start + Stride(batchSize), c, codec)
  {}

  lemma NothingLeft(source: seq<Row>, batchSize: int, start: nat, c: Columns, codec: Codec)
    requires start >= |source|
    ensures ToInsert(source, batchSize, start, c, codec) == []
  {}

  lemma OneBatch(rows: seq<Row>, source: seq<Row>, batchSize: int, start: nat, c: Columns, codec: Codec)
    requires start < |source|
    ensures InsertAll(InsertAll(rows, CoerceRows(Slice(source, start, start + batchSize), c, codec), c),
                      ToInsert(source, batchSize, start + Stride(batchSize), c, codec), c)
            == InsertAll(rows, ToInsert(source, batchSize, start, c, codec), c)
  {
    SentSplits(source, batchSize, start, c, codec);
    InsertAllInTwo(rows, CoerceRows(Slice(source, start, start + batchSize), c, codec),
                   ToInsert(source, batchSize, start + Stride(batchSize), c, codec), c);
  }

  class PgTable {
    var rows: seq<Row>
    const columns: Columns

    constructor (columns: Columns)
      ensures rows == [] && this.columns == columns
    {
      this.columns := columns;
      rows := [];
    }

    /** executemany of the insert statement, and its row count. */
    method ExecuteMany(batch: seq<Row>) returns (rowcount: nat)
      modifies this`rows
      ensures rows == InsertAll(old(rows), batch, columns)
      ensures |rows| == |old(rows)| + rowcount
    {
      rowcount := 0;
      for i := 0 to |batch|
        invariant InsertAll(rows, batch[i..], columns) == InsertAll(old(rows), batch, columns)
        invariant |rows| == |old(rows)| + rowcount
      {
        assert batch[i..][0] == batch[i] && batch[i..][1..] == batch[i + 1..];
        if !Conflicts(rows, batch[i], columns) {
          rows := rows + [batch[i]];
          rowcount := rowcount + 1;
        }
      }
      assert batch[|batch|..] == [];
    }

    /** What the rows still to be sent from start on will make of the table. */
    ghost function Goal(source: seq<Row>, batchSize: int, start: nat, codec: Codec): seq<Row>
      reads this`rows
    {
      InsertAll(rows, ToInsert(source, batchSize, start, columns, codec), columns)
    }

    method OneMany(source: seq<Row>, batchSize: int, start: nat, codec: Codec) returns (copied: nat, next: nat)
      requires start < |source|
      modifies this`rows
      ensures next > start && Goal(source, batchSize, next, codec) == old(Goal(source, batchSize, start, codec))
      ensures |rows| == |old(rows)| + copied
    {
      copied := 0;
      next := start + Stride(batchSize);
      var batch := CoerceRows(Slice(source, start, start + batchSize), columns, codec);
      OneBatch(rows, source, batchSize, start, columns, codec);
      if batch != [] { copied := ExecuteMany(batch); }
    }

    /** The batch loop of _copy_table. */
    method CopyRows(source: seq<Row>, batchSize: int, codec: Codec) returns (copied: nat)
      modifies this`rows
      ensures rows == InsertAll(old(rows), ToInsert(source, batchSize, 0, columns, codec), columns)
      ensures |rows| == |old(rows)| + copied
    {
      copied := 0;
      var start: nat := 0;
      ghost var goal := Goal(source, batchSize, 0, codec);
      while start < |source|
        invariant |rows| == |old(rows)| + copied && Goal(source, batchSize, start, codec) == goal
        decreases |source| - start
      {
        var n, next := OneMany(source, batchSize, start, codec);
        copied := copied + n;
        start := next;
      }
      NothingLeft(source, batchSize, start, columns, codec);
    }

    /** _copy_table after its tables were created. */
    method CopyTable(source: seq<Row>, batchSize: int, codec: Codec, sha: Payload -> nat) returns (report: Report)
      modifies this`rows
      ensures rows == InsertAll(old(rows), ToInsert(source, batchSize, 0, columns, codec), columns)
      ensures report.status == Verdict(source, rows, columns, codec, sha)
      ensures report.sourceRows == |source| && report.targetRows == |rows| == |old(rows)| + report.copied
    {
      var copied := CopyRows(source, batchSize, codec);
      var sourceHash := ContentHash(CoerceRows(source, columns, codec), codec, sha);
      var targetHash := ContentHash(CoerceRows(rows, columns, codec), codec, sha);
      var status := if |source| != |rows| then CountMismatch else if sourceHash != targetHash then HashMismatch else Ok;
      report := Report(status, |source|, |rows|, copied);
    }
  }

  // ----- rerunning -----

  lemma {:induction false} InsertAllGrows(target: seq<Row>, rows: seq<Row>, c: Columns)
    ensures target <= InsertAll(target, rows, c)
    ensures forall r <- InsertAll(target, rows, c) :: r in target || r in rows
    ensures c.key != [] ==> forall r <- rows :: Conflicts(InsertAll(target, rows, c), r, c)
    ensures c.key == [] ==> InsertAll(target, rows, c) == target + rows
    decreases |rows|
  {
    if rows == [] {
      assert target + rows == target;
    } else {
      var next := Insert(target, rows[0], c);
      InsertAllGrows(next, rows[1..], c);
      var after := InsertAll(target, rows, c);
      assert rows == [rows[0]] + rows[1..];
      if c.key != [] {
        assert !Conflicts(target, rows[0], c) ==> rows[0] in next;
        var r :| r in next && KeyOf(r, c) == KeyOf(rows[0], c);
        assert r in after;
      } else {
        assert target + [rows[0]] + rows[1..] == target + rows;
      }
    }
  }

  lemma {:induction false} ConflictsInsertNothing(target: seq<Row>, rows: seq<Row>, c: Columns)
    requires forall r <- rows :: Conflicts(target, r, c)
    ensures InsertAll(target, rows, c) == target
    decreases |rows|
  {
    if rows != [] { ConflictsInsertNothing(target, rows[1..], c); }
  }

  /** A second pass inserts nothing exactly if the table has a primary key (or there is nothing to
      copy): without one, every rerun inserts every row again. */
  lemma RerunInsertsNothingExactly(target: seq<Row>, rows: seq<Row>, c: Columns)
    ensures var once := InsertAll(target, rows, c);
            (InsertAll(once, rows, c) == once <==> c.key != [] || rows == [])
            && (c.key == [] ==> |InsertAll(once, rows, c)| == |once| + |rows|)
  {
    var once := InsertAll(target, rows, c);
    InsertAllGrows(target, rows, c);
    InsertAllGrows(once, rows, c);
    if c.key != [] { ConflictsInsertNothing(once, rows, c); }
  }

  ghost predicate DistinctKeys(rows: seq<Row>, c: Columns) {
    c.key != [] && forall i, j | 0 <= i < j < |rows| :: KeyOf(rows[i], c) != KeyOf(rows[j], c)
  }

  lemma {:induction false} InsertAllKeepsDistinct(target: seq<Row>, rows: seq<Row>, c: Columns)
    requires DistinctKeys(target, c)
    ensures DistinctKeys(InsertAll(target, rows, c), c)
    decreases |rows|
  {
    if rows != [] { InsertAllKeepsDistinct(Insert(target, rows[0], c), rows[1..], c); }
  }

  lemma {:induction false} DistinctCount(rows: seq<Row>, c: Columns, r: Row)
    requires DistinctKeys(rows, c)
    ensures multiset(rows)[r] == if r in rows then 1 else 0
  {
    if rows != [] {
      assert rows == [rows[0]] + rows[1..];
      DistinctCount(rows[1..], c, r);
    }
  }

  lemma {:induction false} DistinctRowsAppend(target: seq<Row>, rows: seq<Row>, c: Columns)
    requires DistinctKeys(target + rows, c)
    ensures InsertAll(target, rows, c) == target + rows
    decreases |rows|
  {
    if rows == [] {
      assert target + rows == target;
    } else {
      assert target + rows == (target + [rows[0]]) + rows[1..];
      assert !Conflicts(target, rows[0], c) by {
        forall r <- target ensures KeyOf(r, c) != KeyOf(rows[0], c) {
          var i :| 0 <= i < |target| && target[i] == r;
          assert (target + rows)[i] == r && (target + rows)[|target|] == rows[0];
        }
      }
      DistinctRowsAppend(target + [rows[0]], rows[1..], c);
    }
  }

  /** Inserting a list of rows into an empty table gives that list if and only if no two of them collide: a
      row whose key is taken is dropped without an error. */
  lemma {:induction false} InsertsAllExactly(rows: seq<Row>, c: Columns)
    ensures InsertAll([], rows, c) == rows <==> c.key == [] || DistinctKeys(rows, c)
  {
    assert [] + rows == rows;
    if c.key == [] {
      InsertAllGrows([], rows, c);
    } else {
      if DistinctKeys(rows, c) { DistinctRowsAppend([], rows, c); }
      InsertAllKeepsDistinct([], rows, c);
    }
  }

  /** For example two rows whose text keys are the bytes of two invalid UTF-8 strings that decode alike. */
  lemma CollidingKeysLoseARow(x: seq<Byte>, y: seq<Byte>, codec: Codec, sha: Payload -> nat)
    requires x != y && codec.decode(x) == codec.decode(y)
    ensures var c, source := Columns([TextType], [0]), [[Bytes(x)], [Bytes(y)]];
            var after := InsertAll([], ToInsert(source, 1, 0, c, codec), c);
            source[0] != source[1] && |after| == 1 && Verdict(source, after, c, codec, sha) == CountMismatch
  {
    var c, source := Columns([TextType], [0]), [[Bytes(x)], [Bytes(y)]];
    var rows := CoerceRows(source, c, codec);
    FullPassSendsEverything(source, 1, c, codec);
    assert rows[0] == [Text(codec.decode(x))] == rows[1] && rows == [rows[0], rows[0]];
    assert rows[1..] == [rows[0]] && [rows[0]][1..] == [] && [] + [rows[0]] == [rows[0]];
    assert Conflicts([rows[0]], rows[0], c) by { assert rows[0] in [rows[0]]; }
    assert InsertAll([], rows, c) == InsertAll([rows[0]], [rows[0]], c) == InsertAll([rows[0]], [], c);
    assert source[0][0] != source[1][0];
  }

  /** A run into an empty table that is killed after n rows leaves a part of them, and all n of them if and
      only if they do not collide. */
  lemma KilledRunLeavesAPart(rows: seq<Row>, n: nat, c: Columns)
    requires n <= |rows|
    ensures InsertAll([], rows[..n], c) == rows[..n] <==> c.key == [] || DistinctKeys(rows[..n], c)
    ensures multiset(InsertAll([], rows[..n], c)) <= multiset(rows)
  {
    InsertsAllExactly(rows[..n], c);
    if c.key == [] {
      assert rows == rows[..n] + rows[n..];
      assert multiset(rows) == multiset(rows[..n]) + multiset(rows[n..]);
    } else {
      KilledRerunLeavesAPart([], rows, n, c);
    }
  }

  /** The target after some killed runs, each of which sent the first ns[i] rows. */
  function AfterKills(left: seq<Row>, rows: seq<Row>, ns: seq<nat>, c: Columns): seq<Row>
    requires forall i | 0 <= i < |ns| :: ns[i] <= |rows|
    decreases |ns|
  {
    if ns == [] then left else AfterKills(InsertAll(left, rows[..ns[0]], c), rows, ns[1..], c)
  }

  /** Rows with distinct keys that all come from a list are a part of it. */
  lemma DistinctIsPart(part: seq<Row>, rows: seq<Row>, c: Columns)
    requires DistinctKeys(part, c) && forall r <- part :: r in rows
    ensures multiset(part) <= multiset(rows)
  {
    forall r ensures multiset(part)[r] <= multiset(rows)[r] {
      DistinctCount(part, c, r);
      if r in part { assert r in multiset(rows); }
    }
  }

  lemma KilledRerunLeavesAPart(left: seq<Row>, rows: seq<Row>, n: nat, c: Columns)
    requires DistinctKeys(left, c) && n <= |rows| && multiset(left) <= multiset(rows)
    ensures var after := InsertAll(left, rows[..n], c); DistinctKeys(after, c) && multiset(after) <= multiset(rows)
  {
    var after := InsertAll(left, rows[..n], c);
    InsertAllKeepsDistinct(left, rows[..n], c);
    InsertAllGrows(left, rows[..n], c);
    forall r <- after ensures r in rows {
      if r in left { assert r in multiset(left) && r in multiset(rows); }
    }
    DistinctIsPart(after, rows, c);
  }

  /** However often the copy of a table with a primary key is killed and started again, the target holds a
      part of the rows, whether or not their keys collide. */
  lemma {:induction false} KilledRunsLeaveAPart(left: seq<Row>, rows: seq<Row>, ns: seq<nat>, c: Columns)
    requires DistinctKeys(left, c) && multiset(left) <= multiset(rows)
    requires forall i | 0 <= i < |ns| :: ns[i] <= |rows|
    ensures var after := AfterKills(left, rows, ns, c); DistinctKeys(after, c) && multiset(after) <= multiset(rows)
    decreases |ns|
  {
    if ns != [] {
      KilledRerunLeavesAPart(left, rows, ns[0], c);
      KilledRunsLeaveAPart(InsertAll(left, rows[..ns[0]], c), rows, ns[1..], c);
    }
  }

  lemma {:induction false} LastRowIsNeverSent<T>(rows: seq<T>, batchSize: int, start: nat)
    requires batchSize <= 0 && rows != []
    ensures forall r <- Sent(rows, batchSize, start) :: r in rows[..|rows| - 1]
    decreases |rows| - start
  {
    if start < |rows| {
      LastRowIsNeverSent(rows, batchSize, start + Stride(batchSize));
      var slice := Slice(rows, start, start + batchSize);
      forall r <- slice ensures r in rows[..|rows| - 1] {
        var i :| 0 <= i < |slice| && slice[i] == r;
        assert rows[..|rows| - 1][start + i] == r;
      }
    }
  }

  lemma FullPassSendsEverything(source: seq<Row>, batchSize: int, c: Columns, codec: Codec)
    ensures batchSize >= 1 ==> ToInsert(source, batchSize, 0, c, codec) == CoerceRows(source, c, codec)
    ensures batchSize == 0 ==> ToInsert(source, batchSize, 0, c, codec) == []
  {
    if batchSize >= 1 { EveryRowIsSent(source, batchSize, 0); assert source[0..] == source; }
    if batchSize == 0 { EmptyBatchesSendNothing(source, 0); }
  }

  lemma SentLacksLast(source: seq<Row>, batchSize: int, c: Columns, codec: Codec, x: Row)
    requires DistinctKeys(CoerceRows(source, c, codec), c) && batchSize <= 0 && source != []
    requires x in ToInsert(source, batchSize, 0, c, codec)
    ensures x != CoerceRows(source, c, codec)[|source| - 1]
  {
    var rows, sent, part := CoerceRows(source, c, codec), Sent(source, batchSize, 0), source[..|source| - 1];
    LastRowIsNeverSent(source, batchSize, 0);
    var i :| 0 <= i < |sent| && CoerceRow(sent[i], c, codec) == x;
    assert sent[i] in sent && sent[i] in part;
    var k :| 0 <= k < |part| && part[k] == sent[i];
    assert rows[k] == x && KeyOf(rows[k], c) != KeyOf(rows[|source| - 1], c);
  }

  lemma {:induction false} NegativeSizeSends<T>(rows: seq<T>, batchSize: int, start: nat)
    requires batchSize < 0
    ensures var m := -batchSize;
            |Sent(rows, batchSize, start)| == if start < m < |rows| then (m - start) * (|rows| - m) else 0
    decreases |rows| - start
  {
    var m := -batchSize;
    if start < |rows| {
      NegativeSizeSends(rows, batchSize, start + 1);
      if start < m < |rows| { assert (m - start) * (|rows| - m) == (|rows| - m) + (m - start - 1) * (|rows| - m); }
    }
  }

  lemma ProductOne(a: nat, b: nat)
    requires a * b == 1
    ensures a == 1 && b == 1
  {}

  lemma FourIsTwoByTwo(m: nat, k: nat)
    requires m >= 1 && k >= 1 && m * k == m + k
    ensures m == 2 && k == 2
  {
    assert (m - 1) * (k - 1) == m * k - m - k + 1;
    ProductOne(m - 1, k - 1);
  }

  lemma FourRowsAreSent<T>(rows: seq<T>)
    requires |rows| == 4
    ensures Sent(rows, -2, 0) == [rows[0], rows[1], rows[1], rows[2]]
  {
    assert Slice(rows, 0, -2) == rows[0..2] && Slice(rows, 1, -1) == rows[1..3];
    assert Sent(rows, -2, 2) == Slice(rows, 2, 0) + Sent(rows, -2, 3);
    assert Sent(rows, -2, 3) == Slice(rows, 3, 1) + Sent(rows, -2, 4);
    assert Sent(rows, -2, 0) == rows[0..2] + (rows[1..3] + Sent(rows, -2, 2));
  }

  /** Four rows of which the last three are the same: what a batch size of -2 sends happens to be all. */
  predicate FourAlike(rows: seq<Row>) { |rows| == 4 && rows[1] == rows[2] == rows[3] }

  lemma NegativeSizeIsExact(source: seq<Row>, batchSize: int, c: Columns, codec: Codec)
    requires batchSize < 0 && source != []
    ensures ToInsert(source, batchSize, 0, c, codec) == CoerceRows(source, c, codec)
            <==> batchSize == -2 && FourAlike(CoerceRows(source, c, codec))
  {
    var n, m := |source|, -batchSize;
    var rows, sent := CoerceRows(source, c, codec), ToInsert(source, batchSize, 0, c, codec);
    NegativeSizeSends(source, batchSize, 0);
    if |sent| == n {
      assert m * (n - m) == m + (n - m);
      FourIsTwoByTwo(m, n - m);
    }
    if n == 4 && m == 2 {
      FourRowsAreSent(source);
      assert sent == [rows[0], rows[1], rows[1], rows[2]];
      assert rows == [rows[0], rows[1], rows[2], rows[3]];
    }
  }

  lemma KeyedPassNeedsABatch(source: seq<Row>, batchSize: int, c: Columns, codec: Codec)
    requires batchSize <= 0 && source != [] && c.key != []
    ensures InsertAll([], ToInsert(source, batchSize, 0, c, codec), c) != CoerceRows(source, c, codec)
  {
    hide Sent, InsertAll, CoerceRow;
    var rows, sent := CoerceRows(source, c, codec), ToInsert(source, batchSize, 0, c, codec);
    var last := rows[|rows| - 1];
    InsertAllKeepsDistinct([], sent, c);
    InsertAllGrows([], sent, c);
    if DistinctKeys(rows, c) && last in sent { SentLacksLast(source, batchSize, c, codec, last); }
    assert last in rows;
  }

  /** For every table and every batch size: a pass over an empty target copies the table if and only if there
      is nothing to copy, or the batch size is at least one and no keys collide. Only a table without a key
      has one more case, in which a batch size of -2 happens to send what is there. */
  lemma FullPassIsCompleteExactly(source: seq<Row>, batchSize: int, c: Columns, codec: Codec)
    ensures var rows := CoerceRows(source, c, codec);
            InsertAll([], ToInsert(source, batchSize, 0, c, codec), c) == rows
            <==> || source == []
                 || (batchSize >= 1 && (c.key == [] || DistinctKeys(rows, c)))
                 || (batchSize == -2 && c.key == [] && FourAlike(rows))
  {
    hide InsertAll, Sent;
    var rows, sent := CoerceRows(source, c, codec), ToInsert(source, batchSize, 0, c, codec);
    FullPassSendsEverything(source, batchSize, c, codec);
    if source == [] {
      NothingLeft(source, batchSize, 0, c, codec);
      InsertsAllExactly(rows, c);
      InsertAllGrows([], rows, c);
    } else if batchSize >= 1 {
      InsertsAllExactly(rows, c);
    } else if c.key != [] {
      KeyedPassNeedsABatch(source, batchSize, c, codec);
    } else {
      InsertAllGrows([], sent, c);
      assert [] + sent == sent;
      if batchSize < 0 { NegativeSizeIsExact(source, batchSize, c, codec); }
    }
  }

  lemma SameSizePart(a: seq<Row>, b: seq<Row>)
    requires multiset(a) <= multiset(b) && |a| == |b|
    ensures multiset(a) == multiset(b)
  {
    var more := multiset(b) - multiset(a);
    assert multiset(b) == multiset(a) + more;
    assert |multiset(a)| == |a| && |multiset(b)| == |b| && |more| == 0;
  }

  /** What one full pass makes of a part of the rows: all of them if and only if no two collide. */
  lemma PassCompletesExactly(left: seq<Row>, rows: seq<Row>, c: Columns)
    requires DistinctKeys(left, c) && multiset(left) <= multiset(rows)
    ensures var after := InsertAll(left, rows, c);
            && (multiset(after) == multiset(rows) <==> DistinctKeys(rows, c))
            && (|after| == |rows| <==> DistinctKeys(rows, c))
  {
    var after := InsertAll(left, rows, c);
    assert rows[..|rows|] == rows;
    KilledRerunLeavesAPart(left, rows, |rows|, c);
    if |after| == |rows| { SameSizePart(after, rows); }
    assert |multiset(after)| == |after| && |multiset(rows)| == |rows|;
    if multiset(after) == multiset(rows) { PartIsDistinct(rows, after, c); }
    if DistinctKeys(rows, c) { PassCompletes(left, rows, c); }
  }

  lemma PassCompletes(left: seq<Row>, rows: seq<Row>, c: Columns)
    requires DistinctKeys(left, c) && DistinctKeys(rows, c) && multiset(left) <= multiset(rows)
    ensures multiset(InsertAll(left, rows, c)) == multiset(rows)
  {
    var after := InsertAll(left, rows, c);
    PartIsDistinct(left, rows, c);
    InsertAllKeepsDistinct(left, rows, c);
    InsertAllGrows(left, rows, c);
    forall r ensures multiset(after)[r] == multiset(rows)[r] {
      DistinctCount(after, c, r);
      DistinctCount(rows, c, r);
      SameMembers(left, rows, after, c, r);
    }
  }

  /** From any part of the rows that killed runs left in the target, one full pass makes the target exactly
      the source, and the verdict ok, if and only if no keys collide; a table without a key has to start
      empty instead. Otherwise the verdict says so. A further pass inserts nothing if and only if there is a
      key or nothing to insert. */
  lemma KillAndRerunConverges(source: seq<Row>, left: seq<Row>, batchSize: int, c: Columns, codec: Codec,
                              sha: Payload -> nat)
    requires CollisionFree(sha) && batchSize >= 1 && (c.key != [] ==> DistinctKeys(left, c))
    requires multiset(left) <= multiset(CoerceRows(source, c, codec))
    ensures var rows := CoerceRows(source, c, codec);
            var after := InsertAll(left, ToInsert(source, batchSize, 0, c, codec), c);
            var complete := if c.key == [] then left == [] else DistinctKeys(rows, c);
            && (multiset(after) == multiset(rows) <==> complete)
            && Verdict(source, after, c, codec, sha) == (if complete then Ok else CountMismatch)
            && (InsertAll(after, ToInsert(source, batchSize, 0, c, codec), c) == after <==> c.key != [] || source == [])
  {
    hide InsertAll, ToInsert;
    FullPassSendsEverything(source, batchSize, c, codec);
    var rows := CoerceRows(source, c, codec);
    var after := InsertAll(left, rows, c);
    RerunInsertsNothingExactly(left, rows, c);
    if c.key == [] {
      InsertAllGrows(left, rows, c);
      assert |multiset(after)| == |after| && |multiset(rows)| == |rows|;
      if left == [] { assert after == rows; }
    } else {
      PassCompletesExactly(left, rows, c);
    }
    if multiset(after) == multiset(rows) { SameRowsAreOk(source, after, c, codec, sha); }
  }

  lemma SameRowsAreOk(source: seq<Row>, after: seq<Row>, c: Columns, codec: Codec, sha: Payload -> nat)
    requires CollisionFree(sha) && multiset(after) == multiset(CoerceRows(source, c, codec))
    ensures Verdict(source, after, c, codec, sha) == Ok
  {
    CoercedTwice(source, after, c, codec);
    VerdictIsExact(source, after, c, codec, sha);
  }

  lemma PartIsDistinct(part: seq<Row>, rows: seq<Row>, c: Columns)
    requires DistinctKeys(rows, c) && multiset(part) <= multiset(rows)
    ensures DistinctKeys(part, c)
    ensures forall r <- part :: r in rows
  {
    forall r <- part ensures r in rows { assert r in multiset(part) && r in multiset(rows); }
    forall i, j | 0 <= i < j < |part| ensures KeyOf(part[i], c) != KeyOf(part[j], c) {
      if part[i] == part[j] { TwiceIsTwo(part, i, j); }
      DistinctCount(rows, c, part[i]);
      assert part[i] in rows && part[j] in rows;
      var p, q :| 0 <= p < |rows| && 0 <= q < |rows| && rows[p] == part[i] && rows[q] == part[j];
      assert p != q;
    }
  }

  lemma TwiceIsTwo(part: seq<Row>, i: nat, j: nat)
    requires i < j < |part| && part[i] == part[j]
    ensures multiset(part)[part[i]] >= 2
  {
    assert part == part[..j] + [part[j]] + part[j + 1..];
    assert part[i] in part[..j];
  }

  /** With distinct keys a conflicting row is the row itself. */
  lemma SameMembers(left: seq<Row>, rows: seq<Row>, after: seq<Row>, c: Columns, r: Row)
    requires DistinctKeys(rows, c) && (forall x <- left :: x in rows) && (forall x <- after :: x in left || x in rows)
    requires forall x <- rows :: Conflicts(after, x, c)
    ensures r in after <==> r in rows
  {
    if r in rows {
      var x :| x in after && KeyOf(x, c) == KeyOf(r, c);
      assert x in rows;
    }
  }

  lemma CoerceTwice(row: Row, c: Columns, codec: Codec)
    ensures CoerceRow(CoerceRow(row, c, codec), c, codec) == CoerceRow(row, c, codec)
  {}

  /** Coercing what was stored changes nothing, so the target's typed rows are the source's. */
  lemma CoercedTwice(source: seq<Row>, after: seq<Row>, c: Columns, codec: Codec)
    requires multiset(after) == multiset(CoerceRows(source, c, codec))
    ensures multiset(Typed(source, c, codec)) == multiset(Typed(after, c, codec))
  {
    var rows := CoerceRows(source, c, codec);
    forall i | 0 <= i < |after| ensures CoerceRows(after, c, codec)[i] == after[i] {
      assert after[i] in multiset(after);
      var j :| 0 <= j < |rows| && rows[j] == after[i];
      CoerceTwice(source[j], c, codec);
    }
    assert CoerceRows(after, c, codec) == after;
    NormalizedAlike(rows, after, codec);
  }

  lemma NormalizeWithout(x: seq<Row>, r: Row, y: seq<Row>, codec: Codec)
    ensures multiset(NormalizeRows(x + [r] + y, codec))
            == multiset{NormalizeRow(r, codec)} + multiset(NormalizeRows(x + y, codec))
  {
    var n, nx, ny := NormalizeRow(r, codec), NormalizeRows(x, codec), NormalizeRows(y, codec);
    assert NormalizeRows(x + [r] + y, codec) == nx + [n] + ny;
    assert NormalizeRows(x + y, codec) == nx + ny;
  }

  lemma {:induction false} NormalizedAlike(a: seq<Row>, b: seq<Row>, codec: Codec)
    requires multiset(a) == multiset(b)
    ensures multiset(NormalizeRows(a, codec)) == multiset(NormalizeRows(b, codec))
    decreases |a|
  {
    if a == [] {
      assert |multiset(b)| == |b|;
    } else {
      var r, rest := a[0], a[1..];
      assert a == [] + [r] + rest && [] + rest == rest;
      assert r in multiset(b);
      var j :| 0 <= j < |b| && b[j] == r;
      assert b == b[..j] + [r] + b[j + 1..];
      assert multiset(b) == multiset{r} + multiset(b[..j] + b[j + 1..]);
      Cancel(r, multiset(rest), multiset(b[..j] + b[j + 1..]));
      NormalizedAlike(rest, b[..j] + b[j + 1..], codec);
      NormalizeWithout([], r, rest, codec);
      NormalizeWithout(b[..j], r, b[j + 1..], codec);
    }
  }
}
