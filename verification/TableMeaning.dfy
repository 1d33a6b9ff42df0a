/** What the copied cells are, and what the verdict says about the source's own rows. */
module TableMeaning {
  import opened TableCopy

  // ----- cells -----

  /** What is stored for a cell: everything but booleans and bytes as it is, bytes as they are in a BYTEA column
      and decoded elsewhere, booleans as words in a TEXT column and as numbers elsewhere. */
  lemma StoredCell(v: Cell, t: TargetType, codec: Codec)
    ensures var stored := CoerceForTarget(v, t, codec);
            && (v.Null? || v.Int? || v.Float? || v.Text? ==> stored == v)
            && (v.Bytes? && t == ByteA ==> stored == v)
            && (v.Bytes? && t in {BigInt, Double, TextType} ==> stored == Text(codec.decode(v.bs)))
            && (t == TextType && v == Bool(true) ==> stored == Text("true"))
            && (t == TextType && v == Bool(false) ==> stored == Text("false"))
            && (t in {BigInt, Double, ByteA} && v == Bool(true) ==> stored == Int(1))
            && (t in {BigInt, Double, ByteA} && v == Bool(false) ==> stored == Int(0))
  {}

  /** What a cell is hashed as. */
  lemma HashedCell(v: Cell, codec: Codec)
    ensures var hashed := NormalizeValue(v, codec);
            && (v.Null? || v.Int? || v.Float? || v.Text? ==> hashed == v)
            && (v.Bytes? ==> hashed == Text(codec.base64(v.bs)))
            && (v == Bool(true) ==> hashed == Int(1)) && (v == Bool(false) ==> hashed == Int(0))
  {}

  /** The rows have the same cell at every key position. */
  predicate Collide(a: Row, b: Row, c: Columns) { forall p <- c.key :: p < |a| && p < |b| && a[p] == b[p] }

  lemma KeysCollide(a: Row, b: Row, c: Columns)
    requires forall p <- c.key :: p < |a| && p < |b|
    ensures KeyOf(a, c) == KeyOf(b, c) <==> Collide(a, b, c)
  {
    if KeyOf(a, c) == KeyOf(b, c) {
      forall p <- c.key ensures a[p] == b[p] {
        var i :| 0 <= i < |c.key| && c.key[i] == p;
        assert KeyOf(a, c)[i] == KeyOf(b, c)[i];
      }
    }
    if Collide(a, b, c) {
      assert forall i | 0 <= i < |c.key| :: c.key[i] in c.key;
    }
  }

  // ----- rows that are stored as they are -----

  /** A row whose cells fit their columns: no booleans, no bytes outside BYTEA columns, no text inside them. */
  predicate Tidy(row: Row, c: Columns) {
    && |row| == |c.types|
    && forall i | 0 <= i < |row| :: !row[i].Bool? && (if c.types[i] == ByteA then !row[i].Text? else !row[i].Bytes?)
  }

  predicate AllTidy(rows: seq<Row>, c: Columns) { forall r <- rows :: Tidy(r, c) }

  ghost predicate Injective(base64: seq<Byte> -> string) { forall x, y :: base64(x) == base64(y) ==> x == y }

  lemma TidyRowIsStored(row: Row, c: Columns, codec: Codec)
    requires Tidy(row, c)
    ensures CoerceRow(row, c, codec) == row
  {
    forall i | 0 <= i < |row| ensures CoerceRow(row, c, codec)[i] == row[i] { StoredCell(row[i], c.types[i], codec); }
  }

  /** Such rows arrive in the target as they are. */
  lemma TidyRowsAreStored(rows: seq<Row>, c: Columns, codec: Codec)
    requires AllTidy(rows, c)
    ensures CoerceRows(rows, c, codec) == rows
  {
    forall i | 0 <= i < |rows| ensures CoerceRows(rows, c, codec)[i] == rows[i] {
      assert rows[i] in rows;
      TidyRowIsStored(rows[i], c, codec);
    }
  }

  lemma TidyRowsHashApart(a: Row, b: Row, c: Columns, codec: Codec)
    requires Tidy(a, c) && Tidy(b, c) && Injective(codec.base64)
    ensures NormalizeRow(a, codec) == NormalizeRow(b, codec) <==> a == b
  {
    if NormalizeRow(a, codec) == NormalizeRow(b, codec) {
      forall i | 0 <= i < |a| ensures a[i] == b[i] {
        assert NormalizeRow(a, codec)[i] == NormalizeRow(b, codec)[i];
        HashedCell(a[i], codec);
        HashedCell(b[i], codec);
      }
    }
  }

  lemma {:induction false} HashedCounts(rows: seq<Row>, r: Row, c: Columns, codec: Codec)
    requires AllTidy(rows, c) && Tidy(r, c) && Injective(codec.base64)
    ensures multiset(NormalizeRows(rows, codec))[NormalizeRow(r, codec)] == multiset(rows)[r]
  {
    if rows == [] {
      assert NormalizeRows(rows, codec) == [];
    } else {
      assert rows == [rows[0]] + rows[1..];
      assert NormalizeRows(rows, codec) == [NormalizeRow(rows[0], codec)] + NormalizeRows(rows[1..], codec);
      HashedCounts(rows[1..], r, c, codec);
      TidyRowsHashApart(rows[0], r, c, codec);
    }
  }

  lemma TidyRowsAlike(a: seq<Row>, b: seq<Row>, c: Columns, codec: Codec)
    requires AllTidy(a, c) && AllTidy(b, c) && Injective(codec.base64)
    ensures multiset(NormalizeRows(a, codec)) == multiset(NormalizeRows(b, codec)) <==> multiset(a) == multiset(b)
  {
    if multiset(NormalizeRows(a, codec)) == multiset(NormalizeRows(b, codec)) {
      forall r ensures multiset(a)[r] == multiset(b)[r] {
        if r in a || r in b {
          HashedCounts(a, r, c, codec);
          HashedCounts(b, r, c, codec);
        }
      }
    }
    if multiset(a) == multiset(b) { NormalizedAlike(a, b, codec); }
  }

  /** For rows that fit their columns, the verdict is about the rows themselves: count_mismatch exactly if there
      are not as many, ok exactly if both sides hold the same rows, each as often, and hash_mismatch otherwise. */
  lemma VerdictOnTidyRows(source: seq<Row>, target: seq<Row>, c: Columns, codec: Codec, sha: Payload -> nat)
    requires CollisionFree(sha) && Injective(codec.base64) && AllTidy(source, c) && AllTidy(target, c)
    ensures var verdict := Verdict(source, target, c, codec, sha);
            && (verdict == Ok <==> multiset(source) == multiset(target))
            && (verdict == CountMismatch <==> |source| != |target|)
            && (verdict == HashMismatch <==> |source| == |target| && multiset(source) != multiset(target))
  {
    VerdictIsExact(source, target, c, codec, sha);
    TidyRowsAreStored(source, c, codec);
    TidyRowsAreStored(target, c, codec);
    TidyRowsAlike(source, target, c, codec);
    assert |multiset(source)| == |source| && |multiset(target)| == |target|;
  }

  /** From any part of a table whose rows fit their columns, one full pass makes the target hold the source's own
      rows, each as often, and the verdict ok, if and only if no two of them have the same key cells; a table
      without a key has to start empty instead. */
  lemma TidyTableIsCopied(source: seq<Row>, left: seq<Row>, batchSize: int, c: Columns, codec: Codec,
                          sha: Payload -> nat)
    requires CollisionFree(sha) && batchSize >= 1 && AllTidy(source, c) && forall p <- c.key :: p < |c.types|
    requires multiset(left) <= multiset(source) && (c.key != [] ==> DistinctKeys(left, c))
    ensures var after := InsertAll(left, ToInsert(source, batchSize, 0, c, codec), c);
            var complete := if c.key == [] then left == [] else
                              forall i, j | 0 <= i < j < |source| :: !Collide(source[i], source[j], c);
            && (multiset(after) == multiset(source) <==> complete)
            && Verdict(source, after, c, codec, sha) == (if complete then Ok else CountMismatch)
  {
    TidyRowsAreStored(source, c, codec);
    KillAndRerunConverges(source, left, batchSize, c, codec, sha);
    if c.key != [] { DistinctByCells(source, c); }
  }

  lemma DistinctByCells(rows: seq<Row>, c: Columns)
    requires c.key != [] && AllTidy(rows, c) && forall p <- c.key :: p < |c.types|
    ensures DistinctKeys(rows, c) <==> forall i, j | 0 <= i < j < |rows| :: !Collide(rows[i], rows[j], c)
  {
    forall i, j | 0 <= i < j < |rows| ensures KeyOf(rows[i], c) == KeyOf(rows[j], c) <==> Collide(rows[i], rows[j], c) {
      assert rows[i] in rows && rows[j] in rows;
      KeysCollide(rows[i], rows[j], c);
    }
  }

  /** Cells that do not fit can deceive the verdict: bytes and the text of their base64 in one BYTEA column. */
  lemma UntidyRowsLookAlike(bytes: seq<Byte>, codec: Codec, sha: Payload -> nat)
    requires CollisionFree(sha)
    ensures var c, source, target := Columns([ByteA], []), [[Bytes(bytes)]], [[Text(codec.base64(bytes))]];
            source != target && Verdict(source, target, c, codec, sha) == Ok
  {
    var c, source, target := Columns([ByteA], []), [[Bytes(bytes)]], [[Text(codec.base64(bytes))]];
    assert source[0][0] != target[0][0];
    assert CoerceRow(source[0], c, codec) == source[0] && CoerceRow(target[0], c, codec) == target[0];
    assert NormalizeRow(source[0], codec) == target[0] && NormalizeRow(target[0], codec) == target[0];
    assert Typed(source, c, codec) == [target[0]] && Typed(target, c, codec) == [target[0]];
    VerdictIsExact(source, target, c, codec, sha);
  }
}
