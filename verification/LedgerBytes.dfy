/** The append-only ledger as bytes: lines, whole lines, and the repair of a tail
    that an interrupted writer left behind. */
module LedgerBytes {
  import opened Text

  newtype byte = x: int | 0 <= x < 256
  type Bytes = seq<byte>

  const NEWLINE: byte := 10
  const CHUNK := 4096

  /** Everything up to `n` is a sequence of finished lines. */
  predicate Boundary(f: Bytes, n: nat) {
    n <= |f| && (n == 0 || f[n - 1] == NEWLINE)
  }

  /** Length of the longest prefix that ends with a newline. */
  function WholeLength(f: Bytes): (n: nat)
    ensures n <= |f| && Boundary(f, n)
    ensures forall k | n <= k < |f| :: f[k] != NEWLINE
  {
    if f == [] then 0 else if f[|f| - 1] == NEWLINE then |f| else WholeLength(f[..|f| - 1])
  }

  /** Position of the first newline at or after `from`, or the length when there is none. */
  function NextNewline(f: Bytes, from: nat): (n: nat)
    requires from <= |f|
    ensures from <= n <= |f|
    ensures forall k | from <= k < n :: f[k] != NEWLINE
    ensures n < |f| ==> f[n] == NEWLINE
    decreases |f| - from
  {
    if from == |f| || f[from] == NEWLINE then from else NextNewline(f, from + 1)
  }

  /** The finished lines, without their newlines; an unfinished last line is not one. */
  function Lines(f: Bytes): seq<Bytes>
    decreases |f|
  {
    var n := NextNewline(f, 0);
    if n == |f| then [] else [f[..n]] + Lines(f[n + 1..])
  }

  lemma FirstLineOfJoin(a: Bytes, b: Bytes)
    requires a != [] && Boundary(a, |a|)
    ensures var n := NextNewline(a, 0);
      && n < |a| && NextNewline(a + b, 0) == n
      && Boundary(a[n + 1..], |a[n + 1..]|)
      && (a + b)[..n] == a[..n] && (a + b)[n + 1..] == a[n + 1..] + b
  {
    assert forall k | 0 <= k < |a| :: (a + b)[k] == a[k];
  }

  /** Lines of a file cut at a line boundary are the lines of both parts. */
  lemma {:induction false} LinesOfJoin(a: Bytes, b: Bytes)
    requires Boundary(a, |a|)
    ensures Lines(a + b) == Lines(a) + Lines(b)
    decreases |a|
  {
    if a == [] {
      assert a + b == b;
    } else {
      hide *;
      var n := NextNewline(a, 0);
      FirstLineOfJoin(a, b);
      LinesOfJoin(a[n + 1..], b);
      AppendIsAssociative([a[..n]], Lines(a[n + 1..]), Lines(b));
    }
  }

  lemma LinesOfOneLine(line: Bytes)
    requires NEWLINE !in line
    ensures Lines(line + [NEWLINE]) == [line]
  {
    var f := line + [NEWLINE];
    var n := NextNewline(f, 0);
    assert forall k | 0 <= k < |line| :: f[k] in line;
    assert f[|line|] == NEWLINE;
    assert f[..n] == line && f[n + 1..] == [];
  }

  /** Only the whole-line prefix of a file carries lines. */
  lemma LinesIgnoreUnfinishedTail(f: Bytes)
    ensures Lines(f) == Lines(f[..WholeLength(f)])
  {
    var n := WholeLength(f);
    assert f == f[..n] + f[n..];
    LinesOfJoin(f[..n], f[n..]);
  }

  lemma {:induction false} WholeLengthOfJoin(a: Bytes, b: Bytes)
    requires Boundary(a, |a|)
    ensures WholeLength(a + b) == |a| + WholeLength(b)
  {
    if b == [] {
      assert a + b == a;
    } else {
      assert (a + b)[..|a + b| - 1] == a + b[..|b| - 1];
      WholeLengthOfJoin(a, b[..|b| - 1]);
    }
  }

  /** Decoding a line into a ledger object; `None` when it is not a JSON object. */
  type Decoder<!R> = Bytes -> Option<R>

  /** What the file holds after repair: an unfinished last line is closed when it is a
      whole object and dropped otherwise. */
  function Repaired<R>(f: Bytes, decode: Decoder<R>): (r: Bytes)
    ensures Boundary(r, |r|)
    ensures r == f[..WholeLength(f)] || r == f + [NEWLINE]
  {
    if f == [] || f[|f| - 1] == NEWLINE then f
    else if decode(f[WholeLength(f)..]).Some? then f + [NEWLINE]
    else f[..WholeLength(f)]
  }

  /** Repair never cuts below a line boundary, and what lies below it is untouched. */
  lemma RepairKeepsPrefix<R>(f: Bytes, decode: Decoder<R>, n: nat)
    requires Boundary(f, n)
    ensures n <= |Repaired(f, decode)| && Repaired(f, decode)[..n] == f[..n]
    ensures Boundary(Repaired(f, decode), n)
  {
    var w := WholeLength(f);
    assert n <= w;
    assert f[..w][..n] == f[..n];
  }

  /** The objects on the finished lines, in order; other lines are skipped. */
  function Objects<R>(lines: seq<Bytes>, decode: Decoder<R>): seq<R> {
    if lines == [] then []
    else
      AsSeq(decode(lines[0])) + Objects(lines[1..], decode)
  }

  function Rows<R>(f: Bytes, decode: Decoder<R>): seq<R> {
    Objects(Lines(f), decode)
  }

  lemma {:induction false} ObjectsOfJoin<R>(a: seq<Bytes>, b: seq<Bytes>, decode: Decoder<R>)
    ensures Objects(a + b, decode) == Objects(a, decode) + Objects(b, decode)
  {
    if a == [] {
      assert a + b == b;
    } else {
      assert (a + b)[1..] == a[1..] + b;
      ObjectsOfJoin(a[1..], b, decode);
      AppendIsAssociative(AsSeq(decode(a[0])), Objects(a[1..], decode), Objects(b, decode));
    }
  }

  lemma RowsOfJoin<R>(a: Bytes, b: Bytes, decode: Decoder<R>)
    requires Boundary(a, |a|)
    ensures Rows(a + b, decode) == Rows(a, decode) + Rows(b, decode)
  {
    LinesOfJoin(a, b);
    ObjectsOfJoin(Lines(a), Lines(b), decode);
  }

  lemma RowsOfOneLine<R>(line: Bytes, decode: Decoder<R>)
    requires NEWLINE !in line
    ensures Rows(line + [NEWLINE], decode) == AsSeq(decode(line))
  {
    LinesOfOneLine(line);
    assert Objects([line][1..], decode) == [];
  }

  lemma RowsIgnoreUnfinishedTail<R>(f: Bytes, decode: Decoder<R>)
    ensures Rows(f, decode) == Rows(f[..WholeLength(f)], decode)
    ensures Boundary(f[..WholeLength(f)], |f[..WholeLength(f)]|)
  {
    LinesIgnoreUnfinishedTail(f);
  }

  lemma RepairedCases<R>(f: Bytes, decode: Decoder<R>)
    ensures var w, r := WholeLength(f), Repaired(f, decode);
      && (f[w..] == [] ==> r == f == f[..w])
      && (f[w..] != [] && decode(f[w..]).Some? ==> r == f[..w] + (f[w..] + [NEWLINE]))
      && (f[w..] != [] && decode(f[w..]).None? ==> r == f[..w])
  {
  }

  /** Closing an unfinished line adds its object; no finished line is lost by repair. */
  lemma RowsAfterRepair<R>(f: Bytes, decode: Decoder<R>)
    ensures Rows(Repaired(f, decode), decode) == Rows(f, decode) +
      (var tail := f[WholeLength(f)..];
       if tail == [] then [] else AsSeq(decode(tail)))
  {
    assert decode(f[WholeLength(f)..]).None? ==> AsSeq(decode(f[WholeLength(f)..])) == [];
    hide *;
    var w := WholeLength(f);
    var tail := f[w..];
    RowsIgnoreUnfinishedTail(f, decode);
    RepairedCases(f, decode);
    if tail != [] && decode(tail).Some? {
      RowsOfJoin(f[..w], tail + [NEWLINE], decode);
      RowsOfOneLine(tail, decode);
    }
  }

  /** Writing and reading one ledger object. */
  datatype Codec<!R> = Codec(encode: R -> Bytes, decode: Decoder<R>)

  /** What JSON objects promise: reading inverts writing, an object is written without a
      raw newline, and no proper prefix of a written object is itself an object. */
  ghost predicate IsObjectCodec<R(!new)>(codec: Codec<R>) {
    forall row: R :: WritesWhole(codec, row)
  }

  ghost predicate WritesWhole<R>(codec: Codec<R>, row: R) {
    var text := codec.encode(row);
    && text != [] && NEWLINE !in text
    && codec.decode(text) == Some(row)
    && forall k | 0 <= k < |text| :: codec.decode(text[..k]).None?
  }

  /** The bytes of one append: each object followed by a newline. */
  function Written<R>(rows: seq<R>, codec: Codec<R>): Bytes {
    if rows == [] then [] else codec.encode(rows[0]) + [NEWLINE] + Written(rows[1..], codec)
  }

  lemma RowsAfterOneLine<R(!new)>(f: Bytes, row: R, codec: Codec<R>)
    requires IsObjectCodec(codec) && Boundary(f, |f|)
    ensures var g := f + (codec.encode(row) + [NEWLINE]);
      Boundary(g, |g|) && Rows(g, codec.decode) == Rows(f, codec.decode) + [row]
  {
    assert WritesWhole(codec, row);
    RowsOfJoin(f, codec.encode(row) + [NEWLINE], codec.decode);
    RowsOfOneLine(codec.encode(row), codec.decode);
  }

  lemma {:induction false} RowsOfWritten<R(!new)>(f: Bytes, rows: seq<R>, codec: Codec<R>)
    requires IsObjectCodec(codec) && Boundary(f, |f|)
    ensures Rows(f + Written(rows, codec), codec.decode) == Rows(f, codec.decode) + rows
    ensures Boundary(f + Written(rows, codec), |f + Written(rows, codec)|)
    decreases |rows|
  {
    if rows == [] {
      assert f + [] == f;
    } else {
      hide IsObjectCodec, Rows;
      var line := codec.encode(rows[0]);
      var g := f + (line + [NEWLINE]);
      RowsAfterOneLine(f, rows[0], codec);
      RowsOfWritten(g, rows[1..], codec);
      assert f + Written(rows, codec) == g + Written(rows[1..], codec);
      assert rows == [rows[0]] + rows[1..];
    }
  }

  /** How many objects of an append interrupted after `cut` bytes survive tail repair. */
  function Survivors<R>(rows: seq<R>, cut: nat, codec: Codec<R>): (k: nat)
    ensures k <= |rows|
  {
    if rows == [] || cut < |codec.encode(rows[0])| then 0
    else if cut == |codec.encode(rows[0])| then 1
    else 1 + Survivors(rows[1..], cut - |codec.encode(rows[0])| - 1, codec)
  }

  /** Tail repair of `f` leaves exactly these rows. */
  ghost predicate Recovers<R>(f: Bytes, decode: Decoder<R>, rows: seq<R>) {
    Rows(Repaired(f, decode), decode) == rows
  }

  lemma UnfinishedTail<R>(f: Bytes, tail: Bytes, decode: Decoder<R>)
    requires Boundary(f, |f|) && NEWLINE !in tail
    ensures WholeLength(f + tail) == |f| && (f + tail)[|f|..] == tail
    ensures Rows(f + tail, decode) == Rows(f, decode)
  {
    WholeLengthOfJoin(f, tail);
    RowsOfJoin(f, tail, decode);
    assert Rows(tail, decode) == [];
    hide *;
  }

  lemma RowsOfTornLine<R(!new)>(f: Bytes, row: R, cut: nat, codec: Codec<R>)
    requires IsObjectCodec(codec) && Boundary(f, |f|) && cut <= |codec.encode(row)|
    ensures Recovers(f + codec.encode(row)[..cut], codec.decode,
                     Rows(f, codec.decode) + if cut == |codec.encode(row)| then [row] else [])
  {
    assert WritesWhole(codec, row);
    var line := codec.encode(row);
    var tail := line[..cut];
    assert forall b | b in tail :: b in line;
    assert cut == |line| ==> tail == line;
    assert cut < |line| ==> codec.decode(tail).None?;
    UnfinishedTail(f, tail, codec.decode);
    RowsAfterRepair(f + tail, codec.decode);
    hide Lines, Objects, WholeLength, Repaired, Rows, IsObjectCodec, Boundary;
  }

  lemma WrittenSplits<R(!new)>(f: Bytes, rows: seq<R>, cut: nat, codec: Codec<R>)
    requires rows != [] && cut <= |Written(rows, codec)|
    ensures var line, rest := codec.encode(rows[0]), Written(rows[1..], codec);
      && |Written(rows, codec)| == |line| + 1 + |rest|
      && (cut <= |line| ==> Written(rows, codec)[..cut] == line[..cut])
      && (cut > |line| ==> f + Written(rows, codec)[..cut] == f + (line + [NEWLINE]) + rest[..cut - |line| - 1])
  {
  }

  lemma NothingToRepair<R>(f: Bytes, rows: seq<R>, cut: nat, codec: Codec<R>)
    requires Boundary(f, |f|) && rows == [] && cut <= |Written(rows, codec)|
    ensures Recovers(f + Written(rows, codec)[..cut], codec.decode,
                     Rows(f, codec.decode) + rows[..Survivors(rows, cut, codec)])
  {
    assert f + [] == f;
    assert Repaired(f, codec.decode) == f;
    assert Rows(f, codec.decode) + [] == Rows(f, codec.decode);
  }

  lemma SurvivorsSplit<R(!new)>(rows: seq<R>, cut: nat, codec: Codec<R>)
    requires rows != []
    ensures var size, kept := |codec.encode(rows[0])|, rows[..Survivors(rows, cut, codec)];
      && (cut <= size ==> kept == if cut == size then [rows[0]] else [])
      && (cut > size ==> kept == [rows[0]] + rows[1..][..Survivors(rows[1..], cut - size - 1, codec)])
  {
  }

  /** An append killed after any number of bytes leaves, once repaired, a prefix of its rows. */
  lemma {:induction false} TornAppendKeepsWholeRows<R(!new)>(f: Bytes, rows: seq<R>, cut: nat, codec: Codec<R>)
    requires IsObjectCodec(codec) && Boundary(f, |f|) && cut <= |Written(rows, codec)|
    ensures Recovers(f + Written(rows, codec)[..cut], codec.decode,
                     Rows(f, codec.decode) + rows[..Survivors(rows, cut, codec)])
    decreases |rows|
  {
    hide *;
    if rows == [] {
      NothingToRepair(f, rows, cut, codec);
    } else {
      var line := codec.encode(rows[0]);
      WrittenSplits(f, rows, cut, codec);
      SurvivorsSplit(rows, cut, codec);
      if cut <= |line| {
        RowsOfTornLine(f, rows[0], cut, codec);
      } else {
        RowsAfterOneLine(f, rows[0], codec);
        var g := f + (line + [NEWLINE]);
        TornAppendKeepsWholeRows(g, rows[1..], cut - |line| - 1, codec);
        var kept := rows[1..][..Survivors(rows[1..], cut - |line| - 1, codec)];
        AppendIsAssociative(Rows(f, codec.decode), [rows[0]], kept);
        assert Rows(g, codec.decode) + kept == Rows(f, codec.decode) + rows[..Survivors(rows, cut, codec)];
      }
    }
  }
}
