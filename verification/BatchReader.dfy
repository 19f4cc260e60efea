/** Reading a tree's blobs back from one `git cat-file --batch` reply. */
module BatchReader {
  import opened Wrappers

  type Byte = b: int | 0 <= b < 256
  type Bytes = seq<Byte>

  const NEWLINE: Byte := 10
  const SPACE: Byte := 32
  const ZERO: Byte := 48

  predicate IsSpace(b: Byte) { b == SPACE || 9 <= b <= 13 }
  predicate IsDigit(b: Byte) { ZERO <= b < ZERO + 10 }

  /** The white space at which `split` parts fields, and the digits `int` reads. */
  lemma BytesAre(b: Byte)
    ensures IsSpace(b) <==> b in {9, 10, 11, 12, 13, 32}
    ensures IsDigit(b) <==> b in {48, 49, 50, 51, 52, 53, 54, 55, 56, 57}
  {
  }

  /** Nonempty and free of white space. */
  predicate IsWord(s: Bytes) { s != [] && forall i | 0 <= i < |s| :: !IsSpace(s[i]) }

  /** The length of the word `s` starts with. */
  function WordLength(s: Bytes): (n: nat)
    ensures n <= |s|
  {
    if s == [] || IsSpace(s[0]) then 0 else 1 + WordLength(s[1..])
  }

  /** `header.split()`. */
  function Fields(s: Bytes): seq<Bytes>
    decreases |s|
  {
    if s == [] then []
    else if IsSpace(s[0]) then Fields(s[1..])
    else [s[..WordLength(s)]] + Fields(s[WordLength(s)..])
  }

  /** `int(text)` for text of digits alone; None is its `ValueError`. */
  function ParseDecimal(s: Bytes): Option<nat> {
    if s == [] || !IsDigit(s[|s| - 1]) then None
    else if |s| == 1 then Some(s[0] - ZERO)
    else
      var higher := ParseDecimal(s[..|s| - 1]);
      if higher.None? then None else Some(10 * higher.value + (s[|s| - 1] - ZERO))
  }

  /** `int(header.split()[2])`. */
  function SizeIn(header: Bytes): Option<nat> {
    if |Fields(header)| < 3 then None else ParseDecimal(Fields(header)[2])
  }

  /** `s[from : to]`: a slice past the end stops there. */
  function Slice(s: Bytes, from: nat, to: nat): Bytes {
    var end := if to < |s| then to else |s|;
    if from <= end then s[from..end] else []
  }

  /** One record at `offset`: its data and where the next one starts; None is an exception, as `batch.index` raises. */
  function ReadRecord(batch: Bytes, offset: nat): Option<(Bytes, nat)> {
    if offset > |batch| || IndexOf(batch, NEWLINE, offset).None? then None
    else
      var headerEnd := IndexOf(batch, NEWLINE, offset).value;
      var size := SizeIn(batch[offset..headerEnd]);
      if size.None? then None
      else Some((Slice(batch, headerEnd + 1, headerEnd + 1 + size.value), headerEnd + 1 + size.value + 1))
  }

  /** The records of `n` entries from `offset` on, and the offset after the last. */
  function ReadRecords(batch: Bytes, offset: nat, n: nat): Option<(seq<Bytes>, nat)>
    decreases n
  {
    if n == 0 then Some(([], offset))
    else
      var first := ReadRecord(batch, offset);
      if first.None? then None
      else
        var rest := ReadRecords(batch, first.value.1, n - 1);
        if rest.None? then None else Some(([first.value.0] + rest.value.0, rest.value.1))
  }

  /** The offset loop of `_read`: each path's bytes, and the offset it stopped at. */
  method Read(paths: seq<string>, batch: Bytes) returns (files: Option<map<string, Bytes>>, offset: nat)
    requires forall i, j | 0 <= i < j < |paths| :: paths[i] != paths[j]
    ensures files.Some? <==> ReadRecords(batch, 0, |paths|).Some?
    ensures files.Some? ==>
              var (data, end) := ReadRecords(batch, 0, |paths|).value;
              && offset == end && |data| == |paths|
              && (forall p :: p in files.value <==> p in paths)
              && (forall i | 0 <= i < |paths| :: files.value[paths[i]] == data[i])
  {
    hide ReadRecord;
    var read: map<string, Bytes> := map[];
    ghost var data: seq<Bytes> := [];
    offset := 0;
    PrependNothing(ReadRecords(batch, 0, |paths|));
    for i := 0 to |paths|
      invariant |data| == i
      invariant forall p :: p in read <==> p in paths[..i]
      invariant forall k | 0 <= k < i :: read[paths[k]] == data[k]
      invariant ReadRecords(batch, 0, |paths|) == Prepend(data, ReadRecords(batch, offset, |paths| - i))
    {
      var record := ReadRecord(batch, offset);
      if record.None? {
        files := None;
        return;
      }
      assert paths[..i + 1] == paths[..i] + [paths[i]];
      if ReadRecords(batch, record.value.1, |paths| - i - 1).Some? {
        assert data + ([record.value.0] + ReadRecords(batch, record.value.1, |paths| - i - 1).value.0)
            == data + [record.value.0] + ReadRecords(batch, record.value.1, |paths| - i - 1).value.0;
      }
      read := read[paths[i] := record.value.0];
      data := data + [record.value.0];
      offset := record.value.1;
    }
    assert data + [] == data;
    files := Some(read);
  }

  ghost function Prepend(data: seq<Bytes>, rest: Option<(seq<Bytes>, nat)>): Option<(seq<Bytes>, nat)> {
    if rest.None? then None else Some((data + rest.value.0, rest.value.1))
  }

  lemma PrependNothing(rest: Option<(seq<Bytes>, nat)>)
    ensures Prepend([], rest) == rest
  {
    assert rest.Some? ==> [] + rest.value.0 == rest.value.0;
  }

  /** One object as `git cat-file --batch` prints it. */
  datatype Blob = Blob(oid: Bytes, kind: Bytes, data: Bytes)
  {
    predicate Valid() { IsWord(oid) && IsWord(kind) }
  }

  function Decimal(n: nat): (s: Bytes)
    ensures s != [] && forall i | 0 <= i < |s| :: IsDigit(s[i])
  {
    if n < 10 then [ZERO + n] else Decimal(n / 10) + [ZERO + n % 10]
  }

  function Header(blob: Blob): Bytes { blob.oid + [SPACE] + blob.kind + [SPACE] + Decimal(|blob.data|) }

  function Record(blob: Blob): Bytes { Header(blob) + [NEWLINE] + blob.data + [NEWLINE] }

  function Batch(blobs: seq<Blob>): Bytes {
    if blobs == [] then [] else Record(blobs[0]) + Batch(blobs[1..])
  }

  function DataOf(blobs: seq<Blob>): seq<Bytes> { seq(|blobs|, i requires 0 <= i < |blobs| => blobs[i].data) }

  lemma {:induction false} DecimalParses(n: nat)
    ensures ParseDecimal(Decimal(n)) == Some(n)
  {
    if n >= 10 {
      DecimalParses(n / 10);
      assert Decimal(n)[..|Decimal(n)| - 1] == Decimal(n / 10);
    }
  }

  lemma {:induction false} WordThenSpace(word: Bytes, rest: Bytes)
    requires (forall i | 0 <= i < |word| :: !IsSpace(word[i])) && (rest == [] || IsSpace(rest[0]))
    ensures WordLength(word + rest) == |word|
  {
    if word == [] {
      assert word + rest == rest;
    } else {
      assert (word + rest)[1..] == word[1..] + rest;
      WordThenSpace(word[1..], rest);
    }
  }

  lemma FirstField(word: Bytes, rest: Bytes)
    requires IsWord(word) && (rest == [] || IsSpace(rest[0]))
    ensures Fields(word + rest) == [word] + Fields(rest)
  {
    WordThenSpace(word, rest);
    assert (word + rest)[..|word|] == word && (word + rest)[|word|..] == rest;
  }

  lemma HeaderSize(blob: Blob)
    requires blob.Valid()
    ensures SizeIn(Header(blob)) == Some(|blob.data|)
  {
    hide ParseDecimal, Decimal, WordLength;
    var size := Decimal(|blob.data|);
    var afterOid := [SPACE] + blob.kind + [SPACE] + size;
    assert Header(blob) == blob.oid + afterOid;
    FirstField(blob.oid, afterOid);
    assert afterOid[1..] == blob.kind + ([SPACE] + size);
    FirstField(blob.kind, [SPACE] + size);
    assert ([SPACE] + size)[1..] == size == size + [];
    FirstField(size, []);
    DecimalParses(|blob.data|);
  }

  lemma HeaderHasNoNewline(blob: Blob, i: nat)
    requires blob.Valid() && i < |Header(blob)|
    ensures Header(blob)[i] != NEWLINE
  {
    var head := blob.oid + [SPACE] + blob.kind + [SPACE];
    if i >= |head| {
      assert Header(blob)[i] == Decimal(|blob.data|)[i - |head|];
    }
  }

  /** Wherever a record stands in the reply, reading it gives its exact bytes and the offset of what follows. */
  lemma RecordReads(before: Bytes, blob: Blob, after: Bytes)
    requires blob.Valid()
    ensures ReadRecord(before + Record(blob) + after, |before|) == Some((blob.data, |before| + |Record(blob)|))
  {
    var batch := before + Record(blob) + after;
    var headerEnd := |before| + |Header(blob)|;
    forall i | |before| <= i < headerEnd ensures batch[i] != NEWLINE {
      HeaderHasNoNewline(blob, i - |before|);
      assert batch[i] == Header(blob)[i - |before|];
    }
    assert batch[headerEnd] == NEWLINE;
    assert IndexOf(batch, NEWLINE, |before|) == Some(headerEnd);
    assert batch[|before|..headerEnd] == Header(blob);
    HeaderSize(blob);
    assert batch[headerEnd + 1..headerEnd + 1 + |blob.data|] == blob.data;
  }

  /** The reader inverts the batch format, whatever bytes the blobs hold, and stops exactly at the end. */
  lemma {:induction false} ReaderInvertsBatch(before: Bytes, blobs: seq<Blob>)
    requires forall i | 0 <= i < |blobs| :: blobs[i].Valid()
    ensures ReadRecords(before + Batch(blobs), |before|, |blobs|)
            == Some((DataOf(blobs), |before| + |Batch(blobs)|))
    decreases |blobs|
  {
    hide ReadRecord, Record;
    if blobs != [] {
      var next := before + Record(blobs[0]);
      assert before + Batch(blobs) == next + Batch(blobs[1..]);
      RecordReads(before, blobs[0], Batch(blobs[1..]));
      ReaderInvertsBatch(next, blobs[1..]);
      assert DataOf(blobs) == [blobs[0].data] + DataOf(blobs[1..]);
    }
  }
}
