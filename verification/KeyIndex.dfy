/** The key index and its two ways of being saved (common/index/index.cpp). A file is its bytes. */
module KeyIndex {
  import opened Bytes
  import opened TableInit
  import opened IndexSpec

  /** pwrite: bytes past the end are appended, a gap reads as zeros, nothing is truncated. */
  function Pwrite(file: Bytes, data: Bytes, off: nat): (r: Bytes)
    ensures |r| == if |file| < off + |data| then off + |data| else |file|
    ensures r[off..off + |data|] == data
    ensures off <= |file| ==> r[..off] == file[..off]
    ensures off + |data| <= |file| ==> r[off + |data|..] == file[off + |data|..]
    ensures |file| < off ==> r[..|file|] == file && forall k :: |file| <= k < off ==> r[k] == 0
  {
    var padded := if |file| < off then file + seq(off - |file|, _ => 0) else file;
    if |padded| < off + |data| then padded[..off] + data
    else padded[..off] + data + padded[off + |data|..]
  }

  /** What is on file up to `offset` and what waits in the chunk are the first `i` records. */
  ghost predicate Written(saved: Bytes, offset: nat, chunk: Bytes, idx: KeyIndex, order: seq<nat>, i: nat) {
    && i <= |order| && offset <= |saved| && (forall j :: 0 <= j < |order| ==> order[j] in idx)
    && saved[..offset] + chunk == Header(|order|) + Records(idx, order[..i])
  }

  lemma NextRecord(saved: Bytes, offset: nat, chunk: Bytes, idx: KeyIndex, order: seq<nat>, i: nat)
    requires Written(saved, offset, chunk, idx, order, i) && i < |order|
    ensures Written(saved, offset, chunk + Record(order[i], idx[order[i]]), idx, order, i + 1)
  {
    var r := Record(order[i], idx[order[i]]);
    assert order[..i + 1][..i] == order[..i];
    assert Records(idx, order[..i + 1]) == Records(idx, order[..i]) + r;
    assert saved[..offset] + (chunk + r) == (saved[..offset] + chunk) + r;
  }

  lemma NoneWritten(saved: Bytes, idx: KeyIndex, order: seq<nat>)
    requires forall j :: 0 <= j < |order| ==> order[j] in idx
    requires |saved| >= 2 * WORD && saved[..2 * WORD] == Header(|order|)
    ensures Written(saved, 2 * WORD, [], idx, order, 0)
  {
    assert Records(idx, order[..0]) == [];
  }

  lemma AllWritten(saved: Bytes, offset: nat, idx: KeyIndex, order: seq<nat>)
    requires Enumerates(order, idx) && Written(saved, offset, [], idx, order, |order|)
    ensures Saves(saved, idx, order) && offset == 2 * WORD + RECORD * |order|
  {
    assert order[..|order|] == order;
    assert saved[..offset] + [] == saved[..offset];
  }

  lemma NextLine(idx: KeyIndex, order: seq<nat>, i: nat, text: string)
    requires i < |order| && (forall k :: k in order ==> k in idx)
    ensures text + Text(idx, order[i..]) == (text + Line(order[i], idx[order[i]])) + Text(idx, order[i + 1..])
  {
    assert order[i..][1..] == order[i + 1..] && order[i..][0] == order[i];
  }

  lemma Adjacent(b: Bytes, i: nat, j: nat, k: nat)
    requires i <= j <= k <= |b|
    ensures b[i..j] + b[j..k] == b[i..k]
  {
  }

  /** From `end` on the file is what it was before. */
  ghost predicate Beyond(saved: Bytes, file: Bytes, end: nat) {
    end <= |saved| && saved[end..] == if end <= |file| then file[end..] else []
  }

  lemma BeyondMore(saved: Bytes, next: Bytes, file: Bytes, offset: nat, end: nat)
    requires Beyond(saved, file, offset) && offset <= end && Beyond(next, saved, end)
    ensures Beyond(next, file, end)
  {
    if end <= |saved| {
      assert saved[end..] == saved[offset..][end - offset..];
      if offset <= |file| {
        assert |saved| == |file|;
        assert file[end..] == file[offset..][end - offset..];
      }
    }
  }

  class Index {
    var index: KeyIndex

    constructor ()
      ensures index == map[]
    {
      index := map[];
    }

    method IndexGet(key: nat) returns (found: bool, item: Item)
      ensures found <==> key in index
      ensures found ==> item == index[key]
    {
      if key !in index { return false, Item(0, 0); }
      return true, index[key];
    }

    method IndexPut(key: nat, item: Item)
      modifies this
      ensures index == old(index)[key := item]
    {
      index := index[key := item];
    }

    /** Writes over a previous file. `order` is the order in which the hash table is walked. */
    method Serialize(order: seq<nat>, file: Bytes) returns (saved: Bytes)
      requires Enumerates(order, index)
      ensures Saves(saved, index, order)
      ensures Beyond(saved, file, 2 * WORD + RECORD * |order|)
    {
      ghost var offset;
      saved, offset := WriteRecords(index, order, file);
      AllWritten(saved, offset, index, order);
    }

    // The header, then the records in chunks.
    static method WriteRecords(idx: KeyIndex, order: seq<nat>, file: Bytes) returns (saved: Bytes, ghost end: nat)
      requires forall j :: 0 <= j < |order| ==> order[j] in idx
      ensures Written(saved, end, [], idx, order, |order|)
      ensures Beyond(saved, file, end)
    {
      saved := WriteHeader(file, |order|);
      var chunk: Bytes, offset: nat := [], 2 * WORD;
      NoneWritten(saved, idx, order);
      for i := 0 to |order|
        invariant |chunk| % RECORD == 0 && |chunk| <= CHUNK && Beyond(saved, file, offset)
        invariant Written(saved, offset, chunk, idx, order, i)
      {
        ghost var had, at := saved, offset;
        saved, offset, chunk := WriteRecord(idx, order, i, saved, offset, chunk);
        BeyondMore(had, saved, file, at, offset);
      }
      if |chunk| > 0 {
        ghost var had, at := saved, offset;
        saved, offset, chunk := Flush(saved, chunk, offset);
        BeyondMore(had, saved, file, at, offset);
      }
      end := offset;
    }

    // A full chunk goes out first; a record never straddles two chunks.
    static method WriteRecord(idx: KeyIndex, order: seq<nat>, i: nat, saved: Bytes, offset: nat, chunk: Bytes)
      returns (saved': Bytes, offset': nat, chunk': Bytes)
      requires Written(saved, offset, chunk, idx, order, i) && i < |order| && |chunk| % RECORD == 0 && |chunk| <= CHUNK
      ensures Written(saved', offset', chunk', idx, order, i + 1) && |chunk'| % RECORD == 0 && |chunk'| <= CHUNK
      ensures offset <= offset' && Beyond(saved', saved, offset')
    {
      saved', offset', chunk' := saved, offset, chunk;
      if |chunk| == CHUNK {
        saved', offset', chunk' := Flush(saved, chunk, offset);
      }
      NextRecord(saved', offset', chunk', idx, order, i);
      chunk' := chunk' + Record(order[i], idx[order[i]]);
    }

    static method WriteHeader(file: Bytes, n: nat) returns (saved: Bytes)
      ensures Beyond(saved, file, 2 * WORD) && saved[..2 * WORD] == Header(n)
    {
      saved := Pwrite(file, Word(2 * WORD + RECORD * n), 0);
      ghost var first := saved;
      saved := Pwrite(saved, Word(n), WORD);
      BeyondMore(first, saved, file, WORD, 2 * WORD);
      assert saved[..2 * WORD] == saved[..WORD] + saved[WORD..2 * WORD];
    }

    // Writes the chunk out and moves on behind it.
    static method Flush(saved: Bytes, chunk: Bytes, offset: nat) returns (saved': Bytes, offset': nat, chunk': Bytes)
      requires offset <= |saved|
      ensures offset' == offset + |chunk| && Beyond(saved', saved, offset') && chunk' == []
      ensures saved'[..offset'] + chunk' == saved[..offset] + chunk
    {
      saved' := Pwrite(saved, chunk, offset);
      offset', chunk' := offset + |chunk|, [];
      assert saved'[..offset'] == saved'[..offset] + saved'[offset..offset'];
    }

    /** Reads the file in chunks; a file shorter than its header says stops the process. */
    method DeSerialize(file: Bytes) returns (ok: bool)
      requires |file| >= 2 * WORD
      modifies this
      ensures var size := Decode(file[..WORD]);
              && (ok <==> size <= |file|)
              && (ok ==> index == if size <= 2 * WORD then old(index) else Load(old(index), file[2 * WORD..size]))
    {
      var size, offset := Decode(file[..WORD]), 2 * WORD;
      while offset < size
        invariant 2 * WORD <= offset <= |file| && (if size <= 2 * WORD then offset == 2 * WORD else offset <= size)
        invariant (offset - 2 * WORD) % RECORD == 0 || offset == size
        invariant index == Load(old(index), file[2 * WORD..offset])
        decreases size - offset
      {
        var readSize := if offset + CHUNK <= size then CHUNK else size - offset;
        if offset + readSize > |file| { return false; }
        ghost var before, start := index, offset;
        var buf := file[offset..offset + readSize];
        offset := offset + readSize;
        LoadChunk(buf);
        Adjacent(file, 2 * WORD, start, offset);
        LoadAppend(old(index), file[2 * WORD..start], buf);
      }
      return size <= |file|;
    }

    // The records of one chunk.
    method LoadChunk(buf: Bytes)
      modifies this
      ensures index == Load(old(index), buf)
    {
      for i := 0 to |buf| / RECORD
        invariant Load(index, buf[RECORD * i..]) == Load(old(index), buf)
      {
        var at := RECORD * i;
        ghost var rest := buf[at..];
        var key := Decode(buf[at..at + 8]);
        var item := Item(Decode(buf[at + 8..at + 16]), Decode(buf[at + 16..at + 24]));
        assert rest[..8] == buf[at..at + 8] && rest[8..16] == buf[at + 8..at + 16] && rest[16..24] == buf[at + 16..at + 24];
        assert rest[RECORD..] == buf[RECORD * (i + 1)..];
        IndexPut(key, item);
      }
    }

    /** The whole file is replaced. */
    method Serialize2(order: seq<nat>) returns (text: string)
      requires Enumerates(order, index)
      ensures text == Text(index, order)
    {
      text := WriteLines(index, order);
    }

    static method WriteLines(idx: KeyIndex, order: seq<nat>) returns (text: string)
      requires forall k :: k in order ==> k in idx
      ensures text == Text(idx, order)
    {
      text := "";
      for i := 0 to |order|
        invariant text + Text(idx, order[i..]) == Text(idx, order)
      {
        NextLine(idx, order, i, text);
        text := text + Line(order[i], idx[order[i]]);
      }
    }

    /** `junk` is what the two number variables hold when they cannot be read. */
    method DeSerialize2(text: string, junk: Item)
      modifies this
      ensures index == LoadText(old(index), text, junk)
    {
      var s, more := text, true;
      while more
        invariant LoadText(old(index), text, junk) == if more then LoadText(index, s, junk) else index
        decreases if more then |s| + 1 else 0
      {
        var e := Extract(s);
        if e.NoNumber? {
          more := false;
        } else {
          var key, item := e.value, junk;
          var e1 := Extract(e.rest);
          if e1.NoNumber? {
            more := false;
          } else {
            item := item.(pageId := e1.value);
            var e2 := Extract(e1.rest);
            if e2.NoNumber? {
              more := false;
            } else {
              item := item.(location := e2.value);
              s := e2.rest;
            }
          }
          if key !in index {
            index := index[key := item];
          }
        }
      }
    }
  }

  /** Saving over any previous file and loading gives the starting map overridden by the saved one. */
  method BinaryRoundTrip(a: Index, order: seq<nat>, previous: Bytes, b: Index) returns (ok: bool)
    requires a != b && Enumerates(order, a.index) && AllU64(a.index) && IsU64(2 * WORD + RECORD * |order|)
    modifies b
    ensures ok && b.index == old(b.index) + a.index
  {
    var file := a.Serialize(order, previous);
    SavedLoads(file, b.index, a.index, order);
    ok := b.DeSerialize(file);
    assert order == [] ==> old(b.index) + a.index == old(b.index);
  }

  /** By text the existing entries win: an empty index is restored exactly. */
  method TextRoundTrip(a: Index, order: seq<nat>, b: Index, junk: Item)
    requires a != b && Enumerates(order, a.index) && AllU64(a.index)
    modifies b
    ensures b.index == a.index + old(b.index)
  {
    var text := a.Serialize2(order);
    SavedTextLoads(b.index, a.index, order, junk);
    b.DeSerialize2(text, junk);
  }
}
