/** Pages and initial rows (common/storage/tablespace/page.cpp, common/workload/ycsb_wl.cpp). */
module PageLayout {
  import opened Bytes

  const PAGE_SIZE: nat := 16384
  const HEADER: nat := 64

  datatype Page = Page(pageId: nat, pageSize: nat, usedSize: nat, version: nat, buf: Bytes)

  /** The header fields are stored in the first four words of the page. */
  function Serialize(p: Page): Bytes
    requires |p.buf| == PAGE_SIZE
  {
    Word(p.pageId) + Word(p.pageSize) + Word(p.usedSize) + Word(p.version) + p.buf[4 * WORD..]
  }

  function Deserialize(buf: Bytes): Page
    requires |buf| == PAGE_SIZE
  {
    Page(Decode(buf[..WORD]), Decode(buf[WORD..2 * WORD]), Decode(buf[2 * WORD..3 * WORD]), Decode(buf[3 * WORD..4 * WORD]), buf)
  }

  /** Reading the header and writing it back leaves the page as it was. */
  lemma SerializeDeserialize(buf: Bytes)
    requires |buf| == PAGE_SIZE
    ensures Serialize(Deserialize(buf)) == buf
  {
    WordOfBytes(buf[..WORD]);
    WordOfBytes(buf[WORD..2 * WORD]);
    WordOfBytes(buf[2 * WORD..3 * WORD]);
    WordOfBytes(buf[3 * WORD..4 * WORD]);
  }

  /** Writing the header and reading it back restores all four fields. */
  lemma DeserializeSerialize(p: Page)
    requires |p.buf| == PAGE_SIZE && IsU64(p.pageId) && IsU64(p.pageSize) && IsU64(p.usedSize) && IsU64(p.version)
    ensures |Serialize(p)| == PAGE_SIZE && Deserialize(Serialize(p)) == p.(buf := Serialize(p))
  {
    var b := Serialize(p);
    assert b[..WORD] == Word(p.pageId) && b[WORD..2 * WORD] == Word(p.pageSize);
    assert b[2 * WORD..3 * WORD] == Word(p.usedSize) && b[3 * WORD..4 * WORD] == Word(p.version);
    WordRoundTrip(p.pageId);
    WordRoundTrip(p.pageSize);
    WordRoundTrip(p.usedSize);
    WordRoundTrip(p.version);
  }

  /** A stored page announces its own id, and its rows are untouched. */
  lemma SerializedHeader(p: Page)
    requires |p.buf| == PAGE_SIZE && IsU64(p.pageId)
    ensures |Serialize(p)| == PAGE_SIZE
    ensures Deserialize(Serialize(p)).pageId == p.pageId
    ensures Serialize(p)[HEADER..] == p.buf[HEADER..]
  {
    WordRoundTrip(p.pageId);
    assert Serialize(p)[..WORD] == Word(p.pageId);
  }

  /** Id, page size, used size and version are the first four words; everything behind them is the buffer's. */
  lemma HeaderWords(p: Page)
    requires |p.buf| == PAGE_SIZE
    ensures var b := Serialize(p);
            && |b| == PAGE_SIZE && b[4 * WORD..] == p.buf[4 * WORD..]
            && b[..WORD] == Word(p.pageId) && b[WORD..2 * WORD] == Word(p.pageSize)
            && b[2 * WORD..3 * WORD] == Word(p.usedSize) && b[3 * WORD..4 * WORD] == Word(p.version)
  {
  }

  // ---------------------------------------------------------------- rows

  function Filled(size: nat): Bytes {
    seq(size, _ => 'a' as int)
  }

  /** What init_table writes for `key`: the key, filler, and version 0 in the last word. */
  function StampRow(row: Bytes, key: nat): Bytes {
    if |row| < WORD then row else Splice(Splice(row, 0, Word(key)), |row| - WORD, Word(0))
  }

  function InitialRow(size: nat, key: nat): Bytes {
    StampRow(Filled(size), key)
  }

  function KeyOf(row: Bytes): nat
    requires |row| >= WORD
  {
    Decode(row[..WORD])
  }

  // Byte by byte: the version word is written last.
  lemma StampAt(row: Bytes, key: nat, i: nat)
    requires |row| >= WORD && i < |row|
    ensures |StampRow(row, key)| == |row|
    ensures StampRow(row, key)[i] ==
            if i >= |row| - WORD then Word(0)[i - (|row| - WORD)] else if i < WORD then Word(key)[i] else row[i]
  {
  }

  /** The row buffer is reused: stamping over an earlier row gives the same as over a fresh one. */
  lemma StampAgain(size: nat, before: nat, key: nat)
    requires size >= WORD
    ensures |InitialRow(size, key)| == size
    ensures StampRow(InitialRow(size, before), key) == InitialRow(size, key)
  {
    StampAt(Filled(size), before, 0);
    StampAt(Filled(size), key, 0);
    StampAt(InitialRow(size, before), key, 0);
    forall i | 0 <= i < size ensures StampRow(InitialRow(size, before), key)[i] == InitialRow(size, key)[i] {
      StampAt(Filled(size), before, i);
      StampAt(Filled(size), key, i);
      StampAt(InitialRow(size, before), key, i);
    }
  }

  /** A row of 16 bytes or more carries its key; a shorter one only keys that fit in front of the
      version word. */
  lemma InitialRowKey(size: nat, key: nat)
    requires size >= WORD && IsU64(key)
    ensures |InitialRow(size, key)| == size
    ensures KeyOf(InitialRow(size, key)) == key <==> size >= 2 * WORD || key < Power256(size - WORD)
  {
    var row := InitialRow(size, key);
    WordRoundTrip(key);
    if size >= 2 * WORD {
      assert row[..WORD] == Word(key);
    } else {
      var n := size - WORD;
      assert row[..WORD] == Word(key)[..n] + Word(0)[..WORD - n];
      EncodePrefix(key, WORD, n);
      ZeroBytes(WORD, WORD - n);
      PaddedKey(key, n);
    }
  }

  /** Behind the key and before the version word every byte is the filler; the version is 0. */
  lemma InitialRowRest(size: nat, key: nat)
    requires size >= WORD
    ensures |InitialRow(size, key)| == size
    ensures forall i :: WORD <= i < size - WORD ==> InitialRow(size, key)[i] == 'a' as int
    ensures Decode(InitialRow(size, key)[size - WORD..]) == 0
  {
    var row := InitialRow(size, key);
    StampAt(Filled(size), key, 0);
    forall i | WORD <= i < size - WORD ensures row[i] == 'a' as int { StampAt(Filled(size), key, i); }
    assert row[size - WORD..] == Word(0);
    WordRoundTrip(0);
  }

  lemma {:induction false} EncodePrefix(x: nat, len: nat, n: nat)
    requires n <= len
    ensures Encode(x, len)[..n] == Encode(x, n)
  {
    if n > 0 { EncodePrefix(x / 256, len - 1, n - 1); }
  }

  lemma {:induction false} ZeroBytes(len: nat, n: nat)
    requires n <= len
    ensures Encode(0, len)[..n] == Encode(0, n) && Decode(Encode(0, n)) == 0
  {
    EncodePrefix(0, len, n);
    PowerPositive(n);
    DecodeEncode(0, n);
  }

  lemma PowerPositive(n: nat)
    ensures 0 < Power256(n)
  {
  }

  // Truncating a value to `n` bytes keeps it exactly when it fits.
  lemma {:induction false} PaddedKey(x: nat, n: nat)
    requires n <= WORD
    ensures Decode(Encode(x, n) + Encode(0, WORD - n)) == x <==> x < Power256(n)
  {
    TruncateDecode(x, n, WORD - n);
    if x < Power256(n) { DivModUnique(x, Power256(n), 0, x); }
  }

  lemma {:induction false} TruncateDecode(x: nat, n: nat, z: nat)
    ensures Decode(Encode(x, n) + Encode(0, z)) == x % Power256(n) < Power256(n)
  {
    if n == 0 {
      assert Encode(x, 0) + Encode(0, z) == Encode(0, z);
      ZeroBytes(z, z);
    } else {
      var b := Encode(x, n) + Encode(0, z);
      assert b[1..] == Encode(x / 256, n - 1) + Encode(0, z);
      TruncateDecode(x / 256, n - 1, z);
      ModStep(x, Power256(n - 1));
    }
  }

  lemma ModStep(x: nat, p: nat)
    requires p > 0
    ensures x % (256 * p) == x % 256 + 256 * (x / 256 % p)
  {
    var q, r := x / 256, x % 256;
    assert q == p * (q / p) + q % p;
    assert x == (256 * p) * (q / p) + (r + 256 * (q % p));
    assert 0 <= r + 256 * (q % p) < 256 * p;
    DivModUnique(x, 256 * p, q / p, r + 256 * (q % p));
  }

  lemma DivModUnique(x: nat, d: nat, q: nat, r: nat)
    requires d > 0 && x == d * q + r && r < d
    ensures x / d == q && x % d == r
  {
    var q', r' := x / d, x % d;
    assert x == d * q' + r' && 0 <= r' < d;
    MulApart(d, q, q');
    MulApart(d, q', q);
  }

  lemma MulApart(d: nat, a: int, b: int)
    ensures a < b ==> d * a + d <= d * b
  {
    if a < b {
      assert d * b == d * (a + 1) + d * (b - a - 1);
      assert d * (b - a - 1) >= 0;
    }
  }
}
