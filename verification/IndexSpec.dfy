/** File formats of the key index (common/index/index.cpp): what a saved file means. */
module IndexSpec {
  import opened Bytes
  import opened TableInit

  const RECORD: nat := 24
  const CHUNK: nat := 524280

  ghost predicate AllU64(idx: KeyIndex) {
    forall k :: k in idx ==> IsU64(k) && IsU64(idx[k].pageId) && IsU64(idx[k].location)
  }

  /** `order` lists every key once, in whatever order the hash table yields them. */
  ghost predicate Enumerates(order: seq<nat>, idx: KeyIndex) {
    && (forall k :: k in idx <==> k in order)
    && (forall i, j :: 0 <= i < j < |order| ==> order[i] != order[j])
  }

  function Only(idx: KeyIndex, order: seq<nat>): KeyIndex {
    map k | k in order && k in idx :: idx[k]
  }

  // ---------------------------------------------------------------- binary records

  function Record(key: nat, it: Item): (r: Bytes)
    ensures |r| == RECORD
  {
    Word(key) + Word(it.pageId) + Word(it.location)
  }

  function Records(idx: KeyIndex, order: seq<nat>): (r: Bytes)
    requires forall k :: k in order ==> k in idx
    ensures |r| == RECORD * |order|
  {
    if order == [] then []
    else Records(idx, order[..|order| - 1]) + Record(order[|order| - 1], idx[order[|order| - 1]])
  }

  /** Enter the records of `b` one after the other; a trailing part record is ignored. */
  function Load(m: KeyIndex, b: Bytes): KeyIndex
    decreases |b|
  {
    if |b| < RECORD then m
    else Load(m[Decode(b[..8]) := Item(Decode(b[8..16]), Decode(b[16..24]))], b[RECORD..])
  }

  /** A cut between records is invisible. */
  lemma {:induction false} LoadAppend(m: KeyIndex, a: Bytes, b: Bytes)
    requires |a| % RECORD == 0
    ensures Load(m, a + b) == Load(Load(m, a), b)
    decreases |a|
  {
    if a == [] {
      assert a + b == b;
    } else {
      var c := a + b;
      assert c[..8] == a[..8] && c[8..16] == a[8..16] && c[16..24] == a[16..24];
      assert c[RECORD..] == a[RECORD..] + b;
      LoadAppend(m[Decode(a[..8]) := Item(Decode(a[8..16]), Decode(a[16..24]))], a[RECORD..], b);
    }
  }

  lemma LoadRecord(m: KeyIndex, key: nat, it: Item)
    requires IsU64(key) && IsU64(it.pageId) && IsU64(it.location)
    ensures Load(m, Record(key, it)) == m[key := it]
  {
    var b := Record(key, it);
    assert b[..8] == Word(key) && b[8..16] == Word(it.pageId) && b[16..24] == Word(it.location);
    WordRoundTrip(key);
    WordRoundTrip(it.pageId);
    WordRoundTrip(it.location);
    assert b[RECORD..] == [];
  }

  lemma {:induction false} LoadRecords(m: KeyIndex, idx: KeyIndex, order: seq<nat>)
    requires AllU64(idx) && forall k :: k in order ==> k in idx
    ensures Load(m, Records(idx, order)) == m + Only(idx, order)
  {
    if order == [] {
      assert m + Only(idx, order) == m;
    } else {
      var rest, key := order[..|order| - 1], order[|order| - 1];
      assert order == rest + [key];
      LoadRecords(m, idx, rest);
      LoadAppend(m, Records(idx, rest), Record(key, idx[key]));
      LoadRecord(Load(m, Records(idx, rest)), key, idx[key]);
      OnlyAppend(m, idx, rest, key);
    }
  }

  lemma OnlyAppend(m: KeyIndex, idx: KeyIndex, rest: seq<nat>, key: nat)
    requires key in idx
    ensures (m + Only(idx, rest))[key := idx[key]] == m + Only(idx, rest + [key])
  {
  }

  lemma OnlyAll(idx: KeyIndex, order: seq<nat>)
    requires Enumerates(order, idx)
    ensures Only(idx, order) == idx
  {
  }

  function Header(n: nat): (r: Bytes)
    ensures |r| == 2 * WORD
  {
    Word(2 * WORD + RECORD * n) + Word(n)
  }

  /** A file that starts with this saves `idx`; what follows may be left over from a longer file. */
  ghost predicate Saves(file: Bytes, idx: KeyIndex, order: seq<nat>)
    requires Enumerates(order, idx)
  {
    Header(|order|) + Records(idx, order) <= file
  }

  /** The first word is the size of the saved part, the second the number of keys. */
  lemma SavedHeader(file: Bytes, idx: KeyIndex, order: seq<nat>)
    requires Enumerates(order, idx) && Saves(file, idx, order) && IsU64(2 * WORD + RECORD * |order|)
    ensures 2 * WORD + RECORD * |order| <= |file|
    ensures Decode(file[..WORD]) == 2 * WORD + RECORD * |order| && Decode(file[WORD..2 * WORD]) == |order|
  {
    WordRoundTrip(2 * WORD + RECORD * |order|);
    WordRoundTrip(|order|);
    assert file[..WORD] == Word(2 * WORD + RECORD * |order|) && file[WORD..2 * WORD] == Word(|order|);
  }

  /** Loading a saved index gives the starting map overridden by the saved one. */
  lemma SavedLoads(file: Bytes, m: KeyIndex, idx: KeyIndex, order: seq<nat>)
    requires Enumerates(order, idx) && AllU64(idx) && Saves(file, idx, order) && IsU64(2 * WORD + RECORD * |order|)
    ensures var size := Decode(file[..WORD]);
            2 * WORD <= size <= |file| && Load(m, file[2 * WORD..size]) == m + idx
  {
    SavedHeader(file, idx, order);
    assert file[2 * WORD..2 * WORD + RECORD * |order|] == Records(idx, order);
    LoadRecords(m, idx, order);
    OnlyAll(idx, order);
  }

  /** Record `i` stands at its place in the file: key, page, offset. */
  lemma SavedRecord(file: Bytes, idx: KeyIndex, order: seq<nat>, i: nat)
    requires Enumerates(order, idx) && AllU64(idx) && Saves(file, idx, order) && i < |order|
    ensures var at := 2 * WORD + RECORD * i;
            at + RECORD <= |file| && Decode(file[at..at + 8]) == order[i]
            && Decode(file[at + 8..at + 16]) == idx[order[i]].pageId && Decode(file[at + 16..at + 24]) == idx[order[i]].location
  {
    var at, key := 2 * WORD + RECORD * i, order[i];
    RecordPlace(idx, order, i);
    RecordParts(file, at, key, idx[key]);
    WordRoundTrip(key);
    WordRoundTrip(idx[key].pageId);
    WordRoundTrip(idx[key].location);
  }

  lemma RecordParts(file: Bytes, at: nat, key: nat, it: Item)
    requires at + RECORD <= |file| && file[at..at + RECORD] == Record(key, it)
    ensures file[at..at + 8] == Word(key) && file[at + 8..at + 16] == Word(it.pageId) && file[at + 16..at + 24] == Word(it.location)
  {
    var b := file[at..at + RECORD];
    assert b[..8] == Word(key) && b[8..16] == Word(it.pageId) && b[16..24] == Word(it.location);
    assert file[at..at + 8] == b[..8] && file[at + 8..at + 16] == b[8..16] && file[at + 16..at + 24] == b[16..24];
  }

  lemma {:induction false} RecordPlace(idx: KeyIndex, order: seq<nat>, i: nat)
    requires (forall k :: k in order ==> k in idx) && i < |order|
    ensures RECORD * i + RECORD <= RECORD * |order|
    ensures Records(idx, order)[RECORD * i..RECORD * i + RECORD] == Record(order[i], idx[order[i]])
  {
    var rest := order[..|order| - 1];
    if i < |rest| {
      RecordPlace(idx, rest, i);
      assert Records(idx, order)[RECORD * i..RECORD * i + RECORD] == Records(idx, rest)[RECORD * i..RECORD * i + RECORD];
    }
  }

  // ---------------------------------------------------------------- decimal text

  function Digit(d: nat): char
    requires d < 10
  {
    "0123456789"[d]
  }

  predicate IsDigit(c: char) {
    '0' <= c <= '9'
  }

  function DigitValue(c: char): (d: nat)
    requires IsDigit(c)
    ensures d < 10
  {
    c as int - '0' as int
  }

  function Decimal(x: nat): (s: string)
    ensures s != [] && forall i :: 0 <= i < |s| ==> IsDigit(s[i])
  {
    if x < 10 then [Digit(x)] else Decimal(x / 10) + [Digit(x % 10)]
  }

  function Value(s: string): nat
    requires forall i :: 0 <= i < |s| ==> IsDigit(s[i])
  {
    if s == [] then 0 else 10 * Value(s[..|s| - 1]) + DigitValue(s[|s| - 1])
  }

  lemma {:induction false} DecimalValue(x: nat)
    ensures Value(Decimal(x)) == x
  {
    if x >= 10 {
      DecimalValue(x / 10);
      var s := Decimal(x);
      assert s[..|s| - 1] == Decimal(x / 10);
    } else {
      assert Decimal(x)[..0] == [];
    }
  }

  /** No leading zeros, and the digits are those of the decimal system. */
  lemma {:induction false} DecimalShape(x: nat)
    ensures Decimal(x)[0] == '0' <==> x == 0
    ensures if x < 10 then Decimal(x) == [(48 + x) as char] else Decimal(x) == Decimal(x / 10) + Decimal(x % 10)
  {
    if x >= 10 { DecimalShape(x / 10); }
  }

  /** Length of the leading run of digits. */
  function DigitRun(s: string): (n: nat)
    ensures n <= |s| && (forall i :: 0 <= i < n ==> IsDigit(s[i])) && (n < |s| ==> !IsDigit(s[n]))
  {
    if s == [] || !IsDigit(s[0]) then 0 else 1 + DigitRun(s[1..])
  }

  /** `ss >> x` for an unsigned 64-bit x: skip blanks, take digits; no digits or an overflow fail. */
  datatype Extracted = NoNumber | Number(value: nat, rest: string)

  function Extract(s: string): (r: Extracted)
    ensures r.Number? ==> |r.rest| < |s|
  {
    if s != [] && s[0] == ' ' then Extract(s[1..]) else
    var n := DigitRun(s);
    if n == 0 || !IsU64(Value(s[..n])) then NoNumber else Number(Value(s[..n]), s[n..])
  }

  lemma {:induction false} DigitRunStops(d: string, rest: string)
    requires (forall i :: 0 <= i < |d| ==> IsDigit(d[i])) && (rest == [] || !IsDigit(rest[0]))
    ensures DigitRun(d + rest) == |d|
  {
    if d == [] {
      assert d + rest == rest;
    } else {
      assert (d + rest)[1..] == d[1..] + rest;
      DigitRunStops(d[1..], rest);
    }
  }

  lemma ExtractDecimal(x: nat, rest: string)
    requires IsU64(x) && (rest == [] || !IsDigit(rest[0]))
    ensures Extract(Decimal(x) + rest) == Number(x, rest)
  {
    var d := Decimal(x);
    DigitRunStops(d, rest);
    DecimalValue(x);
    assert (d + rest)[..|d|] == d && (d + rest)[|d|..] == rest;
    assert (d + rest)[0] == d[0];
  }

  lemma ExtractBlank(s: string)
    ensures Extract(" " + s) == Extract(s)
  {
    assert (" " + s)[1..] == s;
  }

  function Line(key: nat, it: Item): string {
    Decimal(key) + " " + Decimal(it.pageId) + " " + Decimal(it.location) + " "
  }

  function Text(idx: KeyIndex, order: seq<nat>): string
    requires forall k :: k in order ==> k in idx
  {
    if order == [] then "" else Line(order[0], idx[order[0]]) + Text(idx, order[1..])
  }

  /** unordered_map::insert keeps an existing entry. */
  function InsertNew(m: KeyIndex, key: nat, it: Item): KeyIndex {
    if key in m then m else m[key := it]
  }

  /** Reads triples until no key can be read. A key without both numbers is entered with whatever
      the variables hold, `junk`, and ends the reading. */
  function LoadText(m: KeyIndex, s: string, junk: Item): KeyIndex
    decreases |s|
  {
    match Extract(s)
    case NoNumber => m
    case Number(key, s1) =>
      match Extract(s1)
      case NoNumber => InsertNew(m, key, junk)
      case Number(page, s2) =>
        match Extract(s2)
        case NoNumber => InsertNew(m, key, Item(page, junk.location))
        case Number(loc, s3) => LoadText(InsertNew(m, key, Item(page, loc)), s3, junk)
  }

  lemma LoadNumbers(m: KeyIndex, s: string, key: nat, s1: string, it: Item, s2: string, s3: string, junk: Item)
    requires Extract(s) == Number(key, s1) && Extract(s1) == Number(it.pageId, s2) && Extract(s2) == Number(it.location, s3)
    ensures LoadText(m, s, junk) == LoadText(InsertNew(m, key, it), s3, junk)
  {
  }

  lemma LineParts(key: nat, it: Item, rest: string)
    ensures Line(key, it) + rest ==
            Decimal(key) + (" " + (Decimal(it.pageId) + (" " + (Decimal(it.location) + (" " + rest)))))
  {
  }

  lemma ExtractNext(k: nat, rest: string)
    requires IsU64(k)
    ensures Extract(" " + (Decimal(k) + (" " + rest))) == Number(k, " " + rest)
  {
    ExtractBlank(Decimal(k) + (" " + rest));
    ExtractDecimal(k, " " + rest);
  }

  // Reading one line leaves the blank that ends it.
  lemma LoadLine(m: KeyIndex, key: nat, it: Item, rest: string, junk: Item)
    requires IsU64(key) && IsU64(it.pageId) && IsU64(it.location)
    ensures LoadText(m, Line(key, it) + rest, junk) == LoadText(InsertNew(m, key, it), " " + rest, junk)
  {
    var s2 := Decimal(it.location) + (" " + rest);
    var s1 := Decimal(it.pageId) + (" " + s2);
    LineParts(key, it, rest);
    ExtractDecimal(key, " " + s1);
    ExtractNext(it.pageId, s2);
    ExtractNext(it.location, rest);
    LoadNumbers(m, Decimal(key) + (" " + s1), key, " " + s1, it, " " + s2, " " + rest, junk);
  }

  // A leading blank does not matter.
  lemma LoadBlank(m: KeyIndex, s: string, junk: Item)
    ensures LoadText(m, " " + s, junk) == LoadText(m, s, junk)
  {
    ExtractBlank(s);
  }

  lemma {:induction false} LoadLines(m: KeyIndex, idx: KeyIndex, order: seq<nat>, junk: Item)
    requires AllU64(idx) && forall k :: k in order ==> k in idx
    ensures LoadText(m, Text(idx, order), junk) == Only(idx, order) + m
    decreases |order|
  {
    if order == [] {
      assert Only(idx, order) + m == m;
    } else {
      var key, rest := order[0], order[1..];
      LoadLine(m, key, idx[key], Text(idx, rest), junk);
      LoadBlank(InsertNew(m, key, idx[key]), Text(idx, rest), junk);
      LoadLines(InsertNew(m, key, idx[key]), idx, rest, junk);
      OnlyInsert(m, idx, key, rest);
      assert order == [key] + rest;
    }
  }

  lemma OnlyInsert(m: KeyIndex, idx: KeyIndex, key: nat, rest: seq<nat>)
    requires key in idx
    ensures Only(idx, rest) + InsertNew(m, key, idx[key]) == Only(idx, [key] + rest) + m
  {
  }

  /** Reading a saved text index restores it exactly into an empty index; into a non-empty one it
      keeps the existing entry of a clashing key. */
  lemma SavedTextLoads(m: KeyIndex, idx: KeyIndex, order: seq<nat>, junk: Item)
    requires Enumerates(order, idx) && AllU64(idx)
    ensures LoadText(m, Text(idx, order), junk) == idx + m
    ensures LoadText(map[], Text(idx, order), junk) == idx
  {
    OnlyAll(idx, order);
    LoadLines(m, idx, order, junk);
    LoadLines(map[], idx, order, junk);
    assert idx + map[] == idx;
  }
}
