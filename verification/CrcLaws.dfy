/** What the checksum of the coroutine example depends on. */
module CrcLaws {
  import opened CrcCoroutine

  function Low(c: bv32): (b: bv8)
  {
    (c & 0xFF) as bv8
  }

  function Join(entry: bv32, crc: bv32): (c: bv32)
  {
    entry ^ (crc << 8)
  }

  function StateAfter(low: bv8, entries: seq<bv32>): (b: bv8)
  {
    if entries == [] then low else Low(entries[|entries| - 1])
  }

  /** The table entries that are looked up, found by an automaton whose state is one byte. */
  function Lookups(table: Table, low: bv8, buf: seq<bv8>): (entries: seq<bv32>)
    ensures |entries| == |buf|
  {
    if buf == [] then []
    else
      var before := Lookups(table, low, buf[..|buf| - 1]);
      before + [table(StateAfter(low, before) ^ buf[|buf| - 1])]
  }

  /** Each entry is shifted by one byte for each entry behind it. */
  function Shifted(crc: bv32, entries: seq<bv32>): (c: bv32)
  {
    if entries == [] then crc else Join(entries[|entries| - 1], Shifted(crc, entries[..|entries| - 1]))
  }

  lemma LowOfMix(entry: bv32, c: bv32)
    ensures Low(Join(entry, c)) == Low(entry)
  {
  }

  lemma LowOfShifted(crc: bv32, entries: seq<bv32>)
    ensures Low(Shifted(crc, entries)) == StateAfter(Low(crc), entries)
  {
    if entries != [] {
      LowOfMix(entries[|entries| - 1], Shifted(crc, entries[..|entries| - 1]));
    }
  }

  function Index(c: bv32, b: bv8): (i: bv8)
  {
    ((c ^ (b as bv32)) & 0xFF) as bv8
  }

  lemma LowOfIndex(c: bv32, b: bv8)
    ensures Index(c, b) == Low(c) ^ b
  {
  }

  lemma {:induction false} UpdateIsShifted(table: Table, crc: bv32, buf: seq<bv8>)
    ensures Update(TableMix(table), crc, buf) == Shifted(crc, Lookups(table, Low(crc), buf))
  {
    if buf != [] {
      var n := |buf| - 1;
      UpdateIsShifted(table, crc, buf[..n]);
      MixIsShifted(table, crc, Lookups(table, Low(crc), buf[..n]), buf[n]);
    }
  }

  lemma MixIsShifted(table: Table, crc: bv32, before: seq<bv32>, b: bv8)
    ensures MixByte(table, Shifted(crc, before), b)
         == Shifted(crc, before + [table(StateAfter(Low(crc), before) ^ b)])
  {
    var low, c := StateAfter(Low(crc), before), Shifted(crc, before);
    LowOfShifted(crc, before);
    MixOf(table, c, b);
    MixIs(table, c, low, b, MixByte(table, c, b));
    AppendShifted(crc, before, table(low ^ b));
  }

  lemma AppendShifted(crc: bv32, before: seq<bv32>, entry: bv32)
    ensures Shifted(crc, before + [entry]) == Join(entry, Shifted(crc, before))
  {
    assert (before + [entry])[..|before|] == before;
  }

  lemma MixOf(table: Table, c: bv32, b: bv8)
    ensures MixByte(table, c, b) == Join(table(Low(c) ^ b), c)
  {
    LowOfIndex(c, b);
  }

  lemma MixIs(table: Table, c: bv32, low: bv8, b: bv8, r: bv32)
    requires Low(c) == low && r == Join(table(Low(c) ^ b), c)
    ensures r == Join(table(low ^ b), c)
  {
  }

  lemma {:induction false} ShiftedConcat(crc: bv32, a: seq<bv32>, b: seq<bv32>)
    ensures Shifted(crc, a + b) == Shifted(Shifted(crc, a), b)
    decreases |b|
  {
    if b == [] {
      assert a + b == a;
    } else {
      var n := |b| - 1;
      assert a + b == (a + b[..n]) + [b[n]] && b == b[..n] + [b[n]];
      AppendShifted(crc, a + b[..n], b[n]);
      ShiftedConcat(crc, a, b[..n]);
      AppendShifted(Shifted(crc, a), b[..n], b[n]);
    }
  }

  lemma ShiftedIsLastFour(crc: bv32, entries: seq<bv32>)
    requires 4 <= |entries|
    ensures Shifted(crc, entries) == Shifted(0, entries[|entries| - 4..])
  {
    var last := |entries| - 3;
    var begin, four, three := entries[..last], entries[last - 1..last], entries[last..];
    assert entries == begin + three && entries[last - 1..] == four + three;
    ShiftedConcat(crc, begin, three);
    ShiftedConcat(0, four, three);
    LowOfShifted(crc, begin);
    LowOfShifted(0, four);
    ShiftedForgets(Shifted(crc, begin), Shifted(0, four), three);
  }

  /**
   * Only the last four entries are in the checksum, and one byte is all that the bytes before them leave
   * behind: what the shift to the left moves out never comes back.
   */
  lemma ChecksumIsLastFour(table: Table, buf: seq<bv8>)
    requires 4 <= |buf|
    ensures OneShot(TableMix(table), buf) == Complement(Shifted(0, Lookups(table, 0xFF, buf)[|buf| - 4..]))
  {
    UpdateIsShifted(table, INITIAL, buf);
    ShiftedIsLastFour(INITIAL, Lookups(table, 0xFF, buf));
  }

  lemma ShortChecksums(table: Table, b: bv8)
    ensures OneShot(TableMix(table), []) == 0
    ensures OneShot(TableMix(table), [b]) == table(0xFF ^ b) ^ 0xFF
  {
    UpdateIsShifted(table, INITIAL, [b]);
    var entries := Lookups(table, 0xFF, [b]);
    assert entries == [table(0xFF ^ b)];
    assert entries[..0] == [];
  }

  /** Two beginnings that lead to the same low byte cannot be told apart three bytes later. */
  lemma BeginningsCollide(table: Table, p: seq<bv8>, q: seq<bv8>, buf: seq<bv8>)
    requires Low(Update(TableMix(table), INITIAL, p)) == Low(Update(TableMix(table), INITIAL, q))
    requires 3 <= |buf|
    ensures OneShot(TableMix(table), p + buf) == OneShot(TableMix(table), q + buf)
  {
    var c, d := Update(TableMix(table), INITIAL, p), Update(TableMix(table), INITIAL, q);
    UpdateConcat(TableMix(table), INITIAL, p, buf);
    UpdateConcat(TableMix(table), INITIAL, q, buf);
    UpdateIsShifted(table, c, buf);
    UpdateIsShifted(table, d, buf);
    ShiftedForgets(c, d, Lookups(table, Low(c), buf));
  }

  lemma ShiftedForgets(c: bv32, d: bv32, entries: seq<bv32>)
    requires Low(c) == Low(d) && 3 <= |entries|
    ensures Shifted(c, entries) == Shifted(d, entries)
    decreases |entries|
  {
    var n := |entries|;
    if n > 3 {
      ShiftedForgets(c, d, entries[..n - 1]);
    } else {
      ForgetsInThree(c, d);
      ShiftedThree(c, entries);
      ShiftedThree(d, entries);
    }
  }

  lemma ShiftedThree(c: bv32, entries: seq<bv32>)
    requires |entries| == 3
    ensures Shifted(c, entries) == entries[2] ^ (entries[1] << 8) ^ (entries[0] << 16) ^ (c << 24)
  {
    var (x, y, z) := (entries[0], entries[1], entries[2]);
    assert entries == [] + [x] + [y] + [z];
    AppendShifted(c, [], x);
    AppendShifted(c, [] + [x], y);
    AppendShifted(c, [] + [x] + [y], z);
    OutOfThree(x, y, z, c);
  }

  lemma ForgetsInThree(c: bv32, d: bv32)
    requires Low(c) == Low(d)
    ensures c << 24 == d << 24
  {
  }

  lemma OutOfThree(x: bv32, y: bv32, z: bv32, c: bv32)
    ensures Join(z, Join(y, Join(x, c))) == z ^ (y << 8) ^ (x << 16) ^ (c << 24)
  {
  }
}
