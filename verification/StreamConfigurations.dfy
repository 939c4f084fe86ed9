/** Deriving the stream tables of a legacy camera from its pre-M tags
    (patches/hardware/interfaces/legacy-huawei-camera-hal.patch). Each table is a flat list of
    rows of four numbers. */
module StreamConfigurations {

  const BLOB := 0x21
  const RAW16 := 0x20
  const RAW_OPAQUE := 0x24
  const RAW10 := 0x25
  const RAW12 := 0x26

  const CONFIGURATIONS_OUTPUT := 0
  const FRAME_DURATION_NS := 33333333
  const JPEG_STALL_NS := 100000000

  // The five tags that are read.
  datatype Tags = Tags(streamConfigs: seq<int>, formats: seq<int>, processedSizes: seq<int>,
                       jpegSizes: seq<int>, rawSizes: seq<int>)

  // A size that a format supports.
  datatype Pair = Pair(format: int, width: int, height: int)

  function SizesFor(t: Tags, format: int): seq<int> {
    if format == BLOB then t.jpegSizes
    else if format == RAW16 || format == RAW10 || format == RAW12 || format == RAW_OPAQUE then t.rawSizes
    else t.processedSizes
  }

  // The whole pairs of a flat size list; an odd element at the end is dropped.
  function Pairs(format: int, sizes: seq<int>): (pairs: seq<Pair>)
    ensures |pairs| == |sizes| / 2
  {
    seq(|sizes| / 2, i requires 0 <= i < |sizes| / 2 => Pair(format, sizes[2 * i], sizes[2 * i + 1]))
  }

  // Every pair of every format, in input order.
  function AllPairs(t: Tags, formats: seq<int>): seq<Pair> {
    if formats == [] then []
    else
      var last := formats[|formats| - 1];
      AllPairs(t, formats[..|formats| - 1]) + Pairs(last, SizesFor(t, last))
  }

  function Stall(format: int): int { if format == BLOB then JPEG_STALL_NS else 0 }

  // `table` has one row per pair, whose fourth column is `value` of the pair's format.
  ghost predicate Tabulates(table: seq<int>, pairs: seq<Pair>, value: int -> int) {
    && |table| == 4 * |pairs|
    && forall i :: 0 <= i < |pairs| ==>
         table[4 * i..4 * i + 4] == [pairs[i].format, pairs[i].width, pairs[i].height, value(pairs[i].format)]
  }

  // All three tables list the same pairs.
  ghost predicate Tables(configurations: seq<int>, minDurations: seq<int>, stallDurations: seq<int>,
                         pairs: seq<Pair>) {
    && Tabulates(configurations, pairs, _ => CONFIGURATIONS_OUTPUT)
    && Tabulates(minDurations, pairs, _ => FRAME_DURATION_NS)
    && Tabulates(stallDurations, pairs, Stall)
  }

  lemma AppendRow(table: seq<int>, pairs: seq<Pair>, value: int -> int, p: Pair)
    requires Tabulates(table, pairs, value)
    ensures Tabulates(table + [p.format, p.width, p.height, value(p.format)], pairs + [p], value)
  {
  }

  // None when the tables are not derived because the new tag is there or an old one is missing.
  datatype Derived = NotDerived | Derived(configurations: seq<int>, minDurations: seq<int>,
                                          stallDurations: seq<int>)

  class Builder {
    var configurations: seq<int>
    var minDurations: seq<int>
    var stallDurations: seq<int>

    ghost predicate Holds(pairs: seq<Pair>)
      reads this
    {
      Tables(configurations, minDurations, stallDurations, pairs)
    }

    constructor ()
      ensures Holds([])
    {
      configurations, minDurations, stallDurations := [], [], [];
    }

    method PushRow(format: int, width: int, height: int, ghost pairs: seq<Pair>)
      requires Holds(pairs)
      modifies this
      ensures Holds(pairs + [Pair(format, width, height)])
    {
      ghost var p := Pair(format, width, height);
      AppendRow(configurations, pairs, _ => CONFIGURATIONS_OUTPUT, p);
      AppendRow(minDurations, pairs, _ => FRAME_DURATION_NS, p);
      AppendRow(stallDurations, pairs, Stall, p);
      configurations := configurations + [format, width, height, CONFIGURATIONS_OUTPUT];
      minDurations := minDurations + [format, width, height, FRAME_DURATION_NS];
      stallDurations := stallDurations + [format, width, height, if format == BLOB then JPEG_STALL_NS else 0];
    }

    method AppendSizes(format: int, sizes: seq<int>, ghost pairs: seq<Pair>)
      requires Holds(pairs)
      modifies this
      ensures Holds(pairs + Pairs(format, sizes))
    {
      var i := 0;
      ghost var all := Pairs(format, sizes);
      assert pairs + all[..0] == pairs;
      while i + 1 < |sizes|
        invariant i % 2 == 0 && i / 2 <= |all|
        invariant Holds(pairs + all[..i / 2])
      {
        PushRow(format, sizes[i], sizes[i + 1], pairs + all[..i / 2]);
        assert pairs + all[..i / 2 + 1] == pairs + all[..i / 2] + [Pair(format, sizes[i], sizes[i + 1])];
        i := i + 2;
      }
      assert all[..i / 2] == all;
    }
  }

  method DeriveStreamConfigurations(t: Tags) returns (d: Derived)
    ensures d == NotDerived <==> t.streamConfigs != [] || t.formats == [] || t.processedSizes == []
    ensures d.Derived? ==>
              Tables(d.configurations, d.minDurations, d.stallDurations, AllPairs(t, t.formats))
  {
    if |t.streamConfigs| != 0 || |t.formats| == 0 || |t.processedSizes| == 0 {
      return NotDerived;
    }
    var builder := new Builder();
    for i := 0 to |t.formats|
      invariant fresh(builder) && builder.Holds(AllPairs(t, t.formats[..i]))
    {
      var format := t.formats[i];
      assert t.formats[..i + 1][..i] == t.formats[..i];
      if format == BLOB {
        builder.AppendSizes(format, t.jpegSizes, AllPairs(t, t.formats[..i]));
      } else if format == RAW16 || format == RAW10 || format == RAW12 || format == RAW_OPAQUE {
        builder.AppendSizes(format, t.rawSizes, AllPairs(t, t.formats[..i]));
      } else {
        builder.AppendSizes(format, t.processedSizes, AllPairs(t, t.formats[..i]));
      }
    }
    assert t.formats[..|t.formats|] == t.formats;
    d := Derived(builder.configurations, builder.minDurations, builder.stallDurations);
  }

  // ---- What the tables mean ----

  function PairCount(t: Tags, formats: seq<int>): nat {
    if formats == [] then 0
    else PairCount(t, formats[..|formats| - 1]) + |SizesFor(t, formats[|formats| - 1])| / 2
  }

  lemma {:induction false} PairsAreCounted(t: Tags, formats: seq<int>)
    ensures |AllPairs(t, formats)| == PairCount(t, formats)
  {
    if formats != [] { PairsAreCounted(t, formats[..|formats| - 1]); }
  }

  // Three tables of four numbers for each of the k pairs, which agree on format, width and height
  // row by row; a row stalls exactly if it is a JPEG row.
  lemma TablesAgree(t: Tags, configurations: seq<int>, minDurations: seq<int>,
                    stallDurations: seq<int>, row: nat)
    requires Tables(configurations, minDurations, stallDurations, AllPairs(t, t.formats))
    ensures |configurations| == |minDurations| == |stallDurations| == 4 * PairCount(t, t.formats)
    ensures row < PairCount(t, t.formats) ==>
              && configurations[4 * row..4 * row + 3] == minDurations[4 * row..4 * row + 3]
              && configurations[4 * row..4 * row + 3] == stallDurations[4 * row..4 * row + 3]
              && (stallDurations[4 * row + 3] != 0 <==> configurations[4 * row] == BLOB)
              && minDurations[4 * row + 3] == FRAME_DURATION_NS
  {
    PairsAreCounted(t, t.formats);
    var pairs := AllPairs(t, t.formats);
    if row < |pairs| {
      var p := pairs[row];
      var c, m, s := configurations[4 * row..4 * row + 4], minDurations[4 * row..4 * row + 4],
                     stallDurations[4 * row..4 * row + 4];
      assert c == [p.format, p.width, p.height, CONFIGURATIONS_OUTPUT];
      assert m == [p.format, p.width, p.height, FRAME_DURATION_NS];
      assert s == [p.format, p.width, p.height, Stall(p.format)];
      assert configurations[4 * row..4 * row + 3] == c[..3];
      assert minDurations[4 * row..4 * row + 3] == m[..3];
      assert stallDurations[4 * row..4 * row + 3] == s[..3];
      assert configurations[4 * row] == c[0] && minDurations[4 * row + 3] == m[3]
             && stallDurations[4 * row + 3] == s[3];
    }
  }

  lemma {:induction false} AllPairsOfConcat(t: Tags, front: seq<int>, back: seq<int>)
    ensures AllPairs(t, front + back) == AllPairs(t, front) + AllPairs(t, back)
  {
    if back == [] {
      assert front + back == front;
    } else {
      var start, last := back[..|back| - 1], back[|back| - 1];
      var pairs := Pairs(last, SizesFor(t, last));
      calc {
        AllPairs(t, front + back);
        { assert front + back == (front + start) + [last]; AllPairsOfOneMore(t, front + start, last); }
        AllPairs(t, front + start) + pairs;
        { AllPairsOfConcat(t, front, start); }
        (AllPairs(t, front) + AllPairs(t, start)) + pairs;
        { ConcatAssociates(AllPairs(t, front), AllPairs(t, start), pairs); }
        AllPairs(t, front) + (AllPairs(t, start) + pairs);
      }
    }
  }

  lemma ConcatAssociates(a: seq<Pair>, b: seq<Pair>, c: seq<Pair>)
    ensures (a + b) + c == a + (b + c)
  {
  }

  lemma AllPairsOfOneMore(t: Tags, formats: seq<int>, format: int)
    ensures AllPairs(t, formats + [format]) == AllPairs(t, formats) + Pairs(format, SizesFor(t, format))
  {
    assert (formats + [format])[..|formats|] == formats;
  }

  // The rows of the i-th format come right after those of the formats before it, in input order.
  lemma PairsInInputOrder(t: Tags, formats: seq<int>, i: nat)
    requires i < |formats|
    ensures AllPairs(t, formats) == AllPairs(t, formats[..i])
                                    + Pairs(formats[i], SizesFor(t, formats[i]))
                                    + AllPairs(t, formats[i + 1..])
  {
    var front, format, back := formats[..i], formats[i], formats[i + 1..];
    assert formats == front + [format] + back;
    AllPairsOfConcat(t, front + [format], back);
    assert (front + [format])[..i] == front;
  }

  // The sizes a format takes are the legacy list of its family.
  ghost predicate TakesSizes(t: Tags, format: int, sizes: seq<int>) {
    || (format == 0x21 && sizes == t.jpegSizes)                              // BLOB
    || (format in {0x20, 0x24, 0x25, 0x26} && sizes == t.rawSizes)           // RAW16, RAW_OPAQUE, RAW10, RAW12
    || (format !in {0x20, 0x21, 0x24, 0x25, 0x26} && sizes == t.processedSizes)
  }

  // The rows of the j-th pair of the i-th format's sizes, number by number.
  lemma RowOfPair(t: Tags, configurations: seq<int>, minDurations: seq<int>, stallDurations: seq<int>,
                  i: nat, j: nat, sizes: seq<int>)
    requires Tables(configurations, minDurations, stallDurations, AllPairs(t, t.formats))
    requires i < |t.formats| && TakesSizes(t, t.formats[i], sizes) && 2 * j + 1 < |sizes|
    ensures var format, row := t.formats[i], 4 * (PairCount(t, t.formats[..i]) + j);
            && row + 4 <= |configurations| == |minDurations| == |stallDurations|
            && configurations[row..row + 4] == [format, sizes[2 * j], sizes[2 * j + 1], 0]
            && minDurations[row..row + 4] == [format, sizes[2 * j], sizes[2 * j + 1], 33333333]
            && stallDurations[row..row + 4]
               == [format, sizes[2 * j], sizes[2 * j + 1], if format == 0x21 then 100000000 else 0]
  {
    var at := PlaceOfPair(t, i, j, sizes);
    var p := AllPairs(t, t.formats)[at];
    assert configurations[4 * at..4 * at + 4] == [p.format, p.width, p.height, CONFIGURATIONS_OUTPUT];
    assert minDurations[4 * at..4 * at + 4] == [p.format, p.width, p.height, FRAME_DURATION_NS];
    assert stallDurations[4 * at..4 * at + 4] == [p.format, p.width, p.height, Stall(p.format)];
  }

  lemma PlaceOfPair(t: Tags, i: nat, j: nat, sizes: seq<int>) returns (at: nat)
    requires i < |t.formats| && TakesSizes(t, t.formats[i], sizes) && 2 * j + 1 < |sizes|
    ensures at == PairCount(t, t.formats[..i]) + j && at < |AllPairs(t, t.formats)|
    ensures AllPairs(t, t.formats)[at] == Pair(t.formats[i], sizes[2 * j], sizes[2 * j + 1])
  {
    PairsAreCounted(t, t.formats[..i]);
    at := PairCount(t, t.formats[..i]) + j;
    PairOfSizes(t, t.formats[i], sizes, j);
    PairAfter(t, t.formats, i, j);
  }

  lemma PairAfter(t: Tags, formats: seq<int>, i: nat, j: nat)
    requires i < |formats| && j < |Pairs(formats[i], SizesFor(t, formats[i]))|
    ensures |AllPairs(t, formats[..i])| + j < |AllPairs(t, formats)|
    ensures AllPairs(t, formats)[|AllPairs(t, formats[..i])| + j]
            == Pairs(formats[i], SizesFor(t, formats[i]))[j]
  {
    PairsInInputOrder(t, formats, i);
    MiddleAt(AllPairs(t, formats), AllPairs(t, formats[..i]),
             Pairs(formats[i], SizesFor(t, formats[i])), AllPairs(t, formats[i + 1..]), j);
  }

  lemma PairOfSizes(t: Tags, format: int, sizes: seq<int>, j: nat)
    requires TakesSizes(t, format, sizes) && 2 * j + 1 < |sizes|
    ensures var pairs := Pairs(format, SizesFor(t, format));
            j < |pairs| && pairs[j] == Pair(format, sizes[2 * j], sizes[2 * j + 1])
  {
  }

  lemma MiddleAt(all: seq<Pair>, a: seq<Pair>, b: seq<Pair>, c: seq<Pair>, j: nat)
    requires all == a + b + c && j < |b|
    ensures |a| + j < |all| && all[|a| + j] == b[j]
  {
  }
}
