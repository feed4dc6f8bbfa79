/** The rasterizer's glyphs as both writers see them: the sparse two-level glyph table they flatten into
    one list, and the kerning amounts they look up for every ordered pair of glyphs. */
module Glyphs {
  import opened Wrappers
  import opened JavaText

  /** A libGDX `BitmapFont.Glyph`. `kerning` is what `getKerning` looks up: the amount for a second
      character, keyed by its 16-bit code; a code that is absent has no kerning (0). */
  datatype Glyph = Glyph(
    id: int32, srcX: int32, srcY: int32, width: int32, height: int32,
    xoffset: int32, yoffset: int32, xadvance: int32, page: int32,
    kerning: map<int, int32>)

  /** `BitmapFontData.glyphs`: an array of buckets, any of which may be null, each an array of glyph
      slots, any of which may be null. */
  type GlyphTable = seq<Option<seq<Option<Glyph>>>>

  // ---------------------------------------------------------------- flattening the table

  /** The glyphs of one bucket, null slots skipped, in slot order. */
  function Present(row: seq<Option<Glyph>>): seq<Glyph>
  {
    if row == [] then []
    else Present(row[..|row| - 1]) + (if row[|row| - 1].Some? then [row[|row| - 1].value] else [])
  }

  /** The glyphs of the table, null buckets and null slots skipped, bucket by bucket. */
  function Flatten(table: GlyphTable): seq<Glyph>
  {
    if table == [] then []
    else
      var last := table[|table| - 1];
      Flatten(table[..|table| - 1]) + (if last.Some? then Present(last.value) else [])
  }

  /** `i`, `j` name a glyph of the table. */
  predicate IsSlot(table: GlyphTable, i: int, j: int)
  {
    0 <= i < |table| && table[i].Some? && 0 <= j < |table[i].value| && table[i].value[j].Some?
  }

  /** Where the glyph in bucket `i`, slot `j` lands in the flattened list: after every glyph of the
      earlier buckets and the earlier slots of its own bucket. */
  function Slot(table: GlyphTable, i: nat, j: nat): nat
    requires IsSlot(table, i, j)
  {
    |Flatten(table[..i])| + |Present(table[i].value[..j])|
  }

  lemma {:induction false} PresentAppend(a: seq<Option<Glyph>>, b: seq<Option<Glyph>>)
    ensures Present(a + b) == Present(a) + Present(b)
    decreases |b|
  {
    if b == [] {
      assert a + b == a;
    } else {
      var c := a + b;
      assert c[..|c| - 1] == a + b[..|b| - 1];
      PresentAppend(a, b[..|b| - 1]);
    }
  }

  lemma {:induction false} FlattenAppend(a: GlyphTable, b: GlyphTable)
    ensures Flatten(a + b) == Flatten(a) + Flatten(b)
    decreases |b|
  {
    if b == [] {
      assert a + b == a;
    } else {
      var c := a + b;
      assert c[..|c| - 1] == a + b[..|b| - 1];
      FlattenAppend(a, b[..|b| - 1]);
    }
  }

  /** A present slot of a bucket is found after the present slots before it. */
  lemma PresentAt(row: seq<Option<Glyph>>, j: nat)
    requires j < |row| && row[j].Some?
    ensures |Present(row[..j])| < |Present(row)|
    ensures Present(row)[|Present(row[..j])|] == row[j].value
  {
    assert row[..j + 1][..j] == row[..j];
    assert row == row[..j + 1] + row[j + 1..];
    PresentAppend(row[..j + 1], row[j + 1..]);
  }

  /** A bucket's glyphs sit between those of the earlier and of the later buckets. */
  lemma FlattenAt(table: GlyphTable, i: nat)
    requires i < |table| && table[i].Some?
    ensures Flatten(table) == Flatten(table[..i]) + Present(table[i].value) + Flatten(table[i + 1..])
  {
    assert table[..i + 1][..i] == table[..i];
    assert table == table[..i + 1] + table[i + 1..];
    FlattenAppend(table[..i + 1], table[i + 1..]);
  }

  /** The glyph in bucket `i`, slot `j` is found at its slot in the flattened list. */
  lemma FlattenAtSlot(table: GlyphTable, i: nat, j: nat)
    requires IsSlot(table, i, j)
    ensures Slot(table, i, j) < |Flatten(table)|
    ensures Flatten(table)[Slot(table, i, j)] == table[i].value[j].value
  {
    FlattenAt(table, i);
    PresentAt(table[i].value, j);
  }

  /** Flattening keeps bucket-then-slot order: a glyph of an earlier bucket, or of an earlier slot of the
      same bucket, comes first. */
  lemma SlotOrder(table: GlyphTable, i1: nat, j1: nat, i2: nat, j2: nat)
    requires IsSlot(table, i1, j1) && IsSlot(table, i2, j2)
    requires i1 < i2 || (i1 == i2 && j1 < j2)
    ensures Slot(table, i1, j1) < Slot(table, i2, j2)
  {
    var row1 := table[i1].value;
    if i1 < i2 {
      assert table[..i2] == table[..i1] + [table[i1]] + table[i1 + 1..i2];
      FlattenAppend(table[..i1] + [table[i1]], table[i1 + 1..i2]);
      FlattenAppend(table[..i1], [table[i1]]);
      assert Flatten([table[i1]]) == Present(row1) by {
        assert [table[i1]][..0] == [];
      }
      assert row1 == row1[..j1] + row1[j1..];
      PresentAppend(row1[..j1], row1[j1..]);
      assert row1[j1..] == [row1[j1]] + row1[j1 + 1..];
      PresentAppend([row1[j1]], row1[j1 + 1..]);
      assert Present([row1[j1]]) == [row1[j1].value] by {
        assert [row1[j1]][..0] == [];
      }
    } else {
      assert row1[..j2] == row1[..j1] + [row1[j1]] + row1[j1 + 1..j2];
      PresentAppend(row1[..j1] + [row1[j1]], row1[j1 + 1..j2]);
      PresentAppend(row1[..j1], [row1[j1]]);
      assert Present([row1[j1]]) == [row1[j1].value] by {
        assert [row1[j1]][..0] == [];
      }
    }
  }

  /** Every entry of the flattened list comes from some glyph slot of the table. */
  lemma {:induction false} FlattenFromSlot(table: GlyphTable, k: nat)
    requires k < |Flatten(table)|
    ensures exists i, j :: IsSlot(table, i, j) && Slot(table, i, j) == k
  {
    var n := |table|;
    var init := table[..n - 1];
    if k < |Flatten(init)| {
      FlattenFromSlot(init, k);
      var i, j :| IsSlot(init, i, j) && Slot(init, i, j) == k;
      assert table[..i] == init[..i];
      assert IsSlot(table, i, j) && Slot(table, i, j) == k;
    } else {
      var row := table[n - 1].value;
      PresentFromSlot(row, k - |Flatten(init)|);
      var j :| 0 <= j < |row| && row[j].Some? && |Present(row[..j])| == k - |Flatten(init)|;
      assert IsSlot(table, n - 1, j) && Slot(table, n - 1, j) == k;
    }
  }

  lemma {:induction false} PresentFromSlot(row: seq<Option<Glyph>>, k: nat)
    requires k < |Present(row)|
    ensures exists j :: 0 <= j < |row| && row[j].Some? && |Present(row[..j])| == k
  {
    var init := row[..|row| - 1];
    if k < |Present(init)| {
      PresentFromSlot(init, k);
      var j :| 0 <= j < |init| && init[j].Some? && |Present(init[..j])| == k;
      assert row[..j] == init[..j];
    } else {
      assert row[..|row| - 1] == init;
    }
  }

  /** How many glyphs the table holds, counted bucket by bucket from the front. */
  function RowCount(row: seq<Option<Glyph>>): nat
  {
    if row == [] then 0 else (if row[0].Some? then 1 else 0) + RowCount(row[1..])
  }

  function GlyphCount(table: GlyphTable): nat
  {
    if table == [] then 0 else (if table[0].Some? then RowCount(table[0].value) else 0) + GlyphCount(table[1..])
  }

  lemma {:induction false} PresentCount(row: seq<Option<Glyph>>)
    ensures |Present(row)| == RowCount(row)
  {
    if row != [] {
      assert row == [row[0]] + row[1..];
      PresentAppend([row[0]], row[1..]);
      assert [row[0]][..0] == [];
      PresentCount(row[1..]);
    }
  }

  /** The flattened list holds exactly as many glyphs as the table has non-null slots in non-null buckets. */
  lemma {:induction false} FlattenCount(table: GlyphTable)
    ensures |Flatten(table)| == GlyphCount(table)
  {
    if table != [] {
      assert table == [table[0]] + table[1..];
      FlattenAppend([table[0]], table[1..]);
      assert [table[0]][..0] == [];
      if table[0].Some? {
        PresentCount(table[0].value);
      }
      FlattenCount(table[1..]);
    }
  }

  /** The nested loops that fill the `glyphs` array from the table. */
  method CollectGlyphs(table: GlyphTable) returns (glyphs: seq<Glyph>)
    ensures glyphs == Flatten(table)
  {
    glyphs := [];
    var i := 0;
    while i < |table|
      invariant 0 <= i <= |table|
      invariant glyphs == Flatten(table[..i])
    {
      assert table[..i + 1][..i] == table[..i];
      if table[i].Some? {
        var row := table[i].value;
        var j := 0;
        while j < |row|
          invariant 0 <= j <= |row|
          invariant glyphs == Flatten(table[..i]) + Present(row[..j])
        {
          assert row[..j + 1][..j] == row[..j];
          if row[j].Some? {
            glyphs := glyphs + [row[j].value];
          }
          j := j + 1;
        }
        assert row[..j] == row;
      }
      i := i + 1;
    }
    assert table[..i] == table;
  }

  // ---------------------------------------------------------------- kerning pairs

  /** `first.getKerning((char) second.id)`: the key is the second glyph's id cut to its low 16 bits. */
  function KerningOf(first: Glyph, second: Glyph): int32
  {
    var code := second.id % 0x1_0000;
    if code in first.kerning then first.kerning[code] else 0
  }

  /** One `kerning` record. */
  datatype KernPair = KernPair(first: int32, second: int32, amount: int32)

  function Pair(first: Glyph, second: Glyph): KernPair
  {
    KernPair(first.id, second.id, KerningOf(first, second))
  }

  /** The pairs `first` forms with each of `seconds` in turn, zero amounts skipped. */
  function KernRow(first: Glyph, seconds: seq<Glyph>): seq<KernPair>
  {
    if seconds == [] then []
    else
      var p := Pair(first, seconds[|seconds| - 1]);
      KernRow(first, seconds[..|seconds| - 1]) + (if p.amount != 0 then [p] else [])
  }

  /** The rows of `firsts` one after another. */
  function KernTable(firsts: seq<Glyph>, seconds: seq<Glyph>): seq<KernPair>
  {
    if firsts == [] then [] else KernTable(firsts[..|firsts| - 1], seconds) + KernRow(firsts[|firsts| - 1], seconds)
  }

  /** The kerning records both writers emit for the glyph list `gs`. */
  function Kernings(gs: seq<Glyph>): seq<KernPair>
  {
    KernTable(gs, gs)
  }

  // ---------------------------------------------------------------- an independent description

  /** The pairs with a non-zero amount, in order. */
  function NonZero(ps: seq<KernPair>): seq<KernPair>
  {
    if ps == [] then []
    else NonZero(ps[..|ps| - 1]) + (if ps[|ps| - 1].amount != 0 then [ps[|ps| - 1]] else [])
  }

  /** Every ordered pair of a glyph of `firsts` with a glyph of `seconds`: row `i`, column `j` pairs
      `firsts[i]` with `seconds[j]`. */
  function Matrix(firsts: seq<Glyph>, seconds: seq<Glyph>): (rows: seq<seq<KernPair>>)
  {
    seq(|firsts|, i requires 0 <= i < |firsts| =>
      seq(|seconds|, j requires 0 <= j < |seconds| => Pair(firsts[i], seconds[j])))
  }

  /** The rows one after another (row-major order). */
  function Concat(rows: seq<seq<KernPair>>): seq<KernPair>
  {
    if rows == [] then [] else Concat(rows[..|rows| - 1]) + rows[|rows| - 1]
  }

  lemma {:induction false} NonZeroAppend(a: seq<KernPair>, b: seq<KernPair>)
    ensures NonZero(a + b) == NonZero(a) + NonZero(b)
    decreases |b|
  {
    if b == [] {
      assert a + b == a;
    } else {
      var c := a + b;
      assert c[..|c| - 1] == a + b[..|b| - 1];
      NonZeroAppend(a, b[..|b| - 1]);
    }
  }

  lemma {:induction false} KernRowIsNonZero(first: Glyph, seconds: seq<Glyph>)
    ensures KernRow(first, seconds) == NonZero(seq(|seconds|, j requires 0 <= j < |seconds| => Pair(first, seconds[j])))
  {
    var row := seq(|seconds|, j requires 0 <= j < |seconds| => Pair(first, seconds[j]));
    if seconds != [] {
      var init := seconds[..|seconds| - 1];
      KernRowIsNonZero(first, init);
      assert row[..|row| - 1] == seq(|init|, j requires 0 <= j < |init| => Pair(first, init[j]));
    }
  }

  lemma {:induction false} KernTableIsMatrix(firsts: seq<Glyph>, seconds: seq<Glyph>)
    ensures KernTable(firsts, seconds) == NonZero(Concat(Matrix(firsts, seconds)))
  {
    if firsts != [] {
      var m := |firsts| - 1;
      var rows := Matrix(firsts, seconds);
      KernTableIsMatrix(firsts[..m], seconds);
      KernRowIsNonZero(firsts[m], seconds);
      assert rows[..m] == Matrix(firsts[..m], seconds);
      NonZeroAppend(Concat(rows[..m]), rows[m]);
    }
  }

  /** The kerning records are exactly the ordered pairs (i, j) of glyphs, including i == j, taken in
      row-major order, with the zero amounts left out. */
  lemma KerningsAreNonZeroPairs(gs: seq<Glyph>)
    ensures Kernings(gs) == NonZero(Concat(Matrix(gs, gs)))
  {
    KernTableIsMatrix(gs, gs);
  }

  /** Only pairs with a non-zero amount are kept. */
  lemma {:induction false} NonZeroAmounts(ps: seq<KernPair>)
    ensures forall p :: p in NonZero(ps) ==> p in ps && p.amount != 0
  {
    if ps != [] {
      NonZeroAmounts(ps[..|ps| - 1]);
    }
  }
}
