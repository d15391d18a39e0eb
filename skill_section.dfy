/**
 * The skill marquee on the about page: the skill entries are cut into
 * three rows of `ceil(n / 3)` entries each (the last rows take what is
 * left), and the rows scroll in alternating directions.
 */
module SkillSection {
  import opened Slices

  const TotalRows := 3

  datatype Direction = Left | Right

  /** `itemsPerRow`: the least row length with which three rows hold every entry, `ceil(n / 3)`. */
  function ItemsPerRow(n: nat): (k: nat)
    ensures k * TotalRows >= n
    ensures k > 0 ==> (k - 1) * TotalRows < n
    ensures k == 0 <==> n == 0
  {
    CeilDiv(n, TotalRows)
  }

  /** Row `row`: the window from `row * itemsPerRow` of length `itemsPerRow`, clamped to the entries. */
  function Row<T>(entries: seq<T>, row: nat): (r: seq<T>)
    ensures |r| <= ItemsPerRow(|entries|)
  {
    var k := ItemsPerRow(|entries|);
    Slice(entries, row * k, row * k + k)
  }

  /** `Array.from({ length: totalRows }, ...)`: the three rows. */
  function Rows<T>(entries: seq<T>): (rows: seq<seq<T>>)
    ensures |rows| == TotalRows
    ensures forall i :: 0 <= i < |rows| ==> rows[i] == Row(entries, i)
  {
    seq(TotalRows, i requires 0 <= i < TotalRows => Row(entries, i))
  }

  /** The rows, read in order, are exactly the entries: nothing lost, repeated or moved. */
  lemma RowsPartition<T>(entries: seq<T>)
    ensures Rows(entries)[0] + Rows(entries)[1] + Rows(entries)[2] == entries
  {
    var n := |entries|;
    var k := ItemsPerRow(n);
    assert 3 * k >= n;
    var a, b, c := Row(entries, 0), Row(entries, 1), Row(entries, 2);
    if k >= n {
      assert a == entries;
      assert b == [] && c == [];
    } else if 2 * k >= n {
      assert a == entries[..k];
      assert b == entries[k..];
      assert c == [];
      assert entries == entries[..k] + entries[k..];
    } else {
      assert a == entries[..k];
      assert b == entries[k..2 * k];
      assert c == entries[2 * k..];
      assert entries == entries[..k] + entries[k..2 * k] + entries[2 * k..];
    }
  }

  /** Each row holds at most `ceil(n / 3)` entries. */
  lemma RowsBounded<T>(entries: seq<T>)
    ensures forall i :: 0 <= i < TotalRows ==> |Rows(entries)[i]| <= ItemsPerRow(|entries|)
  {
  }

  /** No entries: every row is empty. */
  lemma NoEntriesNoRows<T>(entries: seq<T>)
    requires entries == []
    ensures forall i :: 0 <= i < TotalRows ==> Rows(entries)[i] == []
  {
  }

  /** A later row never holds more than an earlier one, so only trailing rows can be empty. */
  lemma RowsShrink<T>(entries: seq<T>)
    ensures |Rows(entries)[0]| >= |Rows(entries)[1]| >= |Rows(entries)[2]|
    ensures |entries| > 0 ==> |Rows(entries)[0]| > 0
  {
    var k := ItemsPerRow(|entries|);
    assert |Row(entries, 0)| == if k <= |entries| then k else |entries|;
  }

  /** Even rows scroll left, odd rows right. */
  function RowDirection(row: nat): (d: Direction)
    ensures d == Left <==> row % 2 == 0
    ensures d == Right <==> row % 2 == 1
  {
    if row % 2 == 0 then Left else Right
  }

  /** Neighbouring rows scroll in opposite directions. */
  lemma DirectionsAlternate(row: nat)
    ensures RowDirection(row) != RowDirection(row + 1)
  {
  }
}
