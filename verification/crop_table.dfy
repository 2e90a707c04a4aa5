/**
 The crop-requirements table: one row per crop, a crop name followed by the
 required level of each nutrient column. Rows are kept in file order, since
 the engine reads the first row whose name matches.
 */
module CropTable {
  import opened NutrientLevels

  datatype CropRow = CropRow(crop: string, requirements: Levels)

  type Table = seq<CropRow>

  /** The table's crop column, in row order. */
  function CropColumn(table: Table): seq<string>
  {
    seq(|table|, i requires 0 <= i < |table| => table[i].crop)
  }

  /** Whether `crop` appears in the table's crop column: some row carries that name. */
  predicate Known(table: Table, crop: string)
    ensures Known(table, crop) <==> exists i | 0 <= i < |table| :: table[i].crop == crop
  {
    var column := CropColumn(table);
    assert forall i | 0 <= i < |table| :: column[i] == table[i].crop;
    crop in column
  }

  /**
   The required levels of `crop`: those of the first row that names it, or
   None when no row does.
   */
  function Lookup(table: Table, crop: string): (r: Option<Levels>)
    ensures r.None? <==> !Known(table, crop)
    ensures r.Some? ==> exists i | 0 <= i < |table| :: table[i] == CropRow(crop, r.value)
  {
    if table == [] then None
    else if table[0].crop == crop then Some(table[0].requirements)
    else
      var r := Lookup(table[1..], crop);
      assert Known(table, crop) <==> Known(table[1..], crop) by {
        if Known(table, crop) {
          var i :| 0 <= i < |table| && table[i].crop == crop;
          assert table[1..][i - 1].crop == crop;
        }
        if Known(table[1..], crop) {
          var i :| 0 <= i < |table[1..]| && table[1..][i].crop == crop;
          assert table[i + 1].crop == crop;
        }
      }
      if r.Some? then
        var i :| 0 <= i < |table[1..]| && table[1..][i] == CropRow(crop, r.value);
        assert table[i + 1] == CropRow(crop, r.value);
        r
      else r
  }

  /** When several rows share a crop name, the first of them is used. */
  lemma {:induction false} LookupFirstMatch(table: Table, crop: string, i: nat)
    requires i < |table| && table[i].crop == crop
    requires forall j | 0 <= j < i :: table[j].crop != crop
    ensures Lookup(table, crop) == Some(table[i].requirements)
  {
    if i > 0 {
      assert forall j | 0 <= j < i - 1 :: table[1..][j].crop != crop by {
        forall j | 0 <= j < i - 1 ensures table[1..][j].crop != crop {
          assert table[1..][j] == table[j + 1];
        }
      }
      LookupFirstMatch(table[1..], crop, i - 1);
    }
  }
}
