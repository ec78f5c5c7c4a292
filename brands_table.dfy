/**
 * The `brands` table of the app database as the two price-marking scripts see it: one row per
 * brand, addressed by its position (the scripts address it by its primary key `id`), with the
 * name, the possibly NULL price and the `verified`/`confidence` marks they rewrite.
 */
module BrandsTable {
  import opened Wrappers

  datatype StoredBrand = StoredBrand(name: string, price: Option<real>, verified: bool, confidence: string)

  /** A row after `SET verified = 0, confidence = 'ESTIMATED'`. */
  function Estimated(b: StoredBrand): StoredBrand {
    b.(verified := false, confidence := "ESTIMATED")
  }

  /** Every row after `UPDATE brands SET verified = 0, confidence = 'ESTIMATED'`. */
  function ResetRows(rows: seq<StoredBrand>): (r: seq<StoredBrand>)
    ensures |r| == |rows|
    ensures forall i :: 0 <= i < |rows| ==> r[i] == Estimated(rows[i])
  {
    seq(|rows|, i requires 0 <= i < |rows| => Estimated(rows[i]))
  }

  /** `SELECT COUNT(*) FROM brands WHERE verified = 1`. */
  function CountVerified(rows: seq<StoredBrand>): (n: nat)
    ensures n <= |rows|
  {
    if rows == [] then 0
    else CountVerified(rows[..|rows| - 1]) + (if rows[|rows| - 1].verified then 1 else 0)
  }

  /** `SELECT COUNT(*) FROM brands WHERE p`. */
  function CountWhere(rows: seq<StoredBrand>, p: StoredBrand -> bool): (n: nat)
    ensures n <= |rows|
  {
    if rows == [] then 0
    else CountWhere(rows[..|rows| - 1], p) + (if p(rows[|rows| - 1]) then 1 else 0)
  }

  lemma CountWhereSnoc(rows: seq<StoredBrand>, p: StoredBrand -> bool, i: nat)
    requires i < |rows|
    ensures CountWhere(rows[..i + 1], p) == CountWhere(rows[..i], p) + (if p(rows[i]) then 1 else 0)
  {
    assert rows[..i + 1][..i] == rows[..i];
  }

  /** The table, updated in place by the scripts' UPDATE statements. */
  class Store {
    var rows: seq<StoredBrand>

    constructor (rows: seq<StoredBrand>)
      ensures this.rows == rows
    {
      this.rows := rows;
    }

    /** `UPDATE brands SET verified = 0, confidence = 'ESTIMATED'`. */
    method ResetAll()
      modifies this
      ensures rows == ResetRows(old(rows))
    {
      rows := ResetRows(rows);
    }

    /** `UPDATE brands SET verified = 1, confidence = 'VERIFIED' WHERE id = ?`. */
    method Verify(i: nat)
      requires i < |rows|
      modifies this
      ensures rows == old(rows)[i := old(rows)[i].(verified := true, confidence := "VERIFIED")]
    {
      rows := rows[i := rows[i].(verified := true, confidence := "VERIFIED")];
    }

    /** `UPDATE brands SET price = ?, verified = 1, confidence = 'VERIFIED' WHERE id = ?`. */
    method VerifyWithPrice(i: nat, price: real)
      requires i < |rows|
      modifies this
      ensures rows == old(rows)[i := old(rows)[i].(price := Some(price), verified := true, confidence := "VERIFIED")]
    {
      rows := rows[i := rows[i].(price := Some(price), verified := true, confidence := "VERIFIED")];
    }
  }
}
