/** The units a capture leaves in the ledger: how a later capture tells that objects
    have gone (missingS3Units in internal/services/s3/data.go). */
module S3Units {
  import opened ByteStrings
  import opened Ledger

  /** "pack-" */
  const PACK: Bytes := [112, 97, 99, 107, 45]

  /** "objects-missing" */
  const MISSING: Bytes := [111, 98, 106, 101, 99, 116, 115, 45, 109, 105, 115, 115, 105, 110, 103]

  predicate IsPack(id: Bytes) {
    PACK <= id
  }

  lemma MissingIsNoPack()
    ensures !IsPack(MISSING)
  {
    assert PACK[0] != MISSING[0];
  }

  /** The objects that all packs together list. */
  function PackRecords(units: seq<Unit>): int {
    if units == [] then 0
    else PackRecords(units[..|units| - 1])
         + if IsPack(units[|units| - 1].id) then units[|units| - 1].freshness.records else 0
  }

  lemma PackRecordsAppend(units: seq<Unit>, u: Unit)
    ensures PackRecords(units + [u]) == PackRecords(units) + if IsPack(u.id) then u.freshness.records else 0
  {
    assert (units + [u])[..|units|] == units;
  }

  /** The unit that says how many objects fewer there are; its digest covers both
      numbers. */
  function MissingUnit(h: Host, previous: nat, current: nat): Unit {
    Unit(MISSING, Freshness(OtherKind, h.hash(Itoa(previous) + [NUL] + Itoa(current)), previous - current, 0), [],
         Invalidated)
  }

  /** missingS3Units, without times. */
  method MissingUnits(h: Host, candidate: seq<Unit>, current: nat) returns (units: seq<Unit>)
    ensures |units| <= 1 && (units != [] <==> current < PackRecords(candidate))
    ensures units != [] ==> units[0] == MissingUnit(h, PackRecords(candidate), current)
  {
    var previous := 0;
    for i := 0 to |candidate|
      invariant previous == PackRecords(candidate[..i])
    {
      assert candidate[..i + 1] == candidate[..i] + [candidate[i]];
      PackRecordsAppend(candidate[..i], candidate[i]);
      if IsPack(candidate[i].id) {
        previous := previous + candidate[i].freshness.records;
      }
    }
    assert candidate[..|candidate|] == candidate;
    units := if current >= previous then [] else [MissingUnit(h, previous, current)];
  }
}
