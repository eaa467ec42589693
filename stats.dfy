/**
 Occurrence statistics kept for a term: a whole-collection pair of counts and a
 per-field breakdown. Counts are unbounded naturals here; the original stores
 them as 64-bit unsigned integers.
 */
module Stats {

  /** Document frequency and term frequency. The default value is all zeros. */
  datatype Counts = Counts(documentCount: nat, termCount: nat)

  /** The value a default-constructed `Counts` holds. */
  const NoCounts: Counts := Counts(0, 0)

  /** Field identifier to the counts recorded for that field. */
  type FieldCounts = map<nat, Counts>

  /**
   A term's statistics. Field absence means "nothing recorded for that field",
   so the field lookups never fail: they answer 0.
   */
  datatype Term = Term(counts: Counts, fieldCounts: FieldCounts) {

    /**
     What consumers expect of a term (the type does not enforce it): no field
     records more than the whole collection does.
     */
    predicate FieldsWithinTotals()
    {
      forall f :: f in fieldCounts ==>
        fieldCounts[f].documentCount <= counts.documentCount &&
        fieldCounts[f].termCount <= counts.termCount
    }

    /** Number of documents in which the term occurs in `field`. */
    function FieldDocumentCount(field: nat): (n: nat)
      ensures field in fieldCounts ==> n == fieldCounts[field].documentCount
      ensures field !in fieldCounts ==> n == 0
      ensures FieldsWithinTotals() ==> n <= counts.documentCount
    {
      if field in fieldCounts then fieldCounts[field].documentCount else 0
    }

    /** Number of occurrences of the term in `field`. */
    function FieldTermCount(field: nat): (n: nat)
      ensures field in fieldCounts ==> n == fieldCounts[field].termCount
      ensures field !in fieldCounts ==> n == 0
      ensures FieldsWithinTotals() ==> n <= counts.termCount
    {
      if field in fieldCounts then fieldCounts[field].termCount else 0
    }
  }

  /** The value a default-constructed `Term` holds. */
  const EmptyTerm: Term := Term(NoCounts, map[])
}
