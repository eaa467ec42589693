/**
 The term lexicon: an append-only table that gives every term string a dense
 id, keeps the statistics of each id, and answers lookups in both directions.
 Id 0 is reserved for the out-of-vocabulary (OOV) sentinel "xxoov" on the
 construction path that takes collection counts.
 */
module Fxt {
  import opened Stats
  import opened TermIndex

  /** The id every unknown string resolves to. */
  const OovId: nat := 0

  /** The string stored at the OOV id. */
  const OovStr: string := "xxoov"

  class Lexicon {
    /** Collection-wide counts. */
    var counts: Counts
    /** Statistics of each term, indexed by id. */
    var terms: seq<Term>
    /** The string of each term, indexed by id; parallel to `terms`. */
    var idTerm: seq<string>
    /** Reverse direction: string to id. */
    var termId: map<string, nat>

    /**
     The two sequences run side by side, and the stored reverse map is the one
     the id list determines: each string that was appended maps to the id of
     its first occurrence.
     */
    ghost predicate Valid()
      reads this
    {
      |terms| == |idTerm| && termId == IndexOf(idTerm)
    }

    /** The sentinel occupies id 0. */
    ghost predicate HasOov()
      reads this
    {
      |idTerm| > 0 && idTerm[0] == OovStr
    }

    /**
     The default lexicon: zero counts and empty tables, meant to be filled
     wholesale from a persisted archive. It holds no sentinel.
     */
    constructor Empty()
      ensures Valid()
      ensures counts == NoCounts
      ensures terms == [] && idTerm == [] && termId == map[]
      ensures Length() == 0
    {
      counts := NoCounts;
      terms := [];
      idTerm := [];
      termId := map[];
    }

    /** A lexicon for a collection with counts `c`; installs the sentinel at id 0. */
    constructor (c: Counts)
      ensures Valid() && HasOov()
      ensures counts == c
      ensures terms == [EmptyTerm] && idTerm == [OovStr]
      ensures Length() == 0
    {
      counts := c;
      terms := [];
      idTerm := [];
      termId := map[];
      new;
      PushBack(OovStr, NoCounts, map[]);
    }

    /**
     Number of real terms: the sentinel slot is not counted, and an entirely
     empty table has length 0 rather than an underflowed value.
     */
    function Length(): (n: nat)
      reads this
      ensures |terms| == 0 ==> n == 0
      ensures |terms| > 0 ==> n + 1 == |terms|
      ensures Valid() && HasOov() ==> n == |idTerm| - 1
    {
      if |terms| > 0 then |terms| - 1 else 0
    }

    /** The statistics stored at `id`; the original does not check the bound. */
    function At(id: nat): (t: Term)
      reads this
      requires id < |terms|
      ensures t == terms[id]
    {
      terms[id]
    }

    /**
     Id of the string `t`. Never fails: a known string gives the id of its
     first occurrence, any other string gives the OOV id.
     */
    function TermId(t: string): (id: nat)
      reads this
      requires Valid()
      ensures t in idTerm ==> id < |idTerm| && idTerm[id] == t
      ensures t in idTerm ==> forall j :: 0 <= j < id ==> idTerm[j] != t
      ensures t !in idTerm ==> id == OovId
    {
      if t in termId then termId[t] else OovTerm()
    }

    /** The OOV id; in a lexicon holding the sentinel it names "xxoov". */
    function OovTerm(): (id: nat)
      reads this
      ensures id == OovId
      ensures Valid() && HasOov() ==> id < |idTerm| && idTerm[id] == OovStr
    {
      OovId
    }

    /** Whether `id` is the OOV id. */
    function IsOov(id: nat): (b: bool)
      reads this
      ensures b <==> id == OovId
    {
      id == OovTerm()
    }

    /** The string of `id`; the original does not check the bound. */
    function TermString(id: nat): (s: string)
      reads this
      requires Valid()
      requires id < |idTerm|
      ensures s == idTerm[id]
      ensures s in termId
      ensures TermId(s) <= id
      ensures TermId(s) == id <==> forall j :: 0 <= j < id ==> idTerm[j] != s
    {
      idTerm[id]
    }

    /**
     Appends a term at the next id. The reverse map gains the string only if it
     is new: a repeated string keeps its first id, while its new statistics and
     its string are still appended.
     */
    method PushBack(t: string, c: Counts, fc: FieldCounts)
      requires Valid()
      modifies this
      ensures Valid()
      ensures counts == old(counts)
      ensures terms == old(terms) + [Term(c, fc)]
      ensures idTerm == old(idTerm) + [t]
      ensures termId == Insert(old(termId), t, old(|terms|))
      ensures t !in old(idTerm) ==> TermId(t) == old(|terms|)
      ensures t in old(idTerm) ==> TermId(t) == old(TermId(t))
      ensures forall s :: s in old(termId) ==> s in termId && termId[s] == old(termId)[s]
      ensures old(|terms|) > 0 ==> Length() == old(Length()) + 1
      ensures old(HasOov()) ==> HasOov()
    {
      var id := |terms|;
      termId := Insert(termId, t, id);
      idTerm := idTerm + [t];
      terms := terms + [Term(c, fc)];
      InsertAppend(old(idTerm), t);
    }
  }

  /**
   In a lexicon holding the sentinel, a string resolves to the OOV id exactly
   when it is unknown or is the sentinel itself.
   */
  lemma OovLookup(lex: Lexicon, t: string)
    requires lex.Valid() && lex.HasOov()
    ensures lex.IsOov(lex.TermId(t)) <==> t !in lex.idTerm || t == OovStr
    ensures lex.TermId(OovStr) == lex.OovTerm() && lex.TermString(lex.OovTerm()) == OovStr
  {
  }

  /**
   When no string was appended twice, the two directions are inverse
   bijections between the strings and the ids.
   */
  lemma DistinctRoundTrip(lex: Lexicon, id: nat, t: string)
    requires lex.Valid()
    requires Distinct(lex.idTerm)
    ensures id < |lex.idTerm| ==> lex.TermId(lex.TermString(id)) == id
    ensures t in lex.idTerm ==> lex.TermString(lex.TermId(t)) == t
  {
  }

  /**
   The length counts appends, not distinct strings: with the sentinel
   installed it is at least the number of distinct real terms, and equal to
   it exactly when no string was appended twice.
   */
  lemma LengthCountsAppends(lex: Lexicon)
    requires lex.Valid() && lex.HasOov()
    ensures lex.Length() >= |lex.termId| - 1
    ensures lex.Length() == |lex.termId| - 1 <==> Distinct(lex.idTerm)
  {
    DistinctCount(lex.idTerm);
  }

  /**
   A worked example of the lexicon in use: a collection of 100 documents and
   500 term occurrences; two new terms appended (say "dog", with statistics
   for some fields, then "cat"); lookups of both, of a string never appended
   (say "bird"), and of a recorded and an unrecorded field of the first term.
   */
  method Scenario(dog: string, cat: string, bird: string, dogFields: FieldCounts, recorded: nat, unrecorded: nat)
    returns (documents: nat, occurrences: nat, length: nat, dogId: nat, catId: nat, birdId: nat,
             dogRecorded: nat, dogUnrecorded: nat)
    requires dog != OovStr && cat != OovStr && dog != cat
    requires bird != OovStr && bird != dog && bird != cat
    requires recorded in dogFields && unrecorded !in dogFields
    ensures documents == 100 && occurrences == 500
    ensures length == 2 && dogId == 1 && catId == 2 && birdId == OovId
    ensures dogRecorded == dogFields[recorded].documentCount && dogUnrecorded == 0
  {
    var lex := new Lexicon(Counts(100, 500));
    ghost var ids0 := lex.idTerm;
    lex.PushBack(dog, Counts(10, 20), dogFields);
    ghost var ids1, terms1 := lex.idTerm, lex.terms;
    lex.PushBack(cat, Counts(8, 15), map[]);
    assert ids0 == [OovStr] && ids1 == ids0 + [dog] && lex.idTerm == ids1 + [cat];
    assert lex.terms[1] == terms1[1];
    documents, occurrences := lex.counts.documentCount, lex.counts.termCount;
    length := lex.Length();
    dogId := lex.TermId(dog);
    catId := lex.TermId(cat);
    assert bird !in ids0 && bird !in ids1 && bird !in lex.idTerm;
    birdId := lex.TermId(bird);
    dogRecorded := lex.At(1).FieldDocumentCount(recorded);
    dogUnrecorded := lex.At(1).FieldDocumentCount(unrecorded);
  }
}
