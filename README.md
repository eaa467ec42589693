# Term-statistics lexicon, modelled in Dafny

The lexicon of the Fxt information-retrieval library maps term strings to dense integer ids and back. Each id carries the term's statistics: document frequency and term frequency for the whole collection, plus the same pair per document field. The table is append-only. `push_back` gives each new entry the next id. When the lexicon is built from collection counts, id 0 holds the out-of-vocabulary (OOV) sentinel `"xxoov"`, and every unknown string resolves to that id.

The model has three modules:

- `Stats` (`stats.dfy`): the `Counts` pair, `FieldCounts` as a map from field id to `Counts`, and `Term` with its field lookups. These lookups never fail: an absent field gives 0.
- `TermIndex` (`term_index.dfy`): the reverse string-to-id map. `Insert` models the ordered map's insert, which never overwrites an existing key. `IndexOf` is an independent reference definition of the reverse map: each string goes to the position of its first occurrence in the id list. `InsertAppend` proves that one insert per append keeps the stored map equal to that reference.
- `Fxt` (`lexicon.dfy`): the `Lexicon` class. Its fields are `counts`, `terms`, `idTerm` and `termId`, the ones the original updates in place. `Valid()` states the class invariant: the two sequences have equal length, and `termId == IndexOf(idTerm)`. The read-only queries are functions over the object's state. `PushBack` is the single mutating method.

Two behaviours of the code are worth stating on their own:

- `push_back` updates the reverse map with `std::map::insert` (include/fxt/lexicon.hpp:112), which does not overwrite an existing key. A string appended a second time therefore keeps its first id, while `id_term` and `terms` still grow by one entry. The new id does not round-trip: `TermString` states exactly when `TermId(TermString(id)) == id`.
- Positional access (`At`, `TermString`) is unchecked in the code. The model gives these functions a precondition `id < |terms|` rather than an error result.

## Model

| member | source | states |
|---|---|---|
| `Stats.Term.FieldDocumentCount` | include/fxt/lexicon.hpp:51-57 | gives the stored document count when the field is recorded and 0 when it is absent; on a term whose fields stay within its totals, never more than the whole-collection document count |
| `Stats.Term.FieldTermCount` | include/fxt/lexicon.hpp:59-65 | gives the stored term count when the field is recorded and 0 when it is absent; on a term whose fields stay within its totals, never more than the whole-collection term count |
| `TermIndex.Insert` | include/fxt/lexicon.hpp:112 | the ordered map's insert: the key set gains the new key, every existing binding is kept unchanged, and the new value is bound only when the key was absent |
| `TermIndex.FirstIndex` | include/fxt/lexicon.hpp:111-113 | the id a string keeps: a position holding the string, with no earlier position holding it |
| `TermIndex.IndexOf` | include/fxt/lexicon.hpp:141-142 | the reverse map that the id list determines: its keys are exactly the strings that were appended |
| `TermIndex.IndexOfConsistent` | include/fxt/lexicon.hpp:139-142 | the reverse map and the id list agree both ways: every mapped string sits at its id, and every position's string is mapped to that position or to an earlier one |
| `TermIndex.FirstIndexAppend` | include/fxt/lexicon.hpp:111-113 | appending a string never moves the first occurrence of a string already present, so existing ids are never renumbered |
| `TermIndex.FirstIndexNew` | include/fxt/lexicon.hpp:111-113 | a string new to the list first occurs at the appended position, which is the old size |
| `TermIndex.AppendPresent` | include/fxt/lexicon.hpp:112-113 | appending a string that is already present leaves the reference reverse map unchanged |
| `TermIndex.AppendNew` | include/fxt/lexicon.hpp:111-113 | appending a new string adds exactly that string to the reference reverse map, bound to the appended position |
| `TermIndex.InsertAppend` | include/fxt/lexicon.hpp:110-116 | inserting the next id unless the string is present, then appending the string, keeps the stored reverse map equal to the one the id list determines |
| `TermIndex.DistinctAppend` | include/fxt/lexicon.hpp:111-113 | appending a string keeps the id list free of repeats exactly when the list had none and the string is new |
| `TermIndex.DistinctCount` | include/fxt/lexicon.hpp:139-142 | the reverse map has at most as many keys as the id list has entries, and exactly as many when no string repeats |
| `Fxt.Lexicon.Empty` | include/fxt/lexicon.hpp:127 | the default lexicon has zero counts, empty tables, length 0 and satisfies the invariant |
| `Fxt.Lexicon.constructor` | include/fxt/lexicon.hpp:129 | sets the collection counts and installs the sentinel: the only entry is "xxoov" at id 0 with empty statistics, the invariant holds, and the length is 0 |
| `Fxt.Lexicon.Length` | include/fxt/lexicon.hpp:85-91 | the number of stored entries less the sentinel slot, clamped to 0 on an empty table; with the sentinel installed, the number of appends after it (see `Fxt.LengthCountsAppends` for how that relates to distinct terms) |
| `Fxt.Lexicon.At` | include/fxt/lexicon.hpp:93 | read-only positional access to the statistics of an id; requires the id to be in range |
| `Fxt.Lexicon.TermId` | include/fxt/lexicon.hpp:96-102 | total string-to-id lookup: a known string gives an id holding that string, the first such id; an unknown string gives the OOV id |
| `Fxt.Lexicon.OovTerm` | include/fxt/lexicon.hpp:104 | always the constant OOV id 0; in a lexicon holding the sentinel, that id names "xxoov" |
| `Fxt.Lexicon.IsOov` | include/fxt/lexicon.hpp:106 | holds exactly when the id is the OOV id 0 |
| `Fxt.Lexicon.TermString` | include/fxt/lexicon.hpp:108 | id-to-string lookup for an in-range id: the string stored at that id; it is in the reverse map, resolves to this id or an earlier one, and resolves to this id exactly when no earlier id holds the same string |
| `Fxt.Lexicon.PushBack` | include/fxt/lexicon.hpp:110-116 | appends the statistics and the string at the next id and keeps the invariant; a new string then resolves to that id, a repeated string keeps its old id; no existing statistics, string or reverse entry changes; the length grows by one when the table was non-empty; the sentinel stays in place |
| `Fxt.OovLookup` | include/fxt/lexicon.hpp:96-108 | with the sentinel installed (as the counts constructor leaves it), a string resolves to the OOV id exactly when it is unknown or is "xxoov" itself; "xxoov" resolves to the OOV id, and the OOV id names "xxoov" |
| `Fxt.DistinctRoundTrip` | include/fxt/lexicon.hpp:96-108 | when no string was appended twice, string-to-id and id-to-string are inverse to each other |
| `Fxt.LengthCountsAppends` | include/fxt/lexicon.hpp:84-91 | with the sentinel installed, the length is at least the number of distinct real terms in the reverse map, and equal to it exactly when no string was appended twice |
| `Fxt.Scenario` | include/fxt/lexicon.hpp:79-116 | a lexicon with counts (100, 500), then two distinct new terms appended (say "dog" with some field statistics, then "cat"): the collection counts stay 100 and 500, the length is 2, "dog" is id 1, "cat" is id 2, any other string is the OOV id, and a recorded field of "dog" gives its stored document count while an unrecorded field gives 0 |

The collection-level `document_count()` and `term_count()` of `Lexicon` and of `Term`, and `get_counts()` and `get_field_counts()` of `Term`, are field reads of the datatypes (`counts.documentCount`, `t.counts`, `t.fieldCounts`). They have no members of their own.

## Left out

- Serialization (`serialize` of `Counts`, `Term` and `Lexicon`) goes through the cereal library, whose archive format and stream I/O are not part of this model. The save/load round trip is therefore not modelled. The ascending key order of `FieldCounts` matters only for that byte layout, so an unordered `map` is used.
- The non-const `operator[]` hands out a mutable reference for callers to change a term in place. Only read access (`At`) is modelled.
- Counts and field ids are 64-bit unsigned integers in the original, and ids are `size_t`. The model uses unbounded naturals and does not model wrap-around. No operation of the lexicon does arithmetic on counts, and the table size cannot realistically reach 2^64.
- `Fxt.Lexicon.Length`: the comment on `length()` (include/fxt/lexicon.hpp:84) calls it the number of unique terms, but the code returns `terms.size() - 1`, which also counts a string appended twice. The model follows the code. `Fxt.LengthCountsAppends` states that the two agree exactly when no string repeats.
- `Fxt.Lexicon.At` and `Fxt.Lexicon.TermString`: an out-of-range id is undefined behaviour in the original. The model excludes it by a precondition and does not model an error result.
- The number of real terms after k appends following the counts constructor is k. This is stated one append at a time, by `Length` in the constructor's and `PushBack`'s contracts, and not as a single lemma, because lemmas cannot call methods.
