# Kor: a verified model of its query engine and commit protocol

Kor serves the Firestore API from PostgreSQL. It answers a query in one of three
ways: a general path that filters, sorts and pages in Go, a scan of materialised
index keys, and a scan in name order. All three are meant to return the same
documents in the same order. Commits are optimistic transactions under ordered
locks, keep the index rows in step, and feed a change log that readers resume from.
This project models those parts in Dafny 4.11 and proves what they promise.

`dafny verify dfyconfig.toml` checks the whole project. Nothing was executed.

## What is proved

1. **Sort keys.** The byte order of the encoding of any two values, of any depth,
   is `Compare`; unequal values never have one key a prefix of the other
   (`SortKeys.OrderIsomorphism`). The kinds come in the documented order, and the order
   within each is told without the comparison (`Kinds`). Integers and doubles share one
   exact order, and
   `Compare` is a total order on everything without a NaN coordinate, and on no value
   with one do ties carry over (`Ties.OrderedExact`).
2. **Queries.** Every operator means what its name says, told from the field's value
   and from other operators (`FilterLaws`). A key lies in a planned byte range exactly when its document meets
   the equality filters, the inequality and both cursors
   (`RangeExact.RangeIsExact`); scanning the ranges, merging and paging gives the
   general path's list (`Refinement.BothPathsAgree`); and so does every execution
   path of `RunQuery`, containment narrowing and pushed-down limits included
   (`Engine.RunQuery`). Narrowing by one filter loses no document exactly when its
   operand is covered (`Containment.CoveredExact`), and a limit pushed without its
   cursors is safe exactly when a test on the query fails
   (`NamePath.PushedLimitExact`, `Splitting.SplitsExact`).
3. **Commits.** Over every interleaving of reads, recordings, rollbacks, lock
   acquisitions, checks and commits, the table is what the committed jobs produce
   one after the other, each seeing exactly the values it had read
   (`Serializability.Serializable`): of each document the first recorded read, as the
   table was when it was served (`Reads.FirstReadsHold`). When a commit succeeds and what
   it leaves is told from rows and writes alone (`WriteLaws.CommitExact`,
   `WriteLaws.RowExact`). A commit waits for advisory locks, and then for
   the rows it inserts into `collections`. No run gets stuck exactly when no two lock
   ids are ever taken in both orders and no two collections without a row are ever
   reached in both orders under different locks (`Deadlocks.DeadlockFreeExact`); for
   lock ids that tell names apart, exactly when no two new collections nest
   (`Deadlocks.NestingExact`). The code does not rule the nesting out
   (`Deadlocks.FreshCollections`).
4. **Change feed.** Each row a commit changes becomes one event, a deletion exactly when
   the row is gone, and reaches the reader (`Delivery.ChangeDelivered`). Over the same
   interleavings and any paged reads, each committed event is delivered once, nothing at
   or below a cursor commits later, and the events of one document arrive in commit
   order (`ChangeFeed`).
5. **Index rows.** Keys are built from the fields as sent, rows hold them to the
   microsecond. A commit keeps an index in agreement exactly when the two have the
   same keys (`IndexMaintenance.IndexStore.Commit`), which is when every indexed
   timestamp is a whole number of microseconds (`StoredKeys.SameFieldKeysExact`).
6. **Importer.** Whatever fails and however often it restarts, no document is lost
   exactly when trimming the saved cursor passes no later id (`Import.ResumeExact`);
   ids that do not begin with white space are safe, and " y" before "a" is not.
7. **Smaller pieces.** Field paths round-trip, masked updates obey their laws,
   transforms do what their names say and nothing else (`TransformLaws`), and sums of
   doubles are rounded to the nearest one (`Rounding.AddNearest`).

### What the index path needs

`Planning.Servable`, `Refinement.SoundPaging` and `Refinement.UnderParent` collect
what the code does not check itself; `Limits`, `Merge.ZeroLimitExact`,
`SortKeys.TimestampExact`, `SortKeys.GeoPointExact`, `SortKeys.VectorLengthExact` and
`StoredKeys.SubMicrosecond` show what happens without it:

- Definitions have distinct paths, the name only last, contains fields ascending and
  inside the equality prefix. (Only a definition built by hand for `SetIndexes` has a
  descending contains field: neither `ParseConfig` nor `ParseSpec` produces one.)
- A query does not combine array-contains with array-contains-any.
- Cursors hold no value at the name term, and an empty cursor has an equality
  prefix to stand on or nothing to exclude.
- All documents with the collection id lie under the query's parent.
- The offset is not negative (`General.RunGeneral`: the general path panics on exactly
  those), and a query over several ranges does not ask for zero documents.
- Values have non-negative nanos, geopoints without NaN, vectors shorter than 2^32.
- The index rows agree with the stored documents, which is item 5 above.

### What narrowing needs

Where no index serves the query, each equality or array-contains operand of a pure
conjunction is covered: a scalar; a value that does not encode; or an array, map or
geopoint whose one probe every equal value includes (`Containment.Covered`). For
operands without an empty vector the last is a test on the operand alone
(`Covering.PlainExact`): at no depth a number that also has another spelling (every
zero, every integer that is a double, and the reverse), a coordinate that is zero or
NaN, or a vector with members besides its type and its elements.

### Where code and comments differ

The model follows the code.

- The comment on `splitFilters` (internal/index/plan.go:356-359) declines IN and
  array-contains; the code plans both.
- The comment on pushed limits (internal/store/query.go:99) says they are pushed only
  when the loop cannot drop rows; a cursor that is not one reference is not pushed,
  and the loop then drops rows (`NamePath.UnpushedCursorShortPage`).
- The comment on timestamps (internal/value/compare.go:116-117) says writes are
  truncated before storage, so that full nanoseconds make no difference. The row is
  truncated as it is encoded, its index keys are built before that, and the two
  differ (`StoredKeys.SubMicrosecond`).
- The importer's comment (cmd/kor/main.go:257-261) says a failure never moves the
  cursor backwards; it moves back to the last committed document when the batch ran
  ahead of it, and that is what keeps the copy complete.

### Modules

| module | content |
|---|---|
| `Bytes`, `Numbers`, `Values`, `SortKeys` | byte order, exact numbers, values, the encoding |
| `Kinds`, `Orders`, `Ties` | what the order is, that it is total, and what ties |
| `FieldPaths`, `Writes`, `Transforms`, `TransformLaws`, `Rounding` | path grammar and printer, nested maps, masked updates, field transforms and rounding |
| `Storage`, `StoredKeys` | what a document reads back as, and what that does to its keys |
| `Queries`, `FilterLaws`, `Indexes`, `Plans` | filters and what they mean, ordering, cursors; index keys; the planner |
| `Spans`, `Layouts`, `RangeExact`, `Planning` | what a planned range selects |
| `Merge`, `General`, `Refinement` | merge and paging; the reference path; their agreement |
| `DocNames`, `NamePath`, `Splitting` | names, the name-ordered scan, the test for a pushed limit |
| `Conversions`, `Encoding`, `Covering`, `Containment`, `Engine` | twins of numbers, tagged JSON, narrowing, the dispatch |
| `Limits` | what fails without the hypotheses |
| `Transactions`, `WriteLaws`, `Protocol` | one commit alone and what it does; many commits as a state machine |
| `Serializability`, `Reads`, `Progress`, `LockOrder`, `Deadlocks`, `ChangeFeed`, `Delivery` | what every run of the machine keeps |
| `IndexMaintenance`, `Import` | index rows along commits and backfills; the importer |

## Model

| member | source | states |
|---|---|---|
| `Numbers.NumberKeyCoded` | internal/value/sortkey.go:181-226 | for every int64 and every non-NaN double, class, biased exponent and aligned mantissa order by exact value, and equal numbers of either type have equal bytes |
| `Numbers.CompareNumbersExact` | internal/value/compare.go:156-178 | the three-way comparison is the order of the exact mathematical values, across types |
| `Numbers.IntNumParts` | internal/value/sortkey.go:181-194 | the encoded exponent and mantissa of an int64, the least one included, denote its exact magnitude |
| `Numbers.DoubleNumParts` | internal/value/sortkey.go:196-226 | the same for a finite double, subnormals included |
| `Numbers.OrderedDoubleCoded` | internal/value/sortkey.go:230-238 | the fixed 8-byte form orders as the doubles do |
| `SortKeys.OrderIsomorphism` | internal/value/sortkey.go:59-178 | the sign of the byte comparison is `Compare`, keys are equal exactly on equal values, and unequal keys are prefix-free |
| `Kinds.EarlierKind` | internal/value/compare.go:13-30 | null, boolean, NaN, number, timestamp, string, bytes, reference, geopoint, array, vector, map: an earlier kind comes first, in comparison and in both directions of the keys |
| `Kinds.KeyFirst` | internal/value/sortkey.go:29-42 | the first byte of every key is that of its kind in the table |
| `Kinds.ByteOrder` | internal/value/compare.go:118-122 | strings and bytes by the first byte that differs, a prefix first |
| `Kinds.ScalarOrder` | internal/value/compare.go:106-122 | false before true, timestamps by seconds and then nanos, strings and bytes by their bytes |
| `Kinds.DoubleOrder` | internal/value/compare.go:156-178 | doubles by sign and magnitude |
| `Kinds.GeoOrder` | internal/value/compare.go:125-130 | geopoints by latitude, then longitude |
| `Kinds.NameOrder` | internal/value/compare.go:207-216 | names by the first segment that differs, a shorter one first |
| `Kinds.ArrayOrder` | internal/value/compare.go:180-188 | arrays by the first elements that differ, a shorter one first |
| `Kinds.VectorOrder` | internal/value/compare.go:133-140 | vectors by length before their elements |
| `Kinds.EntryOrder` | internal/value/compare.go:190-202 | maps by the first entry that differs, the key before the value |
| `Kinds.SmallerMap` | internal/value/compare.go:190-202 | and where none does the smaller one first |
| `Orders.CompareTotalOrder` | internal/value/compare.go:98-216 | `Compare` is reflexive, antisymmetric and transitive on all values without a NaN coordinate |
| `Orders.NaNNotTransitive` | internal/value/compare.go:125-130 | a NaN coordinate ties with two geopoints that differ |
| `Ties.OrderedExact` | internal/value/compare.go:98-202 | ties with a value carry over to one another exactly when it has no NaN coordinate at any depth the order looks at |
| `SortKeys.DirKeyCoded` | internal/value/sortkey.go:124-129 | complementing a key reverses its order and nothing else, whatever follows |
| `SortKeys.NameKeyCoded` | internal/value/sortkey.go:133-165 | name keys order segment by segment |
| `SortKeys.NamesEqual` | internal/value/compare.go:207-216 | two names compare equal exactly when they are the same |
| `SortKeys.TimestampExact` | internal/value/sortkey.go:75-79 | two timestamp keys order as `Compare` exactly when the seconds differ or the nanos have one sign |
| `SortKeys.GeoPointExact` | internal/value/sortkey.go:86-90 | a geopoint key orders as `Compare` against all geopoints exactly when no coordinate is NaN |
| `SortKeys.VectorLengthExact` | internal/value/sortkey.go:98-109 | two vectors' keys order as `Compare` exactly when their lengths do modulo 2^32, or are equal modulo 2^32 while the elements decide alike |
| `SortKeys.LongVector` | internal/value/sortkey.go:98-109 | 2^32 equal elements sort before one of them |
| `SortKeys.AppendSortKey` | internal/value/sortkey.go:59-121 | the buffer-growing encoder appends the specified key and keeps what was there |
| `SortKeys.AppendSortKeyDesc` | internal/value/sortkey.go:124-129 | the in-place complement touches only the appended bytes |
| `SortKeys.AppendNamePayload` | internal/value/sortkey.go:145-165 | the slash scan appends the segment-wise key |
| `SortKeys.AppendEscaped` | internal/value/sortkey.go:169-178 | the byte loop appends the escaped, terminated string |
| `Values.CompareNames` | internal/value/compare.go:207-216 | the segment loop computes the segment-wise order |
| `Values.CompareArraysLoop` | internal/value/compare.go:180-188 | the element loop with early return is the recursive order |
| `Values.CompareMapsLoop` | internal/value/compare.go:190-202 | the loop over sorted keys compares key then value, then size |
| `Values.SortedKeys` | internal/value/compare.go:218-227 | the keys, each once, in increasing byte order |
| `FieldPaths.RoundTrip` | internal/value/fieldpath.go:17-116 | parsing a printed path gives the path back, for all byte segments |
| `FieldPaths.PrintInjective` | internal/value/fieldpath.go:77-97 | two paths that print alike are equal |
| `FieldPaths.ParseFieldPath` | internal/value/fieldpath.go:17-73 | the index-driven parser accepts exactly the grammar and returns its segments |
| `FieldPaths.PrintPath` | internal/value/fieldpath.go:77-97 | the buffer-building printer is the canonical form |
| `FieldPaths.GetFieldLoop` | internal/value/fieldpath.go:120-137 | the downward walk is the recursive lookup |
| `Writes.Update` | internal/writes/writes.go:64-83 | the mask loop applies the paths in order and fails at the first that does not parse |
| `Writes.StringsAreMask` | internal/writes/writes.go:72-82 | a mask that parses acts as its parsed paths |
| `Writes.MaskPathsRead` | internal/writes/writes.go:72-82 | every mask path reads afterwards as it does in the update, present or absent |
| `Writes.MaskFrame` | internal/value/fieldpath.go:141-186 | every path comparable with no mask path reads as before |
| `Writes.MaskOrderIrrelevant` | internal/writes/writes.go:72-82 | order and repetition of mask paths do not matter, comparable paths included |
| `Transforms.ApplyTransforms` | internal/writes/writes.go:160-231 | the transforms act in order, each on what the earlier ones left, up to the first error |
| `TransformLaws.TransformExact` | internal/writes/writes.go:160-231 | each transform leaves at its path what its name says, given what was there, and every path not comparable with it as it was |
| `TransformLaws.LastTransform` | internal/writes/writes.go:116-128 | a write carries out its transforms after its operation, one after the other |
| `TransformLaws.OwnTransforms` | internal/writes/writes.go:96-110 | a write of transforms alone starts from the fields that are there |
| `Rounding.Float64Nearest` | internal/writes/writes.go:249-264 | no double is nearer to an int64 than the one it converts to, and a tie is even |
| `Rounding.AddNearest` | internal/writes/writes.go:249-264 | the same for the sum of two finite doubles, infinite only past the greatest |
| `Rounding.OverflowExact` | internal/writes/writes.go:249-264 | which begins exactly halfway past it |
| `Transforms.IncrementSaturates` | internal/writes/writes.go:288-294 | the wrap-around test gives the exact sum, clamped to int64 |
| `Transforms.ExtremumIs` | internal/writes/writes.go:266-281 | the result is the number not beaten, NaN before all, the stored one on a tie |
| `Transforms.UnionHas` | internal/writes/writes.go:160-231 | a union keeps what was there in place and adds exactly what equals nothing yet |
| `Transforms.WithoutHas` | internal/writes/writes.go:160-231 | a removal leaves exactly the elements that equal none of those given |
| `Conversions.AddExact` | internal/writes/writes.go:233-264 | double addition is exact whenever some double equals the sum |
| `Storage.StoreKeeps` | internal/value/value.go:82-132 | a value reads back equal exactly when it holds nothing below the microsecond, and is well formed then |
| `Storage.StoredField` | internal/value/value.go:134-147 | reading a field of the stored document is storing the field read |
| `Encoding.EncodeStored` | internal/value/value.go:82-147 | the stored text of a value is that of what reads back, so both probe alike |
| `Queries.Eval` | internal/query/query.go:257-277 | the early-leaving walk over composites decides the filter |
| `Queries.EvalFieldFilter` | internal/query/query.go:303-438 | the switch and its list walks decide one filter |
| `FilterLaws.EqLaw` | internal/query/query.go:324-330 | equality is comparing equal, of a present field or the name |
| `FilterLaws.NeLaw` | internal/query/query.go:332-341 | inequality is a present field that is not null and not equal |
| `FilterLaws.RangeLaw` | internal/query/query.go:343-361 | the range operators are the sides of the order, among values of the operand's kind |
| `FilterLaws.InLaw` | internal/query/query.go:363-377 | in is equality with an element that is neither null nor NaN |
| `FilterLaws.NotInLaw` | internal/query/query.go:379-397 | not-in is inequality with every element; a null among them matches nothing, NaN is skipped |
| `FilterLaws.NotInComplement` | internal/query/query.go:363-397 | without those it is the complement of in among fields that are not null |
| `FilterLaws.ContainsLaw` | internal/query/query.go:399-406 | array-contains is an element equal to an operand that is neither null nor NaN |
| `FilterLaws.ContainsAnyLaw` | internal/query/query.go:408-421 | array-contains-any is array-contains of one of the elements |
| `FilterLaws.UnaryLaw` | internal/query/query.go:280-301 | the unary filters are equality and inequality with null and with NaN |
| `FilterLaws.CompositeLaw` | internal/query/query.go:257-271 | a document is selected by an Or when by one of its members, by an And when by all |
| `FilterLaws.PairLaw` | internal/query/query.go:257-271 | Or selects the union and And the intersection |
| `FilterLaws.MatchLaw` | internal/query/query.go:239-255 | a document matches when it has every ordering field and the filter selects it |
| `FilterLaws.FirstInequalityIs` | internal/query/query.go:212-236 | the implicit ordering field is that of the first range, inequality or negated unary filter of the tree |
| `Queries.CompareKeysLoop` | internal/query/query.go:454-461 | the loop is the lexicographic comparison with reversed descending terms |
| `Queries.EffectiveOrder` | internal/query/query.go:76-126 | succeeds exactly when the fields are distinct and all paths parse, the implicit one included; explicit terms first, else the inequality field, a name term in the last direction where none is given, and no others |
| `Indexes.BuildKeys` | internal/index/index.go:119-176 | the head-rewriting loop yields the document's keys |
| `Indexes.KeyMember` | internal/index/index.go:119-176 | every key is one component per effective field, concatenated |
| `Indexes.KeyHas` | internal/index/index.go:119-176 | every such concatenation is a key |
| `Indexes.BuildPrefixKey` | internal/index/index.go:197-210 | the loop encodes the leading values in their fields' directions |
| `Indexes.FindPrefixEnd` | internal/index/index.go:215-225 | the backward scan finds the specified end |
| `Indexes.PrefixEndExact` | internal/index/index.go:215-225 | below the end lies exactly what is below the prefix or starts with it |
| `Plans.CollectLoop` | internal/index/plan.go:501-573 | the walk accumulates what the recursive collection finds, and declines the same trees |
| `Plans.MatchLoop` | internal/index/plan.go:111-170 | the two loops accept exactly the definitions whose prefix is the equality set and whose rest is the ordering, in one direction |
| `Plans.BuildCursorKey` | internal/index/plan.go:315-330 | the position key, nil when nothing was encoded |
| `Plans.BoundsLoop` | internal/index/plan.go:217-293 | narrowing lo and hi in place gives the specified range |
| `Plans.PlanRangesLoop` | internal/index/plan.go:445-499 | one range per distinct searchable value of a list |
| `Plans.For` | internal/index/plan.go:81-102 | the plan of a ready definition before which none serves the query, and none only when none does |
| `Layouts.PlaceExact` | internal/index/plan.go:297-330 | a key against a position key, used as each of the four bounds, is the document's place in the ordering |
| `Layouts.SuffixOrder` | internal/index/index.go:119-176 | ordering suffixes compare as the query's tuples, in the scan direction |
| `Layouts.CursorsExact` | internal/index/plan.go:270-292 | the cursors' share of a range is `InCursorRange` |
| `Layouts.IneqExact` | internal/index/plan.go:226-268 | the inequality's share is the filter, type bucket included, in both directions |
| `RangeExact.CollectHolds` | internal/index/plan.go:501-573 | what was collected holds exactly when the filter tree does |
| `RangeExact.RangeIsExact` | internal/index/plan.go:217-293 | a document's key lies in the planned range exactly when the document meets filters and cursors; there is then one such key |
| `Planning.PlanIs` | internal/index/plan.go:445-499 | the ranges of a plan have different prefixes, one direction, and cover every choice of a list value |
| `Planning.PlanSelects` | internal/index/plan.go:360-401 | a document matches exactly when the range of some choice selects it |
| `Planning.RangesDisjoint` | internal/index/plan.go:445-499 | the ranges of an `in` list share no document |
| `Merge.MergeRanges` | internal/store/query.go:520-568 | the positions loop emits the page of the merged, deduplicated rows, a zero limit acting as one |
| `Merge.MergedPermutes` | internal/store/query.go:526-566 | the merge is a permutation of its streams |
| `Merge.MergedSorted` | internal/store/query.go:526-566 | sorted streams merge to a sorted list |
| `Merge.DistinctOnce` | internal/store/query.go:551-558 | deduplication keeps each document once |
| `Merge.DistinctCovers` | internal/store/query.go:551-558 | and every document |
| `Merge.PrefetchEnough` | internal/store/query.go:439-463 | n rows of each range decide the first n merged |
| `Merge.PrefetchPage` | internal/store/query.go:439-463 | reading offset+limit rows per range gives the same page, also when the int32 sum wraps |
| `Merge.ZeroLimitExact` | internal/store/query.go:563-566 | the page is the asked-for one exactly when the limit is not zero or nothing is left |
| `General.GroupRange` | internal/store/query.go:231-238 | the name range of a collection group is the names below the parent |
| `General.DocOrder` | internal/query/query.go:440-461 | the query's order is a strict order of documents |
| `General.NoTies` | internal/query/query.go:123-126 | the name term leaves no ties |
| `General.RunGeneral` | internal/store/query.go:145-197 | the page of the sorted list of all documents that pass, from any candidate rows in any order; a panic exactly on a negative offset |
| `Refinement.ScanIs` | internal/store/query.go:472-511 | the entries of a range are the range keys of the documents it selects |
| `Refinement.MergedShows` | internal/store/query.go:422-463 | the merged ranges show exactly the answer, each document once, in order |
| `Refinement.ScanIndex` | internal/store/query.go:422-463 | the names of the general path's page, with one range, several or none |
| `Refinement.RunIndexed` | internal/store/query.go:368-413 | the general path's documents; neither of its two errors arises |
| `Refinement.BothPathsAgree` | internal/store/query.go:368-463 | for every table, definition and planned query both executions return the same list |
| `NamePath.AgreeExact` | internal/value/compare.go:204-216 | byte order is segment order exactly when no slash meets a smaller byte at the first difference |
| `DocNames.NameParts` | internal/store/store.go:129-150 | a parsed document name is parent, collection and id again |
| `DocNames.NameExact` | internal/store/store.go:127-150 | exactly the names of documents parse: a project, a database, collections and ids in turn, none empty |
| `DocNames.SameCollectionParts` | internal/store/store.go:129-150 | two names share a collections row exactly when parent and collection are the same |
| `NamePath.SingleParentServable` | internal/query/query.go:508-530 | one collection with absent or child-naming cursors always qualifies for the name scan |
| `NamePath.RunNameOrdered` | internal/store/query.go:72-140 | pushed-down order, cursors and limit give the general path's list |
| `NamePath.GroupOrderExact` | internal/store/query.go:72-98 | over a collection group the name scan is in query order exactly when no two selected names invert |
| `NamePath.PushedLimitExact` | internal/store/query.go:79-102 | a pushed limit gives the right page on every table exactly when the cursors are pushed with it or no limit + 1 names of the base begin with one the start cursor drops and end with one both keep |
| `NamePath.SplitsNeedsName` | internal/store/query.go:79-102 | that takes a start cursor at a name and a positive limit: end cursors, empty cursors and other values are harmless |
| `Splitting.SplitsExact` | internal/store/query.go:79-102 | for a query over one collection that is an executable test on the cursors, the direction and the limit |
| `NamePath.CutExact` | internal/store/query.go:99-140 | on one table the page is right exactly when the loop drops none of the rows fetched or keeps none beyond them |
| `NamePath.UnpushedCursorShortPage` | internal/store/query.go:79-102 | a cursor with a second value is not pushed although the limit is, and costs a page its row |
| `Conversions.ToInt64Exact` | internal/store/query.go:319-322 | the guarded conversion succeeds exactly on doubles that equal an int64 |
| `Conversions.Float64Exact` | internal/store/query.go:311-314 | the rounding conversion is exact whenever some double equals the integer |
| `Conversions.NumberTwins` | internal/store/query.go:309-327 | a number equals the operand exactly when it is one of the probed values, twins and both zeros included |
| `Containment.NestPath` | internal/value/containment.go:31-42 | the downward loop wraps the leaf in one map tag per inner segment |
| `Containment.NestExact` | internal/value/containment.go:12-42 | stored data includes a nested probe exactly when the field exists and includes the leaf |
| `Containment.BuildProbes` | internal/store/query.go:285-332 | one probe per alternative that encodes |
| `Containment.CollectProbes` | internal/store/query.go:245-283 | one group per equality or array-contains filter of a conjunction, none for other trees |
| `Containment.GroupKeeps` | internal/store/query.go:285-332 | a document that meets the filter includes one of its probes, or there are none, for every covered operand |
| `Covering.SurelyExact` | internal/value/containment.go:12-42 | every storable value equal to the operand includes its encoding exactly when it is sure: a recursive test, arrays matched element to element |
| `Covering.PlainExact` | internal/store/query.go:309-327 | without empty vectors that is: no number with a twin, no coordinate zero or NaN, no hidden vector member, at any depth |
| `Containment.CoveredExact` | internal/store/query.go:285-332 | narrowing by one filter keeps every document that meets it exactly when the operand is covered |
| `Containment.GeoPointCovered` | internal/store/query.go:309-327 | a geopoint is covered exactly when no coordinate is zero or NaN |
| `Containment.GroupExact` | internal/store/query.go:285-332 | for scalars only such documents do, where texts are injective and the operand is no timestamp |
| `Containment.NarrowingKeeps` | internal/store/query.go:245-283 | narrowing by covered operands never excludes a match, whatever the filter tree |
| `Containment.NarrowedCandidates` | internal/store/query.go:29-45 | the rows of the WHERE clause hold every document the general path returns |
| `Containment.GeoPointMissed` | internal/store/query.go:309-327 | a geopoint with negative zeros equals the operand and is excluded |
| `Engine.RunQuery` | internal/store/query.go:29-68 | whichever path is taken, the answer is the general one; what narrowing and the name scan need is asked only where no index serves |
| `Limits.ScanAnyParent` | internal/store/query.go:472-487 | the index scan answers for the collection id under any parent |
| `Limits.ParentExact` | internal/store/query.go:231-238 | without paging that is the general answer exactly when every passing document lies under the parent |
| `Limits.EmptyStartExact` | internal/index/plan.go:297-330 | an empty start cursor with no equality prefix is exact only where it keeps everything |
| `Limits.EmptyEndExact` | internal/index/plan.go:297-330 | the same for an end cursor |
| `Limits.NameCursorExact` | internal/index/plan.go:315-330 | a cursor value at the name term is exact only for names before it |
| `Limits.ContainsInOrder` | internal/index/plan.go:147-165 | a contains field among the ordering fields is accepted, and documents without an array are missed |
| `Limits.ContainsOrderExact` | internal/index/index.go:119-176 | a field writes the value a query orders by exactly when it is no contains field |
| `Limits.DescendingContains` | internal/index/index.go:197-210 | a descending contains field is searched under a prefix no key has |
| `Limits.ElementExact` | internal/index/index.go:119-210 | a field writes what an element is searched by exactly when it is an ascending contains field |
| `Limits.DuplicatePath` | internal/index/plan.go:122-141 | a repeated path lets a second equality go unchecked |
| `Limits.DuplicateExact` | internal/index/plan.go:122-141 | every equality is looked at exactly when the leading paths are distinct |
| `Limits.NameNotLast` | internal/index/plan.go:175-183 | a name before other fields serves a name ordering and misses documents without those fields |
| `StoredKeys.KeyedExact` | internal/index/index.go:119-176 | a document has a key exactly when it has every field, and elements in those of the contains kind |
| `Limits.NameFirstExact` | internal/index/plan.go:175-183 | a definition that begins with the name serves an ordering by it, and holds every document exactly when it has no other field |
| `Limits.BothContains` | internal/index/plan.go:422-436 | array-contains beside array-contains-any plans a range that misses a matching document |
| `Limits.ListContainsExact` | internal/index/plan.go:422-436 | a document that holds the element searched for has a key under the planned prefix exactly when its path is the array-contains one |
| `Transactions.CollectLocks` | internal/store/store.go:202-226 | targets and lock set, sorted and without repeats |
| `Transactions.RunWrites` | internal/store/store.go:279-287 | the writes in order, transforms included, later ones seeing earlier ones, or the first error |
| `Transactions.Apply` | internal/writes/writes.go:56-133 | one write of any kind: its precondition, the fields, then its transforms |
| `WriteLaws.WriteExact` | internal/writes/writes.go:56-147 | one write succeeds exactly when its precondition holds of the document and its paths and transforms can be carried out |
| `WriteLaws.UpdateLeaves` | internal/writes/writes.go:64-89 | an update leaves its own fields, or under a mask the mask's paths from it and the rest of what an earlier write of the commit left |
| `WriteLaws.CommitExact` | internal/store/store.go:256-310 | a commit succeeds exactly when its reads are current, every write finds its precondition met by the row and the earlier writes, and the result can be stored |
| `WriteLaws.FirstPreconditions` | internal/writes/writes.go:135-158 | the first write of a document finds the row its precondition demands: none, one, or one of this version |
| `WriteLaws.RowExact` | internal/store/store.go:279-329 | an unnamed document stays as it was, one last deleted has no row, any other is stamped with the commit's time and as old as the row it replaces, with the fields of a full set |
| `WriteLaws.DeleteExact` | internal/writes/writes.go:91-94 | a delete on its own removes the row and nothing else, exactly when its precondition holds |
| `WriteLaws.SetExact` | internal/writes/writes.go:64-86 | an update without a mask leaves exactly its fields as they read back |
| `WriteLaws.MaskedExact` | internal/writes/writes.go:64-86 | an update with a mask leaves the mask's paths as it has them and the others as they were |
| `Transactions.PersistLoop` | internal/store/store.go:289-329 | row by row, exactly the dirty documents change, to what their fields read back as, and their collections get a row; a document that does not encode changes nothing; an existing row keeps its create time |
| `Transactions.ApplyCommit` | internal/store/store.go:199-335 | with the database to itself, the check, the writes and the rows are the one atomic action the concurrent runs are measured against |
| `Transactions.PrepareLocal` | internal/store/store.go:245-287 | a commit's check and effect depend only on the documents it locks |
| `Transactions.TxnRegistry.Begin` | internal/store/txn.go:34-52 | expired entries go, a fresh one comes |
| `Transactions.TxnRegistry.Record` | internal/store/txn.go:54-68 | the first version read of each document wins; unknown transactions are refused |
| `Transactions.TxnRegistry.Take` | internal/store/txn.go:70-79 | an entry can be taken once |
| `Transactions.TxnRegistry.Drop` | internal/store/txn.go:81-85 | the entry is gone, the others stay |
| `Serializability.Exclusive` | internal/store/store.go:234-243 | two commits that share a document never overlap between check and end, for any lock ids |
| `Serializability.VerifiedMeansCurrent` | internal/store/store.go:256-267 | equal versions mean equal values: each value first read is still current |
| `Serializability.FinishIsSerial` | internal/store/store.go:256-335 | when a commit takes effect, its reads are current and its effect is that of running alone |
| `Serializability.Serializable` | internal/store/store.go:199-335 | every run's table is what the committed jobs produce one after the other |
| `Progress.TransactionCommits` | internal/store/store.go:199-335 | with the database to itself a transaction whose job is possible commits, with the table its job leaves alone |
| `Reads.FirstReadsHold` | internal/store/txn.go:54-79 | when a transaction's commit takes effect, the first recorded read of each document is still its value, and the version the check compared |
| `Reads.NothingElse` | internal/store/txn.go:54-68 | a document it never recorded is not checked |
| `Reads.TakenOnce` | internal/store/txn.go:70-85 | once committed or rolled back a transaction is gone until it is begun anew |
| `LockOrder.LockProgress` | internal/store/store.go:202-243 | while no ids are taken in both orders, the chain of lock holders ends at a commit that waits for no lock |
| `LockOrder.InjectiveConsistent` | internal/store/store.go:238-240 | lock ids that are injective on names qualify |
| `LockOrder.CollisionDeadlock` | internal/store/store.go:238-240 | ids taken in both orders let two deletes wait for each other |
| `Deadlocks.NoDeadlock` | internal/store/store.go:199-335 | from every commit the chain of those it waits for, for locks and for rows, ends at one that can go on |
| `Deadlocks.ProceedExact` | internal/store/store.go:234-335 | a commit can go on exactly when one of its steps other than giving up is enabled |
| `Deadlocks.TangleDeadlock` | internal/store/store.go:289-329 | two new collections reached in both orders under different locks let two commits wait for each other's row |
| `Deadlocks.DeadlockFreeExact` | internal/store/store.go:199-335 | no run gets stuck exactly when no two ids are taken in both orders and no two new collections are reached in both orders under different locks |
| `Deadlocks.NestingExact` | internal/store/store.go:289-329 | with ids that tell names apart, exactly when no two new collections nest |
| `Deadlocks.FreshCollections` | internal/store/store.go:308-309 | two commits that share no document and no lock id wait for each other: one writes d1/sub/1 and d5, the other d0 and d1/sub/2 |
| `ChangeFeed.ExactlyOnce` | internal/store/changelog.go:49-92 | what was delivered is every wanted committed event at or below the cursor, once, in key order |
| `Delivery.FinishTells` | internal/store/store.go:289-327 | a commit that takes effect adds one event for each row it changes, a deletion exactly when the row is gone, and none of other documents |
| `Delivery.ChangeDelivered` | internal/store/changelog.go:34-92 | every changed row is in the feed from then on, and delivered once when the cursor is past it and the name is wanted |
| `Delivery.CollectionsRegistered` | internal/store/store.go:308-311 | the collection of every document it leaves is registered |
| `Delivery.NoOtherCollection` | internal/store/store.go:308-311 | and a new collections row belongs to a document it leaves |
| `ChangeFeed.NothingCommitsBelow` | internal/store/migrations/0004_changelog.sql:4-15 | no event at or below a cursor commits later |
| `ChangeFeed.DeliveredInCommitOrder` | internal/store/changelog.go:65-74 | events of one document are delivered in the order their commits took effect |
| `ChangeFeed.CaughtUp` | internal/store/changelog.go:58-74 | a page that is not full leaves nothing wanted below the mark undelivered |
| `ChangeFeed.PageExists` | internal/store/changelog.go:49-92 | whatever was delivered and for any limit there is a page to read, not empty while an event is due |
| `ChangeFeed.PositionOrder` | internal/store/changelog.go:58-74 | positions order by transaction id, then by sequence number |
| `ChangeFeed.EventsOfCommit` | internal/store/store.go:312-327 | a commit's events name each document it changed, once, and how |
| `IndexMaintenance.RefreshAgrees` | internal/store/index.go:106-134 | rewriting a document's rows keeps a registered index in agreement exactly when the fields as sent and as stored have the same keys |
| `StoredKeys.SameFieldKeysExact` | internal/store/store.go:295-312 | they do exactly when the document has no key or every indexed timestamp is a normalized whole number of microseconds |
| `StoredKeys.SubMicrosecond` | internal/store/store.go:295-312 | 1500 nanoseconds: the stored document has none of the keys written, and a search for either time goes wrong |
| `IndexMaintenance.UnregisteredDrifts` | internal/store/index.go:106-134 | an index of the collection that is not registered stays in agreement exactly when the stored document has no key in it |
| `IndexMaintenance.BackfillExact` | internal/store/index.go:155-213 | a backfill agrees at its rewrite exactly when the keys its scan saw are still the keys |
| `IndexMaintenance.IndexStore.Refresh` | internal/store/index.go:106-134 | the delete-then-insert loops give the specified rows |
| `IndexMaintenance.IndexStore.Commit` | internal/store/store.go:289-329 | all rows or none; an index that agreed with the documents still does exactly when every change keeps its keys |
| `IndexMaintenance.IndexStore.Backfill` | internal/store/index.go:155-213 | an index, registered or not, agrees once it is marked ready, and each other one does exactly if it did |
| `IndexMaintenance.IndexStore.RunAll` | internal/store/index.go:93-213 | along any run of commits that keep keys and of backfills every serving index agrees with the documents |
| `IndexMaintenance.IndexStore.SetIndexes` | internal/store/index.go:62-91 | the registry and the stored readiness replace the old ones, at process start too; all serving indexes agree exactly when the stored ones among the definitions do, one that was unregistered meanwhile included |
| `Import.FlushKeeps` | cmd/kor/main.go:399-417 | a commit moves the durable cursor only when everything behind it is committed |
| `Import.Importer.Flush` | cmd/kor/main.go:399-417 | the closure over the shared variables is the specified step, its failure included |
| `Import.CopyKeeps` | cmd/kor/main.go:421-437 | a document is in the batch or committed, and the batch stays below both caps |
| `Import.Importer.Copy` | cmd/kor/main.go:421-437 | the same for the closure that copies one document |
| `Import.PageKeeps` | cmd/kor/main.go:326-348 | a page that continues has flushed at least once and moved the durable cursor past its start |
| `Import.Importer.ReadPage` | cmd/kor/main.go:326-348 | the reading loop is the specified page, from any state and for any failures |
| `Import.TriesKeep` | cmd/kor/main.go:243-276 | retries resume from what is durable and skip nothing |
| `Import.Importer.ReadWithRetries` | cmd/kor/main.go:243-276 | the retry loop is the specified tries, the cursor of the last one included |
| `Import.PagesKeep` | cmd/kor/main.go:239-282 | success covers the collection after the start |
| `Import.Importer.ForEachDoc` | cmd/kor/main.go:239-282 | the loop over pages ends on every pattern of failures and is the specified pages |
| `Import.RunKeeps` | cmd/kor/main.go:396-447 | success means everything after the start is committed; on failure the saved cursor still has everything behind it |
| `Import.Importer.Run` | cmd/kor/main.go:396-447 | pages, then the final flush, as specified |
| `Import.ResumeExact` | cmd/kor/main.go:377-447 | over all failures, starts and restarts nothing at or before the saved cursor is missing, and nothing at all on success, exactly when no trimmed id passes a later one |
| `Import.LeadingSpaceSkips` | cmd/kor/main.go:377-384 | " y" and "a": a run breaks after the first, the restart resumes after "y" and reports success without "a" |
| `Import.TrimSafeIds` | cmd/kor/main.go:377-384 | trimming is safe exactly when no id lies after an earlier one and at or before its trimming |
| `Import.NoLeadingSpaceSafe` | cmd/kor/main.go:377-384 | ids that do not begin with white space are safe |
| `Import.Importer.RunUntilDone` | cmd/kor/main.go:377-447 | restart after restart from the trimmed saved cursor is the specified sequence of runs |

## Left out

- The RPC layer, the CLI other than the import loop, metrics, logging, the rate limiter.
- PostgreSQL itself: tables are maps and sets, a scan is any sorted enumeration of the selected rows, LIMIT and OFFSET are pages of it, and of its transactions only lock, snapshot and xid rules are kept.
- Parsing of queries and index specs, and canonicalization of name operands: the model starts from parsed queries and definitions.
- RunCount, DropIndex, DropCollection, PruneChanges, projections: outside the properties above, and easy.
- Write results: the transform results and update times a commit returns to its caller.
- PostgreSQL's deadlock detector: a commit it aborts is the Fail step of the state machine.
- The row locks of DropCollection, PruneChanges and BackfillIndex, which commits could also wait for.
- Aliasing: SetField, DeleteField and DocState are modelled on values, so sharing between an update message and a stored document is not captured.
- Text of numbers, times and base64: arbitrary functions, injective only in GroupExact and PlainExact, the two zeros apart in CoveredExact. Field names and path segments are taken as valid UTF-8 text that PostgreSQL accepts.
- Hashes: index ids are identified with definitions; lock ids are an arbitrary function of the name.
- Wall-clock expiry in the state machine is a rollback at any time; the registry class models the sweep.
- Serializability.Serializable: assumes that no two commits give one document the same update time, as a condition on the step that takes effect.
- IndexMaintenance.IndexStore.Backfill: scan and rewrite are one step; BackfillExact says when commits between them do no harm.
- Limits.ParentExact: stated for queries of one collection; for collection groups the index path is proved only when all documents lie under the parent.
- NamePath.RunNameOrdered: for collection groups it needs names that do not invert; GroupOrderExact is the exact condition without cursors and paging.
- Containment.NarrowingKeeps: stated for covered operands; CoveredExact is exact for one filter, and which whole conjunctions lose a document though an operand is not covered is not.
- Queries.EffectiveOrder: errors are one None; which message is returned is not modelled.
- Refinement.RunIndexed: a negative offset is excluded; the index path treats it as zero where General.RunGeneral panics.
- The `ON CONFLICT` upsert of applyCommit never rewrites create_time, so a document deleted and set again within one commit keeps its old one; Transactions.PersistLoop models that as the code has it.
