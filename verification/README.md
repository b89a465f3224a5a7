# Lighthouse query engine, modelled in Dafny

Lighthouse is a small information-retrieval engine. It reads a directory of
token files: one CSV file per document, each row a term and its count. From
them it builds a term-document matrix, a map from each term to a `TDMHeader`
that heads a singly linked list of `TDMNode` postings. A second pass gives
every posting a BM25 weight. A query is normalised into terms, and each
document's weights under those terms are summed. The engine returns the
documents with their scores, sorted by score.

This project models that core.

- **`Postings`** (`postings.dfy`): the posting list.
  - `TDMNode` is a class, with Java's `ListNode` folded in.
  - `TDMHeader` is a class with a `len` counter. A ghost sequence `chain` holds the nodes reachable from `listHead`.
  - The header's iterator is a class with a ghost sequence of the nodes still to come.
  - `append` walks to the tail with that iterator and links the new node there.
  - The invariant `Valid()` of a header says four things: the chain starts at `listHead`, links node to node, ends in `null`, and has `len` nodes.
- **`Normalize`** (`normalize.dfy`): `normalizeQuery` and the blank test of `query`, as pure functions. It covers the split on runs of spaces, lower-casing, deleting `!()_,.?` and dropping empty pieces.
- **`IndexSpec`** (`index_spec.dfy`): what the two passes and the scoring compute, as functions over a value-level index (term to postings in list order).
  - The build pass has a reference definition (`PostingsFor`): the postings of each term, file by file. `BuildIndexSpec` proves the pass equal to it.
  - One file's weighing has a reference definition (`WeighFileRef`): term by term, the file's first posting gets the weight of the file's last record of that term. `WeighFileSpec` proves the row-by-row fold equal to it. For the whole weighting pass, `WeighFilesShape` proves that nothing but weights changes.
  - Scoring has reference definitions (`DocWeight`, `TermScore`, `Mentioned`). `ScoresSpec` proves the score map equal to them.
- **`Ranking`** (`ranking.dfy`): the final `sorted(comparingByValue())`, a selection loop that yields every map entry once, scores ascending.
- **`Engine`** (`engine.dfy`): the class `QueryEngine`.
  - Its `termMatrix` maps terms to real `TDMHeader` objects.
  - Its methods are proved to build, weigh and query exactly what `IndexSpec` describes.
  - `Valid()` ties every header to the ghost value `index`. A ghost owner mark on each node keeps the lists of different terms apart.
- **`IteratorWalk`** (`iterator_walk.dfy`): the walk of the project's iterator test, a header with five nodes counted and summed by a for-each.

The token directory is given as the sequence of its files, in the order the engine lists them. Each file carries its name and the records read from it.

The BM25 formula is a function-valued parameter, `Weigher`. It receives the same five arguments as `BM25(fqi, nqi, numDocuments, documentLength, avgDocLength)`.

Weights are `real`. `avgDocLength` is a small datatype for a Java `double` quotient: finite, NaN or an infinity.

Five behaviours of the code are modelled as written:

- **Document lengths are always 0.** `documentLength` is reset for each file and never increased, so every stored length is 0 and `totalDocumentLengths` stays 0.
- **`avgDocLength` is 0 or NaN.** It is `totalDocumentLengths / numDocuments` as a Java `double`, so it is 0.0 when there is at least one file and NaN (0 / 0) when there is none.
- **Duplicate rows leave postings at weight 0.** A file with two rows of the same term gets two postings under that term at load time (lines 69-76). The weighting pass always looks for the file's FIRST posting under the term (lines 119-123). So the first posting ends up with the weight of the file's LAST row of the term, and the later postings keep weight 0.0. `WeighFileSpec` states this in general. `DuplicateRowsWeighFirstPosting` shows it on a file "d" with rows ("cat", 2) and ("cat", 3): the result under "cat" is [("d", 2, BM25(3, 2, 1, 0, 0.0)), ("d", 3, 0.0)].
- **Every weight and every score is NaN in Java.** All stored lengths are 0 and `avgDocLength` is 0.0 (or NaN with no files). So `BM25` at line 204 computes `b * documentLength / avgDocLength` as 0.0 / 0.0, which is NaN. NaN propagates to every weight the second pass writes and to every query score, since every scored document has its first posting under the term weighed. The sort at line 164 then finds all entries equal (`Double.compare` of NaN and NaN is 0), so the result keeps the map's iteration order. The check at QueryTest.java:22 evaluates `NaN >= NaN`, which is false, so it fails on any result with two or more documents. The model cannot show any of this: weights are `real` and `BM25` is an uninterpreted parameter. Every statement it proves about weights and scores holds for real-valued weights, not for the NaN values Java produces.
- **Results are sorted ascending.** The query result is ordered by ascending score, which is what `comparingByValue()` does. The project's own ordering test checks for non-increasing scores. `AscendingPassesDescendingCheck` shows that an ascending result passes that check only when all its scores are equal. This holds for the real-valued scores of the model. With the NaN scores Java produces, the check fails on any result with two or more documents, as the previous item explains.

## Model

| member | source | states |
|---|---|---|
| Postings.TDMNode.constructor | app/src/main/java/lighthouse/util/TDMNode.java:18-22 | the node holds the given document id and count, weight 0, and no successor (ListNode's constructor) |
| Postings.TDMNode.GetDocumentID | app/src/main/java/lighthouse/util/TDMNode.java:28-30 | a function of the node (no contract of its own): the document id, reading only that field, so a call changes nothing |
| Postings.TDMNode.GetTermCount | app/src/main/java/lighthouse/util/TDMNode.java:44-46 | a function of the node (no contract of its own): the count, reading only that field |
| Postings.TDMNode.GetTermWeight | app/src/main/java/lighthouse/util/TDMNode.java:60-62 | a function of the node (no contract of its own): the weight, reading only that field; after `SetTermWeight(w)` it is `w` |
| Postings.TDMNode.GetNext | app/src/main/java/lighthouse/util/TDMNode.java:76-78 | a function of the node (no contract of its own): the `next` link, reading only that field; after `SetNext(n)` it is `n` |
| Postings.TDMHeader.GetTerm | app/src/main/java/lighthouse/util/TDMHeader.java:30-32 | a function of the header (no contract of its own): the term, reading only that field; the constructor sets it and `Append` keeps it |
| Postings.TDMNode.SetDocumentID | app/src/main/java/lighthouse/util/TDMNode.java:36-38 | the document id becomes the argument; only that field may change |
| Postings.TDMNode.SetTermCount | app/src/main/java/lighthouse/util/TDMNode.java:52-54 | the count becomes the argument; only that field may change |
| Postings.TDMNode.SetTermWeight | app/src/main/java/lighthouse/util/TDMNode.java:68-70 | the weight becomes the argument, so the getter returns it; only that field may change |
| Postings.TDMNode.SetNext | app/src/main/java/lighthouse/util/ListNode.java:28-30 | this node's `next` becomes the argument; no other field and no other node may change |
| Postings.LinkedNext | app/src/main/java/lighthouse/util/TDMHeader.java:102-111 | in a well-formed chain every node links to its successor and the last node to null |
| Postings.LinksLinked | app/src/main/java/lighthouse/util/TDMHeader.java:54-61 | a sequence linked correctly at every position is a well-formed chain |
| Postings.LinkedDistinct | app/src/main/java/lighthouse/util/TDMHeader.java:56-58 | a chain that ends in null visits no node twice |
| Postings.SnapAt | app/src/main/java/lighthouse/util/TDMHeader.java:102-111 | the i-th posting of a chain is the data held by its i-th node |
| Postings.SnapSnoc | app/src/main/java/lighthouse/util/TDMHeader.java:54-61 | one more node at the end gives exactly one more posting at the end |
| Postings.TDMIterator.constructor | app/src/main/java/lighthouse/util/TDMHeader.java:83-85 | the cursor starts at the list head, with the whole chain still to yield |
| Postings.TDMIterator.HasNext | app/src/main/java/lighthouse/util/TDMHeader.java:92-94 | true exactly when nodes remain to be yielded (the cursor is not null) |
| Postings.TDMIterator.Next | app/src/main/java/lighthouse/util/TDMHeader.java:102-111 | on an exhausted iterator the NoSuchElementException outcome and no change; otherwise the next node of the chain, in order, after which the iterator holds the rest |
| Postings.TDMHeader.constructor | app/src/main/java/lighthouse/util/TDMHeader.java:20-24 | stores the term, makes the node the list head, `len` is 1; with a node without successor the header is well-formed and holds that node's posting alone |
| Postings.TDMHeader.GetLen | app/src/main/java/lighthouse/util/TDMHeader.java:38-40 | `len` equals the number of nodes in the list |
| Postings.TDMHeader.GetListHead | app/src/main/java/lighthouse/util/TDMHeader.java:46-48 | the head is the first node of the chain |
| Postings.TDMHeader.Iterator | app/src/main/java/lighthouse/util/TDMHeader.java:68-70 | a new iterator that will yield exactly the chain, starting at the head |
| Postings.TDMHeader.LastNode | app/src/main/java/lighthouse/util/TDMHeader.java:55-58 | the for-each walk ends at the last node of the chain |
| Postings.TDMHeader.Append | app/src/main/java/lighthouse/util/TDMHeader.java:54-61 | `len` grows by one and the node joins the chain after the old tail, to which it is linked; term and head unchanged; only `len` and the old tail's `next` may change; a fresh node (no successor, not in the list) keeps the header well-formed and the postings become the old ones plus the node's |
| Postings.TDMHeader.SetWeightAt | app/src/main/java/lighthouse/QueryEngine.java:121 | setting the weight of the k-th node changes the k-th posting's weight and nothing else of the list |
| IndexSpec.DivideAsDouble | app/src/main/java/lighthouse/QueryEngine.java:90 | Java's `(double) a / b`: finite exactly when b ≠ 0, with value a / b; NaN for 0 / 0 |
| IndexSpec.AddRecord | app/src/main/java/lighthouse/QueryEngine.java:65-76 | one record (definition, no contract of its own): a one-posting list for an unseen term, else the posting appended at the end, with weight 0; its properties are `AddFileLookup` and `BuildIndexSpec` |
| IndexSpec.AddFile | app/src/main/java/lighthouse/QueryEngine.java:64-77 | the records of one file in row order (definition); properties in `AddFileLookup` |
| IndexSpec.AddFiles | app/src/main/java/lighthouse/QueryEngine.java:57-86 | the files in enumeration order (definition); properties in `AddFilesLookup` |
| IndexSpec.BuildIndex | app/src/main/java/lighthouse/QueryEngine.java:47-86 | the files added to an empty matrix (definition); properties in `BuildIndexSpec`, `PostingsForDocs` and `QueryDocuments` |
| IndexSpec.AddFileLookup | app/src/main/java/lighthouse/QueryEngine.java:65-76 | filing a file's records appends, under each term, one posting per record of that term in row order, and creates the term when it was absent |
| IndexSpec.AddFilesLookup | app/src/main/java/lighthouse/QueryEngine.java:57-86 | filing the files appends the files' postings under each term in file order |
| IndexSpec.FilePostingsOccurs | app/src/main/java/lighthouse/QueryEngine.java:65-76 | a file contributes postings to a term exactly when one of its records has that term |
| IndexSpec.PostingsForOccurs | app/src/main/java/lighthouse/QueryEngine.java:57-86 | the files contribute postings to a term exactly when the term occurs in some record |
| IndexSpec.BuildIndexSpec | app/src/main/java/lighthouse/QueryEngine.java:41-92 | the built matrix has a header for exactly the terms that occur, and under each term one posting per record of that term, file by file and row by row (duplicate rows give duplicate postings), each with weight 0 |
| IndexSpec.BuildIndexCoversRecords | app/src/main/java/lighthouse/QueryEngine.java:113-115 | after the first pass, every record's term has a header, so the second pass over the same files never looks up a missing term |
| IndexSpec.IndexedSuffix | app/src/main/java/lighthouse/QueryEngine.java:104-131 | the files still to weigh keep their headers and stored lengths while weights change |
| IndexSpec.SetFirstSpec | app/src/main/java/lighthouse/QueryEngine.java:119-124 | the scan with `break` changes the weight of the first posting of the document and of no other posting, and nothing else of the list; with no posting of the document it changes nothing |
| IndexSpec.SetFirstAt | app/src/main/java/lighthouse/QueryEngine.java:119-122 | when posting k is the document's first, the scan re-weighs posting k alone |
| IndexSpec.SetFirstAbsent | app/src/main/java/lighthouse/QueryEngine.java:119-124 | with no posting of the document, the scan leaves the list as it was |
| IndexSpec.SetFirst | app/src/main/java/lighthouse/QueryEngine.java:119-124 | the scan with `break` on a list value: the list keeps its length; `SetFirstSpec` states which posting changes |
| IndexSpec.SetFirstTwice | app/src/main/java/lighthouse/QueryEngine.java:119-124 | re-weighing the same document's first posting twice leaves only the second weight |
| IndexSpec.RecordWeight | app/src/main/java/lighthouse/QueryEngine.java:115-117 | the BM25 weight of one record (definition): `bm25(count, length of the term's list, numDocuments, the file's length, avgDocLength)` |
| IndexSpec.WeighRecord | app/src/main/java/lighthouse/QueryEngine.java:113-124 | one record (definition): the term's list with the file's first posting re-weighed by `RecordWeight`; properties in `SetFirstSpec` and `WeighFileSpec` |
| IndexSpec.LastIndex | app/src/main/java/lighthouse/QueryEngine.java:109-125 | the position of the file's last record of a term, or -1 when there is none: that record has the term and no later one does |
| IndexSpec.WeighFileRef | app/src/main/java/lighthouse/QueryEngine.java:109-125 | the reference definition of one file's weighing (definition): for each term, the file's first posting re-weighed with the file's last record of the term, other lists as they are; tied to `WeighFile` by `WeighFileSpec` |
| IndexSpec.WeighFileSpec | app/src/main/java/lighthouse/QueryEngine.java:109-125 | weighing a file row by row equals the reference definition: under each term with a record in the file, the file's first posting gets the BM25 weight of the file's last record of that term (with the list's length as nqi); every other posting and list is unchanged |
| IndexSpec.WeighFileRefStep | app/src/main/java/lighthouse/QueryEngine.java:109-125 | one row of the file, seen through the reference definition, term by term |
| IndexSpec.DuplicateRowsIndex | app/src/main/java/lighthouse/QueryEngine.java:65-76 | a file "d" with rows ("cat", 2) and ("cat", 3) gives two postings of "d" under "cat", both of weight 0 |
| IndexSpec.DuplicateRowsWeighFirstPosting | app/src/main/java/lighthouse/QueryEngine.java:113-124 | after the weighting pass on that file, the first posting carries the weight of the second row and the second posting keeps weight 0 |
| IndexSpec.DuplicateRowsWeighFile | app/src/main/java/lighthouse/QueryEngine.java:109-125 | weighing that file's two rows on the matrix they build: the first posting gets the BM25 weight of the row ("cat", 3) with nqi 2, the second keeps 0 |
| IndexSpec.WeighFile | app/src/main/java/lighthouse/QueryEngine.java:109-125 | weighing a file's records keeps the set of terms |
| IndexSpec.WeighFiles | app/src/main/java/lighthouse/QueryEngine.java:104-131 | the weighting pass keeps the set of terms |
| IndexSpec.WeighFileShape | app/src/main/java/lighthouse/QueryEngine.java:109-125 | weighing a file changes weights only: same terms, same list lengths, same document ids and counts in place |
| IndexSpec.WeighFilesShape | app/src/main/java/lighthouse/QueryEngine.java:104-131 | the weighting pass adds no posting and changes no list length, document id or count |
| IndexSpec.GetOrZero | app/src/main/java/lighthouse/QueryEngine.java:158 | `getOrDefault(d, 0d)` (definition): the score so far, 0 for an unseen document |
| IndexSpec.AddPostings | app/src/main/java/lighthouse/QueryEngine.java:156-159 | one term's list added into the score map, posting by posting (definition); properties in `AddPostingsSpec` |
| IndexSpec.AddTerms | app/src/main/java/lighthouse/QueryEngine.java:151-161 | the query terms in order, with repeats, unknown terms skipped (definition); properties in `AddTermsSpec` |
| IndexSpec.Scores | app/src/main/java/lighthouse/QueryEngine.java:144-161 | the score map built from an empty map (definition); properties in `ScoresSpec` |
| IndexSpec.AddPostingsStep | app/src/main/java/lighthouse/QueryEngine.java:156-159 | summing a list from position k is adding posting k to its document, then summing the rest |
| IndexSpec.AddPostingsSpec | app/src/main/java/lighthouse/QueryEngine.java:156-159 | summing one term's list adds exactly that list's documents, each raised by its total weight in the list |
| IndexSpec.MentionedCons | app/src/main/java/lighthouse/QueryEngine.java:151-161 | the documents under a list of terms are those under the first term (if it has a header) and those under the rest |
| IndexSpec.AddTermsSpec | app/src/main/java/lighthouse/QueryEngine.java:151-161 | summing over the query terms adds exactly the documents under some known term, each raised by its per-term weights summed with multiplicity |
| IndexSpec.ScoresSpec | app/src/main/java/lighthouse/QueryEngine.java:144-161 | the score map holds exactly the documents under some query term, each with the sum over the terms, with multiplicity, of its weights; unknown terms add nothing |
| IndexSpec.DocsConcat | app/src/main/java/lighthouse/QueryEngine.java:65-76 | the documents of two concatenated lists are those of either list |
| IndexSpec.FilePostingsDocs | app/src/main/java/lighthouse/QueryEngine.java:69 | every posting a file contributes carries the file's name |
| IndexSpec.PostingsForDocs | app/src/main/java/lighthouse/QueryEngine.java:57-86 | a document is under a term in the built matrix exactly when that file has a record of the term |
| IndexSpec.MentionedShape | app/src/main/java/lighthouse/QueryEngine.java:104-131 | weighting does not change which documents a query reaches |
| IndexSpec.QueryDocuments | app/src/main/java/lighthouse/QueryEngine.java:36-39 | after both passes, the documents scored for a list of terms are exactly the files with a record of one of the terms |
| Normalize.IsBlank | app/src/main/java/lighthouse/QueryEngine.java:139 | `isBlank` (definition): the query is empty or whitespace only, whitespace being the ASCII part of `Character.isWhitespace` (`IsWhitespace`); `Query` returns [] exactly then |
| Normalize.StripPunctuation | app/src/main/java/lighthouse/QueryEngine.java:171 | `replaceAll("[!()_,.?]", "")` (definition), the class being `IsStripped`; properties in `StripPunctuationSpec` |
| Normalize.NormalizeTerm | app/src/main/java/lighthouse/QueryEngine.java:170-171 | one piece lower-cased, then stripped (definition); properties in `NormalTermFixed` |
| Normalize.NormalizeAll | app/src/main/java/lighthouse/QueryEngine.java:169-173 | the stream: map each piece, keep the non-empty ones, in order (definition); properties in `NormalizeAllSpec` and `NormalizeAllFixed` |
| Normalize.NormalizeQuery | app/src/main/java/lighthouse/QueryEngine.java:167-174 | `normalizeQuery` (definition): split, then the stream; properties in `NormalizeQuerySpec`, `NormalTermFixed` and `NormalizeQueryIdempotent` |
| Normalize.LowerCase | app/src/main/java/lighthouse/QueryEngine.java:170 | same length, each character lower-cased by `ToLower` (the ASCII part of `Character.toLowerCase`), no upper-case letter (`IsUpper`) left |
| Normalize.FirstSpace | app/src/main/java/lighthouse/QueryEngine.java:168 | the position of the first space, none before it |
| Normalize.RunEnd | app/src/main/java/lighthouse/QueryEngine.java:168 | the end of a maximal run of spaces |
| Normalize.SplitRuns | app/src/main/java/lighthouse/QueryEngine.java:168 | at least one piece, and no piece contains a space |
| Normalize.DropTrailingEmpty | app/src/main/java/lighthouse/QueryEngine.java:168 | a prefix of the pieces that does not end in an empty piece |
| Normalize.JavaSplit | app/src/main/java/lighthouse/QueryEngine.java:168 | no piece of `split(" +")` contains a space |
| Normalize.StripPunctuationSpec | app/src/main/java/lighthouse/QueryEngine.java:171 | the result has none of `!()_,.?` and only characters of the input; an input without them is returned unchanged |
| Normalize.LowerCaseIdentity | app/src/main/java/lighthouse/QueryEngine.java:170 | lower-casing text with no upper-case letter changes nothing |
| Normalize.NormalizeAllSpec | app/src/main/java/lighthouse/QueryEngine.java:169-173 | every term the pipeline keeps is non-empty, space-free, lower case and free of `!()_,.?` |
| Normalize.NormalizeQuerySpec | app/src/main/java/lighthouse/QueryEngine.java:167-174 | every term `normalizeQuery` returns is non-empty, has no space, no upper-case letter and none of `!()_,.?` |
| Normalize.NormalTermFixed | app/src/main/java/lighthouse/QueryEngine.java:167-174 | re-normalising a normalised term leaves it unchanged, alone or as a whole query |
| Normalize.SplitRunsJoin | app/src/main/java/lighthouse/QueryEngine.java:168 | splitting terms joined by single spaces gives the terms back |
| Normalize.FirstSpacePrefix | app/src/main/java/lighthouse/QueryEngine.java:168 | a space-free prefix moves the first space by its length |
| Normalize.NormalizeAllFixed | app/src/main/java/lighthouse/QueryEngine.java:169-173 | the pipeline keeps normalised terms unchanged |
| Normalize.NormalizeQueryIdempotent | app/src/main/java/lighthouse/QueryEngine.java:167-174 | normalisation is idempotent: re-normalising the joined result gives the same terms |
| Ranking.LeastKey | app/src/main/java/lighthouse/QueryEngine.java:164 | a key of least score among the remaining ones |
| Ranking.SelectStep | app/src/main/java/lighthouse/QueryEngine.java:164 | moving a least remaining entry to the end keeps the result ascending, each entry once, none above the rest |
| Ranking.SortByValue | app/src/main/java/lighthouse/QueryEngine.java:164 | every entry of the score map exactly once, with its score, in ascending score order |
| Ranking.AscendingPassesDescendingCheck | app/src/test/java/lighthouse/QueryTest.java:21-23 | an ascending result passes the test's non-increasing check exactly when all its scores are equal |
| Engine.Names | app/src/main/java/lighthouse/QueryEngine.java:85 | the set of file names (definition); properties in `NamesSpec` |
| Engine.NamesSpec | app/src/main/java/lighthouse/QueryEngine.java:85 | the documents given a length are exactly the files' names |
| Engine.AppendMarked | app/src/main/java/lighthouse/QueryEngine.java:75 | appending a fresh node of the term keeps the header a well-formed list of that term and adds the node's posting at the end |
| Engine.FindFirst | app/src/main/java/lighthouse/QueryEngine.java:119-123 | the scan finds the first node of the document and its position, or null exactly when no node belongs to the document |
| Engine.AddWeights | app/src/main/java/lighthouse/QueryEngine.java:156-159 | walking a header's list adds each posting's weight to its document's score, the sum the specification function gives |
| Engine.QueryEngine.constructor | app/src/main/java/lighthouse/QueryEngine.java:36-39 | after both passes: one zero length per file name, `numDocuments` is the file count, the total is 0, the average is 0 / file count, and the matrix is the built index weighted by the second pass |
| Engine.QueryEngine.AddPosting | app/src/main/java/lighthouse/QueryEngine.java:69-76 | a new node with weight 0, under a new header for an unseen term or appended at the tail of the term's list |
| Engine.QueryEngine.NewHeader | app/src/main/java/lighthouse/QueryEngine.java:72 | the unseen term gets a header whose list holds the node alone; other terms unchanged |
| Engine.QueryEngine.AppendTo | app/src/main/java/lighthouse/QueryEngine.java:75 | the node's posting joins the end of the term's list; other terms unchanged |
| Engine.QueryEngine.AddRecords | app/src/main/java/lighthouse/QueryEngine.java:65-77 | every record of the file is filed, in row order |
| Engine.QueryEngine.LoadFile | app/src/main/java/lighthouse/QueryEngine.java:57-86 | one file's records filed, one more document counted, its length stored as 0, the total unchanged |
| Engine.QueryEngine.LoadTDM | app/src/main/java/lighthouse/QueryEngine.java:41-92 | the matrix is exactly the index built from the files; one length per file name, all 0; `numDocuments` grows by the file count; the total is unchanged; the average is total / count as a Java double |
| Engine.QueryEngine.WeighOne | app/src/main/java/lighthouse/QueryEngine.java:113-124 | the record's BM25 weight, computed from its count, the list length, the document count, the file's length and the average, lands on the file's first posting under the term, and nowhere else |
| Engine.QueryEngine.SetWeight | app/src/main/java/lighthouse/QueryEngine.java:121 | the k-th posting of the term gets the weight; every other posting of every term is unchanged |
| Engine.QueryEngine.WeighRecords | app/src/main/java/lighthouse/QueryEngine.java:109-125 | the file's records are weighed in row order, keeping the terms |
| Engine.QueryEngine.CalculateWeights | app/src/main/java/lighthouse/QueryEngine.java:94-133 | the matrix becomes the weighting pass of the specification applied to it, over the files in order; no header or node is added |
| Engine.QueryEngine.Query | app/src/main/java/lighthouse/QueryEngine.java:135-165 | a blank query gives an empty list; otherwise each document under some normalised query term exactly once, with its summed score, in ascending order; the matrix is not changed |
| IteratorWalk.TotalCountSnoc | app/src/test/java/lighthouse/IteratorTest.java:38-41 | one more posting adds its count to the total |
| IteratorWalk.CountNodes | app/src/test/java/lighthouse/IteratorTest.java:35-44 | the for-each over a header yields `len` nodes whose counts sum to the list's total |
| IteratorWalk.AppendNew | app/src/test/java/lighthouse/IteratorTest.java:28-31 | appending a new node adds its posting at the end and keeps the header well-formed |
| IteratorWalk.IteratorScenario | app/src/test/java/lighthouse/IteratorTest.java:18-45 | a header built from ("0", 0) and four appends yields 5 nodes whose counts sum to 10 |

## Left out

- File and CSV input are not modelled. This covers `File.listFiles`, `CSVParser` and `Integer.parseInt`. The directory is given as the sequence of its files. The only `IOException` the `catch` at line 78 can see comes from `CSVParser.parse`, before any record, or from closing the parser, after every record, since the for-each over the parser throws no checked exception. So a caught `IOException` leaves a file with none of its records or with all of them. Either way the engine still counts the document and stores its length. A file is modelled as the records the first pass adds for it, which is one of those two.
- Unchecked failures in the middle of a file are not modelled: unreadable data reported by the parser, a count `Integer.parseInt` rejects, or a row with fewer than two columns (`get(1)`). Each escapes the `catch` at line 78 and aborts `loadTDM` or `calculateWeights`, and with it the constructor. The model assumes every row is a term and a count.
- The order of `listFiles` is unspecified in Java. The model takes it as the order of the input sequence.
- The two passes each list the directory. The model has them see the same files. `CalculateWeights` requires that every record's term has a header and every file a stored length. Otherwise lines 115-116 would throw a null-pointer exception. `BuildIndexCoversRecords` and `NamesSpec` prove that the first pass over the same files guarantees both.
- The values of `BM25` and `IDF` are left uninterpreted. They are floating-point arithmetic and `Math.log`. They are a parameter, and `double` weights are `real`. Rounding, NaN propagation in the weights and summation order are not modelled. The NaN weights Java produces are described above, under the behaviours modelled as written.
- `printProgressBar`, `ProgressBar` and every console print are left out. They are output only.
- `Lighthouse.java` (the interactive loop) and `Tokenizer.java` are not part of this model.
- Lower-casing and the whitespace test in `isBlank` cover ASCII only. Unicode case mapping is not modelled.
- The iteration order of `HashMap` is left open. The order among equal scores in a query result is therefore unconstrained.
- Getters are modelled as Dafny functions on the node or header, so calling one changes nothing. `GetTerm`, `GetDocumentID`, `GetTermCount`, `GetTermWeight` and `GetNext` return their field and carry no contract of their own.
- Postings.TDMHeader.constructor, Postings.TDMHeader.Append and Postings.TDMIterator.constructor take a non-null `TDMNode`. Java accepts null in all three. `new TDMHeader(t, null)` has `len` 1 but an iterator that yields nothing. `append(null)` raises `len` without adding a node. Both break `len == |chain|`, the invariant the model states for a header, so the model does not cover them. The engine never passes null (lines 69-75).
- Postings.TDMNode.SetNext: `setNext` takes a `ListNode` in Java. The model types `next` as `TDMNode?`, since every node in the engine is a `TDMNode` and `getNext` casts to it.
- Postings.TDMHeader.Append: the well-formedness and postings guarantee are stated only for a node with no successor that is not yet in the list. This is how the engine always calls `append`. For any other node, Java would build a longer or cyclic list, which is not modelled.
- Engine.QueryEngine.WeighOne: the for-each with `break` at lines 119-124 is modelled as a search (`FindFirst`) followed by one update (`SetWeight`). The nodes visited and the node updated are the same as in the source.
- Integer overflow of `len`, `numDocuments` and `totalDocumentLengths` is not modelled. Integers are unbounded.
