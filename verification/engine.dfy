/**
 * The query engine: the term-document matrix as a map from terms to
 * TDMHeader objects, the per-document lengths, the two passes that build and
 * weight it, and the query that scores and sorts documents.
 *
 * The token directory is given as the sequence of its files as the engine
 * reads them (see IndexSpec.TokenFile); the BM25 formula is a parameter.
 * Line numbers in the comments below are those of QueryEngine.java.
 */
module Engine {
  import opened Postings
  import opened IndexSpec
  import opened Normalize
  import opened Ranking

  /** The names of the files, the keys `loadTDM` puts into `documentLengths`. */
  function Names(files: seq<TokenFile>): set<string>
    decreases |files|
  {
    if files == [] then {} else Names(files[..|files| - 1]) + {files[|files| - 1].name}
  }

  /** The names are exactly the files' names. */
  lemma {:induction false} NamesSpec(files: seq<TokenFile>)
    ensures forall i :: 0 <= i < |files| ==> files[i].name in Names(files)
    ensures forall d :: d in Names(files) ==> exists i :: 0 <= i < |files| && files[i].name == d
    decreases |files|
  {
    if files != [] {
      var init := files[..|files| - 1];
      NamesSpec(init);
      forall i | 0 <= i < |files| - 1
        ensures files[i].name in Names(files)
      {
        assert files[i] == init[i];
      }
      forall d | d in Names(init)
        ensures exists i :: 0 <= i < |files| && files[i].name == d
      {
        var i :| 0 <= i < |init| && init[i].name == d;
        assert files[i] == init[i];
      }
    }
  }

  /**
   * `h` is the header of term `t`: a well-formed list whose nodes are all
   * marked with `t` (so the lists of two terms share no node) and whose
   * postings are `ps`.
   */
  ghost predicate Holds(h: TDMHeader, t: string, ps: seq<Posting>)
    reads h, h.chain
  {
    && h.term == t && h.Valid()
    && (forall n :: n in h.chain ==> n.owner == t)
    && ps == h.Postings()
  }

  /** `TDMHeader.append` on a header of term `t`, for a node marked with `t`. */
  method AppendMarked(h: TDMHeader, t: string, ghost ps: seq<Posting>, node: TDMNode)
    requires Holds(h, t, ps) && node !in h.chain && node.next == null && node.owner == t
    modifies h`len, h`chain, h.Tail()`next
    ensures Holds(h, t, ps + [View(node)]) && h.chain == old(h.chain) + [node]
  {
    h.Append(node);
  }

  /**
   * The for-each loop of lines 119-124 up to its `break`: the first node of
   * `h`'s list that belongs to document `doc`, with its position, or null.
   */
  method FindFirst(h: TDMHeader, doc: string) returns (found: TDMNode?, ghost k: int)
    requires h.Valid()
    ensures found == null ==> forall j :: 0 <= j < |h.chain| ==> h.chain[j].documentID != doc
    ensures found != null ==>
      && 0 <= k < |h.chain| && found == h.chain[k] && found.documentID == doc
      && forall j :: 0 <= j < k ==> h.chain[j].documentID != doc
  {
    var it := h.Iterator();
    var more := it.HasNext();
    k := 0;
    found := null;
    while more
      invariant it.Valid() && fresh(it)
      invariant 0 <= k <= |h.chain| && it.remaining == h.chain[k..]
      invariant more == (k < |h.chain|)
      invariant forall j :: 0 <= j < k ==> h.chain[j].documentID != doc
      decreases |h.chain| - k
    {
      var step := it.Next();
      var node := step.node;
      if node.GetDocumentID() == doc {
        return node, k;
      }
      k := k + 1;
      more := it.HasNext();
    }
  }

  /** Lines 156-159: add the weight of every node of `h`'s list to its document's score. */
  method AddWeights(h: TDMHeader, ghost ps: seq<Posting>, acc: map<string, real>) returns (r: map<string, real>)
    requires h.Valid() && ps == h.Postings()
    ensures r == AddPostings(acc, ps)
  {
    forall i | 0 <= i < |h.chain|
      ensures View(h.chain[i]) == ps[i]
    {
      SnapAt(h.chain, i);
    }
    var it := h.Iterator();
    r := acc;
    var more := it.HasNext();
    ghost var k := 0;
    while more
      invariant it.Valid() && fresh(it)
      invariant 0 <= k <= |h.chain| && it.remaining == h.chain[k..]
      invariant more == (k < |h.chain|)
      invariant AddPostings(r, ps[k..]) == AddPostings(acc, ps)
      decreases |h.chain| - k
    {
      var step := it.Next();
      var node := step.node;
      var id := node.GetDocumentID();
      var weight := node.GetTermWeight();
      assert View(node) == old(View(h.chain[k])) == ps[k];
      AddPostingsStep(r, ps, k);
      r := r[id := GetOrZero(r, id) + weight];
      k := k + 1;
      more := it.HasNext();
    }
  }

  class QueryEngine {
    var termMatrix: map<string, TDMHeader>
    var documentLengths: map<string, int>
    var totalDocumentLengths: int
    var numDocuments: int
    var avgDocLength: Double
    /** The matrix as a value: each term's postings in list order. */
    ghost var index: Index
    /** The headers and nodes of the matrix. */
    ghost var Repr: set<object>

    /** The header under `t` and its nodes lie in Repr, and it holds the postings `index` records for `t`. */
    ghost predicate HeaderOk(t: string)
      requires t in termMatrix
      reads this`termMatrix, this`index, this`Repr, Repr
    {
      var h := termMatrix[t];
      && h in Repr && (forall n :: n in h.chain ==> n in Repr)
      && t in index && Holds(h, t, index[t])
    }

    ghost predicate Valid()
      reads this`termMatrix, this`index, this`Repr, Repr
    {
      && this !in Repr && index.Keys == termMatrix.Keys
      && (forall t {:trigger HeaderOk(t)} :: t in termMatrix ==> HeaderOk(t))
    }


    /**
     * `QueryEngine(tokenDir)` (lines 36-39): `loadTDM` then `calculateWeights`
     * over the same files, in the same order. The counters start at Java's
     * default 0.
     */
    constructor (files: seq<TokenFile>, bm25: Weigher)
      ensures Valid() && fresh(Repr)
      ensures documentLengths.Keys == Names(files)
      ensures forall d :: d in documentLengths ==> documentLengths[d] == 0
      ensures numDocuments == |files| && totalDocumentLengths == 0
      ensures avgDocLength == DivideAsDouble(0, |files|)
      ensures TermsIndexed(files, BuildIndex(files)) && NamesMeasured(files, documentLengths)
      ensures index == WeighFiles(BuildIndex(files), files, documentLengths, numDocuments, avgDocLength, bm25)
    {
      numDocuments, totalDocumentLengths := 0, 0;
      new;
      LoadTDM(files);
      BuildIndexCoversRecords(files);
      NamesSpec(files);
      CalculateWeights(files, bm25);
    }

    /**
     * Lines 69-76 of `loadTDM`: a new node for the record, under a new header
     * when the term is unseen, else appended to the term's list.
     */
    method AddPosting(name: string, term: string, count: int)
      requires Valid()
      modifies this`termMatrix, this`index, this`Repr, Repr
      ensures Valid() && fresh(Repr - old(Repr))
      ensures index == AddRecord(old(index), name, Record(term, count))
    {
      var newNode := new TDMNode(name, count);
      newNode.owner := term;
      assert View(newNode) == Posting(name, count, 0.0);
      if term !in termMatrix {
        assert [] + [View(newNode)] == [View(newNode)];
        NewHeader(term, newNode);
      } else {
        AppendTo(term, newNode);
      }
    }

    /** Line 72: file a new header for an unseen term, its list holding `node` alone. */
    method NewHeader(term: string, node: TDMNode)
      requires Valid() && term !in termMatrix && node !in Repr && node.next == null && node.owner == term
      modifies this`termMatrix, this`index, this`Repr
      ensures Valid() && fresh(Repr - old(Repr) - {node})
      ensures index == old(index)[term := [View(node)]]
    {
      var h := new TDMHeader(term, node);
      termMatrix, index, Repr := termMatrix[term := h], index[term := [View(node)]], Repr + {h, node};
      forall u | u in termMatrix
        ensures HeaderOk(u)
      {
        if u != term {
          var g := termMatrix[u];
          assert old(HeaderOk(u));
          assert unchanged(g) && unchanged(g.chain);
        }
      }
    }

    /** Line 75: append `node` to the list of a term already in the matrix. */
    method AppendTo(term: string, node: TDMNode)
      requires Valid() && term in termMatrix && node !in Repr && node.next == null && node.owner == term
      modifies this`index, this`Repr, Repr
      ensures Valid() && Repr == old(Repr) + {node}
      ensures index == old(index)[term := old(index)[term] + [View(node)]]
    {
      var h := termMatrix[term];
      assert HeaderOk(term);
      ghost var tail := h.Tail();
      AppendMarked(h, term, index[term], node);
      index, Repr := index[term := index[term] + [View(node)]], Repr + {node};
      forall u | u in termMatrix
        ensures HeaderOk(u)
      {
        if u != term {
          assert old(HeaderOk(u));
          var g := termMatrix[u];
          assert g != h && tail !in g.chain;
        }
      }
    }


    /** Lines 64-77: file every record of one token file, in file order. */
    method AddRecords(name: string, records: seq<Record>)
      requires Valid()
      modifies this`termMatrix, this`index, this`Repr, Repr
      ensures Valid() && fresh(Repr - old(Repr))
      ensures index == AddFile(old(index), name, records)
    {
      var j := 0;
      while j < |records|
        invariant 0 <= j <= |records|
        invariant Valid() && fresh(Repr - old(Repr))
        invariant AddFile(index, name, records[j..]) == AddFile(old(index), name, records)
      {
        assert records[j..][1..] == records[j + 1..];
        AddPosting(name, records[j].term, records[j].count);
        j := j + 1;
      }
    }

    /** Lines 58-85: one iteration of the loop over the token files. */
    method LoadFile(file: TokenFile)
      requires Valid()
      modifies this`termMatrix, this`index, this`Repr, Repr, this`numDocuments, this`totalDocumentLengths, this`documentLengths
      ensures Valid() && fresh(Repr - old(Repr))
      ensures index == AddFile(old(index), file.name, file.records)
      ensures documentLengths == old(documentLengths)[file.name := 0]
      ensures numDocuments == old(numDocuments) + 1
      ensures totalDocumentLengths == old(totalDocumentLengths)
    {
      var documentLength := 0;
      AddRecords(file.name, file.records);
      numDocuments := numDocuments + 1;
      totalDocumentLengths := totalDocumentLengths + documentLength;
      documentLengths := documentLengths[file.name := documentLength];
    }

    /**
     * `loadTDM` (lines 41-92): a fresh matrix and length map, every record of
     * every file filed as a posting, one document counted per file. The
     * local `documentLength` is never incremented, so every stored length is
     * 0 and the total does not move.
     */
    method LoadTDM(files: seq<TokenFile>)
      modifies this
      ensures Valid() && fresh(Repr)
      ensures index == BuildIndex(files)
      ensures documentLengths.Keys == Names(files)
      ensures forall d :: d in documentLengths ==> documentLengths[d] == 0
      ensures numDocuments == old(numDocuments) + |files|
      ensures totalDocumentLengths == old(totalDocumentLengths)
      ensures avgDocLength == DivideAsDouble(totalDocumentLengths, numDocuments)
    {
      termMatrix, index, Repr := map[], map[], {};
      documentLengths := map[];
      var i := 0;
      while i < |files|
        invariant 0 <= i <= |files|
        invariant Valid() && fresh(Repr)
        invariant AddFiles(index, files[i..]) == BuildIndex(files)
        invariant documentLengths.Keys == Names(files[..i])
        invariant forall d :: d in documentLengths ==> documentLengths[d] == 0
        invariant numDocuments == old(numDocuments) + i
        invariant totalDocumentLengths == old(totalDocumentLengths)
      {
        var file := files[i];
        assert files[i..][1..] == files[i + 1..];
        LoadFile(file);
        assert files[..i + 1][..i] == files[..i];
        i := i + 1;
      }
      assert files[..i] == files;
      avgDocLength := DivideAsDouble(totalDocumentLengths, numDocuments);
    }

    /** Lines 110-124: weigh one record of file `name` and store the weight on the file's first posting of the term. */
    method WeighOne(name: string, r: Record, bm25: Weigher)
      requires Valid() && r.term in index && name in documentLengths
      modifies Repr, this`index
      ensures Valid() && Repr == old(Repr)
      ensures index == WeighRecord(old(index), name, r, documentLengths[name], numDocuments, avgDocLength, bm25)
    {
      var posting := termMatrix[r.term];
      assert HeaderOk(r.term);
      var nqi := posting.GetLen();
      var termWeight := bm25(r.count, nqi, numDocuments, documentLengths[name], avgDocLength);
      ghost var ps := index[r.term];
      forall i | 0 <= i < |posting.chain|
        ensures View(posting.chain[i]) == ps[i]
      {
        SnapAt(posting.chain, i);
      }
      var found, k := FindFirst(posting, name);
      if found != null {
        SetFirstAt(ps, name, termWeight, k);
        SetWeight(r.term, found, k, termWeight);
      } else {
        SetFirstAbsent(ps, name, termWeight);
      }
    }

    /** Line 121: store weight `w` on the `k`th node of `term`'s list. */
    method SetWeight(term: string, node: TDMNode, ghost k: int, w: real)
      requires Valid() && term in termMatrix
      requires 0 <= k < |termMatrix[term].chain| && node == termMatrix[term].chain[k] && k < |index[term]|
      modifies node`termWeight, this`index
      ensures Valid()
      ensures index == old(index)[term := old(index)[term][k := old(index)[term][k].(termWeight := w)]]
    {
      var h := termMatrix[term];
      assert HeaderOk(term);
      ghost var ps := index[term];
      forall i | 0 <= i < |h.chain|
        ensures View(h.chain[i]) == ps[i]
      {
        SnapAt(h.chain, i);
      }
      h.SetWeightAt(node, k, ps, w);
      index := index[term := ps[k := ps[k].(termWeight := w)]];
      forall u | u in termMatrix
        ensures HeaderOk(u)
      {
        if u != term {
          assert old(HeaderOk(u));
          var g := termMatrix[u];
          assert node !in g.chain;
        }
      }
    }

    /** Lines 109-125: weigh the records of one file, in file order. */
    method WeighRecords(name: string, records: seq<Record>, bm25: Weigher)
      requires Valid() && name in documentLengths
      requires forall j :: 0 <= j < |records| ==> records[j].term in index
      modifies Repr, this`index
      ensures Valid() && Repr == old(Repr)
      ensures index == WeighFile(old(index), name, records, documentLengths[name], numDocuments, avgDocLength, bm25)
    {
      var j := 0;
      while j < |records|
        invariant 0 <= j <= |records|
        invariant Valid() && Repr == old(Repr) && index.Keys == old(index).Keys
        invariant WeighFile(index, name, records[j..], documentLengths[name], numDocuments, avgDocLength, bm25)
               == WeighFile(old(index), name, records, documentLengths[name], numDocuments, avgDocLength, bm25)
      {
        assert records[j..][1..] == records[j + 1..];
        WeighOne(name, records[j], bm25);
        j := j + 1;
      }
    }

    /**
     * `calculateWeights` (lines 94-133): a second pass over the same files,
     * giving each record's weight to the first posting of its file under
     * its term. Every record's term must have a header and every file a
     * stored length, as `loadTDM` over the same files guarantees.
     */
    method CalculateWeights(files: seq<TokenFile>, bm25: Weigher)
      requires Valid() && TermsIndexed(files, index) && NamesMeasured(files, documentLengths)
      modifies Repr, this`index
      ensures Valid() && Repr == old(Repr)
      ensures index == WeighFiles(old(index), files, documentLengths, numDocuments, avgDocLength, bm25)
    {
      var i := 0;
      while i < |files|
        invariant 0 <= i <= |files|
        invariant Valid() && Repr == old(Repr) && index.Keys == old(index).Keys
        invariant TermsIndexed(files[i..], index) && NamesMeasured(files[i..], documentLengths)
        invariant WeighFiles(index, files[i..], documentLengths, numDocuments, avgDocLength, bm25)
               == WeighFiles(old(index), files, documentLengths, numDocuments, avgDocLength, bm25)
      {
        var file := files[i];
        assert files[i..][0] == file && files[i..][1..] == files[i + 1..];
        WeighRecords(file.name, file.records, bm25);
        IndexedSuffix(files, old(index), index, documentLengths, i + 1);
        i := i + 1;
      }
    }

    /**
     * `query` (lines 135-165): nothing for a blank query; otherwise every
     * document with a posting under some normalised query term, once, with
     * its summed weight, ordered by score ascending.
     */
    method Query(query: string) returns (result: seq<Entry>)
      requires Valid()
      ensures IsBlank(query) ==> result == []
      ensures !IsBlank(query) ==> Ascending(result) && EntriesOf(result, Scores(index, NormalizeQuery(query)))
    {
      if IsBlank(query) {
        return [];
      }
      var documentWeights: map<string, real> := map[];
      var queryTerms := NormalizeQuery(query);
      var i := 0;
      while i < |queryTerms|
        invariant 0 <= i <= |queryTerms|
        invariant AddTerms(documentWeights, index, queryTerms[i..]) == Scores(index, queryTerms)
      {
        var term := queryTerms[i];
        assert queryTerms[i..][1..] == queryTerms[i + 1..];
        if term in termMatrix {
          var posting := termMatrix[term];
          assert HeaderOk(term);
          documentWeights := AddWeights(posting, index[term], documentWeights);
        }
        i := i + 1;
      }
      result := SortByValue(documentWeights);
    }
  }
}
