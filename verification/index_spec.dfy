/**
 * Value-level specification of the query engine: what the index-building
 * pass, the weighting pass and the scoring step of a query compute, written
 * as functions over an abstract index (term -> postings in list order), and
 * the properties of those functions.
 *
 * The class QueryEngine (module Engine) is proved to compute exactly these
 * functions over its heap structure. Line numbers in the comments below are
 * those of QueryEngine.java.
 */
module IndexSpec {
  import opened Postings

  /** One CSV row of a token file: a term and its raw count. */
  datatype Record = Record(term: string, count: int)

  /**
   * One token file as the engine reads it: its file name (the document id)
   * and the records read from it. A caught IOException comes from opening
   * the parser (no records) or from closing it (all records); the engine goes
   * on with the next file either way, so the failure itself changes nothing
   * else.
   */
  datatype TokenFile = TokenFile(name: string, records: seq<Record>)

  /** The term-document matrix as a value: each term's postings in list order. */
  type Index = map<string, seq<Posting>>

  /**
   * The uninterpreted BM25 weight, applied to
   * (fqi, nqi, numDocuments, documentLength, avgDocLength).
   */
  type Weigher = (int, int, int, int, Double) -> real

  /** A Java `double`, as far as this model needs one: a quotient or a special value. */
  datatype Double = Finite(value: real) | NaN | PositiveInfinity | NegativeInfinity

  /** Java's `(double) num / den` on two ints. */
  function DivideAsDouble(num: int, den: int): (d: Double)
    ensures den != 0 <==> d.Finite?
    ensures den != 0 ==> d.value * (den as real) == num as real
    ensures den == 0 ==> (d == NaN <==> num == 0)
  {
    if den != 0 then Finite(num as real / den as real)
    else if num == 0 then NaN
    else if num > 0 then PositiveInfinity
    else NegativeInfinity
  }

  /** The postings list under `t`, empty when `t` has no header. */
  function Lookup(idx: Index, t: string): seq<Posting>
  {
    if t in idx then idx[t] else []
  }

  // ---------------------------------------------------------------------
  // Index building (first pass)
  // ---------------------------------------------------------------------

  /** A new header with one posting for an unseen term, else one more posting at the tail. */
  function AddRecord(idx: Index, name: string, r: Record): Index
  {
    idx[r.term := Lookup(idx, r.term) + [Posting(name, r.count, 0.0)]]
  }

  /** The records of one file, added in file order. */
  function AddFile(idx: Index, name: string, records: seq<Record>): Index
    decreases |records|
  {
    if records == [] then idx
    else AddFile(AddRecord(idx, name, records[0]), name, records[1..])
  }

  /** The files, added in enumeration order. */
  function AddFiles(idx: Index, files: seq<TokenFile>): Index
    decreases |files|
  {
    if files == [] then idx
    else AddFiles(AddFile(idx, files[0].name, files[0].records), files[1..])
  }

  /** The matrix `loadTDM` builds from a fresh, empty map. */
  function BuildIndex(files: seq<TokenFile>): Index
  {
    AddFiles(map[], files)
  }

  /** Reference definition: the postings that a file's records contribute to term `t`. */
  function FilePostings(name: string, records: seq<Record>, t: string): seq<Posting>
    decreases |records|
  {
    if records == [] then []
    else (if records[0].term == t then [Posting(name, records[0].count, 0.0)] else [])
         + FilePostings(name, records[1..], t)
  }

  /** Reference definition: the postings of term `t`, file by file in enumeration order. */
  function PostingsFor(files: seq<TokenFile>, t: string): seq<Posting>
    decreases |files|
  {
    if files == [] then []
    else FilePostings(files[0].name, files[0].records, t) + PostingsFor(files[1..], t)
  }

  /** Term `t` is the term of some record of some file. */
  ghost predicate Occurs(files: seq<TokenFile>, t: string)
  {
    exists i, j :: 0 <= i < |files| && 0 <= j < |files[i].records| && files[i].records[j].term == t
  }

  lemma {:induction false} AddFileLookup(idx: Index, name: string, records: seq<Record>, t: string)
    ensures Lookup(AddFile(idx, name, records), t) == Lookup(idx, t) + FilePostings(name, records, t)
    ensures t in AddFile(idx, name, records) <==> t in idx || FilePostings(name, records, t) != []
    decreases |records|
  {
    if records != [] {
      var idx1 := AddRecord(idx, name, records[0]);
      AddFileLookup(idx1, name, records[1..], t);
      if records[0].term == t {
        assert Lookup(idx1, t) == Lookup(idx, t) + [Posting(name, records[0].count, 0.0)];
      } else {
        assert Lookup(idx1, t) == Lookup(idx, t);
      }
    }
  }

  lemma {:induction false} AddFilesLookup(idx: Index, files: seq<TokenFile>, t: string)
    ensures Lookup(AddFiles(idx, files), t) == Lookup(idx, t) + PostingsFor(files, t)
    ensures t in AddFiles(idx, files) <==> t in idx || PostingsFor(files, t) != []
    decreases |files|
  {
    if files != [] {
      var idx1 := AddFile(idx, files[0].name, files[0].records);
      AddFileLookup(idx, files[0].name, files[0].records, t);
      AddFilesLookup(idx1, files[1..], t);
    }
  }

  lemma {:induction false} FilePostingsOccurs(name: string, records: seq<Record>, t: string)
    ensures FilePostings(name, records, t) != [] <==> exists j :: 0 <= j < |records| && records[j].term == t
    decreases |records|
  {
    if records != [] {
      FilePostingsOccurs(name, records[1..], t);
      if records[0].term != t {
        assert forall j :: 1 <= j < |records| ==> records[j] == records[1..][j - 1];
      }
    }
  }

  lemma {:induction false} PostingsForOccurs(files: seq<TokenFile>, t: string)
    ensures PostingsFor(files, t) != [] <==> Occurs(files, t)
    decreases |files|
  {
    if files != [] {
      FilePostingsOccurs(files[0].name, files[0].records, t);
      PostingsForOccurs(files[1..], t);
      if Occurs(files, t) {
        var i, j :| 0 <= i < |files| && 0 <= j < |files[i].records| && files[i].records[j].term == t;
        if i > 0 {
          assert files[1..][i - 1] == files[i];
        }
      }
      if Occurs(files[1..], t) {
        var i, j :| 0 <= i < |files[1..]| && 0 <= j < |files[1..][i].records| && files[1..][i].records[j].term == t;
        assert files[i + 1] == files[1..][i];
      }
    }
  }

  /**
   * The matrix built from `files` has a header for exactly the terms that
   * occur in some record, and its postings under `t` are one per record with
   * term `t`, file by file in enumeration order and record by record within
   * a file (duplicate rows give duplicate postings), each with weight 0.
   */
  lemma BuildIndexSpec(files: seq<TokenFile>, t: string)
    ensures t in BuildIndex(files) <==> Occurs(files, t)
    ensures Lookup(BuildIndex(files), t) == PostingsFor(files, t)
  {
    AddFilesLookup(map[], files, t);
    PostingsForOccurs(files, t);
  }

  /** Every record's term has a header once the files are indexed. */
  lemma BuildIndexCoversRecords(files: seq<TokenFile>)
    ensures TermsIndexed(files, BuildIndex(files))
  {
    forall i, j | 0 <= i < |files| && 0 <= j < |files[i].records|
      ensures files[i].records[j].term in BuildIndex(files)
    {
      BuildIndexSpec(files, files[i].records[j].term);
    }
  }

  // ---------------------------------------------------------------------
  // Weighting (second pass)
  // ---------------------------------------------------------------------

  /** Every record's term has a header in `idx` (otherwise line 115 dereferences null). */
  ghost predicate TermsIndexed(files: seq<TokenFile>, idx: Index)
  {
    forall i, j :: 0 <= i < |files| && 0 <= j < |files[i].records| ==> files[i].records[j].term in idx
  }

  /** Every file has a stored length (otherwise unboxing at line 116 throws). */
  ghost predicate NamesMeasured(files: seq<TokenFile>, lengths: map<string, int>)
  {
    forall i :: 0 <= i < |files| ==> files[i].name in lengths
  }

  /** The files from position `i` on are still indexed and measured once the terms are kept. */
  lemma IndexedSuffix(files: seq<TokenFile>, idx: Index, idx1: Index, lengths: map<string, int>, i: int)
    requires TermsIndexed(files, idx) && NamesMeasured(files, lengths)
    requires idx1.Keys == idx.Keys && 0 <= i <= |files|
    ensures TermsIndexed(files[i..], idx1) && NamesMeasured(files[i..], lengths)
  {
    forall k, j | 0 <= k < |files[i..]| && 0 <= j < |files[i..][k].records|
      ensures files[i..][k].records[j].term in idx1
    {
      assert files[i..][k] == files[i + k];
    }
  }

  /** Posting `i` is the first one of `ps` that belongs to document `doc`. */
  ghost predicate IsFirstMatch(ps: seq<Posting>, doc: string, i: int)
    requires 0 <= i < |ps|
  {
    ps[i].documentID == doc && forall j :: 0 <= j < i ==> ps[j].documentID != doc
  }

  /** The scan with `break` at lines 119-124: give the first posting of `doc` weight `w`. */
  function SetFirst(ps: seq<Posting>, doc: string, w: real): (r: seq<Posting>)
    ensures |r| == |ps|
    decreases |ps|
  {
    if ps == [] then []
    else if ps[0].documentID == doc then [ps[0].(termWeight := w)] + ps[1..]
    else [ps[0]] + SetFirst(ps[1..], doc, w)
  }

  /**
   * SetFirst changes exactly one posting, the first one of `doc`, and only
   * its weight; with no posting of `doc` it changes nothing.
   */
  lemma {:induction false} SetFirstSpec(ps: seq<Posting>, doc: string, w: real)
    ensures forall i :: 0 <= i < |ps| ==>
      SetFirst(ps, doc, w)[i] == if IsFirstMatch(ps, doc, i) then ps[i].(termWeight := w) else ps[i]
    decreases |ps|
  {
    if ps == [] {
      return;
    }
    var r := SetFirst(ps, doc, w);
    var t := ps[1..];
    if ps[0].documentID == doc {
      assert r == [ps[0].(termWeight := w)] + t;
      forall i | 1 <= i < |ps|
        ensures r[i] == ps[i] && !IsFirstMatch(ps, doc, i)
      {
        assert r[i] == t[i - 1];
      }
    } else {
      SetFirstSpec(t, doc, w);
      assert r == [ps[0]] + SetFirst(t, doc, w);
      forall i | 1 <= i < |ps|
        ensures r[i] == if IsFirstMatch(ps, doc, i) then ps[i].(termWeight := w) else ps[i]
      {
        assert r[i] == SetFirst(t, doc, w)[i - 1] && t[i - 1] == ps[i];
        FirstMatchTail(ps, doc, i);
      }
    }
  }

  /** Past a first posting of another document, first matches shift by one. */
  lemma FirstMatchTail(ps: seq<Posting>, doc: string, i: int)
    requires 1 <= i < |ps| && ps[0].documentID != doc
    ensures IsFirstMatch(ps, doc, i) <==> IsFirstMatch(ps[1..], doc, i - 1)
  {
    if IsFirstMatch(ps[1..], doc, i - 1) {
      forall j | 1 <= j < i
        ensures ps[j].documentID != doc
      {
        assert ps[j] == ps[1..][j - 1];
      }
    }
  }

  /** When posting `k` is the first of `doc`, SetFirst re-weighs posting `k` alone. */
  lemma SetFirstAt(ps: seq<Posting>, doc: string, w: real, k: int)
    requires 0 <= k < |ps| && IsFirstMatch(ps, doc, k)
    ensures SetFirst(ps, doc, w) == ps[k := ps[k].(termWeight := w)]
  {
    SetFirstSpec(ps, doc, w);
    forall i | 0 <= i < |ps| && i != k
      ensures !IsFirstMatch(ps, doc, i)
    {
    }
  }

  /** With no posting of `doc`, SetFirst changes nothing. */
  lemma SetFirstAbsent(ps: seq<Posting>, doc: string, w: real)
    requires forall i :: 0 <= i < |ps| ==> ps[i].documentID != doc
    ensures SetFirst(ps, doc, w) == ps
  {
    SetFirstSpec(ps, doc, w);
  }

  /** Line 116: the BM25 weight of one record of file `name`. */
  function RecordWeight(idx: Index, r: Record, dl: int, n: int, avg: Double, bm25: Weigher): real
    requires r.term in idx
  {
    bm25(r.count, |idx[r.term]|, n, dl, avg)
  }

  /** Lines 113-124 for one record. */
  function WeighRecord(idx: Index, name: string, r: Record, dl: int, n: int, avg: Double, bm25: Weigher): Index
    requires r.term in idx
  {
    idx[r.term := SetFirst(idx[r.term], name, RecordWeight(idx, r, dl, n, avg, bm25))]
  }

  /** The records of one file, in file order. */
  function WeighFile(idx: Index, name: string, records: seq<Record>, dl: int, n: int, avg: Double, bm25: Weigher): (r: Index)
    requires forall j :: 0 <= j < |records| ==> records[j].term in idx
    ensures r.Keys == idx.Keys
    decreases |records|
  {
    if records == [] then idx
    else WeighFile(WeighRecord(idx, name, records[0], dl, n, avg, bm25), name, records[1..], dl, n, avg, bm25)
  }

  /** The whole second pass, `calculateWeights`. */
  function WeighFiles(idx: Index, files: seq<TokenFile>, lengths: map<string, int>, n: int, avg: Double, bm25: Weigher): (r: Index)
    requires TermsIndexed(files, idx) && NamesMeasured(files, lengths)
    ensures r.Keys == idx.Keys
    decreases |files|
  {
    if files == [] then idx
    else
      var idx1 := WeighFile(idx, files[0].name, files[0].records, lengths[files[0].name], n, avg, bm25);
      IndexedSuffix(files, idx, idx1, lengths, 1);
      WeighFiles(idx1, files[1..], lengths, n, avg, bm25)
  }

  /** Two postings lists agree in everything but the weights. */
  ghost predicate SameShape(a: seq<Posting>, b: seq<Posting>)
  {
    |a| == |b| &&
    forall i :: 0 <= i < |a| ==> a[i].documentID == b[i].documentID && a[i].termCount == b[i].termCount
  }

  /** Two matrices have the same terms and, per term, postings that agree in everything but the weights. */
  ghost predicate SameIndexShape(a: Index, b: Index)
  {
    a.Keys == b.Keys && forall t :: t in a ==> SameShape(a[t], b[t])
  }

  lemma {:induction false} WeighFileShape(idx: Index, name: string, records: seq<Record>, dl: int, n: int, avg: Double, bm25: Weigher)
    requires forall j :: 0 <= j < |records| ==> records[j].term in idx
    ensures SameIndexShape(idx, WeighFile(idx, name, records, dl, n, avg, bm25))
    decreases |records|
  {
    if records != [] {
      var r := records[0];
      var idx1 := WeighRecord(idx, name, r, dl, n, avg, bm25);
      SetFirstSpec(idx[r.term], name, RecordWeight(idx, r, dl, n, avg, bm25));
      WeighFileShape(idx1, name, records[1..], dl, n, avg, bm25);
    }
  }

  /**
   * The weighting pass only annotates: it keeps every term, every list's
   * length (so every header's `len`) and every posting's document id and
   * count, in place.
   */
  lemma {:induction false} WeighFilesShape(idx: Index, files: seq<TokenFile>, lengths: map<string, int>, n: int, avg: Double, bm25: Weigher)
    requires TermsIndexed(files, idx) && NamesMeasured(files, lengths)
    ensures SameIndexShape(idx, WeighFiles(idx, files, lengths, n, avg, bm25))
    decreases |files|
  {
    if files != [] {
      var f := files[0];
      var idx1 := WeighFile(idx, f.name, f.records, lengths[f.name], n, avg, bm25);
      WeighFileShape(idx, f.name, f.records, lengths[f.name], n, avg, bm25);
      IndexedSuffix(files, idx, idx1, lengths, 1);
      WeighFilesShape(idx1, files[1..], lengths, n, avg, bm25);
    }
  }

  /** Re-weighing the same document's first posting keeps only the later weight. */
  lemma {:induction false} SetFirstTwice(ps: seq<Posting>, doc: string, w1: real, w2: real)
    ensures SetFirst(SetFirst(ps, doc, w1), doc, w2) == SetFirst(ps, doc, w2)
    decreases |ps|
  {
    if ps != [] && ps[0].documentID != doc {
      var r := SetFirst(ps, doc, w1);
      assert r[0] == ps[0] && r[1..] == SetFirst(ps[1..], doc, w1);
      SetFirstTwice(ps[1..], doc, w1, w2);
    }
  }

  /** The position of the last record of term `t`, or -1 when there is none. */
  function LastIndex(records: seq<Record>, t: string): (k: int)
    ensures -1 <= k < |records|
    ensures k >= 0 ==> records[k].term == t && forall j :: k < j < |records| ==> records[j].term != t
    ensures k == -1 ==> forall j :: 0 <= j < |records| ==> records[j].term != t
    decreases |records|
  {
    if records == [] then -1
    else
      var k := LastIndex(records[1..], t);
      if k >= 0 then k + 1 else if records[0].term == t then 0 else -1
  }

  /**
   * Reference definition of one file's weighing, term by term: under each
   * term with a record in the file, the file's first posting gets the BM25
   * weight of the file's LAST record of that term; every other list and
   * every other posting is left as it was.
   */
  function WeighFileRef(idx: Index, name: string, records: seq<Record>, dl: int, n: int, avg: Double, bm25: Weigher): Index
  {
    map t | t in idx ::
      var k := LastIndex(records, t);
      if k >= 0 then SetFirst(idx[t], name, bm25(records[k].count, |idx[t]|, n, dl, avg)) else idx[t]
  }

  /**
   * The fold over the rows equals the reference definition: a duplicate row
   * of a term overwrites the weight an earlier row put on the same (first)
   * posting, and the file's later postings of that term keep weight 0.
   */
  lemma {:induction false} WeighFileSpec(idx: Index, name: string, records: seq<Record>, dl: int, n: int, avg: Double, bm25: Weigher)
    requires forall j :: 0 <= j < |records| ==> records[j].term in idx
    ensures WeighFile(idx, name, records, dl, n, avg, bm25) == WeighFileRef(idx, name, records, dl, n, avg, bm25)
    decreases |records|
  {
    if records != [] {
      var idx1 := WeighRecord(idx, name, records[0], dl, n, avg, bm25);
      assert idx1.Keys == idx.Keys;
      WeighFileSpec(idx1, name, records[1..], dl, n, avg, bm25);
      var ref := WeighFileRef(idx, name, records, dl, n, avg, bm25);
      var ref1 := WeighFileRef(idx1, name, records[1..], dl, n, avg, bm25);
      assert ref1.Keys == idx.Keys == ref.Keys;
      forall t | t in idx
        ensures ref1[t] == ref[t]
      {
        WeighFileRefStep(idx, name, records, dl, n, avg, bm25, t);
      }
    }
  }

  /** One row of the file, as seen by the reference definition under term `t`. */
  lemma WeighFileRefStep(idx: Index, name: string, records: seq<Record>, dl: int, n: int, avg: Double, bm25: Weigher, t: string)
    requires records != [] && records[0].term in idx && t in idx
    ensures var idx1 := WeighRecord(idx, name, records[0], dl, n, avg, bm25);
            WeighFileRef(idx1, name, records[1..], dl, n, avg, bm25)[t] == WeighFileRef(idx, name, records, dl, n, avg, bm25)[t]
  {
    var r := records[0];
    var rest := records[1..];
    var w0 := RecordWeight(idx, r, dl, n, avg, bm25);
    var k1 := LastIndex(rest, t);
    if t == r.term && k1 >= 0 {
      SetFirstTwice(idx[t], name, w0, bm25(rest[k1].count, |idx[t]|, n, dl, avg));
    }
  }

  /** The matrix built from one file "d" with the rows ("cat", 2) and ("cat", 3). */
  lemma DuplicateRowsIndex()
    ensures BuildIndex([TokenFile("d", [Record("cat", 2), Record("cat", 3)])])
         == map["cat" := [Posting("d", 2, 0.0), Posting("d", 3, 0.0)]]
  {
    var recs := [Record("cat", 2), Record("cat", 3)];
    var files := [TokenFile("d", recs)];
    var p2, p3 := Posting("d", 2, 0.0), Posting("d", 3, 0.0);
    var one: Index := map["cat" := [p2]];
    var two: Index := map["cat" := [p2, p3]];
    assert AddRecord(map[], "d", recs[0]) == one by {
      assert Lookup(map[], "cat") + [p2] == [p2];
    }
    assert AddRecord(one, "d", recs[1]) == two by {
      assert Lookup(one, "cat") + [p3] == [p2, p3];
    }
    assert recs[1..] == [recs[1]] && recs[1..][1..] == [];
    assert AddFile(one, "d", recs[1..]) == two;
    assert AddFile(map[], "d", recs) == two;
    assert files[1..] == [] && files[0].name == "d" && files[0].records == recs;
    assert AddFiles(map[], files) == AddFiles(two, files[1..]);
  }

  /**
   * The duplicate-row case on a concrete file: rows ("cat", 2) and ("cat", 3)
   * of file "d" give "d" two postings under "cat"; after the weighting pass
   * the first one carries the weight of the second row and the second one
   * keeps weight 0.
   */
  lemma DuplicateRowsWeighFirstPosting(bm25: Weigher)
    ensures var files := [TokenFile("d", [Record("cat", 2), Record("cat", 3)])];
            var idx := BuildIndex(files);
            && NamesMeasured(files, map["d" := 0]) && TermsIndexed(files, idx)
            && WeighFiles(idx, files, map["d" := 0], 1, Finite(0.0), bm25)
               == map["cat" := [Posting("d", 2, bm25(3, 2, 1, 0, Finite(0.0))), Posting("d", 3, 0.0)]]
  {
    var recs := [Record("cat", 2), Record("cat", 3)];
    var files := [TokenFile("d", recs)];
    DuplicateRowsIndex();
    BuildIndexCoversRecords(files);
    DuplicateRowsWeighFile(bm25);
    var idx := BuildIndex(files);
    assert files[1..] == [];
    assert WeighFiles(idx, files, map["d" := 0], 1, Finite(0.0), bm25)
        == WeighFile(idx, "d", recs, 0, 1, Finite(0.0), bm25);
  }

  /** The weighing of that one file, on the matrix `DuplicateRowsIndex` gives. */
  lemma DuplicateRowsWeighFile(bm25: Weigher)
    ensures var p2, p3 := Posting("d", 2, 0.0), Posting("d", 3, 0.0);
            WeighFile(map["cat" := [p2, p3]], "d", [Record("cat", 2), Record("cat", 3)], 0, 1, Finite(0.0), bm25)
            == map["cat" := [Posting("d", 2, bm25(3, 2, 1, 0, Finite(0.0))), p3]]
  {
    var recs := [Record("cat", 2), Record("cat", 3)];
    var p2, p3 := Posting("d", 2, 0.0), Posting("d", 3, 0.0);
    var idx: Index := map["cat" := [p2, p3]];
    var w := bm25(3, 2, 1, 0, Finite(0.0));
    var weighed := [Posting("d", 2, w), p3];
    assert LastIndex(recs, "cat") == 1 by {
      assert recs[1..][1..] == [];
    }
    assert SetFirst([p2, p3], "d", w) == weighed;
    assert WeighFileRef(idx, "d", recs, 0, 1, Finite(0.0), bm25) == map["cat" := weighed] by {
      var ref := WeighFileRef(idx, "d", recs, 0, 1, Finite(0.0), bm25);
      assert ref.Keys == {"cat"} && ref["cat"] == weighed;
    }
    WeighFileSpec(idx, "d", recs, 0, 1, Finite(0.0), bm25);
  }

  // ---------------------------------------------------------------------
  // Scoring (query)
  // ---------------------------------------------------------------------

  /** `HashMap.getOrDefault(d, 0d)`. */
  function GetOrZero(acc: map<string, real>, d: string): real
  {
    if d in acc then acc[d] else 0.0
  }

  /** Lines 156-159: add each posting's weight to its document's running score. */
  function AddPostings(acc: map<string, real>, ps: seq<Posting>): map<string, real>
    decreases |ps|
  {
    if ps == [] then acc
    else AddPostings(acc[ps[0].documentID := GetOrZero(acc, ps[0].documentID) + ps[0].termWeight], ps[1..])
  }

  /** Adding the postings from position `k` on: first posting `k`, then the ones after it. */
  lemma AddPostingsStep(acc: map<string, real>, ps: seq<Posting>, k: int)
    requires 0 <= k < |ps|
    ensures AddPostings(acc, ps[k..])
         == AddPostings(acc[ps[k].documentID := GetOrZero(acc, ps[k].documentID) + ps[k].termWeight], ps[k + 1..])
  {
    assert ps[k..][1..] == ps[k + 1..];
  }

  /** Lines 151-161: the query terms in order, with multiplicity; unknown terms are skipped. */
  function AddTerms(acc: map<string, real>, idx: Index, terms: seq<string>): map<string, real>
    decreases |terms|
  {
    if terms == [] then acc
    else AddTerms(if terms[0] in idx then AddPostings(acc, idx[terms[0]]) else acc, idx, terms[1..])
  }

  /** The `documentWeights` map a query builds from an empty map. */
  function Scores(idx: Index, terms: seq<string>): map<string, real>
  {
    AddTerms(map[], idx, terms)
  }

  /** Reference definition: the total weight of `d`'s postings in `ps`. */
  function DocWeight(ps: seq<Posting>, d: string): real
    decreases |ps|
  {
    if ps == [] then 0.0
    else (if ps[0].documentID == d then ps[0].termWeight else 0.0) + DocWeight(ps[1..], d)
  }

  /** Reference definition: `d`'s score, summed over the query terms with multiplicity. */
  function TermScore(idx: Index, terms: seq<string>, d: string): real
    decreases |terms|
  {
    if terms == [] then 0.0
    else (if terms[0] in idx then DocWeight(idx[terms[0]], d) else 0.0) + TermScore(idx, terms[1..], d)
  }

  /** The documents of the postings in `ps`. */
  function Docs(ps: seq<Posting>): set<string>
  {
    set k | 0 <= k < |ps| :: ps[k].documentID
  }

  /** Reference definition: the documents with a posting under some query term. */
  function Mentioned(idx: Index, terms: seq<string>): set<string>
  {
    set i, k | 0 <= i < |terms| && terms[i] in idx && 0 <= k < |idx[terms[i]]| :: idx[terms[i]][k].documentID
  }

  lemma {:induction false} AddPostingsSpec(acc: map<string, real>, ps: seq<Posting>)
    ensures AddPostings(acc, ps).Keys == acc.Keys + Docs(ps)
    ensures forall d :: GetOrZero(AddPostings(acc, ps), d) == GetOrZero(acc, d) + DocWeight(ps, d)
    decreases |ps|
  {
    if ps != [] {
      var p := ps[0];
      var acc1 := acc[p.documentID := GetOrZero(acc, p.documentID) + p.termWeight];
      AddPostingsSpec(acc1, ps[1..]);
      assert Docs(ps) == {p.documentID} + Docs(ps[1..]) by {
        forall k | 1 <= k < |ps|
          ensures ps[k].documentID in Docs(ps[1..])
        {
          assert ps[k] == ps[1..][k - 1];
        }
      }
    }
  }

  lemma MentionedCons(idx: Index, terms: seq<string>)
    requires terms != []
    ensures Mentioned(idx, terms) ==
      (if terms[0] in idx then Docs(idx[terms[0]]) else {}) + Mentioned(idx, terms[1..])
  {
    var rest := terms[1..];
    forall d | d in Mentioned(idx, terms)
      ensures d in (if terms[0] in idx then Docs(idx[terms[0]]) else {}) + Mentioned(idx, rest)
    {
      var i, k :| 0 <= i < |terms| && terms[i] in idx && 0 <= k < |idx[terms[i]]| && idx[terms[i]][k].documentID == d;
      if i > 0 {
        assert rest[i - 1] == terms[i];
      }
    }
    forall d | d in Mentioned(idx, rest)
      ensures d in Mentioned(idx, terms)
    {
      var i, k :| 0 <= i < |rest| && rest[i] in idx && 0 <= k < |idx[rest[i]]| && idx[rest[i]][k].documentID == d;
      assert terms[i + 1] == rest[i];
    }
  }

  lemma {:induction false} AddTermsSpec(acc: map<string, real>, idx: Index, terms: seq<string>)
    ensures AddTerms(acc, idx, terms).Keys == acc.Keys + Mentioned(idx, terms)
    ensures forall d :: GetOrZero(AddTerms(acc, idx, terms), d) == GetOrZero(acc, d) + TermScore(idx, terms, d)
    decreases |terms|
  {
    if terms != [] {
      var acc1 := if terms[0] in idx then AddPostings(acc, idx[terms[0]]) else acc;
      if terms[0] in idx {
        AddPostingsSpec(acc, idx[terms[0]]);
      }
      AddTermsSpec(acc1, idx, terms[1..]);
      MentionedCons(idx, terms);
    }
  }

  /**
   * A query's score map holds exactly the documents with a posting under
   * some query term, and each one's score is the sum, over the query terms
   * with multiplicity, of its posting weights under that term; terms with no
   * header contribute nothing.
   */
  lemma ScoresSpec(idx: Index, terms: seq<string>)
    ensures Scores(idx, terms).Keys == Mentioned(idx, terms)
    ensures forall d :: d in Scores(idx, terms) ==> Scores(idx, terms)[d] == TermScore(idx, terms, d)
  {
    AddTermsSpec(map[], idx, terms);
  }

  // ---------------------------------------------------------------------
  // Which documents a query returns
  // ---------------------------------------------------------------------

  /** File `d` has a record of term `t`. */
  ghost predicate Contains(files: seq<TokenFile>, d: string, t: string)
  {
    exists i, j :: 0 <= i < |files| && 0 <= j < |files[i].records| && files[i].name == d && files[i].records[j].term == t
  }

  lemma DocsConcat(a: seq<Posting>, b: seq<Posting>)
    ensures Docs(a + b) == Docs(a) + Docs(b)
  {
    var c := a + b;
    forall d | d in Docs(c)
      ensures d in Docs(a) + Docs(b)
    {
      var k :| 0 <= k < |c| && c[k].documentID == d;
      if k >= |a| {
        assert c[k] == b[k - |a|];
      }
    }
    forall d | d in Docs(b)
      ensures d in Docs(c)
    {
      var k :| 0 <= k < |b| && b[k].documentID == d;
      assert c[|a| + k] == b[k];
    }
    forall d | d in Docs(a)
      ensures d in Docs(c)
    {
      var k :| 0 <= k < |a| && a[k].documentID == d;
      assert c[k] == a[k];
    }
  }

  /** A file's postings under `t` all carry the file's name. */
  lemma {:induction false} FilePostingsDocs(name: string, records: seq<Record>, t: string)
    ensures Docs(FilePostings(name, records, t)) <= {name}
    decreases |records|
  {
    if records != [] {
      FilePostingsDocs(name, records[1..], t);
      DocsConcat(if records[0].term == t then [Posting(name, records[0].count, 0.0)] else [],
                 FilePostings(name, records[1..], t));
    }
  }

  /** The documents under `t` in the built matrix are the files with a record of `t`. */
  lemma {:induction false} PostingsForDocs(files: seq<TokenFile>, t: string, d: string)
    ensures d in Docs(PostingsFor(files, t)) <==> Contains(files, d, t)
    decreases |files|
  {
    if files != [] {
      var f := files[0];
      var own := FilePostings(f.name, f.records, t);
      PostingsForDocs(files[1..], t, d);
      DocsConcat(own, PostingsFor(files[1..], t));
      FilePostingsDocs(f.name, f.records, t);
      FilePostingsOccurs(f.name, f.records, t);
      if d in Docs(own) {
        var j :| 0 <= j < |f.records| && f.records[j].term == t;
        assert files[0].name == d && files[0].records[j].term == t;
      } else if f.name == d && own == [] {
        assert forall j :: 0 <= j < |f.records| ==> f.records[j].term != t;
      }
      if Contains(files, d, t) {
        var i, j :| 0 <= i < |files| && 0 <= j < |files[i].records| && files[i].name == d && files[i].records[j].term == t;
        if i == 0 {
          assert own != [] && d == f.name;
          var p := own[0];
          assert p.documentID in Docs(own);
        } else {
          assert files[1..][i - 1] == files[i];
        }
      }
      if Contains(files[1..], d, t) {
        var i, j :| 0 <= i < |files[1..]| && 0 <= j < |files[1..][i].records| && files[1..][i].name == d && files[1..][i].records[j].term == t;
        assert files[i + 1] == files[1..][i];
      }
    }
  }

  /** Matrices that differ only in weights mention the same documents. */
  lemma MentionedShape(a: Index, b: Index, terms: seq<string>)
    requires SameIndexShape(a, b)
    ensures Mentioned(a, terms) == Mentioned(b, terms)
  {
    forall d | d in Mentioned(a, terms)
      ensures d in Mentioned(b, terms)
    {
      var i, k :| 0 <= i < |terms| && terms[i] in a && 0 <= k < |a[terms[i]]| && a[terms[i]][k].documentID == d;
      assert b[terms[i]][k].documentID == d;
    }
    forall d | d in Mentioned(b, terms)
      ensures d in Mentioned(a, terms)
    {
      var i, k :| 0 <= i < |terms| && terms[i] in b && 0 <= k < |b[terms[i]]| && b[terms[i]][k].documentID == d;
      assert a[terms[i]][k].documentID == d;
    }
  }

  /**
   * After both passes over `files`, the documents a list of query terms
   * scores are exactly the files that have a record of one of the terms.
   */
  lemma QueryDocuments(files: seq<TokenFile>, lengths: map<string, int>, n: int, avg: Double, bm25: Weigher, terms: seq<string>, d: string)
    requires NamesMeasured(files, lengths)
    ensures TermsIndexed(files, BuildIndex(files))
    ensures d in Mentioned(WeighFiles(BuildIndex(files), files, lengths, n, avg, bm25), terms)
        <==> exists k :: 0 <= k < |terms| && Contains(files, d, terms[k])
  {
    var idx := BuildIndex(files);
    BuildIndexCoversRecords(files);
    WeighFilesShape(idx, files, lengths, n, avg, bm25);
    MentionedShape(idx, WeighFiles(idx, files, lengths, n, avg, bm25), terms);
    if d in Mentioned(idx, terms) {
      var i, k :| 0 <= i < |terms| && terms[i] in idx && 0 <= k < |idx[terms[i]]| && idx[terms[i]][k].documentID == d;
      BuildIndexSpec(files, terms[i]);
      assert d in Docs(PostingsFor(files, terms[i]));
      PostingsForDocs(files, terms[i], d);
    }
    if k :| 0 <= k < |terms| && Contains(files, d, terms[k]) {
      var t := terms[k];
      PostingsForDocs(files, t, d);
      BuildIndexSpec(files, t);
      PostingsForOccurs(files, t);
      var m :| 0 <= m < |PostingsFor(files, t)| && PostingsFor(files, t)[m].documentID == d;
      assert idx[t][m].documentID == d;
    }
  }
}
