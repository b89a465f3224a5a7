/**
 * The posting list of one term: a singly linked chain of TDMNode objects
 * hanging off a TDMHeader, and the iterator that walks it.
 *
 * Java's ListNode only contributes the `next` link to TDMNode, so the two
 * classes are folded into one here.
 */
module Postings {

  /** One posting: the document it occurs in, its raw count and its weight. */
  datatype Posting = Posting(documentID: string, termCount: int, termWeight: real)

  class TDMNode {
    var documentID: string
    var termCount: int
    var termWeight: real
    var next: TDMNode?
    /** The term whose list holds this node; a proof device with no Java counterpart. */
    ghost var owner: string

    /** A fresh posting with weight 0 and no successor. */
    constructor (documentID: string, termCount: int)
      ensures this.documentID == documentID && this.termCount == termCount
      ensures termWeight == 0.0 && next == null
    {
      this.documentID := documentID;
      this.termCount := termCount;
      this.termWeight := 0.0;
      this.next := null;
    }

    function GetDocumentID(): string
      reads this`documentID
    {
      documentID
    }

    method SetDocumentID(documentID: string)
      modifies this`documentID
      ensures this.documentID == documentID
    {
      this.documentID := documentID;
    }

    function GetTermCount(): int
      reads this`termCount
    {
      termCount
    }

    method SetTermCount(termCount: int)
      modifies this`termCount
      ensures this.termCount == termCount
    {
      this.termCount := termCount;
    }

    function GetTermWeight(): real
      reads this`termWeight
    {
      termWeight
    }

    method SetTermWeight(termWeight: real)
      modifies this`termWeight
      ensures this.termWeight == termWeight
    {
      this.termWeight := termWeight;
    }

    function GetNext(): TDMNode?
      reads this`next
    {
      next
    }

    method SetNext(next: TDMNode?)
      modifies this`next
      ensures this.next == next
    {
      this.next := next;
    }
  }

  /** The data a node currently holds, as a value. */
  ghost function View(n: TDMNode): (p: Posting)
    reads n`documentID, n`termCount, n`termWeight
  {
    Posting(n.documentID, n.termCount, n.termWeight)
  }

  /** No node occurs twice in `s`. */
  ghost predicate Distinct(s: seq<TDMNode>)
  {
    forall i, j :: 0 <= i < j < |s| ==> s[i] != s[j]
  }

  /**
   * `s` is a well-formed chain: each node links to the next one and the last
   * node has no successor (so no node occurs twice, see LinkedDistinct).
   */
  ghost predicate Linked(s: seq<TDMNode>)
    reads s`next
    decreases |s|
  {
    s != [] ==> s[0].next == (if |s| == 1 then null else s[1]) && Linked(s[1..])
  }

  /** Node `i` of `s` links to node `i + 1`, or to null when it is the last. */
  ghost predicate LinkAt(s: seq<TDMNode>, i: int)
    requires 0 <= i < |s|
    reads s`next
  {
    s[i].next == (if i == |s| - 1 then null else s[i + 1])
  }

  /** The link a chain has at position `i`. */
  lemma {:induction false} LinkedNext(s: seq<TDMNode>, i: int)
    requires Linked(s) && 0 <= i < |s|
    ensures LinkAt(s, i)
    decreases i
  {
    if i > 0 {
      LinkedNext(s[1..], i - 1);
    }
  }

  /** A sequence with the right link at every position is a chain. */
  lemma {:induction false} LinksLinked(s: seq<TDMNode>)
    requires forall i :: 0 <= i < |s| ==> LinkAt(s, i)
    ensures Linked(s)
    decreases |s|
  {
    if s != [] {
      var t := s[1..];
      forall i | 0 <= i < |t|
        ensures LinkAt(t, i)
      {
        assert LinkAt(s, i + 1);
      }
      LinksLinked(t);
      assert LinkAt(s, 0);
    }
  }

  lemma {:induction false} NoRepeat(s: seq<TDMNode>, i: int, j: int)
    requires Linked(s) && 0 <= i < j < |s|
    ensures s[i] != s[j]
    decreases |s| - j
  {
    LinkedNext(s, i);
    LinkedNext(s, j);
    if j < |s| - 1 {
      NoRepeat(s, i + 1, j + 1);
    }
  }

  /** A chain that ends in null visits no node twice. */
  lemma LinkedDistinct(s: seq<TDMNode>)
    requires Linked(s)
    ensures Distinct(s)
  {
    forall i, j | 0 <= i < j < |s|
      ensures s[i] != s[j]
    {
      NoRepeat(s, i, j);
    }
  }

  /** The postings held by the nodes of `s`, in chain order. */
  ghost function Snap(s: seq<TDMNode>): (ps: seq<Posting>)
    reads s`documentID, s`termCount, s`termWeight
    ensures |ps| == |s|
    decreases |s|
  {
    if s == [] then [] else [View(s[0])] + Snap(s[1..])
  }

  lemma {:induction false} SnapAt(s: seq<TDMNode>, i: int)
    requires 0 <= i < |s|
    ensures Snap(s)[i] == View(s[i])
    decreases i
  {
    if i > 0 {
      SnapAt(s[1..], i - 1);
    }
  }

  lemma {:induction false} SnapSnoc(s: seq<TDMNode>, node: TDMNode)
    ensures Snap(s + [node]) == Snap(s) + [View(node)]
    decreases |s|
  {
    if s != [] {
      assert (s + [node])[1..] == s[1..] + [node];
      SnapSnoc(s[1..], node);
    }
  }

  /** The outcome of `TDMIterator.next()`: a node, or Java's NoSuchElementException. */
  datatype Step = Yielded(node: TDMNode) | NoSuchElement

  class TDMIterator {
    var iter: TDMNode?
    /** The nodes this iterator has still to yield. */
    ghost var remaining: seq<TDMNode>

    ghost predicate Valid()
      reads this, remaining`next
    {
      Linked(remaining) && iter == (if remaining == [] then null else remaining[0])
    }

    constructor (listHead: TDMNode, ghost chain: seq<TDMNode>)
      requires Linked(chain) && chain != [] && chain[0] == listHead
      ensures Valid() && iter == listHead && remaining == chain
    {
      iter := listHead;
      remaining := chain;
    }

    function HasNext(): (b: bool)
      requires Valid()
      reads this, remaining`next
      ensures b <==> remaining != []
    {
      iter != null
    }

    method Next() returns (r: Step)
      requires Valid()
      modifies this
      ensures Valid()
      ensures old(remaining) == [] ==> r == NoSuchElement && remaining == []
      ensures old(remaining) != [] ==> r == Yielded(old(remaining)[0]) && remaining == old(remaining)[1..]
    {
      if iter == null {
        return NoSuchElement;
      }
      var nextNode := iter;
      iter := iter.GetNext();
      remaining := remaining[1..];
      r := Yielded(nextNode);
    }
  }

  class TDMHeader {
    var term: string
    var len: int
    var listHead: TDMNode
    /** The nodes reachable from `listHead`, in order. */
    ghost var chain: seq<TDMNode>

    ghost predicate Valid()
      reads this`chain, this`listHead, this`len, chain`next
    {
      chain != [] && chain[0] == listHead && len == |chain| && Linked(chain)
    }

    /** The postings of this term, in list order. */
    ghost function Postings(): seq<Posting>
      reads this`chain, chain`documentID, chain`termCount, chain`termWeight
    {
      Snap(chain)
    }

    /** The last node of the chain: the one `append` links the new node to. */
    ghost function Tail(): TDMNode
      requires chain != []
      reads this`chain
    {
      chain[|chain| - 1]
    }

    constructor (term: string, node: TDMNode)
      ensures this.term == term && listHead == node && len == 1 && chain == [node]
      ensures node.next == null ==> Valid() && Postings() == [View(node)]
    {
      this.term := term;
      this.listHead := node;
      this.len := 1;
      this.chain := [node];
    }

    function GetTerm(): string
      reads this`term
    {
      term
    }

    function GetLen(): (n: int)
      requires Valid()
      reads this`chain, this`listHead, this`len, chain`next
      ensures n == |chain|
    {
      len
    }

    function GetListHead(): (head: TDMNode)
      requires Valid()
      reads this`chain, this`listHead, this`len, chain`next
      ensures head == chain[0]
    {
      listHead
    }

    method Iterator() returns (it: TDMIterator)
      requires Valid()
      ensures fresh(it) && it.Valid() && it.remaining == chain && it.iter == listHead
    {
      it := new TDMIterator(listHead, chain);
    }

    /** The for-each walk at the start of `append`: the last node reached from `listHead`. */
    method LastNode() returns (tail: TDMNode)
      requires Valid()
      ensures tail == Tail()
    {
      tail := listHead;
      var it := Iterator();
      var more := it.HasNext();
      ghost var k := 0;
      while more
        invariant it.Valid() && fresh(it)
        invariant 0 <= k <= |chain| && it.remaining == chain[k..]
        invariant more == (k < |chain|)
        invariant tail == chain[if k == 0 then 0 else k - 1]
        decreases |chain| - k
      {
        var r := it.Next();
        tail := r.node;
        k := k + 1;
        more := it.HasNext();
      }
    }

    /**
     * `setTermWeight` on node `k` of the list, whose nodes hold `ps`:
     * posting `k` takes weight `w`, the others keep theirs.
     */
    method SetWeightAt(node: TDMNode, ghost k: int, ghost ps: seq<Posting>, w: real)
      requires Valid() && 0 <= k < |chain| && node == chain[k]
      requires |ps| == |chain| && forall i :: 0 <= i < |chain| ==> View(chain[i]) == ps[i]
      modifies node`termWeight
      ensures Valid() && Postings() == ps[k := ps[k].(termWeight := w)]
    {
      LinkedDistinct(chain);
      node.SetTermWeight(w);
      forall i | 0 <= i < |chain|
        ensures Postings()[i] == ps[k := ps[k].(termWeight := w)][i]
      {
        SnapAt(chain, i);
      }
    }

    method Append(node: TDMNode)
      requires Valid()
      modifies this`len, this`chain, Tail()`next
      ensures len == old(len) + 1 && chain == old(chain) + [node]
      ensures old(Tail()).next == node
      ensures term == old(term) && listHead == old(listHead)
      ensures node.next == null && node !in old(chain) ==>
                Valid() && Postings() == old(Postings()) + [View(node)]
    {
      var tail := LastNode();
      ghost var before := chain;
      LinkedDistinct(before);
      forall i | 0 <= i < |before|
        ensures LinkAt(before, i)
      {
        LinkedNext(before, i);
      }
      label linked:
      len := len + 1;
      tail.SetNext(node);
      chain := chain + [node];
      SnapSnoc(before, node);
      if node.next == null && node !in before {
        forall i | 0 <= i < |chain|
          ensures LinkAt(chain, i)
        {
          if i < |before| - 1 {
            assert before[i] != tail && old@linked(LinkAt(before, i));
          }
        }
        LinksLinked(chain);
      }
    }
  }
}
