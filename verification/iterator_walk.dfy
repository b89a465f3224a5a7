/**
 * The walk of the project's iterator test (IteratorTest.java): a header
 * built from one node and four appends, then a for-each over the header
 * that counts the nodes and sums their term counts.
 */
module IteratorWalk {
  import opened Postings

  /** The sum of the term counts of `ps`. */
  function TotalCount(ps: seq<Posting>): int
    decreases |ps|
  {
    if ps == [] then 0 else ps[0].termCount + TotalCount(ps[1..])
  }

  /** Appending a posting adds its count. */
  lemma {:induction false} TotalCountSnoc(ps: seq<Posting>, p: Posting)
    ensures TotalCount(ps + [p]) == TotalCount(ps) + p.termCount
    decreases |ps|
  {
    if ps != [] {
      assert (ps + [p])[1..] == ps[1..] + [p];
      TotalCountSnoc(ps[1..], p);
    } else {
      assert TotalCount([p]) == p.termCount + TotalCount([]);
    }
  }

  /**
   * The for-each of `testIterator`: one step per node of `h`'s list, from the
   * head to the tail, adding up the term counts.
   */
  method CountNodes(h: TDMHeader) returns (count: int, sum: int)
    requires h.Valid()
    ensures count == |h.chain| == h.GetLen()
    ensures sum == TotalCount(h.Postings())
  {
    ghost var ps := h.Postings();
    forall i | 0 <= i < |h.chain|
      ensures View(h.chain[i]) == ps[i]
    {
      SnapAt(h.chain, i);
    }
    var it := h.Iterator();
    count, sum := 0, 0;
    var more := it.HasNext();
    while more
      invariant it.Valid() && fresh(it)
      invariant 0 <= count <= |h.chain| && it.remaining == h.chain[count..]
      invariant more == (count < |h.chain|)
      invariant sum + TotalCount(ps[count..]) == TotalCount(ps)
      decreases |h.chain| - count
    {
      var step := it.Next();
      var node := step.node;
      assert View(node) == ps[count];
      assert ps[count..][1..] == ps[count + 1..];
      sum := sum + node.GetTermCount();
      count := count + 1;
      more := it.HasNext();
    }
  }

  /** One step of `createTDMHeader`: a new node `(id, count)` appended to `h`. */
  method AppendNew(h: TDMHeader, id: string, count: int)
    requires h.Valid()
    modifies h`len, h`chain, h.Tail()`next
    ensures h.Valid() && fresh(h.Tail())
    ensures h.Postings() == old(h.Postings()) + [Posting(id, count, 0.0)]
  {
    var node := new TDMNode(id, count);
    h.Append(node);
  }

  /**
   * `createTDMHeader` then `testIterator`: the node ("0", 0) under the term
   * "test", the nodes ("1", 1) to ("4", 4) appended, and the walk sees five
   * nodes whose counts add up to 10.
   */
  method IteratorScenario() returns (count: int, sum: int)
    ensures count == 5 && sum == 10
  {
    var node1 := new TDMNode("0", 0);
    var header := new TDMHeader("test", node1);
    ghost var ps := header.Postings();
    assert TotalCount(ps) == 0 && |ps| == 1;
    for t := 1 to 5
      invariant header.Valid() && fresh(header.Tail())
      invariant ps == header.Postings() && |ps| == t
      invariant TotalCount(ps) == [0, 0, 1, 3, 6, 10][t]
    {
      AppendNew(header, [(t + '0' as int) as char], t);
      TotalCountSnoc(ps, Posting([(t + '0' as int) as char], t, 0.0));
      ps := header.Postings();
    }
    count, sum := CountNodes(header);
  }
}
