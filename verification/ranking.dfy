/**
 * The last step of `QueryEngine.query`: the score map's entries, streamed in
 * the map's own (unspecified) order and sorted with
 * `Map.Entry.comparingByValue()`, that is by score ASCENDING.
 */
module Ranking {

  /** A `Map.Entry<String, Double>`: document id and score. */
  type Entry = (string, real)

  /** Scores never decrease along `r`. */
  ghost predicate Ascending(r: seq<Entry>)
  {
    forall i, j :: 0 <= i < j < |r| ==> r[i].1 <= r[j].1
  }

  /** `r` lists each entry of `m` exactly once. */
  ghost predicate EntriesOf(r: seq<Entry>, m: map<string, real>)
  {
    && (forall i :: 0 <= i < |r| ==> r[i].0 in m && m[r[i].0] == r[i].1)
    && (forall i, j :: 0 <= i < j < |r| ==> r[i].0 != r[j].0)
    && (forall k :: k in m ==> exists i :: 0 <= i < |r| && r[i].0 == k)
  }

  /** A key of least value among `keys`. */
  ghost function LeastKey(m: map<string, real>, keys: set<string>): (k: string)
    requires keys != {} && keys <= m.Keys
    ensures k in keys
    ensures forall k' :: k' in keys ==> m[k] <= m[k']
    decreases |keys|
  {
    var x :| x in keys;
    if keys == {x} then x
    else
      var y := LeastKey(m, keys - {x});
      if m[x] <= m[y] then x else y
  }

  /**
   * The state of the selection loop: `r` holds the entries of `m` whose keys
   * have left `rest`, each once, ascending, none above what is left.
   */
  ghost predicate Selected(m: map<string, real>, rest: set<string>, r: seq<Entry>, position: map<string, nat>)
  {
    && rest <= m.Keys
    && (forall i :: 0 <= i < |r| ==> r[i].0 in m && r[i].0 !in rest && m[r[i].0] == r[i].1)
    && (forall i, j :: 0 <= i < j < |r| ==> r[i].0 != r[j].0)
    && (forall k :: k in m && k !in rest ==> k in position && position[k] < |r| && r[position[k]].0 == k)
    && Ascending(r)
    && (forall i, k :: 0 <= i < |r| && k in rest ==> r[i].1 <= m[k])
  }

  /** Moving a least key of `rest` to the end of `r` keeps `Selected`. */
  lemma SelectStep(m: map<string, real>, rest: set<string>, r: seq<Entry>, position: map<string, nat>, k: string)
    requires Selected(m, rest, r, position)
    requires k in rest && forall k' :: k' in rest ==> m[k] <= m[k']
    ensures Selected(m, rest - {k}, r + [(k, m[k])], position[k := |r|])
  {
  }

  /**
   * `entrySet().stream().sorted(comparingByValue()).collect(toList())`:
   * every entry of `m` once, scores ascending. The order among equal scores
   * is left open, as the map's iteration order decides it.
   */
  method SortByValue(m: map<string, real>) returns (r: seq<Entry>)
    ensures Ascending(r) && EntriesOf(r, m)
  {
    var rest := m.Keys;
    r := [];
    ghost var position: map<string, nat> := map[];
    while rest != {}
      invariant Selected(m, rest, r, position)
      decreases |rest|
    {
      ghost var least := LeastKey(m, rest);
      var k :| k in rest && forall k' :: k' in rest ==> m[k] <= m[k'];
      SelectStep(m, rest, r, position, k);
      position := position[k := |r|];
      r := r + [(k, m[k])];
      rest := rest - {k};
    }
    forall k | k in m
      ensures exists i :: 0 <= i < |r| && r[i].0 == k
    {
      assert r[position[k]].0 == k;
    }
  }

  /**
   * The ordering check of the project's own query test (each score at least
   * the next one) holds of an ascending result only when all its scores are
   * equal.
   */
  lemma {:induction false} AscendingPassesDescendingCheck(r: seq<Entry>)
    requires Ascending(r)
    ensures (forall i :: 0 <= i < |r| - 1 ==> r[i].1 >= r[i + 1].1)
        <==> (forall i, j :: 0 <= i < j < |r| ==> r[i].1 == r[j].1)
  {
    if forall i :: 0 <= i < |r| - 1 ==> r[i].1 >= r[i + 1].1 {
      forall i, j | 0 <= i < j < |r|
        ensures r[i].1 == r[j].1
      {
        NonIncreasingChain(r, i, j);
      }
    }
  }

  lemma {:induction false} NonIncreasingChain(r: seq<Entry>, i: int, j: int)
    requires 0 <= i <= j < |r|
    requires forall k :: 0 <= k < |r| - 1 ==> r[k].1 >= r[k + 1].1
    ensures r[i].1 >= r[j].1
    decreases j - i
  {
    if i < j {
      NonIncreasingChain(r, i + 1, j);
    }
  }
}
