/**
 * Splitting the new order ids into request batches (Program.cs:70-72):
 * `for (i = 0; i < n; i += 50)` with `Skip(i).Take(50)`.
 */
module Batching {

  /** The largest number of ids one detail request carries. */
  const BatchSize: nat := 50

  function Min(a: int, b: int): (r: int)
    ensures r <= a && r <= b && (r == a || r == b)
  {
    if a <= b then a else b
  }

  /** `ids.Skip(i).Take(BatchSize)`. */
  function BatchAt(ids: seq<string>, i: nat): (b: seq<string>)
    requires i <= |ids|
    ensures |b| == Min(BatchSize, |ids| - i)
    ensures b == ids[i..i + |b|]
  {
    ids[i..Min(i + BatchSize, |ids|)]
  }

  /** The batches the loop sends, starting at offset `i`. */
  function BatchesFrom(ids: seq<string>, i: nat): (bs: seq<seq<string>>)
    requires i <= |ids|
    ensures forall b :: b in bs ==> 0 < |b| <= BatchSize
    ensures Concat(bs) == ids[i..]
    ensures |bs| == (|ids| - i + BatchSize - 1) / BatchSize
    decreases |ids| - i
  {
    if i == |ids| then []
    else if |ids| - i <= BatchSize then [BatchAt(ids, i)]
    else
      var rest := BatchesFrom(ids, i + BatchSize);
      assert ids[i..] == BatchAt(ids, i) + ids[i + BatchSize..];
      [BatchAt(ids, i)] + rest
  }

  /** The offset of batch `k` when the loop starts at `i`. */
  function Start(i: nat, k: nat): (r: nat)
    ensures r == i + k * BatchSize
    decreases k
  {
    if k == 0 then i else Start(i + BatchSize, k - 1)
  }

  /** The batches from `i` on: the one at `i`, then those after it. */
  lemma BatchesFromStep(ids: seq<string>, i: nat)
    requires i < |ids|
    ensures BatchesFrom(ids, i) ==
      [BatchAt(ids, i)] + (if i + BatchSize <= |ids| then BatchesFrom(ids, i + BatchSize) else [])
  {
  }

  /** Batch `k` starts at offset `Start(i, k)`. */
  lemma {:induction false} BatchWindow(ids: seq<string>, i: nat, k: nat)
    requires i <= |ids| && k < |BatchesFrom(ids, i)|
    ensures Start(i, k) <= |ids|
    ensures BatchesFrom(ids, i)[k] == BatchAt(ids, Start(i, k))
    decreases k
  {
    BatchesFromStep(ids, i);
    if k > 0 {
      BatchWindow(ids, i + BatchSize, k - 1);
    }
  }

  /** Windows given at `Start(i, k)` are the windows at `i + k * BatchSize`. */
  lemma StartWindows(ids: seq<string>, i: nat, bs: seq<seq<string>>)
    requires forall k :: 0 <= k < |bs| ==> Start(i, k) <= |ids| && bs[k] == BatchAt(ids, Start(i, k))
    ensures forall k :: 0 <= k < |bs| ==>
      i + k * BatchSize <= |ids| && bs[k] == BatchAt(ids, i + k * BatchSize)
  {
    forall k | 0 <= k < |bs|
      ensures i + k * BatchSize <= |ids| && bs[k] == BatchAt(ids, i + k * BatchSize)
    {
      var s := Start(i, k);
      assert s == i + k * BatchSize;
    }
  }

  /**
   * The batches are exactly the loop's windows, at offsets `i`,
   * `i + BatchSize`, `i + 2 * BatchSize`, ..., not just some split of the ids.
   */
  lemma BatchesFromWindows(ids: seq<string>, i: nat)
    requires i <= |ids|
    ensures forall k :: 0 <= k < |BatchesFrom(ids, i)| ==>
      i + k * BatchSize <= |ids| && BatchesFrom(ids, i)[k] == BatchAt(ids, i + k * BatchSize)
  {
    var bs := BatchesFrom(ids, i);
    forall k | 0 <= k < |bs|
      ensures Start(i, k) <= |ids| && bs[k] == BatchAt(ids, Start(i, k))
    {
      BatchWindow(ids, i, k);
    }
    StartWindows(ids, i, bs);
  }

  /** All batches of `ids`. */
  function Batches(ids: seq<string>): (bs: seq<seq<string>>)
  {
    BatchesFrom(ids, 0)
  }

  /** The batches laid end to end. */
  function Concat(bs: seq<seq<string>>): (r: seq<string>)
  {
    if bs == [] then [] else bs[0] + Concat(bs[1..])
  }

  /** 120 new ids go out as batches of 50, 50 and 20. */
  lemma BatchesOf120(ids: seq<string>)
    requires |ids| == 120
    ensures |Batches(ids)| == 3
    ensures |Batches(ids)[0]| == 50 && |Batches(ids)[1]| == 50 && |Batches(ids)[2]| == 20
  {
    assert BatchesFrom(ids, 100) == [BatchAt(ids, 100)];
    assert BatchesFrom(ids, 50) == [BatchAt(ids, 50)] + BatchesFrom(ids, 100);
    assert Batches(ids) == [BatchAt(ids, 0)] + BatchesFrom(ids, 50);
  }
}
