/** Which transactions the pool takes back in when the chain's head moves. */
module PoolReset {
  import opened Transactions
  import opened BlockTree
  import opened BlockChains

  const MAX_DEPTH: nat := 64

  function Depth(a: Block, b: Block): (d: nat) {
    if a.number > b.number then a.number - b.number else b.number - a.number
  }

  /** The walk over both branches is worth doing: the new head does not simply extend the old one, and is not far off. */
  predicate Walks(oldHead: Option<Block>, newHead: Block) {
    oldHead.Some? && oldHead.value.hash != newHead.parent && Depth(oldHead.value, newHead) <= MAX_DEPTH
  }

  /**
   The transactions to put back: those of the old chain that the new chain lacks. None means that the
   reset is given up, which happens when the old head is gone or the branches do not meet.
   */
  method Reinject(blocks: Store, oldHead: Option<Block>, newHead: Block) returns (r: Option<set<nat>>)
    requires Keyed(blocks) && NoRepeats(blocks) && Stored(blocks, newHead)
    requires oldHead.Some? && oldHead.value.hash in blocks ==> Stored(blocks, oldHead.value)
    ensures !Walks(oldHead, newHead) ==> r == Some({})
    ensures Walks(oldHead, newHead) ==>
      (r.None? <==> oldHead.value.hash !in blocks || forall n :: !Meet(blocks, oldHead.value, newHead, n))
    ensures Walks(oldHead, newHead) && r.Some? ==>
      forall t :: t in r.value <==> t in Scan(blocks, oldHead.value) && t !in Scan(blocks, newHead)
    ensures oldHead.Some? && Stored(blocks, oldHead.value) && Meet(blocks, oldHead.value, newHead, oldHead.value.number) ==>
      r == Some({})
  {
    if !Walks(oldHead, newHead) {
      return Some({});
    }
    var rem := Get(blocks, oldHead.value.hash, oldHead.value.number);
    if rem.None? {
      return None;
    }
    var removed, added, common := FindFork(blocks, rem.value, newHead);
    if common.None? {
      return None;
    }
    assert Meet(blocks, oldHead.value, newHead, common.value.number);
    PathPeeled(blocks, rem.value, removed, common.value);
    PathPeeled(blocks, newHead, added, common.value);
    var reinject := TxDifference(AllTxs(removed), AllTxs(added));
    Missing(Scan(blocks, rem.value), Scan(blocks, newHead), Scan(blocks, common.value), AllTxs(removed), AllTxs(added));
    if Meet(blocks, rem.value, newHead, rem.value.number) {
      PathDown(blocks, rem.value, removed, common.value);
      assert removed == [];
      DescendantKeepsAll(blocks, newHead, added, common.value);
      assert reinject == {};
    }
    return Some(reinject);
  }

  /** Discarded and not included again: on the old chain and not on the new one. */
  lemma Missing(was: Lookups, now: Lookups, base: Lookups, discarded: seq<nat>, included: seq<nat>)
    requires Peeled(was, base, discarded) && Peeled(now, base, included)
    ensures forall t :: t in discarded && t !in included <==> t in was && t !in now
  {
    forall t ensures t in discarded && t !in included <==> t in was && t !in now {
      assert t !in included ==> SameAt(now, base, t);
      assert t !in discarded ==> SameAt(was, base, t);
    }
  }

  /** Nothing is put back when the new head descends from the old one. */
  lemma DescendantKeepsAll(blocks: Store, head: Block, chain: seq<Block>, ancestor: Block)
    requires Keyed(blocks) && NoRepeats(blocks) && Stored(blocks, head) && Path(blocks, head, chain, ancestor)
    ensures forall t :: t in Scan(blocks, ancestor) ==> t in Scan(blocks, head)
  {
    PathPeeled(blocks, head, chain, ancestor);
    forall t | t in Scan(blocks, ancestor) ensures t in Scan(blocks, head) {
      assert t !in AllTxs(chain) ==> SameAt(Scan(blocks, head), Scan(blocks, ancestor), t);
    }
  }
}
