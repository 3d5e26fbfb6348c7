/** Blocks (and headers) linked by parent hashes, as the database stores them. */
module BlockTree {
  import opened Transactions

  type Hash = nat

  /** The all-zero hash: what a missing canonical entry reads as, and the parent of the genesis block. */
  const ZERO: Hash := 0

  /** A block; a header is one whose transactions nobody looks at. Transactions are named by their hashes. */
  datatype Block = Block(hash: Hash, parent: Hash, number: nat, difficulty: int, txs: seq<nat>)

  type Store = map<Hash, Block>

  type Canon = map<nat, Hash>

  /** A hash identifies its block. */
  ghost predicate Keyed(blocks: Store) {
    forall h :: h in blocks ==> blocks[h].hash == h && h != ZERO
  }

  /** Database reads go by hash and number together. */
  function Get(blocks: Store, hash: Hash, number: int): (r: Option<Block>) {
    if hash in blocks && blocks[hash].number == number then Some(blocks[hash]) else None
  }

  function ParentOf(blocks: Store, b: Block): (r: Option<Block>) {
    Get(blocks, b.parent, b.number - 1)
  }

  ghost predicate Stored(blocks: Store, b: Block) {
    b.hash in blocks && blocks[b.hash] == b
  }

  ghost predicate HasParent(blocks: Store, b: Block) {
    b.number == 0 || ParentOf(blocks, b).Some?
  }

  /** Every stored block that is not a genesis block has its parent stored. */
  ghost predicate Closed(blocks: Store) {
    Keyed(blocks) && forall b {:trigger HasParent(blocks, b)} :: Stored(blocks, b) ==> HasParent(blocks, b)
  }

  ghost predicate Extends(more: Store, blocks: Store) {
    forall h :: h in blocks ==> h in more && more[h] == blocks[h]
  }

  function Read(canon: Canon, number: int): (r: Hash) {
    if number in canon then canon[number] else ZERO
  }

  /** The ancestor chain of a block, itself included, by number: reached by parent pointers alone. */
  ghost function Chain(blocks: Store, b: Block): (c: Canon)
    ensures b.number in c && c[b.number] == b.hash
    ensures forall n :: n in c ==> n <= b.number
    decreases b.number
  {
    match ParentOf(blocks, b)
    case None => map[b.number := b.hash]
    case Some(p) => Chain(blocks, p)[b.number := b.hash]
  }

  /** The two maps say the same about n. */
  ghost predicate Same(a: Canon, b: Canon, n: nat) {
    (n in a <==> n in b) && (n in a ==> a[n] == b[n])
  }

  ghost predicate SameUpTo(a: Canon, b: Canon, top: nat) {
    forall n: nat :: n <= top ==> Same(a, b, n)
  }

  /** Whatever is present above n is reached without a gap. */
  ghost predicate NoGaps(canon: Canon, n: nat) {
    forall m: nat, k: nat :: m in canon && n <= k < m ==> k in canon
  }

  /** The entries at or below n. */
  ghost function CutAbove(canon: Canon, n: nat): (r: Canon) {
    map m | m in canon && m <= n :: canon[m]
  }

  lemma {:induction false} ChainNoGaps(blocks: Store, b: Block, n: nat)
    requires n in Chain(blocks, b)
    ensures NoGaps(Chain(blocks, b), n)
    decreases b.number
  {
    if n < b.number {
      ChainNoGaps(blocks, ParentOf(blocks, b).value, n);
    }
  }

  lemma ChainBetween(blocks: Store, b: Block, n: nat, k: nat)
    requires n in Chain(blocks, b) && n <= k <= b.number
    ensures k in Chain(blocks, b)
  {
    ChainNoGaps(blocks, b, n);
  }

  /** Below its top a chain consists of stored blocks. */
  lemma {:induction false} ChainStored(blocks: Store, b: Block, n: nat)
    requires Keyed(blocks) && n in Chain(blocks, b) && (n < b.number || Stored(blocks, b))
    ensures var h := Chain(blocks, b)[n]; h in blocks && blocks[h].number == n && h != ZERO
    decreases b.number
  {
    if n < b.number {
      ChainStored(blocks, ParentOf(blocks, b).value, n);
    }
  }

  /** The chain of an ancestor is the lower part of the chain. */
  lemma {:induction false} ChainCut(blocks: Store, b: Block, x: Block)
    requires Keyed(blocks) && Stored(blocks, x)
    requires x.number in Chain(blocks, b) && Chain(blocks, b)[x.number] == x.hash
    requires x.number == b.number ==> x == b
    ensures SameUpTo(Chain(blocks, b), Chain(blocks, x), x.number)
    decreases b.number
  {
    if x.number < b.number {
      var p := ParentOf(blocks, b).value;
      ChainCut(blocks, p, x);
      forall n: nat | n <= x.number ensures Same(Chain(blocks, b), Chain(blocks, x), n) {
        assert Same(Chain(blocks, p), Chain(blocks, x), n);
      }
    }
  }

  /** Two chains that agree at a number agree everywhere below it. */
  lemma ChainsMeet(blocks: Store, a: Block, b: Block, n: nat)
    requires Keyed(blocks) && Stored(blocks, a) && Stored(blocks, b)
    requires n in Chain(blocks, a) && n in Chain(blocks, b) && Chain(blocks, a)[n] == Chain(blocks, b)[n]
    ensures SameUpTo(Chain(blocks, a), Chain(blocks, b), n)
  {
    ChainStored(blocks, a, n);
    var x := blocks[Chain(blocks, a)[n]];
    ChainCut(blocks, a, x);
    ChainCut(blocks, b, x);
    forall m: nat | m <= n ensures Same(Chain(blocks, a), Chain(blocks, b), m) {
      assert Same(Chain(blocks, a), Chain(blocks, x), m) && Same(Chain(blocks, b), Chain(blocks, x), m);
    }
  }

  /** Storing more blocks does not change the chains of a closed store. */
  lemma {:induction false} ChainGrows(blocks: Store, more: Store, b: Block)
    requires Closed(blocks) && Stored(blocks, b) && forall h :: h in blocks ==> h in more && more[h] == blocks[h]
    ensures Chain(more, b) == Chain(blocks, b)
    decreases b.number
  {
    if b.number > 0 {
      assert HasParent(blocks, b);
      ChainGrows(blocks, more, ParentOf(blocks, b).value);
    }
  }

  /** In a closed store every chain reaches number 0. */
  lemma {:induction false} ChainFromZero(blocks: Store, b: Block)
    requires Closed(blocks) && Stored(blocks, b)
    ensures forall n: nat :: n in Chain(blocks, b) <==> n <= b.number
    decreases b.number
  {
    if b.number > 0 {
      assert HasParent(blocks, b);
      ChainFromZero(blocks, ParentOf(blocks, b).value);
    }
  }

  /** Going one step down a chain. */
  lemma ChainStep(blocks: Store, b: Block, x: Block)
    requires Closed(blocks) && Stored(blocks, b) && Stored(blocks, x) && x.number > 0
    requires x.number in Chain(blocks, b) && Chain(blocks, b)[x.number] == x.hash
    ensures ParentOf(blocks, x).Some?
    ensures x.number - 1 in Chain(blocks, b) && Chain(blocks, b)[x.number - 1] == x.parent
  {
    assert HasParent(blocks, x);
    ChainCut(blocks, b, x);
    assert Same(Chain(blocks, b), Chain(blocks, x), x.number - 1);
  }

  /** A canonical block's ancestors are the canonical ones. */
  lemma CanonicalBelow(blocks: Store, head: Block, b: Block, n: nat)
    requires Closed(blocks) && Stored(blocks, head) && Stored(blocks, b) && n <= b.number
    requires Read(Chain(blocks, head), b.number) == b.hash
    ensures Read(Chain(blocks, head), n) == Read(Chain(blocks, b), n)
  {
    ChainCut(blocks, head, b);
    assert Same(Chain(blocks, head), Chain(blocks, b), n);
  }

  /** Neighbours on a chain are parent and child. */
  lemma ChainLink(blocks: Store, b: Block, n: nat)
    requires Keyed(blocks) && Stored(blocks, b) && n in Chain(blocks, b) && n + 1 in Chain(blocks, b)
    ensures Chain(blocks, b)[n + 1] in blocks && blocks[Chain(blocks, b)[n + 1]].number == n + 1
    ensures blocks[Chain(blocks, b)[n + 1]].parent == Chain(blocks, b)[n]
  {
    ChainStored(blocks, b, n + 1);
    var x := blocks[Chain(blocks, b)[n + 1]];
    ChainCut(blocks, b, x);
    assert Same(Chain(blocks, b), Chain(blocks, x), n);
  }

  /** The chains of a and b share the block at number n. */
  ghost predicate Meet(blocks: Store, a: Block, b: Block, n: nat) {
    n in Chain(blocks, a) && n in Chain(blocks, b) && Chain(blocks, a)[n] == Chain(blocks, b)[n]
  }

  /** c is the highest common ancestor of a and b. */
  ghost predicate Fork(blocks: Store, a: Block, b: Block, c: Block) {
    && Meet(blocks, a, b, c.number) && Chain(blocks, a)[c.number] == c.hash
    && forall n: nat :: Meet(blocks, a, b, n) ==> n <= c.number
  }

  ghost function HighestMeet(blocks: Store, a: Block, b: Block, n: nat): (m: nat) {
    if n == 0 || Meet(blocks, a, b, n) then n else HighestMeet(blocks, a, b, n - 1)
  }

  /** The number of the highest block the chains of a and b share. */
  ghost function ForkNumber(blocks: Store, a: Block, b: Block): (m: nat) {
    HighestMeet(blocks, a, b, a.number)
  }

  lemma {:induction false} HighestMeets(blocks: Store, a: Block, b: Block, n: nat)
    requires Meet(blocks, a, b, 0)
    ensures Meet(blocks, a, b, HighestMeet(blocks, a, b, n))
    ensures forall k: nat :: k <= n && Meet(blocks, a, b, k) ==> k <= HighestMeet(blocks, a, b, n)
  {
    if n > 0 {
      HighestMeets(blocks, a, b, n - 1);
    }
  }

  /** It is the number of the highest common ancestor. */
  lemma ForkIs(blocks: Store, a: Block, b: Block, c: Block)
    requires Meet(blocks, a, b, 0) && Fork(blocks, a, b, c)
    ensures c.number == ForkNumber(blocks, a, b)
  {
    HighestMeets(blocks, a, b, a.number);
  }

  /** There is only one genesis block. */
  ghost predicate OneGenesis(blocks: Store) {
    forall a, b :: Stored(blocks, a) && Stored(blocks, b) && a.number == b.number == 0 ==> a == b
  }

  lemma ShareGenesis(blocks: Store, a: Block, b: Block)
    requires Closed(blocks) && OneGenesis(blocks) && Stored(blocks, a) && Stored(blocks, b)
    ensures Meet(blocks, a, b, 0)
  {
    ChainFromZero(blocks, a);
    ChainFromZero(blocks, b);
    ChainStored(blocks, a, 0);
    ChainStored(blocks, b, 0);
    assert Stored(blocks, blocks[Chain(blocks, a)[0]]) && Stored(blocks, blocks[Chain(blocks, b)[0]]);
  }

  /** The map follows the chain of b up to b, and goes on above it, if at all, without a gap. */
  ghost predicate Follows(canon: Canon, blocks: Store, b: Block) {
    && SameUpTo(canon, Chain(blocks, b), b.number) && NoGaps(canon, b.number)
    && forall n :: n in canon ==> canon[n] != ZERO
  }

  /** A stored block at its number, and unless it is the first above `top`, the child of the entry below. */
  ghost predicate TailAt(canon: Canon, blocks: Store, top: nat, m: nat)
    requires m in canon
  {
    && canon[m] in blocks && blocks[canon[m]].number == m
    && (m > top + 1 ==> m - 1 in canon && blocks[canon[m]].parent == canon[m - 1])
  }

  /** What is left above `top` is a piece of some chain. */
  ghost predicate Trails(canon: Canon, blocks: Store, top: nat) {
    forall m: nat {:trigger TailAt(canon, blocks, top, m)} :: m in canon && m > top ==> TailAt(canon, blocks, top, m)
  }

  /** The canonical map under a head: its chain up to the head, and above it at most a piece of an older one. */
  ghost predicate MapOf(canon: Canon, blocks: Store, head: Block) {
    Follows(canon, blocks, head) && Trails(canon, blocks, head.number)
  }

  lemma ChainFollows(blocks: Store, b: Block)
    requires Keyed(blocks) && Stored(blocks, b)
    ensures MapOf(Chain(blocks, b), blocks, b)
  {
    forall n | n in Chain(blocks, b) ensures Chain(blocks, b)[n] != ZERO {
      ChainStored(blocks, b, n);
    }
  }

  /** Deletes the run of canonical entries that starts right above a number. */
  method DeleteAbove(canon: Canon, number: nat) returns (r: Canon)
    requires NoGaps(canon, number + 1) && forall n :: n in canon ==> canon[n] != ZERO
    ensures r == CutAbove(canon, number)
  {
    var batch: set<nat> := {};
    var i := number + 1;
    while Read(canon, i) != ZERO
      invariant i > number
      invariant forall n: nat :: n in batch <==> number < n < i
      invariant batch <= canon.Keys
      decreases canon.Keys - batch
    {
      batch := batch + {i};
      i := i + 1;
    }
    r := canon - batch;
    assert forall n: nat :: n in canon && n > number ==> n < i;
  }
}
