/** The block chain's head, canonical map and transaction index, and how a reorganisation rewrites them. */
module BlockChains {
  import opened Transactions
  import opened BlockTree
  import opened Ancestors
  import opened HeaderChains

  type Lookups = map<nat, nat>

  /** Transaction hashes of one block, with its number. */
  function Entries(b: Block): (r: Lookups) {
    map t | t in b.txs :: b.number
  }

  /** What a scan of the whole chain of b finds. */
  ghost function Scan(blocks: Store, b: Block): (r: Lookups)
    decreases b.number
  {
    match ParentOf(blocks, b)
    case None => Entries(b)
    case Some(p) => Scan(blocks, p) + Entries(b)
  }

  /** No transaction of b is in an older block of its chain. */
  ghost predicate Novel(blocks: Store, b: Block) {
    ParentOf(blocks, b).Some? ==> forall t :: t in b.txs ==> t !in Scan(blocks, ParentOf(blocks, b).value)
  }

  /** No transaction occurs twice on any chain. */
  ghost predicate NoRepeats(blocks: Store) {
    forall b {:trigger Novel(blocks, b)} :: Stored(blocks, b) ==> Novel(blocks, b)
  }

  ghost predicate SameAt(a: Lookups, b: Lookups, t: nat) {
    (t in a <==> t in b) && (t in a ==> a[t] == b[t])
  }

  /** `base` is `top` without exactly the transactions `txs`. */
  ghost predicate Peeled(top: Lookups, base: Lookups, txs: seq<nat>) {
    && (forall t :: t in txs ==> t in top && t !in base)
    && (forall t :: t !in txs ==> SameAt(top, base, t))
  }

  /** All transactions of some blocks. */
  function AllTxs(chain: seq<Block>): (r: seq<nat>) {
    if chain == [] then [] else AllTxs(chain[..|chain| - 1]) + chain[|chain| - 1].txs
  }

  /** `chain` leads from `start` down to just above `end`. */
  ghost predicate Path(blocks: Store, start: Block, chain: seq<Block>, end: Block)
    decreases |chain|
  {
    if chain == [] then start == end
    else
      var last := chain[|chain| - 1];
      ParentOf(blocks, last) == Some(end) && Path(blocks, start, chain[..|chain| - 1], last)
  }

  lemma PathGrows(blocks: Store, start: Block, chain: seq<Block>, end: Block, next: Block)
    requires Path(blocks, start, chain, end) && ParentOf(blocks, end) == Some(next)
    ensures Path(blocks, start, chain + [end], next) && AllTxs(chain + [end]) == AllTxs(chain) + end.txs
  {
    assert (chain + [end])[..|chain|] == chain;
  }

  /** The end of a path is an ancestor, and so is everything on it. */
  lemma {:induction false} PathDown(blocks: Store, start: Block, chain: seq<Block>, end: Block)
    requires Path(blocks, start, chain, end)
    ensures end.number + |chain| == start.number
    ensures SameUpTo(Chain(blocks, start), Chain(blocks, end), end.number)
    ensures chain != [] ==> chain[0] == start
    decreases |chain|
  {
    if chain != [] {
      var last := chain[|chain| - 1];
      PathDown(blocks, start, chain[..|chain| - 1], last);
      forall n: nat | n <= end.number ensures Same(Chain(blocks, start), Chain(blocks, end), n) {
        assert Same(Chain(blocks, start), Chain(blocks, last), n);
      }
    }
  }

  lemma {:induction false} PathPart(blocks: Store, start: Block, chain: seq<Block>, end: Block, i: nat)
    requires Path(blocks, start, chain, end) && i < |chain|
    ensures Path(blocks, start, chain[..i], chain[i])
    ensures ParentOf(blocks, chain[i]) == Some(if i + 1 < |chain| then chain[i + 1] else end)
    decreases |chain|
  {
    var front := chain[..|chain| - 1];
    if i < |front| {
      PathPart(blocks, start, front, chain[|chain| - 1], i);
      assert front[..i] == chain[..i];
    }
  }

  lemma {:induction false} PathPeeled(blocks: Store, start: Block, chain: seq<Block>, end: Block)
    requires Keyed(blocks) && NoRepeats(blocks) && Stored(blocks, start) && Path(blocks, start, chain, end)
    ensures Stored(blocks, end) && Peeled(Scan(blocks, start), Scan(blocks, end), AllTxs(chain))
    decreases |chain|
  {
    if chain != [] {
      var last := chain[|chain| - 1];
      PathPeeled(blocks, start, chain[..|chain| - 1], last);
      assert Novel(blocks, last);
      PeelOne(Scan(blocks, start), Scan(blocks, last), Scan(blocks, end), AllTxs(chain[..|chain| - 1]), last);
    }
  }

  lemma PeelOne(top: Lookups, base: Lookups, next: Lookups, txs: seq<nat>, b: Block)
    requires Peeled(top, base, txs) && base == next + Entries(b) && forall t :: t in b.txs ==> t !in next
    ensures Peeled(top, next, txs + b.txs)
  {
    forall t ensures t !in txs + b.txs ==> SameAt(top, next, t) {
      assert t !in txs ==> SameAt(top, base, t);
    }
    forall t | t in txs + b.txs ensures t in top && t !in next {
      if t !in txs {
        assert SameAt(top, base, t);
      }
    }
  }

  /** Reduces the longer chain: the blocks down to a number, and the block there unless the chain breaks off. */
  method Reduce(blocks: Store, start: Block, number: nat) returns (chain: seq<Block>, end: Option<Block>)
    requires number <= start.number
    ensures end.Some? ==> Path(blocks, start, chain, end.value) && end.value.number == number
    ensures end.None? ==> number !in Chain(blocks, start)
  {
    chain, end := [], Some(start);
    while end.Some? && end.value.number != number
      invariant end.Some? ==> Path(blocks, start, chain, end.value) && end.value.number >= number
      invariant end.Some? ==> Same(Chain(blocks, start), Chain(blocks, end.value), number)
      invariant end.None? ==> number !in Chain(blocks, start)
      decreases if end.Some? then end.value.number + 1 else 0
    {
      var b := end.value;
      end := ParentOf(blocks, b);
      if end.Some? {
        PathGrows(blocks, start, chain, b, end.value);
      }
      chain := chain + [b];
    }
  }

  /** Shared blocks of a and b below both are shared by their parents. */
  lemma MeetLower(blocks: Store, a: Block, b: Block, n: nat)
    requires Keyed(blocks) && Stored(blocks, a) && Stored(blocks, b) && a.number == b.number && a != b
    requires Meet(blocks, a, b, n)
    ensures ParentOf(blocks, a).Some? && ParentOf(blocks, b).Some?
    ensures Meet(blocks, ParentOf(blocks, a).value, ParentOf(blocks, b).value, n)
  {
  }

  /** Steps back on two chains from the same number until they meet, or one of them breaks off. */
  method StepBack(blocks: Store, oldBlock: Block, newBlock: Block)
      returns (oldChain: seq<Block>, newChain: seq<Block>, common: Option<Block>)
    requires Keyed(blocks) && Stored(blocks, oldBlock) && Stored(blocks, newBlock) && oldBlock.number == newBlock.number
    ensures common.Some? ==> Path(blocks, oldBlock, oldChain, common.value) && Path(blocks, newBlock, newChain, common.value)
    ensures common.Some? ==> forall n: nat :: Meet(blocks, oldBlock, newBlock, n) ==> n <= common.value.number
    ensures common.None? ==> forall n :: !Meet(blocks, oldBlock, newBlock, n)
  {
    oldChain, newChain := [], [];
    var a, b := oldBlock, newBlock;
    while a.hash != b.hash
      invariant Stored(blocks, a) && Stored(blocks, b) && a.number == b.number
      invariant Path(blocks, oldBlock, oldChain, a) && Path(blocks, newBlock, newChain, b)
      invariant forall n :: Meet(blocks, oldBlock, newBlock, n) ==> Meet(blocks, a, b, n)
      decreases a.number
    {
      forall n | Meet(blocks, a, b, n)
        ensures ParentOf(blocks, a).Some? && ParentOf(blocks, b).Some?
        ensures Meet(blocks, ParentOf(blocks, a).value, ParentOf(blocks, b).value, n)
      {
        MeetLower(blocks, a, b, n);
      }
      var p, q := ParentOf(blocks, a), ParentOf(blocks, b);
      if p.None? || q.None? {
        common := None;
        return;
      }
      PathGrows(blocks, oldBlock, oldChain, a, p.value);
      PathGrows(blocks, newBlock, newChain, b, q.value);
      oldChain, newChain := oldChain + [a], newChain + [b];
      a, b := p.value, q.value;
    }
    common := Some(a);
  }

  lemma {:induction false} PathJoin(blocks: Store, start: Block, upper: seq<Block>, mid: Block, lower: seq<Block>, end: Block)
    requires Path(blocks, start, upper, mid) && Path(blocks, mid, lower, end)
    ensures Path(blocks, start, upper + lower, end)
    decreases |lower|
  {
    if lower == [] {
      assert upper + lower == upper;
    } else {
      var last := lower[|lower| - 1];
      PathJoin(blocks, start, upper, mid, lower[..|lower| - 1], last);
      assert (upper + lower)[..|upper + lower| - 1] == upper + lower[..|lower| - 1];
    }
  }

  /** A block reached by a path is stored when the start is. */
  lemma PathStored(blocks: Store, start: Block, chain: seq<Block>, end: Block)
    requires Keyed(blocks) && Stored(blocks, start) && Path(blocks, start, chain, end)
    ensures Stored(blocks, end)
  {
  }

  /** Shared numbers survive going down to the lower of the two. */
  lemma MeetReduced(blocks: Store, a: Block, chain: seq<Block>, end: Block, b: Block, n: nat)
    requires Path(blocks, a, chain, end) && end.number == b.number
    ensures Meet(blocks, a, b, n) <==> Meet(blocks, end, b, n)
    ensures Meet(blocks, b, a, n) <==> Meet(blocks, b, end, n)
  {
    PathDown(blocks, a, chain, end);
    if n <= end.number {
      assert Same(Chain(blocks, a), Chain(blocks, end), n);
    }
  }

  /** The blocks to leave and to enter, newest first, down to the highest common ancestor if there is one. */
  method FindFork(blocks: Store, oldBlock: Block, newBlock: Block)
      returns (oldChain: seq<Block>, newChain: seq<Block>, common: Option<Block>)
    requires Keyed(blocks) && Stored(blocks, oldBlock) && Stored(blocks, newBlock)
    ensures common.Some? ==> Path(blocks, oldBlock, oldChain, common.value) && Path(blocks, newBlock, newChain, common.value)
    ensures common.Some? ==> Fork(blocks, oldBlock, newBlock, common.value)
    ensures common.None? ==> forall n :: !Meet(blocks, oldBlock, newBlock, n)
  {
    oldChain, newChain := [], [];
    var a, b := Some(oldBlock), Some(newBlock);
    if oldBlock.number > newBlock.number {
      oldChain, a := Reduce(blocks, oldBlock, newBlock.number);
    } else {
      newChain, b := Reduce(blocks, newBlock, oldBlock.number);
    }
    if a.None? || b.None? {
      common := None;
      NeverMeet(blocks, oldBlock, newBlock);
      return;
    }
    PathStored(blocks, oldBlock, oldChain, a.value);
    PathStored(blocks, newBlock, newChain, b.value);
    forall n ensures Meet(blocks, oldBlock, newBlock, n) <==> Meet(blocks, a.value, b.value, n) {
      if oldBlock.number > newBlock.number {
        MeetReduced(blocks, oldBlock, oldChain, a.value, newBlock, n);
      } else {
        MeetReduced(blocks, newBlock, newChain, b.value, oldBlock, n);
      }
    }
    var olds, news;
    olds, news, common := StepBack(blocks, a.value, b.value);
    if common.Some? {
      PathJoin(blocks, oldBlock, oldChain, a.value, olds, common.value);
      PathJoin(blocks, newBlock, newChain, b.value, news, common.value);
      PathDown(blocks, a.value, olds, common.value);
      PathDown(blocks, b.value, news, common.value);
      assert Same(Chain(blocks, a.value), Chain(blocks, common.value), common.value.number);
      assert Same(Chain(blocks, b.value), Chain(blocks, common.value), common.value.number);
      assert Meet(blocks, a.value, b.value, common.value.number);
    }
    oldChain, newChain := oldChain + olds, newChain + news;
  }

  /** A chain that breaks off above the other block never meets its chain. */
  lemma NeverMeet(blocks: Store, a: Block, b: Block)
    requires Keyed(blocks)
    requires (b.number < a.number && b.number !in Chain(blocks, a)) || (a.number <= b.number && a.number !in Chain(blocks, b))
    ensures forall n :: !Meet(blocks, a, b, n)
  {
    forall n: nat ensures !Meet(blocks, a, b, n) {
      if n in Chain(blocks, a) && n <= b.number < a.number {
        ChainBetween(blocks, a, n, b.number);
      }
      if n in Chain(blocks, b) && n <= a.number <= b.number {
        ChainBetween(blocks, b, n, a.number);
      }
    }
  }

  /** The map `was`, with the chain `line` written over it above lo and up to hi. */
  ghost predicate Patched(canon: Canon, was: Canon, line: Canon, lo: nat, hi: nat) {
    && (forall n: nat :: lo < n <= hi ==> Same(canon, line, n))
    && (forall n: nat :: !(lo < n <= hi) ==> Same(canon, was, n))
  }

  lemma PatchOne(canon: Canon, was: Canon, line: Canon, lo: nat, hi: nat)
    requires Patched(canon, was, line, lo, hi) && lo <= hi && hi + 1 in line
    ensures Patched(canon[hi + 1 := line[hi + 1]], was, line, lo, hi + 1)
  {
    var more := canon[hi + 1 := line[hi + 1]];
    forall n: nat ensures lo < n <= hi + 1 ==> Same(more, line, n) {
      assert lo < n <= hi ==> Same(canon, line, n);
    }
    forall n: nat ensures !(lo < n <= hi + 1) ==> Same(more, was, n) {
      assert !(lo < n <= hi) ==> Same(canon, was, n);
    }
  }

  /** Lookups `was`, with the transactions `added` as `top` has them. */
  ghost predicate Updated(now: Lookups, was: Lookups, top: Lookups, added: seq<nat>) {
    && (forall t :: t in added ==> t in now && SameAt(now, top, t))
    && (forall t :: t !in added ==> SameAt(now, was, t))
  }

  lemma UpdateOne(now: Lookups, was: Lookups, top: Lookups, added: seq<nat>, b: Block)
    requires Updated(now, was, top, added)
    ensures Updated(now + Entries(b), was, top + Entries(b), added + b.txs)
  {
    var more, higher := now + Entries(b), top + Entries(b);
    forall t | t in added + b.txs ensures t in more && SameAt(more, higher, t) {
      assert t in added ==> SameAt(now, top, t);
    }
    forall t ensures t !in added + b.txs ==> SameAt(more, was, t) {
      assert t !in added ==> SameAt(now, was, t);
    }
  }

  /** Leaving one branch and entering another, transactions deleted unless they came back, gives the new scan. */
  lemma Relocated(now: Lookups, was: Lookups, top: Lookups, base: Lookups, deleted: seq<nat>, added: seq<nat>, gone: set<nat>)
    requires Peeled(was, base, deleted) && Peeled(top, base, added) && Updated(now, was, top, added)
    requires forall t :: t in gone <==> t in deleted && t !in added
    ensures now - gone == top
  {
    var after := now - gone;
    forall t ensures SameAt(after, top, t) {
      if t !in added {
        assert SameAt(now, was, t) && SameAt(top, base, t);
        assert t !in deleted ==> SameAt(was, base, t);
      } else {
        assert SameAt(now, top, t);
      }
    }
    assert forall t :: t in after <==> t in top by {
      forall t ensures t in after <==> t in top { assert SameAt(after, top, t); }
    }
    forall t | t in after ensures after[t] == top[t] { assert SameAt(after, top, t); }
  }

  /** The transactions of a that are not in b. */
  method TxDifference(a: seq<nat>, b: seq<nat>) returns (keep: set<nat>)
    ensures forall t :: t in keep <==> t in a && t !in b
  {
    keep := {};
    for i := 0 to |a|
      invariant forall t :: t in keep <==> t in a[..i] && t !in b
    {
      if a[i] !in b {
        keep := keep + {a[i]};
      }
    }
  }

  /** Adding a block of novel transactions on top. */
  lemma PeelMore(top: Lookups, base: Lookups, txs: seq<nat>, b: Block)
    requires Peeled(top, base, txs) && forall t :: t in b.txs ==> t !in top
    ensures Peeled(top + Entries(b), base, txs + b.txs)
  {
    var higher := top + Entries(b);
    forall t | t in txs + b.txs ensures t in higher && t !in base {
      assert t !in txs ==> SameAt(top, base, t);
    }
    forall t ensures t !in txs + b.txs ==> SameAt(higher, base, t) {
      assert t !in txs ==> SameAt(top, base, t);
    }
  }

  /** The i-th block of a path. */
  lemma PathAt(blocks: Store, start: Block, chain: seq<Block>, end: Block, i: nat)
    requires Keyed(blocks) && Stored(blocks, start) && Path(blocks, start, chain, end) && i < |chain|
    ensures chain[i].number + i == start.number && Stored(blocks, chain[i])
    ensures chain[i].number in Chain(blocks, start) && Chain(blocks, start)[chain[i].number] == chain[i].hash
    ensures ParentOf(blocks, chain[i]) == Some(if i + 1 < |chain| then chain[i + 1] else end)
  {
    PathPart(blocks, start, chain, end, i);
    PathDown(blocks, start, chain[..i], chain[i]);
    PathStored(blocks, start, chain[..i], chain[i]);
    assert Same(Chain(blocks, start), Chain(blocks, chain[i]), chain[i].number);
  }

  lemma FollowsCut(canon: Canon, blocks: Store, b: Block)
    requires Follows(canon, blocks, b)
    ensures CutAbove(canon, b.number) == Chain(blocks, b)
  {
    var cut, line := CutAbove(canon, b.number), Chain(blocks, b);
    forall n: nat ensures n in cut <==> n in line {
      assert n <= b.number ==> Same(canon, line, n);
    }
    forall n | n in cut ensures cut[n] == line[n] {
      assert Same(canon, line, n);
    }
  }

  /** Below a block that a followed chain contains there is no gap either. */
  lemma FollowsNoGaps(canon: Canon, blocks: Store, b: Block, n: nat)
    requires Follows(canon, blocks, b) && n in Chain(blocks, b)
    ensures NoGaps(canon, n)
  {
    ChainNoGaps(blocks, b, n);
    forall m: nat, k: nat | m in canon && n <= k < m ensures k in canon {
      if k < b.number {
        assert k in Chain(blocks, b) && Same(canon, Chain(blocks, b), k);
      }
    }
  }

  /** Writing the new branch over the old one: the map then follows the new branch. */
  lemma PatchFollows(canon: Canon, was: Canon, blocks: Store, oldBlock: Block, newBlock: Block, c: Block, p: Block)
    requires Keyed(blocks) && Stored(blocks, oldBlock) && Stored(blocks, newBlock)
    requires Follows(was, blocks, oldBlock) && Fork(blocks, oldBlock, newBlock, c)
    requires ParentOf(blocks, newBlock) == Some(p) && c.number <= p.number
    requires Patched(canon, was, Chain(blocks, newBlock), c.number, p.number)
    ensures Follows(canon, blocks, p)
  {
    var line, lower := Chain(blocks, newBlock), Chain(blocks, p);
    ChainsMeet(blocks, oldBlock, newBlock, c.number);
    forall n: nat | n <= p.number ensures Same(canon, lower, n) {
      assert Same(line, lower, n);
      if n <= c.number {
        assert Same(canon, was, n) && Same(was, Chain(blocks, oldBlock), n) && Same(Chain(blocks, oldBlock), line, n);
      } else {
        assert Same(canon, line, n);
      }
    }
    FollowsNoGaps(was, blocks, oldBlock, c.number);
    assert Same(canon, lower, p.number);
    forall m: nat, k: nat | m in canon && p.number <= k < m ensures k in canon {
      assert Same(canon, was, m);
      assert k > p.number ==> Same(canon, was, k);
    }
    forall n | n in canon ensures canon[n] != ZERO {
      if n <= p.number {
        assert Same(canon, lower, n);
        ChainStored(blocks, p, n);
      } else {
        assert Same(canon, was, n);
      }
    }
  }

  /**
   After a reorganisation: the map is exactly the chain of the head, which is the new block's parent when
   that is above the fork and else the old head. The index is that of the new block's chain without it.
   */
  ghost predicate Switched(blocks: Store, canon: Canon, lookups: Lookups, oldBlock: Block, newBlock: Block, c: Block, head: Block) {
    && Stored(blocks, head) && canon == Chain(blocks, head) && newBlock.number >= c.number
    && Some(head) == (if newBlock.number >= c.number + 2 then ParentOf(blocks, newBlock) else Some(oldBlock))
    && (if newBlock.number == c.number then newBlock == c && lookups == Scan(blocks, newBlock)
        else ParentOf(blocks, newBlock).Some? && lookups == Scan(blocks, ParentOf(blocks, newBlock).value))
  }

  /** The old chain with the new block put in its place, when that is no higher than right above the fork. */
  lemma OnOldChain(blocks: Store, oldBlock: Block, newBlock: Block, c: Block)
    requires Keyed(blocks) && Stored(blocks, oldBlock) && Stored(blocks, newBlock) && Fork(blocks, oldBlock, newBlock, c)
    requires newBlock.number == c.number || newBlock.number == c.number + 1
    ensures MapOf(Chain(blocks, oldBlock)[newBlock.number := newBlock.hash], blocks, newBlock)
  {
    var line, final := Chain(blocks, newBlock), Chain(blocks, oldBlock)[newBlock.number := newBlock.hash];
    ChainsMeet(blocks, oldBlock, newBlock, c.number);
    forall n: nat | n <= newBlock.number ensures Same(final, line, n) {
      assert n <= c.number ==> Same(Chain(blocks, oldBlock), line, n);
    }
    ChainNoGaps(blocks, oldBlock, c.number);
    forall n | n in final ensures final[n] != ZERO {
      if n in Chain(blocks, oldBlock) {
        ChainStored(blocks, oldBlock, n);
      }
    }
    forall m: nat | m in final && m > newBlock.number ensures TailAt(final, blocks, newBlock.number, m) {
      ChainLink(blocks, oldBlock, m - 1);
    }
  }

  /** A map that follows a chain is that chain exactly when it holds nothing above it. */
  lemma FollowsExactly(canon: Canon, blocks: Store, b: Block)
    requires Follows(canon, blocks, b)
    ensures canon == Chain(blocks, b) <==> forall n :: n in canon ==> n <= b.number
  {
    if forall n :: n in canon ==> n <= b.number {
      FollowsCut(canon, blocks, b);
      assert CutAbove(canon, b.number) == canon;
    }
  }

  /**
   Reorganisation and then the new head: the map follows the new chain in any case, and is exactly the new
   chain if and only if the new head is no lower than the old one or at least two blocks above the fork.
   */
  lemma HeadWritten(blocks: Store, canon: Canon, lookups: Lookups, oldBlock: Block, newBlock: Block, c: Block, head: Block)
    requires Keyed(blocks) && Stored(blocks, oldBlock) && Stored(blocks, newBlock)
    requires Fork(blocks, oldBlock, newBlock, c) && Switched(blocks, canon, lookups, oldBlock, newBlock, c, head)
    ensures var final := canon[newBlock.number := newBlock.hash];
      && MapOf(final, blocks, newBlock)
      && (final == Chain(blocks, newBlock) <==> newBlock.number >= oldBlock.number || newBlock.number >= c.number + 2)
    ensures lookups + Entries(newBlock) == Scan(blocks, newBlock)
  {
    var final := canon[newBlock.number := newBlock.hash];
    if newBlock.number >= c.number + 2 {
      assert final == Chain(blocks, newBlock);
      ChainFollows(blocks, newBlock);
    } else {
      OnOldChain(blocks, oldBlock, newBlock, c);
      FollowsExactly(final, blocks, newBlock);
      assert oldBlock.number in final;
    }
  }

  /** A heavy block right above the fork, below a light head two blocks above it, leaves that head's entry behind. */
  lemma StaleEntry(blocks: Store, g: Block, a1: Block, a2: Block, b1: Block)
    requires g == Block(1, ZERO, 0, 1, []) && a1 == Block(2, 1, 1, 1, []) && a2 == Block(3, 2, 2, 1, []) && b1 == Block(4, 1, 1, 10, [])
    requires blocks == map[1 := g, 2 := a1, 3 := a2, 4 := b1]
    ensures Closed(blocks) && Fork(blocks, a2, b1, g) && TotalDifficulty(blocks, b1) > TotalDifficulty(blocks, a2)
    ensures Switched(blocks, Chain(blocks, a2), Scan(blocks, g), a2, b1, g, a2)
    ensures Chain(blocks, b1) == map[0 := 1, 1 := 4] && Chain(blocks, a2)[1 := 4] == map[0 := 1, 1 := 4, 2 := 3]
  {
    assert ParentOf(blocks, a2) == Some(a1) && ParentOf(blocks, a1) == Some(g) && ParentOf(blocks, b1) == Some(g);
    assert ParentOf(blocks, g) == None;
    assert Chain(blocks, g) == map[0 := 1];
    assert Chain(blocks, a1) == map[0 := 1, 1 := 2];
    assert TotalDifficulty(blocks, g) == 1 && TotalDifficulty(blocks, a1) == 2;
    assert Meet(blocks, a2, b1, 0);
    assert Closed(blocks);
  }

  /** A child of the head needs no reorganisation. */
  lemma ChildWritten(blocks: Store, canon: Canon, head: Block, child: Block)
    requires Keyed(blocks) && Stored(blocks, child) && ParentOf(blocks, child) == Some(head) && MapOf(canon, blocks, head)
    ensures var final := canon[child.number := child.hash];
      && MapOf(final, blocks, child)
      && (final == Chain(blocks, child) <==> forall n :: n in canon ==> n <= child.number)
  {
    var final := canon[child.number := child.hash];
    forall n: nat | n <= child.number ensures Same(final, Chain(blocks, child), n) {
      assert n < child.number ==> Same(canon, Chain(blocks, head), n);
    }
    forall m: nat | m in final && m > child.number ensures TailAt(final, blocks, child.number, m) {
      assert TailAt(canon, blocks, head.number, m);
    }
    FollowsExactly(final, blocks, child);
    assert forall n: nat :: n > child.number ==> (n in final <==> n in canon);
  }

  /** Storing more blocks keeps the map a map of the head. */
  lemma MapGrows(canon: Canon, blocks: Store, more: Store, head: Block)
    requires Closed(blocks) && Stored(blocks, head) && Extends(more, blocks) && MapOf(canon, blocks, head)
    ensures MapOf(canon, more, head)
  {
    ChainGrows(blocks, more, head);
    forall m: nat | m in canon && m > head.number ensures TailAt(canon, more, head.number, m) {
      assert TailAt(canon, blocks, head.number, m);
    }
  }

  lemma {:induction false} ScanGrows(blocks: Store, more: Store, b: Block)
    requires Closed(blocks) && Stored(blocks, b) && Extends(more, blocks)
    ensures Scan(more, b) == Scan(blocks, b)
    decreases b.number
  {
    if b.number > 0 {
      assert HasParent(blocks, b);
      ScanGrows(blocks, more, ParentOf(blocks, b).value);
    }
  }

  /** Storing a block whose transactions are new to its chain. */
  lemma StillNovel(blocks: Store, b: Block)
    requires Closed(blocks) && NoRepeats(blocks) && b.hash != ZERO && HasParent(blocks, b) && Novel(blocks, b)
    requires b.hash in blocks ==> blocks[b.hash] == b
    ensures NoRepeats(blocks[b.hash := b])
  {
    var more := blocks[b.hash := b];
    ClosedWith(blocks, b);
    forall x | Stored(more, x) ensures Novel(more, x) {
      assert x == b || Stored(blocks, x);
      assert HasParent(blocks, x) && Novel(blocks, x);
      if x.number > 0 {
        ScanGrows(blocks, more, ParentOf(blocks, x).value);
      }
    }
  }

  class BlockChain {
    const genesis: Block
    var blocks: Store
    var tds: map<Hash, int>
    var canon: Canon
    var lookups: Lookups
    var current: Block
    var headHeader: Block
    var headFast: Block

    /** The head's chain is canonical up to the head, and exactly its transactions are indexed. */
    ghost predicate Consistent()
      reads this
    {
      && Keyed(blocks) && NoRepeats(blocks) && Stored(blocks, current)
      && MapOf(canon, blocks, current)
      && lookups == Scan(blocks, current)
    }

    /** Makes a block the head; a block that was not canonical also becomes the head header and the fast head. */
    method Insert(block: Block)
      modifies this`canon, this`current, this`headHeader, this`headFast
      ensures canon == old(canon)[block.number := block.hash] && current == block
      ensures if Read(old(canon), block.number) != block.hash then headHeader == headFast == block
              else headHeader == old(headHeader) && headFast == old(headFast)
    {
      var updateHeads := Read(canon, block.number) != block.hash;
      canon := canon[block.number := block.hash];
      current := block;
      if updateHeads {
        headHeader := block;
        headFast := block;
      }
    }

    /** Inserts the new chain, oldest block first, except its head, and indexes its transactions. */
    method InsertAll(newBlock: Block, newChain: seq<Block>, common: Block) returns (addedTxs: seq<nat>)
      requires Keyed(blocks) && NoRepeats(blocks) && Stored(blocks, newBlock) && Path(blocks, newBlock, newChain, common)
      modifies this`canon, this`current, this`headHeader, this`headFast, this`lookups
      ensures |newChain| < 2 ==> canon == old(canon) && current == old(current) && lookups == old(lookups) && addedTxs == []
      ensures |newChain| >= 2 ==>
        && current == newChain[1] && Patched(canon, old(canon), Chain(blocks, newBlock), common.number, newChain[1].number)
        && Updated(lookups, old(lookups), Scan(blocks, newChain[1]), addedTxs)
        && Peeled(Scan(blocks, newChain[1]), Scan(blocks, common), addedTxs)
    {
      addedTxs := [];
      ghost var line := Chain(blocks, newBlock);
      ghost var top := common;
      var i := |newChain| - 1;
      while i >= 1
        invariant i == |newChain| - 1 || 0 <= i < |newChain| - 1
        invariant if i == |newChain| - 1 then top == common && current == old(current) else top == newChain[i + 1] == current
        invariant Stored(blocks, top) || top == common
        invariant common.number + |newChain| - 1 - i == top.number
        invariant i == |newChain| - 1 ==> canon == old(canon) && lookups == old(lookups) && addedTxs == []
        invariant Patched(canon, old(canon), line, common.number, top.number)
        invariant Updated(lookups, old(lookups), Scan(blocks, top), addedTxs)
        invariant Peeled(Scan(blocks, top), Scan(blocks, common), addedTxs)
      {
        var b := newChain[i];
        PathAt(blocks, newBlock, newChain, common, i);
        assert Novel(blocks, b);
        PatchOne(canon, old(canon), line, common.number, top.number);
        UpdateOne(lookups, old(lookups), Scan(blocks, top), addedTxs, b);
        PeelMore(Scan(blocks, top), Scan(blocks, common), addedTxs, b);
        Insert(b);
        lookups := lookups + Entries(b);
        addedTxs := addedTxs + b.txs;
        top := b;
        i := i - 1;
      }
    }

    /** Leaves the old branch for the new one, up to the parent of the new block if that is above the fork. */
    method SwitchBranch(newBlock: Block, oldChain: seq<Block>, newChain: seq<Block>, common: Block)
      requires Consistent() && Stored(blocks, newBlock) && Fork(blocks, current, newBlock, common)
      requires Path(blocks, current, oldChain, common) && Path(blocks, newBlock, newChain, common)
      modifies this`canon, this`current, this`headHeader, this`headFast, this`lookups
      ensures Stored(blocks, current) && canon == Chain(blocks, current)
      ensures current == if |newChain| >= 2 then newChain[1] else old(current)
      ensures lookups == Scan(blocks, if |newChain| >= 2 then newChain[1] else common)
    {
      PathPeeled(blocks, current, oldChain, common);
      var deletedTxs := AllTxs(oldChain);
      var addedTxs := InsertAll(newBlock, newChain, common);
      if |newChain| >= 2 {
        PathAt(blocks, newBlock, newChain, common, 0);
        PathAt(blocks, newBlock, newChain, common, 1);
        PathDown(blocks, newBlock, newChain, common);
        PatchFollows(canon, old(canon), blocks, old(current), newBlock, common, current);
      }
      var gone := TxDifference(deletedTxs, addedTxs);
      Relocated(lookups, old(lookups), Scan(blocks, if |newChain| >= 2 then newChain[1] else common), Scan(blocks, common),
                deletedTxs, addedTxs, gone);
      lookups := lookups - gone;
      FollowsCut(canon, blocks, current);
      canon := DeleteAbove(canon, current.number);
    }

    /**
     Turns the chain of the head into the chain of a new block, but leaves the new block itself to the
     caller. Fails, changing nothing, exactly when the two chains have no block in common.
     */
    method Reorg(newBlock: Block) returns (common: Option<Block>)
      requires Consistent() && Stored(blocks, newBlock)
      modifies this`canon, this`current, this`headHeader, this`headFast, this`lookups
      ensures common.None? <==> forall n :: !Meet(blocks, old(current), newBlock, n)
      ensures common.None? ==> canon == old(canon) && current == old(current) && lookups == old(lookups)
      ensures common.None? ==> headHeader == old(headHeader) && headFast == old(headFast)
      ensures common.Some? ==> Fork(blocks, old(current), newBlock, common.value)
      ensures common.Some? ==> Switched(blocks, canon, lookups, old(current), newBlock, common.value, current)
    {
      var oldChain, newChain;
      oldChain, newChain, common := FindFork(blocks, current, newBlock);
      if common.None? {
        return;
      }
      var c := common.value;
      assert Meet(blocks, old(current), newBlock, c.number);
      PathDown(blocks, newBlock, newChain, c);
      if newChain != [] {
        PathAt(blocks, newBlock, newChain, c, 0);
      }
      SwitchBranch(newBlock, oldChain, newChain, c);
    }

    ghost predicate Valid()
      reads this
    {
      Rooted(blocks, tds, genesis) && Consistent()
    }

    constructor (g: Block)
      requires g.number == 0 && g.hash != ZERO && g.parent == ZERO
      ensures Valid() && Heaviest(blocks, current) && genesis == current == g && canon == Chain(blocks, g)
    {
      genesis, current, headHeader, headFast := g, g, g, g;
      blocks, tds, canon, lookups := map[g.hash := g], map[g.hash := g.difficulty], map[0 := g.hash], Entries(g);
    }

    /** Gets map and index ready for a new head that is not a child of the present one. */
    method LeaveBranch(block: Block)
      requires Valid() && Stored(blocks, block)
      modifies this`canon, this`current, this`headHeader, this`headFast, this`lookups
      ensures MapOf(canon[block.number := block.hash], blocks, block)
      ensures lookups + Entries(block) == Scan(blocks, block)
      ensures forall c :: Fork(blocks, old(current), block, c) ==>
        (canon[block.number := block.hash] == Chain(blocks, block) <==>
          block.number >= old(current).number || block.number >= c.number + 2)
    {
      SameRoot(blocks, tds, genesis, current);
      SameRoot(blocks, tds, genesis, block);
      assert Meet(blocks, current, block, 0);
      var common := Reorg(block);
      HeadWritten(blocks, canon, lookups, old(current), block, common.value, current);
    }

    /** Makes a stored block the head, whatever its total difficulty. */
    method WriteKnownBlock(block: Block)
      requires Valid() && Stored(blocks, block)
      modifies this`canon, this`current, this`headHeader, this`headFast, this`lookups
      ensures Valid() && current == block
      ensures block.parent == old(current).hash ==>
        (canon == Chain(blocks, block) <==> forall n :: n in old(canon) ==> n <= block.number)
      ensures block.parent != old(current).hash ==> forall c :: Fork(blocks, old(current), block, c) ==>
        (canon == Chain(blocks, block) <==> block.number >= old(current).number || block.number >= c.number + 2)
    {
      assert HasParent(blocks, block);
      if block.parent != current.hash {
        LeaveBranch(block);
      } else {
        ChildWritten(blocks, canon, current, block);
      }
      lookups := lookups + Entries(block);
      Insert(block);
    }

    /**
     Stores a block and makes it the head when its total difficulty is higher than the head's, or the same
     at a lower number, or the same at the same number and a locally mined block or the coin says so.
     */
    method WriteBlockWithState(block: Block, currentPreserve: bool, blockPreserve: bool, coin: bool) returns (status: WriteStatus)
      requires Valid() && block.hash != ZERO && Novel(blocks, block)
      requires block.hash in blocks ==> blocks[block.hash] == block
      modifies this`blocks, this`tds, this`canon, this`current, this`headHeader, this`headFast, this`lookups
      ensures Valid() && (old(Heaviest(blocks, current)) ==> Heaviest(blocks, current))
      ensures status.NonStat? <==> old(block.number == 0 || Get(blocks, block.parent, block.number - 1).None?)
      ensures status.NonStat? ==> blocks == old(blocks)
      ensures !status.NonStat? ==> blocks == old(blocks)[block.hash := block]
      ensures current == (if status.Canonical? then block else old(current))
      ensures !status.Canonical? ==> canon == old(canon) && lookups == old(lookups)
      ensures !status.NonStat? ==>
        var there, here := TotalDifficulty(blocks, block), TotalDifficulty(blocks, old(current));
        status.Canonical? <==>
          || there > here
          || (there == here && block.number < old(current).number)
          || (there == here && block.number == old(current).number && !currentPreserve && (blockPreserve || coin))
      ensures status.Canonical? && block.parent == old(current).hash ==>
        (canon == Chain(blocks, block) <==> forall n :: n in old(canon) ==> n <= block.number)
      ensures status.Canonical? && block.parent != old(current).hash ==> forall c :: Fork(blocks, old(current), block, c) ==>
        (canon == Chain(blocks, block) <==> block.number >= old(current).number || block.number >= c.number + 2)
    {
      if block.number == 0 || Get(blocks, block.parent, block.number - 1).None? {
        return NonStat;
      }
      var localTd, externTd := tds[current.hash], tds[block.parent] + block.difficulty;
      Store(block, externTd);
      var reorg := externTd > localTd;
      if !reorg && externTd == localTd {
        if block.number < current.number {
          reorg := true;
        } else if block.number == current.number {
          reorg := !currentPreserve && (blockPreserve || coin);
        }
      }
      if reorg {
        WriteKnownBlock(block);
        status := Canonical;
      } else {
        status := Side;
      }
    }

    /** Stores a block under a stored parent, with its total difficulty. */
    method Store(block: Block, td: int)
      requires Valid() && block.hash != ZERO && Novel(blocks, block) && block.number > 0 && ParentOf(blocks, block).Some?
      requires block.hash in blocks ==> blocks[block.hash] == block
      requires td == tds[block.parent] + block.difficulty
      modifies this`blocks, this`tds
      ensures Valid() && blocks == old(blocks)[block.hash := block] && TotalDifficulty(blocks, block) == td
      ensures TotalDifficulty(blocks, current) == old(tds)[current.hash]
      ensures old(Heaviest(blocks, current)) ==>
        var here := old(tds)[current.hash];
        && (td < here || (td == here && block.number >= current.number) ==> Heaviest(blocks, current))
        && (td > here || (td == here && block.number <= current.number) ==> Heaviest(blocks, block))
    {
      var more := blocks[block.hash := block];
      Grafted(blocks, tds, genesis, block, td);
      StillNovel(blocks, block);
      ClosedWith(blocks, block);
      MapGrows(canon, blocks, more, current);
      ScanGrows(blocks, more, current);
      DifficultyGrows(blocks, more, current);
      if Heaviest(blocks, current) {
        HeaviestOf(blocks, more, current, block);
      }
      blocks, tds := more, tds[block.hash := td];
    }
  }

  /** A block chain can be asked for ancestors; look-ups are sound from the head's number down, and everywhere if the map is exact. */
  lemma BlockChainServes(bc: BlockChain, b: Block, n: nat)
    requires bc.Valid() && Stored(bc.blocks, b) && n <= b.number
    ensures Served(bc.blocks, bc.canon, bc.current)
    ensures b.number <= bc.current.number || bc.canon == Chain(bc.blocks, bc.current) ==>
      Sound(bc.blocks, bc.canon, bc.current, b, n)
  {
    RootedServes(bc.blocks, bc.tds, bc.genesis, bc.canon, bc.current);
    FollowsExactly(bc.canon, bc.blocks, bc.current);
    if b.number <= bc.current.number || bc.canon == Chain(bc.blocks, bc.current) {
      SoundFrom(bc.blocks, bc.canon, bc.current, b, n);
    }
  }
}
