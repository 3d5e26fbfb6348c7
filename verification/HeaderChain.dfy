/** The header chain: a tree of headers, their total difficulties and the canonical number-to-hash map. */
module HeaderChains {
  import opened Transactions
  import opened BlockTree
  import opened Ancestors

  datatype WriteStatus = NonStat | Canonical | Side

  /** The difficulties along the ancestor chain, added up. */
  ghost function TotalDifficulty(blocks: Store, b: Block): (td: int)
    decreases b.number
  {
    match ParentOf(blocks, b)
    case None => b.difficulty
    case Some(p) => TotalDifficulty(blocks, p) + b.difficulty
  }

  lemma {:induction false} DifficultyGrows(blocks: Store, more: Store, b: Block)
    requires Closed(blocks) && Stored(blocks, b) && Extends(more, blocks)
    ensures TotalDifficulty(more, b) == TotalDifficulty(blocks, b)
    decreases b.number
  {
    if b.number > 0 {
      assert HasParent(blocks, b);
      DifficultyGrows(blocks, more, ParentOf(blocks, b).value);
    }
  }

  /** x has a lower total difficulty than b, or the same and no lower number. */
  ghost predicate NoBetter(blocks: Store, x: Block, b: Block) {
    || TotalDifficulty(blocks, x) < TotalDifficulty(blocks, b)
    || (TotalDifficulty(blocks, x) == TotalDifficulty(blocks, b) && x.number >= b.number)
  }

  ghost predicate Heaviest(blocks: Store, b: Block) {
    forall x {:trigger NoBetter(blocks, x, b)} :: Stored(blocks, x) ==> NoBetter(blocks, x, b)
  }

  /** The tree under one genesis header, with the stored total difficulties. */
  ghost predicate Rooted(blocks: Store, tds: map<Hash, int>, genesis: Block) {
    && Closed(blocks) && Stored(blocks, genesis) && genesis.number == 0 && genesis.parent == ZERO
    && (forall h :: h in blocks && blocks[h].number == 0 ==> blocks[h] == genesis)
    && tds.Keys == blocks.Keys
    && (forall h {:trigger tds[h]} :: h in blocks ==> tds[h] == TotalDifficulty(blocks, blocks[h]))
  }

  lemma {:induction false} SameRoot(blocks: Store, tds: map<Hash, int>, genesis: Block, b: Block)
    requires Rooted(blocks, tds, genesis) && Stored(blocks, b)
    ensures 0 in Chain(blocks, b) && Chain(blocks, b)[0] == genesis.hash
    decreases b.number
  {
    if b.number > 0 {
      assert HasParent(blocks, b);
      SameRoot(blocks, tds, genesis, ParentOf(blocks, b).value);
    }
  }

  /** Storing a block under a stored parent keeps the store closed. */
  lemma ClosedWith(blocks: Store, b: Block)
    requires Closed(blocks) && b.hash != ZERO && HasParent(blocks, b) && (b.hash in blocks ==> blocks[b.hash] == b)
    ensures Closed(blocks[b.hash := b]) && Extends(blocks[b.hash := b], blocks)
  {
    var more := blocks[b.hash := b];
    forall x | Stored(more, x) ensures HasParent(more, x) {
      if x != b {
        assert HasParent(blocks, x);
      }
    }
  }

  /** Storing a header under a stored parent keeps the tree. */
  lemma Grafted(blocks: Store, tds: map<Hash, int>, genesis: Block, b: Block, td: int)
    requires Rooted(blocks, tds, genesis) && b.number > 0 && b.hash != ZERO && ParentOf(blocks, b).Some?
    requires b.hash in blocks ==> blocks[b.hash] == b
    requires td == tds[b.parent] + b.difficulty
    ensures Rooted(blocks[b.hash := b], tds[b.hash := td], genesis)
    ensures TotalDifficulty(blocks[b.hash := b], b) == td
  {
    var more := blocks[b.hash := b];
    ClosedWith(blocks, b);
    assert ParentOf(more, b) == Some(blocks[b.parent]);
    DifficultyGrows(blocks, more, blocks[b.parent]);
    forall h | h in blocks ensures TotalDifficulty(more, more[h]) == tds[h] {
      DifficultyGrows(blocks, more, blocks[h]);
    }
  }

  /** A head that was the heaviest stays so until a heavier header arrives, and then that one is. */
  lemma HeaviestOf(blocks: Store, more: Store, head: Block, b: Block)
    requires Closed(blocks) && Stored(blocks, head) && Heaviest(blocks, head)
    requires more == blocks[b.hash := b] && (b.hash in blocks ==> blocks[b.hash] == b)
    ensures var there, here := TotalDifficulty(more, b), TotalDifficulty(more, head);
      && (there < here || (there == here && b.number >= head.number) ==> Heaviest(more, head))
      && (there > here || (there == here && b.number <= head.number) ==> Heaviest(more, b))
  {
    DifficultyGrows(blocks, more, head);
    forall x | Stored(more, x) && x != b
      ensures Stored(blocks, x) && NoBetter(more, x, head)
    {
      assert NoBetter(blocks, x, head);
      DifficultyGrows(blocks, more, x);
    }
  }

  /** Rewritten to the chain `line` above n, still as it was up to n. */
  ghost predicate Midway(r: Canon, was: Canon, line: Canon, n: nat, top: nat) {
    && (forall m: nat :: m <= n ==> Same(r, was, m))
    && (forall m: nat :: n < m <= top ==> Same(r, line, m))
    && (forall m :: m in r ==> m <= top + 1)
  }

  lemma OneLower(r: Canon, was: Canon, line: Canon, n: nat, top: nat)
    requires Midway(r, was, line, n, top) && 0 < n <= top && n in line
    ensures Midway(r[n := line[n]], was, line, n - 1, top)
  {
    var lower := r[n := line[n]];
    forall m: nat ensures m < n ==> Same(lower, was, m) {
      assert m < n ==> Same(r, was, m);
    }
    forall m: nat ensures n <= m <= top ==> Same(lower, line, m) {
      assert n < m <= top ==> Same(r, line, m);
    }
  }

  lemma MetBelow(r: Canon, was: Canon, line: Canon, n: nat, top: nat)
    requires Midway(r, was, line, n, top) && SameUpTo(line, was, n)
    ensures SameUpTo(r, line, top)
  {
    forall m: nat | m <= top ensures Same(r, line, m) {
      assert m <= n ==> Same(r, was, m) && Same(line, was, m);
    }
  }

  /** Rewrites stale entries from a header downwards until the canonical map already agrees. */
  method Overwrite(blocks: Store, canon: Canon, parent: Block, ghost was: Block) returns (r: Canon)
    requires Closed(blocks) && Stored(blocks, parent) && Stored(blocks, was)
    requires 0 in Chain(blocks, was) && 0 in Chain(blocks, parent) && Chain(blocks, was)[0] == Chain(blocks, parent)[0]
    requires canon == CutAbove(Chain(blocks, was), parent.number + 1)
    ensures SameUpTo(r, Chain(blocks, parent), parent.number)
    ensures forall n :: n in r ==> n <= parent.number + 1
  {
    ghost var line, before := Chain(blocks, parent), Chain(blocks, was);
    r := canon;
    var headHash, headNumber, headHeader := parent.hash, parent.number, Get(blocks, parent.hash, parent.number);
    while Read(r, headNumber) != headHash
      invariant headHeader.Some? && Stored(blocks, headHeader.value)
      invariant headHeader.value.hash == headHash && headHeader.value.number == headNumber <= parent.number
      invariant headNumber in line && line[headNumber] == headHash
      invariant Midway(r, before, line, headNumber, parent.number)
      decreases headNumber
    {
      assert Same(r, before, headNumber);
      ChainStep(blocks, parent, headHeader.value);
      OneLower(r, before, line, headNumber, parent.number);
      r := r[headNumber := headHash];
      headHash, headNumber := headHeader.value.parent, headHeader.value.number - 1;
      headHeader := Get(blocks, headHash, headNumber);
    }
    assert Same(r, before, headNumber);
    ChainStored(blocks, parent, headNumber);
    ChainsMeet(blocks, parent, was, headNumber);
    MetBelow(r, before, line, headNumber, parent.number);
  }

  /** A rooted tree with a map under its head can be asked for ancestors. */
  lemma RootedServes(blocks: Store, tds: map<Hash, int>, genesis: Block, canon: Canon, head: Block)
    requires Rooted(blocks, tds, genesis) && Stored(blocks, head) && MapOf(canon, blocks, head)
    ensures Served(blocks, canon, head)
  {
  }

  /** In a header chain nothing is left above the head, so every look-up is sound. */
  lemma HeaderChainServes(hc: HeaderChain, b: Block, n: nat)
    requires hc.Valid() && Stored(hc.headers, b) && n <= b.number
    ensures Served(hc.headers, hc.canon, hc.current) && Sound(hc.headers, hc.canon, hc.current, b, n)
  {
    ChainFollows(hc.headers, hc.current);
    RootedServes(hc.headers, hc.tds, hc.genesis, hc.canon, hc.current);
    SoundFrom(hc.headers, hc.canon, hc.current, b, n);
  }

  class HeaderChain {
    const genesis: Block
    var headers: Store
    var tds: map<Hash, int>
    var canon: Canon
    var current: Block

    /** The map is the head's ancestor chain, nothing above it. */
    ghost predicate OnChain()
      reads this
    {
      && Keyed(headers) && Stored(headers, current) && genesis.number == 0
      && canon == Chain(headers, current)
      && 0 in canon && canon[0] == genesis.hash
    }

    ghost predicate Valid()
      reads this
    {
      Rooted(headers, tds, genesis) && OnChain() && Heaviest(headers, current)
    }

    constructor (g: Block)
      requires g.number == 0 && g.hash != ZERO && g.parent == ZERO
      ensures Valid() && genesis == current == g && headers == map[g.hash := g]
    {
      genesis, current := g, g;
      headers, tds, canon := map[g.hash := g], map[g.hash := g.difficulty], map[0 := g.hash];
    }

    /** Makes the chain of a stored header the canonical one. */
    method Reroute(header: Block)
      requires Rooted(headers, tds, genesis) && OnChain() && Stored(headers, header) && header.number > 0
      modifies this`canon, this`current
      ensures OnChain() && current == header
    {
      ghost var was := current;
      SameRoot(headers, tds, genesis, was);
      ChainNoGaps(headers, was, 0);
      forall n | n in canon ensures canon[n] != ZERO {
        ChainStored(headers, was, n);
      }
      canon := DeleteAbove(canon, header.number);
      assert HasParent(headers, header);
      var parent := headers[header.parent];
      SameRoot(headers, tds, genesis, parent);
      canon := Overwrite(headers, canon, parent, was);
      Topped(canon, Chain(headers, parent), Chain(headers, header), header);
      canon := canon[header.number := header.hash];
      current := header;
    }

    /**
     Stores a header and moves the head to it when its total difficulty is higher than the head's, or
     the same at a lower number, or the same at the same number and the coin says so.
     */
    method WriteHeader(header: Block, coin: bool) returns (status: WriteStatus)
      requires Valid() && header.hash != ZERO
      requires header.hash in headers ==> headers[header.hash] == header
      modifies this`headers, this`tds, this`canon, this`current
      ensures Valid()
      ensures status.NonStat? <==> old(header.number == 0 || Get(headers, header.parent, header.number - 1).None?)
      ensures status.NonStat? ==> headers == old(headers) && tds == old(tds) && canon == old(canon)
      ensures !status.NonStat? ==> headers == old(headers)[header.hash := header]
      ensures current == (if status.Canonical? then header else old(current))
      ensures !status.NonStat? ==>
        var there, here := TotalDifficulty(headers, header), TotalDifficulty(headers, old(current));
        status.Canonical? <==>
          there > here || (there == here && (header.number < old(current).number || (header.number == old(current).number && coin)))
    {
      if header.number == 0 || Get(headers, header.parent, header.number - 1).None? {
        return NonStat;
      }
      var localTd, externTd := tds[current.hash], tds[header.parent] + header.difficulty;
      Grafted(headers, tds, genesis, header, externTd);
      ChainGrows(headers, headers[header.hash := header], current);
      HeaviestOf(headers, headers[header.hash := header], current, header);
      tds := tds[header.hash := externTd];
      headers := headers[header.hash := header];
      var reorg := externTd > localTd;
      if !reorg && externTd == localTd {
        if header.number < current.number {
          reorg := true;
        } else if header.number == current.number {
          reorg := coin;
        }
      }
      if reorg {
        Reroute(header);
        status := Canonical;
      } else {
        status := Side;
      }
    }

    /** Any sequence of headers, each with the outcome of a coin toss. */
    method WriteHeaders(chain: seq<(Block, bool)>)
      requires Valid()
      requires forall i :: 0 <= i < |chain| ==> chain[i].0.hash != ZERO
      requires forall i :: 0 <= i < |chain| && chain[i].0.hash in headers ==> headers[chain[i].0.hash] == chain[i].0
      requires forall i, j :: 0 <= i < j < |chain| && chain[i].0.hash == chain[j].0.hash ==> chain[i].0 == chain[j].0
      modifies this`headers, this`tds, this`canon, this`current
      ensures Valid()
    {
      for k := 0 to |chain|
        invariant Valid()
        invariant forall i :: k <= i < |chain| && chain[i].0.hash in headers ==> headers[chain[i].0.hash] == chain[i].0
      {
        var status := WriteHeader(chain[k].0, chain[k].1);
      }
    }

    /** Moves the head down to a number and collects what is to be deleted. */
    method Rewind(head: nat) returns (batch: set<Hash>, numbers: set<nat>)
      requires OnChain()
      modifies this`current
      ensures Stored(headers, current) && current.number in canon && canon[current.number] == current.hash
      ensures current.number == (if head < old(current).number then head else old(current).number)
      ensures batch == Above(canon, current.number)
      ensures forall n: nat :: n in numbers <==> current.number < n <= old(current).number
    {
      batch, numbers := {}, {};
      while current.number > head
        invariant Stored(headers, current) && current.number in canon && canon[current.number] == current.hash
        invariant current.number == old(current).number || current.number >= head
        invariant current.number <= old(current).number
        invariant forall n: nat :: n in numbers <==> current.number < n <= old(current).number
        invariant batch == Above(canon, current.number)
        decreases current.number
      {
        ChainDown(headers, old(current), current);
        AboveNext(canon, current.number);
        batch, numbers := batch + {current.hash}, numbers + {current.number};
        var parent := Get(headers, current.parent, current.number - 1);
        current := if parent.None? then genesis else parent.value;
      }
    }

    /** Rewinds the head to a number, deleting the headers above it on the way. */
    method SetHead(head: nat)
      requires OnChain()
      modifies this`headers, this`tds, this`canon, this`current
      ensures OnChain()
      ensures current.number == (if head < old(current).number then head else old(current).number)
      ensures canon == CutAbove(old(canon), head)
      ensures headers == old(headers) - Above(old(canon), head)
    {
      var batch, numbers := Rewind(head);
      AboveStored(headers, old(current), current.number);
      Pruned(headers, old(current), current, batch);
      assert Above(canon, head) == batch;
      headers, tds, canon := headers - batch, tds - batch, canon - numbers;
    }
  }

  /** The canonical hashes above a number. */
  ghost function Above(canon: Canon, n: nat): (r: set<Hash>) {
    set m | m in canon && m > n :: canon[m]
  }

  lemma AboveNext(canon: Canon, n: nat)
    requires n in canon && n > 0
    ensures Above(canon, n - 1) == Above(canon, n) + {canon[n]}
  {
  }

  lemma AboveStored(blocks: Store, b: Block, n: nat)
    requires Keyed(blocks) && Stored(blocks, b)
    ensures forall h :: h in Above(Chain(blocks, b), n) ==> h in blocks && blocks[h].number > n
  {
    forall m | m in Chain(blocks, b) && m > n ensures Chain(blocks, b)[m] in blocks && blocks[Chain(blocks, b)[m]].number == m {
      ChainStored(blocks, b, m);
    }
  }

  /** A chain that reaches number 0 goes down through stored parents. */
  lemma ChainDown(blocks: Store, b: Block, x: Block)
    requires Keyed(blocks) && Stored(blocks, b) && Stored(blocks, x) && x.number > 0 && 0 in Chain(blocks, b)
    requires x.number in Chain(blocks, b) && Chain(blocks, b)[x.number] == x.hash
    ensures ParentOf(blocks, x).Some?
    ensures x.number - 1 in Chain(blocks, b) && Chain(blocks, b)[x.number - 1] == x.parent
  {
    ChainCut(blocks, b, x);
    assert Same(Chain(blocks, b), Chain(blocks, x), 0);
    assert Same(Chain(blocks, b), Chain(blocks, x), x.number - 1);
  }

  /** Deleting the blocks above x from its chain leaves the chain of x alone. */
  lemma {:induction false} Pruned(blocks: Store, b: Block, x: Block, gone: set<Hash>)
    requires Keyed(blocks) && Stored(blocks, b) && Stored(blocks, x)
    requires x.number in Chain(blocks, b) && Chain(blocks, b)[x.number] == x.hash
    requires forall h :: h in gone ==> h in blocks && blocks[h].number > x.number
    ensures Keyed(blocks - gone) && Stored(blocks - gone, x)
    ensures Chain(blocks - gone, x) == CutAbove(Chain(blocks, b), x.number)
  {
    ChainCut(blocks, b, x);
    Untouched(blocks, x, gone);
    var cut := CutAbove(Chain(blocks, b), x.number);
    forall n: nat ensures n in cut <==> n in Chain(blocks, x) {
      if n <= x.number {
        assert Same(Chain(blocks, b), Chain(blocks, x), n);
      }
    }
    forall n | n in cut ensures cut[n] == Chain(blocks, x)[n] {
      assert Same(Chain(blocks, b), Chain(blocks, x), n);
    }
  }

  lemma {:induction false} Untouched(blocks: Store, x: Block, gone: set<Hash>)
    requires Keyed(blocks) && forall h :: h in gone ==> h in blocks && blocks[h].number > x.number
    ensures Chain(blocks - gone, x) == Chain(blocks, x)
    decreases x.number
  {
    if ParentOf(blocks, x).Some? {
      Untouched(blocks, ParentOf(blocks, x).value, gone);
      assert ParentOf(blocks - gone, x) == ParentOf(blocks, x);
    }
  }

  /** Putting the block on top of its parent's chain. */
  lemma Topped(canon: Canon, below: Canon, all: Canon, b: Block)
    requires b.number > 0 && SameUpTo(canon, below, b.number - 1) && forall n :: n in canon ==> n <= b.number
    requires (forall n :: n in below ==> n <= b.number - 1) && all == below[b.number := b.hash]
    ensures canon[b.number := b.hash] == all
  {
    var topped := canon[b.number := b.hash];
    forall n: nat ensures n in topped <==> n in all {
      if n < b.number {
        assert Same(canon, below, n);
      }
    }
    forall n | n in topped ensures topped[n] == all[n] {
      if n < b.number {
        assert Same(canon, below, n);
      }
    }
  }
}
