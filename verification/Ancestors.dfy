/**
 Ancestors by the canonical map: a short cut for walking parent pointers. The map is only known to be the
 head's chain up to the head; above the head a piece of an older chain may be left.
 */
module Ancestors {
  import opened Transactions
  import opened BlockTree

  /** Where a walk of n steps down from b ends: at the first block the map takes for canonical, if there is one. */
  ghost function Landing(blocks: Store, canon: Canon, b: Block, n: nat): (x: Block)
    ensures b.number - n <= x.number <= b.number
    decreases n
  {
    if n == 0 || Read(canon, b.number) == b.hash then b
    else match ParentOf(blocks, b)
      case None => b
      case Some(p) => Landing(blocks, canon, p, n - 1)
  }

  /** How many headers are read one by one before the canonical map takes over or the ancestor is reached. */
  ghost function Detour(blocks: Store, canon: Canon, b: Block, n: nat): (steps: nat) {
    b.number - Landing(blocks, canon, b, n).number
  }

  /** The n-th ancestor as the map has it from the landing on. */
  ghost function Shortcut(blocks: Store, canon: Canon, b: Block, n: nat): (h: Hash) {
    var x := Landing(blocks, canon, b, n);
    if x.number == b.number - n then x.hash else Read(canon, b.number - n)
  }

  /** The answer for a stored block: none below the genesis block or beyond the budget. */
  ghost function Answer(blocks: Store, canon: Canon, b: Block, n: nat, budget: nat): (h: Hash) {
    if n > b.number then ZERO
    else if n == 1 then b.parent
    else if Detour(blocks, canon, b, n) > budget then ZERO
    else Shortcut(blocks, canon, b, n)
  }

  /** The answer for a block that is not stored: the block itself, none, or a canonical block for the zero hash. */
  ghost function NoBlock(canon: Canon, hash: Hash, number: nat, n: nat): (h: Hash) {
    if n == 0 then hash
    else if hash == ZERO && number !in canon && 1 < n <= number then Read(canon, number - n)
    else ZERO
  }

  /**
   Whether the map may be trusted for the n-th ancestor of b: the walk lands no higher than the head, or the
   ancestor is above the head, or it is no higher than where the chain of b leaves the head's chain.
   */
  ghost predicate Sound(blocks: Store, canon: Canon, head: Block, b: Block, n: nat) {
    || n == 1
    || Landing(blocks, canon, b, n).number <= head.number
    || b.number - n > head.number
    || b.number - n <= ForkNumber(blocks, head, b)
  }

  /** A store under one genesis block, the head, and the canonical map under it. */
  ghost predicate Served(blocks: Store, canon: Canon, head: Block) {
    Closed(blocks) && OneGenesis(blocks) && Stored(blocks, head) && MapOf(canon, blocks, head)
  }

  /** Every entry is a stored block at its number. */
  lemma EntryStored(blocks: Store, canon: Canon, head: Block, n: nat)
    requires Keyed(blocks) && Stored(blocks, head) && MapOf(canon, blocks, head) && n in canon
    ensures canon[n] in blocks && blocks[canon[n]].number == n && canon[n] != ZERO
  {
    if n <= head.number {
      assert Same(canon, Chain(blocks, head), n);
      ChainStored(blocks, head, n);
    } else {
      assert TailAt(canon, blocks, head.number, n);
    }
  }

  /** The landing is an ancestor; the walk got there by itself or the map takes it for canonical. */
  lemma {:induction false} Lands(blocks: Store, canon: Canon, b: Block, n: nat)
    requires Closed(blocks) && Stored(blocks, b) && n <= b.number
    ensures var x := Landing(blocks, canon, b, n);
      && Stored(blocks, x) && Read(Chain(blocks, b), x.number) == x.hash
      && (x.number == b.number - n || Read(canon, x.number) == x.hash)
    decreases n
  {
    if n > 0 && Read(canon, b.number) != b.hash {
      assert HasParent(blocks, b);
      Lands(blocks, canon, ParentOf(blocks, b).value, n - 1);
    }
  }

  /** Above the head the map follows parent pointers. */
  lemma {:induction false} TailDown(blocks: Store, canon: Canon, head: Block, x: Block, goal: nat)
    requires Keyed(blocks) && Stored(blocks, x) && MapOf(canon, blocks, head) && head.number < goal <= x.number
    requires Read(canon, x.number) == x.hash
    ensures Read(canon, goal) == Read(Chain(blocks, x), goal)
    decreases x.number
  {
    if goal < x.number {
      assert TailAt(canon, blocks, head.number, x.number);
      assert TailAt(canon, blocks, head.number, x.number - 1);
      TailDown(blocks, canon, head, ParentOf(blocks, x).value, goal);
    }
  }

  /** Up to the head the map has an ancestor of b exactly when that is no higher than the fork. */
  lemma BelowFork(blocks: Store, head: Block, b: Block, goal: nat)
    requires Closed(blocks) && OneGenesis(blocks) && Stored(blocks, head) && Stored(blocks, b)
    requires goal <= head.number && goal <= b.number
    ensures Read(Chain(blocks, head), goal) == Read(Chain(blocks, b), goal) <==> goal <= ForkNumber(blocks, head, b)
  {
    var fork := ForkNumber(blocks, head, b);
    ChainFromZero(blocks, head);
    ChainFromZero(blocks, b);
    ShareGenesis(blocks, head, b);
    HighestMeets(blocks, head, b, head.number);
    ChainsMeet(blocks, head, b, fork);
    assert goal <= fork ==> Same(Chain(blocks, head), Chain(blocks, b), goal);
    assert goal > fork ==> !Meet(blocks, head, b, goal);
  }

  /** A canonical block no higher than the head has canonical ancestors; so have all blocks whose walk lands there. */
  lemma LandsBelow(blocks: Store, canon: Canon, head: Block, x: Block, goal: nat)
    requires Closed(blocks) && Stored(blocks, head) && Stored(blocks, x) && MapOf(canon, blocks, head)
    requires Read(canon, x.number) == x.hash && goal <= x.number <= head.number
    ensures Read(canon, goal) == Read(Chain(blocks, x), goal)
  {
    assert Same(canon, Chain(blocks, head), x.number) && Same(canon, Chain(blocks, head), goal);
    CanonicalBelow(blocks, head, x, goal);
  }

  /** The map has the ancestors of a canonical block x exactly as far as it may be trusted. */
  lemma CanonicalAncestors(blocks: Store, canon: Canon, head: Block, x: Block, goal: nat)
    requires Served(blocks, canon, head) && Stored(blocks, x) && Read(canon, x.number) == x.hash && goal <= x.number
    ensures Read(canon, goal) == Read(Chain(blocks, x), goal) <==>
      x.number <= head.number || goal > head.number || goal <= ForkNumber(blocks, head, x)
  {
    if x.number <= head.number {
      LandsBelow(blocks, canon, head, x, goal);
    } else if goal > head.number {
      TailDown(blocks, canon, head, x, goal);
    } else {
      assert Same(canon, Chain(blocks, head), goal);
      BelowFork(blocks, head, x, goal);
    }
  }

  /** Below an ancestor x of b the two chains leave the head's chain at the same number, if x is above the head. */
  lemma SameFork(blocks: Store, head: Block, b: Block, x: Block, goal: nat)
    requires Closed(blocks) && OneGenesis(blocks) && Stored(blocks, head) && Stored(blocks, b) && Stored(blocks, x)
    requires Read(Chain(blocks, b), x.number) == x.hash && goal <= head.number < x.number <= b.number
    ensures goal <= ForkNumber(blocks, head, b) <==> goal <= ForkNumber(blocks, head, x)
  {
    CanonicalBelow(blocks, b, x, goal);
    BelowFork(blocks, head, b, goal);
    BelowFork(blocks, head, x, goal);
  }

  /** The short cut finds the ancestor that parent pointers lead to if and only if the map may be trusted. */
  lemma ShortcutExact(blocks: Store, canon: Canon, head: Block, b: Block, n: nat)
    requires Served(blocks, canon, head) && Stored(blocks, b) && n <= b.number && n != 1
    ensures Shortcut(blocks, canon, b, n) == Read(Chain(blocks, b), b.number - n) <==> Sound(blocks, canon, head, b, n)
  {
    var x, goal := Landing(blocks, canon, b, n), b.number - n;
    Lands(blocks, canon, b, n);
    CanonicalBelow(blocks, b, x, goal);
    if x.number != goal {
      CanonicalAncestors(blocks, canon, head, x, goal);
      if goal <= head.number < x.number {
        SameFork(blocks, head, b, x, goal);
      }
    }
  }

  /** A start no higher than the head is always sound, and so is every start when nothing is left above the head. */
  lemma SoundFrom(blocks: Store, canon: Canon, head: Block, b: Block, n: nat)
    requires Served(blocks, canon, head) && Stored(blocks, b) && n <= b.number
    requires b.number <= head.number || forall m :: m in canon ==> m <= head.number
    ensures Sound(blocks, canon, head, b, n)
  {
    Lands(blocks, canon, b, n);
  }

  /** An unknown block has an ancestor, by this answer, only if it is the zero hash above the map. */
  lemma NoBlockExact(blocks: Store, canon: Canon, head: Block, hash: Hash, number: nat, n: nat)
    requires Served(blocks, canon, head) && Get(blocks, hash, number).None? && n > 0
    ensures NoBlock(canon, hash, number, n) != ZERO <==>
      hash == ZERO && number !in canon && 1 < n <= number && number - n in canon
  {
    if n <= number && number - n in canon {
      EntryStored(blocks, canon, head, number - n);
    }
  }

  /** A genesis block alone: the zero hash at number 5 has it for its fifth ancestor. */
  lemma ZeroHashAncestor(g: Block, blocks: Store)
    requires g == Block(1, ZERO, 0, 1, []) && blocks == map[1 := g]
    ensures Served(blocks, Chain(blocks, g), g) && NoBlock(Chain(blocks, g), ZERO, 5, 5) == g.hash
  {
    assert ParentOf(blocks, g) == None;
    ChainFollows(blocks, g);
  }

  /**
   A head that was written right above the fork, below the old head: the map still has the old chain above it,
   and the second ancestor of the old head comes out as the new head.
   */
  lemma StaleAncestor(blocks: Store, canon: Canon, g: Block, a1: Block, a2: Block, a3: Block, b1: Block)
    requires g == Block(1, ZERO, 0, 1, []) && b1 == Block(4, 1, 1, 10, [])
    requires a1 == Block(2, 1, 1, 1, []) && a2 == Block(3, 2, 2, 1, []) && a3 == Block(5, 3, 3, 1, [])
    requires blocks == map[1 := g, 2 := a1, 3 := a2, 4 := b1, 5 := a3] && canon == Chain(blocks, a3)[1 := 4]
    ensures Served(blocks, canon, b1) && canon == map[0 := 1, 1 := 4, 2 := 3, 3 := 5]
    ensures Chain(blocks, a3) == map[0 := 1, 1 := 2, 2 := 3, 3 := 5]
    ensures Shortcut(blocks, canon, a3, 2) == b1.hash && Chain(blocks, a3)[1] == a1.hash
    ensures !Sound(blocks, canon, b1, a3, 2)
  {
    Links(blocks, g, a1, a2, a3, b1);
    StaleMap(blocks, canon, g, a1, a2, a3, b1);
    ShortcutExact(blocks, canon, b1, a3, 2);
  }

  lemma StaleMap(blocks: Store, canon: Canon, g: Block, a1: Block, a2: Block, a3: Block, b1: Block)
    requires g == Block(1, ZERO, 0, 1, []) && b1 == Block(4, 1, 1, 10, [])
    requires a1 == Block(2, 1, 1, 1, []) && a2 == Block(3, 2, 2, 1, []) && a3 == Block(5, 3, 3, 1, [])
    requires blocks == map[1 := g, 2 := a1, 3 := a2, 4 := b1, 5 := a3]
    requires canon == map[0 := 1, 1 := 4, 2 := 3, 3 := 5] && Closed(blocks) && Chain(blocks, b1) == map[0 := 1, 1 := 4]
    ensures MapOf(canon, blocks, b1)
  {
    assert TailAt(canon, blocks, 1, 2) && TailAt(canon, blocks, 1, 3);
  }

  lemma Links(blocks: Store, g: Block, a1: Block, a2: Block, a3: Block, b1: Block)
    requires g == Block(1, ZERO, 0, 1, []) && b1 == Block(4, 1, 1, 10, [])
    requires a1 == Block(2, 1, 1, 1, []) && a2 == Block(3, 2, 2, 1, []) && a3 == Block(5, 3, 3, 1, [])
    requires blocks == map[1 := g, 2 := a1, 3 := a2, 4 := b1, 5 := a3]
    ensures Closed(blocks) && OneGenesis(blocks)
    ensures Chain(blocks, a3) == map[0 := 1, 1 := 2, 2 := 3, 3 := 5] && Chain(blocks, b1) == map[0 := 1, 1 := 4]
  {
    assert ParentOf(blocks, g) == None && ParentOf(blocks, a1) == Some(g) && ParentOf(blocks, b1) == Some(g);
    assert ParentOf(blocks, a2) == Some(a1) && ParentOf(blocks, a3) == Some(a2);
    assert Chain(blocks, g) == map[0 := 1];
    assert Chain(blocks, a1) == map[0 := 1, 1 := 2];
    assert Chain(blocks, a2) == map[0 := 1, 1 := 2, 2 := 3];
  }

  /** A block that is not canonical is left for its parent. */
  lemma LandsLower(blocks: Store, canon: Canon, b: Block, n: nat)
    requires Closed(blocks) && Stored(blocks, b) && 0 < n <= b.number && Read(canon, b.number) != b.hash
    ensures ParentOf(blocks, b).Some? && Landing(blocks, canon, b, n).number < b.number
    ensures Landing(blocks, canon, b, n) == Landing(blocks, canon, ParentOf(blocks, b).value, n - 1)
  {
    assert HasParent(blocks, b);
  }

  /** Where a walk is: at a stored block on the way to the landing x, or still at the unknown block it started from. */
  ghost predicate OnTheWay(blocks: Store, canon: Canon, hash: Hash, number: nat, ancestor: nat, x: Option<Block>) {
    match x
    case None => Get(blocks, hash, number).None?
    case Some(landing) =>
      Get(blocks, hash, number).Some? && landing == Landing(blocks, canon, blocks[hash], ancestor)
  }

  /** One step of a walk: to the parent, unless the block is unknown. */
  lemma StepOn(blocks: Store, canon: Canon, hash: Hash, number: nat, ancestor: nat, x: Option<Block>)
    requires Closed(blocks) && OnTheWay(blocks, canon, hash, number, ancestor, x)
    requires 0 < ancestor <= number && Read(canon, number) != hash
    ensures x.Some? ==> x.value.number < number
    ensures Get(blocks, hash, number).Some? ==> OnTheWay(blocks, canon, blocks[hash].parent, number - 1, ancestor - 1, x)
  {
    if x.Some? {
      LandsLower(blocks, canon, blocks[hash], ancestor);
    }
  }

  /** The end of a walk: the map takes the block for canonical, and then a stored block is the landing. */
  lemma Landed(blocks: Store, canon: Canon, head: Block, hash: Hash, number: nat, ancestor: nat, x: Option<Block>)
    requires Served(blocks, canon, head) && OnTheWay(blocks, canon, hash, number, ancestor, x)
    requires Read(canon, number) == hash
    ensures x.Some? ==> x.value.number == number && x.value.hash == hash
    ensures x.None? ==> hash == ZERO && number !in canon
  {
    if number in canon {
      EntryStored(blocks, canon, head, number);
    }
  }

  /** Where a walk ends: the map answers at the landing, if the budget lasts until there. */
  ghost function Outcome(canon: Canon, hash: Hash, number: nat, ancestor: nat, budget: nat, x: Option<Block>): (r: Hash)
    requires ancestor <= number
  {
    match x
    case None =>
      if ancestor == 0 then hash else if hash == ZERO && number !in canon then Read(canon, number - ancestor) else ZERO
    case Some(b) =>
      if number - b.number > budget then ZERO
      else if b.number == number - ancestor then b.hash else Read(canon, number - ancestor)
  }

  /** Off the canonical chain one header at a time, then straight to the answer. */
  method Walk(blocks: Store, canon: Canon, ghost head: Block, h: Hash, n: nat, a: nat, budget: nat, ghost x: Option<Block>)
      returns (r: Hash, at: nat, left: nat)
    requires Served(blocks, canon, head) && a <= n && OnTheWay(blocks, canon, h, n, a, x)
    requires x.Some? ==> n - a <= x.value.number <= n
    ensures r != ZERO ==> at == n - a
    ensures r == Outcome(canon, h, n, a, budget, x)
    ensures left <= budget && (x.Some? && n - x.value.number <= budget ==> left == budget - (n - x.value.number))
  {
    var hash, number, ancestor := h, n, a;
    left := budget;
    while ancestor != 0
      invariant 0 <= ancestor <= number && number - ancestor == n - a && 0 <= left <= budget
      invariant OnTheWay(blocks, canon, hash, number, ancestor, x)
      invariant Outcome(canon, hash, number, ancestor, left, x) == Outcome(canon, h, n, a, budget, x)
      invariant x.Some? ==> n - number == budget - left && x.value.number <= number
      decreases ancestor
    {
      if Read(canon, number) == hash {
        Landed(blocks, canon, head, hash, number, ancestor, x);
        var ancestorHash := Read(canon, number - ancestor);
        if Read(canon, number) == hash {
          return ancestorHash, number - ancestor, left;
        }
      }
      StepOn(blocks, canon, hash, number, ancestor, x);
      if left == 0 {
        return ZERO, 0, left;
      }
      left := left - 1;
      var header := Get(blocks, hash, number);
      if header.None? {
        return ZERO, 0, left;
      }
      hash, number, ancestor := header.value.parent, number - 1, ancestor - 1;
    }
    return hash, number, left;
  }

  /**
   The hash and number of the n-th ancestor, by the canonical map as soon as it can be used; a budget
   limits how many headers off the canonical chain may be read one by one. The zero hash means none.
   An answer within the budget is the ancestor parent pointers lead to exactly when the map is sound for it.
   */
  method GetAncestor(blocks: Store, canon: Canon, ghost head: Block, hash: Hash, number: nat, ancestor: nat, maxNonCanonical: nat)
      returns (r: Hash, at: nat, left: nat)
    requires Served(blocks, canon, head)
    ensures r != ZERO ==> at == number - ancestor
    ensures Get(blocks, hash, number).None? ==> r == NoBlock(canon, hash, number, ancestor)
    ensures Get(blocks, hash, number).Some? ==>
      var b := Get(blocks, hash, number).value;
      && r == Answer(blocks, canon, b, ancestor, maxNonCanonical)
      && (ancestor <= number && (ancestor == 1 || Detour(blocks, canon, b, ancestor) <= maxNonCanonical) ==>
            (r == Read(Chain(blocks, b), number - ancestor) <==> Sound(blocks, canon, head, b, ancestor)))
      && (r != ZERO ==> left == maxNonCanonical - (if ancestor == 1 then 0 else Detour(blocks, canon, b, ancestor)))
    ensures left <= maxNonCanonical
  {
    left := maxNonCanonical;
    if ancestor > number {
      return ZERO, 0, left;
    }
    if ancestor == 1 {
      var header := Get(blocks, hash, number);
      if header.Some? {
        assert HasParent(blocks, header.value);
        return header.value.parent, number - 1, left;
      } else {
        return ZERO, 0, left;
      }
    }
    ghost var x := None;
    if Get(blocks, hash, number).Some? {
      ShortcutExact(blocks, canon, head, blocks[hash], ancestor);
      x := Some(Landing(blocks, canon, blocks[hash], ancestor));
    }
    r, at, left := Walk(blocks, canon, head, hash, number, ancestor, maxNonCanonical, x);
  }
}
