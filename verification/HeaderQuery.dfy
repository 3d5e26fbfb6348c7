/** Answering a peer's request for headers that starts from a hash. */
module HeaderQuery {
  import opened Transactions
  import opened BlockTree
  import opened Ancestors

  const TWO_64: nat := 0x1_0000_0000_0000_0000
  const MAX_HEADER_FETCH: nat := 192
  const SOFT_RESPONSE_LIMIT: nat := 2 * 1024 * 1024
  const EST_HEADER_SIZE: nat := 500
  const MAX_NON_CANONICAL: nat := 100

  /** An unsigned 64-bit number read as a signed one. */
  function AsInt(x: nat): (r: int)
    ensures x < TWO_64 / 2 ==> r == x
  {
    if x < TWO_64 / 2 then x else x - TWO_64
  }

  /** How many headers a reply may hold at most. */
  function Cap(amount: nat): (r: nat) {
    var wanted := AsInt(amount);
    if wanted < 0 then 0 else if wanted < MAX_HEADER_FETCH then wanted else MAX_HEADER_FETCH
  }

  /** b is on the chain of `top`. */
  ghost predicate Above(blocks: Store, top: Block, b: Block) {
    Read(Chain(blocks, top), b.number) == b.hash
  }

  /** Stored headers, each on the chain of the one before it. */
  ghost predicate Descending(blocks: Store, headers: seq<Block>) {
    forall i :: 0 < i < |headers| ==> Above(blocks, headers[i - 1], headers[i])
  }

  /** Stored headers, each with the one before it on its chain. */
  ghost predicate Ascending(blocks: Store, headers: seq<Block>) {
    forall i :: 0 < i < |headers| ==> Above(blocks, headers[i], headers[i - 1])
  }

  /** Stored headers whose numbers are `gap` apart. */
  ghost predicate Spaced(blocks: Store, headers: seq<Block>, gap: nat, reverse: bool) {
    && (forall i :: 0 <= i < |headers| ==> Stored(blocks, headers[i]))
    && (forall i :: 0 < i < |headers| ==>
          if reverse then headers[i].number + gap == headers[i - 1].number else headers[i - 1].number + gap == headers[i].number)
  }

  lemma AboveTransitive(blocks: Store, a: Block, b: Block, c: Block)
    requires Closed(blocks) && Stored(blocks, a) && Stored(blocks, b) && Stored(blocks, c) && c.number <= b.number
    requires Above(blocks, a, b) && Above(blocks, b, c)
    ensures Above(blocks, a, c)
  {
    CanonicalBelow(blocks, a, b, c.number);
  }

  lemma OneTimeMore(k: nat, gap: nat)
    requires k > 0
    ensures k * gap == (k - 1) * gap + gap
  {
  }

  /** All headers of a descending reply lie on one chain: that of the first. */
  lemma {:induction false} DescendingOneChain(blocks: Store, headers: seq<Block>, gap: nat, i: nat)
    requires Closed(blocks) && Spaced(blocks, headers, gap, true) && Descending(blocks, headers) && i < |headers|
    ensures Above(blocks, headers[0], headers[i]) && headers[i].number + i * gap == headers[0].number
    decreases i
  {
    if i > 0 {
      DescendingOneChain(blocks, headers, gap, i - 1);
      AboveTransitive(blocks, headers[0], headers[i - 1], headers[i]);
      OneTimeMore(i, gap);
    }
  }

  /** All headers of an ascending reply lie on one chain: that of the last. */
  lemma {:induction false} AscendingOneChain(blocks: Store, headers: seq<Block>, gap: nat, k: nat)
    requires Closed(blocks) && Spaced(blocks, headers, gap, false) && Ascending(blocks, headers) && k < |headers|
    ensures var last, b := headers[|headers| - 1], headers[|headers| - 1 - k];
      Above(blocks, last, b) && b.number + k * gap == last.number
  {
    if k > 0 {
      var i := |headers| - 1 - k;
      AscendingOneChain(blocks, headers, gap, k - 1);
      assert headers[i + 1 - 1].number + gap == headers[i + 1].number;
      AboveTransitive(blocks, headers[|headers| - 1], headers[i + 1], headers[i]);
      OneTimeMore(k, gap);
    }
  }

  // ------------------------------------------------------------------- one step

  /** The answer of the short cut is a stored block at the right number. */
  lemma ShortcutStored(blocks: Store, canon: Canon, head: Block, b: Block, n: nat)
    requires Served(blocks, canon, head) && Stored(blocks, b) && n <= b.number
    ensures var h := Shortcut(blocks, canon, b, n); h in blocks && blocks[h].number == b.number - n && h != ZERO
  {
    var x, goal := Landing(blocks, canon, b, n), b.number - n;
    Lands(blocks, canon, b, n);
    if x.number != goal {
      if goal <= head.number {
        ChainFromZero(blocks, head);
        assert Same(canon, Chain(blocks, head), goal);
      }
      EntryStored(blocks, canon, head, goal);
    }
  }

  /** What an ancestor look-up takes from the budget. */
  ghost function Cost(blocks: Store, canon: Canon, b: Block, gap: nat): (c: nat) {
    if gap == 1 then 0 else Detour(blocks, canon, b, gap)
  }

  /** There is an answer exactly above the genesis block and within the budget, and it is a stored block. */
  lemma AnswerStored(blocks: Store, canon: Canon, head: Block, b: Block, n: nat, budget: nat)
    requires Served(blocks, canon, head) && Stored(blocks, b)
    ensures var h := Answer(blocks, canon, b, n, budget);
      && (h != ZERO <==> n <= b.number && Cost(blocks, canon, b, n) <= budget)
      && (h != ZERO ==> h in blocks && blocks[h].number == b.number - n)
  {
    if n <= b.number {
      assert HasParent(blocks, b);
      ShortcutStored(blocks, canon, head, b, n);
    }
  }

  /** Towards the genesis block: refused below it and when the budget is too small, and only then. */
  method Backwards(blocks: Store, canon: Canon, ghost head: Block, origin: Block, skip: nat, budget: nat, ghost gap: nat)
      returns (hash: Hash, number: nat, unknown: bool, left: nat)
    requires Served(blocks, canon, head) && Stored(blocks, origin) && skip < TWO_64 && origin.number < TWO_64 && gap == skip + 1
    ensures unknown <==> origin.number < gap || Cost(blocks, canon, origin, gap) > budget
    ensures !unknown ==>
      && hash in blocks && blocks[hash].number == number == origin.number - gap
      && (Above(blocks, origin, blocks[hash]) <==> Sound(blocks, canon, head, origin, gap))
      && left == budget - Cost(blocks, canon, origin, gap)
  {
    hash, number, left := origin.hash, origin.number, budget;
    var ancestor := (skip + 1) % TWO_64;
    WrapsToZero(skip, gap);
    if ancestor == 0 {
      unknown := true;
    } else {
      hash, number, left := GetAncestor(blocks, canon, head, origin.hash, origin.number, ancestor, budget);
      unknown := hash == ZERO;
      AnswerStored(blocks, canon, head, origin, gap, budget);
    }
  }

  lemma WrapsToZero(skip: nat, gap: nat)
    requires skip < TWO_64 && gap == skip + 1
    ensures (skip + 1) % TWO_64 == if gap == TWO_64 then 0 else gap
  {
  }

  /** The sum did not wrap around exactly when it is above the number it started from. */
  lemma NoWrap(current: nat, skip: nat)
    requires current < TWO_64 && skip < TWO_64
    ensures (current + skip + 1) % TWO_64 > current <==> current + skip + 1 < TWO_64
    ensures current + skip + 1 < TWO_64 ==> (current + skip + 1) % TWO_64 == current + skip + 1
  {
  }

  /** The map has an entry further up, and takes the origin for its ancestor. */
  ghost predicate Continues(blocks: Store, canon: Canon, origin: Block, gap: nat) {
    var next := origin.number + gap;
    && next in canon && canon[next] in blocks
    && (if gap == 1 then blocks[canon[next]].parent == origin.hash else Read(canon, origin.number) == origin.hash)
  }

  /** A canonical block needs no detour. */
  lemma NoDetour(blocks: Store, canon: Canon, b: Block, n: nat)
    requires Read(canon, b.number) == b.hash
    ensures Landing(blocks, canon, b, n) == b
  {
  }

  /** Towards the head: the canonical header further up, provided the map takes the origin for its ancestor. */
  method Forwards(blocks: Store, canon: Canon, ghost head: Block, origin: Block, skip: nat, budget: nat)
      returns (hash: Hash, number: nat, unknown: bool, left: nat)
    requires Served(blocks, canon, head) && Stored(blocks, origin) && skip < TWO_64
    requires forall h :: h in blocks ==> blocks[h].number < TWO_64
    ensures unknown <==> !Continues(blocks, canon, origin, skip + 1)
    ensures !unknown ==>
      && hash in blocks && blocks[hash].number == number == origin.number + skip + 1 && Read(canon, number) == hash
      && (Above(blocks, blocks[hash], origin) <==> Sound(blocks, canon, head, blocks[hash], skip + 1))
      && left == budget
  {
    hash, number, left := origin.hash, origin.number, budget;
    unknown := true;
    var current := origin.number;
    var next := (current + skip + 1) % TWO_64;
    NoWrap(current, skip);
    if current + skip + 1 in canon {
      EntryStored(blocks, canon, head, current + skip + 1);
    }
    if next > current && Read(canon, next) != ZERO {
      var header := blocks[canon[next]];
      NoDetour(blocks, canon, header, skip + 1);
      var expOldHash, at;
      expOldHash, at, left := GetAncestor(blocks, canon, head, header.hash, next, skip + 1, budget);
      if expOldHash == origin.hash {
        hash, number, unknown := header.hash, next, false;
      }
    }
  }

  // ------------------------------------------------------------------- replies

  /** The upper one of two consecutive headers. */
  ghost function Upper(headers: seq<Block>, i: nat, reverse: bool): (b: Block)
    requires 0 < i < |headers|
  {
    if reverse then headers[i - 1] else headers[i]
  }

  ghost predicate Linked(blocks: Store, headers: seq<Block>, i: nat, reverse: bool)
    requires 0 < i < |headers|
  {
    if reverse then Above(blocks, headers[i - 1], headers[i]) else Above(blocks, headers[i], headers[i - 1])
  }

  /** From the origin on, spaced, and two neighbours on one chain exactly when the map is sound for the upper one. */
  ghost predicate Reply(blocks: Store, canon: Canon, head: Block, origin: Hash, headers: seq<Block>, gap: nat, reverse: bool) {
    && (|headers| > 0 ==> headers[0].hash == origin)
    && Spaced(blocks, headers, gap, reverse)
    && (forall i :: 0 < i < |headers| ==>
          (Linked(blocks, headers, i, reverse) <==> Sound(blocks, canon, head, Upper(headers, i, reverse), gap)))
    && (!reverse ==> forall i :: 0 < i < |headers| ==> Read(canon, headers[i].number) == headers[i].hash)
  }

  /** The next header of a reply. */
  ghost predicate Next(blocks: Store, canon: Canon, head: Block, last: Block, hash: Hash, number: nat, gap: nat, reverse: bool) {
    && hash in blocks && blocks[hash].number == number
    && (if reverse
        then number == last.number - gap && (Above(blocks, last, blocks[hash]) <==> Sound(blocks, canon, head, last, gap))
        else number == last.number + gap && Read(canon, number) == hash
             && (Above(blocks, blocks[hash], last) <==> Sound(blocks, canon, head, blocks[hash], gap)))
  }

  lemma SpacedGrows(blocks: Store, headers: seq<Block>, b: Block, gap: nat, reverse: bool)
    requires Spaced(blocks, headers, gap, reverse) && Stored(blocks, b)
    requires |headers| > 0 ==>
      var last := headers[|headers| - 1]; if reverse then b.number + gap == last.number else last.number + gap == b.number
    ensures Spaced(blocks, headers + [b], gap, reverse)
  {
  }

  lemma ReplyGrows(blocks: Store, canon: Canon, head: Block, origin: Hash, headers: seq<Block>, b: Block, gap: nat, reverse: bool)
    requires Reply(blocks, canon, head, origin, headers, gap, reverse) && Stored(blocks, b)
    requires if |headers| == 0 then b.hash == origin
             else Next(blocks, canon, head, headers[|headers| - 1], b.hash, b.number, gap, reverse)
    ensures Reply(blocks, canon, head, origin, headers + [b], gap, reverse)
  {
    var more := headers + [b];
    SpacedGrows(blocks, headers, b, gap, reverse);
    forall i | 0 < i < |more|
      ensures Linked(blocks, more, i, reverse) <==> Sound(blocks, canon, head, Upper(more, i, reverse), gap)
    {
      if i < |headers| {
        assert Linked(blocks, headers, i, reverse) <==> Sound(blocks, canon, head, Upper(headers, i, reverse), gap);
      }
    }
  }

  /** What the ancestor look-ups of a reply took from the budget. */
  ghost function Costs(blocks: Store, canon: Canon, headers: seq<Block>, gap: nat): (c: nat) {
    if |headers| <= 1 then 0
    else Costs(blocks, canon, headers[..|headers| - 1], gap) + Cost(blocks, canon, headers[|headers| - 2], gap)
  }

  /** Why a reply ends after a header: at the genesis block or on an empty budget, or where the map does not go on. */
  ghost predicate Ended(blocks: Store, canon: Canon, last: Block, gap: nat, reverse: bool, budget: int) {
    if reverse then last.number < gap || Cost(blocks, canon, last, gap) > budget
    else !Continues(blocks, canon, last, gap)
  }

  /** The header after a given one. */
  method Advance(blocks: Store, canon: Canon, ghost head: Block, b: Block, skip: nat, reverse: bool, budget: nat, ghost gap: nat)
      returns (hash: Hash, number: nat, unknown: bool, left: nat)
    requires Served(blocks, canon, head) && Stored(blocks, b) && skip < TWO_64 && gap == skip + 1
    requires forall h :: h in blocks ==> blocks[h].number < TWO_64
    ensures unknown <==> Ended(blocks, canon, b, gap, reverse, budget)
    ensures !unknown ==> Next(blocks, canon, head, b, hash, number, gap, reverse)
    ensures !unknown ==> left == budget - if reverse then Cost(blocks, canon, b, gap) else 0
  {
    if reverse {
      hash, number, unknown, left := Backwards(blocks, canon, head, b, skip, budget, gap);
    } else {
      hash, number, unknown, left := Forwards(blocks, canon, head, b, skip, budget);
    }
  }

  lemma CostsGrow(blocks: Store, canon: Canon, headers: seq<Block>, b: Block, gap: nat)
    requires |headers| > 0
    ensures Costs(blocks, canon, headers + [b], gap) == Costs(blocks, canon, headers, gap) + Cost(blocks, canon, headers[|headers| - 1], gap)
  {
    assert (headers + [b])[..|headers|] == headers;
  }

  /** A reply that cannot go on. */
  ghost predicate Over(blocks: Store, canon: Canon, headers: seq<Block>, gap: nat, reverse: bool) {
    && |headers| > 0
    && Ended(blocks, canon, headers[|headers| - 1], gap, reverse, MAX_NON_CANONICAL - Costs(blocks, canon, headers, gap))
  }

  /** Between two turns of the loop: where the next header is, or why there is none, and the budget for it. */
  ghost predicate Ready(blocks: Store, canon: Canon, head: Block, headers: seq<Block>, gap: nat, reverse: bool,
                        hash: Hash, number: nat, unknown: bool, budget: nat)
    requires |headers| > 0
  {
    var last, left := headers[|headers| - 1], MAX_NON_CANONICAL - Costs(blocks, canon, headers, gap);
    if unknown then Over(blocks, canon, headers, gap, reverse)
    else Next(blocks, canon, head, last, hash, number, gap, reverse) && (reverse ==> budget == left - Cost(blocks, canon, last, gap))
  }

  /** One turn of the loop, with the header it found. */
  method Extend(blocks: Store, canon: Canon, ghost head: Block, ghost origin: Hash, headers: seq<Block>, b: Block, skip: nat,
                reverse: bool, budget: nat, ghost gap: nat)
      returns (more: seq<Block>, hash: Hash, number: nat, unknown: bool, left: nat)
    requires Served(blocks, canon, head) && Stored(blocks, b) && skip < TWO_64 && gap == skip + 1
    requires forall h :: h in blocks ==> blocks[h].number < TWO_64
    requires Reply(blocks, canon, head, origin, headers, gap, reverse)
    requires if |headers| == 0 then b.hash == origin && budget == MAX_NON_CANONICAL
             else Ready(blocks, canon, head, headers, gap, reverse, b.hash, b.number, false, budget)
    ensures more == headers + [b] && Reply(blocks, canon, head, origin, more, gap, reverse)
    ensures Ready(blocks, canon, head, more, gap, reverse, hash, number, unknown, left)
  {
    ReplyGrows(blocks, canon, head, origin, headers, b, gap, reverse);
    if |headers| > 0 {
      CostsGrow(blocks, canon, headers, b, gap);
    }
    more := headers + [b];
    hash, number, unknown, left := Advance(blocks, canon, head, b, skip, reverse, budget, gap);
  }

  /** The first header is found by its hash alone, the others by hash and number. */
  method Fetch(blocks: Store, first: bool, hash: Hash, number: nat) returns (block: Option<Block>)
    requires Keyed(blocks)
    ensures block.Some? <==> hash in blocks && (first || blocks[hash].number == number)
    ensures block.Some? ==> Stored(blocks, block.value) && block.value == blocks[hash]
  {
    if first {
      block := if hash in blocks then Some(blocks[hash]) else None;
    } else {
      block := Get(blocks, hash, number);
    }
  }

  /** Whether another header may go into the response. Of the three limits of the loop the size is never the one that stops it. */
  method HasRoom(n: nat, bytes: nat, amount: nat) returns (room: bool)
    requires bytes == n * EST_HEADER_SIZE
    ensures room <==> n < Cap(amount)
  {
    room := n < AsInt(amount) && bytes < SOFT_RESPONSE_LIMIT && n < MAX_HEADER_FETCH;
  }

  /** What holds at the top of the loop. */
  ghost predicate Going(blocks: Store, canon: Canon, head: Block, origin: Hash, headers: seq<Block>, gap: nat, reverse: bool,
                        hash: Hash, number: nat, unknown: bool, budget: nat) {
    && Reply(blocks, canon, head, origin, headers, gap, reverse)
    && if |headers| == 0 then hash == origin && !unknown && budget == MAX_NON_CANONICAL
       else origin in blocks && Ready(blocks, canon, head, headers, gap, reverse, hash, number, unknown, budget)
  }

  /** One turn of the loop: it stops only if the origin is unknown. */
  method Turn(blocks: Store, canon: Canon, ghost head: Block, ghost origin: Hash, headers: seq<Block>, skip: nat, reverse: bool,
              h: Hash, n: nat, budget: nat, first: bool, ghost gap: nat)
      returns (found: bool, more: seq<Block>, hash: Hash, number: nat, unknown: bool, left: nat)
    requires Served(blocks, canon, head) && skip < TWO_64 && gap == skip + 1 && (first <==> |headers| == 0)
    requires forall h :: h in blocks ==> blocks[h].number < TWO_64
    requires Going(blocks, canon, head, origin, headers, gap, reverse, h, n, false, budget)
    ensures !found ==> |headers| == 0 && more == headers && origin !in blocks
    ensures found ==>
      |more| == |headers| + 1 && Going(blocks, canon, head, origin, more, gap, reverse, hash, number, unknown, left)
  {
    more, hash, number, unknown, left := headers, h, n, false, budget;
    var block := Fetch(blocks, first, h, n);
    found := block.Some?;
    if found {
      more, hash, number, unknown, left :=
        Extend(blocks, canon, head, origin, headers, block.value, skip, reverse, budget, gap);
    }
  }

  /** The loop that gathers headers until there are enough or the next one is unknown. */
  method Gather(blocks: Store, canon: Canon, ghost head: Block, origin: Hash, amount: nat, skip: nat, reverse: bool, ghost gap: nat)
      returns (headers: seq<Block>, unknown: bool)
    requires Served(blocks, canon, head) && skip < TWO_64 && gap == skip + 1
    requires forall h :: h in blocks ==> blocks[h].number < TWO_64
    ensures |headers| <= Cap(amount) && (|headers| == 0 <==> Cap(amount) == 0 || origin !in blocks)
    ensures Reply(blocks, canon, head, origin, headers, gap, reverse)
    ensures 0 < |headers| < Cap(amount) ==> Over(blocks, canon, headers, gap, reverse)
  {
    var first, maxNonCanonical: nat, bytes := true, MAX_NON_CANONICAL, 0;
    var hash: Hash, number: nat := origin, 0;
    headers, unknown := [], false;
    var room := HasRoom(0, bytes, amount);
    while !unknown && room
      invariant |headers| <= Cap(amount) && (room <==> |headers| < Cap(amount))
      invariant bytes == |headers| * EST_HEADER_SIZE && (first <==> |headers| == 0)
      invariant Going(blocks, canon, head, origin, headers, gap, reverse, hash, number, unknown, maxNonCanonical)
      decreases Cap(amount) - |headers|
    {
      var found;
      found, headers, hash, number, unknown, maxNonCanonical :=
        Turn(blocks, canon, head, origin, headers, skip, reverse, hash, number, maxNonCanonical, first, gap);
      if !found {
        return;
      }
      first, bytes := false, bytes + EST_HEADER_SIZE;
      room := HasRoom(|headers|, bytes, amount);
    }
  }

  /**
   The reply to a request for up to `amount` headers from `origin`, leaving out `skip` between two of
   them: full, or ended for a reason that can be read off its last header.
   */
  method GetBlockHeaders(blocks: Store, canon: Canon, ghost head: Block, origin: Hash, amount: nat, skip: nat, reverse: bool)
      returns (headers: seq<Block>)
    requires Served(blocks, canon, head) && origin != ZERO && amount < TWO_64 && skip < TWO_64
    requires forall h :: h in blocks ==> blocks[h].number < TWO_64
    ensures |headers| <= Cap(amount)
    ensures |headers| == 0 <==> Cap(amount) == 0 || origin !in blocks
    ensures Reply(blocks, canon, head, origin, headers, skip + 1, reverse)
    ensures 0 < |headers| < Cap(amount) ==> Over(blocks, canon, headers, skip + 1, reverse)
  {
    var unknown;
    headers, unknown := Gather(blocks, canon, head, origin, amount, skip, reverse, skip + 1);
  }

  // ------------------------------------------------------------------- when a reply lies on one chain

  /** Going down from n by gaps, the last number before the first one that is not above h. */
  ghost function Brink(n: nat, h: nat, gap: nat): (u: nat)
    requires gap > 0
    ensures u <= n && (n > h ==> h < u <= h + gap)
  {
    if n <= h + gap then n else Brink(n - gap, h, gap)
  }

  /** Going up from n by gaps, the first number above h. */
  ghost function Rise(n: nat, h: nat, gap: nat): (u: nat)
    requires gap > 0
    ensures h < u && (n <= h ==> u <= h + gap)
    decreases h - n
  {
    if h < n + gap then n + gap else Rise(n + gap, h, gap)
  }

  /** The one step down from b that crosses the head's number, if there is one, is sound. */
  ghost predicate SafeDown(blocks: Store, canon: Canon, head: Block, b: Block, gap: nat)
    requires gap > 0
  {
    b.number > head.number ==>
      var h := Read(Chain(blocks, b), Brink(b.number, head.number, gap));
      h in blocks ==> Sound(blocks, canon, head, blocks[h], gap)
  }

  /** The one step up the map from n that crosses the head's number, if there is one, is sound. */
  ghost predicate SafeUp(blocks: Store, canon: Canon, head: Block, n: nat, gap: nat)
    requires gap > 0
  {
    n <= head.number ==>
      var h := Read(canon, Rise(n, head.number, gap));
      h in blocks ==> Sound(blocks, canon, head, blocks[h], gap)
  }

  lemma ReplyTail(blocks: Store, canon: Canon, head: Block, headers: seq<Block>, gap: nat, reverse: bool)
    requires |headers| > 1 && Reply(blocks, canon, head, headers[0].hash, headers, gap, reverse)
    ensures Reply(blocks, canon, head, headers[1].hash, headers[1..], gap, reverse)
    ensures Linked(blocks, headers, 1, reverse) <==> Sound(blocks, canon, head, Upper(headers, 1, reverse), gap)
  {
    var rest := headers[1..];
    forall i | 0 < i < |rest|
      ensures Linked(blocks, rest, i, reverse) <==> Sound(blocks, canon, head, Upper(rest, i, reverse), gap)
    {
      assert Linked(blocks, headers, i + 1, reverse) <==> Sound(blocks, canon, head, Upper(headers, i + 1, reverse), gap);
    }
  }

  lemma TailDescending(blocks: Store, headers: seq<Block>)
    requires |headers| > 1
    ensures Descending(blocks, headers) <==> Above(blocks, headers[0], headers[1]) && Descending(blocks, headers[1..])
    ensures Ascending(blocks, headers) <==> Above(blocks, headers[1], headers[0]) && Ascending(blocks, headers[1..])
  {
    var rest := headers[1..];
    if Above(blocks, headers[0], headers[1]) && Descending(blocks, rest) {
      forall i | 0 < i < |headers| ensures Above(blocks, headers[i - 1], headers[i]) {
        assert i > 1 ==> headers[i] == rest[i - 1] && headers[i - 1] == rest[i - 2];
      }
    }
    if Above(blocks, headers[1], headers[0]) && Ascending(blocks, rest) {
      forall i | 0 < i < |headers| ensures Above(blocks, headers[i], headers[i - 1]) {
        assert i > 1 ==> headers[i] == rest[i - 1] && headers[i - 1] == rest[i - 2];
      }
    }
    forall i | 0 < i < |rest| ensures rest[i] == headers[i + 1] && rest[i - 1] == headers[i] {
    }
  }

  /** One header further down: the crossing is still ahead, or it is this step, or it is behind. */
  lemma DownStep(blocks: Store, canon: Canon, head: Block, b: Block, p: Block, gap: nat)
    requires Served(blocks, canon, head) && Stored(blocks, b) && Stored(blocks, p) && 0 < gap && p.number + gap == b.number
    requires Above(blocks, b, p) <==> Sound(blocks, canon, head, b, gap)
    ensures p.number > head.number ==> Above(blocks, b, p)
    ensures p.number > head.number ==> (SafeDown(blocks, canon, head, b, gap) <==> SafeDown(blocks, canon, head, p, gap))
    ensures p.number <= head.number ==> (SafeDown(blocks, canon, head, b, gap) <==> Above(blocks, b, p))
  {
    if p.number > head.number {
      CanonicalBelow(blocks, b, p, Brink(p.number, head.number, gap));
    } else if b.number <= head.number {
      SoundFrom(blocks, canon, head, b, gap);
    } else {
      assert Read(Chain(blocks, b), b.number) == b.hash;
    }
  }

  /** One header further up. */
  lemma UpStep(blocks: Store, canon: Canon, head: Block, n: nat, p: Block, gap: nat)
    requires Served(blocks, canon, head) && Stored(blocks, p) && 0 < gap && p.number == n + gap && Read(canon, p.number) == p.hash
    ensures p.number <= head.number || n > head.number ==> Sound(blocks, canon, head, p, gap)
    ensures p.number <= head.number ==> (SafeUp(blocks, canon, head, n, gap) <==> SafeUp(blocks, canon, head, p.number, gap))
    ensures n <= head.number < p.number ==> (SafeUp(blocks, canon, head, n, gap) <==> Sound(blocks, canon, head, p, gap))
  {
    if p.number <= head.number {
      SoundFrom(blocks, canon, head, p, gap);
    }
  }

  /** A backward reply lies on one chain if and only if it stays above the head or the step across it is sound. */
  lemma {:induction false} DescendingExactly(blocks: Store, canon: Canon, head: Block, headers: seq<Block>, gap: nat)
    requires Served(blocks, canon, head) && headers != [] && gap > 0
    requires Reply(blocks, canon, head, headers[0].hash, headers, gap, true)
    ensures Descending(blocks, headers) <==>
      headers[|headers| - 1].number > head.number || SafeDown(blocks, canon, head, headers[0], gap)
    decreases |headers|
  {
    if |headers| > 1 {
      ReplyTail(blocks, canon, head, headers, gap, true);
      DescendingExactly(blocks, canon, head, headers[1..], gap);
      TailDescending(blocks, headers);
      LastBelow(blocks, headers[1..], gap, true);
      DownStep(blocks, canon, head, headers[0], headers[1], gap);
    }
  }

  /** A forward reply lies on one chain if and only if it stays up to the head or the step across it is sound. */
  lemma {:induction false} AscendingExactly(blocks: Store, canon: Canon, head: Block, headers: seq<Block>, gap: nat)
    requires Served(blocks, canon, head) && headers != [] && gap > 0
    requires Reply(blocks, canon, head, headers[0].hash, headers, gap, false)
    ensures Ascending(blocks, headers) <==>
      headers[|headers| - 1].number <= head.number || SafeUp(blocks, canon, head, headers[0].number, gap)
    decreases |headers|
  {
    if |headers| > 1 {
      ReplyTail(blocks, canon, head, headers, gap, false);
      AscendingExactly(blocks, canon, head, headers[1..], gap);
      TailDescending(blocks, headers);
      LastBelow(blocks, headers[1..], gap, false);
      assert Read(canon, headers[1].number) == headers[1].hash;
      UpStep(blocks, canon, head, headers[0].number, headers[1], gap);
    }
  }

  /** The last header of a reply is the lowest, or the highest. */
  lemma {:induction false} LastBelow(blocks: Store, headers: seq<Block>, gap: nat, reverse: bool)
    requires headers != [] && Spaced(blocks, headers, gap, reverse)
    ensures var first, last := headers[0], headers[|headers| - 1];
      if reverse then last.number <= first.number else first.number <= last.number
    decreases |headers|
  {
    if |headers| > 1 {
      LastBelow(blocks, headers[..|headers| - 1], gap, reverse);
    }
  }

  /** Only a step across the head's number can be unsound, and none is when nothing is left above the head. */
  lemma OnlyCrossing(blocks: Store, canon: Canon, head: Block, b: Block, gap: nat)
    requires Served(blocks, canon, head) && Stored(blocks, b) && gap <= b.number && !Sound(blocks, canon, head, b, gap)
    ensures b.number - gap <= head.number < b.number && exists m :: m in canon && m > head.number
  {
    if forall m :: m in canon ==> m <= head.number {
      SoundFrom(blocks, canon, head, b, gap);
    }
  }

  /** An origin no higher than the head gets a backward reply on one chain, whatever is left above the head. */
  lemma SafeFromBelow(blocks: Store, canon: Canon, head: Block, headers: seq<Block>, gap: nat)
    requires Served(blocks, canon, head) && headers != [] && gap > 0 && headers[0].number <= head.number
    requires Reply(blocks, canon, head, headers[0].hash, headers, gap, true)
    ensures Descending(blocks, headers)
  {
    DescendingExactly(blocks, canon, head, headers, gap);
  }

  /** The map left behind by a head right above the fork: going up two at a time from that head leaves its chain. */
  lemma StaleReply(blocks: Store, canon: Canon, g: Block, a1: Block, a2: Block, a3: Block, b1: Block)
    requires g == Block(1, ZERO, 0, 1, []) && b1 == Block(4, 1, 1, 10, [])
    requires a1 == Block(2, 1, 1, 1, []) && a2 == Block(3, 2, 2, 1, []) && a3 == Block(5, 3, 3, 1, [])
    requires blocks == map[1 := g, 2 := a1, 3 := a2, 4 := b1, 5 := a3] && canon == Chain(blocks, a3)[1 := 4]
    ensures Served(blocks, canon, b1) && Continues(blocks, canon, b1, 2)
    ensures Reply(blocks, canon, b1, b1.hash, [b1, a3], 2, false) && !Ascending(blocks, [b1, a3])
    ensures !SafeUp(blocks, canon, b1, b1.number, 2)
  {
    StaleAncestor(blocks, canon, g, a1, a2, a3, b1);
    var headers := [b1, a3];
    assert Linked(blocks, headers, 1, false) <==> Above(blocks, a3, b1);
  }
}
