/** The section indexer: sections of the canonical chain processed in the background, without the lock. */
module ChainIndexers {
  import opened Transactions
  import opened BlockTree
  import opened Ancestors

  /** `to` is reached from `from` by n child links. */
  ghost predicate Steps(world: Store, from: Hash, to: Hash, n: nat)
    decreases n
  {
    if n == 0 then from == to else to in world && Steps(world, from, world[to].parent, n - 1)
  }

  lemma StepUp(world: Store, from: Hash, mid: Hash, to: Hash, n: nat)
    requires Steps(world, from, mid, n) && to in world && world[to].parent == mid
    ensures Steps(world, from, to, n + 1)
  {
  }

  /** Where the update loop is; everything but Idle happens without the lock. */
  datatype Phase =
    | Idle
    | Resetting(section: nat, oldHead: Hash)
    | Reading(section: nat, oldHead: Hash, number: nat, lastHead: Hash)
    | Fetching(section: nat, oldHead: Hash, number: nat, lastHead: Hash, hash: Hash)
    | Committing(section: nat, oldHead: Hash, lastHead: Hash)
    | Processed(section: nat, oldHead: Hash, newHead: Option<Hash>)

  /** What the chain database holds at some moment. */
  datatype ChainState = ChainState(headers: Store, canon: Canon)

  /** The number of the last block of a section. */
  function LastOf(section: nat, size: nat): (n: int)
    ensures size > 0 ==> n >= section
  {
    (section + 1) * size - 1
  }

  /** How many sections some blocks fill. */
  function SectionsIn(blocks: nat, size: nat): (n: nat)
    requires size > 0
    ensures n * size <= blocks < (n + 1) * size
  {
    blocks / size
  }

  function Lower(a: nat, b: nat): (r: nat) {
    if a < b then a else b
  }

  function Higher(a: nat, b: nat): (r: nat) {
    if a < b then b else a
  }

  /** The section's head is its last block, and hangs one section above the previous head. */
  ghost predicate Linked(world: Store, heads: map<nat, Hash>, i: nat, size: nat) {
    && i in heads && heads[i] in world && world[heads[i]].number == LastOf(i, size)
    && (i == 0 || i - 1 in heads ==> Steps(world, if i == 0 then ZERO else heads[i - 1], heads[i], size))
  }

  /** Heads below the count only, none missing from the checkpoint on, each linked unless taken from a checkpoint. */
  ghost predicate Indexed(world: Store, heads: map<nat, Hash>, stored: nat, checkpoint: nat, trusted: set<nat>, size: nat) {
    && (forall i :: i in heads ==> i < stored && heads[i] != ZERO)
    && (stored > 0 ==> stored - 1 in heads)
    && (forall i: nat :: i < stored ==> i in heads || (i + 1 < checkpoint && stored >= checkpoint))
    && (forall i :: i in heads && i !in trusted ==> Linked(world, heads, i, size))
    && (forall i :: i in trusted ==> i < checkpoint && i < stored)
  }

  /** The heads of the first sections. */
  ghost function Kept(heads: map<nat, Hash>, sections: nat): (r: map<nat, Hash>) {
    map i | i in heads && i < sections :: heads[i]
  }

  lemma KeptTwice(heads: map<nat, Hash>, more: nat, fewer: nat)
    requires fewer <= more
    ensures Kept(Kept(heads, more), fewer) == Kept(heads, fewer)
  {
  }

  /** The section's stored head is not the canonical block at the section's end. */
  ghost predicate Stale(heads: map<nat, Hash>, canon: Canon, size: nat, i: nat) {
    (if i in heads then heads[i] else ZERO) != Read(canon, LastOf(i, size))
  }

  /** The head of a section was not canonical in some map that was seen. */
  ghost predicate WasStale(heads: map<nat, Hash>, seen: set<Canon>, size: nat, i: nat) {
    exists c :: c in seen && Stale(heads, c, size, i)
  }

  ghost predicate AllStale(heads: map<nat, Hash>, seen: set<Canon>, size: nat, lo: nat, hi: nat) {
    forall i: nat :: lo <= i < hi ==> WasStale(heads, seen, size, i)
  }

  /** Sections were dropped from the top, each found stale. */
  ghost predicate Trimmed(before: map<nat, Hash>, heads: map<nat, Hash>, seen: set<Canon>, size: nat, lo: nat, hi: nat) {
    heads == Kept(before, lo) && AllStale(before, seen, size, lo, hi)
  }

  lemma TrimMore(before: map<nat, Hash>, heads: map<nat, Hash>, seen: set<Canon>, c: Canon, size: nat, lo: nat, hi: nat)
    requires Trimmed(before, heads, seen, size, lo + 1, hi) && c in seen && Stale(heads, c, size, lo)
    ensures Trimmed(before, Kept(heads, lo), seen, size, lo, hi)
  {
    assert WasStale(before, seen, size, lo);
    KeptTwice(before, lo + 1, lo);
  }

  /** The canonical maps of some chain states. */
  ghost function Maps(first: Canon, moves: seq<ChainState>): (r: set<Canon>)
    ensures first in r && forall m :: m in moves ==> m.canon in r
  {
    {first} + set m | m in moves :: m.canon
  }

  /** Dropped sections are not taken on trust any more. */
  ghost function TrustedBelow(trusted: set<nat>, sections: nat): (r: set<nat>) {
    set i | i in trusted && i < sections
  }

  /** Dropping sections from the top, not into the checkpointed ones unless all go. */
  lemma DropSections(world: Store, heads: map<nat, Hash>, stored: nat, checkpoint: nat, trusted: set<nat>, size: nat, sections: nat)
    requires Indexed(world, heads, stored, checkpoint, trusted, size)
    requires sections <= stored && (sections == 0 || sections >= checkpoint || stored < checkpoint)
    ensures Indexed(world, Kept(heads, sections), sections, checkpoint, TrustedBelow(trusted, sections), size)
  {
    var kept := Kept(heads, sections);
    forall i | i in kept && i !in TrustedBelow(trusted, sections) ensures Linked(world, kept, i, size) {
      assert Linked(world, heads, i, size);
    }
  }

  /** Storing the head of the next section. */
  lemma AddSection(world: Store, heads: map<nat, Hash>, stored: nat, checkpoint: nat, trusted: set<nat>, size: nat, head: Hash)
    requires Indexed(world, heads, stored, checkpoint, trusted, size)
    requires head in world && head != ZERO && world[head].number == LastOf(stored, size)
    requires Steps(world, if stored == 0 then ZERO else heads[stored - 1], head, size)
    ensures Indexed(world, heads[stored := head], stored + 1, checkpoint, trusted, size)
  {
    var more := heads[stored := head];
    forall i | i in more && i !in trusted ensures Linked(world, more, i, size) {
      if i < stored {
        assert Linked(world, heads, i, size);
      }
    }
  }

  /** Taking over a checkpoint above everything stored. */
  lemma Checkpointed(world: Store, heads: map<nat, Hash>, stored: nat, checkpoint: nat, trusted: set<nat>, size: nat, section: nat, head: Hash)
    requires Indexed(world, heads, stored, checkpoint, trusted, size) && head != ZERO
    requires section >= stored && section >= checkpoint
    ensures Indexed(world, heads[section := head], section + 1, section + 1, trusted + {section}, size)
  {
    var more := heads[section := head];
    forall i | i in more && i !in trusted + {section} ensures Linked(world, more, i, size) {
      assert Linked(world, heads, i, size);
    }
  }

  class ChainIndexer {
    const sectionSize: nat
    const confirmsReq: nat
    /** Every header that exists at some time, by its hash. */
    ghost const world: Store

    // the chain database, which changes at any time
    var headers: Store
    var canon: Canon

    var storedSections: nat
    var knownSections: nat
    var checkpointSections: nat
    var checkpointHead: Hash
    var heads: map<nat, Hash>
    var phase: Phase
    ghost var trusted: set<nat>

    /** The chain only ever holds headers that exist. */
    ghost predicate AllExtend(moves: seq<ChainState>) {
      forall i :: 0 <= i < |moves| ==> Extends(world, moves[i].headers)
    }

    /** What the update loop has found out about the section it is processing. */
    ghost predicate Underway()
      reads this
    {
      match phase
      case Idle => true
      case Resetting(section, oldHead) => Waiting(section, oldHead)
      case Reading(section, oldHead, number, lastHead) =>
        && Waiting(section, oldHead) && section * sectionSize <= number < (section + 1) * sectionSize
        && Steps(world, oldHead, lastHead, number - section * sectionSize)
      case Fetching(section, oldHead, number, lastHead, hash) =>
        && Waiting(section, oldHead) && section * sectionSize <= number < (section + 1) * sectionSize
        && Steps(world, oldHead, lastHead, number - section * sectionSize) && hash != ZERO
      case Committing(section, oldHead, lastHead) =>
        Waiting(section, oldHead) && Finished(section, oldHead, lastHead)
      case Processed(section, oldHead, newHead) =>
        Waiting(section, oldHead) && (newHead.Some? ==> Finished(section, oldHead, newHead.value))
    }

    /** Meanwhile sections may have been dropped, but none was added. */
    ghost predicate Waiting(section: nat, oldHead: Hash)
      reads this
    {
      && storedSections <= section && (section > 0 <==> oldHead != ZERO)
      && (0 < section == storedSections ==> SectionHead(section - 1) == oldHead)
    }

    ghost predicate Finished(section: nat, oldHead: Hash, newHead: Hash)
      reads this
    {
      && newHead in world && newHead != ZERO && world[newHead].number == LastOf(section, sectionSize)
      && Steps(world, oldHead, newHead, sectionSize)
    }

    ghost predicate Valid()
      reads this
    {
      && sectionSize > 0 && Keyed(world) && Extends(world, headers)
      && Indexed(world, heads, storedSections, checkpointSections, trusted, sectionSize)
      && Underway()
    }

    constructor (size: nat, confirms: nat, ghost all: Store)
      requires size > 0 && Keyed(all)
      ensures Valid() && storedSections == 0 && phase == Idle && sectionSize == size && confirmsReq == confirms && world == all
    {
      sectionSize, confirmsReq, world := size, confirms, all;
      headers, canon, heads, phase := map[], map[], map[], Idle;
      storedSections, knownSections, checkpointSections, checkpointHead := 0, 0, 0, ZERO;
      trusted := {};
    }

    function SectionHead(section: int): (h: Hash)
      reads this
    {
      if section in heads then heads[section] else ZERO
    }

    /** Sets the number of valid sections; the heads of dropped ones are removed. */
    method SetValidSections(sections: nat)
      modifies this`storedSections, this`heads
      ensures storedSections == sections
      ensures heads == map i | i in old(heads) && !(sections <= i < old(storedSections)) :: old(heads)[i]
    {
      while storedSections > sections
        invariant storedSections <= old(storedSections)
        invariant if sections <= old(storedSections) then storedSections >= sections else storedSections == old(storedSections)
        invariant heads == map i | i in old(heads) && !(storedSections <= i < old(storedSections)) :: old(heads)[i]
      {
        storedSections := storedSections - 1;
        heads := heads - {storedSections};
      }
      storedSections := sections;
    }

    /** Drops sections that are no longer canonical. */
    method Drop(sections: nat)
      requires Valid() && sections <= storedSections
      requires sections == 0 || sections >= checkpointSections || storedSections < checkpointSections
      modifies this`storedSections, this`heads, this`trusted
      ensures Valid() && storedSections == sections && heads == Kept(old(heads), sections)
    {
      DropSections(world, heads, storedSections, checkpointSections, trusted, sectionSize, sections);
      trusted := TrustedBelow(trusted, sections);
      SetValidSections(sections);
      assert heads == Kept(old(heads), sections);
    }

    /** The chain changes: any headers, any canonical map. */
    method ChainMoves(to: ChainState)
      requires Valid() && Extends(world, to.headers)
      modifies this`headers, this`canon
      ensures Valid() && headers == to.headers && canon == to.canon
    {
      headers, canon := to.headers, to.canon;
    }

    /** A trusted head for a section; not while a section is being processed. */
    method AddCheckpoint(section: nat, head: Hash)
      requires Valid() && phase.Idle? && head != ZERO
      modifies this`storedSections, this`heads, this`checkpointSections, this`checkpointHead, this`trusted
      ensures Valid()
      ensures if old(checkpointSections) >= section + 1 || section < old(storedSections)
              then storedSections == old(storedSections) && checkpointSections == old(checkpointSections) && heads == old(heads)
              else storedSections == checkpointSections == section + 1 && heads == old(heads)[section := head]
    {
      if checkpointSections >= section + 1 || section < storedSections {
        return;
      }
      Checkpointed(world, heads, storedSections, checkpointSections, trusted, sectionSize, section, head);
      checkpointSections, checkpointHead := section + 1, head;
      trusted := trusted + {section};
      heads := heads[section := head];
      SetValidSections(section + 1);
    }

    /** The chain was reorganised down to a block: sections beyond it are neither known nor stored any more. */
    method RollBack(complete: nat)
      requires Valid()
      modifies this`storedSections, this`heads, this`trusted, this`knownSections
      ensures Valid() && heads == Kept(old(heads), storedSections)
      ensures storedSections == Lower(old(storedSections), Higher(checkpointSections, complete))
      ensures knownSections == Lower(old(knownSections), if complete < checkpointSections then 0 else complete)
    {
      var known, stored := complete, complete;
      if known < checkpointSections {
        known := 0;
      }
      if stored < checkpointSections {
        stored := checkpointSections;
      }
      if known < knownSections {
        knownSections := known;
      }
      if stored < storedSections {
        Drop(stored);
      }
    }

    /** A new head, or the point down to which the chain was reorganised. */
    method NewHead(head: nat, reorg: bool)
      requires Valid()
      modifies this`storedSections, this`heads, this`trusted, this`knownSections
      ensures Valid() && storedSections <= old(storedSections) && heads == Kept(old(heads), storedSections)
      ensures !reorg ==> storedSections == old(storedSections) && knownSections >= old(knownSections)
      ensures !reorg && knownSections > old(knownSections) ==>
        head >= confirmsReq && knownSections == SectionsIn(head + 1 - confirmsReq, sectionSize)
      ensures reorg ==> knownSections <= Lower(old(knownSections), SectionsIn(head + 1, sectionSize))
      ensures reorg ==> storedSections == Lower(old(storedSections), Higher(checkpointSections, SectionsIn(head + 1, sectionSize)))
    {
      if reorg {
        RollBack(SectionsIn(head + 1, sectionSize));
        return;
      }
      if head >= confirmsReq {
        var sections := SectionsIn(head + 1 - confirmsReq, sectionSize);
        if sections < checkpointSections {
          sections := 0;
        }
        if sections > knownSections {
          if knownSections < checkpointSections {
            var syncedHead := Read(canon, checkpointSections * sectionSize - 1);
            if syncedHead != checkpointHead {
              return;
            }
          }
          knownSections := sections;
        }
      }
    }

    /** The head of the last section is the canonical block at the section's end. */
    ghost predicate LastCanonical()
      reads this
    {
      storedSections > 0 && !Stale(heads, canon, sectionSize, storedSections - 1)
    }

    /** Looks at the chain, which may have moved to a next state by then, and drops the last section if its head is stale. */
    method CheckLast(moves: seq<ChainState>, k: nat) returns (stale: bool)
      requires Valid() && AllExtend(moves) && storedSections > checkpointSections
      modifies this`storedSections, this`heads, this`trusted, this`headers, this`canon
      ensures Valid() && canon == if k < |moves| then moves[k].canon else old(canon)
      ensures if stale
              then storedSections == old(storedSections) - 1 && heads == Kept(old(heads), storedSections)
                   && Stale(old(heads), canon, sectionSize, storedSections)
              else storedSections == old(storedSections) && heads == old(heads) && LastCanonical()
    {
      if k < |moves| {
        ChainMoves(moves[k]);
      }
      stale := SectionHead(storedSections - 1) != Read(canon, storedSections * sectionSize - 1);
      if stale {
        Drop(storedSections - 1);
      }
    }

    /**
     Drops sections from the top until the last head is the canonical one. The chain may move on before each
     look at it, and is left in the last state that was looked at.
     */
    method VerifyLastHead(moves: seq<ChainState>)
      requires Valid() && AllExtend(moves)
      modifies this`storedSections, this`heads, this`trusted, this`headers, this`canon
      ensures Valid() && storedSections <= old(storedSections) && heads == Kept(old(heads), storedSections)
      ensures storedSections > checkpointSections ==> LastCanonical()
      ensures AllStale(old(heads), Maps(old(canon), moves), sectionSize, storedSections, old(storedSections))
      ensures storedSections < old(storedSections) ==> storedSections >= checkpointSections
    {
      ghost var before, seen := heads, Maps(canon, moves);
      var k, stale := 0, true;
      while storedSections > checkpointSections && stale
        invariant Valid() && storedSections <= old(storedSections) && canon in seen
        invariant Trimmed(before, heads, seen, sectionSize, storedSections, old(storedSections))
        invariant storedSections < old(storedSections) ==> storedSections >= checkpointSections
        invariant !stale ==> LastCanonical()
        decreases storedSections, stale
      {
        ghost var all := heads;
        stale := CheckLast(moves, k);
        if stale {
          TrimMore(before, all, seen, canon, sectionSize, storedSections, old(storedSections));
        }
        k := k + 1;
      }
    }

    /** The update loop takes the lock, picks the next section and lets the lock go. */
    method StartSection(moves: seq<ChainState>)
      requires Valid() && phase.Idle? && AllExtend(moves)
      modifies this`storedSections, this`heads, this`trusted, this`phase, this`headers, this`canon
      ensures Valid() && heads == Kept(old(heads), storedSections)
      ensures knownSections <= old(storedSections) ==> phase.Idle? && storedSections == old(storedSections)
      ensures knownSections > old(storedSections) ==>
        && phase == Resetting(storedSections, if storedSections > 0 then SectionHead(storedSections - 1) else ZERO)
        && AllStale(old(heads), Maps(old(canon), moves), sectionSize, storedSections, old(storedSections))
    {
      if knownSections > storedSections {
        VerifyLastHead(moves);
        var section := storedSections;
        var oldHead := ZERO;
        if section > 0 {
          oldHead := SectionHead(section - 1);
        }
        phase := Resetting(section, oldHead);
      }
    }

    /** The backend is reset; if it cannot be, no section is valid any more. */
    method ResetBackend(ok: bool)
      requires Valid() && phase.Resetting?
      modifies this`storedSections, this`heads, this`trusted, this`phase
      ensures Valid() && storedSections == (if ok then old(storedSections) else 0) && heads == Kept(old(heads), storedSections)
      ensures phase == if ok then Reading(old(phase).section, old(phase).oldHead, old(phase).section * sectionSize, old(phase).oldHead)
                       else Processed(old(phase).section, old(phase).oldHead, None)
    {
      var Resetting(section, oldHead) := phase;
      if !ok {
        Drop(0);
        phase := Processed(section, oldHead, None);
        return;
      }
      FirstNumber(section, sectionSize);
      phase := Reading(section, oldHead, section * sectionSize, oldHead);
    }

    /** The canonical hash of the section's next block, as the chain is at this moment. */
    method ReadHash()
      requires Valid() && phase.Reading?
      modifies this`phase
      ensures Valid()
      ensures var Reading(section, oldHead, number, lastHead) := old(phase);
        phase == if Read(canon, number) == ZERO then Processed(section, oldHead, None)
                 else Fetching(section, oldHead, number, lastHead, Read(canon, number))
    {
      var Reading(section, oldHead, number, lastHead) := phase;
      var hash := Read(canon, number);
      phase := if hash == ZERO then Processed(section, oldHead, None) else Fetching(section, oldHead, number, lastHead, hash);
    }

    /** The header with that hash, as the chain is by now. */
    method ReadHeader(processed: bool)
      requires Valid() && phase.Fetching?
      modifies this`phase
      ensures Valid()
      ensures var Fetching(section, oldHead, number, lastHead, hash) := old(phase);
        phase == if Get(headers, hash, number).None? || headers[hash].parent != lastHead || !processed
                 then Processed(section, oldHead, None)
                 else if number == LastOf(section, sectionSize) then Committing(section, oldHead, hash)
                 else Reading(section, oldHead, number + 1, hash)
    {
      var Fetching(section, oldHead, number, lastHead, hash) := phase;
      var header := Get(headers, hash, number);
      if header.None? || header.value.parent != lastHead || !processed {
        phase := Processed(section, oldHead, None);
        return;
      }
      StepUp(world, oldHead, lastHead, hash, number - section * sectionSize);
      if number + 1 < (section + 1) * sectionSize {
        phase := Reading(section, oldHead, number + 1, hash);
      } else {
        FirstNumber(section, sectionSize);
        phase := Committing(section, oldHead, hash);
      }
    }

    method Commit(ok: bool)
      requires Valid() && phase.Committing?
      modifies this`phase
      ensures Valid()
      ensures phase == Processed(old(phase).section, old(phase).oldHead, if ok then Some(old(phase).lastHead) else None)
    {
      phase := Processed(phase.section, phase.oldHead, if ok then Some(phase.lastHead) else None);
    }

    /** Stores the head of a section that was processed while nothing was dropped. */
    method StoreHead(section: nat, oldHead: Hash, newHead: Hash)
      requires Valid() && phase.Idle? && Waiting(section, oldHead) && Finished(section, oldHead, newHead)
      requires section == 0 || oldHead == SectionHead(section - 1)
      modifies this`storedSections, this`heads
      ensures Valid() && storedSections == old(storedSections) + 1 == section + 1 && heads == old(heads)[section := newHead]
    {
      AddSection(world, heads, storedSections, checkpointSections, trusted, sectionSize, newHead);
      heads := heads[section := newHead];
      SetValidSections(section + 1);
    }

    /** The update loop takes the lock again and stores the section's head, unless sections were dropped meanwhile. */
    method FinishSection(moves: seq<ChainState>)
      requires Valid() && phase.Processed? && AllExtend(moves)
      modifies this`storedSections, this`heads, this`trusted, this`knownSections, this`phase, this`headers, this`canon
      ensures Valid() && phase.Idle?
      ensures if old(phase.newHead.Some? && (phase.section == 0 || phase.oldHead == SectionHead(phase.section - 1)))
              then storedSections == old(storedSections) + 1 == old(phase.section) + 1
                   && heads == old(heads)[old(phase.section) := old(phase.newHead).value]
              else knownSections == storedSections <= old(storedSections) && heads == Kept(old(heads), storedSections)
    {
      var Processed(section, oldHead, newHead) := phase;
      phase := Idle;
      if newHead.Some? && (section == 0 || oldHead == SectionHead(section - 1)) {
        StoreHead(section, oldHead, newHead.value);
      } else {
        VerifyLastHead(moves);
        knownSections := storedSections;
      }
    }
  }

  lemma FirstNumber(section: nat, size: nat)
    requires size > 0
    ensures (section + 1) * size == section * size + size
  {
  }

  /** Going down the canonical chain along child links. */
  lemma {:induction false} StepsDown(world: Store, db: Store, b: Block, from: Hash, to: Hash, n: nat, k: nat)
    requires Closed(db) && Keyed(world) && Extends(world, db) && Stored(db, b)
    requires k <= n && Steps(world, from, to, k) && Read(Chain(db, b), n) == to && n <= b.number
    ensures Read(Chain(db, b), n - k) == from
    decreases k
  {
    if k > 0 {
      ChainFromZero(db, b);
      ChainStored(db, b, n);
      ChainStep(db, b, db[to]);
      StepsDown(world, db, b, from, world[to].parent, n - 1, k - 1);
    }
  }

  /** With a matching last head, a stored head above the checkpoint is the last one's ancestor. */
  lemma {:induction false} HeadsAreAncestors(ix: ChainIndexer, last: Block, i: nat)
    requires ix.Valid() && Closed(ix.headers) && Stored(ix.headers, last)
    requires ix.storedSections > ix.checkpointSections && ix.checkpointSections <= i + 1 <= ix.storedSections
    requires last.hash == ix.SectionHead(ix.storedSections - 1) && last.number == LastOf(ix.storedSections - 1, ix.sectionSize)
    ensures LastOf(i, ix.sectionSize) <= last.number && ix.SectionHead(i) != ZERO
    ensures ix.SectionHead(i) == Read(Chain(ix.headers, last), LastOf(i, ix.sectionSize))
    decreases ix.storedSections - i
  {
    assert i in ix.heads;
    if i + 1 < ix.storedSections {
      HeadsAreAncestors(ix, last, i + 1);
      assert Linked(ix.world, ix.heads, i + 1, ix.sectionSize);
      FirstNumber(i + 1, ix.sectionSize);
      StepsDown(ix.world, ix.headers, last, ix.heads[i], ix.heads[i + 1], LastOf(i + 1, ix.sectionSize), ix.sectionSize);
    }
  }

  /**
   With a matching last head, a stored head above the checkpoint is canonical if and only if the last one is no
   higher than the chain's head, or this one is above it, or no higher than where the two chains part.
   */
  lemma AllCanonical(ix: ChainIndexer, head: Block, last: Block, i: nat)
    requires ix.Valid() && Served(ix.headers, ix.canon, head) && Stored(ix.headers, last)
    requires ix.storedSections > ix.checkpointSections && ix.checkpointSections <= i + 1 <= ix.storedSections
    requires last.hash == ix.SectionHead(ix.storedSections - 1) == Read(ix.canon, LastOf(ix.storedSections - 1, ix.sectionSize))
    ensures var n := LastOf(i, ix.sectionSize);
      ix.SectionHead(i) == Read(ix.canon, n) <==>
        last.number <= head.number || n > head.number || n <= ForkNumber(ix.headers, head, last)
  {
    EntryStored(ix.headers, ix.canon, head, LastOf(ix.storedSections - 1, ix.sectionSize));
    HeadsAreAncestors(ix, last, i);
    CanonicalAncestors(ix.headers, ix.canon, head, last, LastOf(i, ix.sectionSize));
  }

  /** The map left behind by a head right above the fork: the last of two sections matches, the first does not. */
  lemma StaleSections(blocks: Store, canon: Canon, heads: map<nat, Hash>, g: Block, a1: Block, a2: Block, a3: Block, b1: Block)
    requires g == Block(1, ZERO, 0, 1, []) && b1 == Block(4, 1, 1, 10, [])
    requires a1 == Block(2, 1, 1, 1, []) && a2 == Block(3, 2, 2, 1, []) && a3 == Block(5, 3, 3, 1, [])
    requires blocks == map[1 := g, 2 := a1, 3 := a2, 4 := b1, 5 := a3] && canon == Chain(blocks, a3)[1 := 4]
    requires heads == map[0 := a1.hash, 1 := a3.hash]
    ensures Served(blocks, canon, b1) && Indexed(blocks, heads, 2, 0, {}, 2)
    ensures heads[1] == Read(canon, LastOf(1, 2)) && heads[0] != Read(canon, LastOf(0, 2))
  {
    StaleAncestor(blocks, canon, g, a1, a2, a3, b1);
    assert Steps(blocks, ZERO, 1, 1) && Steps(blocks, ZERO, 2, 2);
    assert Steps(blocks, 2, 3, 1) && Steps(blocks, 2, 5, 2);
    assert Linked(blocks, heads, 0, 2) && Linked(blocks, heads, 1, 2);
  }

  datatype Event =
    | ChainMoved(to: ChainState)
    | Head(number: nat, reorg: bool)
    | Query(moves: seq<ChainState>)
    | Checkpoint(section: nat, head: Hash)
    | Loop(ok: bool, moves: seq<ChainState>)

  /** What an event brings with it: only headers that exist, and a checkpoint head. */
  ghost predicate Possible(ix: ChainIndexer, e: Event) {
    match e
    case ChainMoved(to) => Extends(ix.world, to.headers)
    case Head(number, reorg) => true
    case Query(moves) => ix.AllExtend(moves)
    case Checkpoint(section, head) => head != ZERO
    case Loop(ok, moves) => ix.AllExtend(moves)
  }

  /** The next step of the update loop. */
  method LoopStep(ix: ChainIndexer, ok: bool, moves: seq<ChainState>)
    requires ix.Valid() && ix.AllExtend(moves)
    modifies ix
    ensures ix.Valid()
  {
    match ix.phase
    case Idle => ix.StartSection(moves);
    case Resetting(_, _) => ix.ResetBackend(ok);
    case Reading(_, _, _, _) => ix.ReadHash();
    case Fetching(_, _, _, _, _) => ix.ReadHeader(ok);
    case Committing(_, _, _) => ix.Commit(ok);
    case Processed(_, _, _) => ix.FinishSection(moves);
  }

  /** Any interleaving of chain changes, head events, queries and steps of the update loop. */
  method Run(ix: ChainIndexer, events: seq<Event>)
    requires ix.Valid() && forall i :: 0 <= i < |events| ==> Possible(ix, events[i])
    modifies ix
    ensures ix.Valid()
  {
    for i := 0 to |events|
      invariant ix.Valid()
    {
      assert Possible(ix, events[i]);
      match events[i]
      case ChainMoved(to) => ix.ChainMoves(to);
      case Head(number, reorg) => ix.NewHead(number, reorg);
      case Query(moves) => ix.VerifyLastHead(moves);
      case Checkpoint(section, head) =>
        if ix.phase.Idle? {
          ix.AddCheckpoint(section, head);
        }
      case Loop(ok, moves) => LoopStep(ix, ok, moves);
    }
  }
}
