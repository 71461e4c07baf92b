// The block inserter itself: a mutable database and chain index, driven through
// unwind, execute, canonize and re-execute loops.
module Blockchains {
  import opened Wrappers
  import opened WorldState
  import opened Undoing
  import opened ForkChoice
  import opened Unwinding

  lemma {:induction false} AncestorIgnoresNewBlocks(
    p: Protocol, m: Store, e: Store, canonical: seq<Hash>, b: Block, h: Hash)
    requires WellLinked(p, m) && WellLinked(p, e) && Extends(m, e) && |canonical| > 0
    requires OneGenesis(m, canonical[0]) && OneGenesis(e, canonical[0])
    requires if b.number == 0 then h == canonical[0] else (b.number - 1, b.parentHash) in m
    ensures CanonicalAncestor(p, e, canonical, b, h) == CanonicalAncestor(p, m, canonical, b, h)
    decreases b.number
  {
    hide WellLinked;
    if !(b.number < |canonical| && canonical[b.number] == h) {
      Linked(p, m, b.number - 1, b.parentHash);
      AncestorIgnoresNewBlocks(p, m, e, canonical, m[(b.number - 1, b.parentHash)], b.parentHash);
    }
  }

  /** chain lists the blocks numbered a + 1 to n on the path to (n, h). */
  ghost predicate IsChain(p: Protocol, m: Store, n: nat, h: Hash, a: nat, chain: seq<Block>)
    requires WellLinked(p, m) && (n, h) in m && a <= n
  {
    && |chain| == n - a
    && forall i | a < i <= n :: chain[i - a - 1] == BlockAt(p, m, n, h, i)
  }

  ghost function BlockAt(p: Protocol, m: Store, n: nat, h: Hash, i: nat): Block
    requires WellLinked(p, m) && (n, h) in m && i <= n
  {
    PathShape(p, m, n, h, i);
    m[(i, PathAt(p, m, n, h, i))]
  }

  lemma StepDown(p: Protocol, m: Store, n: nat, h: Hash, i: nat)
    requires WellLinked(p, m) && (n, h) in m && 0 < i <= n
    ensures var k := PathAt(p, m, n, h, i);
            && (i, k) in m
            && m[(i, k)].number == i && p.hash(m[(i, k)]) == k
            && m[(i, k)].parentHash == PathAt(p, m, n, h, i - 1)
            && (i - 1, PathAt(p, m, n, h, i - 1)) in m
  {
    PathShape(p, m, n, h, i);
    PathShape(p, m, n, h, i - 1);
    Linked(p, m, i, PathAt(p, m, n, h, i));
  }

  /** d holds the total difficulty of every stored block. */
  ghost predicate IsTotal(m: Store, d: map<BlockId, nat>) {
    && d.Keys == m.Keys
    && forall n, h {:trigger TotalDifficulty(m, n, h)} :: (n, h) in m ==> d[(n, h)] == TotalDifficulty(m, n, h)
  }

  lemma TotalOfOneMore(p: Protocol, m: Store, e: Store, d: map<BlockId, nat>, b: Block, hash: Hash)
    requires WellLinked(p, m) && IsTotal(m, d) && Extends(m, e) && e == m[(b.number, hash) := b]
    requires b.number > 0 && (b.number - 1, b.parentHash) in m
    ensures IsTotal(e, d[(b.number, hash) := d[(b.number - 1, b.parentHash)] + b.difficulty])
  {
    hide WellLinked;
    var f := d[(b.number, hash) := d[(b.number - 1, b.parentHash)] + b.difficulty];
    ExtensionKeeps(p, m, e, b.number - 1, b.parentHash);
    forall n, h | (n, h) in e ensures f[(n, h)] == TotalDifficulty(e, n, h) {
      if (n, h) != (b.number, hash) {
        ExtensionKeeps(p, m, e, n, h);
      }
    }
  }

  class Blockchain {
    const protocol: Protocol
    const state: InMemoryState
    var blocks: Store
    var difficulty: map<BlockId, nat>
    var canonical: seq<Hash>
    var bad: map<Hash, ValidationError>

    ghost function View(): ChainState
      reads this
    {
      ChainState(blocks, canonical, bad)
    }

    /** The database holds the world and the undo records of the path to (n, h). */
    ghost predicate Synced(m: Store, n: nat, h: Hash)
      reads state
    {
      && state.CurrentWorld() == WorldAt(protocol, m, n, h)
      && state.undo == RecordsAt(protocol, m, n, h)
    }

    /** The chain index is consistent and the database is that of the canonical tip. */
    ghost predicate Valid()
      reads this, state
    {
      && CollisionFree(protocol) && NormalGenesis(protocol)
      && Consistent(protocol, View())
      && IsTotal(blocks, difficulty)
      && Synced(blocks, |canonical| - 1, canonical[|canonical| - 1])
    }

    constructor (protocol: Protocol, state: InMemoryState, genesis: Block)
      requires CollisionFree(protocol) && NormalGenesis(protocol) && genesis.number == 0
      requires state.CurrentWorld() == protocol.genesis && state.undo == map[]
      ensures Valid() && this.protocol == protocol && this.state == state
      ensures View() == GenesisState(protocol, genesis)
    {
      this.protocol, this.state := protocol, state;
      blocks := map[(0, protocol.hash(genesis)) := genesis];
      difficulty := map[(0, protocol.hash(genesis)) := genesis.difficulty];
      canonical := [protocol.hash(genesis)];
      bad := map[];
      GenesisIsConsistent(protocol, genesis);
    }

    /** Undoes the blocks above the ancestor, newest first, on the path to (tip, h). The
        records are then those of the ancestor, and so is the world exactly when every first
        mention on the path is right. */
    method UnwindLastChanges(ancestor: nat, tip: nat, ghost m: Store, ghost h: Hash)
      requires NormalGenesis(protocol) && WellLinked(protocol, m) && (tip, h) in m && ancestor <= tip
      requires AllExecuteOn(protocol, m, tip, h, ancestor) && Synced(m, tip, h)
      modifies state
      ensures state.undo == RecordsAt(protocol, m, ancestor, PathAt(protocol, m, tip, h, ancestor))
      ensures state.CurrentWorld() == Undone(WorldAt(protocol, m, tip, h), RecordsOn(protocol, m, tip, h, ancestor))
      ensures Synced(m, ancestor, PathAt(protocol, m, tip, h, ancestor)) <==> Unwinds(protocol, m, tip, h, ancestor)
    {
      hide WellLinked, NormalGenesis, ExecutesAt, WorldAt, RecordsAt, Restore, AllExecuteOn, PathAt, Unwinds, RecordsOn,
           Undone;
      ghost var all := RecordsOn(protocol, m, tip, h, ancestor);
      ghost var k := h;
      PathBelow(protocol, m, tip, h, tip);
      var n := tip;
      while n > ancestor
        invariant ancestor <= n <= tip && (n, k) in m && k == PathAt(protocol, m, tip, h, n)
        invariant AllExecuteOn(protocol, m, n, k, ancestor)
        invariant state.undo == RecordsAt(protocol, m, n, k)
        invariant Undone(state.CurrentWorld(), RecordsOn(protocol, m, n, k, ancestor)) ==
                  Undone(WorldAt(protocol, m, tip, h), all)
      {
        LastOnLeg(protocol, m, n, k, ancestor);
        StepDown(protocol, m, tip, h, n);
        UndoNewest(protocol, m, n, k, ancestor, state.CurrentWorld());
        UnwindOneIff(protocol, m, n, k);
        state.UnwindStateChanges(n);
        k := m[(n, k)].parentHash;
        n := n - 1;
      }
      UndoNothing(protocol, m, ancestor, k, state.CurrentWorld());
      UnwindPathIff(protocol, m, tip, h, ancestor);
    }

    /** Executes a block on its parent's state. A block that is found to have the wrong root
        is unwound, which brings the state back exactly when it named the values it found. */
    method ExecuteBlock(b: Block, checkRoot: bool, ghost m: Store) returns (r: Option<ValidationError>)
      requires NormalGenesis(protocol) && b.number > 0
      requires (b.number, protocol.hash(b)) in m && m[(b.number, protocol.hash(b))] == b
      requires Synced(m, b.number - 1, b.parentHash)
      modifies state
      ensures r == Outcome(protocol, WorldAt(protocol, m, b.number - 1, b.parentHash), b, checkRoot)
      ensures r.None? <==> PassesAt(protocol, m, b.number, protocol.hash(b), checkRoot)
      ensures r.Some? ==> FailsAt(protocol, m, b.number, protocol.hash(b), checkRoot, r.value)
      ensures r.None? ==>
                ExecutesAt(protocol, m, b.number, protocol.hash(b)) && Synced(m, b.number, protocol.hash(b))
      ensures r.Some? ==>
                (Synced(m, b.number - 1, b.parentHash) <==> FaithfulIfExecuted(protocol, m, b.number, protocol.hash(b)))
    {
      hide Restore, Commit, RecordAfter, Faithful;
      OutcomeTells(protocol, m, b.number, protocol.hash(b), checkRoot);
      RecordsBelow(protocol, m, b.number - 1, b.parentHash);
      match protocol.execute(World(state.accounts, state.storage), b) {
        case Failed(e) =>
          r := Some(e);
        case Executed(cs) =>
          assert ExecutesAt(protocol, m, b.number, protocol.hash(b));
          state.WriteToDb(b.number, cs);
          assert Synced(m, b.number, protocol.hash(b));
          if checkRoot {
            var root := protocol.stateRoot(World(state.accounts, state.storage));
            if root != b.stateRoot {
              UnwindOneIff(protocol, m, b.number, protocol.hash(b));
              state.UnwindStateChanges(b.number);
              return Some(WrongStateRoot(b.stateRoot, root));
            }
          }
          r := None;
      }
    }

    /** Executes the canonical blocks above the ancestor again; none of them can fail. */
    method ReExecuteCanonicalChain(ancestor: nat, tip: nat)
      requires NormalGenesis(protocol) && Consistent(protocol, View()) && ancestor <= tip == |canonical| - 1
      requires Synced(blocks, ancestor, canonical[ancestor])
      modifies state
      ensures Synced(blocks, tip, canonical[tip])
    {
      hide WellLinked, WorldAt, RecordsAt, Heaviest, Outcome, TotalDifficulty, Path, FaithfulIfExecuted;
      var n := ancestor;
      while n < tip
        invariant ancestor <= n <= tip
        invariant Synced(blocks, n, canonical[n])
      {
        n := n + 1;
        StepDown(protocol, blocks, tip, canonical[tip], n);
        var hash := canonical[n];
        var block := blocks[(n, hash)];
        assert ExecutesAt(protocol, blocks, n, hash);
        var r := ExecuteBlock(block, false, blocks);
        UncheckedOutcome(protocol, WorldAt(protocol, blocks, n - 1, block.parentHash), block);
        assert r.None?;
      }
    }

    /** The stored blocks above the ancestor on the path to (number, hash), in order. */
    method IntermediateChain(number: nat, hash: Hash, ancestor: nat) returns (chain: seq<Block>)
      requires WellLinked(protocol, blocks) && (number, hash) in blocks && ancestor <= number
      ensures IsChain(protocol, blocks, number, hash, ancestor, chain)
    {
      hide WellLinked, Path;
      PathShape(protocol, blocks, number, hash, number);
      chain := [];
      var n, h := number, hash;
      while n > ancestor
        invariant ancestor <= n <= number
        invariant h == PathAt(protocol, blocks, number, hash, n)
        invariant IsChain(protocol, blocks, number, hash, n, chain)
      {
        StepDown(protocol, blocks, number, hash, n);
        var block := blocks[(n, h)];
        chain := [block] + chain;
        h := block.parentHash;
        n := n - 1;
      }
    }

    /** Executes a side chain until its end or its first failure. */
    method ExecuteChain(
      chain: seq<Block>, ancestor: nat, checkRoot: bool, ghost m: Store, ghost top: nat, ghost h: Hash)
      returns (r: Option<ValidationError>, executed: nat)
      requires NormalGenesis(protocol) && WellLinked(protocol, m) && (top, h) in m && ancestor <= top
      requires IsChain(protocol, m, top, h, ancestor, chain)
      requires FirstFailure(protocol, m, top, h, ancestor, checkRoot).Some? ==>
                 FaithfulWhereExecuted(protocol, m, top, h, ancestor)
      requires Synced(m, ancestor, PathAt(protocol, m, top, h, ancestor))
      modifies state
      ensures r == FirstFailure(protocol, m, top, h, ancestor, checkRoot)
      ensures ancestor + executed <= top && (r.None? ==> ancestor + executed == top)
      ensures Synced(m, ancestor + executed, PathAt(protocol, m, top, h, ancestor + executed))
      ensures forall i | ancestor < i <= ancestor + executed ::
                ExecutesAt(protocol, m, i, PathAt(protocol, m, top, h, i))
    {
      hide WellLinked, WorldAt, RecordsAt, Path, ExecutesAt, Outcome, PathAt, FaithfulIfExecuted;
      executed, r := 0, None;
      while executed < |chain|
        invariant executed <= |chain| && r.None?
        invariant FirstFailure(protocol, m, ancestor + executed, PathAt(protocol, m, top, h, ancestor + executed),
                               ancestor, checkRoot).None?
        invariant Synced(m, ancestor + executed, PathAt(protocol, m, top, h, ancestor + executed))
        invariant forall i | ancestor < i <= ancestor + executed ::
                    ExecutesAt(protocol, m, i, PathAt(protocol, m, top, h, i))
      {
        ghost var n := ancestor + executed + 1;
        StepDown(protocol, m, top, h, n);
        assert chain[executed] == BlockAt(protocol, m, top, h, n);
        r := ExecuteBlock(chain[executed], checkRoot, m);
        assert r == FirstFailure(protocol, m, n, PathAt(protocol, m, top, h, n), ancestor, checkRoot);
        if r.Some? {
          EarlyFailureIsFirst(protocol, m, top, h, ancestor, checkRoot, n);
          assert FaithfulIfExecuted(protocol, m, n, PathAt(protocol, m, top, h, n));
          return;
        }
        executed := executed + 1;
      }
      LastOnPath(protocol, m, top, h);
    }

    /** Unwinds the executed part of a side chain, the path to (reached, h), and brings the
        canonical chain back. */
    method RollBack(ancestor: nat, reached: nat, tip: nat, ghost m: Store, ghost h: Hash)
      requires NormalGenesis(protocol) && Consistent(protocol, View()) && ancestor <= tip == |canonical| - 1
      requires WellLinked(protocol, m) && Extends(blocks, m) && (reached, h) in m && ancestor <= reached
      requires PathAt(protocol, m, reached, h, ancestor) == canonical[ancestor]
      requires Synced(m, reached, h) && AllExecuteOn(protocol, m, reached, h, ancestor)
      requires Unwinds(protocol, m, reached, h, ancestor)
      modifies state
      ensures Synced(blocks, tip, canonical[tip])
    {
      hide WellLinked, NormalGenesis, Consistent, WorldAt, RecordsAt, Path, PathAt, ExecutesAt, Extends, AllExecuteOn,
           Unwinds, RecordsOn, Undone;
      UnwindLastChanges(ancestor, reached, m, h);
      CanonicalIsStored(protocol, View(), ancestor);
      ExtensionKeeps(protocol, blocks, m, ancestor, canonical[ancestor]);
      ReExecuteCanonicalChain(ancestor, tip);
    }

    /** Files a block under its number and hash with its parent's total difficulty plus its own. */
    method StoreBlock(b: Block, hash: Hash)
      requires CollisionFree(protocol) && Consistent(protocol, View()) && IsTotal(blocks, difficulty)
      requires hash == protocol.hash(b) && b.number > 0 && (b.number - 1, b.parentHash) in blocks
      modifies this`blocks, this`difficulty
      ensures blocks == old(Extended(protocol, View(), b))
      ensures IsTotal(blocks, difficulty)
    {
      hide Consistent, CollisionFree, WellLinked, IsTotal, TotalDifficulty, Extends, OneGenesis, AllExecute;
      ConsistentIsLinked(protocol, View());
      ExtendedIsLinked(protocol, View(), b);
      TotalOfOneMore(protocol, blocks, blocks[(b.number, hash) := b], difficulty, b, hash);
      assert difficulty.Keys == blocks.Keys by { TotalKeys(blocks, difficulty); }
      blocks := blocks[(b.number, hash) := b];
      var d := difficulty[(b.number - 1, b.parentHash)] + b.difficulty;
      difficulty := difficulty[(b.number, hash) := d];
    }

    method DecanonizeBlock(number: nat)
      modifies this`canonical
      ensures canonical == if number < |old(canonical)| then old(canonical)[..number] else old(canonical)
    {
      if number < |canonical| {
        canonical := canonical[..number];
      }
    }

    method CanonizeBlock(number: nat, hash: Hash)
      modifies this`canonical
      ensures number < |old(canonical)| ==> canonical == old(canonical)[number := hash]
      ensures number == |old(canonical)| ==> canonical == old(canonical) + [hash]
    {
      while |canonical| <= number
        invariant |canonical| >= |old(canonical)| && old(canonical) == canonical[..|old(canonical)|]
        invariant |canonical| <= number + 1 || canonical == old(canonical)
        decreases number + 1 - |canonical|
      {
        canonical := canonical + [0];
      }
      canonical := canonical[number := hash];
    }

    /** Truncates the canonical chain to the ancestor and appends the side chain. */
    method Adopt(chain: seq<Block>, ancestor: nat, tip: nat, ghost m: Store, ghost top: nat, ghost h: Hash)
      requires WellLinked(protocol, m) && (top, h) in m && ancestor <= top && ancestor <= tip == |canonical| - 1
      requires IsChain(protocol, m, top, h, ancestor, chain) && |Path(m, top, h)| == top + 1
      requires canonical[..ancestor + 1] == Path(m, top, h)[..ancestor + 1]
      modifies this`canonical
      ensures canonical == Path(m, top, h)
    {
      hide WellLinked, Path;
      ghost var path := Path(m, top, h);
      var n := tip;
      while n > ancestor
        invariant ancestor <= n <= tip
        invariant canonical == old(canonical)[..n + 1]
      {
        DecanonizeBlock(n);
        n := n - 1;
      }
      var k := 0;
      while k < |chain|
        invariant k <= |chain|
        invariant canonical == path[..ancestor + 1 + k]
      {
        StepDown(protocol, m, top, h, ancestor + 1 + k);
        assert chain[k] == BlockAt(protocol, m, top, h, ancestor + 1 + k);
        CanonizeBlock(chain[k].number, protocol.hash(chain[k]));
        k := k + 1;
      }
    }

    /** The database is that of number reached on the path to (n, h), everything above the
        ancestor executed, and if the rest failed it can be unwound. */
    ghost predicate Halfway(m: Store, n: nat, h: Hash, ancestor: nat, reached: nat, failed: bool)
      reads state
    {
      && WellLinked(protocol, m) && (n, h) in m && ancestor <= reached <= n
      && var k := PathAt(protocol, m, n, h, reached);
         && (reached, k) in m && PathAt(protocol, m, reached, k, ancestor) == PathAt(protocol, m, n, h, ancestor)
         && Synced(m, reached, k) && AllExecuteOn(protocol, m, reached, k, ancestor)
         && (failed ==> Unwinds(protocol, m, reached, k, ancestor))
    }

    lemma HalfwayThere(m: Store, n: nat, h: Hash, ancestor: nat, reached: nat, failed: bool)
      requires WellLinked(protocol, m) && (n, h) in m && ancestor <= reached <= n
      requires forall i | ancestor < i <= reached :: ExecutesAt(protocol, m, i, PathAt(protocol, m, n, h, i))
      requires Synced(m, reached, PathAt(protocol, m, n, h, reached))
      requires failed ==> FaithfulWhereExecuted(protocol, m, n, h, ancestor)
      ensures Halfway(m, n, h, ancestor, reached, failed)
    {
      hide WellLinked, Path, PathAt, ExecutesAt, AllExecuteOn, Unwinds, FaithfulWhereExecuted, Synced;
      PathInLegs(protocol, m, n, h, reached, ancestor);
      ExecuteOnLeg(protocol, m, n, h, reached, ancestor);
      if failed {
        LegUnwinds(protocol, m, n, h, reached, ancestor);
      }
    }

    /** Unwinds to the canonical ancestor of a new block and executes the side chain that
        ends in it, as far as it goes. */
    method RunSideChain(b: Block, hash: Hash, checkRoot: bool)
      returns (r: Option<ValidationError>, ancestor: nat, chain: seq<Block>, executed: nat)
      requires Valid() && hash == protocol.hash(b) && !IsCanonical(protocol, View(), b)
      requires b.number > 0 && (b.number - 1, b.parentHash) in blocks
      requires Reversible(protocol, View(), b, checkRoot)
      modifies state
      ensures r == Verdict(protocol, View(), b, checkRoot)
      ensures IsAncestor(protocol, View(), b, ancestor)
      ensures LeavesAt(protocol, View(), b, ancestor)
      ensures IsChain(protocol, Extended(protocol, View(), b), b.number, hash, ancestor, chain)
      ensures Halfway(Extended(protocol, View(), b), b.number, hash, ancestor, ancestor + executed, r.Some?)
      ensures r.None? ==> ancestor + executed == b.number
    {
      hide WellLinked, NormalGenesis, Consistent, WorldAt, RecordsAt, Path, PathAt, ExecutesAt, Extends, OneGenesis,
           AllExecute, CollisionFree, IsTotal, TotalDifficulty, IsChain, CanonicalAncestor, FirstFailure, Unwinds,
           FaithfulWhereExecuted, AllExecuteOn, RecordsOn, Undone, Halfway;
      ancestor := Descend(b, hash, checkRoot);
      ghost var m := Extended(protocol, View(), b);
      ConsistentIsLinked(protocol, View());
      chain := IntermediateChain(b.number - 1, b.parentHash, ancestor);
      chain := chain + [b];
      ChainWithNewBlock(protocol, View(), b, ancestor, chain);
      r, executed := ExecuteChain(chain, ancestor, checkRoot, m, b.number, hash);
      HalfwayThere(m, b.number, hash, ancestor, ancestor + executed, r.Some?);
    }

    /** Finds the canonical ancestor of a new block and unwinds to it. */
    method Descend(b: Block, hash: Hash, ghost checkRoot: bool) returns (ancestor: nat)
      requires Valid() && hash == protocol.hash(b) && !IsCanonical(protocol, View(), b)
      requires b.number > 0 && (b.number - 1, b.parentHash) in blocks
      requires Reversible(protocol, View(), b, checkRoot)
      modifies state
      ensures IsAncestor(protocol, View(), b, ancestor) && LeavesAt(protocol, View(), b, ancestor)
      ensures var m := Extended(protocol, View(), b);
              Synced(m, ancestor, PathAt(protocol, m, b.number, hash, ancestor))
    {
      hide WellLinked, NormalGenesis, Consistent, WorldAt, RecordsAt, Path, PathAt, ExecutesAt, Extends, OneGenesis,
           AllExecute, CollisionFree, IsTotal, TotalDifficulty, CanonicalAncestor, Unwinds, FaithfulWhereExecuted,
           AllExecuteOn, RecordsOn, Undone, Verdict;
      ghost var s := View();
      ghost var m := Extended(protocol, s, b);
      ExtendedIsLinked(protocol, s, b);
      ConsistentIsLinked(protocol, s);
      ancestor := CanonicalAncestor(protocol, blocks, canonical, b, hash);
      AncestorIgnoresNewBlocks(protocol, blocks, m, canonical, b, hash);
      MeetingPoint(protocol, s, b, ancestor);
      AllOnPathExecute(protocol, s, ancestor);
      UnwindLastChanges(ancestor, |canonical| - 1, blocks, canonical[|canonical| - 1]);
    }

    /** Executes the side chain that ends in a new block, then adopts it, keeps it aside,
        or rejects it. */
    method TryBlock(b: Block, hash: Hash, checkRoot: bool) returns (r: Option<ValidationError>)
      requires Valid() && hash == protocol.hash(b) && !IsCanonical(protocol, View(), b)
      requires b.number > 0 && (b.number - 1, b.parentHash) in blocks
      requires Reversible(protocol, View(), b, checkRoot)
      modifies this, state
      ensures Valid()
      ensures r == old(Verdict(protocol, View(), b, checkRoot))
      ensures View() == match r
                        case Some(e) => old(View()).(bad := old(bad)[hash := e])
                        case None => old(Stored(protocol, View(), b))
    {
      hide WellLinked, NormalGenesis, Consistent, WorldAt, RecordsAt, Path, PathAt, ExecutesAt, Extends, OneGenesis,
           AllExecute, CollisionFree, IsTotal, TotalDifficulty, IsChain, Verdict, Heaviest, AllExecuteOn, Unwinds,
           CanonicalAncestor, FaithfulWhereExecuted, Reversible, IsAncestor, Halfway, LeavesAt, TipDifficulty;
      ghost var s := View();
      ghost var m := Extended(protocol, s, b);
      var ancestor, chain, executed;
      r, ancestor, chain, executed := RunSideChain(b, hash, checkRoot);
      match r {
        case Some(e) =>
          Reject(b, hash, e, ancestor, executed);
        case None =>
          StoredIsConsistent(protocol, s, b, checkRoot);
          AtTheTop(m, b.number, hash, ancestor);
          AdoptedOrUnwinds(protocol, s, b, ancestor, checkRoot);
          Settle(b, hash, ancestor, chain);
      }
    }

    /** Brings the canonical chain's state back and remembers the block as bad. */
    method Reject(b: Block, hash: Hash, e: ValidationError, ancestor: nat, executed: nat)
      requires CollisionFree(protocol) && NormalGenesis(protocol) && Consistent(protocol, View())
      requires IsTotal(blocks, difficulty)
      requires hash == protocol.hash(b) && b.number > 0 && (b.number - 1, b.parentHash) in blocks
      requires LeavesAt(protocol, View(), b, ancestor)
      requires Halfway(Extended(protocol, View(), b), b.number, hash, ancestor, ancestor + executed, true)
      modifies this, state
      ensures Valid() && View() == old(View()).(bad := old(bad)[hash := e])
    {
      hide WellLinked, NormalGenesis, Consistent, WorldAt, RecordsAt, Path, PathAt, ExecutesAt, Extends, OneGenesis,
           AllExecute, CollisionFree, IsTotal, TotalDifficulty, Heaviest, AllExecuteOn, Unwinds;
      ghost var s := View();
      ghost var m := Extended(protocol, s, b);
      ConsistentIsLinked(protocol, s);
      ExtendedIsLinked(protocol, s, b);
      var reached, tip := ancestor + executed, |canonical| - 1;
      RollBack(ancestor, reached, tip, m, PathAt(protocol, m, b.number, hash, reached));
      bad := bad[hash := e];
      RememberBad(protocol, s, bad);
    }

    lemma AtTheTop(m: Store, n: nat, h: Hash, ancestor: nat)
      requires Halfway(m, n, h, ancestor, n, false)
      ensures WellLinked(protocol, m) && (n, h) in m && Synced(m, n, h) && AllExecuteOn(protocol, m, n, h, ancestor)
    {
      hide WellLinked, AllExecuteOn, Synced, Path;
      LastOnPath(protocol, m, n, h);
    }

    /** Stores an executed block and moves the canonical chain to it if it is heavier than
        the current tip; otherwise brings the canonical chain's state back. */
    method Settle(b: Block, hash: Hash, ancestor: nat, chain: seq<Block>)
      requires CollisionFree(protocol) && NormalGenesis(protocol) && Consistent(protocol, View())
      requires IsTotal(blocks, difficulty) && Consistent(protocol, Stored(protocol, View(), b))
      requires hash == protocol.hash(b) && b.number > 0 && (b.number - 1, b.parentHash) in blocks
      requires LeavesAt(protocol, View(), b, ancestor)
      requires IsChain(protocol, Extended(protocol, View(), b), b.number, hash, ancestor, chain)
      requires var m := Extended(protocol, View(), b);
               && Synced(m, b.number, hash) && AllExecuteOn(protocol, m, b.number, hash, ancestor)
               && (|| TotalDifficulty(m, b.number, hash) > TipDifficulty(View())
                   || Unwinds(protocol, m, b.number, hash, ancestor))
      modifies this, state
      ensures Valid()
      ensures View() == old(Stored(protocol, View(), b))
    {
      hide WellLinked, NormalGenesis, Consistent, WorldAt, RecordsAt, Path, PathAt, ExecutesAt, Extends, OneGenesis,
           AllExecute, CollisionFree, IsTotal, TotalDifficulty, IsChain, Heaviest, AllExecuteOn, Unwinds;
      ghost var s := View();
      ghost var m := Extended(protocol, s, b);
      ConsistentIsLinked(protocol, s);
      ExtendedIsLinked(protocol, s, b);
      var tip := |canonical| - 1;
      StoreBlock(b, hash);
      TipKeepsDifficulty(protocol, s, m);
      TotalAt(blocks, difficulty, tip, canonical[tip]);
      TotalAt(blocks, difficulty, b.number, hash);
      if difficulty[(b.number, hash)] > difficulty[(tip, canonical[tip])] {
        Adopt(chain, ancestor, tip, m, b.number, hash);
        TipOfPath(protocol, m, b.number, hash);
      } else {
        ExtendsItself(m);
        RollBack(ancestor, b.number, tip, m, hash);
      }
    }

    /** What this insertion unwinds can be unwound. */
    ghost predicate Undoable(b: Block, engineError: Option<ValidationError>, checkRoot: bool)
      reads this, state
      requires Valid()
    {
      hide Consistent, CollisionFree, NormalGenesis, IsTotal, Synced;
      Tries(protocol, View(), b, engineError) ==> Reversible(protocol, View(), b, checkRoot)
    }

    /** The chain state and the answer that fork choice specifies for an insertion. */
    ghost function Specified(b: Block, engineError: Option<ValidationError>, checkRoot: bool):
      (ChainState, Option<ValidationError>)
      reads this, state
      requires Valid()
    {
      hide Consistent, CollisionFree, NormalGenesis, IsTotal, Synced;
      Insert(protocol, View(), Insertion(b, engineError, checkRoot))
    }

    /** Validates and inserts a block. The remaining engine checks, which read the clock and
        the ommers, are given by their outcome. Inserting a block that is already canonical is
        a programming error: the source then computes a negative chain length. What the
        insertion unwinds must be such that unwinding brings it back. */
    method InsertBlock(b: Block, engineError: Option<ValidationError>, checkRoot: bool)
      returns (r: Option<ValidationError>)
      requires Valid() && !IsCanonical(protocol, View(), b) && Undoable(b, engineError, checkRoot)
      modifies this, state
      ensures Valid()
      ensures (View(), r) == old(Specified(b, engineError, checkRoot))
    {
      hide Consistent, NormalGenesis, CollisionFree, Stored, Verdict, IsTotal, WorldAt, RecordsAt, Reversible;
      if b.number == 0 || (b.number - 1, b.parentHash) !in blocks {
        return Some(UnknownParent);
      }
      if engineError.Some? {
        return engineError;
      }
      var hash := protocol.hash(b);
      if hash in bad {
        return Some(bad[hash]);
      }
      r := TryBlock(b, hash, checkRoot);
    }
  }

  /** The insertion gets as far as executing the block. */
  ghost predicate Tries(p: Protocol, s: ChainState, b: Block, engineError: Option<ValidationError>) {
    b.number > 0 && (b.number - 1, b.parentHash) in s.blocks && engineError.None? && p.hash(b) !in s.bad
  }

  ghost predicate IsAncestor(p: Protocol, s: ChainState, b: Block, a: nat)
    requires CollisionFree(p) && Consistent(p, s) && b.number > 0 && (b.number - 1, b.parentHash) in s.blocks
  {
    ExtendedIsLinked(p, s, b);
    a == CanonicalAncestor(p, Extended(p, s, b), s.canonical, b, p.hash(b))
  }

  /** The side chain to b leaves the canonical chain just above number a. */
  ghost predicate LeavesAt(p: Protocol, s: ChainState, b: Block, a: nat) {
    var m := Extended(p, s, b);
    var path := Path(m, b.number, p.hash(b));
    && a < b.number && a < |s.canonical|
    && WellLinked(p, m) && (b.number, p.hash(b)) in m
    && |path| == b.number + 1
    && path[..a + 1] == s.canonical[..a + 1]
    && PathAt(p, m, b.number, p.hash(b), a) == s.canonical[a]
  }

  lemma MeetingPoint(p: Protocol, s: ChainState, b: Block, a: nat)
    requires CollisionFree(p) && Consistent(p, s) && !IsCanonical(p, s, b)
    requires b.number > 0 && (b.number - 1, b.parentHash) in s.blocks
    requires WellLinked(p, Extended(p, s, b)) && OneGenesis(Extended(p, s, b), s.canonical[0])
    requires a == CanonicalAncestor(p, Extended(p, s, b), s.canonical, b, p.hash(b))
    ensures LeavesAt(p, s, b, a)
    ensures PathAt(p, s.blocks, Tip(s), s.canonical[Tip(s)], a) == s.canonical[a]
    ensures var m := Extended(p, s, b);
            && WorldAt(p, m, a, s.canonical[a]) == WorldAt(p, s.blocks, a, s.canonical[a])
            && RecordsAt(p, m, a, s.canonical[a]) == RecordsAt(p, s.blocks, a, s.canonical[a])
  {
    hide WellLinked, CollisionFree, CanonicalAncestor, AllExecute, Heaviest, OneGenesis, WorldAt, RecordsAt, Path;
    var m, h := Extended(p, s, b), p.hash(b);
    ExtendedIsLinked(p, s, b);
    AncestorIsHighest(p, m, s.canonical, b.number, h);
    PathShape(p, m, b.number, h, a);
    PathShape(p, m, b.number, h, b.number);
    CanonicalIsStored(p, s, a);
    PathShape(p, s.blocks, Tip(s), s.canonical[Tip(s)], a);
    ExtensionKeeps(p, s.blocks, m, a, s.canonical[a]);
  }

  lemma AllOnPathExecute(p: Protocol, s: ChainState, a: nat)
    requires Consistent(p, s)
    ensures AllExecuteOn(p, s.blocks, Tip(s), s.canonical[Tip(s)], a)
  {
    hide WellLinked, Path;
    forall i | a < i <= Tip(s) ensures ExecutesAt(p, s.blocks, i, PathAt(p, s.blocks, Tip(s), s.canonical[Tip(s)], i)) {
      StepDown(p, s.blocks, Tip(s), s.canonical[Tip(s)], i);
    }
  }

  lemma LastOnLeg(p: Protocol, m: Store, n: nat, h: Hash, a: nat)
    requires WellLinked(p, m) && (n, h) in m && a < n && AllExecuteOn(p, m, n, h, a)
    ensures ExecutesAt(p, m, n, h)
  {
    hide WellLinked, ExecutesAt, Path;
    LastOnPath(p, m, n, h);
    assert ExecutesAt(p, m, n, PathAt(p, m, n, h, n));
  }

  lemma AdoptedOrUnwinds(p: Protocol, s: ChainState, b: Block, a: nat, checkRoot: bool)
    requires CollisionFree(p) && Consistent(p, s) && b.number > 0 && (b.number - 1, b.parentHash) in s.blocks
    requires Reversible(p, s, b, checkRoot) && Verdict(p, s, b, checkRoot).None? && IsAncestor(p, s, b, a)
    ensures var m := Extended(p, s, b);
            && WellLinked(p, m) && (b.number, p.hash(b)) in m && a <= b.number
            && (TotalDifficulty(m, b.number, p.hash(b)) > TipDifficulty(s) || Unwinds(p, m, b.number, p.hash(b), a))
  {
    hide CollisionFree, Consistent, Unwinds, TotalDifficulty, CanonicalAncestor, Verdict;
    ExtendedIsLinked(p, s, b);
  }

  lemma PathThroughParent(p: Protocol, m: Store, e: Store, n: nat, h: Hash, i: nat)
    requires WellLinked(p, m) && WellLinked(p, e) && Extends(m, e) && i < n && (n, h) in e
    requires (n - 1, e[(n, h)].parentHash) in m
    ensures BlockAt(p, e, n, h, i) == BlockAt(p, m, n - 1, e[(n, h)].parentHash, i)
  {
    hide WellLinked, WorldAt, RecordsAt, TotalDifficulty;
    var q := e[(n, h)].parentHash;
    ExtensionKeeps(p, m, e, n - 1, q);
    PathShape(p, e, n, h, i);
    PathShape(p, m, n - 1, q, i);
    assert Path(e, n, h) == Path(e, n - 1, q) + [h];
  }

  lemma ChainWithNewBlock(p: Protocol, s: ChainState, b: Block, a: nat, chain: seq<Block>)
    requires CollisionFree(p) && Consistent(p, s) && b.number > 0 && (b.number - 1, b.parentHash) in s.blocks
    requires a < b.number && |chain| > 0 && chain[|chain| - 1] == b
    requires IsChain(p, s.blocks, b.number - 1, b.parentHash, a, chain[..|chain| - 1])
    requires WellLinked(p, Extended(p, s, b))
    ensures IsChain(p, Extended(p, s, b), b.number, p.hash(b), a, chain)
  {
    hide WellLinked, CollisionFree, Consistent, BlockAt, Extends, AllExecute, OneGenesis;
    ConsistentIsLinked(p, s);
    ExtendedIsLinked(p, s, b);
    OneMoreBlock(p, s.blocks, Extended(p, s, b), b.number, p.hash(b), a, chain);
  }

  lemma OneMoreBlock(p: Protocol, m: Store, e: Store, n: nat, h: Hash, a: nat, chain: seq<Block>)
    requires WellLinked(p, m) && WellLinked(p, e) && Extends(m, e) && a < n && (n, h) in e
    requires (n - 1, e[(n, h)].parentHash) in m
    requires |chain| > 0 && chain[|chain| - 1] == e[(n, h)]
    requires IsChain(p, m, n - 1, e[(n, h)].parentHash, a, chain[..|chain| - 1])
    ensures IsChain(p, e, n, h, a, chain)
  {
    hide WellLinked, BlockAt, Extends;
    var q, below := e[(n, h)].parentHash, chain[..|chain| - 1];
    forall i | a < i <= n ensures chain[i - a - 1] == BlockAt(p, e, n, h, i) {
      if i < n {
        PathThroughParent(p, m, e, n, h, i);
        assert below[i - a - 1] == BlockAt(p, m, n - 1, q, i);
      } else {
        TopBlock(p, e, n, h);
      }
    }
  }

  lemma TopBlock(p: Protocol, m: Store, n: nat, h: Hash)
    requires WellLinked(p, m) && (n, h) in m
    ensures BlockAt(p, m, n, h, n) == m[(n, h)]
  {
    LastOnPath(p, m, n, h);
  }

  lemma TipKeepsDifficulty(p: Protocol, s: ChainState, m: Store)
    requires Consistent(p, s) && Extends(s.blocks, m)
    ensures TotalDifficulty(m, Tip(s), s.canonical[Tip(s)]) == TipDifficulty(s)
    ensures (Tip(s), s.canonical[Tip(s)]) in m
  {
    hide WellLinked, AllExecute, OneGenesis, Heaviest, Path;
    ExtensionKeeps(p, s.blocks, m, Tip(s), s.canonical[Tip(s)]);
  }

  lemma TipOfPath(p: Protocol, m: Store, n: nat, h: Hash)
    requires WellLinked(p, m) && (n, h) in m
    ensures |Path(m, n, h)| == n + 1 && Path(m, n, h)[n] == h
  {
    PathShape(p, m, n, h, n);
  }

  lemma ExtendsItself(m: Store)
    ensures Extends(m, m)
  {
  }

  lemma TotalAt(m: Store, d: map<BlockId, nat>, n: nat, h: Hash)
    requires IsTotal(m, d) && (n, h) in m
    ensures (n, h) in d && d[(n, h)] == TotalDifficulty(m, n, h)
  {
  }

  lemma TotalKeys(m: Store, d: map<BlockId, nat>)
    requires IsTotal(m, d)
    ensures d.Keys == m.Keys
  {
  }

  lemma LastOnPath(p: Protocol, m: Store, n: nat, h: Hash)
    requires WellLinked(p, m) && (n, h) in m
    ensures PathAt(p, m, n, h, n) == h
  {
    PathShape(p, m, n, h, n);
  }

  lemma CanonicalIsStored(p: Protocol, s: ChainState, i: nat)
    requires Consistent(p, s) && i < |s.canonical|
    ensures WellLinked(p, s.blocks) && (i, s.canonical[i]) in s.blocks
    ensures PathAt(p, s.blocks, Tip(s), s.canonical[Tip(s)], i) == s.canonical[i]
  {
    PathShape(p, s.blocks, Tip(s), s.canonical[Tip(s)], i);
  }

  lemma ConsistentIsLinked(p: Protocol, s: ChainState)
    requires Consistent(p, s)
    ensures |s.canonical| > 0 && (Tip(s), s.canonical[Tip(s)]) in s.blocks
    ensures WellLinked(p, s.blocks) && AllExecute(p, s.blocks) && OneGenesis(s.blocks, s.canonical[0])
  {
  }

  lemma UncheckedOutcome(p: Protocol, w: World, b: Block)
    ensures Outcome(p, w, b, false).None? <==> p.execute(w, b).Executed?
  {
  }
}
