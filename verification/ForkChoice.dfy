// Fork choice and reorganisation: inserting a block finds its highest canonical
// ancestor, unwinds the world state to it, executes the side chain, and then either
// adopts that chain or rolls it back and re-executes the old one.
module ForkChoice {
  import opened Wrappers
  import opened WorldState

  type Hash = int
  type BlockId = (nat, Hash)
  type Store = map<BlockId, Block>

  datatype Block = Block(number: nat, parentHash: Hash, difficulty: nat, stateRoot: Hash, body: nat)

  datatype ValidationError =
    | UnknownParent
    | WrongStateRoot(expected: Hash, got: Hash)
    | OtherError(code: nat)

  datatype Execution = Failed(error: ValidationError) | Executed(changes: ChangeSet)

  /** The parts of the client that fork choice only calls: header hashing, block execution
      (deterministic in the world state and the block) and the state root. */
  datatype Protocol = Protocol(
    hash: Block -> Hash,
    execute: (World, Block) -> Execution,
    stateRoot: World -> Hash,
    genesis: World)

  ghost predicate CollisionFree(p: Protocol) {
    forall b, c :: p.hash(b) == p.hash(c) ==> b == c
  }

  /** The genesis world is in normal form. */
  ghost predicate NormalGenesis(p: Protocol) {
    NoZeroSlots(p.genesis.storage)
  }

  // ----- The block store as a tree -----

  /** Blocks are filed under their own number and hash, and parents are present. */
  ghost predicate WellLinked(p: Protocol, m: Store) {
    forall id {:trigger m[id]} | id in m ::
      && m[id].number == id.0
      && p.hash(m[id]) == id.1
      && (id.0 > 0 ==> (id.0 - 1, m[id].parentHash) in m)
  }

  ghost predicate OneGenesis(m: Store, g: Hash) {
    forall id <- m :: id.0 == 0 ==> id.1 == g
  }

  ghost predicate Extends(m: Store, e: Store) {
    forall id <- m :: id in e && e[id] == m[id]
  }

  /** Hashes from genesis to the given block. */
  ghost function Path(m: Store, n: nat, h: Hash): seq<Hash> {
    if n == 0 || (n, h) !in m then [h] else Path(m, n - 1, m[(n, h)].parentHash) + [h]
  }

  ghost function TotalDifficulty(m: Store, n: nat, h: Hash): nat {
    if (n, h) !in m then 0
    else if n == 0 then m[(n, h)].difficulty
    else TotalDifficulty(m, n - 1, m[(n, h)].parentHash) + m[(n, h)].difficulty
  }

  /** No stored block has more total difficulty than d. */
  ghost predicate Heaviest(m: Store, d: nat) {
    forall n, h {:trigger TotalDifficulty(m, n, h)} :: (n, h) in m ==> TotalDifficulty(m, n, h) <= d
  }

  ghost function Next(p: Protocol, w: World, b: Block): World {
    match p.execute(w, b)
    case Executed(cs) => Commit(w, cs)
    case Failed(_) => w
  }

  ghost function NextRecord(p: Protocol, w: World, b: Block): UndoRecord {
    match p.execute(w, b)
    case Executed(cs) => RecordAfter(EMPTY_RECORD, w, cs)
    case Failed(_) => EMPTY_RECORD
  }

  /** The world obtained by executing the path to the given block in order from genesis. */
  ghost function WorldAt(p: Protocol, m: Store, n: nat, h: Hash): World {
    if n == 0 || (n, h) !in m then p.genesis
    else Next(p, WorldAt(p, m, n - 1, m[(n, h)].parentHash), m[(n, h)])
  }

  /** The undo records left behind by executing that path. */
  ghost function RecordsAt(p: Protocol, m: Store, n: nat, h: Hash): map<nat, UndoRecord> {
    if n == 0 || (n, h) !in m then map[]
    else
      var b := m[(n, h)];
      RecordsAt(p, m, n - 1, b.parentHash)[n := NextRecord(p, WorldAt(p, m, n - 1, b.parentHash), b)]
  }

  /** Every stored block above genesis executes on its parent's world. */
  ghost predicate AllExecute(p: Protocol, m: Store) {
    forall n, h {:trigger ExecutesAt(p, m, n, h)} :: n > 0 && (n, h) in m ==> ExecutesAt(p, m, n, h)
  }

  ghost predicate ExecutesAt(p: Protocol, m: Store, n: nat, h: Hash) {
    n > 0 && (n, h) in m && p.execute(WorldAt(p, m, n - 1, m[(n, h)].parentHash), m[(n, h)]).Executed?
  }

  lemma {:induction false} WorldHasNoZeroSlots(p: Protocol, m: Store, n: nat, h: Hash)
    requires NormalGenesis(p)
    ensures NoZeroSlots(WorldAt(p, m, n, h).storage)
  {
    if n > 0 && (n, h) in m {
      var w := WorldAt(p, m, n - 1, m[(n, h)].parentHash);
      WorldHasNoZeroSlots(p, m, n - 1, m[(n, h)].parentHash);
      match p.execute(w, m[(n, h)])
      case Executed(cs) => CommitKeepsNoZero(w, cs);
      case Failed(_) =>
    }
  }

  lemma {:induction false} PathShape(p: Protocol, m: Store, n: nat, h: Hash, i: nat)
    requires WellLinked(p, m) && (n, h) in m && i <= n
    ensures |Path(m, n, h)| == n + 1 && Path(m, n, h)[n] == h
    ensures (i, Path(m, n, h)[i]) in m
    ensures Path(m, i, Path(m, n, h)[i]) == Path(m, n, h)[..i + 1]
    ensures i > 0 ==> m[(i, Path(m, n, h)[i])].parentHash == Path(m, n, h)[i - 1]
  {
    if n > 0 {
      assert m[(n, h)].number == n;
      var q := m[(n, h)].parentHash;
      PathShape(p, m, n - 1, q, if i < n then i else n - 1);
      assert Path(m, n, h) == Path(m, n - 1, q) + [h];
      if i < n {
        assert Path(m, n, h)[..i + 1] == Path(m, n - 1, q)[..i + 1];
      } else {
        assert Path(m, n, h)[..n + 1] == Path(m, n, h);
      }
    }
  }

  /** Storing more blocks changes nothing about the blocks already stored. */
  lemma {:induction false} ExtensionKeeps(p: Protocol, m: Store, e: Store, n: nat, h: Hash)
    requires WellLinked(p, m) && (n, h) in m
    requires Extends(m, e)
    ensures Path(e, n, h) == Path(m, n, h)
    ensures WorldAt(p, e, n, h) == WorldAt(p, m, n, h)
    ensures RecordsAt(p, e, n, h) == RecordsAt(p, m, n, h)
    ensures TotalDifficulty(e, n, h) == TotalDifficulty(m, n, h)
  {
    assert (n, h) in e;
    if n > 0 {
      assert m[(n, h)].number == n;
      ExtensionKeeps(p, m, e, n - 1, m[(n, h)].parentHash);
    }
  }

  ghost function ChangesAt(p: Protocol, m: Store, n: nat, h: Hash): ChangeSet
    requires ExecutesAt(p, m, n, h)
  {
    p.execute(WorldAt(p, m, n - 1, m[(n, h)].parentHash), m[(n, h)]).changes
  }

  /** The block's changes name the values that its parent's world held. */
  ghost predicate FaithfulAt(p: Protocol, m: Store, n: nat, h: Hash) {
    ExecutesAt(p, m, n, h) && Faithful(WorldAt(p, m, n - 1, m[(n, h)].parentHash), ChangesAt(p, m, n, h))
  }

  /** Applying a block's undo record to its world gives its parent's world exactly when the
      block named the values it found. */
  lemma UnwindOneIff(p: Protocol, m: Store, n: nat, h: Hash)
    requires NormalGenesis(p) && ExecutesAt(p, m, n, h)
    ensures n in RecordsAt(p, m, n, h)
    ensures Restore(WorldAt(p, m, n, h), RecordsAt(p, m, n, h)[n]) == WorldAt(p, m, n - 1, m[(n, h)].parentHash)
       <==> FaithfulAt(p, m, n, h)
    ensures RecordsAt(p, m, n, h) - {n} == RecordsAt(p, m, n - 1, m[(n, h)].parentHash)
  {
    var q := m[(n, h)].parentHash;
    WorldHasNoZeroSlots(p, m, n - 1, q);
    UndoRestoresIff(WorldAt(p, m, n - 1, q), ChangesAt(p, m, n, h));
    RecordsBelow(p, m, n - 1, q);
    assert n !in RecordsAt(p, m, n - 1, q);
  }

  lemma {:induction false} RecordsBelow(p: Protocol, m: Store, n: nat, h: Hash)
    ensures forall i <- RecordsAt(p, m, n, h) :: 0 < i <= n
  {
    if n > 0 && (n, h) in m {
      RecordsBelow(p, m, n - 1, m[(n, h)].parentHash);
    }
  }

  // ----- What inserting a block means -----

  /** Block store, canonical chain by number, and remembered bad blocks. */
  datatype ChainState = ChainState(blocks: Store, canonical: seq<Hash>, bad: map<Hash, ValidationError>)

  ghost function Tip(s: ChainState): nat
    requires |s.canonical| > 0
  {
    |s.canonical| - 1
  }

  ghost function TipDifficulty(s: ChainState): nat
    requires |s.canonical| > 0
  {
    TotalDifficulty(s.blocks, Tip(s), s.canonical[Tip(s)])
  }

  /** The global invariant: a linked store with one genesis in which every block executes,
      and a canonical chain that is the gap-free path from genesis to a heaviest block. */
  ghost predicate Consistent(p: Protocol, s: ChainState) {
    && |s.canonical| > 0
    && WellLinked(p, s.blocks)
    && AllExecute(p, s.blocks)
    && (Tip(s), s.canonical[Tip(s)]) in s.blocks
    && s.canonical == Path(s.blocks, Tip(s), s.canonical[Tip(s)])
    && OneGenesis(s.blocks, s.canonical[0])
    && Heaviest(s.blocks, TipDifficulty(s))
  }

  /** The number of the first canonical block met on the way from block b to genesis. */
  function CanonicalAncestor(ghost p: Protocol, m: Store, canonical: seq<Hash>, b: Block, h: Hash): (a: nat)
    requires WellLinked(p, m) && |canonical| > 0 && OneGenesis(m, canonical[0])
    requires if b.number == 0 then h == canonical[0] else (b.number - 1, b.parentHash) in m
    ensures a <= b.number && a < |canonical|
    ensures a == b.number ==> canonical[a] == h
    decreases b.number
  {
    hide WellLinked, OneGenesis;
    if b.number < |canonical| && canonical[b.number] == h then b.number
    else
      Rooted(p, m, canonical[0], b.number - 1, b.parentHash);
      CanonicalAncestor(p, m, canonical, m[(b.number - 1, b.parentHash)], b.parentHash)
  }

  lemma Rooted(p: Protocol, m: Store, g: Hash, n: nat, h: Hash)
    requires WellLinked(p, m) && OneGenesis(m, g) && (n, h) in m
    ensures m[(n, h)].number == n
    ensures if n == 0 then h == g else (n - 1, m[(n, h)].parentHash) in m
  {
  }

  lemma Linked(p: Protocol, m: Store, n: nat, h: Hash)
    requires WellLinked(p, m) && (n, h) in m
    ensures m[(n, h)].number == n && p.hash(m[(n, h)]) == h
    ensures n > 0 ==> (n - 1, m[(n, h)].parentHash) in m
  {
  }

  lemma AncestorStep(p: Protocol, m: Store, canonical: seq<Hash>, n: nat, h: Hash)
    requires WellLinked(p, m) && |canonical| > 0 && OneGenesis(m, canonical[0]) && (n, h) in m
    ensures m[(n, h)].number == n
    ensures if n == 0 then h == canonical[0] else (n - 1, m[(n, h)].parentHash) in m
    ensures n < |canonical| && canonical[n] == h ==> CanonicalAncestor(p, m, canonical, m[(n, h)], h) == n
    ensures !(n < |canonical| && canonical[n] == h) ==>
              var q := m[(n, h)].parentHash;
              n > 0 && m[(n - 1, q)].number == n - 1
              && (if n - 1 == 0 then q == canonical[0] else (n - 2, m[(n - 1, q)].parentHash) in m)
              && CanonicalAncestor(p, m, canonical, m[(n, h)], h) ==
                 CanonicalAncestor(p, m, canonical, m[(n - 1, q)], q)
  {
    Linked(p, m, n, h);
    if n > 0 {
      Linked(p, m, n - 1, m[(n, h)].parentHash);
    }
  }

  /** The ancestor is canonical, and nothing above it on the path is. */
  lemma {:induction false} AncestorIsHighest(p: Protocol, m: Store, canonical: seq<Hash>, n: nat, h: Hash)
    requires WellLinked(p, m) && |canonical| > 0 && OneGenesis(m, canonical[0]) && (n, h) in m
    ensures m[(n, h)].number == n
    ensures if n == 0 then h == canonical[0] else (n - 1, m[(n, h)].parentHash) in m
    ensures var a := CanonicalAncestor(p, m, canonical, m[(n, h)], h);
            var path := Path(m, n, h);
            && |path| == n + 1
            && path[a] == canonical[a]
            && forall i :: a < i <= n ==> i >= |canonical| || path[i] != canonical[i]
  {
    hide WellLinked, CanonicalAncestor, OneGenesis;
    PathShape(p, m, n, h, n);
    AncestorStep(p, m, canonical, n, h);
    if !(n < |canonical| && canonical[n] == h) {
      var q := m[(n, h)].parentHash;
      AncestorIsHighest(p, m, canonical, n - 1, q);
      assert Path(m, n, h) == Path(m, n - 1, q) + [h];
    }
  }

  /** Executing one block, with or without the state root check. */
  ghost function Outcome(p: Protocol, w: World, b: Block, checkRoot: bool): Option<ValidationError> {
    match p.execute(w, b)
    case Failed(e) => Some(e)
    case Executed(cs) =>
      if checkRoot && p.stateRoot(Commit(w, cs)) != b.stateRoot
      then Some(WrongStateRoot(b.stateRoot, p.stateRoot(Commit(w, cs))))
      else None
  }

  /** The error of the first block above number a, on the path to (n, h), that fails. */
  ghost function FirstFailure(
    p: Protocol, m: Store, n: nat, h: Hash, a: nat, checkRoot: bool): Option<ValidationError>
  {
    if n <= a || (n, h) !in m then None
    else
      var b := m[(n, h)];
      var before := FirstFailure(p, m, n - 1, b.parentHash, a, checkRoot);
      if before.Some? then before else Outcome(p, WorldAt(p, m, n - 1, b.parentHash), b, checkRoot)
  }

  lemma {:induction false} EarlyFailureIsFirst(p: Protocol, m: Store, n: nat, h: Hash, a: nat, checkRoot: bool, i: nat)
    requires WellLinked(p, m) && (n, h) in m && a <= i <= n
    requires FirstFailure(p, m, i, PathAt(p, m, n, h, i), a, checkRoot).Some?
    ensures FirstFailure(p, m, n, h, a, checkRoot) == FirstFailure(p, m, i, PathAt(p, m, n, h, i), a, checkRoot)
  {
    if i < n {
      assert m[(n, h)].number == n;
      var q := m[(n, h)].parentHash;
      PathShape(p, m, n, h, i);
      PathShape(p, m, n - 1, q, i);
      assert Path(m, n, h) == Path(m, n - 1, q) + [h];
      assert PathAt(p, m, n, h, i) == PathAt(p, m, n - 1, q, i);
      EarlyFailureIsFirst(p, m, n - 1, q, a, checkRoot, i);
    } else {
      PathShape(p, m, n, h, n);
    }
  }

  ghost function PathAt(p: Protocol, m: Store, n: nat, h: Hash, i: nat): Hash
    requires WellLinked(p, m) && (n, h) in m && i <= n
  {
    PathShape(p, m, n, h, i);
    Path(m, n, h)[i]
  }

  /** One insertion: the block, what the remaining engine checks said about it,
      and whether state roots are checked. */
  datatype Insertion = Insertion(block: Block, engineError: Option<ValidationError>, checkRoot: bool)

  ghost predicate IsCanonical(p: Protocol, s: ChainState, b: Block) {
    b.number < |s.canonical| && s.canonical[b.number] == p.hash(b)
  }

  ghost function Extended(p: Protocol, s: ChainState, b: Block): Store {
    s.blocks[(b.number, p.hash(b)) := b]
  }

  lemma ExtendedIsLinked(p: Protocol, s: ChainState, b: Block)
    requires CollisionFree(p) && Consistent(p, s)
    requires b.number > 0 && (b.number - 1, b.parentHash) in s.blocks
    ensures WellLinked(p, Extended(p, s, b))
    ensures Extends(s.blocks, Extended(p, s, b))
    ensures OneGenesis(Extended(p, s, b), s.canonical[0])
  {
    LinkOneMore(p, s.blocks, b, s.canonical[0]);
  }

  lemma LinkOneMore(p: Protocol, m: Store, b: Block, g: Hash)
    requires CollisionFree(p) && WellLinked(p, m) && OneGenesis(m, g)
    requires b.number > 0 && (b.number - 1, b.parentHash) in m
    ensures var e := m[(b.number, p.hash(b)) := b];
            WellLinked(p, e) && Extends(m, e) && OneGenesis(e, g)
  {
    var id := (b.number, p.hash(b));
    var e := m[id := b];
    SameHashSameBlock(p, m, b);
    forall i | i in e
      ensures e[i].number == i.0 && p.hash(e[i]) == i.1 && (i.0 > 0 ==> (i.0 - 1, e[i].parentHash) in e)
    {
      if i != id {
        assert e[i] == m[i];
      }
    }
  }

  lemma SameHashSameBlock(p: Protocol, m: Store, b: Block)
    requires CollisionFree(p) && WellLinked(p, m)
    ensures (b.number, p.hash(b)) in m ==> m[(b.number, p.hash(b))] == b
  {
    if (b.number, p.hash(b)) in m {
      assert p.hash(m[(b.number, p.hash(b))]) == p.hash(b);
    }
  }

  /** Storing an executed block: the heavier chain wins and a tie keeps the incumbent. */
  ghost function Stored(p: Protocol, s: ChainState, b: Block): ChainState
    requires |s.canonical| > 0
  {
    var m, h := Extended(p, s, b), p.hash(b);
    if TotalDifficulty(m, b.number, h) > TipDifficulty(s)
    then ChainState(m, Path(m, b.number, h), s.bad)
    else ChainState(m, s.canonical, s.bad)
  }

  /** What executing the new block's side chain says about it. */
  ghost function Verdict(p: Protocol, s: ChainState, b: Block, checkRoot: bool): Option<ValidationError>
    requires CollisionFree(p) && Consistent(p, s)
    requires b.number > 0 && (b.number - 1, b.parentHash) in s.blocks
  {
    ExtendedIsLinked(p, s, b);
    var m := Extended(p, s, b);
    FirstFailure(p, m, b.number, p.hash(b), CanonicalAncestor(p, m, s.canonical, b, p.hash(b)), checkRoot)
  }

  /** Inserting a block. A failing block is remembered as bad and otherwise leaves no trace. */
  ghost function Insert(p: Protocol, s: ChainState, ev: Insertion): (ChainState, Option<ValidationError>)
    requires CollisionFree(p) && Consistent(p, s)
  {
    var b, h := ev.block, p.hash(ev.block);
    if b.number == 0 || (b.number - 1, b.parentHash) !in s.blocks then (s, Some(UnknownParent))
    else if ev.engineError.Some? then (s, ev.engineError)
    else if h in s.bad then (s, Some(s.bad[h]))
    else
      match Verdict(p, s, b, ev.checkRoot)
      case Some(e) => (s.(bad := s.bad[h := e]), Some(e))
      case None => (Stored(p, s, b), None)
  }

  lemma NoFailureExecutes(p: Protocol, m: Store, n: nat, h: Hash, a: nat, checkRoot: bool)
    requires a < n && (n, h) in m
    requires FirstFailure(p, m, n, h, a, checkRoot).None?
    ensures ExecutesAt(p, m, n, h)
  {
  }

  lemma AllExecuteExtended(p: Protocol, m: Store, e: Store, n: nat, h: Hash)
    requires WellLinked(p, m) && AllExecute(p, m)
    requires Extends(m, e)
    requires forall id <- e :: id in m || id == (n, h)
    requires ExecutesAt(p, e, n, h)
    ensures AllExecute(p, e)
  {
    forall i, k | i > 0 && (i, k) in e && (i, k) != (n, h)
      ensures ExecutesAt(p, e, i, k)
    {
      assert m[(i, k)].number == i;
      assert ExecutesAt(p, m, i, k);
      ExtensionKeeps(p, m, e, i - 1, m[(i, k)].parentHash);
    }
  }

  lemma HeaviestExtended(p: Protocol, m: Store, e: Store, n: nat, h: Hash, d: nat)
    requires WellLinked(p, m) && Extends(m, e) && Heaviest(m, d)
    requires forall id <- e :: id in m || id == (n, h)
    ensures Heaviest(e, if TotalDifficulty(e, n, h) > d then TotalDifficulty(e, n, h) else d)
  {
    forall i, k | (i, k) in e && (i, k) != (n, h) ensures TotalDifficulty(e, i, k) <= d {
      ExtensionKeeps(p, m, e, i, k);
    }
  }

  lemma KeepTip(p: Protocol, s: ChainState, t: ChainState)
    requires Consistent(p, s) && WellLinked(p, t.blocks) && AllExecute(p, t.blocks)
    requires Extends(s.blocks, t.blocks) && OneGenesis(t.blocks, s.canonical[0])
    requires t.canonical == s.canonical && Heaviest(t.blocks, TipDifficulty(s))
    ensures Consistent(p, t) && TipDifficulty(t) == TipDifficulty(s)
  {
    hide WellLinked, AllExecute, OneGenesis, Heaviest, TotalDifficulty, Path, WorldAt, RecordsAt;
    ExtensionKeeps(p, s.blocks, t.blocks, Tip(s), s.canonical[Tip(s)]);
  }

  lemma MoveTip(p: Protocol, g: Hash, t: ChainState, n: nat, h: Hash)
    requires WellLinked(p, t.blocks) && AllExecute(p, t.blocks) && OneGenesis(t.blocks, g)
    requires (n, h) in t.blocks && t.canonical == Path(t.blocks, n, h)
    requires Heaviest(t.blocks, TotalDifficulty(t.blocks, n, h))
    ensures Consistent(p, t) && TipDifficulty(t) == TotalDifficulty(t.blocks, n, h)
  {
    hide WellLinked, AllExecute, Heaviest, TotalDifficulty, Path;
    PathShape(p, t.blocks, n, h, 0);
  }

  /** A block whose whole side chain executes may be stored. */
  lemma AcceptedBlock(p: Protocol, s: ChainState, b: Block, checkRoot: bool)
    requires CollisionFree(p) && Consistent(p, s) && !IsCanonical(p, s, b)
    requires b.number > 0 && (b.number - 1, b.parentHash) in s.blocks
    requires Verdict(p, s, b, checkRoot).None?
    ensures var m := Extended(p, s, b);
            var d := TotalDifficulty(m, b.number, p.hash(b));
            && WellLinked(p, m) && AllExecute(p, m) && Extends(s.blocks, m) && OneGenesis(m, s.canonical[0])
            && Heaviest(m, if d > TipDifficulty(s) then d else TipDifficulty(s))
  {
    var m := Extended(p, s, b);
    ExtendedIsLinked(p, s, b);
    NoFailureExecutes(p, m, b.number, p.hash(b), CanonicalAncestor(p, m, s.canonical, b, p.hash(b)), checkRoot);
    AllExecuteExtended(p, s.blocks, m, b.number, p.hash(b));
    HeaviestExtended(p, s.blocks, m, b.number, p.hash(b), TipDifficulty(s));
  }

  lemma StoredIsConsistent(p: Protocol, s: ChainState, b: Block, checkRoot: bool)
    requires CollisionFree(p) && Consistent(p, s) && !IsCanonical(p, s, b)
    requires b.number > 0 && (b.number - 1, b.parentHash) in s.blocks
    requires Verdict(p, s, b, checkRoot).None?
    ensures var t := Stored(p, s, b);
            && Consistent(p, t)
            && TipDifficulty(t) >= TipDifficulty(s)
            && (t.canonical != s.canonical ==> TipDifficulty(t) > TipDifficulty(s))
            && Extends(s.blocks, t.blocks)
  {
    AcceptedBlock(p, s, b, checkRoot);
    if TotalDifficulty(Extended(p, s, b), b.number, p.hash(b)) > TipDifficulty(s) {
      MoveTip(p, s.canonical[0], Stored(p, s, b), b.number, p.hash(b));
    } else {
      KeepTip(p, s, Stored(p, s, b));
    }
  }

  lemma RememberBad(p: Protocol, s: ChainState, bad: map<Hash, ValidationError>)
    requires Consistent(p, s)
    ensures Consistent(p, s.(bad := bad)) && TipDifficulty(s.(bad := bad)) == TipDifficulty(s)
  {
  }

  lemma InsertRejects(p: Protocol, s: ChainState, ev: Insertion)
    requires CollisionFree(p) && Consistent(p, s)
    requires Insert(p, s, ev).1.Some?
    ensures Insert(p, s, ev).0 == s.(bad := Insert(p, s, ev).0.bad)
  {
    hide Consistent, Verdict, CollisionFree, Stored;
  }

  lemma InsertAccepts(p: Protocol, s: ChainState, ev: Insertion)
    requires CollisionFree(p) && Consistent(p, s)
    requires Insert(p, s, ev).1.None?
    ensures ev.block.number > 0 && (ev.block.number - 1, ev.block.parentHash) in s.blocks
    ensures Verdict(p, s, ev.block, ev.checkRoot).None?
    ensures Insert(p, s, ev).0 == Stored(p, s, ev.block)
  {
    hide Consistent, Verdict, CollisionFree, Stored;
  }

  /** Every outcome of an insertion restores the global invariant; the tip never gets
      lighter, and it changes only for a strictly heavier block. */
  lemma InsertKeepsConsistent(p: Protocol, s: ChainState, ev: Insertion)
    requires CollisionFree(p) && Consistent(p, s) && !IsCanonical(p, s, ev.block)
    ensures var (t, r) := Insert(p, s, ev);
            && Consistent(p, t)
            && TipDifficulty(t) >= TipDifficulty(s)
            && (t.canonical != s.canonical ==> TipDifficulty(t) > TipDifficulty(s))
            && (r.Some? ==> t.blocks == s.blocks && t.canonical == s.canonical)
            && Extends(s.blocks, t.blocks)
  {
    hide Consistent, TotalDifficulty, Path, Verdict, CollisionFree, WellLinked;
    if Insert(p, s, ev).1.None? {
      InsertAccepts(p, s, ev);
      StoredIsConsistent(p, s, ev.block, ev.checkRoot);
    } else {
      InsertRejects(p, s, ev);
      RememberBad(p, s, Insert(p, s, ev).0.bad);
    }
  }

  /** The block at this place of the store executes on its parent's world and, if roots are
      looked at, its header's root is that of the world it leads to. */
  ghost predicate PassesAt(p: Protocol, m: Store, i: nat, h: Hash, checkRoot: bool) {
    ExecutesAt(p, m, i, h) && (checkRoot ==> p.stateRoot(WorldAt(p, m, i, h)) == m[(i, h)].stateRoot)
  }

  /** The block at this place does not execute, with this error; or it executes, roots are
      looked at, and the error gives the header's root and the different one reached. */
  ghost predicate FailsAt(p: Protocol, m: Store, i: nat, h: Hash, checkRoot: bool, e: ValidationError) {
    && i > 0 && (i, h) in m
    && match p.execute(WorldAt(p, m, i - 1, m[(i, h)].parentHash), m[(i, h)])
       case Failed(f) => e == f
       case Executed(_) =>
         && checkRoot && p.stateRoot(WorldAt(p, m, i, h)) != m[(i, h)].stateRoot
         && e == WrongStateRoot(m[(i, h)].stateRoot, p.stateRoot(WorldAt(p, m, i, h)))
  }

  /** Executing a block says nothing exactly when the block passes, and otherwise how it fails. */
  lemma OutcomeTells(p: Protocol, m: Store, i: nat, h: Hash, checkRoot: bool)
    requires i > 0 && (i, h) in m
    ensures var r := Outcome(p, WorldAt(p, m, i - 1, m[(i, h)].parentHash), m[(i, h)], checkRoot);
            && (r.None? <==> PassesAt(p, m, i, h, checkRoot))
            && (r.Some? ==> FailsAt(p, m, i, h, checkRoot, r.value))
  {
  }

  /** Every block above number a on the path to (n, h) passes. */
  ghost predicate PathPasses(p: Protocol, m: Store, n: nat, h: Hash, a: nat, checkRoot: bool)
    requires WellLinked(p, m) && (n, h) in m
  {
    forall i | a < i <= n :: PassesAt(p, m, i, PathAt(p, m, n, h, i), checkRoot)
  }

  lemma PathBelow(p: Protocol, m: Store, n: nat, h: Hash, i: nat)
    requires WellLinked(p, m) && (n, h) in m && i <= n
    ensures PathAt(p, m, n, h, n) == h
    ensures i < n ==>
              var q := m[(n, h)].parentHash;
              (n - 1, q) in m && PathAt(p, m, n, h, i) == PathAt(p, m, n - 1, q, i)
  {
    PathShape(p, m, n, h, n);
    PathShape(p, m, n, h, i);
    if i < n {
      assert m[(n, h)].number == n;
      PathShape(p, m, n - 1, m[(n, h)].parentHash, i);
      assert Path(m, n, h) == Path(m, n - 1, m[(n, h)].parentHash) + [h];
    }
  }

  /** A side chain has no failure exactly when each of its blocks passes. */
  lemma {:induction false} NoFailureIff(p: Protocol, m: Store, n: nat, h: Hash, a: nat, checkRoot: bool)
    requires WellLinked(p, m) && (n, h) in m && a <= n
    ensures FirstFailure(p, m, n, h, a, checkRoot).None? <==> PathPasses(p, m, n, h, a, checkRoot)
  {
    hide Path, WorldAt, Outcome, PassesAt;
    if a < n {
      PathBelow(p, m, n, h, a);
      var q := m[(n, h)].parentHash;
      NoFailureIff(p, m, n - 1, q, a, checkRoot);
      forall i | a < i < n ensures PathAt(p, m, n, h, i) == PathAt(p, m, n - 1, q, i) {
        PathBelow(p, m, n, h, i);
      }
      OutcomeTells(p, m, n, h, checkRoot);
      if PathPasses(p, m, n, h, a, checkRoot) {
        assert PassesAt(p, m, n, PathAt(p, m, n, h, n), checkRoot);
        var k := n - 1;
        forall i | a < i <= k ensures PassesAt(p, m, i, PathAt(p, m, k, q, i), checkRoot) {
          assert PassesAt(p, m, i, PathAt(p, m, n, h, i), checkRoot);
        }
      }
    }
  }

  /** Block i of the path is the first above number a that fails, and this is how. */
  ghost predicate FirstFailsAt(
    p: Protocol, m: Store, n: nat, h: Hash, a: nat, checkRoot: bool, i: nat, e: ValidationError)
    requires WellLinked(p, m) && (n, h) in m
  {
    && a < i <= n && FailsAt(p, m, i, PathAt(p, m, n, h, i), checkRoot, e)
    && forall j | a < j < i :: PassesAt(p, m, j, PathAt(p, m, n, h, j), checkRoot)
  }

  /** The error of a side chain is that of the first of its blocks that fails. */
  lemma {:induction false} FailureIsFirst(p: Protocol, m: Store, n: nat, h: Hash, a: nat, checkRoot: bool)
    returns (i: nat)
    requires WellLinked(p, m) && (n, h) in m && FirstFailure(p, m, n, h, a, checkRoot).Some?
    ensures FirstFailsAt(p, m, n, h, a, checkRoot, i, FirstFailure(p, m, n, h, a, checkRoot).value)
  {
    hide Path, WorldAt, Outcome, PassesAt, FailsAt, PathAt;
    PathBelow(p, m, n, h, a);
    var q := m[(n, h)].parentHash;
    var k := n - 1;
    forall j: nat | j < n ensures PathAt(p, m, n, h, j) == PathAt(p, m, k, q, j) {
      PathBelow(p, m, n, h, j);
    }
    if FirstFailure(p, m, k, q, a, checkRoot).Some? {
      i := FailureIsFirst(p, m, k, q, a, checkRoot);
    } else {
      i := n;
      OutcomeTells(p, m, n, h, checkRoot);
      NoFailureIff(p, m, k, q, a, checkRoot);
      forall j | a < j < n ensures PassesAt(p, m, j, PathAt(p, m, n, h, j), checkRoot) {
        assert PassesAt(p, m, j, PathAt(p, m, k, q, j), checkRoot);
      }
    }
  }

  /** Every block from above the canonical ancestor up to the new one passes. */
  ghost predicate SideChainPasses(p: Protocol, s: ChainState, b: Block, checkRoot: bool)
    requires CollisionFree(p) && Consistent(p, s)
    requires b.number > 0 && (b.number - 1, b.parentHash) in s.blocks
  {
    ExtendedIsLinked(p, s, b);
    var m, h := Extended(p, s, b), p.hash(b);
    PathPasses(p, m, b.number, h, CanonicalAncestor(p, m, s.canonical, b, h), checkRoot)
  }

  lemma VerdictIff(p: Protocol, s: ChainState, b: Block, checkRoot: bool)
    requires CollisionFree(p) && Consistent(p, s)
    requires b.number > 0 && (b.number - 1, b.parentHash) in s.blocks
    ensures Verdict(p, s, b, checkRoot).None? <==> SideChainPasses(p, s, b, checkRoot)
  {
    hide Consistent, CollisionFree, WellLinked, FirstFailure, PathPasses;
    HasTip(p, s);
    ExtendedIsLinked(p, s, b);
    var m, h := Extended(p, s, b), p.hash(b);
    NoFailureIff(p, m, b.number, h, CanonicalAncestor(p, m, s.canonical, b, h), checkRoot);
  }

  /** An insertion is accepted exactly when the parent is known, the engine has no objection,
      the block is not remembered as bad, and its side chain passes; then the block is stored,
      and its path becomes canonical exactly when it is strictly heavier than the incumbent. */
  lemma InsertAcceptsIff(p: Protocol, s: ChainState, ev: Insertion)
    requires CollisionFree(p) && Consistent(p, s)
    ensures var (t, r) := Insert(p, s, ev);
            var b, h, m := ev.block, p.hash(ev.block), Extended(p, s, ev.block);
            && (r.None? <==>
                  && b.number > 0 && (b.number - 1, b.parentHash) in s.blocks && ev.engineError.None? && h !in s.bad
                  && SideChainPasses(p, s, b, ev.checkRoot))
            && (r.None? ==>
                  && t.blocks == m && t.bad == s.bad
                  && t.canonical ==
                     (if TotalDifficulty(m, b.number, h) > TipDifficulty(s) then Path(m, b.number, h) else s.canonical))
  {
    hide Consistent, CollisionFree, Verdict, SideChainPasses, TotalDifficulty, Path;
    var b := ev.block;
    if b.number > 0 && (b.number - 1, b.parentHash) in s.blocks {
      VerdictIff(p, s, b, ev.checkRoot);
    }
    HasTip(p, s);
  }

  /** Some block above the canonical ancestor is the first of the side chain to fail, so. */
  ghost predicate SideChainFails(p: Protocol, s: ChainState, b: Block, checkRoot: bool, e: ValidationError)
    requires CollisionFree(p) && Consistent(p, s)
    requires b.number > 0 && (b.number - 1, b.parentHash) in s.blocks
  {
    ExtendedIsLinked(p, s, b);
    var m, h := Extended(p, s, b), p.hash(b);
    var a := CanonicalAncestor(p, m, s.canonical, b, h);
    exists i :: FirstFailsAt(p, m, b.number, h, a, checkRoot, i, e)
  }

  lemma VerdictTells(p: Protocol, s: ChainState, b: Block, checkRoot: bool)
    requires CollisionFree(p) && Consistent(p, s)
    requires b.number > 0 && (b.number - 1, b.parentHash) in s.blocks
    ensures var r := Verdict(p, s, b, checkRoot);
            r.Some? ==> SideChainFails(p, s, b, checkRoot, r.value)
  {
    hide Consistent, CollisionFree, WellLinked, FirstFailure, FirstFailsAt, CanonicalAncestor;
    HasTip(p, s);
    ExtendedIsLinked(p, s, b);
    var m, h := Extended(p, s, b), p.hash(b);
    if Verdict(p, s, b, checkRoot).Some? {
      var i := FailureIsFirst(p, m, b.number, h, CanonicalAncestor(p, m, s.canonical, b, h), checkRoot);
    }
  }

  /** What a rejected insertion says and leaves: an unknown parent, the engine's objection or
      the remembered error, each with nothing changed; or how the first block of the side chain
      fails, which is then remembered for the inserted block. */
  lemma RejectionTells(p: Protocol, s: ChainState, ev: Insertion)
    requires CollisionFree(p) && Consistent(p, s)
    ensures var (t, r) := Insert(p, s, ev);
            var b, h := ev.block, p.hash(ev.block);
            r.Some? ==>
              if b.number == 0 || (b.number - 1, b.parentHash) !in s.blocks then t == s && r.value == UnknownParent
              else if ev.engineError.Some? then t == s && r == ev.engineError
              else if h in s.bad then t == s && r.value == s.bad[h]
              else SideChainFails(p, s, b, ev.checkRoot, r.value) && t == s.(bad := s.bad[h := r.value])
  {
    hide Consistent, CollisionFree, Verdict, SideChainFails, Stored;
    var b := ev.block;
    if b.number > 0 && (b.number - 1, b.parentHash) in s.blocks {
      VerdictTells(p, s, b, ev.checkRoot);
    }
  }

  /** Total difficulty is the sum of the difficulties along the path. */
  lemma {:induction false} DifficultyAddsUp(p: Protocol, m: Store, n: nat, h: Hash)
    requires WellLinked(p, m) && (n, h) in m
    ensures TotalDifficulty(m, n, h) == SumOfDifficulties(m, Path(m, n, h))
  {
    if n == 0 {
      assert [h][..0] == [];
      assert SumOfDifficulties(m, [h]) == SumOfDifficulties(m, []) + m[(0, h)].difficulty;
    } else {
      Linked(p, m, n, h);
      var q := m[(n, h)].parentHash;
      DifficultyAddsUp(p, m, n - 1, q);
      PathShape(p, m, n, h, n);
      PathShape(p, m, n - 1, q, n - 1);
      assert Path(m, n, h)[..n] == Path(m, n - 1, q);
    }
  }

  /** Of the blocks with these hashes at the numbers 0, 1, 2 and so on. */
  ghost function SumOfDifficulties(m: Store, path: seq<Hash>): nat {
    if path == [] then 0
    else
      var i := |path| - 1;
      SumOfDifficulties(m, path[..i]) + if (i, path[i]) in m then m[(i, path[i])].difficulty else 0
  }

  lemma HasTip(p: Protocol, s: ChainState)
    requires Consistent(p, s)
    ensures |s.canonical| > 0
  {
  }

  // ----- Whole runs -----

  ghost function Run(p: Protocol, s: ChainState, evs: seq<Insertion>): ChainState
    requires CollisionFree(p) && Consistent(p, s) && Playable(p, s, evs)
    decreases |evs|
  {
    if evs == [] then s
    else
      InsertKeepsConsistent(p, s, evs[0]);
      Run(p, Insert(p, s, evs[0]).0, evs[1..])
  }

  /** No event inserts a block that is canonical at that moment. */
  ghost predicate Playable(p: Protocol, s: ChainState, evs: seq<Insertion>)
    requires CollisionFree(p) && Consistent(p, s)
    decreases |evs|
  {
    evs == [] ||
    (&& !IsCanonical(p, s, evs[0].block)
     && (InsertKeepsConsistent(p, s, evs[0]); Playable(p, Insert(p, s, evs[0]).0, evs[1..])))
  }

  ghost function GenesisState(p: Protocol, g: Block): ChainState {
    ChainState(map[(0, p.hash(g)) := g], [p.hash(g)], map[])
  }

  lemma GenesisIsConsistent(p: Protocol, g: Block)
    requires CollisionFree(p) && g.number == 0
    ensures Consistent(p, GenesisState(p, g))
  {
  }

  /** After any run from genesis the canonical chain ends in a block of maximal total
      difficulty among all blocks ever accepted, and no step of the run lost a block. */
  lemma {:induction false} RunKeepsHeaviestChain(p: Protocol, s: ChainState, evs: seq<Insertion>)
    requires CollisionFree(p) && Consistent(p, s) && Playable(p, s, evs)
    ensures var t := Run(p, s, evs);
            && Consistent(p, t)
            && TipDifficulty(t) >= TipDifficulty(s)
            && (t.canonical != s.canonical ==> TipDifficulty(t) > TipDifficulty(s))
            && Extends(s.blocks, t.blocks)
            && Heaviest(t.blocks, TipDifficulty(t))
    decreases |evs|
  {
    if evs != [] {
      InsertKeepsConsistent(p, s, evs[0]);
      var u := Insert(p, s, evs[0]).0;
      RunKeepsHeaviestChain(p, u, evs[1..]);
    }
  }
}
