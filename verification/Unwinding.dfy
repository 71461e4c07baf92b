// Unwinding part of a path: exactly when it gives back the world of the block it ends at,
// and which blocks an insertion needs to unwind.
module Unwinding {
  import opened WorldState
  import opened Undoing
  import opened ForkChoice

  const NO_CHANGES := ChangeSet({}, map[], map[])

  /** The changes of the blocks above number a on the path to (n, h), oldest first. */
  ghost function ChangesOn(p: Protocol, m: Store, n: nat, h: Hash, a: nat): seq<ChangeSet> {
    if n <= a || (n, h) !in m then []
    else
      var q := m[(n, h)].parentHash;
      ChangesOn(p, m, n - 1, q, a)
      + [match p.execute(WorldAt(p, m, n - 1, q), m[(n, h)])
         case Executed(cs) => cs
         case Failed(_) => NO_CHANGES]
  }

  ghost predicate AllExecuteOn(p: Protocol, m: Store, n: nat, h: Hash, a: nat)
    requires WellLinked(p, m) && (n, h) in m
  {
    forall i | a < i <= n :: ExecutesAt(p, m, i, PathAt(p, m, n, h, i))
  }

  ghost predicate AllFaithfulOn(p: Protocol, m: Store, n: nat, h: Hash, a: nat)
    requires WellLinked(p, m) && (n, h) in m
  {
    forall i | a < i <= n :: FaithfulAt(p, m, i, PathAt(p, m, n, h, i))
  }

  /** The path to a block is the path to its parent and the block. */
  lemma OneLess(p: Protocol, m: Store, n: nat, h: Hash, a: nat)
    requires WellLinked(p, m) && (n, h) in m && a < n
    ensures var q := m[(n, h)].parentHash;
            && (n - 1, q) in m
            && PathAt(p, m, n, h, a) == PathAt(p, m, n - 1, q, a)
            && (AllExecuteOn(p, m, n, h, a) <==> AllExecuteOn(p, m, n - 1, q, a) && ExecutesAt(p, m, n, h))
            && (AllFaithfulOn(p, m, n, h, a) <==> AllFaithfulOn(p, m, n - 1, q, a) && FaithfulAt(p, m, n, h))
  {
    hide WellLinked, Path, ExecutesAt, FaithfulAt, PathAt;
    PathBelow(p, m, n, h, a);
    var k, q := n - 1, m[(n, h)].parentHash;
    forall i: nat | i < n ensures PathAt(p, m, n, h, i) == PathAt(p, m, k, q, i) {
      PathBelow(p, m, n, h, i);
    }
    if AllExecuteOn(p, m, n, h, a) {
      assert ExecutesAt(p, m, n, PathAt(p, m, n, h, n));
      forall i | a < i <= k ensures ExecutesAt(p, m, i, PathAt(p, m, k, q, i)) {
        assert ExecutesAt(p, m, i, PathAt(p, m, n, h, i));
      }
    }
    if AllFaithfulOn(p, m, n, h, a) {
      assert FaithfulAt(p, m, n, PathAt(p, m, n, h, n));
      forall i | a < i <= k ensures FaithfulAt(p, m, i, PathAt(p, m, k, q, i)) {
        assert FaithfulAt(p, m, i, PathAt(p, m, n, h, i));
      }
    }
  }

  /** Executing the path from block a on is committing the changes on it. */
  lemma {:induction false} OnPath(p: Protocol, m: Store, n: nat, h: Hash, a: nat)
    requires WellLinked(p, m) && (n, h) in m && a <= n && AllExecuteOn(p, m, n, h, a)
    ensures WorldAt(p, m, n, h) == CommitAll(WorldAt(p, m, a, PathAt(p, m, n, h, a)), ChangesOn(p, m, n, h, a))
    ensures AllFaithful(WorldAt(p, m, a, PathAt(p, m, n, h, a)), ChangesOn(p, m, n, h, a)) <==>
      AllFaithfulOn(p, m, n, h, a)
  {
    hide WellLinked, Path, Commit, Faithful, AllExecuteOn, AllFaithfulOn, PathAt;
    if a == n {
      PathBelow(p, m, n, h, n);
      NothingOn(p, m, n, h);
    } else {
      OneLess(p, m, n, h, a);
      var q := m[(n, h)].parentHash;
      OnPath(p, m, n - 1, q, a);
      CommitAllSnoc(WorldAt(p, m, a, PathAt(p, m, n, h, a)), ChangesOn(p, m, n - 1, q, a), ChangesAt(p, m, n, h));
    }
  }

  lemma NothingOn(p: Protocol, m: Store, n: nat, h: Hash)
    requires WellLinked(p, m) && (n, h) in m
    ensures AllFaithfulOn(p, m, n, h, n) && ChangesOn(p, m, n, h, n) == []
  {
  }

  /** For every account and slot, the first block above number a on the path that mentions
      it names the value it had at block a. */
  ghost predicate Unwinds(p: Protocol, m: Store, n: nat, h: Hash, a: nat)
    requires WellLinked(p, m) && (n, h) in m && a <= n
  {
    FirstMentionsRight(WorldAt(p, m, a, PathAt(p, m, n, h, a)), ChangesOn(p, m, n, h, a))
  }

  /** The undo records of the blocks above number a on the path, oldest first. */
  ghost function RecordsOn(p: Protocol, m: Store, n: nat, h: Hash, a: nat): seq<UndoRecord>
    requires WellLinked(p, m) && (n, h) in m && a <= n
  {
    RecordsOf(WorldAt(p, m, a, PathAt(p, m, n, h, a)), ChangesOn(p, m, n, h, a))
  }

  /** Undoing the path down to block a gives that block's world exactly when every first
      mention is right. */
  lemma UnwindPathIff(p: Protocol, m: Store, n: nat, h: Hash, a: nat)
    requires NormalGenesis(p) && WellLinked(p, m) && (n, h) in m && a <= n && AllExecuteOn(p, m, n, h, a)
    ensures Undone(WorldAt(p, m, n, h), RecordsOn(p, m, n, h, a)) == WorldAt(p, m, a, PathAt(p, m, n, h, a))
       <==> Unwinds(p, m, n, h, a)
  {
    hide WellLinked, Path, Commit, Undone, RecordsOf, FirstMentionsRight, WorldAt, ChangesOn, AllExecuteOn, PathAt;
    OnPath(p, m, n, h, a);
    WorldHasNoZeroSlots(p, m, a, PathAt(p, m, n, h, a));
    UndoAllIff(WorldAt(p, m, a, PathAt(p, m, n, h, a)), ChangesOn(p, m, n, h, a));
  }

  /** Undoing the newest block first. */
  lemma UndoNewest(p: Protocol, m: Store, n: nat, h: Hash, a: nat, w: World)
    requires WellLinked(p, m) && (n, h) in m && a < n && AllExecuteOn(p, m, n, h, a)
    ensures var q := m[(n, h)].parentHash;
            && (n - 1, q) in m && AllExecuteOn(p, m, n - 1, q, a)
            && n in RecordsAt(p, m, n, h)
            && Undone(w, RecordsOn(p, m, n, h, a))
               == Undone(Restore(w, RecordsAt(p, m, n, h)[n]), RecordsOn(p, m, n - 1, q, a))
  {
    hide WellLinked, Path, Commit, Restore, Undone, RecordsOf, AllExecuteOn, PathAt;
    OneLess(p, m, n, h, a);
    var q := m[(n, h)].parentHash;
    OnPath(p, m, n - 1, q, a);
    var start := WorldAt(p, m, a, PathAt(p, m, n, h, a));
    CommitAllSnoc(start, ChangesOn(p, m, n - 1, q, a), ChangesAt(p, m, n, h));
    UndoneSnoc(w, RecordsOn(p, m, n - 1, q, a), RecordsAt(p, m, n, h)[n]);
  }

  lemma UndoNothing(p: Protocol, m: Store, n: nat, h: Hash, w: World)
    requires WellLinked(p, m) && (n, h) in m
    ensures Undone(w, RecordsOn(p, m, n, h, n)) == w
  {
  }

  lemma FaithfulUnwinds(p: Protocol, m: Store, n: nat, h: Hash, a: nat)
    requires WellLinked(p, m) && (n, h) in m && a <= n && AllFaithfulOn(p, m, n, h, a)
    ensures Unwinds(p, m, n, h, a)
  {
    hide WellLinked, Path, FirstMentionsRight, AllFaithful, WorldAt, ChangesOn, PathAt;
    assert AllExecuteOn(p, m, n, h, a);
    OnPath(p, m, n, h, a);
    FaithfulAreRight(WorldAt(p, m, a, PathAt(p, m, n, h, a)), ChangesOn(p, m, n, h, a));
  }

  /** A path taken in two legs. */
  lemma PathInLegs(p: Protocol, m: Store, n: nat, h: Hash, i: nat, j: nat)
    requires WellLinked(p, m) && (n, h) in m && j <= i <= n
    ensures (i, PathAt(p, m, n, h, i)) in m
    ensures PathAt(p, m, i, PathAt(p, m, n, h, i), j) == PathAt(p, m, n, h, j)
  {
    PathShape(p, m, n, h, i);
    PathShape(p, m, i, PathAt(p, m, n, h, i), j);
  }

  lemma ExecuteOnLeg(p: Protocol, m: Store, n: nat, h: Hash, i: nat, a: nat)
    requires WellLinked(p, m) && (n, h) in m && a <= i <= n
    requires forall j | a < j <= i :: ExecutesAt(p, m, j, PathAt(p, m, n, h, j))
    ensures (i, PathAt(p, m, n, h, i)) in m && AllExecuteOn(p, m, i, PathAt(p, m, n, h, i), a)
  {
    hide WellLinked, Path, PathAt, ExecutesAt;
    PathInLegs(p, m, n, h, i, a);
    var k := PathAt(p, m, n, h, i);
    forall j | a < j <= i ensures ExecutesAt(p, m, j, PathAt(p, m, i, k, j)) {
      PathInLegs(p, m, n, h, i, j);
    }
  }

  // ----- What an insertion unwinds -----

  /** Wherever a block above number a on the path executes, it names the values it found. */
  ghost predicate FaithfulWhereExecuted(p: Protocol, m: Store, n: nat, h: Hash, a: nat)
    requires WellLinked(p, m) && (n, h) in m
  {
    forall i | a < i <= n :: FaithfulIfExecuted(p, m, i, PathAt(p, m, n, h, i))
  }

  ghost predicate FaithfulIfExecuted(p: Protocol, m: Store, n: nat, h: Hash) {
    ExecutesAt(p, m, n, h) ==> FaithfulAt(p, m, n, h)
  }

  /** A faithful leg that executes unwinds. */
  lemma LegUnwinds(p: Protocol, m: Store, n: nat, h: Hash, i: nat, a: nat)
    requires WellLinked(p, m) && (n, h) in m && a <= i <= n && FaithfulWhereExecuted(p, m, n, h, a)
    requires forall j | a < j <= i :: ExecutesAt(p, m, j, PathAt(p, m, n, h, j))
    ensures (i, PathAt(p, m, n, h, i)) in m && Unwinds(p, m, i, PathAt(p, m, n, h, i), a)
  {
    hide WellLinked, Path, PathAt, ExecutesAt, FaithfulAt, Unwinds;
    PathInLegs(p, m, n, h, i, a);
    var k := PathAt(p, m, n, h, i);
    forall j | a < j <= i ensures FaithfulAt(p, m, j, PathAt(p, m, i, k, j)) {
      PathInLegs(p, m, n, h, i, j);
      assert FaithfulIfExecuted(p, m, j, PathAt(p, m, n, h, j));
    }
    FaithfulUnwinds(p, m, i, k, a);
  }

  /** Everything that inserting the block unwinds can be unwound: the canonical chain down
      to the ancestor; the new side chain too unless it is adopted; and, when that chain
      fails, every block of it that had executed. */
  ghost predicate Reversible(p: Protocol, s: ChainState, b: Block, checkRoot: bool)
    requires CollisionFree(p) && Consistent(p, s)
    requires b.number > 0 && (b.number - 1, b.parentHash) in s.blocks
  {
    ExtendedIsLinked(p, s, b);
    var m, h := Extended(p, s, b), p.hash(b);
    var a := CanonicalAncestor(p, m, s.canonical, b, h);
    && Unwinds(p, s.blocks, Tip(s), s.canonical[Tip(s)], a)
    && match Verdict(p, s, b, checkRoot)
       case Some(_) => FaithfulWhereExecuted(p, m, b.number, h, a)
       case None => TotalDifficulty(m, b.number, h) > TipDifficulty(s) || Unwinds(p, m, b.number, h, a)
  }

  /** Every block of the store that executes names the values it found. */
  ghost predicate Truthful(p: Protocol, m: Store) {
    forall n, h {:trigger FaithfulIfExecuted(p, m, n, h)} :: (n, h) in m ==> FaithfulIfExecuted(p, m, n, h)
  }

  lemma TruthfulBefore(p: Protocol, m: Store, e: Store)
    requires WellLinked(p, m) && Extends(m, e) && Truthful(p, e)
    ensures Truthful(p, m)
  {
    hide WorldAt, Faithful;
    forall n: nat, h: Hash | (n, h) in m ensures FaithfulIfExecuted(p, m, n, h) {
      if n > 0 {
        Linked(p, m, n, h);
        ExtensionKeeps(p, m, e, n - 1, m[(n, h)].parentHash);
        assert FaithfulIfExecuted(p, e, n, h);
      }
    }
  }

  /** If the stored blocks and the new one name the values they found, everything can be
      unwound. */
  lemma TruthfulIsReversible(p: Protocol, s: ChainState, b: Block, checkRoot: bool)
    requires CollisionFree(p) && Consistent(p, s)
    requires b.number > 0 && (b.number - 1, b.parentHash) in s.blocks
    requires Truthful(p, Extended(p, s, b))
    ensures Reversible(p, s, b, checkRoot)
  {
    hide WellLinked, Path, PathAt, ExecutesAt, FaithfulAt, Unwinds, CollisionFree, TotalDifficulty, OneGenesis,
         Heaviest,
         CanonicalAncestor, FaithfulIfExecuted, Extends;
    ExtendedIsLinked(p, s, b);
    var m, h := Extended(p, s, b), p.hash(b);
    var a := CanonicalAncestor(p, m, s.canonical, b, h);
    var n, k := Tip(s), s.canonical[Tip(s)];
    TruthfulBefore(p, s.blocks, m);
    AllOnPath(p, s.blocks, n, k, a);
    PathInLegs(p, s.blocks, n, k, n, n);
    forall j | a < j <= n ensures ExecutesAt(p, s.blocks, j, PathAt(p, s.blocks, n, k, j)) {
      PathInLegs(p, s.blocks, n, k, j, j);
      assert j > 0;
    }
    LegUnwinds(p, s.blocks, n, k, n, a);
    PathBelow(p, s.blocks, n, k, n);
    AllOnPath(p, m, b.number, h, a);
    if Verdict(p, s, b, checkRoot).None? {
      NoFailureIff(p, m, b.number, h, a, checkRoot);
      forall j | a < j <= b.number ensures ExecutesAt(p, m, j, PathAt(p, m, b.number, h, j)) {
        assert PassesAt(p, m, j, PathAt(p, m, b.number, h, j), checkRoot);
        PassingExecutes(p, m, j, PathAt(p, m, b.number, h, j), checkRoot);
      }
      LegUnwinds(p, m, b.number, h, b.number, a);
      PathBelow(p, m, b.number, h, b.number);
    }
  }

  lemma PassingExecutes(p: Protocol, m: Store, n: nat, h: Hash, checkRoot: bool)
    requires PassesAt(p, m, n, h, checkRoot)
    ensures ExecutesAt(p, m, n, h)
  {
  }

  lemma AllOnPath(p: Protocol, m: Store, n: nat, h: Hash, a: nat)
    requires WellLinked(p, m) && (n, h) in m && Truthful(p, m)
    ensures FaithfulWhereExecuted(p, m, n, h, a)
  {
    hide WellLinked, Path, PathAt, FaithfulIfExecuted;
    forall i | a < i <= n ensures FaithfulIfExecuted(p, m, i, PathAt(p, m, n, h, i)) {
      PathInLegs(p, m, n, h, i, i);
    }
  }
}
