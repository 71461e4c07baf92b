// Net gas metering: over any sequence of writes to one slot in a transaction, gas less
// refunds depends only on how many writes there were and on the values before and after.
module NetMetering {
  import opened Revisions
  import opened WorldState
  import opened IntraBlock
  import opened Journal
  import opened Evm
  import opened Refunds

  /** What the interpreter charges for a write with this status (EIP-1283, EIP-2200). */
  function WriteGas(rev: Revision, status: StorageStatus): (g: int) {
    match status
    case Added => G_SSET
    case Modified => ResetGas(rev)
    case Deleted => ResetGas(rev)
    case Unchanged => SloadCost(rev)
    case ModifiedAgain => SloadCost(rev)
  }

  /** Gas charged for one write, less its net refund. */
  function NetCost(rev: Revision, original: nat, current: nat, value: nat): (g: int) {
    var (taken, given) := RefundParts(rev, original, current, value);
    WriteGas(rev, StatusOf(rev, original, current, value)) - (if current == value then 0 else given - taken)
  }

  function NetCosts(rev: Revision, original: nat, current: nat, values: seq<nat>): (g: int)
    decreases |values|
  {
    if values == [] then 0
    else NetCost(rev, original, current, values[0]) + NetCosts(rev, original, values[0], values[1..])
  }

  /** What a slot with this original value costs above bare accesses when it ends up with
      this current value. */
  function Due(rev: Revision, original: nat, current: nat): (g: int) {
    (if current == original then 0 else (if original == 0 then G_SSET else ResetGas(rev)) - SloadCost(rev))
    - (if original != 0 && current == 0 then ClearsRefund(rev) else 0)
  }

  lemma OneWrite(rev: Revision, original: nat, current: nat, value: nat)
    requires NetMetered(rev)
    ensures NetCost(rev, original, current, value) ==
      SloadCost(rev) + Due(rev, original, value) - Due(rev, original, current)
  {
  }

  ghost function Final(current: nat, values: seq<nat>): nat {
    if values == [] then current else values[|values| - 1]
  }

  /** The detours cancel: every write costs a bare access, and beyond that only the step from
      the first to the final value counts. */
  lemma {:induction false} WritesNetOut(rev: Revision, original: nat, current: nat, values: seq<nat>)
    requires NetMetered(rev)
    ensures NetCosts(rev, original, current, values) ==
      |values| * SloadCost(rev) + Due(rev, original, Final(current, values)) - Due(rev, original, current)
    decreases |values|
  {
    hide Due, NetCost, SloadCost;
    if values != [] {
      OneWrite(rev, original, current, values[0]);
      WritesNetOut(rev, original, values[0], values[1..]);
      assert Final(values[0], values[1..]) == Final(current, values);
      Distribute(|values| - 1, SloadCost(rev));
    }
  }

  lemma Distribute(n: int, x: int)
    ensures (n + 1) * x == n * x + x
  {
  }

  /** Writing a slot any number of times and leaving it as it was costs only the accesses. */
  lemma RoundTripsAreFree(rev: Revision, original: nat, values: seq<nat>)
    requires NetMetered(rev) && Final(original, values) == original
    ensures NetCosts(rev, original, original, values) == |values| * SloadCost(rev)
  {
    WritesNetOut(rev, original, original, values);
  }

  // ----- In a frame -----

  function Writes(k: nat, values: seq<nat>): (r: seq<Action>) {
    if values == [] then [] else [SStore(k, values[0])] + Writes(k, values[1..])
  }

  /** The gas that the interpreter charges for the writes. */
  function Charged(rev: Revision, original: nat, current: nat, values: seq<nat>): (g: int)
    decreases |values|
  {
    if values == [] then 0
    else WriteGas(rev, StatusOf(rev, original, current, values[0])) + Charged(rev, original, values[0], values[1..])
  }

  lemma {:induction false} RefundsInFrame(env: Env, st: State, self: Address, k: nat, values: seq<nat>)
    requires WellFormed(env.db, st) && Exists(env.db, st, self)
    ensures var o, c := OriginalStorage(env.db, st, self, k), CurrentStorage(env.db, st, self, k);
            var t := RunActions(env, st, self, Writes(k, values)).state;
            && CurrentStorage(env.db, t, self, k) == Final(c, values)
            && Charged(env.rev, o, c, values) - (t.refund - st.refund) == NetCosts(env.rev, o, c, values)
    decreases |values|
  {
    hide WellFormed, Advances, HostSetStorage, CurrentStorage, OriginalStorage, Exists, RefundParts, StatusOf, WriteGas;
    if values != [] {
      var v := values[0];
      var s := HostSetStorage(env, st, self, k, v);
      HostSetStorageKeeps(env, st, self, k, v);
      SetStorageRefund(env, st, self, k, v);
      RefundsInFrame(env, s, self, k, values[1..]);
      assert Writes(k, values)[1..] == Writes(k, values[1..]);
      assert Final(v, values[1..]) == Final(CurrentStorage(env.db, st, self, k), values);
    }
  }

  /** A frame that writes one slot any number of times is charged for the writes and given
      refunds that leave bare accesses and the step from the first to the final value. */
  lemma FrameNetsOut(env: Env, st: State, self: Address, k: nat, values: seq<nat>)
    requires WellFormed(env.db, st) && Exists(env.db, st, self) && NetMetered(env.rev)
    ensures var o, c := OriginalStorage(env.db, st, self, k), CurrentStorage(env.db, st, self, k);
            var t := RunActions(env, st, self, Writes(k, values)).state;
            var final := CurrentStorage(env.db, t, self, k);
            && final == Final(c, values)
            && Charged(env.rev, o, c, values) - (t.refund - st.refund) ==
                 |values| * SloadCost(env.rev) + Due(env.rev, o, final) - Due(env.rev, o, c)
  {
    RefundsInFrame(env, st, self, k, values);
    WritesNetOut(env.rev, OriginalStorage(env.db, st, self, k), CurrentStorage(env.db, st, self, k), values);
  }
}
