/** Collecting the leaves of a gNMI response by the key their path names: the dict-of-dicts loops of
    collectors/gnmi_client.py. */
module GnmiLeaves {
  import opened Common
  import opened Text
  import opened Grouping

  /** A leaf's value; `Absent` is None. */
  datatype Val = Absent | Num(n: int) | Str(s: string)

  datatype Update = Update(path: string, val: Val)

  type Leaves = map<string, Val>

  /** One entry of the outer dict. */
  datatype Slot<K> = Slot(key: K, leaves: Leaves)

  /** The outer dict, its entries in order of insertion. */
  type Table<K> = seq<Slot<K>>

  /** Which key a path belongs to, None if it is passed over. */
  type Locator<!K> = string -> Option<K>

  /** `path.rsplit("/", 1)[-1]`. */
  function LeafOf(path: string): string { LastPart(path, '/') }

  function Place<K(==)>(table: Table<K>, key: K): (p: nat)
    ensures p <= |table| && (p < |table| ==> table[p].key == key)
    ensures forall i :: 0 <= i < p ==> table[i].key != key
  {
    if table == [] then 0
    else
      var p := Place(table[..|table| - 1], key);
      if p < |table| - 1 || table[p].key == key then p else |table|
  }

  /** `table.setdefault(key, {})[leaf] = val`. */
  function Filed<K(==)>(table: Table<K>, key: K, leaf: string, val: Val): Table<K> {
    var p := Place(table, key);
    if p < |table| then table[p := Slot(key, table[p].leaves[leaf := val])]
    else table + [Slot(key, map[leaf := val])]
  }

  function FiledUpdate<K(==)>(table: Table<K>, u: Update, locate: Locator<K>): Table<K> {
    match locate(u.path)
    case None => table
    case Some(key) => Filed(table, key, LeafOf(u.path), u.val)
  }

  function Collected<K(==)>(updates: seq<Update>, locate: Locator<K>): Table<K> {
    if updates == [] then []
    else FiledUpdate(Collected(updates[..|updates| - 1], locate), updates[|updates| - 1], locate)
  }

  method Collect<K(==)>(updates: seq<Update>, locate: Locator<K>) returns (table: Table<K>)
    ensures table == Collected(updates, locate)
  {
    table := [];
    for i := 0 to |updates|
      invariant table == Collected(updates[..i], locate)
    {
      assert updates[..i + 1][..i] == updates[..i];
      var u := updates[i];
      var key := locate(u.path);
      if key.Some? {
        var p := FindSlot(table, key.value);
        if p == |table| {
          table := table + [Slot(key.value, map[])];
        }
        table := table[p := Slot(key.value, table[p].leaves[LeafOf(u.path) := u.val])];
      }
    }
    assert updates[..|updates|] == updates;
  }

  method FindSlot<K(==)>(table: Table<K>, key: K) returns (p: nat)
    ensures p == Place(table, key)
  {
    p := 0;
    while p < |table| && table[p].key != key
      invariant p <= |table| && forall i :: 0 <= i < p ==> table[i].key != key
    {
      p := p + 1;
    }
  }

  // ---------------------------------------------------------------- what a table holds

  predicate DistinctKeys<K(==)>(table: Table<K>) {
    forall i, j :: 0 <= i < j < |table| ==> table[i].key != table[j].key
  }

  function Found<K(==)>(table: Table<K>, key: K): Option<Leaves> {
    var p := Place(table, key);
    if p < |table| then Some(table[p].leaves) else None
  }

  lemma FoundAt<K>(table: Table<K>, i: nat)
    requires DistinctKeys(table) && i < |table|
    ensures Place(table, table[i].key) == i && Found(table, table[i].key) == Some(table[i].leaves)
  {}

  lemma FiledStaysDistinct<K>(table: Table<K>, key: K, leaf: string, val: Val)
    requires DistinctKeys(table)
    ensures DistinctKeys(Filed(table, key, leaf, val))
  {}

  lemma NotFound<K>(table: Table<K>, key: K)
    requires forall i :: 0 <= i < |table| ==> table[i].key != key
    ensures Found(table, key) == None
  {}

  /** The other keys keep their leaves. */
  lemma FiledElsewhere<K>(table: Table<K>, key: K, leaf: string, val: Val, q: K)
    requires DistinctKeys(table) && q != key
    ensures Found(Filed(table, key, leaf, val), q) == Found(table, q)
  {
    var after, p := Filed(table, key, leaf, val), Place(table, q);
    FiledStaysDistinct(table, key, leaf, val);
    if p < |table| {
      assert after[p] == table[p];
      FoundAt(after, p);
    } else {
      NotFound(after, q);
    }
  }

  lemma FiledHere<K>(table: Table<K>, key: K, leaf: string, val: Val)
    requires DistinctKeys(table)
    ensures Found(Filed(table, key, leaf, val), key)
         == Some((if Found(table, key).Some? then Found(table, key).value else map[])[leaf := val])
  {
    FiledStaysDistinct(table, key, leaf, val);
    FoundAt(Filed(table, key, leaf, val), Place(table, key));
  }

  lemma FiledFinds<K>(table: Table<K>, key: K, leaf: string, val: Val, q: K)
    requires DistinctKeys(table)
    ensures DistinctKeys(Filed(table, key, leaf, val))
    ensures Found(Filed(table, key, leaf, val), q)
         == if q == key then Some((if Found(table, key).Some? then Found(table, key).value else map[])[leaf := val])
            else Found(table, q)
  {
    FiledStaysDistinct(table, key, leaf, val);
    if q == key { FiledHere(table, key, leaf, val); } else { FiledElsewhere(table, key, leaf, val, q); }
  }

  /** What the updates of one key alone leave, None without any. */
  function LeavesFor<K(==)>(updates: seq<Update>, locate: Locator<K>, key: K): Option<Leaves> {
    if updates == [] then None
    else
      var before, u := LeavesFor(updates[..|updates| - 1], locate, key), updates[|updates| - 1];
      if locate(u.path) != Some(key) then before
      else Some((if before.Some? then before.value else map[])[LeafOf(u.path) := u.val])
  }

  /** The collected table has one slot per key, holding what that key's updates alone leave. */
  lemma {:induction false} CollectedByKey<K>(updates: seq<Update>, locate: Locator<K>, key: K)
    ensures DistinctKeys(Collected(updates, locate))
    ensures Found(Collected(updates, locate), key) == LeavesFor(updates, locate, key)
  {
    if updates != [] {
      var init, u := updates[..|updates| - 1], updates[|updates| - 1];
      CollectedByKey(init, locate, key);
      match locate(u.path)
      case None =>
      case Some(k) => FiledFinds(Collected(init, locate), k, LeafOf(u.path), u.val, key);
    }
  }

  // ---------------------------------------------------------------- printing

  /** An order in which to print leaves: the slot and the leaf of each update. */
  type Schedule = seq<(nat, string)>

  /** Only leaves of the slots are printed, each at least once; nothing more is asked of the order. */
  ghost predicate Covers<K(!new)>(plan: Schedule, slots: Table<K>) {
    (forall i :: 0 <= i < |plan| ==> plan[i].0 < |slots| && plan[i].1 in slots[plan[i].0].leaves)
    && (forall j, leaf :: 0 <= j < |slots| && leaf in slots[j].leaves ==> Planned(plan, |plan|, j, leaf))
  }

  ghost predicate Planned(plan: Schedule, n: nat, j: nat, leaf: string) {
    exists i :: 0 <= i < n <= |plan| && plan[i] == (j, leaf)
  }

  /** `updates` are the slots' leaves printed as planned. */
  ghost predicate Prints<K(!new)>(updates: seq<Update>, plan: Schedule, slots: Table<K>, locate: Locator<K>) {
    |updates| == |plan| && Covers(plan, slots)
    && forall i :: 0 <= i < |plan| ==> IsLeaf(updates[i], slots[plan[i].0], plan[i].1, locate)
  }

  predicate IsLeaf<K(==)>(u: Update, slot: Slot<K>, leaf: string, locate: Locator<K>)
    requires leaf in slot.leaves
  {
    locate(u.path) == Some(slot.key) && LeafOf(u.path) == leaf && u.val == slot.leaves[leaf]
  }

  /** Every leaf's path names the leaf and the key of its slot. */
  ghost predicate Legible<K(!new)>(slots: Table<K>, path: (K, string) -> string, locate: Locator<K>) {
    forall j, leaf :: 0 <= j < |slots| && leaf in slots[j].leaves ==>
      locate(path(slots[j].key, leaf)) == Some(slots[j].key) && LeafOf(path(slots[j].key, leaf)) == leaf
  }

  /** The updates that print the slots' leaves as planned. */
  ghost function Printing<K(!new)>(slots: Table<K>, plan: Schedule, path: (K, string) -> string): seq<Update>
    requires Covers(plan, slots)
  {
    seq(|plan|, i requires 0 <= i < |plan| =>
      Update(path(slots[plan[i].0].key, plan[i].1), slots[plan[i].0].leaves[plan[i].1]))
  }

  lemma PrintingPrints<K(!new)>(slots: Table<K>, plan: Schedule, path: (K, string) -> string, locate: Locator<K>)
    requires Covers(plan, slots) && Legible(slots, path, locate)
    ensures Prints(Printing(slots, plan, path), plan, slots, locate)
  {}

  /** What the first `n` updates leave for slot `j`: the leaves printed so far, with their values. */
  ghost predicate SoFar<K(!new)>(plan: Schedule, n: nat, slots: Table<K>, j: nat, left: Option<Leaves>)
    requires j < |slots|
  {
    match left
    case None => forall leaf :: !Planned(plan, n, j, leaf)
    case Some(m) =>
      (forall leaf :: leaf in m <==> Planned(plan, n, j, leaf))
      && forall leaf :: leaf in m ==> leaf in slots[j].leaves && m[leaf] == slots[j].leaves[leaf]
  }

  lemma PlannedNext(plan: Schedule, n: nat, j: nat, leaf: string)
    requires 0 < n <= |plan|
    ensures Planned(plan, n, j, leaf) <==> Planned(plan, n - 1, j, leaf) || plan[n - 1] == (j, leaf)
  {
    if i :| 0 <= i < n && plan[i] == (j, leaf) { assert i < n - 1 || plan[n - 1] == (j, leaf); }
    if i :| 0 <= i < n - 1 && plan[i] == (j, leaf) { assert Planned(plan, n, j, leaf); }
  }

  lemma SoFarNext<K(!new)>(updates: seq<Update>, plan: Schedule, n: nat, slots: Table<K>, locate: Locator<K>, j: nat,
                           before: Option<Leaves>, after: Option<Leaves>)
    requires Prints(updates, plan, slots, locate) && DistinctKeys(slots) && j < |slots| && 0 < n <= |plan|
    requires SoFar(plan, n - 1, slots, j, before)
    requires after == (if locate(updates[n - 1].path) != Some(slots[j].key) then before
                       else Some((if before.Some? then before.value else map[])
                                   [LeafOf(updates[n - 1].path) := updates[n - 1].val]))
    ensures SoFar(plan, n, slots, j, after)
  {
    assert IsLeaf(updates[n - 1], slots[plan[n - 1].0], plan[n - 1].1, locate);
    forall leaf
      ensures Planned(plan, n, j, leaf) <==> Planned(plan, n - 1, j, leaf) || plan[n - 1] == (j, leaf)
    {
      PlannedNext(plan, n, j, leaf);
    }
  }

  lemma {:induction false} LeavesSoFar<K(!new)>(updates: seq<Update>, plan: Schedule, n: nat, slots: Table<K>,
                                                locate: Locator<K>, j: nat)
    requires Prints(updates, plan, slots, locate) && DistinctKeys(slots) && j < |slots| && n <= |plan|
    ensures SoFar(plan, n, slots, j, LeavesFor(updates[..n], locate, slots[j].key))
  {
    if n > 0 {
      assert updates[..n][..n - 1] == updates[..n - 1];
      LeavesSoFar(updates, plan, n - 1, slots, locate, j);
      SoFarNext(updates, plan, n, slots, locate, j, LeavesFor(updates[..n - 1], locate, slots[j].key),
                LeavesFor(updates[..n], locate, slots[j].key));
    }
  }

  lemma SoFarAll<K(!new)>(plan: Schedule, slots: Table<K>, j: nat, left: Option<Leaves>)
    requires Covers(plan, slots) && j < |slots| && slots[j].leaves != map[] && SoFar(plan, |plan|, slots, j, left)
    ensures left == Some(slots[j].leaves)
  {
    var leaves := slots[j].leaves;
    assert forall leaf :: leaf in leaves ==> Planned(plan, |plan|, j, leaf);
    var leaf :| leaf in leaves;
    assert Planned(plan, |plan|, j, leaf);
    var m := left.value;
    assert forall leaf :: leaf in leaves ==> leaf in m;
    assert m == leaves;
  }

  lemma FoundIsIn<K>(table: Table<K>, key: K)
    requires Found(table, key).Some?
    ensures Slot(key, Found(table, key).value) in table
  {
    assert table[Place(table, key)] == Slot(key, Found(table, key).value);
  }

  /** Collecting printed slots finds each of them again, whole. */
  lemma PrintedIsFound<K(!new)>(updates: seq<Update>, plan: Schedule, slots: Table<K>, locate: Locator<K>, j: nat)
    requires Prints(updates, plan, slots, locate) && DistinctKeys(slots) && j < |slots| && slots[j].leaves != map[]
    ensures slots[j] in Collected(updates, locate)
  {
    LeavesSoFar(updates, plan, |plan|, slots, locate, j);
    assert updates[..|plan|] == updates;
    SoFarAll(plan, slots, j, LeavesFor(updates, locate, slots[j].key));
    CollectedByKey(updates, locate, slots[j].key);
    FoundIsIn(Collected(updates, locate), slots[j].key);
    assert slots[j] == Slot(slots[j].key, slots[j].leaves);
  }

  ghost predicate KeyOfSome<K(!new)>(slots: Table<K>, key: K) { exists j :: 0 <= j < |slots| && slots[j].key == key }

  ghost predicate KeysOf<K(!new)>(slots: Table<K>, table: Table<K>) {
    forall i :: 0 <= i < |table| ==> KeyOfSome(slots, table[i].key)
  }

  lemma FiledKeysOf<K(!new)>(slots: Table<K>, table: Table<K>, key: K, leaf: string, val: Val)
    requires KeysOf(slots, table) && KeyOfSome(slots, key)
    ensures KeysOf(slots, Filed(table, key, leaf, val))
  {}

  lemma CollectedNext<K>(updates: seq<Update>, n: nat, locate: Locator<K>, key: K)
    requires 0 < n <= |updates| && locate(updates[n - 1].path) == Some(key)
    ensures Collected(updates[..n], locate)
         == Filed(Collected(updates[..n - 1], locate), key, LeafOf(updates[n - 1].path), updates[n - 1].val)
  {
    assert updates[..n][..n - 1] == updates[..n - 1];
  }

  lemma {:induction false} NothingElseCollected<K(!new)>(updates: seq<Update>, plan: Schedule, slots: Table<K>,
                                                         locate: Locator<K>, n: nat)
    requires Prints(updates, plan, slots, locate) && n <= |plan|
    ensures KeysOf(slots, Collected(updates[..n], locate))
  {
    if n > 0 {
      var u, key := updates[n - 1], slots[plan[n - 1].0].key;
      assert IsLeaf(u, slots[plan[n - 1].0], plan[n - 1].1, locate);
      NothingElseCollected(updates, plan, slots, locate, n - 1);
      CollectedNext(updates, n, locate, key);
      FiledKeysOf(slots, Collected(updates[..n - 1], locate), key, LeafOf(u.path), u.val);
    }
  }

  lemma CollectedIsPrinted<K(!new)>(updates: seq<Update>, plan: Schedule, slots: Table<K>, locate: Locator<K>, i: nat)
    requires Prints(updates, plan, slots, locate) && DistinctKeys(slots) && i < |Collected(updates, locate)|
    requires forall j :: 0 <= j < |slots| ==> slots[j].leaves != map[]
    ensures Collected(updates, locate)[i] in slots
  {
    var table := Collected(updates, locate);
    assert updates[..|plan|] == updates;
    NothingElseCollected(updates, plan, slots, locate, |plan|);
    assert KeyOfSome(slots, table[i].key);
    var j :| 0 <= j < |slots| && slots[j].key == table[i].key;
    PrintedIsFound(updates, plan, slots, locate, j);
    CollectedByKey(updates, locate, table[i].key);
    FoundAt(table, i);
    var k :| 0 <= k < |table| && table[k] == slots[j];
    FoundAt(table, k);
  }

  lemma {:induction false} CountsOnce<T>(xs: seq<T>, x: T)
    requires Distinct(xs)
    ensures multiset(xs)[x] == if x in xs then 1 else 0
  {
    if xs != [] {
      var init := xs[..|xs| - 1];
      CountsOnce(init, x);
      assert xs == init + [xs[|xs| - 1]];
    }
  }

  lemma SameElements<T(!new)>(xs: seq<T>, ys: seq<T>)
    requires Distinct(xs) && Distinct(ys) && forall x :: x in xs <==> x in ys
    ensures multiset(xs) == multiset(ys)
  {
    forall x
      ensures multiset(xs)[x] == multiset(ys)[x]
    {
      CountsOnce(xs, x);
      CountsOnce(ys, x);
    }
  }

  lemma CollectedHolds<K(!new)>(updates: seq<Update>, plan: Schedule, slots: Table<K>, locate: Locator<K>,
                                slot: Slot<K>)
    requires Prints(updates, plan, slots, locate) && DistinctKeys(slots)
    requires forall j :: 0 <= j < |slots| ==> slots[j].leaves != map[]
    ensures slot in Collected(updates, locate) <==> slot in slots
  {
    if i :| 0 <= i < |Collected(updates, locate)| && Collected(updates, locate)[i] == slot {
      CollectedIsPrinted(updates, plan, slots, locate, i);
    }
    if j :| 0 <= j < |slots| && slots[j] == slot { PrintedIsFound(updates, plan, slots, locate, j); }
  }

  lemma {:induction false} CollectedDistinct<K>(updates: seq<Update>, locate: Locator<K>)
    ensures DistinctKeys(Collected(updates, locate))
  {
    if updates != [] {
      var init, u := updates[..|updates| - 1], updates[|updates| - 1];
      CollectedDistinct(init, locate);
      match locate(u.path)
      case None =>
      case Some(k) => FiledFinds(Collected(init, locate), k, LeafOf(u.path), u.val, k);
    }
  }

  ghost predicate KeysMeet<K(!new)>(table: Table<K>, ok: K -> bool) {
    forall i :: 0 <= i < |table| ==> ok(table[i].key)
  }

  /** Only keys that some path names are collected. */
  lemma {:induction false} CollectedKeysMeet<K(!new)>(updates: seq<Update>, locate: Locator<K>, ok: K -> bool)
    requires forall i :: 0 <= i < |updates| && locate(updates[i].path).Some? ==> ok(locate(updates[i].path).value)
    ensures KeysMeet(Collected(updates, locate), ok)
  {
    if updates != [] { CollectedKeysMeet(updates[..|updates| - 1], locate, ok); }
  }

  // ---------------------------------------------------------------- from slots to states

  /** The states built from the slots that hold enough for one. */
  function Built<K, S>(table: Table<K>, build: Slot<K> -> Option<S>): seq<S> {
    if table == [] then []
    else
      Built(table[..|table| - 1], build)
      + match build(table[|table| - 1]) case None => [] case Some(s) => [s]
  }

  method Build<K, S>(table: Table<K>, build: Slot<K> -> Option<S>) returns (states: seq<S>)
    ensures states == Built(table, build)
  {
    states := [];
    for i := 0 to |table|
      invariant states == Built(table[..i], build)
    {
      assert table[..i + 1][..i] == table[..i];
      var state := build(table[i]);
      if state.Some? {
        states := states + [state.value];
      }
    }
    assert table[..|table|] == table;
  }

  ghost predicate BuiltFrom<K(!new), S>(table: Table<K>, build: Slot<K> -> Option<S>, s: S) {
    exists i :: 0 <= i < |table| && build(table[i]) == Some(s)
  }

  lemma BuiltFromNext<K(!new), S>(table: Table<K>, build: Slot<K> -> Option<S>, s: S)
    requires table != []
    ensures var k := |table| - 1;
      BuiltFrom(table, build, s) <==> BuiltFrom(table[..k], build, s) || build(table[k]) == Some(s)
  {
    var k := |table| - 1;
    if i :| 0 <= i < |table| && build(table[i]) == Some(s) { assert i < k ==> table[..k][i] == table[i]; }
    if i :| 0 <= i < k && build(table[..k][i]) == Some(s) { assert table[i] == table[..k][i]; }
  }

  lemma {:induction false} BuiltHolds<K(!new), S>(table: Table<K>, build: Slot<K> -> Option<S>, s: S)
    ensures s in Built(table, build) <==> BuiltFrom(table, build, s)
    decreases |table|
  {
    if table != [] {
      BuiltHolds(table[..|table| - 1], build, s);
      BuiltFromNext(table, build, s);
    }
  }

  /** `key` reads the key back from a state built of a slot. */
  ghost predicate Keyed<K(!new), S(!new)>(build: Slot<K> -> Option<S>, key: S -> K) {
    forall slot :: build(slot).Some? ==> key(build(slot).value) == slot.key
  }

  lemma BuiltKeyMeets<K(!new), S(!new)>(table: Table<K>, build: Slot<K> -> Option<S>, key: S -> K, ok: K -> bool, s: S)
    requires KeysMeet(table, ok) && Keyed(build, key) && s in Built(table, build)
    ensures ok(key(s))
  {
    BuiltHolds(table, build, s);
  }

  lemma {:induction false} BuiltDoesNotRepeat<K(!new), S(!new)>(table: Table<K>, build: Slot<K> -> Option<S>,
                                                                key: S -> K)
    requires DistinctKeys(table) && Keyed(build, key)
    ensures Distinct(Built(table, build))
    decreases |table|
  {
    if table != [] {
      var k := |table| - 1;
      BuiltDoesNotRepeat(table[..k], build, key);
      var s := build(table[k]);
      if s.Some? {
        BuiltHolds(table[..k], build, s.value);
        assert !BuiltFrom(table[..k], build, s.value);
      }
    }
  }

  /** The slots are those of the states, each enough to build its state from. */
  ghost predicate Renders<K(!new), S(!new)>(slots: Table<K>, states: seq<S>, build: Slot<K> -> Option<S>) {
    |slots| == |states|
    && forall j :: 0 <= j < |slots| ==> slots[j].leaves != map[] && build(slots[j]) == Some(states[j])
  }

  lemma SameStates<K(!new), S(!new)>(table: Table<K>, slots: Table<K>, states: seq<S>, build: Slot<K> -> Option<S>,
                                     s: S)
    requires Renders(slots, states, build) && forall slot :: slot in table <==> slot in slots
    ensures s in Built(table, build) <==> s in states
  {
    BuiltHolds(table, build, s);
    if i :| 0 <= i < |table| && build(table[i]) == Some(s) {
      assert table[i] in slots;
      var j :| 0 <= j < |slots| && slots[j] == table[i];
      assert states[j] == s;
    }
    if j :| 0 <= j < |states| && states[j] == s {
      assert slots[j] in table;
      var i :| 0 <= i < |table| && table[i] == slots[j];
      assert build(table[i]) == Some(s);
    }
  }

  /** Printing states leaf by leaf, in whatever order the leaves come, and parsing gives the same states. */
  lemma PrintThenParse<K(!new), S(!new)>(slots: Table<K>, plan: Schedule, path: (K, string) -> string, states: seq<S>,
                                         locate: Locator<K>, build: Slot<K> -> Option<S>, key: S -> K)
    requires Covers(plan, slots) && Legible(slots, path, locate)
    requires DistinctKeys(slots) && Renders(slots, states, build) && Keyed(build, key)
    ensures multiset(Built(Collected(Printing(slots, plan, path), locate), build)) == multiset(states)
  {
    var updates := Printing(slots, plan, path);
    PrintingPrints(slots, plan, path, locate);
    var table := Collected(updates, locate);
    forall slot
      ensures slot in table <==> slot in slots
    {
      CollectedHolds(updates, plan, slots, locate, slot);
    }
    forall s
      ensures s in Built(table, build) <==> s in states
    {
      SameStates(table, slots, states, build, s);
    }
    CollectedDistinct(updates, locate);
    BuiltDoesNotRepeat(table, build, key);
    StatesDoNotRepeat(slots, states, build, key);
    SameElements(Built(table, build), states);
  }

  lemma StatesDoNotRepeat<K(!new), S(!new)>(slots: Table<K>, states: seq<S>, build: Slot<K> -> Option<S>, key: S -> K)
    requires DistinctKeys(slots) && Renders(slots, states, build) && Keyed(build, key)
    ensures Distinct(states)
  {
    forall i, j | 0 <= i < j < |states|
      ensures states[i] != states[j]
    {
      assert key(build(slots[i]).value) == slots[i].key && key(build(slots[j]).value) == slots[j].key;
    }
  }

  /** Every slot is enough to build some state from. */
  ghost predicate Buildable<K(!new), S>(slots: Table<K>, build: Slot<K> -> Option<S>) {
    forall j :: 0 <= j < |slots| ==> slots[j].leaves != map[] && build(slots[j]).Some?
  }

  ghost predicate SameKeys<K(!new), S(!new)>(slots: Table<K>, states: seq<S>, key: S -> K) {
    |slots| == |states| && forall j :: 0 <= j < |slots| ==> key(states[j]) == slots[j].key
  }

  /** What the slots are read as, one by one. */
  ghost function ReadAs<K(!new), S(!new)>(slots: Table<K>, build: Slot<K> -> Option<S>): (states: seq<S>)
    requires Buildable(slots, build)
    ensures Renders(slots, states, build)
  {
    seq(|slots|, j requires 0 <= j < |slots| => build(slots[j]).value)
  }

  lemma ReadAsSameIff<K(!new), S(!new)>(slots: Table<K>, states: seq<S>, build: Slot<K> -> Option<S>)
    requires Buildable(slots, build) && |slots| == |states|
    ensures ReadAs(slots, build) == states <==> Renders(slots, states, build)
  {
    var found := ReadAs(slots, build);
    if Renders(slots, states, build) {
      assert forall j :: 0 <= j < |slots| ==> Some(found[j]) == build(slots[j]) == Some(states[j]);
    }
  }

  /** With keys of their own, the states are told apart by them. */
  lemma SameStatesIff<K(!new), S(!new)>(slots: Table<K>, found: seq<S>, states: seq<S>, key: S -> K)
    requires DistinctKeys(slots) && SameKeys(slots, found, key) && SameKeys(slots, states, key)
    ensures multiset(found) == multiset(states) <==> found == states
  {
    if multiset(found) == multiset(states) {
      forall j | 0 <= j < |states|
        ensures found[j] == states[j]
      {
        assert states[j] in multiset(found);
        var k :| 0 <= k < |found| && found[k] == states[j];
        assert slots[k].key == slots[j].key;
      }
    }
  }

  /** Of states with keys of their own, each printed into a slot that is enough to build some state from, parsing gives
      back the same states exactly when it reads each slot as the state it was printed for. */
  lemma ParsesBackIff<K(!new), S(!new)>(slots: Table<K>, plan: Schedule, path: (K, string) -> string, states: seq<S>,
                                        locate: Locator<K>, build: Slot<K> -> Option<S>, key: S -> K)
    requires Covers(plan, slots) && Legible(slots, path, locate) && DistinctKeys(slots) && Keyed(build, key)
    requires Buildable(slots, build) && SameKeys(slots, states, key)
    ensures multiset(Built(Collected(Printing(slots, plan, path), locate), build)) == multiset(states)
       <==> Renders(slots, states, build)
  {
    var found := ReadAs(slots, build);
    PrintThenParse(slots, plan, path, found, locate, build, key);
    SameStatesIff(slots, found, states, key);
    ReadAsSameIff(slots, states, build);
  }
}
