/** API keys, minted, rotated and revoked as in services/api_key_rotation.py, and the test by which
    middleware/auth.py accepts them. A key's id is its position in the table. */
module ApiKeys {
  import opened Common

  datatype ApiKey = ApiKey(
    tenant: string, hash: string, role: string, name: string, allowlist: Option<seq<string>>, rate: Option<int>,
    expiresAt: Option<int>, active: bool, rotatedFrom: Option<nat>)

  type Table = seq<ApiKey>

  /** The width of the name column. */
  const NAME_WIDTH := 128

  datatype Error = NotFound | Refused

  predicate HashInUse(keys: Table, hash: string) { exists i :: 0 <= i < |keys| && keys[i].hash == hash }

  /** The database takes a new row whose hash is new and whose name fits. */
  predicate Fits(keys: Table, hash: string, name: string) { !HashInUse(keys, hash) && |name| <= NAME_WIDTH }

  datatype Step =
    | Mint(tenant: string, role: string, name: string, allowlist: Option<seq<string>>, rate: Option<int>,
           ttl: Option<int>, hash: string, now: int)
    | Rotate(tenant: string, id: nat, grace: int, hash: string, date: string, now: int)
    | Revoke(tenant: string, id: nat, now: int)

  predicate Owned(keys: Table, tenant: string, id: nat) { id < |keys| && keys[id].tenant == tenant }

  function Minted(step: Step): ApiKey
    requires step.Mint?
  {
    ApiKey(step.tenant, step.hash, step.role, step.name, if step.allowlist == Some([]) then None else step.allowlist,
           step.rate,
           if step.ttl.Some? && step.ttl.value != 0 then Some(step.now + step.ttl.value) else None,
           true, None)
  }

  function RotatedName(name: string, date: string): string { name + " (rotated " + date + ")" }

  function Successor(existing: ApiKey, step: Step): ApiKey
    requires step.Rotate?
  {
    existing.(hash := step.hash, name := RotatedName(existing.name, step.date), active := true,
              rotatedFrom := Some(step.id))
  }

  /** The step goes through. */
  predicate Succeeds(keys: Table, step: Step) {
    match step
    case Mint(_, _, name, _, _, _, hash, _) => Fits(keys, hash, name)
    case Rotate(tenant, id, _, hash, date, _) =>
      Owned(keys, tenant, id) && Fits(keys, hash, RotatedName(keys[id].name, date))
    case Revoke(tenant, id, _) => Owned(keys, tenant, id)
  }

  function Next(keys: Table, step: Step): Table {
    if !Succeeds(keys, step) then keys
    else
      match step
      case Mint(_, _, _, _, _, _, _, _) => keys + [Minted(step)]
      case Rotate(_, id, grace, _, _, now) =>
        keys[id := keys[id].(expiresAt := Some(now + grace))] + [Successor(keys[id], step)]
      case Revoke(_, id, now) => keys[id := keys[id].(active := false, expiresAt := Some(now))]
  }

  class ApiKeyTable {
    var keys: Table

    constructor ()
      ensures keys == []
    {
      keys := [];
    }

    method MintKey(step: Step) returns (r: Result<nat, Error>)
      requires step.Mint?
      modifies this
      ensures keys == Next(old(keys), step)
      ensures r == if Succeeds(old(keys), step) then Ok(|old(keys)|) else Err(Refused)
      ensures r == Err(Refused) <==>
        (exists i :: 0 <= i < |old(keys)| && old(keys)[i].hash == step.hash) || |step.name| > 128
      ensures r.Ok? ==>
        var k := keys[r.value];
        k.tenant == step.tenant && k.hash == step.hash && k.role == step.role && k.name == step.name
        && k.rate == step.rate && k.active && k.rotatedFrom == None
        && k.allowlist == (if step.allowlist == Some([]) then None else step.allowlist)
        && k.expiresAt == if step.ttl in {None, Some(0)} then None else Some(step.now + step.ttl.value)
    {
      var expiresAt := None;
      if step.ttl.Some? && step.ttl.value != 0 {
        expiresAt := Some(step.now + step.ttl.value);
      }
      var allowlist := if step.allowlist.Some? && step.allowlist.value != [] then step.allowlist else None;
      r := Insert(ApiKey(step.tenant, step.hash, step.role, step.name, allowlist, step.rate, expiresAt, true, None));
    }

    method Insert(key: ApiKey) returns (r: Result<nat, Error>)
      modifies this
      ensures keys == if Fits(old(keys), key.hash, key.name) then old(keys) + [key] else old(keys)
      ensures r == if Fits(old(keys), key.hash, key.name) then Ok(|old(keys)|) else Err(Refused)
    {
      if |key.name| > NAME_WIDTH || exists i :: 0 <= i < |keys| && keys[i].hash == key.hash {
        return Err(Refused);
      }
      r := Ok(|keys|);
      keys := keys + [key];
    }

    /** Both statements are in one transaction. */
    method RotateKey(step: Step) returns (r: Result<nat, Error>)
      requires step.Rotate?
      modifies this
      ensures keys == Next(old(keys), step)
      ensures r == if Succeeds(old(keys), step) then Ok(|old(keys)|)
                   else if Owned(old(keys), step.tenant, step.id) then Err(Refused) else Err(NotFound)
      ensures r == Err(NotFound) <==> step.id >= |old(keys)| || old(keys)[step.id].tenant != step.tenant
      ensures r.Ok? ==>
        var was := old(keys)[step.id];
        keys == old(keys)[step.id := was.(expiresAt := Some(step.now + step.grace))]
                + [ApiKey(was.tenant, step.hash, was.role, was.name + " (rotated " + step.date + ")", was.allowlist,
                          was.rate, was.expiresAt, true, Some(step.id))]
    {
      if step.id >= |keys| || keys[step.id].tenant != step.tenant {
        return Err(NotFound);
      }
      var existing := keys[step.id];
      r := Insert(ApiKey(existing.tenant, step.hash, existing.role, RotatedName(existing.name, step.date),
                         existing.allowlist, existing.rate, existing.expiresAt, true, Some(step.id)));
      if r.Ok? {
        keys := keys[step.id := existing.(expiresAt := Some(step.now + step.grace))];
      }
    }

    method RevokeKey(step: Step) returns (done: bool)
      requires step.Revoke?
      modifies this
      ensures keys == Next(old(keys), step) && (done <==> Succeeds(old(keys), step))
      ensures done <==> step.id < |old(keys)| && old(keys)[step.id].tenant == step.tenant
      ensures done ==> keys == old(keys)[step.id := old(keys)[step.id].(active := false, expiresAt := Some(step.now))]
      ensures !done ==> keys == old(keys)
    {
      done := step.id < |keys| && keys[step.id].tenant == step.tenant;
      if done {
        keys := keys[step.id := keys[step.id].(active := false, expiresAt := Some(step.now))];
      }
    }

    /** `_lookup_context` up to its verdict: the key it accepts, if any. */
    method Lookup(hash: string, tenantActive: string -> bool, now: int) returns (r: Option<nat>)
      ensures r.Some? ==> r.value < |keys| && keys[r.value].hash == hash && IsLive(keys[r.value], tenantActive, now)
      ensures r.None? && Unshared(keys) ==>
        forall i :: 0 <= i < |keys| && keys[i].hash == hash ==> !IsLive(keys[i], tenantActive, now)
    {
      for i := 0 to |keys|
        invariant forall j :: 0 <= j < i && keys[j].hash == hash ==> !keys[j].active || !tenantActive(keys[j].tenant)
      {
        if keys[i].hash == hash && keys[i].active && tenantActive(keys[i].tenant) {
          if keys[i].expiresAt.Some? && keys[i].expiresAt.value <= now {
            return None;
          }
          return Some(i);
        }
      }
      r := None;
    }
  }

  predicate IsLive(key: ApiKey, tenantActive: string -> bool, now: int) {
    key.active && tenantActive(key.tenant) && (key.expiresAt.None? || key.expiresAt.value > now)
  }

  /** Hashes are unique. */
  predicate Unshared(keys: Table) { forall i, j :: 0 <= i < j < |keys| ==> keys[i].hash != keys[j].hash }

  // ---------------------------------------------------------------- runs

  ghost predicate Moves(before: Table, step: Step, after: Table) { after == Next(before, step) }

  /** `tables` are those before, between and after the steps, whatever keys there are at first. */
  ghost predicate IsRun(tables: seq<Table>, steps: seq<Step>) {
    |tables| == |steps| + 1
    && forall i :: 0 <= i < |steps| ==> Moves(tables[i], steps[i], tables[i + 1])
  }

  // ---------------------------------------------------------------- the forest of rotations

  predicate SameScope(a: ApiKey, b: ApiKey) {
    a.tenant == b.tenant && a.role == b.role && a.allowlist == b.allowlist && a.rate == b.rate
  }

  /** Every key comes after the key it was rotated from, and has the same scope. */
  predicate Forest(keys: Table) {
    forall i :: 0 <= i < |keys| && keys[i].rotatedFrom.Some? ==>
      keys[i].rotatedFrom.value < i && SameScope(keys[keys[i].rotatedFrom.value], keys[i])
  }

  lemma NextKeepsForest(keys: Table, step: Step)
    requires Forest(keys)
    ensures Forest(Next(keys, step))
  {}

  lemma {:induction false} RotationsFormAForest(tables: seq<Table>, steps: seq<Step>, n: nat)
    requires IsRun(tables, steps) && n <= |steps| && Forest(tables[0])
    ensures Forest(tables[n])
  {
    if n > 0 {
      RotationsFormAForest(tables, steps, n - 1);
      assert Moves(tables[n - 1], steps[n - 1], tables[n]);
      NextKeepsForest(tables[n - 1], steps[n - 1]);
    }
  }

  /** The key at the start of a chain. */
  function Root(keys: Table, id: nat): nat
    requires Forest(keys) && id < |keys|
  {
    if keys[id].rotatedFrom.None? then id else Root(keys, keys[id].rotatedFrom.value)
  }

  function Depth(keys: Table, id: nat): nat
    requires Forest(keys) && id < |keys|
  {
    if keys[id].rotatedFrom.None? then 0 else 1 + Depth(keys, keys[id].rotatedFrom.value)
  }

  /** Tenant, role, tool allowlist and rate limit are those of the key that was minted. */
  lemma {:induction false} ChainKeepsScope(keys: Table, id: nat)
    requires Forest(keys) && id < |keys|
    ensures Root(keys, id) <= id && keys[Root(keys, id)].rotatedFrom.None? && SameScope(keys[Root(keys, id)], keys[id])
  {
    if keys[id].rotatedFrom.Some? { ChainKeepsScope(keys, keys[id].rotatedFrom.value); }
  }

  predicate DatesFit(steps: seq<Step>) { forall i :: 0 <= i < |steps| && steps[i].Rotate? ==> |steps[i].date| == 10 }

  /** Each rotation lengthens the name by 21 characters, and every name fits its column. */
  predicate NamesGrow(keys: Table) {
    forall i :: 0 <= i < |keys| ==>
      |keys[i].name| <= NAME_WIDTH
      && (keys[i].rotatedFrom.Some? && keys[i].rotatedFrom.value < |keys| ==>
          |keys[i].name| == |keys[keys[i].rotatedFrom.value].name| + 21)
  }

  lemma NextKeepsNames(keys: Table, step: Step)
    requires Forest(keys) && NamesGrow(keys) && (step.Rotate? ==> |step.date| == 10)
    ensures NamesGrow(Next(keys, step))
  {
    if step.Rotate? && Succeeds(keys, step) {
      assert |RotatedName(keys[step.id].name, step.date)| == |keys[step.id].name| + 21;
    }
  }

  lemma {:induction false} RunsKeepNames(tables: seq<Table>, steps: seq<Step>, n: nat)
    requires IsRun(tables, steps) && n <= |steps| && DatesFit(steps) && Forest(tables[0]) && NamesGrow(tables[0])
    ensures NamesGrow(tables[n])
  {
    if n > 0 {
      RunsKeepNames(tables, steps, n - 1);
      RotationsFormAForest(tables, steps, n - 1);
      assert Moves(tables[n - 1], steps[n - 1], tables[n]);
      NextKeepsNames(tables[n - 1], steps[n - 1]);
    }
  }

  lemma {:induction false} NameTellsDepth(keys: Table, id: nat)
    requires Forest(keys) && NamesGrow(keys) && id < |keys|
    ensures Root(keys, id) < |keys| && |keys[id].name| == |keys[Root(keys, id)].name| + 21 * Depth(keys, id)
  {
    if keys[id].rotatedFrom.Some? { NameTellsDepth(keys, keys[id].rotatedFrom.value); }
  }

  /** So a chain of rotations is never longer than six: the column for names is full by then. */
  lemma ChainsAreShort(tables: seq<Table>, steps: seq<Step>, n: nat, id: nat)
    requires IsRun(tables, steps) && n <= |steps| && DatesFit(steps) && Forest(tables[0]) && NamesGrow(tables[0])
    requires Forest(tables[n]) && id < |tables[n]|
    ensures Depth(tables[n], id) <= 6
  {
    RunsKeepNames(tables, steps, n);
    NameTellsDepth(tables[n], id);
  }

  /** A key can be rotated, under a hash of its own, exactly while 21 more characters fit its name. */
  lemma RotationFitsIff(keys: Table, step: Step)
    requires step.Rotate? && Owned(keys, step.tenant, step.id) && !HashInUse(keys, step.hash) && |step.date| == 10
    ensures Succeeds(keys, step) <==> |keys[step.id].name| <= 107
  {
    assert |RotatedName(keys[step.id].name, step.date)| == |keys[step.id].name| + 21;
  }

  /** So how far a chain can grow is settled by the name of the key at its start. */
  lemma ChainGrowsIff(tables: seq<Table>, steps: seq<Step>, n: nat)
    requires IsRun(tables, steps) && n < |steps| && DatesFit(steps) && Forest(tables[0]) && NamesGrow(tables[0])
    requires steps[n].Rotate? && Owned(tables[n], steps[n].tenant, steps[n].id) && !HashInUse(tables[n], steps[n].hash)
    ensures Forest(tables[n]) && Root(tables[n], steps[n].id) < |tables[n]|
    ensures Succeeds(tables[n], steps[n]) <==> |tables[n][steps[n].id].name| <= 107
    ensures Succeeds(tables[n], steps[n])
       <==> |tables[n][Root(tables[n], steps[n].id)].name| + 21 * (Depth(tables[n], steps[n].id) + 1) <= NAME_WIDTH
  {
    RotationsFormAForest(tables, steps, n);
    RunsKeepNames(tables, steps, n);
    NameTellsDepth(tables[n], steps[n].id);
    RotationFitsIff(tables[n], steps[n]);
  }

  // ---------------------------------------------------------------- which keys are live

  predicate Rotates(keys: Table, step: Step, id: nat) { step.Rotate? && step.id == id && Succeeds(keys, step) }

  predicate Revokes(keys: Table, step: Step, id: nat) { step.Revoke? && step.id == id && Succeeds(keys, step) }

  lemma NextKeepsKey(keys: Table, step: Step, id: nat)
    requires id < |keys|
    ensures id < |Next(keys, step)|
    ensures var a, b := keys[id], Next(keys, step)[id];
      SameScope(a, b) && b.hash == a.hash && b.rotatedFrom == a.rotatedFrom
      && b.active == (a.active && !Revokes(keys, step, id))
      && b.expiresAt == (if Rotates(keys, step, id) then Some(step.now + step.grace)
                         else if Revokes(keys, step, id) then Some(step.now) else a.expiresAt)
  {}

  lemma {:induction false} RevokedStaysInactive(tables: seq<Table>, steps: seq<Step>, m: nat, n: nat, id: nat)
    requires IsRun(tables, steps) && m <= n <= |steps| && id < |tables[m]| && !tables[m][id].active
    ensures id < |tables[n]| && !tables[n][id].active
  {
    if m < n {
      RevokedStaysInactive(tables, steps, m, n - 1, id);
      assert Moves(tables[n - 1], steps[n - 1], tables[n]);
      NextKeepsKey(tables[n - 1], steps[n - 1], id);
    }
  }

  /** A revoked key is never live again, whatever happens after. */
  lemma RevokedIsNeverLive(tables: seq<Table>, steps: seq<Step>, m: nat, n: nat, id: nat, tenantActive: string -> bool,
                           t: int)
    requires IsRun(tables, steps) && m < n <= |steps| && Revokes(tables[m], steps[m], id)
    ensures id < |tables[n]| && !IsLive(tables[n][id], tenantActive, t)
  {
    assert Moves(tables[m], steps[m], tables[m + 1]);
    NextKeepsKey(tables[m], steps[m], id);
    RevokedStaysInactive(tables, steps, m + 1, n, id);
  }

  function TenantOf(step: Step): string {
    match step
    case Mint(tenant, _, _, _, _, _, _, _) => tenant
    case Rotate(tenant, _, _, _, _, _) => tenant
    case Revoke(tenant, _, _) => tenant
  }

  lemma NextIsolates(keys: Table, step: Step, id: nat)
    requires id < |keys| && keys[id].tenant != TenantOf(step)
    ensures id < |Next(keys, step)| && Next(keys, step)[id] == keys[id]
  {}

  /** Whatever other tenants do, in any run, a key stays exactly as it was. */
  lemma {:induction false} TenantsAreIsolated(tables: seq<Table>, steps: seq<Step>, m: nat, n: nat, id: nat)
    requires IsRun(tables, steps) && m <= n <= |steps| && id < |tables[m]|
    requires forall i :: m <= i < n ==> TenantOf(steps[i]) != tables[m][id].tenant
    ensures id < |tables[n]| && tables[n][id] == tables[m][id]
  {
    if m < n {
      TenantsAreIsolated(tables, steps, m, n - 1, id);
      assert Moves(tables[n - 1], steps[n - 1], tables[n]);
      NextIsolates(tables[n - 1], steps[n - 1], id);
    }
  }

  /** No step from `m` up to `n` rotates or revokes the key. */
  ghost predicate LeftAlone(tables: seq<Table>, steps: seq<Step>, m: nat, n: nat, id: nat)
    requires n <= |steps| < |tables|
  {
    forall i :: m <= i < n ==> !Rotates(tables[i], steps[i], id) && !Revokes(tables[i], steps[i], id)
  }

  lemma {:induction false} KeyStays(tables: seq<Table>, steps: seq<Step>, m: nat, n: nat, id: nat)
    requires IsRun(tables, steps) && m <= n <= |steps| && id < |tables[m]| && LeftAlone(tables, steps, m, n, id)
    ensures id < |tables[n]| && tables[n][id].active == tables[m][id].active
    ensures tables[n][id].expiresAt == tables[m][id].expiresAt && tables[n][id].tenant == tables[m][id].tenant
  {
    if m < n {
      KeyStays(tables, steps, m, n - 1, id);
      assert Moves(tables[n - 1], steps[n - 1], tables[n]);
      NextKeepsKey(tables[n - 1], steps[n - 1], id);
      assert !Rotates(tables[n - 1], steps[n - 1], id) && !Revokes(tables[n - 1], steps[n - 1], id);
    }
  }

  /** A minted key that is left alone is live exactly while its ttl runs, and for good without one; a ttl of zero
      is none. */
  lemma MintedKeyLiveIff(tables: seq<Table>, steps: seq<Step>, m: nat, n: nat, tenantActive: string -> bool, t: int)
    requires IsRun(tables, steps) && m < n <= |steps| && steps[m].Mint? && Succeeds(tables[m], steps[m])
    requires LeftAlone(tables, steps, m + 1, n, |tables[m]|)
    ensures |tables[m]| < |tables[n]|
    ensures IsLive(tables[n][|tables[m]|], tenantActive, t)
       <==> tenantActive(steps[m].tenant)
            && (steps[m].ttl.None? || steps[m].ttl.value == 0 || t < steps[m].now + steps[m].ttl.value)
  {
    assert Moves(tables[m], steps[m], tables[m + 1]);
    KeyStays(tables, steps, m + 1, n, |tables[m]|);
  }

  /** From its last rotation on, a key that is left alone is live exactly until the grace has passed, even if it
      had expired before; and only if it had not been revoked and its tenant is active. */
  lemma RotatedKeyLiveIff(tables: seq<Table>, steps: seq<Step>, m: nat, n: nat, id: nat, tenantActive: string -> bool,
                          t: int)
    requires IsRun(tables, steps) && m < n <= |steps| && Rotates(tables[m], steps[m], id)
      && LeftAlone(tables, steps, m + 1, n, id)
    ensures id < |tables[m]| && id < |tables[n]|
    ensures IsLive(tables[n][id], tenantActive, t)
       <==> tables[m][id].active && tenantActive(tables[m][id].tenant) && t < steps[m].now + steps[m].grace
  {
    assert Moves(tables[m], steps[m], tables[m + 1]);
    NextKeepsKey(tables[m], steps[m], id);
    KeyStays(tables, steps, m + 1, n, id);
  }

  lemma {:induction false} DeadlineHolds(tables: seq<Table>, steps: seq<Step>, m: nat, n: nat, id: nat, limit: int)
    requires IsRun(tables, steps) && m <= n <= |steps| && id < |tables[m]|
    requires !tables[m][id].active || (tables[m][id].expiresAt.Some? && tables[m][id].expiresAt.value <= limit)
    requires forall i :: m <= i < n ==> !Rotates(tables[i], steps[i], id)
    ensures id < |tables[n]|
    ensures !tables[n][id].active || (tables[n][id].expiresAt.Some? && tables[n][id].expiresAt.value <= limit)
  {
    if m < n {
      DeadlineHolds(tables, steps, m, n - 1, id, limit);
      assert Moves(tables[n - 1], steps[n - 1], tables[n]);
      NextKeepsKey(tables[n - 1], steps[n - 1], id);
    }
  }

  /** A key whose last rotation was at `now` with some grace is dead from `now + grace` on, revoked or not. */
  lemma RotatedKeyDies(tables: seq<Table>, steps: seq<Step>, m: nat, n: nat, id: nat, tenantActive: string -> bool,
                       t: int)
    requires IsRun(tables, steps) && m < n <= |steps| && Rotates(tables[m], steps[m], id)
    requires forall i :: m < i < n ==> !Rotates(tables[i], steps[i], id)
    requires t >= steps[m].now + steps[m].grace
    ensures id < |tables[n]| && !IsLive(tables[n][id], tenantActive, t)
  {
    assert Moves(tables[m], steps[m], tables[m + 1]);
    NextKeepsKey(tables[m], steps[m], id);
    DeadlineHolds(tables, steps, m + 1, n, id, steps[m].now + steps[m].grace);
  }

  /** A rotation passes on the deadline of the key, so a key rotated for the first time hands down the one it was
      made with, and a key rotated again hands down only the grace it was given. */
  lemma SuccessorInheritsDeadline(tables: seq<Table>, steps: seq<Step>, k: nat, m: nat, id: nat)
    requires IsRun(tables, steps) && k <= m < |steps| && id < |tables[k]| && LeftAlone(tables, steps, k, m, id)
    requires Rotates(tables[m], steps[m], id)
    ensures |tables[m + 1]| == |tables[m]| + 1
    ensures var s := tables[m + 1][|tables[m]|];
      s.expiresAt == tables[k][id].expiresAt && s.rotatedFrom == Some(id) && s.active
  {
    assert Moves(tables[m], steps[m], tables[m + 1]);
    KeyStays(tables, steps, k, m, id);
  }

  /** The last step before a rotation that touched the key set the deadline that the successor gets: a successor left
      alone is live exactly until then, whether or not the key it came from was revoked. */
  lemma SuccessorLiveIff(tables: seq<Table>, steps: seq<Step>, q: nat, m: nat, n: nat, id: nat,
                         tenantActive: string -> bool, t: int)
    requires IsRun(tables, steps) && q < m < n <= |steps| && Rotates(tables[m], steps[m], id)
    requires Rotates(tables[q], steps[q], id) || Revokes(tables[q], steps[q], id)
    requires LeftAlone(tables, steps, q + 1, m, id) && LeftAlone(tables, steps, m + 1, n, |tables[m]|)
    ensures |tables[m]| < |tables[n]| && id < |tables[q]|
    ensures IsLive(tables[n][|tables[m]|], tenantActive, t)
       <==> tenantActive(tables[q][id].tenant)
            && t < if steps[q].Revoke? then steps[q].now else steps[q].now + steps[q].grace
  {
    assert Moves(tables[q], steps[q], tables[q + 1]);
    NextKeepsKey(tables[q], steps[q], id);
    KeyStays(tables, steps, q + 1, m, id);
    SuccessorInheritsDeadline(tables, steps, q + 1, m, id);
    SuccessorKeepsTenant(tables, steps, m, id);
    KeyStays(tables, steps, m + 1, n, |tables[m]|);
  }

  lemma SuccessorKeepsTenant(tables: seq<Table>, steps: seq<Step>, m: nat, id: nat)
    requires IsRun(tables, steps) && m < |steps| && Rotates(tables[m], steps[m], id)
    ensures |tables[m + 1]| == |tables[m]| + 1 && tables[m + 1][|tables[m]|].tenant == tables[m][id].tenant
  {
    assert Moves(tables[m], steps[m], tables[m + 1]);
  }

  const MINT := Mint("t", "viewer", "k", None, None, None, "a", 0)
  const REVOKE := Revoke("t", 0, 10)
  const FIRST := Rotate("t", 0, 100, "b", "2026-01-01", 20)
  const SECOND := Rotate("t", 0, 100, "c", "2026-01-01", 30)

  lemma MintedThenRevoked()
    ensures Next(Next([], MINT), REVOKE) == [Minted(MINT).(active := false, expiresAt := Some(10))]
  {}

  /** A key minted, revoked and then rotated twice: the first successor was never live, the second is live until the
      first grace has passed, though the key itself stays dead. */
  lemma RevokedKeyLivesOn(tenantActive: string -> bool)
    requires tenantActive("t")
    ensures var keys := Next(Next(Next(Next([], MINT), REVOKE), FIRST), SECOND);
      |keys| == 3 && !IsLive(keys[0], tenantActive, 50) && !IsLive(keys[1], tenantActive, 50)
        && IsLive(keys[2], tenantActive, 50)
  {
    MintedThenRevoked();
    var keys := Next(Next([], MINT), REVOKE);
    assert keys[0].hash == "a" && "a"[0] == 'a' && "b"[0] == 'b' && "c"[0] == 'c';
    assert Fits(keys, "b", RotatedName("k", "2026-01-01"));
    var once := Next(keys, FIRST);
    assert |once| == 2 && once[0].hash == "a" && once[1].hash == "b";
    assert Fits(once, "c", RotatedName("k", "2026-01-01"));
  }

  lemma MovesKeepsUnshared(before: Table, step: Step, after: Table)
    requires Unshared(before) && Moves(before, step, after)
    ensures Unshared(after)
  {}

  /** No two keys ever share a hash, so a lookup can only ever mean one. */
  lemma {:induction false} HashesStayUnique(tables: seq<Table>, steps: seq<Step>, n: nat)
    requires IsRun(tables, steps) && n <= |steps| && Unshared(tables[0])
    ensures Unshared(tables[n])
  {
    if n > 0 {
      HashesStayUnique(tables, steps, n - 1);
      MovesKeepsUnshared(tables[n - 1], steps[n - 1], tables[n]);
    }
  }
}
