/** The encrypted secrets of services/crypto.py, with symbolic encryption: a ciphertext opens under the
    key it was made with and under no other. */
module Secrets {
  import opened Common

  datatype Cipher = Sealed(key: string, plaintext: string)

  /** `pgp_sym_decrypt`. */
  function Opened(c: Cipher, key: string): Option<string> { if c.key == key then Some(c.plaintext) else None }

  datatype Handle = Handle(tenant: string, kind: string, ref: string)

  datatype Row = Row(id: string, cipher: Cipher, version: int)

  type Table = map<Handle, Row>

  datatype Error = NoKey | BadVersion | WrongKey

  /** FLOWMIND_DATA_KEY and FLOWMIND_DATA_KEY_VERSION; `version` is None when it is no integer. */
  datatype Env = Env(key: Option<string>, version: Option<int>)

  function KeyOf(env: Env): Result<string, Error> {
    if env.key.None? || env.key.value == "" then Err(NoKey) else Ok(env.key.value)
  }

  function Stored(rows: Table, h: Handle, plaintext: string, key: string, version: int, freshId: string): Table {
    rows[h := Row(if h in rows then rows[h].id else freshId, Sealed(key, plaintext), version)]
  }

  datatype Secret = Secret(id: string, plaintext: string, version: int)

  function Answer(rows: Table, env: Env, h: Handle): Result<Option<Secret>, Error> {
    match KeyOf(env)
    case Err(e) => Err(e)
    case Ok(key) =>
      if h !in rows then Ok(None)
      else
        match Opened(rows[h].cipher, key)
        case None => Err(WrongKey)
        case Some(plaintext) => Ok(Some(Secret(rows[h].id, plaintext, rows[h].version)))
  }

  function Rewrapped(r: Row, newKey: string, version: int): Row {
    if r.version == version then r else Row(r.id, Sealed(newKey, r.cipher.plaintext), version)
  }

  function RewrappedAll(rows: Table, newKey: string, version: int): Table {
    map h | h in rows :: Rewrapped(rows[h], newKey, version)
  }

  /** Every row that the update touches opens under the old key. */
  predicate CanRewrap(rows: Table, oldKey: string, version: int) {
    forall h :: h in rows && rows[h].version != version ==> rows[h].cipher.key == oldKey
  }

  function Touched(rows: Table, version: int): set<Handle> { set h | h in rows && rows[h].version != version }

  class SecretStore {
    var rows: Table

    constructor ()
      ensures rows == map[]
    {
      rows := map[];
    }

    method StoreSecret(env: Env, h: Handle, plaintext: string, freshId: string) returns (r: Result<string, Error>)
      modifies this
      ensures r == Err(NoKey) <==> env.key.None? || env.key.value == ""
      ensures r == Err(BadVersion) <==> env.key.Some? && env.key.value != "" && env.version.None?
      ensures r.Err? ==> rows == old(rows)
      ensures r.Ok? ==>
        rows == old(rows)[h := Row(r.value, Sealed(env.key.value, plaintext), env.version.value)]
        && r.value == if h in old(rows) then old(rows)[h].id else freshId
      ensures KeyOf(env).Ok? && env.version.Some? ==>
        rows == Stored(old(rows), h, plaintext, KeyOf(env).value, env.version.value, freshId) && r == Ok(rows[h].id)
    {
      var key := KeyOf(env);
      if key.Err? {
        return Err(NoKey);
      }
      if env.version.None? {
        return Err(BadVersion);
      }
      var id := if h in rows then rows[h].id else freshId;
      rows := rows[h := Row(id, Sealed(key.value, plaintext), env.version.value)];
      r := Ok(id);
    }

    method ReadSecret(env: Env, h: Handle) returns (r: Result<Option<Secret>, Error>)
      ensures r == Answer(rows, env, h)
      ensures r == Err(NoKey) <==> env.key.None? || env.key.value == ""
      ensures r == Ok(None) <==> env.key.Some? && env.key.value != "" && h !in rows
      ensures r == Err(WrongKey) <==>
        env.key.Some? && env.key.value != "" && h in rows && rows[h].cipher.key != env.key.value
    {
      var key := KeyOf(env);
      if key.Err? {
        return Err(NoKey);
      }
      if h !in rows {
        return Ok(None);
      }
      var plaintext := Opened(rows[h].cipher, key.value);
      if plaintext.None? {
        return Err(WrongKey);
      }
      r := Ok(Some(Secret(rows[h].id, plaintext.value, rows[h].version)));
    }

    /** `rewrap_all`: one UPDATE, so that one row that does not open undoes all. */
    method RewrapAll(oldKey: string, newKey: string, version: int) returns (r: Result<nat, Error>)
      modifies this
      ensures r.Ok? <==> CanRewrap(old(rows), oldKey, version)
      ensures r.Ok? ==> rows == RewrappedAll(old(rows), newKey, version) && r.value == |Touched(old(rows), version)|
      ensures r.Err? ==> rows == old(rows)
    {
      var after, left, count := rows, Touched(rows, version), 0;
      while left != {}
        invariant rows == old(rows) && left <= Touched(rows, version) && count + |left| == |Touched(rows, version)|
        invariant after.Keys == rows.Keys
        invariant forall h :: h in rows ==>
          after[h] == if h in left then rows[h] else Rewrapped(rows[h], newKey, version)
        invariant forall h :: h in Touched(rows, version) && h !in left ==> rows[h].cipher.key == oldKey
        decreases |left|
      {
        var h :| h in left;
        var plaintext := Opened(rows[h].cipher, oldKey);
        if plaintext.None? {
          return Err(WrongKey);
        }
        after := after[h := Row(rows[h].id, Sealed(newKey, plaintext.value), version)];
        left := left - {h};
        count := count + 1;
      }
      assert after == RewrappedAll(rows, newKey, version);
      rows := after;
      r := Ok(count);
    }
  }

  // ---------------------------------------------------------------- reading and rewrapping

  /** A store that succeeds can be read back at once, and disturbs nothing else. */
  lemma StoreThenRead(rows: Table, h: Handle, plaintext: string, env: Env, freshId: string)
    requires KeyOf(env).Ok? && env.version.Some?
    ensures var after := Stored(rows, h, plaintext, KeyOf(env).value, env.version.value, freshId);
      Answer(after, env, h) == Ok(Some(Secret(after[h].id, plaintext, env.version.value)))
      && (h in rows ==> after[h].id == rows[h].id)
      && forall g :: g != h ==> Answer(after, env, g) == Answer(rows, env, g)
  {}

  /** A successful rewrap to any new key keeps every handle, id and plaintext and gives all rows the new
      version; what it touched opens under the new key alone, what it did not touch as before. */
  lemma RewrapKeepsSecrets(rows: Table, oldKey: string, newKey: string, version: int, env: Env, h: Handle)
    requires CanRewrap(rows, oldKey, version) && h in rows && KeyOf(env).Ok?
    ensures var after := RewrappedAll(rows, newKey, version);
      after.Keys == rows.Keys && after[h].id == rows[h].id && after[h].version == version
      && after[h].cipher.plaintext == rows[h].cipher.plaintext
      && Answer(after, env, h)
         == if rows[h].version == version then Answer(rows, env, h)
            else if KeyOf(env).value == newKey then Ok(Some(Secret(rows[h].id, rows[h].cipher.plaintext, version)))
            else Err(WrongKey)
  {}

  /** Every row that has the version already is sealed under the key. */
  predicate AlreadyUnder(rows: Table, key: string, version: int) {
    forall h :: h in rows && rows[h].version == version ==> rows[h].cipher.key == key
  }

  predicate Readable(rows: Table, key: string) {
    forall h :: h in rows ==> Answer(rows, Env(Some(key), None), h).Ok?
  }

  /** A successful rewrap leaves everything readable under the new key exactly when the rows that had the new
      version before were already sealed under that key. */
  lemma RewrapReadableIff(rows: Table, oldKey: string, newKey: string, version: int)
    requires CanRewrap(rows, oldKey, version) && newKey != ""
    ensures Readable(RewrappedAll(rows, newKey, version), newKey) <==> AlreadyUnder(rows, newKey, version)
  {
    var after := RewrappedAll(rows, newKey, version);
    if Readable(after, newKey) {
      forall h | h in rows && rows[h].version == version
        ensures rows[h].cipher.key == newKey
      {
        assert h in after && Answer(after, Env(Some(newKey), None), h).Ok?;
      }
    }
  }

  /** A version number used before, with another key: the rewrap succeeds, and leaves one version under two
      keys and a secret that the new key does not open. */
  lemma ReusedVersionLeavesTwoKeys(g: Handle, h: Handle)
    requires g != h
    ensures var rows := map[g := Row("1", Sealed("k1", "a"), 1), h := Row("2", Sealed("k2", "b"), 2)];
      var after := RewrappedAll(rows, "k3", 2);
      OneKeyPerVersion(rows) && CanRewrap(rows, "k1", 2) && !OneKeyPerVersion(after)
      && after[g] == Row("1", Sealed("k3", "a"), 2) && after[h] == Row("2", Sealed("k2", "b"), 2)
      && Answer(after, Env(Some("k3"), Some(2)), h) == Err(WrongKey)
  {
    var rows := map[g := Row("1", Sealed("k1", "a"), 1), h := Row("2", Sealed("k2", "b"), 2)];
    var after := RewrappedAll(rows, "k3", 2);
    assert "k2"[1] != "k3"[1];
    assert !SameVersionSameKey(after, g, h);
  }

  /** Once rewrapped, rewrapping to the same version again finds nothing to do, whatever the old key. */
  lemma RewrapTwice(rows: Table, newKey: string, anyKey: string, otherKey: string, version: int)
    ensures var once := RewrappedAll(rows, newKey, version);
      CanRewrap(once, anyKey, version) && Touched(once, version) == {} && RewrappedAll(once, otherKey, version) == once
  {}

  /** A key turned over without a new version number: the rewrap succeeds on no row, and nothing can be read
      with the new key. */
  lemma UnbumpedVersionRewrapsNothing(rows: Table, oldKey: string, newKey: string, version: int, h: Handle)
    requires (forall g :: g in rows ==> rows[g].version == version && rows[g].cipher.key == oldKey)
    requires h in rows && newKey != oldKey && newKey != ""
    ensures CanRewrap(rows, oldKey, version) && RewrappedAll(rows, newKey, version) == rows
    ensures Answer(RewrappedAll(rows, newKey, version), Env(Some(newKey), Some(version)), h) == Err(WrongKey)
  {
    assert RewrappedAll(rows, newKey, version) == rows;
  }

  // ---------------------------------------------------------------- runs

  /** Statements, each with the keys and version that an operator gave it. */
  datatype Step =
    | Store(h: Handle, plaintext: string, key: string, version: int, freshId: string)
    | Rewrap(oldKey: string, newKey: string, version: int)

  function Next(rows: Table, step: Step): Table {
    match step
    case Store(h, plaintext, key, version, freshId) => Stored(rows, h, plaintext, key, version, freshId)
    case Rewrap(oldKey, newKey, version) =>
      if CanRewrap(rows, oldKey, version) then RewrappedAll(rows, newKey, version) else rows
  }

  ghost predicate Moves(before: Table, step: Step, after: Table) { after == Next(before, step) }

  /** `tables` are those before, between and after the steps, whatever was stored at first. */
  ghost predicate IsRun(tables: seq<Table>, steps: seq<Step>) {
    |tables| == |steps| + 1 && forall i :: 0 <= i < |steps| ==> Moves(tables[i], steps[i], tables[i + 1])
  }

  function PlaintextOf(rows: Table): map<Handle, string> { map h | h in rows :: rows[h].cipher.plaintext }

  /** The reference: the last plaintext stored under each handle; rewrapping changes nothing. */
  function Plain(first: Table, steps: seq<Step>, n: nat): map<Handle, string>
    requires n <= |steps|
  {
    if n == 0 then PlaintextOf(first)
    else if steps[n - 1].Store? then Plain(first, steps, n - 1)[steps[n - 1].h := steps[n - 1].plaintext]
    else Plain(first, steps, n - 1)
  }

  lemma NextPlain(rows: Table, step: Step)
    ensures PlaintextOf(Next(rows, step))
         == if step.Store? then PlaintextOf(rows)[step.h := step.plaintext] else PlaintextOf(rows)
  {}

  /** However stores and rewraps interleave, with whatever keys, the table holds the last plaintext of each handle. */
  lemma {:induction false} TableRefinesPlain(tables: seq<Table>, steps: seq<Step>, n: nat)
    requires IsRun(tables, steps) && n <= |steps|
    ensures PlaintextOf(tables[n]) == Plain(tables[0], steps, n)
  {
    if n > 0 {
      TableRefinesPlain(tables, steps, n - 1);
      assert Moves(tables[n - 1], steps[n - 1], tables[n]);
      NextPlain(tables[n - 1], steps[n - 1]);
    }
  }

  /** A read gives the last plaintext stored, or an error exactly when the key at hand is not the one the row is
      sealed under: never a wrong plaintext. */
  lemma ReadIsRightOrRefused(tables: seq<Table>, steps: seq<Step>, n: nat, env: Env, h: Handle)
    requires IsRun(tables, steps) && n <= |steps| && KeyOf(env).Ok?
    ensures var rows, plain, r := tables[n], Plain(tables[0], steps, n), Answer(tables[n], env, h);
      if h !in plain then r == Ok(None)
      else
        h in rows && (r.Ok? <==> rows[h].cipher.key == KeyOf(env).value)
        && (r.Ok? ==> r.value.Some? && r.value.value.plaintext == plain[h])
  {
    TableRefinesPlain(tables, steps, n);
    assert h in PlaintextOf(tables[n]) <==> h in tables[n];
  }

  /** After any run, a rewrap that succeeds makes every secret stored so far readable with the new key exactly
      when no row had the new version under another key. */
  lemma RotationCompletesIff(tables: seq<Table>, steps: seq<Step>, n: nat)
    requires IsRun(tables, steps) && n < |steps| && steps[n].Rewrap? && steps[n].newKey != ""
    requires CanRewrap(tables[n], steps[n].oldKey, steps[n].version)
    ensures var env, plain := Env(Some(steps[n].newKey), Some(steps[n].version)), Plain(tables[0], steps, n);
      (forall h :: h in plain ==> Reads(tables[n + 1], env, h, plain[h], steps[n].version))
      <==> AlreadyUnder(tables[n], steps[n].newKey, steps[n].version)
  {
    var env, plain := Env(Some(steps[n].newKey), Some(steps[n].version)), Plain(tables[0], steps, n);
    assert Moves(tables[n], steps[n], tables[n + 1]);
    TableRefinesPlain(tables, steps, n);
    assert forall h :: h in plain <==> h in tables[n];
    forall h | h in plain
      ensures Reads(tables[n + 1], env, h, plain[h], steps[n].version)
         <==> (tables[n][h].version == steps[n].version ==> tables[n][h].cipher.key == steps[n].newKey)
    {
      RewrapKeepsSecrets(tables[n], steps[n].oldKey, steps[n].newKey, steps[n].version, env, h);
      assert PlaintextOf(tables[n])[h] == plain[h];
    }
  }

  predicate Reads(rows: Table, env: Env, h: Handle, plaintext: string, version: int) {
    var r := Answer(rows, env, h);
    r.Ok? && r.value.Some? && r.value.value.plaintext == plaintext && r.value.value.version == version
  }

  // ---------------------------------------------------------------- one key per version

  predicate SameVersionSameKey(rows: Table, g: Handle, h: Handle)
    requires g in rows && h in rows
  {
    rows[g].version == rows[h].version ==> rows[g].cipher.key == rows[h].cipher.key
  }

  /** What the version column is for: it tells the key. */
  predicate OneKeyPerVersion(rows: Table) { forall g, h :: g in rows && h in rows ==> SameVersionSameKey(rows, g, h) }

  /** What an operator can look up before the step: a version number in use goes with the key it is used for. */
  predicate Careful(rows: Table, step: Step) {
    match step
    case Store(h, _, key, version, _) =>
      forall g :: g in rows && g != h && rows[g].version == version ==> rows[g].cipher.key == key
    case Rewrap(oldKey, newKey, version) =>
      CanRewrap(rows, oldKey, version) && Touched(rows, version) != {} ==> AlreadyUnder(rows, newKey, version)
  }

  lemma StoreKeepsOneKeyIff(rows: Table, h: Handle, plaintext: string, key: string, version: int, freshId: string)
    requires OneKeyPerVersion(rows)
    ensures OneKeyPerVersion(Stored(rows, h, plaintext, key, version, freshId))
       <==> forall g :: g in rows && g != h && rows[g].version == version ==> rows[g].cipher.key == key
  {
    var after := Stored(rows, h, plaintext, key, version, freshId);
    if OneKeyPerVersion(after) {
      forall g | g in rows && g != h && rows[g].version == version
        ensures rows[g].cipher.key == key
      {
        assert SameVersionSameKey(after, g, h);
      }
    } else {
      var f, g :| f in after && g in after && !SameVersionSameKey(after, f, g);
      assert f != h && g != h ==> SameVersionSameKey(rows, f, g);
    }
  }

  lemma RewrapKeepsOneKeyIff(rows: Table, newKey: string, version: int)
    requires OneKeyPerVersion(rows)
    ensures OneKeyPerVersion(RewrappedAll(rows, newKey, version))
       <==> Touched(rows, version) == {} || AlreadyUnder(rows, newKey, version)
  {
    var after := RewrappedAll(rows, newKey, version);
    if Touched(rows, version) == {} {
      assert after == rows by { assert forall h :: h in rows ==> h !in Touched(rows, version); }
    } else if !AlreadyUnder(rows, newKey, version) {
      var g :| g in Touched(rows, version);
      var h :| h in rows && rows[h].version == version && rows[h].cipher.key != newKey;
      assert !SameVersionSameKey(after, g, h);
    }
  }

  /** A step keeps the version column truthful exactly when it is careful. */
  lemma NextKeepsOneKeyIff(rows: Table, step: Step)
    requires OneKeyPerVersion(rows)
    ensures OneKeyPerVersion(Next(rows, step)) <==> Careful(rows, step)
  {
    match step
    case Store(h, plaintext, key, version, freshId) => StoreKeepsOneKeyIff(rows, h, plaintext, key, version, freshId);
    case Rewrap(_, newKey, version) => RewrapKeepsOneKeyIff(rows, newKey, version);
  }

  /** Over every run, each version has one key throughout exactly when every step was careful. */
  lemma {:induction false} RunsKeepOneKeyIff(tables: seq<Table>, steps: seq<Step>, n: nat)
    requires IsRun(tables, steps) && n <= |steps| && OneKeyPerVersion(tables[0])
    ensures (forall i :: 0 <= i <= n ==> OneKeyPerVersion(tables[i]))
       <==> forall i :: 0 <= i < n ==> Careful(tables[i], steps[i])
  {
    if n > 0 {
      RunsKeepOneKeyIff(tables, steps, n - 1);
      assert Moves(tables[n - 1], steps[n - 1], tables[n]);
      if OneKeyPerVersion(tables[n - 1]) { NextKeepsOneKeyIff(tables[n - 1], steps[n - 1]); }
    }
  }

  /** Every row of version v is sealed under the key that `ring` has for v. */
  predicate Keyed(rows: Table, ring: int -> string) {
    forall h :: h in rows ==> rows[h].cipher.key == ring(rows[h].version)
  }

  /** The steps take their keys from a ring, one key for each version. */
  predicate FromRing(steps: seq<Step>, ring: int -> string) {
    forall i :: 0 <= i < |steps| ==>
      match steps[i]
      case Store(_, _, key, version, _) => key == ring(version)
      case Rewrap(_, newKey, version) => newKey == ring(version)
  }

  /** Steps that take their keys from one ring keep to it, failed rewraps included. */
  lemma {:induction false} RunsStayKeyed(tables: seq<Table>, steps: seq<Step>, n: nat, ring: int -> string)
    requires IsRun(tables, steps) && n <= |steps| && Keyed(tables[0], ring) && FromRing(steps, ring)
    ensures Keyed(tables[n], ring) && OneKeyPerVersion(tables[n])
  {
    if n > 0 {
      RunsStayKeyed(tables, steps, n - 1, ring);
      assert Moves(tables[n - 1], steps[n - 1], tables[n]);
    }
  }

  /** Under a ring a rewrap succeeds exactly when every version still in use, but the new one, has the old key. */
  lemma RewrapSucceedsIff(rows: Table, oldKey: string, version: int, ring: int -> string)
    requires Keyed(rows, ring)
    ensures CanRewrap(rows, oldKey, version)
       <==> forall h :: h in rows && rows[h].version != version ==> ring(rows[h].version) == oldKey
  {}
}
