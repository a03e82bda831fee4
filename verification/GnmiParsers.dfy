/** The response parsers of collectors/gnmi_client.py. */
module GnmiParsers {
  import opened Common
  import opened Text
  import opened GnmiLeaves

  /** The notifications of a Get response, each a list of updates; no response is an empty one. */
  type Response = seq<seq<Update>>

  /** `_walk_notifications`: every update, in order. */
  function Walk(resp: Response): seq<Update> {
    if resp == [] then [] else resp[0] + Walk(resp[1..])
  }

  /** The notifications hold the updates, cut at these positions. */
  ghost predicate Cut(resp: Response, updates: seq<Update>, cuts: seq<nat>) {
    |cuts| == |resp| + 1 && cuts[0] == 0 && cuts[|resp|] == |updates|
    && forall k :: 0 <= k < |resp| ==> Piece(resp, updates, cuts, k)
  }

  /** The k-th notification holds the updates from `cuts[k]` to `cuts[k + 1]`. */
  predicate Piece(resp: Response, updates: seq<Update>, cuts: seq<nat>, k: nat)
    requires k < |resp| < |cuts|
  {
    cuts[k] <= cuts[k + 1] <= |updates| && resp[k] == updates[cuts[k]..cuts[k + 1]]
  }

  lemma {:induction false} WalkFrom(resp: Response, updates: seq<Update>, cuts: seq<nat>, k: nat)
    requires Cut(resp, updates, cuts) && k <= |resp|
    ensures cuts[k] <= |updates| && Walk(resp[k..]) == updates[cuts[k]..]
    decreases |resp| - k
  {
    if k < |resp| {
      assert Piece(resp, updates, cuts, k);
      WalkFrom(resp, updates, cuts, k + 1);
      assert resp[k..][0] == resp[k] && resp[k..][1..] == resp[k + 1..];
      assert updates[cuts[k]..] == updates[cuts[k]..cuts[k + 1]] + updates[cuts[k + 1]..];
    }
  }

  lemma CutIsWalked(resp: Response, updates: seq<Update>, cuts: seq<nat>)
    requires Cut(resp, updates, cuts)
    ensures Walk(resp) == updates
  {
    WalkFrom(resp, updates, cuts, 0);
    assert resp[0..] == resp && updates[0..] == updates;
  }

  function Later(n: nat, cuts: seq<nat>): (more: seq<nat>)
    ensures |more| == |cuts| + 1 && more[0] == 0 && forall k :: 0 <= k < |cuts| ==> more[k + 1] == n + cuts[k]
  {
    [0] + seq(|cuts|, k requires 0 <= k < |cuts| => n + cuts[k])
  }

  lemma SliceLater(first: seq<Update>, rest: seq<Update>, lo: nat, hi: nat)
    requires lo <= hi <= |rest|
    ensures (first + rest)[|first| + lo..|first| + hi] == rest[lo..hi]
  {}

  lemma CutMore(first: seq<Update>, rest: Response, updates: seq<Update>, cuts: seq<nat>)
    requires Cut(rest, updates, cuts)
    ensures Cut([first] + rest, first + updates, Later(|first|, cuts))
  {
    var all, resp, more := first + updates, [first] + rest, Later(|first|, cuts);
    forall k: nat | k < |resp|
      ensures Piece(resp, all, more, k)
    {
      if k > 0 {
        assert Piece(rest, updates, cuts, k - 1);
        SliceLater(first, updates, cuts[k - 1], cuts[k]);
      }
    }
  }

  lemma {:induction false} WalkIsCut(resp: Response) returns (cuts: seq<nat>)
    ensures Cut(resp, Walk(resp), cuts)
  {
    if resp == [] {
      cuts := [0];
    } else {
      cuts := WalkIsCut(resp[1..]);
      CutMore(resp[0], resp[1..], Walk(resp[1..]), cuts);
      cuts := Later(|resp[0]|, cuts);
      assert [resp[0]] + resp[1..] == resp;
    }
  }

  /** What is walked are exactly the updates that the notifications are cut from: all of them, in order. */
  lemma WalkedIff(resp: Response, updates: seq<Update>)
    ensures Walk(resp) == updates <==> exists cuts :: Cut(resp, updates, cuts)
  {
    var cuts := WalkIsCut(resp);
    if c :| Cut(resp, updates, c) { CutIsWalked(resp, updates, c); }
  }

  // ---------------------------------------------------------------- keys in paths

  const INTERFACE := "interface[name="
  const NEIGHBOR := "neighbor[neighbor-address="
  const QOS_INTERFACE := "interface[interface-id="
  const QUEUE := "queue[name="

  /** `path.split(pat, 1)[1].split("]", 1)[0]`, None if `pat` does not occur. */
  function Named(path: string, pat: string): Option<string> {
    if Contains(path, pat) then Some(Before(After(path, pat), "]")) else None
  }

  function InterfaceKey(path: string): Option<string> { Named(path, INTERFACE) }

  function NeighborKey(path: string): Option<string> { Named(path, NEIGHBOR) }

  function QueueId(name: string, hash: string -> int): int {
    match PyInt(name)
    case Some(n) => n
    case None => (if hash(name) < 0 then -hash(name) else hash(name)) % 1024
  }

  /** A queue named by a number has that id, any other one of 1024 that its hash picks. */
  lemma QueueIds(name: string, n: int, hash: string -> int)
    ensures QueueId(DecimalInt(n), hash) == n
    ensures PyInt(name) == None ==>
      0 <= QueueId(name, hash) < 1024
      && ((hash(name) - QueueId(name, hash)) % 1024 == 0 || (-hash(name) - QueueId(name, hash)) % 1024 == 0)
  {
    DecimalIntRoundTrip(n);
    if PyInt(name) == None {
      var size := if hash(name) < 0 then -hash(name) else hash(name);
      assert (size - size % 1024) % 1024 == 0;
    }
  }

  /** The locator of queue paths; `hash` is Python's hash of strings. */
  function QueueKey(hash: string -> int): Locator<(string, int)> {
    path =>
      match (Named(path, QOS_INTERFACE), Named(path, QUEUE))
      case (Some(interface_), Some(queue)) => Some((interface_, QueueId(queue, hash)))
      case _ => None
  }

  /** `pat` shows in `root + pat` at its end only. */
  predicate Clean(root: string, pat: string) { Find(root + pat, pat) == Some(|root|) }

  lemma FirstOccurrence(root: string, pat: string, rest: string)
    requires Clean(root, pat)
    ensures Find(root + pat + rest, pat) == Some(|root|)
  {
    var s := root + pat + rest;
    assert s[|root|..|root| + |pat|] == pat;
    assert At(s, pat, |root|);
    forall j | 0 <= j < |root|
      ensures !At(s, pat, j)
    {
      assert s[j..j + |pat|] == (root + pat)[j..j + |pat|];
      assert !At(root + pat, pat, j);
    }
  }

  /** A name without a closing bracket is read back from behind its pattern. */
  lemma NameReadsBack(root: string, pat: string, name: string, rest: string)
    requires Clean(root, pat) && ']' !in name
    ensures Named(root + pat + (name + "]" + rest), pat) == Some(name)
  {
    var tail := name + "]" + rest;
    FirstOccurrence(root, pat, tail);
    assert (root + pat + tail)[|root| + |pat|..] == tail;
    FindChar(name, ']', rest);
    assert tail[..|name|] == name;
  }

  lemma CharacterAt(s: string, pat: string, j: int, k: nat)
    requires At(s, pat, j) && k < |pat|
    ensures s[j + k] == pat[k]
  {
    assert s[j + k] == s[j..j + |pat|][k];
  }

  /** A character of the pattern that the root does not hold is enough. */
  lemma CleanByCharacter(root: string, pat: string, k: nat)
    requires k < |pat| && pat[k] !in root && forall i :: 0 <= i < k ==> pat[i] != pat[k]
    ensures Clean(root, pat)
  {
    var s := root + pat;
    assert At(s, pat, |root|);
    forall j | 0 <= j < |root|
      ensures !At(s, pat, j)
    {
      if At(s, pat, j) { CharacterAt(s, pat, j, k); }
    }
  }

  // ---------------------------------------------------------------- values

  /** `str(raw or "").upper().split(":")[-1]`. */
  function Fragment(raw: Val): string {
    var text := match raw
      case Absent => ""
      case Num(n) => if n == 0 then "" else DecimalInt(n)
      case Str(s) => s;
    LastPart(Upper(text), ':')
  }

  const ADMIN := {"UP", "DOWN", "TESTING"}
  const OPER := {"UP", "DOWN", "TESTING", "UNKNOWN", "DORMANT", "NOT_PRESENT", "LOWER_LAYER_DOWN"}
  const BGP := {"IDLE", "CONNECT", "ACTIVE", "OPENSENT", "OPENCONFIRM", "ESTABLISHED"}

  function Normalized(raw: Val, known: set<string>, otherwise: string): string {
    if Fragment(raw) in known then Fragment(raw) else otherwise
  }

  predicate Capitals(s: string) { forall i :: 0 <= i < |s| ==> 'A' <= s[i] <= 'Z' || s[i] == '_' }

  lemma CapitalsStay(s: string)
    requires Capitals(s)
    ensures Fragment(Str(s)) == s
  {
    FragmentMeaning("", s);
    assert Upper(s) == s;
  }

  lemma AdminReadsBackIff(s: string)
    ensures Normalized(Str(s), ADMIN, "UNKNOWN") == s <==> s in ADMIN + {"UNKNOWN"}
  {
    if s in ADMIN + {"UNKNOWN"} { CapitalsStay(s); }
  }

  lemma OperReadsBackIff(s: string)
    ensures Normalized(Str(s), OPER, "UNKNOWN") == s <==> s in OPER
  {
    if s in OPER { CapitalsStay(s); }
  }

  lemma BgpReadsBackIff(s: string)
    ensures Normalized(Str(s), BGP, "IDLE") == s <==> s in BGP
  {
    if s in BGP { CapitalsStay(s); }
  }

  /** Neither letter case nor a module prefix matters. */
  lemma FragmentMeaning(module_: string, s: string)
    requires ':' !in s
    ensures Fragment(Str(module_ + ":" + s)) == Upper(s) == Fragment(Str(s))
  {
    var upper := Upper(s);
    forall i | 0 <= i < |upper|
      ensures upper[i] != ':'
    {
      assert s[i] != ':';
    }
    LastPartOf(Upper(module_), ':', upper);
    assert Upper(module_ + ":" + s) == Upper(module_) + [':'] + upper;
  }

  /** `_safe_int`. */
  function SafeInt(raw: Val): Option<int> {
    match raw
    case Absent => None
    case Num(n) => Some(n)
    case Str(s) => PyInt(s)
  }

  /** `_safe_str`. */
  function SafeStr(raw: Val): Option<string> {
    match raw
    case Absent => None
    case Num(n) => Some(DecimalInt(n))
    case Str(s) => if Strip(s) == "" then None else Some(Strip(s))
  }

  /** `_safe_int(raw) or 0`. */
  function Counter(raw: Val): int { if SafeInt(raw).Some? then SafeInt(raw).value else 0 }

  /** `_parse_iso`, in nanoseconds since the epoch; `iso` reads the texts that are no digits. */
  function LastChange(raw: Val, iso: string -> Option<int>): Option<int> {
    match raw
    case Absent => None
    case Num(n) => if n == 0 then None else Some(n)
    case Str(s) => if s == "" then None else if AllDigits(s) then PyInt(s) else iso(s)
  }

  function Leaf(leaves: Leaves, name: string): Val { if name in leaves then leaves[name] else Absent }

  // ---------------------------------------------------------------- what a leaf shows

  /** The leaf reads as the integer, in whatever form it is sent; not sent, it stands for none. */
  predicate ShowsInt(leaves: Leaves, leaf: string, n: Option<int>) {
    if leaf in leaves then SafeInt(leaves[leaf]) == n else n == None
  }

  /** The leaf reads as the counter; not sent, it stands for zero. */
  predicate ShowsCounter(leaves: Leaves, leaf: string, n: int) {
    if leaf in leaves then Counter(leaves[leaf]) == n else n == 0
  }

  predicate ShowsText(leaves: Leaves, leaf: string, s: Option<string>) {
    if leaf in leaves then SafeStr(leaves[leaf]) == s else s == None
  }

  predicate ShowsStatus(leaves: Leaves, leaf: string, s: string, known: set<string>, otherwise: string) {
    if leaf in leaves then Normalized(leaves[leaf], known, otherwise) == s else s == otherwise
  }

  predicate ShowsChange(leaves: Leaves, leaf: string, t: Option<int>, iso: string -> Option<int>) {
    if leaf in leaves then LastChange(leaves[leaf], iso) == t else t == None
  }

  /** Leaf names can be told from the rest of their paths. */
  predicate Sendable(leaves: Leaves) { forall leaf :: leaf in leaves ==> '/' !in leaf }

  lemma ShownStatusIff(leaves: Leaves, leaf: string, s: string, known: set<string>, otherwise: string)
    requires "" !in known
    ensures ShowsStatus(leaves, leaf, s, known, otherwise) <==> Normalized(Leaf(leaves, leaf), known, otherwise) == s
  {
    assert Upper("") == "";
  }

  /** The same letters but for their case; `s` is in capitals. */
  predicate Cased(t: string, s: string) {
    |t| == |s| && forall i :: 0 <= i < |s| ==> t[i] == s[i] || ('A' <= s[i] <= 'Z' && t[i] as int == s[i] as int + 32)
  }

  lemma CasedIff(t: string, s: string)
    requires Capitals(s)
    ensures Upper(t) == s <==> Cased(t, s)
  {
    if Upper(t) == s {
      forall i | 0 <= i < |s|
        ensures t[i] == s[i] || ('A' <= s[i] <= 'Z' && t[i] as int == s[i] as int + 32)
      {
        assert s[i] == UpperChar(t[i]);
      }
    }
    if Cased(t, s) {
      forall i | 0 <= i < |s|
        ensures Upper(t)[i] == s[i]
      {
        assert t[i] == s[i] || t[i] as int == s[i] as int + 32;
      }
    }
  }

  /** A status is read whatever its letter case and whatever module is named before it; what is no known status is the
      fallback. */
  lemma StatusRead(module_: string, t: string, known: set<string>, otherwise: string)
    requires ':' !in t && forall k :: k in known ==> Capitals(k)
    ensures Normalized(Str(module_ + ":" + t), known, otherwise) == Normalized(Str(t), known, otherwise)
    ensures forall k :: k in known && Cased(t, k) ==> Normalized(Str(t), known, otherwise) == k
    ensures (forall k :: k in known ==> !Cased(t, k)) ==> Normalized(Str(t), known, otherwise) == otherwise
  {
    FragmentMeaning(module_, t);
    forall k | k in known
      ensures Fragment(Str(t)) == k <==> Cased(t, k)
    {
      CasedIff(t, k);
    }
  }

  lemma StatusesAreCapitals()
    ensures forall k :: k in ADMIN + OPER + BGP ==> Capitals(k)
  {}

  /** The statuses that are known, spelt out: what an interface or a neighbour can be read as. */
  lemma KnownStatuses(s: string)
    ensures Normalized(Str(s), ADMIN, "UNKNOWN") in {"UP", "DOWN", "TESTING", "UNKNOWN"}
    ensures s in {"UP", "DOWN", "TESTING", "UNKNOWN"} ==> Normalized(Str(s), ADMIN, "UNKNOWN") == s
    ensures s in {"UP", "DOWN", "TESTING", "UNKNOWN", "DORMANT", "NOT_PRESENT", "LOWER_LAYER_DOWN"} ==>
      Normalized(Str(s), OPER, "UNKNOWN") == s
    ensures s in {"IDLE", "CONNECT", "ACTIVE", "OPENSENT", "OPENCONFIRM", "ESTABLISHED"} ==>
      Normalized(Str(s), BGP, "IDLE") == s
  {
    AdminReadsBackIff(s);
    OperReadsBackIff(s);
    BgpReadsBackIff(s);
  }

  /** White space around a text or an integer is not read. */
  lemma SpaceIsIgnored(l: string, s: string, n: int, r: string)
    requires AllSpace(l) && AllSpace(r) && Stripped(s)
    ensures SafeStr(Str(l + s + r)) == if s == "" then None else Some(s)
    ensures SafeInt(Str(l + DecimalInt(n) + r)) == Some(n)
  {
    StripPadded(l, s, r);
    DecimalIntRoundTrip(n);
    StripPadded(l, DecimalInt(n), r);
    StripId(DecimalInt(n));
  }

  /** Instants are read from numbers and from digits alike, but a number 0 stands for none. */
  lemma InstantForms(n: nat, iso: string -> Option<int>)
    ensures LastChange(Str(DecimalInt(n)), iso) == Some(n)
    ensures LastChange(Num(n), iso) == if n == 0 then None else Some(n)
  {
    DecimalDigits(n);
    DecimalIntRoundTrip(n);
  }

  /** Integers are read from numbers and from decimal text alike, zero included. */
  lemma IntegerForms(n: int)
    ensures SafeInt(Num(n)) == SafeInt(Str(DecimalInt(n))) == Some(n)
    ensures Counter(Num(n)) == Counter(Str(DecimalInt(n))) == n && Counter(Absent) == 0
  {
    DecimalIntRoundTrip(n);
  }

  // ---------------------------------------------------------------- interfaces

  datatype InterfaceState = InterfaceState(
    device: string, name: string, admin: string, oper: string, lastChange: Option<int>,
    speed: Option<int>, mtu: Option<int>, description: Option<string>)

  function InterfaceFrom(device: string, name: string, admin: Val, oper: Val, lastChange: Val, speed: Val, mtu: Val,
                         description: Val, iso: string -> Option<int>): InterfaceState {
    InterfaceState(device, name, Normalized(admin, ADMIN, "UNKNOWN"), Normalized(oper, OPER, "UNKNOWN"),
                   LastChange(lastChange, iso), SafeInt(speed), SafeInt(mtu), SafeStr(description))
  }

  function InterfaceBuilder(device: string, iso: string -> Option<int>): Slot<string> -> Option<InterfaceState> {
    (slot: Slot<string>) =>
      if "oper-status" !in slot.leaves && "admin-status" !in slot.leaves then None
      else
        Some(InterfaceFrom(
          device, slot.key, Leaf(slot.leaves, "admin-status"), Leaf(slot.leaves, "oper-status"),
          Leaf(slot.leaves, "last-change"), Leaf(slot.leaves, "speed"), Leaf(slot.leaves, "mtu"),
          Leaf(slot.leaves, "description"), iso))
  }

  method ParseInterfaceState(device: string, resp: Response, iso: string -> Option<int>)
    returns (states: seq<InterfaceState>)
    ensures states == Built(Collected(Walk(resp), InterfaceKey), InterfaceBuilder(device, iso))
    ensures forall updates, cuts :: Cut(resp, updates, cuts) ==>
      states == Built(Collected(updates, InterfaceKey), InterfaceBuilder(device, iso))
  {
    forall updates, cuts | Cut(resp, updates, cuts)
      ensures Walk(resp) == updates
    {
      CutIsWalked(resp, updates, cuts);
    }
    var slots := Collect(Walk(resp), InterfaceKey);
    states := Build(slots, InterfaceBuilder(device, iso));
  }

  function Int64(n: Option<int>): Val { if n.None? then Absent else Str(DecimalInt(n.value)) }

  function Int32(n: Option<int>): Val { if n.None? then Absent else Num(n.value) }

  function Words(s: Option<string>): Val { if s.None? then Absent else Str(s.value) }

  /** The leaves of an interface as a device sends them: 64-bit integers as text, others as numbers. */
  function InterfaceSlot(s: InterfaceState): Slot<string> {
    Slot(s.name, map[
      "admin-status" := Str(s.admin), "oper-status" := Str(s.oper), "last-change" := Int32(s.lastChange),
      "speed" := Int64(s.speed), "mtu" := Int32(s.mtu), "description" := Words(s.description)])
  }

  lemma Int64ReadsBack(n: Option<int>)
    ensures SafeInt(Int64(n)) == n
  {
    if n.Some? { DecimalIntRoundTrip(n.value); }
  }

  /** Text that `_safe_str` keeps: none, or text that is not blank and has no white space around it. */
  predicate Tidy(s: Option<string>) { s.None? || (s.value != "" && Strip(s.value) == s.value) }

  lemma WordsReadBackIff(s: Option<string>)
    ensures SafeStr(Words(s)) == s <==> Tidy(s)
  {}

  predicate ReadableInterface(s: InterfaceState) {
    s.admin in ADMIN + {"UNKNOWN"} && s.oper in OPER && s.lastChange != Some(0) && Tidy(s.description)
  }

  lemma InterfaceLeaves(s: InterfaceState)
    ensures var m := InterfaceSlot(s).leaves;
      Leaf(m, "admin-status") == Str(s.admin) && Leaf(m, "oper-status") == Str(s.oper)
      && Leaf(m, "last-change") == Int32(s.lastChange) && Leaf(m, "speed") == Int64(s.speed)
      && Leaf(m, "mtu") == Int32(s.mtu) && Leaf(m, "description") == Words(s.description)
  {
    assert "admin-status"[0] == 'a' && "oper-status"[0] == 'o' && "last-change"[0] == 'l';
    assert "speed"[0] == 's' && "mtu"[0] == 'm' && "description"[0] == 'd';
  }

  lemma InterfaceFromIs(s: InterfaceState, admin: Val, oper: Val, lastChange: Val, speed: Val, mtu: Val,
                        description: Val, iso: string -> Option<int>)
    ensures InterfaceFrom(s.device, s.name, admin, oper, lastChange, speed, mtu, description, iso) == s
       <==> Normalized(admin, ADMIN, "UNKNOWN") == s.admin && Normalized(oper, OPER, "UNKNOWN") == s.oper
            && LastChange(lastChange, iso) == s.lastChange && SafeInt(speed) == s.speed && SafeInt(mtu) == s.mtu
            && SafeStr(description) == s.description
  {}

  lemma InterfaceFromReadsBackIff(s: InterfaceState, iso: string -> Option<int>)
    ensures InterfaceFrom(s.device, s.name, Str(s.admin), Str(s.oper), Int32(s.lastChange), Int64(s.speed),
                          Int32(s.mtu), Words(s.description), iso) == s
       <==> ReadableInterface(s)
  {
    InterfaceFromIs(s, Str(s.admin), Str(s.oper), Int32(s.lastChange), Int64(s.speed), Int32(s.mtu),
                    Words(s.description), iso);
    AdminReadsBackIff(s.admin);
    OperReadsBackIff(s.oper);
    Int64ReadsBack(s.speed);
    WordsReadBackIff(s.description);
  }

  /** Slots that show the state: the leaves may be sent in any form that reads so, or left out where they stand for
      nothing, as long as a status is sent; other leaves do no harm. */
  predicate InterfaceShown(slot: Slot<string>, s: InterfaceState, iso: string -> Option<int>) {
    slot.key == s.name && ("oper-status" in slot.leaves || "admin-status" in slot.leaves)
    && ShowsStatus(slot.leaves, "admin-status", s.admin, ADMIN, "UNKNOWN")
    && ShowsStatus(slot.leaves, "oper-status", s.oper, OPER, "UNKNOWN")
    && ShowsChange(slot.leaves, "last-change", s.lastChange, iso)
    && ShowsInt(slot.leaves, "speed", s.speed) && ShowsInt(slot.leaves, "mtu", s.mtu)
    && ShowsText(slot.leaves, "description", s.description)
  }

  lemma InterfaceFieldsIff(leaves: Leaves, s: InterfaceState, iso: string -> Option<int>)
    ensures InterfaceFrom(s.device, s.name, Leaf(leaves, "admin-status"), Leaf(leaves, "oper-status"),
                          Leaf(leaves, "last-change"), Leaf(leaves, "speed"), Leaf(leaves, "mtu"),
                          Leaf(leaves, "description"), iso) == s
       <==> ShowsStatus(leaves, "admin-status", s.admin, ADMIN, "UNKNOWN")
            && ShowsStatus(leaves, "oper-status", s.oper, OPER, "UNKNOWN")
            && ShowsChange(leaves, "last-change", s.lastChange, iso)
            && ShowsInt(leaves, "speed", s.speed) && ShowsInt(leaves, "mtu", s.mtu)
            && ShowsText(leaves, "description", s.description)
  {
    InterfaceFromIs(s, Leaf(leaves, "admin-status"), Leaf(leaves, "oper-status"), Leaf(leaves, "last-change"),
                    Leaf(leaves, "speed"), Leaf(leaves, "mtu"), Leaf(leaves, "description"), iso);
    ShownStatusIff(leaves, "admin-status", s.admin, ADMIN, "UNKNOWN");
    ShownStatusIff(leaves, "oper-status", s.oper, OPER, "UNKNOWN");
  }

  /** A slot is read as the state exactly when it shows it. */
  lemma InterfaceShownIff(slot: Slot<string>, s: InterfaceState, iso: string -> Option<int>)
    ensures InterfaceBuilder(s.device, iso)(slot) == Some(s) <==> InterfaceShown(slot, s, iso)
  {
    InterfaceFieldsIff(slot.leaves, s, iso);
    if InterfaceBuilder(s.device, iso)(slot) == Some(s) { assert slot.key == s.name; }
  }

  /** A device that sends 64-bit integers as text and others as numbers shows exactly the readable states: not a
      change at instant 0, nor a description with white space around it. */
  lemma InterfaceReadsBackIff(s: InterfaceState, iso: string -> Option<int>)
    ensures InterfaceBuilder(s.device, iso)(InterfaceSlot(s)) == Some(s) <==> ReadableInterface(s)
    ensures InterfaceShown(InterfaceSlot(s), s, iso) <==> ReadableInterface(s)
  {
    InterfaceLeaves(s);
    InterfaceFromReadsBackIff(s, iso);
    InterfaceShownIff(InterfaceSlot(s), s, iso);
  }

  /** Some device can show a state exactly when its statuses are known ones and its description is tidy; a change at
      instant 0 only has to be sent as text. */
  lemma InterfaceShowableIff(s: InterfaceState, iso: string -> Option<int>)
    ensures (exists slot :: InterfaceShown(slot, s, iso))
       <==> s.admin in ADMIN + {"UNKNOWN"} && s.oper in OPER && Tidy(s.description)
  {
    if s.admin in ADMIN + {"UNKNOWN"} && s.oper in OPER && Tidy(s.description) {
      var plain := s.(lastChange := None);
      InterfaceReadsBackIff(plain, iso);
      ChangeShown(InterfaceSlot(plain), plain, s, iso);
    }
    if slot :| InterfaceShown(slot, s, iso) { ShownIsKnown(slot.leaves, s); }
  }

  /** How a device can send an instant. */
  function Instant(t: Option<int>): Val { if t == Some(0) then Str("0") else Int32(t) }

  lemma ChangeShown(slot: Slot<string>, plain: InterfaceState, s: InterfaceState, iso: string -> Option<int>)
    requires plain == s.(lastChange := None) && InterfaceShown(slot, plain, iso)
    ensures InterfaceShown(slot.(leaves := slot.leaves["last-change" := Instant(s.lastChange)]), s, iso)
  {
    assert "last-change"[0] == 'l' && "admin-status"[0] == 'a' && "oper-status"[0] == 'o' && "speed"[0] == 's';
    assert "mtu"[0] == 'm' && "description"[0] == 'd';
    InstantReadsBack(s.lastChange, iso);
  }

  lemma InstantReadsBack(t: Option<int>, iso: string -> Option<int>)
    ensures LastChange(Instant(t), iso) == t
  {
    DecimalIntRoundTrip(0);
    assert DecimalInt(0) == "0";
  }

  lemma ShownIsKnown(leaves: Leaves, s: InterfaceState)
    requires ShowsStatus(leaves, "admin-status", s.admin, ADMIN, "UNKNOWN")
    requires ShowsStatus(leaves, "oper-status", s.oper, OPER, "UNKNOWN")
    requires ShowsText(leaves, "description", s.description)
    ensures s.admin in ADMIN + {"UNKNOWN"} && s.oper in OPER && Tidy(s.description)
  {
    if "description" in leaves { SafeStrIsTidy(leaves["description"]); }
  }

  lemma SafeStrIsTidy(v: Val)
    ensures Tidy(SafeStr(v))
  {
    match v
    case Absent =>
    case Num(n) => DecimalIntRoundTrip(n); StripId(DecimalInt(n));
    case Str(s) => StripTwice(s);
  }

  // ---------------------------------------------------------------- printing and parsing interfaces

  function StatePath(root: string, pat: string, name: string, leaf: string): string {
    root + pat + (name + "]" + ("/state" + ['/'] + leaf))
  }

  function PathsFrom(root: string, pat: string): (string, string) -> string {
    (name, leaf) => StatePath(root, pat, name, leaf)
  }

  lemma StatePathReadsBack(root: string, pat: string, name: string, leaf: string)
    requires Clean(root, pat) && ']' !in name && '/' !in leaf
    ensures Named(StatePath(root, pat, name, leaf), pat) == Some(name)
    ensures LeafOf(StatePath(root, pat, name, leaf)) == leaf
  {
    NameReadsBack(root, pat, name, "/state" + ['/'] + leaf);
    StatePathLeaf(root, pat, name, leaf);
  }

  lemma StatePathLeaf(root: string, pat: string, name: string, leaf: string)
    requires '/' !in leaf
    ensures LeafOf(StatePath(root, pat, name, leaf)) == leaf
  {
    LastPartOf(root + pat + (name + "]" + "/state"), '/', leaf);
    assert StatePath(root, pat, name, leaf) == root + pat + (name + "]" + "/state") + ['/'] + leaf;
  }

  /** The slots show the states, one by one, of interfaces with names that can be told apart and read back. */
  ghost predicate InterfacesShown(slots: Table<string>, device: string, states: seq<InterfaceState>,
                                  iso: string -> Option<int>) {
    |slots| == |states|
    && (forall i :: 0 <= i < |states| ==>
          InterfaceShown(slots[i], states[i], iso) && Sendable(slots[i].leaves)
          && states[i].device == device && ']' !in states[i].name)
    && DistinctKeys(slots)
  }

  /** Any list of interface states comes back from any leaves that show it, in whatever order they are sent, the
      leaves of different interfaces interleaved or repeated. */
  lemma InterfacesRoundTrip(device: string, states: seq<InterfaceState>, slots: Table<string>, root: string,
                            plan: Schedule, resp: Response, cuts: seq<nat>, iso: string -> Option<int>)
    requires InterfacesShown(slots, device, states, iso) && Clean(root, INTERFACE) && Covers(plan, slots)
    requires Cut(resp, Printing(slots, plan, PathsFrom(root, INTERFACE)), cuts)
    ensures multiset(Built(Collected(Walk(resp), InterfaceKey), InterfaceBuilder(device, iso))) == multiset(states)
  {
    CutIsWalked(resp, Printing(slots, plan, PathsFrom(root, INTERFACE)), cuts);
    forall j | 0 <= j < |slots|
      ensures slots[j].leaves != map[] && InterfaceBuilder(device, iso)(slots[j]) == Some(states[j])
      ensures slots[j].key == states[j].name && Sendable(slots[j].leaves)
    {
      InterfaceShownIff(slots[j], states[j], iso);
    }
    InterfacePathsReadBack(root, slots);
    PrintThenParse(slots, plan, PathsFrom(root, INTERFACE), states, InterfaceKey, InterfaceBuilder(device, iso),
                   (s: InterfaceState) => s.name);
  }

  const INTERFACES_ROOT := "interfaces/"

  lemma InterfaceRootIsClean()
    ensures Clean(INTERFACES_ROOT, INTERFACE)
  {
    CleanByCharacter(INTERFACES_ROOT, INTERFACE, 9);
  }

  lemma InterfaceLeavesSendable(s: InterfaceState)
    ensures Sendable(InterfaceSlot(s).leaves)
  {}

  /** What a device sends for the states. */
  function InterfaceSlots(states: seq<InterfaceState>): Table<string> {
    seq(|states|, i requires 0 <= i < |states| => InterfaceSlot(states[i]))
  }

  /** States of one device's interfaces, whose names differ and can be read back. */
  predicate InterfacesOf(device: string, states: seq<InterfaceState>) {
    (forall i :: 0 <= i < |states| ==> states[i].device == device && ']' !in states[i].name)
    && forall i, j :: 0 <= i < j < |states| ==> states[i].name != states[j].name
  }

  lemma InterfaceSlotBuilds(s: InterfaceState, iso: string -> Option<int>)
    ensures var slot := InterfaceSlot(s); slot.leaves != map[] && InterfaceBuilder(s.device, iso)(slot).Some?
  {
    assert "admin-status" in InterfaceSlot(s).leaves;
  }

  lemma InterfacePathsReadBack(root: string, slots: Table<string>)
    requires Clean(root, INTERFACE)
    requires forall j :: 0 <= j < |slots| ==> ']' !in slots[j].key && Sendable(slots[j].leaves)
    ensures Legible(slots, PathsFrom(root, INTERFACE), InterfaceKey)
  {
    forall j, leaf | 0 <= j < |slots| && leaf in slots[j].leaves
      ensures InterfaceKey(PathsFrom(root, INTERFACE)(slots[j].key, leaf)) == Some(slots[j].key)
      ensures LeafOf(PathsFrom(root, INTERFACE)(slots[j].key, leaf)) == leaf
    {
      StatePathReadsBack(root, INTERFACE, slots[j].key, leaf);
    }
  }

  lemma InterfacesRender(device: string, states: seq<InterfaceState>, iso: string -> Option<int>)
    requires InterfacesOf(device, states)
    ensures var slots := InterfaceSlots(states);
      Buildable(slots, InterfaceBuilder(device, iso)) && DistinctKeys(slots)
      && (forall i :: 0 <= i < |slots| ==> ']' !in slots[i].key && Sendable(slots[i].leaves))
    ensures Renders(InterfaceSlots(states), states, InterfaceBuilder(device, iso))
       <==> forall i :: 0 <= i < |states| ==> ReadableInterface(states[i])
  {
    forall i | 0 <= i < |states|
      ensures Sendable(InterfaceSlot(states[i]).leaves) && InterfaceSlot(states[i]).leaves != map[]
      ensures InterfaceBuilder(device, iso)(InterfaceSlot(states[i])).Some?
      ensures InterfaceBuilder(device, iso)(InterfaceSlot(states[i])) == Some(states[i])
         <==> ReadableInterface(states[i])
    {
      InterfaceLeavesSendable(states[i]);
      InterfaceSlotBuilds(states[i], iso);
      InterfaceReadsBackIff(states[i], iso);
    }
  }

  lemma InterfaceTableParsesBackIff(device: string, states: seq<InterfaceState>, slots: Table<string>, root: string,
                                    plan: Schedule, resp: Response, iso: string -> Option<int>)
    requires Clean(root, INTERFACE) && DistinctKeys(slots) && Covers(plan, slots)
    requires Buildable(slots, InterfaceBuilder(device, iso)) && |slots| == |states|
    requires forall j :: 0 <= j < |slots| ==>
      ']' !in slots[j].key && Sendable(slots[j].leaves) && states[j].name == slots[j].key
    requires Walk(resp) == Printing(slots, plan, PathsFrom(root, INTERFACE))
    ensures multiset(Built(Collected(Walk(resp), InterfaceKey), InterfaceBuilder(device, iso))) == multiset(states)
       <==> Renders(slots, states, InterfaceBuilder(device, iso))
  {
    InterfacePathsReadBack(root, slots);
    ParsesBackIff(slots, plan, PathsFrom(root, INTERFACE), states, InterfaceKey, InterfaceBuilder(device, iso),
                  (s: InterfaceState) => s.name);
  }

  /** A device's interface states, sent leaf by leaf in whatever order, parse back to the same states exactly when each
      of them is readable. */
  lemma PrintedInterfacesParseBackIff(device: string, states: seq<InterfaceState>, plan: Schedule, resp: Response,
                                      cuts: seq<nat>, iso: string -> Option<int>)
    requires InterfacesOf(device, states) && Covers(plan, InterfaceSlots(states))
    requires Cut(resp, Printing(InterfaceSlots(states), plan, PathsFrom(INTERFACES_ROOT, INTERFACE)), cuts)
    ensures multiset(Built(Collected(Walk(resp), InterfaceKey), InterfaceBuilder(device, iso))) == multiset(states)
       <==> forall i :: 0 <= i < |states| ==> ReadableInterface(states[i])
  {
    CutIsWalked(resp, Printing(InterfaceSlots(states), plan, PathsFrom(INTERFACES_ROOT, INTERFACE)), cuts);
    InterfacesRender(device, states, iso);
    InterfaceRootIsClean();
    InterfaceTableParsesBackIff(device, states, InterfaceSlots(states), INTERFACES_ROOT, plan, resp, iso);
  }

  // ---------------------------------------------------------------- BGP neighbours

  datatype BgpNeighbor = BgpNeighbor(
    device: string, peer: string, peerAs: Option<int>, session: string, uptime: Option<int>,
    received: Option<int>, sent: Option<int>, lastError: Option<string>)

  function NeighborFrom(device: string, peer: string, peerAs: Val, session: Val, uptime: Val, received: Val, sent: Val,
                        lastError: Val): BgpNeighbor {
    BgpNeighbor(device, peer, SafeInt(peerAs), Normalized(session, BGP, "IDLE"), SafeInt(uptime), SafeInt(received),
                SafeInt(sent), SafeStr(lastError))
  }

  function NeighborBuilder(device: string): Slot<string> -> Option<BgpNeighbor> {
    (slot: Slot<string>) =>
      if "session-state" !in slot.leaves then None
      else
        Some(NeighborFrom(
          device, slot.key, Leaf(slot.leaves, "peer-as"), Leaf(slot.leaves, "session-state"),
          Leaf(slot.leaves, "uptime"), Leaf(slot.leaves, "received-prefixes"), Leaf(slot.leaves, "sent-prefixes"),
          Leaf(slot.leaves, "last-error")))
  }

  method ParseBgpNeighbors(device: string, resp: Response) returns (neighbors: seq<BgpNeighbor>)
    ensures neighbors == Built(Collected(Walk(resp), NeighborKey), NeighborBuilder(device))
    ensures forall updates, cuts :: Cut(resp, updates, cuts) ==>
      neighbors == Built(Collected(updates, NeighborKey), NeighborBuilder(device))
  {
    forall updates, cuts | Cut(resp, updates, cuts)
      ensures Walk(resp) == updates
    {
      CutIsWalked(resp, updates, cuts);
    }
    var slots := Collect(Walk(resp), NeighborKey);
    neighbors := Build(slots, NeighborBuilder(device));
  }

  function NeighborSlot(s: BgpNeighbor): Slot<string> {
    Slot(s.peer, map[
      "peer-as" := Int32(s.peerAs), "session-state" := Str(s.session), "uptime" := Int64(s.uptime),
      "received-prefixes" := Int32(s.received), "sent-prefixes" := Int32(s.sent), "last-error" := Words(s.lastError)])
  }

  predicate ReadableNeighbor(s: BgpNeighbor) { s.session in BGP && Tidy(s.lastError) }

  lemma NeighborLeaves(s: BgpNeighbor)
    ensures var m := NeighborSlot(s).leaves;
      Leaf(m, "peer-as") == Int32(s.peerAs) && Leaf(m, "session-state") == Str(s.session)
      && Leaf(m, "uptime") == Int64(s.uptime) && Leaf(m, "received-prefixes") == Int32(s.received)
      && Leaf(m, "sent-prefixes") == Int32(s.sent) && Leaf(m, "last-error") == Words(s.lastError)
  {
    assert "peer-as"[0] == 'p' && "session-state"[2] == 's' && "sent-prefixes"[2] == 'n' && "uptime"[0] == 'u';
    assert "received-prefixes"[0] == 'r' && "last-error"[0] == 'l';
    assert "session-state"[0] == 's' && "sent-prefixes"[0] == 's';
  }

  lemma NeighborFromIs(s: BgpNeighbor, peerAs: Val, session: Val, uptime: Val, received: Val, sent: Val, lastError: Val)
    ensures NeighborFrom(s.device, s.peer, peerAs, session, uptime, received, sent, lastError) == s
       <==> SafeInt(peerAs) == s.peerAs && Normalized(session, BGP, "IDLE") == s.session && SafeInt(uptime) == s.uptime
            && SafeInt(received) == s.received && SafeInt(sent) == s.sent && SafeStr(lastError) == s.lastError
  {}

  /** Slots that show the neighbour: its session state is sent, in any form that reads so. */
  predicate NeighborShown(slot: Slot<string>, s: BgpNeighbor) {
    slot.key == s.peer && "session-state" in slot.leaves
    && ShowsInt(slot.leaves, "peer-as", s.peerAs) && ShowsStatus(slot.leaves, "session-state", s.session, BGP, "IDLE")
    && ShowsInt(slot.leaves, "uptime", s.uptime) && ShowsInt(slot.leaves, "received-prefixes", s.received)
    && ShowsInt(slot.leaves, "sent-prefixes", s.sent) && ShowsText(slot.leaves, "last-error", s.lastError)
  }

  lemma NeighborFieldsIff(leaves: Leaves, s: BgpNeighbor)
    ensures NeighborFrom(s.device, s.peer, Leaf(leaves, "peer-as"), Leaf(leaves, "session-state"),
                         Leaf(leaves, "uptime"), Leaf(leaves, "received-prefixes"),
                         Leaf(leaves, "sent-prefixes"), Leaf(leaves, "last-error")) == s
       <==> ShowsInt(leaves, "peer-as", s.peerAs) && ShowsStatus(leaves, "session-state", s.session, BGP, "IDLE")
            && ShowsInt(leaves, "uptime", s.uptime) && ShowsInt(leaves, "received-prefixes", s.received)
            && ShowsInt(leaves, "sent-prefixes", s.sent) && ShowsText(leaves, "last-error", s.lastError)
  {
    NeighborFromIs(s, Leaf(leaves, "peer-as"), Leaf(leaves, "session-state"), Leaf(leaves, "uptime"),
                   Leaf(leaves, "received-prefixes"), Leaf(leaves, "sent-prefixes"), Leaf(leaves, "last-error"));
    ShownStatusIff(leaves, "session-state", s.session, BGP, "IDLE");
  }

  /** A slot is read as the neighbour exactly when it shows it. */
  lemma NeighborShownIff(slot: Slot<string>, s: BgpNeighbor)
    ensures NeighborBuilder(s.device)(slot) == Some(s) <==> NeighborShown(slot, s)
  {
    NeighborFieldsIff(slot.leaves, s);
    if NeighborBuilder(s.device)(slot) == Some(s) { assert slot.key == s.peer; }
  }

  /** A device that sends the uptime as text and other integers as numbers shows exactly the readable neighbours. */
  lemma NeighborReadsBackIff(s: BgpNeighbor)
    ensures NeighborBuilder(s.device)(NeighborSlot(s)) == Some(s) <==> ReadableNeighbor(s)
    ensures NeighborShown(NeighborSlot(s), s) <==> ReadableNeighbor(s)
  {
    NeighborLeaves(s);
    NeighborFromIs(s, Int32(s.peerAs), Str(s.session), Int64(s.uptime), Int32(s.received), Int32(s.sent),
                   Words(s.lastError));
    BgpReadsBackIff(s.session);
    Int64ReadsBack(s.uptime);
    WordsReadBackIff(s.lastError);
    NeighborShownIff(NeighborSlot(s), s);
  }

  /** No device shows any other neighbour. */
  lemma NeighborShowableIff(s: BgpNeighbor)
    ensures (exists slot :: NeighborShown(slot, s)) <==> ReadableNeighbor(s)
  {
    NeighborReadsBackIff(s);
    if slot :| NeighborShown(slot, s) {
      if "last-error" in slot.leaves { SafeStrIsTidy(slot.leaves["last-error"]); }
    }
  }

  ghost predicate NeighborsShown(slots: Table<string>, device: string, states: seq<BgpNeighbor>) {
    |slots| == |states|
    && (forall i :: 0 <= i < |states| ==>
          NeighborShown(slots[i], states[i]) && Sendable(slots[i].leaves)
          && states[i].device == device && ']' !in states[i].peer)
    && DistinctKeys(slots)
  }

  /** Any list of neighbour states comes back from any leaves that show it, in whatever order they are sent. */
  lemma NeighborsRoundTrip(device: string, states: seq<BgpNeighbor>, slots: Table<string>, root: string, plan: Schedule,
                           resp: Response, cuts: seq<nat>)
    requires NeighborsShown(slots, device, states) && Clean(root, NEIGHBOR) && Covers(plan, slots)
    requires Cut(resp, Printing(slots, plan, PathsFrom(root, NEIGHBOR)), cuts)
    ensures multiset(Built(Collected(Walk(resp), NeighborKey), NeighborBuilder(device))) == multiset(states)
  {
    CutIsWalked(resp, Printing(slots, plan, PathsFrom(root, NEIGHBOR)), cuts);
    forall j | 0 <= j < |slots|
      ensures slots[j].leaves != map[] && NeighborBuilder(device)(slots[j]) == Some(states[j])
      ensures slots[j].key == states[j].peer && Sendable(slots[j].leaves)
    {
      NeighborShownIff(slots[j], states[j]);
    }
    NeighborPathsReadBack(root, slots);
    PrintThenParse(slots, plan, PathsFrom(root, NEIGHBOR), states, NeighborKey, NeighborBuilder(device),
                   (s: BgpNeighbor) => s.peer);
  }

  const NEIGHBORS_ROOT := "bgp/neighbors/"

  lemma NeighborRootIsClean()
    ensures Clean(NEIGHBORS_ROOT, NEIGHBOR)
  {
    CleanByCharacter(NEIGHBORS_ROOT, NEIGHBOR, 8);
  }

  lemma NeighborLeavesSendable(s: BgpNeighbor)
    ensures Sendable(NeighborSlot(s).leaves)
  {}

  /** What a device sends for the neighbours. */
  function NeighborSlots(states: seq<BgpNeighbor>): Table<string> {
    seq(|states|, i requires 0 <= i < |states| => NeighborSlot(states[i]))
  }

  /** One device's neighbours, whose addresses differ and can be read back. */
  predicate NeighborsOf(device: string, states: seq<BgpNeighbor>) {
    (forall i :: 0 <= i < |states| ==> states[i].device == device && ']' !in states[i].peer)
    && forall i, j :: 0 <= i < j < |states| ==> states[i].peer != states[j].peer
  }

  lemma NeighborSlotBuilds(s: BgpNeighbor)
    ensures var slot := NeighborSlot(s); slot.leaves != map[] && NeighborBuilder(s.device)(slot).Some?
  {
    assert "session-state" in NeighborSlot(s).leaves;
  }

  lemma NeighborPathsReadBack(root: string, slots: Table<string>)
    requires Clean(root, NEIGHBOR)
    requires forall j :: 0 <= j < |slots| ==> ']' !in slots[j].key && Sendable(slots[j].leaves)
    ensures Legible(slots, PathsFrom(root, NEIGHBOR), NeighborKey)
  {
    forall j, leaf | 0 <= j < |slots| && leaf in slots[j].leaves
      ensures NeighborKey(PathsFrom(root, NEIGHBOR)(slots[j].key, leaf)) == Some(slots[j].key)
      ensures LeafOf(PathsFrom(root, NEIGHBOR)(slots[j].key, leaf)) == leaf
    {
      StatePathReadsBack(root, NEIGHBOR, slots[j].key, leaf);
    }
  }

  lemma NeighborsRender(device: string, states: seq<BgpNeighbor>)
    requires NeighborsOf(device, states)
    ensures var slots := NeighborSlots(states);
      Buildable(slots, NeighborBuilder(device)) && DistinctKeys(slots)
      && (forall i :: 0 <= i < |slots| ==> ']' !in slots[i].key && Sendable(slots[i].leaves))
    ensures Renders(NeighborSlots(states), states, NeighborBuilder(device))
       <==> forall i :: 0 <= i < |states| ==> ReadableNeighbor(states[i])
  {
    forall i | 0 <= i < |states|
      ensures Sendable(NeighborSlot(states[i]).leaves) && NeighborSlot(states[i]).leaves != map[]
      ensures NeighborBuilder(device)(NeighborSlot(states[i])).Some?
      ensures NeighborBuilder(device)(NeighborSlot(states[i])) == Some(states[i]) <==> ReadableNeighbor(states[i])
    {
      NeighborLeavesSendable(states[i]);
      NeighborSlotBuilds(states[i]);
      NeighborReadsBackIff(states[i]);
    }
  }

  lemma NeighborTableParsesBackIff(device: string, states: seq<BgpNeighbor>, slots: Table<string>, root: string,
                                   plan: Schedule, resp: Response)
    requires Clean(root, NEIGHBOR) && DistinctKeys(slots) && Covers(plan, slots)
    requires Buildable(slots, NeighborBuilder(device)) && |slots| == |states|
    requires forall j :: 0 <= j < |slots| ==>
      ']' !in slots[j].key && Sendable(slots[j].leaves) && states[j].peer == slots[j].key
    requires Walk(resp) == Printing(slots, plan, PathsFrom(root, NEIGHBOR))
    ensures multiset(Built(Collected(Walk(resp), NeighborKey), NeighborBuilder(device))) == multiset(states)
       <==> Renders(slots, states, NeighborBuilder(device))
  {
    NeighborPathsReadBack(root, slots);
    ParsesBackIff(slots, plan, PathsFrom(root, NEIGHBOR), states, NeighborKey, NeighborBuilder(device),
                  (s: BgpNeighbor) => s.peer);
  }

  /** A device's neighbours, sent leaf by leaf in whatever order, parse back to the same states exactly when each of
      them is readable. */
  lemma PrintedNeighborsParseBackIff(device: string, states: seq<BgpNeighbor>, plan: Schedule, resp: Response,
                                     cuts: seq<nat>)
    requires NeighborsOf(device, states) && Covers(plan, NeighborSlots(states))
    requires Cut(resp, Printing(NeighborSlots(states), plan, PathsFrom(NEIGHBORS_ROOT, NEIGHBOR)), cuts)
    ensures multiset(Built(Collected(Walk(resp), NeighborKey), NeighborBuilder(device))) == multiset(states)
       <==> forall i :: 0 <= i < |states| ==> ReadableNeighbor(states[i])
  {
    CutIsWalked(resp, Printing(NeighborSlots(states), plan, PathsFrom(NEIGHBORS_ROOT, NEIGHBOR)), cuts);
    NeighborsRender(device, states);
    NeighborRootIsClean();
    NeighborTableParsesBackIff(device, states, NeighborSlots(states), NEIGHBORS_ROOT, plan, resp);
  }

  // ---------------------------------------------------------------- queues

  datatype QueueState = QueueState(
    device: string, name: string, id: int, trafficClass: Option<int>, maxDepth: int, avgDepth: int,
    pfcRx: int, pfcTx: int, ecnMarked: int, dropped: int)

  function QueueFrom(device: string, key: (string, int), trafficClass: Val, maxDepth: Val, avgDepth: Val, pfcRx: Val,
                     pfcTx: Val, ecnMarked: Val, dropped: Val): QueueState {
    QueueState(device, key.0, key.1, SafeInt(trafficClass), Counter(maxDepth), Counter(avgDepth), Counter(pfcRx),
               Counter(pfcTx), Counter(ecnMarked), Counter(dropped))
  }

  function QueueBuilder(device: string): Slot<(string, int)> -> Option<QueueState> {
    (slot: Slot<(string, int)>) =>
      Some(QueueFrom(
        device, slot.key, Leaf(slot.leaves, "traffic-class"), Leaf(slot.leaves, "max-queue-len"),
        Leaf(slot.leaves, "avg-queue-len"), Leaf(slot.leaves, "pfc-pause-rx"), Leaf(slot.leaves, "pfc-pause-tx"),
        Leaf(slot.leaves, "ecn-marked-pkts"), Leaf(slot.leaves, "dropped-pkts")))
  }

  method ParseQueueStats(device: string, resp: Response, hash: string -> int) returns (states: seq<QueueState>)
    ensures states == Built(Collected(Walk(resp), QueueKey(hash)), QueueBuilder(device))
    ensures forall updates, cuts :: Cut(resp, updates, cuts) ==>
      states == Built(Collected(updates, QueueKey(hash)), QueueBuilder(device))
  {
    forall updates, cuts | Cut(resp, updates, cuts)
      ensures Walk(resp) == updates
    {
      CutIsWalked(resp, updates, cuts);
    }
    var slots := Collect(Walk(resp), QueueKey(hash));
    states := Build(slots, QueueBuilder(device));
  }

  /** Slots that show the queue: some leaf is sent, counters in any form that reads so or left out at zero. */
  predicate QueueShown(slot: Slot<(string, int)>, s: QueueState) {
    slot.key == (s.name, s.id) && slot.leaves != map[]
    && ShowsInt(slot.leaves, "traffic-class", s.trafficClass)
    && ShowsCounter(slot.leaves, "max-queue-len", s.maxDepth) && ShowsCounter(slot.leaves, "avg-queue-len", s.avgDepth)
    && ShowsCounter(slot.leaves, "pfc-pause-rx", s.pfcRx) && ShowsCounter(slot.leaves, "pfc-pause-tx", s.pfcTx)
    && ShowsCounter(slot.leaves, "ecn-marked-pkts", s.ecnMarked) && ShowsCounter(slot.leaves, "dropped-pkts", s.dropped)
  }

  lemma QueueFromIs(s: QueueState, trafficClass: Val, maxDepth: Val, avgDepth: Val, pfcRx: Val, pfcTx: Val,
                    ecnMarked: Val, dropped: Val)
    ensures QueueFrom(s.device, (s.name, s.id), trafficClass, maxDepth, avgDepth, pfcRx, pfcTx, ecnMarked, dropped) == s
       <==> SafeInt(trafficClass) == s.trafficClass
            && Counter(maxDepth) == s.maxDepth && Counter(avgDepth) == s.avgDepth
            && Counter(pfcRx) == s.pfcRx && Counter(pfcTx) == s.pfcTx
            && Counter(ecnMarked) == s.ecnMarked && Counter(dropped) == s.dropped
  {}

  /** A slot with leaves is read as the queue exactly when it shows it. */
  lemma QueueShownIff(slot: Slot<(string, int)>, s: QueueState)
    requires slot.leaves != map[]
    ensures QueueBuilder(s.device)(slot) == Some(s) <==> QueueShown(slot, s)
  {
    var m := slot.leaves;
    QueueFromIs(s, Leaf(m, "traffic-class"), Leaf(m, "max-queue-len"), Leaf(m, "avg-queue-len"),
                Leaf(m, "pfc-pause-rx"), Leaf(m, "pfc-pause-tx"), Leaf(m, "ecn-marked-pkts"), Leaf(m, "dropped-pkts"));
    if QueueBuilder(s.device)(slot) == Some(s) { assert slot.key == (s.name, s.id); }
  }

  /** The leaves of a queue as a device sends them: counters as text, zero or not. */
  function QueueSlot(s: QueueState): Slot<(string, int)> {
    Slot((s.name, s.id), map[
      "traffic-class" := Int32(s.trafficClass),
      "max-queue-len" := Text64(s.maxDepth), "avg-queue-len" := Text64(s.avgDepth),
      "pfc-pause-rx" := Text64(s.pfcRx), "pfc-pause-tx" := Text64(s.pfcTx), "ecn-marked-pkts" := Text64(s.ecnMarked),
      "dropped-pkts" := Text64(s.dropped)])
  }

  function Text64(n: int): Val { Str(DecimalInt(n)) }

  /** Such a device shows every queue state. */
  lemma QueueSlotShows(s: QueueState)
    ensures QueueShown(QueueSlot(s), s)
  {
    QueueLeaves(s);
    IntegerForms(s.maxDepth);
    IntegerForms(s.avgDepth);
    IntegerForms(s.pfcRx);
    IntegerForms(s.pfcTx);
    IntegerForms(s.ecnMarked);
    IntegerForms(s.dropped);
  }

  lemma QueueLeaves(s: QueueState)
    ensures var m := QueueSlot(s).leaves;
      m.Keys == {"traffic-class", "max-queue-len", "avg-queue-len", "pfc-pause-rx", "pfc-pause-tx", "ecn-marked-pkts",
                 "dropped-pkts"}
      && m["traffic-class"] == Int32(s.trafficClass) && m["max-queue-len"] == Text64(s.maxDepth)
      && m["avg-queue-len"] == Text64(s.avgDepth) && m["pfc-pause-rx"] == Text64(s.pfcRx)
      && m["pfc-pause-tx"] == Text64(s.pfcTx) && m["ecn-marked-pkts"] == Text64(s.ecnMarked)
      && m["dropped-pkts"] == Text64(s.dropped)
  {
    QueueLeafNamesDiffer();
  }

  lemma QueueLeafNamesDiffer()
    ensures "traffic-class" !in {"max-queue-len", "avg-queue-len", "pfc-pause-rx", "pfc-pause-tx", "ecn-marked-pkts",
                                 "dropped-pkts"}
    ensures "max-queue-len" !in {"avg-queue-len", "pfc-pause-rx", "pfc-pause-tx", "ecn-marked-pkts", "dropped-pkts"}
    ensures "avg-queue-len" !in {"pfc-pause-rx", "pfc-pause-tx", "ecn-marked-pkts", "dropped-pkts"}
    ensures "pfc-pause-rx" !in {"pfc-pause-tx", "ecn-marked-pkts", "dropped-pkts"}
    ensures "pfc-pause-tx" !in {"ecn-marked-pkts", "dropped-pkts"} && "ecn-marked-pkts" != "dropped-pkts"
  {
    assert "traffic-class"[0] == 't' && "max-queue-len"[0] == 'm';
    assert "avg-queue-len"[0] == 'a' && "dropped-pkts"[0] == 'd';
    assert "ecn-marked-pkts"[0] == 'e' && "pfc-pause-rx"[0] == 'p' && "pfc-pause-tx"[0] == 'p';
    assert "pfc-pause-rx"[10] == 'r' && "pfc-pause-tx"[10] == 't';
  }

  const OUTPUT := "/output/queues/"

  /** What stands before the queue in the path of a queue of interface `name`. */
  function QueueRoot(root: string, name: string): string { root + QOS_INTERFACE + (name + ("]" + OUTPUT)) }

  function QueuePath(root: string, key: (string, int), leaf: string): string {
    StatePath(QueueRoot(root, key.0), QUEUE, DecimalInt(key.1), leaf)
  }

  function QueuePathsFrom(root: string): ((string, int), string) -> string { (key, leaf) => QueuePath(root, key, leaf) }

  /** The name of the queue is read from the first place that looks like one. */
  predicate QueueNameable(root: string, name: string) {
    Clean(root, QOS_INTERFACE) && ']' !in name && Clean(QueueRoot(root, name), QUEUE)
  }

  lemma QueuePathReadsBack(root: string, key: (string, int), leaf: string, hash: string -> int)
    requires QueueNameable(root, key.0) && '/' !in leaf
    ensures QueueKey(hash)(QueuePath(root, key, leaf)) == Some(key)
    ensures LeafOf(QueuePath(root, key, leaf)) == leaf
  {
    DecimalIntRoundTrip(key.1);
    StatePathReadsBack(QueueRoot(root, key.0), QUEUE, DecimalInt(key.1), leaf);
    QueuePathNamesInterface(root, key.0, DecimalInt(key.1), leaf);
  }

  lemma Regroup(r: string, p: string, n: string, b: string, o: string, q: string, t: string)
    ensures r + p + (n + (b + o)) + q + t == r + p + (n + b + (o + q + t))
  {}

  lemma QueuePathNamesInterface(root: string, name: string, queue: string, leaf: string)
    requires Clean(root, QOS_INTERFACE) && ']' !in name
    ensures Named(StatePath(QueueRoot(root, name), QUEUE, queue, leaf), QOS_INTERFACE) == Some(name)
  {
    var tail := queue + "]" + ("/state" + ['/'] + leaf);
    NameReadsBack(root, QOS_INTERFACE, name, OUTPUT + QUEUE + tail);
    Regroup(root, QOS_INTERFACE, name, "]", OUTPUT, QUEUE, tail);
  }

  /** An interface whose own name looks like a queue gives its queues the number in that name. */
  lemma QueueReadFromInterfaceName(root: string, x: string, y: string, id: int, leaf: string, hash: string -> int)
    requires Clean(root, QOS_INTERFACE) && Clean(root + QOS_INTERFACE + x, QUEUE) && ']' !in x && ']' !in y
    ensures var name := x + QUEUE + y;
      QueueKey(hash)(QueuePath(root, (name, id), leaf)) == Some((name, QueueId(y, hash)))
  {
    var name, queue := x + QUEUE + y, DecimalInt(id);
    assert forall i :: 0 <= i < |QUEUE| ==> QUEUE[i] != ']';
    QueuePathNamesInterface(root, name, queue, leaf);
    var tail := queue + "]" + ("/state" + ['/'] + leaf);
    NameReadsBack(root + QOS_INTERFACE + x, QUEUE, y, OUTPUT + QUEUE + tail);
    Regroup2(root, QOS_INTERFACE, x, QUEUE, y, "]", OUTPUT, tail);
  }

  lemma Regroup2(r: string, p: string, x: string, q: string, y: string, b: string, o: string, t: string)
    ensures r + p + (x + q + y + (b + o)) + q + t == r + p + x + q + (y + b + (o + q + t))
  {}

  ghost predicate QueuesShown(slots: Table<(string, int)>, device: string, root: string, states: seq<QueueState>) {
    |slots| == |states|
    && (forall i :: 0 <= i < |states| ==>
          QueueShown(slots[i], states[i]) && Sendable(slots[i].leaves)
          && states[i].device == device && QueueNameable(root, states[i].name))
    && DistinctKeys(slots)
  }

  /** Any list of queue states with numeric ids comes back from any leaves that show it, in whatever order they are
      sent. */
  lemma QueuesRoundTrip(device: string, states: seq<QueueState>, slots: Table<(string, int)>, root: string,
                        plan: Schedule, resp: Response, cuts: seq<nat>, hash: string -> int)
    requires QueuesShown(slots, device, root, states) && Covers(plan, slots)
    requires Cut(resp, Printing(slots, plan, QueuePathsFrom(root)), cuts)
    ensures multiset(Built(Collected(Walk(resp), QueueKey(hash)), QueueBuilder(device))) == multiset(states)
  {
    CutIsWalked(resp, Printing(slots, plan, QueuePathsFrom(root)), cuts);
    QueuesLegible(device, states, slots, root, hash);
    LegibleQueuesParseBack(device, states, slots, root, plan, resp, hash);
  }

  lemma LegibleQueuesParseBack(device: string, states: seq<QueueState>, slots: Table<(string, int)>, root: string,
                               plan: Schedule, resp: Response, hash: string -> int)
    requires |slots| == |states| && DistinctKeys(slots)
    requires forall i :: 0 <= i < |states| ==> QueueShown(slots[i], states[i]) && states[i].device == device
    requires Legible(slots, QueuePathsFrom(root), QueueKey(hash)) && Covers(plan, slots)
    requires Walk(resp) == Printing(slots, plan, QueuePathsFrom(root))
    ensures multiset(Built(Collected(Walk(resp), QueueKey(hash)), QueueBuilder(device))) == multiset(states)
  {
    forall j | 0 <= j < |slots|
      ensures slots[j].leaves != map[] && QueueBuilder(device)(slots[j]) == Some(states[j])
    {
      assert QueueShown(slots[j], states[j]);
      QueueShownIff(slots[j], states[j]);
    }
    PrintThenParse(slots, plan, QueuePathsFrom(root), states, QueueKey(hash), QueueBuilder(device),
                   (s: QueueState) => (s.name, s.id));
  }

  lemma QueuesLegible(device: string, states: seq<QueueState>, slots: Table<(string, int)>, root: string,
                      hash: string -> int)
    requires QueuesShown(slots, device, root, states)
    ensures Legible(slots, QueuePathsFrom(root), QueueKey(hash))
  {
    forall j, leaf | 0 <= j < |slots| && leaf in slots[j].leaves
      ensures QueueKey(hash)(QueuePathsFrom(root)(slots[j].key, leaf)) == Some(slots[j].key)
      ensures LeafOf(QueuePathsFrom(root)(slots[j].key, leaf)) == leaf
    {
      assert QueueShown(slots[j], states[j]) && QueueNameable(root, states[j].name);
      QueuePathReadsBack(root, slots[j].key, leaf, hash);
    }
  }

  lemma NoBracketThere(root: string, name: string, p: int)
    requires '[' !in root && 0 <= p < |QueueRoot(root, name)| + 5
    requires !(|root| + |QOS_INTERFACE| <= p < |root| + |QOS_INTERFACE| + |name|)
    ensures var s := QueueRoot(root, name) + QUEUE; !(s[p] == '[' && s[p + 1] == 'n')
  {
    var s, a := QueueRoot(root, name) + QUEUE, |root|;
    var b := a + |QOS_INTERFACE|;
    var c := b + |name|;
    var d := c + 1 + |OUTPUT|;
    if p < a {
      assert s[p] == root[p];
    } else if p < b {
      assert s[p] == QOS_INTERFACE[p - a] && (p + 1 < b ==> s[p + 1] == QOS_INTERFACE[p + 1 - a]);
    } else if p < d {
      assert s[p] == ("]" + OUTPUT)[p - c];
    } else {
      assert s[p] == QUEUE[p - d];
    }
  }

  lemma Surrounded(root: string, name: string)
    ensures var s, b := QueueRoot(root, name) + QUEUE, |root| + |QOS_INTERFACE|;
      s[b - 1] == '=' && s[b + |name|] == ']' && s[b..b + |name|] == name
  {}

  lemma QueueCharacters(k: nat)
    requires k < |QUEUE|
    ensures QUEUE[k] != ']' && (k < 5 ==> QUEUE[k] != '=') && QUEUE[5] == '[' && QUEUE[6] == 'n'
  {}

  lemma Inside(s: string, lo: nat, hi: nat, pat: string, j: nat)
    requires lo <= j && j + |pat| <= hi <= |s| && At(s, pat, j)
    ensures At(s[lo..hi], pat, j - lo)
  {
    var x, y := s[lo..hi][j - lo..j - lo + |pat|], s[j..j + |pat|];
    assert forall k :: 0 <= k < |pat| ==> x[k] == y[k];
    assert x == y;
  }

  lemma Outside(s: string, lo: nat, hi: nat, pat: string, i: int)
    requires lo <= hi <= |s| && At(s[lo..hi], pat, i)
    ensures At(s, pat, lo + i)
  {
    var x, y := s[lo..hi][i..i + |pat|], s[lo + i..lo + i + |pat|];
    assert forall k :: 0 <= k < |pat| ==> x[k] == y[k];
    assert x == y;
  }

  lemma QueueBracket(s: string, j: nat)
    requires At(s, QUEUE, j)
    ensures j + 6 < |s| && s[j + 5] == '[' && s[j + 6] == 'n'
  {
    QueueCharacters(0);
    CharacterAt(s, QUEUE, j, 5);
    CharacterAt(s, QUEUE, j, 6);
  }

  lemma BracketThere(root: string, name: string, p: nat)
    requires '[' !in root && p < |QueueRoot(root, name)| + 5
    requires var s := QueueRoot(root, name) + QUEUE; s[p] == '[' && s[p + 1] == 'n'
    ensures |root| + |QOS_INTERFACE| <= p < |root| + |QOS_INTERFACE| + |name|
  {
    if !(|root| + |QOS_INTERFACE| <= p < |root| + |QOS_INTERFACE| + |name|) { NoBracketThere(root, name, p); }
  }

  /** A queue pattern that begins before the queue of its path has its bracket in the interface's name. */
  lemma BracketIsInName(root: string, name: string, j: nat)
    requires '[' !in root && j < |QueueRoot(root, name)| && At(QueueRoot(root, name) + QUEUE, QUEUE, j)
    ensures |root| + |QOS_INTERFACE| <= j + 5 < |root| + |QOS_INTERFACE| + |name|
  {
    QueueBracket(QueueRoot(root, name) + QUEUE, j);
    BracketThere(root, name, j + 5);
  }

  lemma StaysInName(root: string, name: string, j: nat)
    requires ']' !in name && At(QueueRoot(root, name) + QUEUE, QUEUE, j)
    requires |root| + |QOS_INTERFACE| <= j + 5 < |root| + |QOS_INTERFACE| + |name|
    ensures |root| + |QOS_INTERFACE| <= j && j + |QUEUE| <= |root| + |QOS_INTERFACE| + |name|
  {
    var s, b := QueueRoot(root, name) + QUEUE, |root| + |QOS_INTERFACE|;
    var c := b + |name|;
    Surrounded(root, name);
    if j < b {
      QueueCharacters(b - 1 - j);
      CharacterAt(s, QUEUE, j, b - 1 - j);
    } else if j + |QUEUE| > c {
      QueueCharacters(c - j);
      CharacterAt(s, QUEUE, j, c - j);
    }
  }

  /** So it lies wholly inside the interface's name. */
  lemma EarlyQueueIsInName(root: string, name: string, j: nat)
    requires '[' !in root && ']' !in name && j < |QueueRoot(root, name)|
    requires At(QueueRoot(root, name) + QUEUE, QUEUE, j)
    ensures At(name, QUEUE, j - (|root| + |QOS_INTERFACE|))
  {
    var b := |root| + |QOS_INTERFACE|;
    BracketIsInName(root, name, j);
    StaysInName(root, name, j);
    Surrounded(root, name);
    Inside(QueueRoot(root, name) + QUEUE, b, b + |name|, QUEUE, j);
  }

  lemma QueueInNameIsEarly(root: string, name: string, i: int)
    requires At(name, QUEUE, i)
    ensures At(QueueRoot(root, name) + QUEUE, QUEUE, |root| + |QOS_INTERFACE| + i)
  {
    var s, b := QueueRoot(root, name) + QUEUE, |root| + |QOS_INTERFACE|;
    Surrounded(root, name);
    Outside(s, b, b + |name|, QUEUE, i);
  }

  /** Below a root without brackets, an interface is fit to print exactly when its name holds neither a
      closing bracket nor the queue pattern. */
  lemma QueueNameableIff(root: string, name: string)
    requires Clean(root, QOS_INTERFACE) && '[' !in root
    ensures QueueNameable(root, name) <==> ']' !in name && !Contains(name, QUEUE)
  {
    if ']' !in name { CleanQueueRootIff(root, name); }
  }

  lemma CleanQueueRootIff(root: string, name: string)
    requires '[' !in root && ']' !in name
    ensures Clean(QueueRoot(root, name), QUEUE) <==> !Contains(name, QUEUE)
  {
    var r := QueueRoot(root, name);
    var first := Find(r + QUEUE, QUEUE);
    assert At(r + QUEUE, QUEUE, |r|);
    if first.value < |r| { EarlyQueueIsInName(root, name, first.value); }
    if Contains(name, QUEUE) { QueueInNameIsEarly(root, name, Find(name, QUEUE).value); }
  }

  /** The paths that devices send, as they are read. */
  lemma PathsAreRead(name: string, leaf: string, id: int, hash: string -> int)
    requires ']' !in name && '/' !in leaf
    ensures var path := "interfaces/interface[name=" + (name + "]" + ("/state" + ['/'] + leaf));
      InterfaceKey(path) == Some(name) && LeafOf(path) == leaf
    ensures var path := "bgp/neighbors/neighbor[neighbor-address=" + (name + "]" + ("/state" + ['/'] + leaf));
      NeighborKey(path) == Some(name) && LeafOf(path) == leaf
    ensures var path := "qos/interfaces/interface[interface-id=" + (name + ("]" + "/output/queues/")) + "queue[name="
                        + (DecimalInt(id) + "]" + ("/state" + ['/'] + leaf));
      QueueKey(hash)(path) == Some((name, ReadId(name, id, hash))) && LeafOf(path) == leaf
  {
    InterfaceRootIsClean();
    StatePathReadsBack(INTERFACES_ROOT, INTERFACE, name, leaf);
    InterfacesJoin();
    NeighborRootIsClean();
    StatePathReadsBack(NEIGHBORS_ROOT, NEIGHBOR, name, leaf);
    NeighborsJoin();
    QosRootIsClean();
    QueuePathReads(QOS_ROOT, (name, id), leaf, hash);
    QosJoins();
  }

  lemma InterfacesJoin()
    ensures INTERFACES_ROOT + INTERFACE == "interfaces/interface[name="
  {}

  lemma NeighborsJoin()
    ensures NEIGHBORS_ROOT + NEIGHBOR == "bgp/neighbors/neighbor[neighbor-address="
  {}

  lemma QosJoins()
    ensures QOS_ROOT + QOS_INTERFACE == "qos/interfaces/interface[interface-id="
  {}

  // ---------------------------------------------------------------- printing and parsing queues

  const QOS_ROOT := "qos/interfaces/"

  lemma QosRootIsClean()
    ensures Clean(QOS_ROOT, QOS_INTERFACE) && '[' !in QOS_ROOT
  {
    CleanByCharacter(QOS_ROOT, QOS_INTERFACE, 9);
  }

  lemma QueueLeavesSendable(s: QueueState)
    ensures Sendable(QueueSlot(s).leaves)
  {
    QueueLeaves(s);
    assert '/' !in "traffic-class" && '/' !in "max-queue-len" && '/' !in "avg-queue-len";
    assert '/' !in "pfc-pause-rx" && '/' !in "pfc-pause-tx" && '/' !in "ecn-marked-pkts" && '/' !in "dropped-pkts";
  }

  /** What a device sends for the queues. */
  function QueueSlots(states: seq<QueueState>): Table<(string, int)> {
    seq(|states|, i requires 0 <= i < |states| => QueueSlot(states[i]))
  }

  /** One device's queues, which differ in interface or id, of interfaces whose names can be read back. */
  predicate QueuesOf(device: string, states: seq<QueueState>) {
    (forall i :: 0 <= i < |states| ==> states[i].device == device && ']' !in states[i].name)
    && forall i, j :: 0 <= i < j < |states| ==> (states[i].name, states[i].id) != (states[j].name, states[j].id)
  }

  /** The id that is read for a queue of the interface: the one in the interface's own name if that looks like a
      queue. */
  function ReadId(name: string, id: int, hash: string -> int): int {
    if Contains(name, QUEUE) then QueueId(After(name, QUEUE), hash) else id
  }

  lemma AtPrefix(s: string, rest: string, pat: string, j: nat)
    requires At(s, pat, j)
    ensures At(s + rest, pat, j)
  {
    assert (s + rest)[j..j + |pat|] == s[j..j + |pat|];
  }

  lemma Regroup3(r: string, p: string, x: string, q: string, y: string, t: string)
    ensures r + p + (x + q + y + t) + q == r + p + x + q + (y + t + q)
  {}

  lemma NoQueueEarlier(root: string, name: string, j: nat)
    requires '[' !in root && ']' !in name && Contains(name, QUEUE)
    requires j < |root| + |QOS_INTERFACE| + |Before(name, QUEUE)|
    ensures !At(root + QOS_INTERFACE + Before(name, QUEUE) + QUEUE, QUEUE, j)
  {
    var x, y := Before(name, QUEUE), After(name, QUEUE);
    var t := root + QOS_INTERFACE + x + QUEUE;
    if At(t, QUEUE, j) {
      AtPrefix(t, y + ("]" + OUTPUT) + QUEUE, QUEUE, j);
      NameAroundQueue(name);
      Regroup3(root, QOS_INTERFACE, x, QUEUE, y, "]" + OUTPUT);
      EarlyQueueIsInName(root, name, j);
    }
  }

  lemma CleanIf(s: string, pat: string)
    requires forall j :: 0 <= j < |s| ==> !At(s + pat, pat, j)
    ensures Clean(s, pat)
  {
    assert At(s + pat, pat, |s|);
  }

  lemma CleanBeforeQueue(root: string, name: string)
    requires '[' !in root && ']' !in name && Contains(name, QUEUE)
    ensures Clean(root + QOS_INTERFACE + Before(name, QUEUE), QUEUE)
  {
    var s := root + QOS_INTERFACE + Before(name, QUEUE);
    forall j | 0 <= j < |s|
      ensures !At(s + QUEUE, QUEUE, j)
    {
      NoQueueEarlier(root, name, j);
    }
    CleanIf(s, QUEUE);
  }

  lemma NameAroundQueue(name: string)
    requires Contains(name, QUEUE)
    ensures name == Before(name, QUEUE) + QUEUE + After(name, QUEUE)
  {}

  /** What a queue's path is read as, whatever the interface is called. */
  lemma QueuePathReads(root: string, key: (string, int), leaf: string, hash: string -> int)
    requires Clean(root, QOS_INTERFACE) && '[' !in root && ']' !in key.0 && '/' !in leaf
    ensures QueueKey(hash)(QueuePath(root, key, leaf)) == Some((key.0, ReadId(key.0, key.1, hash)))
    ensures LeafOf(QueuePath(root, key, leaf)) == leaf
  {
    if Contains(key.0, QUEUE) {
      CleanBeforeQueue(root, key.0);
      NameAroundQueue(key.0);
      QueueReadFromInterfaceName(root, Before(key.0, QUEUE), After(key.0, QUEUE), key.1, leaf, hash);
      StatePathLeaf(QueueRoot(root, key.0), QUEUE, DecimalInt(key.1), leaf);
    } else {
      QueueNameableIff(root, key.0);
      QueuePathReadsBack(root, key, leaf, hash);
    }
  }

  predicate OwnId(hash: string -> int, key: (string, int)) { ReadId(key.0, key.1, hash) == key.1 }

  lemma ReadIdIsOwn(name: string, id: int, hash: string -> int)
    ensures OwnId(hash, (name, ReadId(name, id, hash)))
  {}

  lemma QueueSlotsShow(device: string, states: seq<QueueState>)
    requires QueuesOf(device, states)
    ensures DistinctKeys(QueueSlots(states))
    ensures forall i :: 0 <= i < |states| ==>
      QueueShown(QueueSlots(states)[i], states[i]) && Sendable(QueueSlots(states)[i].leaves)
  {
    forall i | 0 <= i < |states|
      ensures QueueShown(QueueSlots(states)[i], states[i]) && Sendable(QueueSlots(states)[i].leaves)
    {
      QueueSlotShows(states[i]);
      QueueLeavesSendable(states[i]);
    }
  }

  lemma OwnIdsAreLegible(slots: Table<(string, int)>, root: string, hash: string -> int)
    requires Clean(root, QOS_INTERFACE) && '[' !in root
    requires forall j :: 0 <= j < |slots| ==>
      ']' !in slots[j].key.0 && Sendable(slots[j].leaves) && OwnId(hash, slots[j].key)
    ensures Legible(slots, QueuePathsFrom(root), QueueKey(hash))
  {
    forall j, leaf | 0 <= j < |slots| && leaf in slots[j].leaves
      ensures QueueKey(hash)(QueuePathsFrom(root)(slots[j].key, leaf)) == Some(slots[j].key)
      ensures LeafOf(QueuePathsFrom(root)(slots[j].key, leaf)) == leaf
    {
      QueuePathReads(root, slots[j].key, leaf, hash);
    }
  }

  /** Nothing is parsed but queues whose ids are those read for their interface. */
  lemma ParsedIdsAreOwn(device: string, slots: Table<(string, int)>, root: string, plan: Schedule, updates: seq<Update>,
                        hash: string -> int, s: QueueState)
    requires Clean(root, QOS_INTERFACE) && '[' !in root && Covers(plan, slots)
    requires forall j :: 0 <= j < |slots| ==> ']' !in slots[j].key.0 && Sendable(slots[j].leaves)
    requires updates == Printing(slots, plan, QueuePathsFrom(root))
    requires s in Built(Collected(updates, QueueKey(hash)), QueueBuilder(device))
    ensures OwnId(hash, (s.name, s.id))
  {
    var ok := key => OwnId(hash, key);
    forall i | 0 <= i < |updates|
      ensures QueueKey(hash)(updates[i].path).Some? ==> ok(QueueKey(hash)(updates[i].path).value)
    {
      var slot, leaf := slots[plan[i].0], plan[i].1;
      QueuePathReads(root, slot.key, leaf, hash);
      ReadIdIsOwn(slot.key.0, slot.key.1, hash);
    }
    CollectedKeysMeet(updates, QueueKey(hash), ok);
    BuiltKeyMeets(Collected(updates, QueueKey(hash)), QueueBuilder(device), (q: QueueState) => (q.name, q.id), ok, s);
  }

  lemma ParsedBackIdsAreOwn(device: string, states: seq<QueueState>, slots: Table<(string, int)>, root: string,
                            plan: Schedule, updates: seq<Update>, hash: string -> int, parsed: seq<QueueState>)
    requires Clean(root, QOS_INTERFACE) && '[' !in root && Covers(plan, slots)
    requires forall j :: 0 <= j < |slots| ==> ']' !in slots[j].key.0 && Sendable(slots[j].leaves)
    requires updates == Printing(slots, plan, QueuePathsFrom(root))
    requires parsed == Built(Collected(updates, QueueKey(hash)), QueueBuilder(device))
    requires multiset(parsed) == multiset(states)
    ensures OwnIds(states, hash)
  {
    forall i | 0 <= i < |states|
      ensures OwnId(hash, (states[i].name, states[i].id))
    {
      assert states[i] in multiset(parsed);
      ParsedIdsAreOwn(device, slots, root, plan, updates, hash, states[i]);
    }
  }

  /** No interface's own name gives its queues another id. */
  predicate OwnIds(states: seq<QueueState>, hash: string -> int) {
    forall i :: 0 <= i < |states| ==> OwnId(hash, (states[i].name, states[i].id))
  }

  lemma QueueTableParsesBackIff(device: string, states: seq<QueueState>, slots: Table<(string, int)>, root: string,
                                plan: Schedule, resp: Response, hash: string -> int)
    requires Clean(root, QOS_INTERFACE) && '[' !in root && Covers(plan, slots) && DistinctKeys(slots)
    requires |slots| == |states| && forall i :: 0 <= i < |states| ==>
      QueueShown(slots[i], states[i]) && Sendable(slots[i].leaves)
      && states[i].device == device && ']' !in states[i].name
    requires Walk(resp) == Printing(slots, plan, QueuePathsFrom(root))
    ensures multiset(Built(Collected(Walk(resp), QueueKey(hash)), QueueBuilder(device))) == multiset(states)
       <==> OwnIds(states, hash)
  {
    forall j | 0 <= j < |slots|
      ensures slots[j].key == (states[j].name, states[j].id)
    {
      assert QueueShown(slots[j], states[j]);
    }
    var parsed := Built(Collected(Walk(resp), QueueKey(hash)), QueueBuilder(device));
    if multiset(parsed) == multiset(states) {
      ParsedBackIdsAreOwn(device, states, slots, root, plan, Walk(resp), hash, parsed);
    }
    if OwnIds(states, hash) {
      OwnIdsAreLegible(slots, root, hash);
      LegibleQueuesParseBack(device, states, slots, root, plan, resp, hash);
    }
  }

  /** A device's queue states, sent leaf by leaf in whatever order, parse back to the same states exactly when no
      interface's own name gives its queues another id. */
  lemma PrintedQueuesParseBackIff(device: string, states: seq<QueueState>, plan: Schedule, resp: Response,
                                  cuts: seq<nat>, hash: string -> int)
    requires QueuesOf(device, states) && Covers(plan, QueueSlots(states))
    requires Cut(resp, Printing(QueueSlots(states), plan, QueuePathsFrom(QOS_ROOT)), cuts)
    ensures multiset(Built(Collected(Walk(resp), QueueKey(hash)), QueueBuilder(device))) == multiset(states)
       <==> OwnIds(states, hash)
  {
    CutIsWalked(resp, Printing(QueueSlots(states), plan, QueuePathsFrom(QOS_ROOT)), cuts);
    QosRootIsClean();
    QueueSlotsShow(device, states);
    QueueTableParsesBackIff(device, states, QueueSlots(states), QOS_ROOT, plan, resp, hash);
  }
}
