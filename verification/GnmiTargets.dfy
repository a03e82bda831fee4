/** `parse_targets` of collectors/gnmi_client.py. */
module GnmiTargets {
  import opened Common
  import opened Text

  datatype Target = Target(host: string, port: int)

  const DEFAULT_PORT := 6030

  /** The target of one comma-separated chunk; a blank chunk or one whose port is no integer gives none. */
  function Chunk(raw: string): Option<Target> {
    var chunk := Strip(raw);
    if chunk == "" then None
    else if !Contains(chunk, ":") then Some(Target(chunk, DEFAULT_PORT))
    else
      match PyInt(After(chunk, ":"))
      case None => None
      case Some(port) => Some(Target(Before(chunk, ":"), port))
  }

  function Chunks(chunks: seq<string>): seq<Target> {
    if chunks == [] then []
    else
      var init := Chunks(chunks[..|chunks| - 1]);
      match Chunk(chunks[|chunks| - 1])
      case None => init
      case Some(t) => init + [t]
  }

  function Parsed(raw: string): seq<Target> { Chunks(Split(raw, ',')) }

  lemma NextChunk(chunks: seq<string>, i: nat)
    requires i < |chunks|
    ensures Chunks(chunks[..i + 1])
         == Chunks(chunks[..i]) + if Chunk(chunks[i]).Some? then [Chunk(chunks[i]).value] else []
  {
    assert chunks[..i + 1][..i] == chunks[..i];
  }

  method ParseTargets(raw: Option<string>) returns (targets: seq<Target>)
    ensures targets == if raw.None? then [] else Parsed(raw.value)
  {
    targets := [];
    if raw.None? || raw.value == "" {
      BlankIsNothing();
      return;
    }
    var chunks := Split(raw.value, ',');
    for i := 0 to |chunks|
      invariant targets == Chunks(chunks[..i])
    {
      NextChunk(chunks, i);
      targets := AppendTarget(targets, chunks[i]);
    }
    assert chunks[..|chunks|] == chunks;
  }

  /** The body of the loop over the chunks. */
  method AppendTarget(before: seq<Target>, raw: string) returns (targets: seq<Target>)
    ensures targets == before + if Chunk(raw).Some? then [Chunk(raw).value] else []
  {
    targets := before;
    var chunk := Strip(raw);
    if chunk == "" {
      return;
    }
    if Contains(chunk, ":") {
      var port := PyInt(After(chunk, ":"));
      if port.Some? {
        targets := targets + [Target(Before(chunk, ":"), port.value)];
      }
    } else {
      targets := targets + [Target(chunk, DEFAULT_PORT)];
    }
  }

  lemma BlankIsNothing()
    ensures Parsed("") == []
  {
    assert Split("", ',') == [""];
    assert Chunk("") == None;
    assert [""][..0] == [];
  }

  // ---------------------------------------------------------------- the list, chunk by chunk

  lemma {:induction false} ChunksConcat(a: seq<string>, b: seq<string>)
    ensures Chunks(a + b) == Chunks(a) + Chunks(b)
    decreases |b|
  {
    if b == [] {
      assert a + b == a;
    } else {
      ChunksConcat(a, b[..|b| - 1]);
      assert (a + b)[..|a + b| - 1] == a + b[..|b| - 1];
    }
  }

  lemma HeadOfConcat(c: char, a: seq<string>, b: seq<string>)
    requires a != []
    ensures [[c] + (a + b)[0]] + (a + b)[1..] == [[c] + a[0]] + a[1..] + b
  {}

  lemma EmptyHeadOfConcat(a: seq<string>, b: seq<string>)
    ensures [""] + (a + b) == [""] + a + b
  {}

  /** The pieces of a string with one more character in front, from the pieces of the string. */
  function Fronted(c: char, sep: char, pieces: seq<string>): seq<string>
    requires pieces != []
  {
    if c == sep then [""] + pieces else [[c] + pieces[0]] + pieces[1..]
  }

  lemma FrontedConcat(c: char, sep: char, a: seq<string>, b: seq<string>)
    requires a != []
    ensures Fronted(c, sep, a + b) == Fronted(c, sep, a) + b
  {
    if c == sep { EmptyHeadOfConcat(a, b); } else { HeadOfConcat(c, a, b); }
  }

  lemma SplitHead(c: char, s: string, sep: char)
    ensures Split([c] + s, sep) == Fronted(c, sep, Split(s, sep))
  {
    assert ([c] + s)[1..] == s;
  }

  lemma SplitConcatNext(c: char, a: string, whole: string, sep: char, b: string)
    requires Split(whole, sep) == Split(a, sep) + Split(b, sep)
    ensures Split([c] + whole, sep) == Split([c] + a, sep) + Split(b, sep)
  {
    SplitHead(c, a, sep);
    SplitHead(c, whole, sep);
    FrontedConcat(c, sep, Split(a, sep), Split(b, sep));
  }

  lemma {:induction false} SplitConcat(a: string, sep: char, b: string)
    ensures Split(a + ([sep] + b), sep) == Split(a, sep) + Split(b, sep)
    decreases |a|
  {
    if a == [] {
      assert a + ([sep] + b) == [sep] + b;
      SplitHead(sep, b, sep);
    } else {
      SplitConcat(a[1..], sep, b);
      SplitConcatNext(a[0], a[1..], a[1..] + ([sep] + b), sep, b);
      assert a == [a[0]] + a[1..] && a + ([sep] + b) == [a[0]] + (a[1..] + ([sep] + b));
    }
  }

  /** A comma separates: what stands on one side never changes what is read on the other, so a malformed
      chunk costs only itself. */
  lemma CommaSeparates(a: string, b: string)
    ensures Parsed(a + ([','] + b)) == Parsed(a) + Parsed(b)
  {
    SplitConcat(a, ',', b);
    ChunksConcat(Split(a, ','), Split(b, ','));
  }

  // ---------------------------------------------------------------- printing

  /** A target as an operator writes it, the port left out or not, white space around it or not. */
  datatype Written = Written(left: string, host: string, port: Option<int>, right: string)

  function Meaning(w: Written): Target { Target(w.host, if w.port.Some? then w.port.value else DEFAULT_PORT) }

  function Bare(w: Written): string {
    if w.port.Some? then w.host + [':'] + DecimalInt(w.port.value) else w.host
  }

  function Shown(w: Written): string { w.left + Bare(w) + w.right }

  /** Hosts that can be written: no separator in them, no white space where the chunk is stripped, and not
      empty unless a port follows. */
  predicate Writable(w: Written) {
    AllSpace(w.left) && AllSpace(w.right) && ',' !in w.host && ':' !in w.host
    && if w.port.Some? then w.host == "" || !IsSpace(w.host[0]) else w.host != "" && Stripped(w.host)
  }

  lemma BareIsStripped(w: Written)
    requires Writable(w)
    ensures Stripped(Bare(w)) && Bare(w) != "" && ',' !in Bare(w)
  {
    if w.port.Some? { DecimalIntRoundTrip(w.port.value); }
  }

  lemma SpacesHaveNoComma(s: string)
    requires AllSpace(s)
    ensures ',' !in s
  {
    assert !IsSpace(',');
  }

  lemma ShownHasNoComma(w: Written)
    requires Writable(w)
    ensures ',' !in Shown(w)
  {
    BareIsStripped(w);
    SpacesHaveNoComma(w.left);
    SpacesHaveNoComma(w.right);
  }

  /** What stands behind the first colon is the port; what is no integer costs the chunk. White space around the chunk
      does not matter. */
  lemma PortDecides(left: string, host: string, port: string, right: string)
    requires AllSpace(left) && AllSpace(right) && ':' !in host && Stripped(host + [':'] + port)
    ensures Chunk(left + (host + [':'] + port) + right)
         == if PyInt(port).Some? then Some(Target(host, PyInt(port).value)) else None
  {
    var chunk := host + [':'] + port;
    StripPadded(left, chunk, right);
    FindChar(host, ':', port);
    assert chunk[|host| + 1..] == port && chunk[..|host|] == host && chunk != "";
  }

  /** Without a colon the whole chunk is the host; a blank chunk gives none. */
  lemma NoPortMeansDefault(left: string, host: string, right: string)
    requires AllSpace(left) && AllSpace(right) && ':' !in host && Stripped(host)
    ensures Chunk(left + host + right) == if host == "" then None else Some(Target(host, 6030))
  {
    StripPadded(left, host, right);
    FindChar(host, ':', "");
  }

  lemma ShownReadsBack(w: Written)
    requires Writable(w)
    ensures Chunk(Shown(w)) == Some(Meaning(w))
  {
    BareIsStripped(w);
    if w.port.Some? {
      DecimalIntRoundTrip(w.port.value);
      PortDecides(w.left, w.host, DecimalInt(w.port.value), w.right);
    } else {
      NoPortMeansDefault(w.left, w.host, w.right);
    }
  }

  function ShownAll(ws: seq<Written>): string {
    if ws == [] then ""
    else if |ws| == 1 then Shown(ws[0])
    else ShownAll(ws[..|ws| - 1]) + ([','] + Shown(ws[|ws| - 1]))
  }

  function Meanings(ws: seq<Written>): seq<Target> { seq(|ws|, i requires 0 <= i < |ws| => Meaning(ws[i])) }

  lemma OneReadsBack(w: Written)
    requires Writable(w)
    ensures Parsed(Shown(w)) == [Meaning(w)]
  {
    ShownHasNoComma(w);
    SplitNoSep(Shown(w), ',');
    ShownReadsBack(w);
    assert [Shown(w)][..0] == [] && Chunks([]) == [];
    assert Chunks([Shown(w)]) == [Meaning(w)];
  }

  /** Parsing undoes printing a list of targets, with port 6030 where none is written. */
  lemma {:induction false} ParseUndoesPrint(ws: seq<Written>)
    requires forall i :: 0 <= i < |ws| ==> Writable(ws[i])
    ensures Parsed(ShownAll(ws)) == Meanings(ws)
    decreases |ws|
  {
    if ws == [] {
      BlankIsNothing();
    } else if |ws| == 1 {
      OneReadsBack(ws[0]);
    } else {
      ParseUndoesPrint(ws[..|ws| - 1]);
      LastReadsBack(ws);
    }
  }

  lemma LastShown(ws: seq<Written>)
    requires |ws| > 1
    ensures ShownAll(ws) == ShownAll(ws[..|ws| - 1]) + ([','] + Shown(ws[|ws| - 1]))
  {}

  lemma LastMeaning(ws: seq<Written>)
    requires ws != []
    ensures Meanings(ws) == Meanings(ws[..|ws| - 1]) + [Meaning(ws[|ws| - 1])]
  {}

  lemma LastReadsBack(ws: seq<Written>)
    requires |ws| > 1 && Writable(ws[|ws| - 1])
    requires Parsed(ShownAll(ws[..|ws| - 1])) == Meanings(ws[..|ws| - 1])
    ensures Parsed(ShownAll(ws)) == Meanings(ws)
  {
    LastShown(ws);
    LastMeaning(ws);
    BothRead(ShownAll(ws[..|ws| - 1]), Meanings(ws[..|ws| - 1]), ws[|ws| - 1]);
  }

  lemma BothRead(a: string, ts: seq<Target>, w: Written)
    requires Parsed(a) == ts && Writable(w)
    ensures Parsed(a + ([','] + Shown(w))) == ts + [Meaning(w)]
  {
    OneReadsBack(w);
    CommaSeparates(a, Shown(w));
  }
}
