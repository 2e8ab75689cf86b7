/** Running one command at a list of locations: enumerating the platform, expanding the names that
    stand for several locations, and sending the command to each. */
module Locations {
  import opened Bytes
  import opened FieldParser
  import opened Verdict
  import opened Model
  import opened Platform

  /** "all", "all-rp", "all-lc" */
  const ALL: Text := [0x61, 0x6c, 0x6c]
  const ALL_RP: Text := [0x61, 0x6c, 0x6c, 0x2d, 0x72, 0x70]
  const ALL_LC: Text := [0x61, 0x6c, 0x6c, 0x2d, 0x6c, 0x63]

  /** How the names are spelled. */
  lemma Names()
    ensures ALL == Ascii("all") && ALL_RP == Ascii("all-rp") && ALL_LC == Ascii("all-lc")
    ensures forall l :: Reserved(l) <==> l == Ascii("all") || l == Ascii("all-rp") || l == Ascii("all-lc")
  {
    assert Ascii("all") == [0x61, 0x6c, 0x6c];
  }

  predicate Reserved(l: Text) { l == ALL || l == ALL_RP || l == ALL_LC }

  // ----- enumeration

  function RpKeys(p: Option<Platform>): (keys: set<Text>)
  {
    if p.Some? && p.value.rps.Some? then p.value.rps.value.Keys else {}
  }

  function LcKeys(p: Option<Platform>): (keys: set<Text>)
  {
    if p.Some? && p.value.lcs.Some? then p.value.lcs.value.Keys else {}
  }

  /** What "all line cards" falls back to when none is known. */
  function LcOrRpKeys(p: Option<Platform>): (keys: set<Text>)
  {
    if LcKeys(p) == {} then RpKeys(p) else LcKeys(p)
  }

  /** A slice of the right size, filled in the order in which the map happens to be walked. */
  method Enumerate(keys: set<Text>) returns (a: array<Text>)
    ensures fresh(a) && multiset(a[..]) == multiset(keys)
  {
    a := new Text[|keys|](_ => []);
    var rest := keys;
    var i := 0;
    while rest != {}
      invariant rest <= keys && i + |rest| == |keys| == a.Length
      invariant multiset(a[..i]) == multiset(keys - rest)
      decreases rest
    {
      var key :| key in rest;
      a[i] := key;
      assert a[..i + 1] == a[..i] + [key];
      assert keys - (rest - {key}) == (keys - rest) + {key};
      assert multiset(keys - (rest - {key})) == multiset(keys - rest) + multiset{key};
      rest := rest - {key};
      i := i + 1;
    }
    assert a[..i] == a[..];
    assert keys - rest == keys;
  }

  method GetAllRPs(p: Option<Platform>) returns (locations: seq<Text>)
    ensures multiset(locations) == multiset(RpKeys(p))
  {
    if p.None? {
      return [];
    }
    if p.value.rps.None? {
      return [];
    }
    if |p.value.rps.value| == 0 {
      return [];
    }
    var a := Enumerate(p.value.rps.value.Keys);
    return a[..];
  }

  method GetAllLCs(p: Option<Platform>) returns (locations: seq<Text>)
    ensures multiset(locations) == multiset(LcOrRpKeys(p))
  {
    if p.None? || p.value.lcs.None? || |p.value.lcs.value| == 0 {
      locations := GetAllRPs(p);
      return;
    }
    var a := Enumerate(p.value.lcs.value.Keys);
    return a[..];
  }

  method GetAllLocations(p: Option<Platform>) returns (locations: seq<Text>)
    ensures multiset(locations) == multiset(RpKeys(p)) + multiset(LcOrRpKeys(p))
  {
    var rps := GetAllRPs(p);
    var lcs := GetAllLCs(p);
    locations := rps + lcs;
  }

  /** On the inventory of an accepted text: all locations are the route processors plus the line
      cards; without a line card every route processor is there twice. The fallback for an empty
      line-card map is never needed. */
  lemma AllOfParsed(p: Platform, patterns: LinePatterns, b: Text)
    requires Describes(p, patterns, b)
    ensures p.lcs.Some? ==> p.lcs.value != map[]
    ensures multiset(RpKeys(Some(p))) + multiset(LcOrRpKeys(Some(p)))
            == if LcLocations(patterns, b) == {}
               then multiset(RpLocations(patterns, b)) + multiset(RpLocations(patterns, b))
               else multiset(RpLocations(patterns, b)) + multiset(LcLocations(patterns, b))
    ensures forall l :: l in RpLocations(patterns, b) && l !in LcLocations(patterns, b) ==>
              ((multiset(RpKeys(Some(p))) + multiset(LcOrRpKeys(Some(p))))[l] == 2 <==> LcLocations(patterns, b) == {})
  {
  }

  // ----- expansion

  /** The locations that one entry of a list stands for, in some order. */
  ghost predicate Stands(p: Option<Platform>, l: Text, piece: seq<Text>)
  {
    if l == ALL then multiset(piece) == multiset(RpKeys(p)) + multiset(LcOrRpKeys(p))
    else if l == ALL_RP then multiset(piece) == multiset(RpKeys(p))
    else if l == ALL_LC then multiset(piece) == multiset(LcOrRpKeys(p))
    else piece == [l]
  }

  ghost predicate Expands(p: Option<Platform>, wanted: seq<Text>, pieces: seq<seq<Text>>)
  {
    |pieces| == |wanted| && forall k :: 0 <= k < |wanted| ==> Stands(p, wanted[k], pieces[k])
  }

  /** No location of the platform has a reserved name. */
  predicate PlainPlatform(p: Option<Platform>)
  {
    forall l :: l in RpKeys(p) + LcKeys(p) ==> !Reserved(l)
  }

  predicate Plain(locations: seq<Text>)
  {
    forall k :: 0 <= k < |locations| ==> !Reserved(locations[k])
  }

  lemma StandsForPlain(p: Option<Platform>, l: Text, piece: seq<Text>)
    requires PlainPlatform(p) && Stands(p, l, piece)
    ensures Plain(piece)
  {
    forall k | 0 <= k < |piece| ensures !Reserved(piece[k]) {
      assert piece[k] in multiset(piece);
    }
  }

  method ExpandOne(p: Option<Platform>, l: Text) returns (piece: seq<Text>)
    ensures Stands(p, l, piece)
    ensures l == Ascii("all") ==> multiset(piece) == multiset(RpKeys(p)) + multiset(LcOrRpKeys(p))
    ensures l == Ascii("all-rp") ==> multiset(piece) == multiset(RpKeys(p))
    ensures l == Ascii("all-lc") ==> multiset(piece) == multiset(LcOrRpKeys(p))
    ensures l != Ascii("all") && l != Ascii("all-rp") && l != Ascii("all-lc") ==> piece == [l]
  {
    Names();
    if l == ALL {
      piece := GetAllLocations(p);
    } else if l == ALL_RP {
      piece := GetAllRPs(p);
    } else if l == ALL_LC {
      piece := GetAllLCs(p);
    } else {
      piece := [l];
    }
  }

  lemma ExpandsMore(p: Option<Platform>, wanted: seq<Text>, k: nat, pieces: seq<seq<Text>>, piece: seq<Text>)
    requires k < |wanted| && Expands(p, wanted[..k], pieces) && Stands(p, wanted[k], piece)
    ensures Expands(p, wanted[..k + 1], pieces + [piece])
    ensures Flatten(pieces + [piece]) == Flatten(pieces) + piece
  {
    FlattenAppend(pieces, [piece]);
    FlattenOne(piece);
  }

  /** The list a command's locations are turned into before sending, without a location template. */
  method PrepareLocations(p: Option<Platform>, wanted: seq<Text>) returns (locs: seq<Text>, ghost pieces: seq<seq<Text>>)
    ensures Expands(p, wanted, pieces) && locs == Flatten(pieces)
    ensures PlainPlatform(p) ==> Plain(locs)
  {
    hide Stands, Flatten, PlainPlatform, Expands;
    assert Expands(p, wanted[..0], []) && Flatten<Text>([]) == [] by { ExpandsNothing(p, wanted); }
    locs := [];
    pieces := [];
    for k := 0 to |wanted|
      invariant Expands(p, wanted[..k], pieces) && locs == Flatten(pieces)
      invariant PlainPlatform(p) ==> Plain(locs)
    {
      var piece := ExpandOne(p, wanted[k]);
      if PlainPlatform(p) { StandsForPlain(p, wanted[k], piece); }
      ExpandsMore(p, wanted, k, pieces, piece);
      locs := locs + piece;
      pieces := pieces + [piece];
    }
    assert wanted[..|wanted|] == wanted;
  }

  lemma ExpandsNothing(p: Option<Platform>, wanted: seq<Text>)
    ensures Expands(p, wanted[..0], []) && Flatten<Text>([]) == []
  {
  }

  /** A list without reserved names stands for itself. */
  lemma {:induction false} PlainExpansion(p: Option<Platform>, locations: seq<Text>, pieces: seq<seq<Text>>)
    requires Plain(locations) && Expands(p, locations, pieces)
    ensures Flatten(pieces) == locations
    decreases |locations|
  {
    if |locations| > 0 {
      PlainExpansion(p, locations[..|locations| - 1], pieces[..|pieces| - 1]);
      assert locations == locations[..|locations| - 1] + pieces[|pieces| - 1];
    }
  }

  // ----- when expansion ends at all

  /** Following the expansion of one entry ends within `depth` rounds. */
  predicate Ends(p: Option<Platform>, l: Text, depth: nat)
    decreases depth
  {
    if !Reserved(l) then true
    else if depth == 0 then false
    else if l == ALL then forall m :: m in RpKeys(p) + LcOrRpKeys(p) ==> Ends(p, m, depth - 1)
    else if l == ALL_RP then forall m :: m in RpKeys(p) ==> Ends(p, m, depth - 1)
    else forall m :: m in LcOrRpKeys(p) ==> Ends(p, m, depth - 1)
  }

  /** No location is called "all", and the names "all-rp" and "all-lc" do not lead back to themselves. */
  predicate NoNameLoop(p: Option<Platform>)
  {
    ALL !in RpKeys(p) + LcOrRpKeys(p)
    && ALL_RP !in RpKeys(p)
    && ALL_LC !in LcOrRpKeys(p)
    && !(ALL_LC in RpKeys(p) && ALL_RP in LcOrRpKeys(p))
  }

  lemma {:induction false} LoopNeverEnds(p: Option<Platform>, depth: nat)
    ensures ALL in RpKeys(p) + LcOrRpKeys(p) ==> !Ends(p, ALL, depth)
    ensures ALL_RP in RpKeys(p) ==> !Ends(p, ALL_RP, depth)
    ensures ALL_LC in LcOrRpKeys(p) ==> !Ends(p, ALL_LC, depth)
    ensures ALL_LC in RpKeys(p) && ALL_RP in LcOrRpKeys(p) ==> !Ends(p, ALL_RP, depth) && !Ends(p, ALL_LC, depth)
  {
    if depth > 0 { LoopNeverEnds(p, depth - 1); }
  }

  lemma {:induction false} EndsLater(p: Option<Platform>, l: Text, depth: nat)
    requires Ends(p, l, depth)
    ensures Ends(p, l, depth + 1)
    decreases depth
  {
    if depth > 0 {
      forall m | Ends(p, m, depth - 1) ensures Ends(p, m, depth) { EndsLater(p, m, depth - 1); }
    }
  }

  lemma NamesEnd(p: Option<Platform>)
    requires NoNameLoop(p)
    ensures Ends(p, ALL_RP, 2) && Ends(p, ALL_LC, 2) && Ends(p, ALL, 3)
  {
    if ALL_LC in RpKeys(p) { assert Ends(p, ALL_LC, 1); }
    if ALL_RP in LcOrRpKeys(p) { assert Ends(p, ALL_RP, 1); }
    assert Ends(p, ALL_RP, 2) by { forall m | m in RpKeys(p) ensures Ends(p, m, 1) {} }
    assert Ends(p, ALL_LC, 2) by { forall m | m in LcOrRpKeys(p) ensures Ends(p, m, 1) {} }
    forall m | m in RpKeys(p) + LcOrRpKeys(p) ensures Ends(p, m, 2) {}
  }

  ghost predicate ExpansionEnds(p: Option<Platform>, l: Text)
  {
    exists depth: nat :: Ends(p, l, depth)
  }

  /** Expanding ends for every entry exactly when the platform's location names form no loop. */
  lemma ExpansionEndsExactly(p: Option<Platform>)
    ensures (forall l :: ExpansionEnds(p, l)) <==> NoNameLoop(p)
  {
    if NoNameLoop(p) {
      NamesEnd(p);
      forall l ensures ExpansionEnds(p, l) {
        if !Reserved(l) { assert Ends(p, l, 0); }
      }
    }
    if ExpansionEnds(p, ALL) && ExpansionEnds(p, ALL_RP) && ExpansionEnds(p, ALL_LC) {
      var a: nat :| Ends(p, ALL, a);
      var b: nat :| Ends(p, ALL_RP, b);
      var c: nat :| Ends(p, ALL_LC, c);
      LoopNeverEnds(p, a);
      LoopNeverEnds(p, b);
      LoopNeverEnds(p, c);
    }
  }

  // ----- what expansion comes to

  /** `flat` is what one entry comes to after all expanding, in some order. */
  ghost predicate Unfolds(p: Option<Platform>, l: Text, flat: seq<Text>, depth: nat)
    decreases depth, 0
  {
    if !Reserved(l) then flat == [l]
    else
      depth > 0
      && exists order, pieces ::
           Stands(p, l, order) && UnfoldsList(p, order, pieces, depth - 1) && flat == Flatten(pieces)
  }

  ghost predicate UnfoldsList(p: Option<Platform>, locations: seq<Text>, pieces: seq<seq<Text>>, depth: nat)
    decreases depth, 1
  {
    |pieces| == |locations| && forall k :: 0 <= k < |locations| ==> Unfolds(p, locations[k], pieces[k], depth)
  }

  /** On a platform whose locations have ordinary names, that is what the entry stands for. */
  lemma UnfoldsPlain(p: Option<Platform>, l: Text, flat: seq<Text>, depth: nat)
    requires PlainPlatform(p) && Unfolds(p, l, flat, depth)
    ensures Stands(p, l, flat)
  {
    if Reserved(l) {
      var order, pieces :| Stands(p, l, order) && UnfoldsList(p, order, pieces, depth - 1) && flat == Flatten(pieces);
      StandsForPlain(p, l, order);
      forall k | 0 <= k < |order| ensures Stands(p, order[k], pieces[k]) {
        assert Unfolds(p, order[k], pieces[k], depth - 1);
      }
      PlainExpansion(p, order, pieces);
    }
  }

  lemma {:induction false} FlattenPlain(pieces: seq<seq<Text>>)
    requires forall k :: 0 <= k < |pieces| ==> Plain(pieces[k])
    ensures Plain(Flatten(pieces))
  {
    if |pieces| > 0 { FlattenPlain(pieces[..|pieces| - 1]); }
  }

  /** No reserved name is left in it. */
  lemma {:induction false} UnfoldedIsPlain(p: Option<Platform>, l: Text, flat: seq<Text>, depth: nat)
    requires Unfolds(p, l, flat, depth)
    ensures Plain(flat)
    decreases depth
  {
    if Reserved(l) {
      var order, pieces :| Stands(p, l, order) && UnfoldsList(p, order, pieces, depth - 1) && flat == Flatten(pieces);
      forall k | 0 <= k < |pieces| ensures Plain(pieces[k]) {
        assert Unfolds(p, order[k], pieces[k], depth - 1);
        UnfoldedIsPlain(p, order[k], pieces[k], depth - 1);
      }
      FlattenPlain(pieces);
    }
  }

  /** Expanding goes on with entries for which it ends sooner. */
  lemma EndsInside(p: Option<Platform>, l: Text, order: seq<Text>, depth: nat)
    requires Ends(p, l, depth) && Reserved(l) && Stands(p, l, order)
    ensures depth > 0 && forall k :: 0 <= k < |order| ==> Ends(p, order[k], depth - 1)
  {
    forall k | 0 <= k < |order| ensures Ends(p, order[k], depth - 1) {
      assert order[k] in multiset(order);
      assert order[k] in RpKeys(p) || order[k] in LcOrRpKeys(p);
      if l == ALL { assert order[k] in RpKeys(p) + LcOrRpKeys(p); }
    }
  }

  lemma {:induction false} SomeOrder(keys: set<Text>) returns (order: seq<Text>)
    ensures multiset(order) == multiset(keys)
    decreases keys
  {
    if keys == {} {
      order := [];
    } else {
      var key :| key in keys;
      var rest := SomeOrder(keys - {key});
      order := rest + [key];
      assert keys == (keys - {key}) + {key};
    }
  }

  lemma SomeExpansion(p: Option<Platform>, l: Text) returns (order: seq<Text>)
    ensures Stands(p, l, order)
  {
    var rps := SomeOrder(RpKeys(p));
    var lcs := SomeOrder(LcOrRpKeys(p));
    order := if l == ALL then rps + lcs else if l == ALL_RP then rps else if l == ALL_LC then lcs else [l];
  }

  lemma {:induction false} SomeUnfolding(p: Option<Platform>, l: Text, depth: nat) returns (flat: seq<Text>)
    requires Ends(p, l, depth)
    ensures Unfolds(p, l, flat, depth)
    decreases depth, 0, 1
  {
    if Reserved(l) {
      var order := SomeExpansion(p, l);
      EndsInside(p, l, order, depth);
      var pieces := SomeUnfoldings(p, order, depth - 1);
      flat := Flatten(pieces);
    } else {
      flat := [l];
    }
  }

  lemma {:induction false} SomeUnfoldings(p: Option<Platform>, locations: seq<Text>, depth: nat)
    returns (pieces: seq<seq<Text>>)
    requires forall k :: 0 <= k < |locations| ==> Ends(p, locations[k], depth)
    ensures UnfoldsList(p, locations, pieces, depth)
    decreases depth, 1, |locations|
  {
    hide Unfolds, Ends, Flatten;
    if locations == [] {
      pieces := [];
    } else {
      var most := locations[..|locations| - 1];
      var before := SomeUnfoldings(p, most, depth);
      var last := SomeUnfolding(p, locations[|locations| - 1], depth);
      pieces := before + [last];
      UnfoldsMore(p, locations, |most|, before, last, depth);
      assert locations[..|locations|] == locations;
    }
  }

  lemma UnfoldsMore(p: Option<Platform>, locations: seq<Text>, k: nat, pieces: seq<seq<Text>>, piece: seq<Text>, depth: nat)
    requires k < |locations| && UnfoldsList(p, locations[..k], pieces, depth) && Unfolds(p, locations[k], piece, depth)
    ensures UnfoldsList(p, locations[..k + 1], pieces + [piece], depth)
    ensures Flatten(pieces + [piece]) == Flatten(pieces) + piece
  {
    FlattenAppend(pieces, [piece]);
    FlattenOne(piece);
  }

  // ----- sending

  /** The device end: it answers the n-th line it is sent, or the session fails. */
  class Session {
    const answers: imap<int, Text>
    var sent: seq<Text>

    constructor (answers: imap<int, Text>)
      ensures this.answers == answers && sent == []
    {
      this.answers := answers;
      sent := [];
    }

    method GetData(line: Text) returns (r: Option<Text>)
      modifies this
      ensures sent == old(sent) + [line]
      ensures r == if |old(sent)| in answers then Some(answers[|old(sent)|]) else None
    {
      var n := |sent|;
      sent := sent + [line];
      r := if n in answers then Some(answers[n]) else None;
    }
  }

  /** What keeps a command from being sent, or from being answered. */
  datatype SendError = SessionFailed | TickerPanic

  /** A ticker with a negative interval panics; it is made only when the line is to be repeated. */
  predicate TickerPanics(times: int, interval: int) { interval < 0 && times != 0 }

  /** How often one line is sent. */
  function Repeats(times: int, interval: int): (n: nat)
  {
    if interval == 0 || times == 0 then 1 else if interval < 0 || times < 0 then 0 else times
  }

  function Copies<T>(x: T, n: nat): (r: seq<T>)
    ensures |r| == n
  {
    seq(n, _ => x)
  }

  /** The results of the lines sent from position `from` on. */
  ghost predicate Results(s: Session, from: nat, results: seq<CmdResult>)
    reads s
  {
    from + |results| == |s.sent|
    && forall k :: from <= k < |s.sent| ==>
      k in s.answers && results[k - from] == CmdResult(s.sent[k], s.answers[k])
  }

  /** The session failed at the last line sent, and only there. */
  ghost predicate FailedLast(s: Session, from: nat)
    reads s
  {
    from < |s.sent| && |s.sent| - 1 !in s.answers && forall k :: from <= k < |s.sent| - 1 ==> k in s.answers
  }

  /** The lines were sent and answered, or sent up to the one at which the session failed, or nothing
      was sent because of a ticker that panics. */
  ghost predicate Carried(s: Session, before: seq<Text>, lines: seq<Text>, r: Result<seq<CmdResult>, SendError>)
    reads s
  {
    match r
    case Ok(results) => s.sent == before + lines && Results(s, |before|, results)
    case Err(SessionFailed) => before <= s.sent <= before + lines && FailedLast(s, |before|)
    case Err(TickerPanic) => s.sent == before
  }

  method SendCommand(s: Session, line: Text, times: int, interval: int) returns (r: Result<seq<CmdResult>, SendError>)
    modifies s
    ensures Carried(s, old(s.sent), Copies(line, Repeats(times, interval)), r)
    ensures r == Err(TickerPanic) <==> interval < 0 && times != 0
    ensures r.Ok? ==> |s.sent| - |old(s.sent)| == if interval == 0 || times == 0 then 1 else if times < 0 then 0 else times
    ensures forall k :: |old(s.sent)| <= k < |s.sent| ==> s.sent[k] == line
    ensures r.Ok? ==> |r.value| == |s.sent| - |old(s.sent)|
    ensures r.Ok? ==> forall k :: 0 <= k < |r.value| ==>
              |old(s.sent)| + k in s.answers && r.value[k] == CmdResult(line, s.answers[|old(s.sent)| + k])
  {
    if interval == 0 || times == 0 {
      var b := s.GetData(line);
      return if b.None? then Err(SessionFailed) else Ok([CmdResult(line, b.value)]);
    }
    if interval < 0 {
      return Err(TickerPanic);
    }
    var results: seq<CmdResult> := [];
    var t := 0;
    while t < times
      invariant 0 <= t && (times >= 0 ==> t <= times) && (times < 0 ==> t == 0)
      invariant s.sent == old(s.sent) + Copies(line, t) && Results(s, |old(s.sent)|, results)
    {
      assert Copies(line, t + 1) == Copies(line, t) + [line];
      var b := s.GetData(line);
      if b.None? {
        assert Copies(line, t + 1) <= Copies(line, times);
        return Err(SessionFailed);
      }
      results := results + [CmdResult(line, b.value)];
      t := t + 1;
    }
    return Ok(results);
  }

  /** A command to be sent to locations: its text, its repetition, its pipe modifier. */
  datatype Located = Located(cmd: Text, times: int, interval: int, pipeModifier: Text)

  const LOCATION_WORD: Text := [0x6c, 0x6f, 0x63, 0x61, 0x74, 0x69, 0x6f, 0x6e, 0x20]

  function LineAt(c: Located, l: Text): (line: Text)
  {
    c.cmd + [SPACE] + LOCATION_WORD + l + [SPACE] + c.pipeModifier
  }

  // ----- what a line says

  const LOCATION: Text := [0x6c, 0x6f, 0x63, 0x61, 0x74, 0x69, 0x6f, 0x6e]

  lemma Regroup(a: Text, b: Text, c: Text)
    ensures a + b + c == a + (b + c)
  {
  }

  lemma Tail(first: Text, rest: seq<Text>)
    ensures ([first] + rest)[1..] == rest
  {
  }

  lemma Wording()
    ensures LOCATION == Ascii("location") && [SPACE, 0x7c, SPACE] == Ascii(" | ")
  {
  }

  /** A run of separators in front splits off an empty word. */
  lemma SplitFront(run: Text, rest: Text, sep: set<Byte>)
    requires run != [] && AllIn(run, sep) && (rest == [] || rest[0] !in sep)
    ensures Split(run + rest, sep)[1..] == Split(rest, sep)
  {
    hide Split;
    SplitStep([], run, rest, sep);
    assert [] + run == run;
    Tail([], Split(rest, sep));
  }

  /** The separators that a text starts with. */
  lemma FrontRun(t: Text, sep: set<Byte>) returns (run: Text, rest: Text)
    requires t != [] && t[0] in sep
    ensures t == run + rest && run != [] && AllIn(run, sep) && (rest == [] || rest[0] !in sep)
  {
    var j := Scan(t, sep, 0, false);
    ScanMeaning(t, sep, 0, false);
    run, rest := t[..j], t[j..];
  }

  /** A word in front of a separator is the first word. */
  lemma SplitWord(word: Text, t: Text, sep: set<Byte>)
    requires SeparatorFree(word, sep) && t != [] && t[0] in sep
    ensures Split(word + t, sep) == [word] + Split(t, sep)[1..]
  {
    var run, rest := FrontRun(t, sep);
    hide Split, Scan, AllIn, SeparatorFree;
    SplitStep(word, run, rest, sep);
    SplitFront(run, rest, sep);
    Regroup(word, run, rest);
  }

  /** Behind the command come, after a blank, the word "location", the location, and the words of the
      pipe modifier. */
  predicate NamesLocation(c: Located, l: Text, line: Text)
  {
    c.cmd <= line
    && Split(line[|c.cmd|..], {SPACE}) == [[], LOCATION, l] + Split([SPACE] + c.pipeModifier, {SPACE})[1..]
  }

  lemma LineNamesLocation(c: Located, l: Text)
    requires SPACE !in l && l != []
    ensures NamesLocation(c, l, LineAt(c, l))
  {
    hide Split;
    WordsOfTail(l, [SPACE] + c.pipeModifier);
    var rest := [SPACE] + LOCATION + [SPACE] + (l + ([SPACE] + c.pipeModifier));
    assert LineAt(c, l) == c.cmd + rest;
    assert (c.cmd + rest)[|c.cmd|..] == rest;
  }

  lemma Words(first: Text, second: Text, rest: seq<Text>)
    ensures [[]] + ([first] + ([second] + rest)) == [[], first, second] + rest
  {
  }

  lemma WordsOfTail(l: Text, tail: Text)
    requires SPACE !in l && l != [] && tail != [] && tail[0] == SPACE
    ensures Split([SPACE] + LOCATION + [SPACE] + (l + tail), {SPACE}) == [[], LOCATION, l] + Split(tail, {SPACE})[1..]
  {
    hide Split;
    SplitWord(l, tail, {SPACE});
    SplitStep(LOCATION, [SPACE], l + tail, {SPACE});
    var line := LOCATION + [SPACE] + (l + tail);
    assert line[0] == LOCATION[0];
    SplitStep([], [SPACE], line, {SPACE});
    assert [] + [SPACE] + line == [SPACE] + LOCATION + [SPACE] + (l + tail) by { Regrouped(l + tail); }
    Words(LOCATION, l, Split(tail, {SPACE})[1..]);
  }

  lemma Regrouped(tail: Text)
    ensures [] + [SPACE] + (LOCATION + [SPACE] + tail) == [SPACE] + LOCATION + [SPACE] + tail
  {
  }

  /** Different locations get different lines. */
  lemma LinesDiffer(c: Located, l: Text, m: Text)
    ensures LineAt(c, l) == LineAt(c, m) <==> l == m
  {
    var front, back := c.cmd + [SPACE] + LOCATION_WORD, [SPACE] + c.pipeModifier;
    assert LineAt(c, l) == front + l + back && LineAt(c, m) == front + m + back;
    assert (front + l + back)[|front|..|front| + |l|] == l;
    assert (front + m + back)[|front|..|front| + |m|] == m;
  }

  /** The flat schedule: every location in turn, with its repetitions. */
  function LinesAt(c: Located, locations: seq<Text>, n: nat): (lines: seq<Text>)
    requires n <= |locations|
  {
    if n == 0 then [] else LinesAt(c, locations, n - 1) + Copies(LineAt(c, locations[n - 1]), Repeats(c.times, c.interval))
  }

  lemma {:induction false} LinesAtAppend(c: Located, a: seq<Text>, b: seq<Text>, n: nat)
    requires n <= |b|
    ensures LinesAt(c, a + b, |a| + n) == LinesAt(c, a, |a|) + LinesAt(c, b, n)
  {
    if n == 0 {
      LinesAtPrefix(c, a, b, |a|);
    } else {
      LinesAtAppend(c, a, b, n - 1);
      assert (a + b)[|a| + n - 1] == b[n - 1];
    }
  }

  lemma {:induction false} LinesAtPrefix(c: Located, a: seq<Text>, b: seq<Text>, n: nat)
    requires n <= |a|
    ensures LinesAt(c, a + b, n) == LinesAt(c, a, n)
  {
    if n > 0 { LinesAtPrefix(c, a, b, n - 1); }
  }

  lemma Quotient(n: nat, rep: nat, i: nat)
    requires 0 < rep && n * rep <= i < n * rep + rep
    ensures i / rep == n
  {
    var q := i / rep;
    assert i == q * rep + i % rep;
    if q < n { Grows(q + 1, n, rep); }
    if n < q { Grows(n + 1, q, rep); }
  }

  lemma Grows(a: nat, b: nat, rep: nat)
    requires a <= b
    ensures a * rep <= b * rep
  {
  }

  /** The i-th line of the flat schedule is for location i / rep. */
  lemma {:induction false} LineOf(c: Located, locations: seq<Text>, n: nat, i: nat)
    requires n <= |locations| && i < |LinesAt(c, locations, n)|
    ensures var rep := Repeats(c.times, c.interval);
            |LinesAt(c, locations, n)| == n * rep && 0 < rep && 0 <= i / rep < n
            && LinesAt(c, locations, n)[i] == LineAt(c, locations[i / rep])
  {
    var rep := Repeats(c.times, c.interval);
    LinesCount(c, locations, n - 1);
    LinesCount(c, locations, n);
    assert n * rep == (n - 1) * rep + rep;
    hide LineAt, Repeats;
    if i < |LinesAt(c, locations, n - 1)| {
      LineOf(c, locations, n - 1, i);
    } else {
      Quotient(n - 1, rep, i);
    }
  }

  lemma {:induction false} LinesCount(c: Located, locations: seq<Text>, n: nat)
    requires n <= |locations|
    ensures |LinesAt(c, locations, n)| == n * Repeats(c.times, c.interval)
  {
    hide LineAt, Repeats;
    if n > 0 { LinesCount(c, locations, n - 1); }
  }

  /** The i-th line names the location that it was sent for, when every location in turn is sent a
      line as often as asked for. */
  predicate NamedAt(c: Located, flat: seq<Text>, i: nat, line: Text)
  {
    var rep := if c.interval == 0 || c.times == 0 then 1 else c.times;
    0 < rep && 0 <= i / rep < |flat|
    && (SPACE !in flat[i / rep] && flat[i / rep] != [] ==> NamesLocation(c, flat[i / rep], line))
  }

  predicate NamedInTurn(c: Located, flat: seq<Text>, lines: seq<Text>)
  {
    forall i :: 0 <= i < |lines| ==> NamedAt(c, flat, i, lines[i])
  }

  lemma LineNamed(c: Located, flat: seq<Text>, i: nat)
    requires i < |LinesAt(c, flat, |flat|)|
    ensures NamedAt(c, flat, i, LinesAt(c, flat, |flat|)[i])
  {
    hide LinesAt, LineAt, NamesLocation;
    LineOf(c, flat, |flat|, i);
    var l := flat[i / Repeats(c.times, c.interval)];
    if SPACE !in l && l != [] { LineNamesLocation(c, l); }
  }

  lemma BeginningNamed(c: Located, flat: seq<Text>, lines: seq<Text>)
    requires lines <= LinesAt(c, flat, |flat|)
    ensures NamedInTurn(c, flat, lines)
  {
    hide LinesAt, NamedAt;
    forall i | 0 <= i < |lines| ensures NamedAt(c, flat, i, lines[i]) { LineNamed(c, flat, i); }
  }

  lemma LinesNamed(s: Session, before: seq<Text>, c: Located, flat: seq<Text>, r: Result<seq<CmdResult>, SendError>)
    requires Carried(s, before, LinesAt(c, flat, |flat|), r)
    ensures before <= s.sent && NamedInTurn(c, flat, s.sent[|before|..])
  {
    hide LinesAt, NamedInTurn;
    var lines, all := s.sent[|before|..], LinesAt(c, flat, |flat|);
    assert lines <= all by { assert (before + all)[|before|..] == all; }
    BeginningNamed(c, flat, lines);
  }

  /** One result for every line sent, with the line and its answer. */
  ghost predicate ResultOfEachLine(s: Session, from: nat, results: seq<CmdResult>)
    reads s
  {
    |results| == |s.sent| - from
    && forall k :: 0 <= k < |results| ==>
         from + k in s.answers && results[k] == CmdResult(s.sent[from + k], s.answers[from + k])
  }

  lemma ResultsEach(s: Session, before: seq<Text>, lines: seq<Text>, r: Result<seq<CmdResult>, SendError>)
    requires Carried(s, before, lines, r) && r.Ok?
    ensures ResultOfEachLine(s, |before|, r.value)
  {
    var from, results := |before|, r.value;
    forall k | 0 <= k < |results|
      ensures from + k in s.answers && results[k] == CmdResult(s.sent[from + k], s.answers[from + k])
    {
      assert results[(from + k) - from] == results[k];
    }
  }

  /** How far a list of locations got: `pieces` are what its first entries came to, `flat` the
      locations that came out, and what was carried out is their flat schedule. A ticker panics
      exactly when there is a location to send to. */
  ghost predicate SentTo(s: Session, before: seq<Text>, p: Option<Platform>, c: Located, locations: seq<Text>,
                         pieces: seq<seq<Text>>, depth: nat, r: Result<seq<CmdResult>, SendError>)
    reads s
  {
    |pieces| <= |locations| && UnfoldsList(p, locations[..|pieces|], pieces, depth) && (r.Ok? ==> |pieces| == |locations|)
    && var flat := Flatten(pieces);
       Carried(s, before, LinesAt(c, flat, |flat|), r) && PanicsOn(c, flat, r)
  }

  predicate PanicsOn(c: Located, flat: seq<Text>, r: Result<seq<CmdResult>, SendError>)
  {
    (r == Err(TickerPanic) <==> TickerPanics(c.times, c.interval) && flat != [])
    && (TickerPanics(c.times, c.interval) ==> r != Err(SessionFailed))
  }

  lemma SentMore(c: Located, flat: seq<Text>, piece: seq<Text>)
    ensures LinesAt(c, flat + piece, |flat + piece|) == LinesAt(c, flat, |flat|) + LinesAt(c, piece, |piece|)
  {
    LinesAtAppend(c, flat, piece, |piece|);
  }

  lemma LinesAtOne(c: Located, l: Text)
    ensures LinesAt(c, [l], 1) == Copies(LineAt(c, l), Repeats(c.times, c.interval))
  {
    assert LinesAt(c, [l], 0) == [];
  }

  lemma NoLines(c: Located)
    ensures LinesAt(c, [], 0) == []
  {
  }

  /** A beginning of the pieces has a beginning of the lines. */
  lemma LinesOfBeginning(c: Located, pieces: seq<seq<Text>>, more: seq<seq<Text>>)
    ensures var flat, all := Flatten(pieces), Flatten(pieces + more);
            LinesAt(c, flat, |flat|) <= LinesAt(c, all, |all|) && (flat != [] ==> all != [])
  {
    FlattenAppend(pieces, more);
    SentMore(c, Flatten(pieces), Flatten(more));
  }

  lemma {:induction false} ResultsJoin(s: Session, from: nat, mid: nat, a: seq<CmdResult>, b: seq<CmdResult>, before: seq<Text>)
    requires from + |a| == mid && Results(s, mid, b) && mid == |before| && before <= s.sent
    requires forall k :: from <= k < mid ==> k in s.answers && a[k - from] == CmdResult(before[k], s.answers[k])
    ensures Results(s, from, a + b)
  {
  }

  lemma CarriedLonger(s: Session, before: seq<Text>, lines: seq<Text>, more: seq<Text>, r: Result<seq<CmdResult>, SendError>)
    requires Carried(s, before, lines, r) && r.Err? && lines <= more
    ensures Carried(s, before, more, r)
  {
    assert before + lines <= before + more;
  }

  /** A failure behind lines that were all answered. */
  lemma FailedThere(s: Session, start: seq<Text>, before: seq<Text>, lines: seq<Text>, r: Result<seq<CmdResult>, SendError>)
    requires start <= before && forall k :: |start| <= k < |before| ==> k in s.answers
    requires Carried(s, before, lines, r) && r == Err(SessionFailed)
    ensures Carried(s, start, before[|start|..] + lines, r)
  {
    assert start + (before[|start|..] + lines) == before + lines;
  }

  /** Completing what a failure left of an expanded list. */
  lemma CompletePieces(s: Session, before: seq<Text>, p: Option<Platform>, c: Located, order: seq<Text>,
                       pieces: seq<seq<Text>>, depth: nat, r: Result<seq<CmdResult>, SendError>)
    returns (all: seq<seq<Text>>)
    requires forall k :: 0 <= k < |order| ==> Ends(p, order[k], depth)
    requires SentTo(s, before, p, c, order, pieces, depth, r)
    ensures UnfoldsList(p, order, all, depth)
    ensures var flat := Flatten(all); Carried(s, before, LinesAt(c, flat, |flat|), r) && PanicsOn(c, flat, r)
  {
    var rest := order[|pieces|..];
    assert forall k :: 0 <= k < |rest| ==> rest[k] == order[|pieces| + k];
    var more := SomeUnfoldings(p, rest, depth);
    all := pieces + more;
    hide Unfolds, Flatten, LinesAt, Carried, Ends;
    assert UnfoldsList(p, order, all, depth) by {
      assert forall k :: 0 <= k < |pieces| ==> order[..|pieces|][k] == order[k];
    }
    LinesOfBeginning(c, pieces, more);
    var flat, longer := Flatten(pieces), Flatten(all);
    if r.Ok? {
      assert more == [] && all == pieces;
    } else {
      CarriedLonger(s, before, LinesAt(c, flat, |flat|), LinesAt(c, longer, |longer|), r);
    }
  }

  lemma UnfoldsFrom(p: Option<Platform>, l: Text, order: seq<Text>, pieces: seq<seq<Text>>, depth: nat)
    requires Reserved(l) && depth > 0 && Stands(p, l, order) && UnfoldsList(p, order, pieces, depth - 1)
    ensures Unfolds(p, l, Flatten(pieces), depth)
  {
  }

  /** One entry of the list: a name for several locations is expanded and sent recursively. */
  method SendEntry(s: Session, p: Option<Platform>, c: Located, l: Text, ghost depth: nat)
    returns (r: Result<seq<CmdResult>, SendError>, ghost piece: seq<Text>)
    requires Ends(p, l, depth)
    modifies s
    ensures Unfolds(p, l, piece, depth) && Carried(s, old(s.sent), LinesAt(c, piece, |piece|), r)
    ensures PanicsOn(c, piece, r)
    decreases depth, 0
  {
    if Reserved(l) {
      hide Unfolds, Stands, Carried, Flatten, Ends, LinesAt;
      var order := ExpandOne(p, l);
      EndsInside(p, l, order, depth);
      ghost var pieces;
      r, pieces := SendCommandWithLocations(s, p, c, order, depth - 1);
      ghost var all := CompletePieces(s, old(s.sent), p, c, order, pieces, depth - 1, r);
      piece := Flatten(all);
      UnfoldsFrom(p, l, order, all, depth);
    } else {
      piece := [l];
      LinesAtOne(c, l);
      r := SendCommand(s, LineAt(c, l), c.times, c.interval);
    }
  }

  /** Sending a command to a list of locations for each of which expanding ends: what it sends and
      returns is the flat schedule of the fully expanded list. */
  method SendCommandWithLocations(s: Session, p: Option<Platform>, c: Located, locations: seq<Text>, ghost depth: nat)
    returns (r: Result<seq<CmdResult>, SendError>, ghost pieces: seq<seq<Text>>)
    requires forall k :: 0 <= k < |locations| ==> Ends(p, locations[k], depth)
    modifies s
    ensures SentTo(s, old(s.sent), p, c, locations, pieces, depth, r)
    ensures old(s.sent) <= s.sent && NamedInTurn(c, Flatten(pieces), s.sent[|old(s.sent)|..])
    ensures r == Err(TickerPanic) <==> c.interval < 0 && c.times != 0 && Flatten(pieces) != []
    ensures r.Ok? ==> ResultOfEachLine(s, |old(s.sent)|, r.value)
    decreases depth, 1
  {
    hide Unfolds, Flatten, LinesAt, Ends, NamedInTurn, ResultOfEachLine;
    assert Flatten<Text>([]) == [] by { ExpandsNothing(p, locations); }
    NoLines(c);
    var results: seq<CmdResult> := [];
    pieces := [];
    for k := 0 to |locations|
      invariant |pieces| == k && UnfoldsList(p, locations[..k], pieces, depth)
      invariant var flat := Flatten(pieces);
                Carried(s, old(s.sent), LinesAt(c, flat, |flat|), Ok(results)) && PanicsOn(c, flat, Ok(results))
    {
      ghost var before := s.sent;
      ghost var piece;
      var rs;
      rs, piece := SendEntry(s, p, c, locations[k], depth);
      UnfoldsMore(p, locations, k, pieces, piece, depth);
      SentMore(c, Flatten(pieces), piece);
      pieces := pieces + [piece];
      if rs.Err? {
        if rs == Err(SessionFailed) { FailedThere(s, old(s.sent), before, LinesAt(c, piece, |piece|), rs); }
        LinesNamed(s, old(s.sent), c, Flatten(pieces), Err(rs.error));
        return Err(rs.error), pieces;
      }
      ResultsJoin(s, |old(s.sent)|, |before|, results, rs.value, before);
      results := results + rs.value;
    }
    assert locations[..|locations|] == locations;
    LinesNamed(s, old(s.sent), c, Flatten(pieces), Ok(results));
    ResultsEach(s, old(s.sent), LinesAt(c, Flatten(pieces), |Flatten(pieces)|), Ok(results));
    return Ok(results), pieces;
  }

  /** On a platform whose locations have ordinary names, the pieces are what the entries stand for. */
  lemma UnfoldsListPlain(p: Option<Platform>, locations: seq<Text>, pieces: seq<seq<Text>>, depth: nat)
    requires PlainPlatform(p) && UnfoldsList(p, locations, pieces, depth)
    ensures Expands(p, locations, pieces)
  {
    hide Stands;
    forall k | 0 <= k < |locations| ensures Stands(p, locations[k], pieces[k]) {
      UnfoldsPlain(p, locations[k], pieces[k], depth);
    }
  }

  // ----- one command of the command file

  /** " | " */
  const PIPE: Text := [SPACE, 0x7c, SPACE]

  function PipeSuffix(modifier: Text): (suffix: Text)
  {
    if modifier == [] then [] else PIPE + modifier
  }

  function LocatedOf(command: CommandSpec): (c: Located)
  {
    Located(command.cmd, command.times, command.interval, PipeSuffix(command.pipeModifier))
  }

  lemma EndsWhenPrepared(p: Option<Platform>, wanted: seq<Text>, pieces: seq<seq<Text>>, depth: nat)
    requires Expands(p, wanted, pieces) && forall k :: 0 <= k < |wanted| ==> Ends(p, wanted[k], depth)
    ensures forall k :: 0 <= k < |Flatten(pieces)| ==> Ends(p, Flatten(pieces)[k], depth)
    decreases |wanted|
  {
    hide Stands, Ends;
    if |wanted| > 0 {
      var n := |wanted| - 1;
      EndsWhenPrepared(p, wanted[..n], pieces[..n], depth);
      EndsForPiece(p, wanted[n], pieces[n], depth);
      assert Flatten(pieces) == Flatten(pieces[..n]) + pieces[n];
    }
  }

  lemma EndsForPiece(p: Option<Platform>, l: Text, piece: seq<Text>, depth: nat)
    requires Stands(p, l, piece) && Ends(p, l, depth)
    ensures forall k :: 0 <= k < |piece| ==> Ends(p, piece[k], depth)
  {
    if Reserved(l) {
      EndsInside(p, l, piece, depth);
      forall k | 0 <= k < |piece| ensures Ends(p, piece[k], depth) { EndsLater(p, piece[k], depth - 1); }
    }
  }

  /** A command without locations is sent as one line; one with locations is sent to the prepared
      list. Its results are handed back only when they are to be collected. */
  method ProcessCommand(s: Session, p: Option<Platform>, command: CommandSpec, collect: bool, ghost depth: nat)
    returns (r: Result<seq<CmdResult>, SendError>, ghost locs: seq<Text>, ghost pieces: seq<seq<Text>>,
             ghost sent: Result<seq<CmdResult>, SendError>)
    requires forall k :: 0 <= k < |command.location| ==> Ends(p, command.location[k], depth)
    modifies s
    ensures r == match sent case Ok(results) => Ok(if collect then results else []) case Err(e) => Err(e)
    ensures command.location == [] ==>
              var line := command.cmd + if command.pipeModifier == [] then [] else [SPACE, 0x7c, SPACE] + command.pipeModifier;
              Carried(s, old(s.sent), Copies(line, Repeats(command.times, command.interval)), sent)
              && (sent == Err(TickerPanic) <==> command.interval < 0 && command.times != 0)
    ensures command.location != [] ==>
              (exists prepared :: Expands(p, command.location, prepared) && locs == Flatten(prepared))
              && var suffix := if command.pipeModifier == [] then [] else [SPACE, 0x7c, SPACE] + command.pipeModifier;
                 var located := Located(command.cmd, command.times, command.interval, suffix);
                 SentTo(s, old(s.sent), p, located, locs, pieces, depth, sent)
                 && old(s.sent) <= s.sent && NamedInTurn(located, Flatten(pieces), s.sent[|old(s.sent)|..])
  {
    var suffix := PipeSuffix(command.pipeModifier);
    locs, pieces := [], [];
    var rs;
    if |command.location| == 0 {
      rs := SendCommand(s, command.cmd + suffix, command.times, command.interval);
    } else {
      var list;
      ghost var prepared;
      list, prepared := PrepareLocations(p, command.location);
      EndsWhenPrepared(p, command.location, prepared, depth);
      rs, pieces := SendCommandWithLocations(s, p, LocatedOf(command), list, depth);
      locs := list;
    }
    sent := rs;
    match rs {
      case Err(e) => r := Err(e);
      case Ok(results) => r := Ok(if collect then results else []);
    }
  }
}
