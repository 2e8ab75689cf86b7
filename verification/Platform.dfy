/** The platform inventory read from `show platform`, and the locations it names. */
module Platform {
  import opened Bytes
  import opened FieldParser

  datatype Rp = Rp(isActive: bool, location: Text)
  datatype Lc = Lc(location: Text)

  /** A missing map is Go's nil. */
  datatype Platform = Platform(rps: Option<map<Text, Rp>>, lcs: Option<map<Text, Lc>>)

  /** The lines that the two line patterns match. */
  datatype LinePatterns = LinePatterns(rp: iset<Text>, lc: iset<Text>)

  datatype PlatformError = InvalidLine | NoRp

  const WHITESPACE: set<Byte> := {0x09, 0x0a, 0x0c, 0x0d, 0x20}
  const ACTIVE: Text := [0x41, 0x63, 0x74, 0x69, 0x76, 0x65]
  const ACTIVE_LOWER: Text := [0x61, 0x63, 0x74, 0x69, 0x76, 0x65]

  function Columns(line: Text): (parts: seq<Text>)
    ensures |parts| > 0
  {
    Split(line, WHITESPACE)
  }

  function LocationOf(line: Text): (location: Text)
  {
    Trim(Columns(line)[0], TRIMMED)
  }

  predicate LooksActive(kind: Text)
  {
    Contains(kind, ACTIVE) || Contains(kind, ACTIVE_LOWER)
  }

  // ----- the line patterns

  const SLASH: Byte := 0x2f

  /** "/CPU0", "RP", "RSP", "IOS XR RUN" */
  const CPU: Text := [0x2f, 0x43, 0x50, 0x55, 0x30]
  const RP: Text := [0x52, 0x50]
  const RSP: Text := [0x52, 0x53, 0x50]
  const STATE: Text := [0x49, 0x4f, 0x53, 0x20, 0x58, 0x52, 0x20, 0x52, 0x55, 0x4e]

  predicate IsDigit(b: Byte) { 0x30 <= b <= 0x39 }

  predicate Digits(s: Text) { s != [] && forall k :: 0 <= k < |s| ==> IsDigit(s[k]) }

  predicate Spaces(s: Text) { s != [] && forall k :: 0 <= k < |s| ==> s[k] in WHITESPACE }

  /** Letters, digits, hyphens and parentheses. */
  predicate CardType(s: Text)
  {
    s != []
    && forall k :: 0 <= k < |s| ==>
         IsDigit(s[k]) || 0x41 <= s[k] <= 0x5a || 0x61 <= s[k] <= 0x7a || s[k] in {0x28, 0x29, 0x2d}
  }

  /** The parts of a line on both sides of what a line pattern matches, and the match's own. */
  datatype Parts = Parts(front: Text, node: Text, slot: Text, gap: Text, kind: Text, gap2: Text, gap3: Text, back: Text)

  /** The line has a node number, a slot, "/CPU0", a card type and the running state somewhere. */
  ghost predicate Matched(line: Text, p: Parts)
  {
    line == p.front + p.node + [SLASH] + p.slot + CPU + p.gap + p.kind + p.gap2 + STATE + p.gap3 + p.back
    && Digits(p.node) && Spaces(p.gap) && CardType(p.kind) && Spaces(p.gap2) && Spaces(p.gap3)
  }

  ghost predicate RpSlot(slot: Text)
  {
    (RP <= slot && Digits(slot[|RP|..])) || (RSP <= slot && Digits(slot[|RSP|..]))
  }

  /** The lines of `show platform` that name a route processor or a line card. */
  ghost function ShowPlatform(): (patterns: LinePatterns)
  {
    LinePatterns(iset line, p | Matched(line, p) && RpSlot(p.slot) :: line,
                 iset line, p | Matched(line, p) && Digits(p.slot) :: line)
  }

  // ----- the scans

  /** The first n lines; a later line for the same location replaces an earlier one. */
  function RpsOf(patterns: LinePatterns, lines: seq<Text>, n: nat): (r: Result<map<Text, Rp>, PlatformError>)
    requires n <= |lines|
  {
    if n == 0 then Ok(map[])
    else
      var before := RpsOf(patterns, lines, n - 1);
      var line := lines[n - 1];
      if before.Err? || line !in patterns.rp then before
      else if |Columns(line)| < 3 then Err(InvalidLine)
      else Ok(before.value[LocationOf(line) := Rp(LooksActive(Columns(line)[1]), LocationOf(line))])
  }

  function LcsOf(patterns: LinePatterns, lines: seq<Text>, n: nat): (r: Result<map<Text, Lc>, PlatformError>)
    requires n <= |lines|
  {
    if n == 0 then Ok(map[])
    else
      var before := LcsOf(patterns, lines, n - 1);
      var line := lines[n - 1];
      if before.Err? || line !in patterns.lc then before
      else if |Columns(line)| < 3 then Err(InvalidLine)
      else Ok(before.value[LocationOf(line) := Lc(LocationOf(line))])
  }

  lemma {:induction false} RpsStop(patterns: LinePatterns, lines: seq<Text>, k: nat, n: nat)
    requires k <= n <= |lines| && RpsOf(patterns, lines, k).Err?
    ensures RpsOf(patterns, lines, n) == RpsOf(patterns, lines, k)
  {
    if k < n { RpsStop(patterns, lines, k, n - 1); }
  }

  lemma {:induction false} LcsStop(patterns: LinePatterns, lines: seq<Text>, k: nat, n: nat)
    requires k <= n <= |lines| && LcsOf(patterns, lines, k).Err?
    ensures LcsOf(patterns, lines, n) == LcsOf(patterns, lines, k)
  {
    if k < n { LcsStop(patterns, lines, k, n - 1); }
  }

  method GetRPs(patterns: LinePatterns, b: Text) returns (r: Result<map<Text, Rp>, PlatformError>)
    ensures var lines := ReadLines(b);
            var rps := RpsOf(patterns, lines, |lines|);
            r == if rps == Ok(map[]) then Err(NoRp) else rps
  {
    var lines := ReadLines(b);
    var rps: map<Text, Rp> := map[];
    for n := 0 to |lines|
      invariant RpsOf(patterns, lines, n) == Ok(rps)
    {
      if lines[n] in patterns.rp {
        var parts := Split(lines[n], WHITESPACE);
        if |parts| < 3 {
          RpsStop(patterns, lines, n + 1, |lines|);
          return Err(InvalidLine);
        }
        var isActive := LooksActive(parts[1]);
        var location := Trim(parts[0], TRIMMED);
        rps := rps[location := Rp(isActive, location)];
      }
    }
    if |rps| == 0 {
      return Err(NoRp);
    }
    return Ok(rps);
  }

  /** No line card at all gives no map. */
  method GetLCs(patterns: LinePatterns, b: Text) returns (r: Result<Option<map<Text, Lc>>, PlatformError>)
    ensures var lines := ReadLines(b);
            var lcs := LcsOf(patterns, lines, |lines|);
            r == (match lcs
                  case Err(e) => Err(e)
                  case Ok(m) => Ok(if m == map[] then None else Some(m)))
  {
    var lines := ReadLines(b);
    var lcs: map<Text, Lc> := map[];
    for n := 0 to |lines|
      invariant LcsOf(patterns, lines, n) == Ok(lcs)
    {
      if lines[n] in patterns.lc {
        var parts := Split(lines[n], WHITESPACE);
        if |parts| < 3 {
          LcsStop(patterns, lines, n + 1, |lines|);
          return Err(InvalidLine);
        }
        var location := Trim(parts[0], TRIMMED);
        lcs := lcs[location := Lc(location)];
      }
    }
    if |lcs| == 0 {
      return Ok(None);
    }
    return Ok(Some(lcs));
  }

  // ----- what an accepted text names

  ghost function RpLocations(patterns: LinePatterns, b: Text): (r: set<Text>)
  {
    set line | line in ReadLines(b) && line in patterns.rp :: LocationOf(line)
  }

  ghost function LcLocations(patterns: LinePatterns, b: Text): (r: set<Text>)
  {
    set line | line in ReadLines(b) && line in patterns.lc :: LocationOf(line)
  }

  lemma {:induction false} RpsMeaning(patterns: LinePatterns, lines: seq<Text>, n: nat)
    requires n <= |lines| && RpsOf(patterns, lines, n).Ok?
    ensures RpsOf(patterns, lines, n).value.Keys == set line | line in lines[..n] && line in patterns.rp :: LocationOf(line)
    ensures forall l :: l in RpsOf(patterns, lines, n).value ==> RpsOf(patterns, lines, n).value[l].location == l
  {
    if n > 0 {
      RpsMeaning(patterns, lines, n - 1);
      assert lines[..n] == lines[..n - 1] + [lines[n - 1]];
    }
  }

  lemma {:induction false} LcsMeaning(patterns: LinePatterns, lines: seq<Text>, n: nat)
    requires n <= |lines| && LcsOf(patterns, lines, n).Ok?
    ensures LcsOf(patterns, lines, n).value.Keys == set line | line in lines[..n] && line in patterns.lc :: LocationOf(line)
    ensures forall l :: l in LcsOf(patterns, lines, n).value ==> LcsOf(patterns, lines, n).value[l].location == l
  {
    if n > 0 {
      LcsMeaning(patterns, lines, n - 1);
      assert lines[..n] == lines[..n - 1] + [lines[n - 1]];
    }
  }

  /** The inventory holds exactly the locations of the matching lines, at least one route processor,
      and never an empty line-card map. */
  ghost predicate Describes(p: Platform, patterns: LinePatterns, b: Text)
  {
    p.rps.Some? && p.rps.value.Keys == RpLocations(patterns, b) && p.rps.value != map[]
    && (p.lcs.None? <==> LcLocations(patterns, b) == {})
    && (p.lcs.Some? ==> p.lcs.value.Keys == LcLocations(patterns, b))
  }

  /** Every matching line has at least three columns. */
  ghost predicate WellFormed(patterns: LinePatterns, b: Text)
  {
    forall line :: line in ReadLines(b) && (line in patterns.rp || line in patterns.lc) ==> |Columns(line)| >= 3
  }

  lemma {:induction false} ScansSucceed(patterns: LinePatterns, lines: seq<Text>, n: nat)
    requires n <= |lines|
    ensures RpsOf(patterns, lines, n).Ok? <==> forall k :: 0 <= k < n && lines[k] in patterns.rp ==> |Columns(lines[k])| >= 3
    ensures LcsOf(patterns, lines, n).Ok? <==> forall k :: 0 <= k < n && lines[k] in patterns.lc ==> |Columns(lines[k])| >= 3
  {
    if n > 0 { ScansSucceed(patterns, lines, n - 1); }
  }

  /** A separator, something else, and a separator again make three parts. */
  lemma ThreeParts(s: Text, sep: set<Byte>, a: nat, b: nat, c: nat)
    requires a < b < c < |s| && s[a] in sep && s[b] !in sep && s[c] in sep
    ensures |Split(s, sep)| >= 3
  {
    var i := Scan(s, sep, 0, true);
    ScanMeaning(s, sep, 0, true);
    var j := Scan(s, sep, i, false);
    ScanMeaning(s, sep, i, false);
    assert i <= a && j <= b;
    var rest := s[j..];
    assert rest[c - j] == s[c];
    ScanMeaning(rest, sep, 0, true);
  }

  /** A line that a line pattern matches has three columns. */
  lemma MatchedHasColumns(line: Text, p: Parts)
    requires Matched(line, p)
    ensures |Columns(line)| >= 3
  {
    var front := p.front + p.node + [SLASH] + p.slot + CPU;
    var a := |front|;
    InTheMiddle(front, p.gap, p.kind, p.gap2, STATE + p.gap3 + p.back);
    assert line == front + p.gap + p.kind + p.gap2 + (STATE + p.gap3 + p.back);
    hide Columns;
    ThreeColumns(line, a, a + |p.gap|, a + |p.gap| + |p.kind|);
  }

  lemma ThreeColumns(line: Text, a: nat, b: nat, c: nat)
    requires a < b < c < |line| && line[a] in WHITESPACE && line[b] !in WHITESPACE && line[c] in WHITESPACE
    ensures |Columns(line)| >= 3
  {
    ThreeParts(line, WHITESPACE, a, b, c);
  }

  lemma InTheMiddle(front: Text, gap: Text, kind: Text, gap2: Text, back: Text)
    requires gap != [] && kind != [] && gap2 != []
    ensures var line, a := front + gap + kind + gap2 + back, |front|;
            line[a] == gap[0] && line[a + |gap|] == kind[0] && line[a + |gap| + |kind|] == gap2[0]
  {
  }

  /** With the line patterns of `show platform` no text is rejected for an invalid line. */
  lemma NoInvalidLine(b: Text)
    ensures WellFormed(ShowPlatform(), b)
  {
    hide Columns;
    forall line | line in ShowPlatform().rp || line in ShowPlatform().lc ensures |Columns(line)| >= 3 {
      var p :| Matched(line, p);
      MatchedHasColumns(line, p);
    }
  }

  /** How the fixed parts of a line are spelled. */
  lemma Spelling()
    ensures CPU == Ascii("/CPU0") && RP == Ascii("RP") && RSP == Ascii("RSP") && STATE == Ascii("IOS XR RUN")
    ensures ACTIVE == Ascii("Active") && ACTIVE_LOWER == Ascii("active")
  {
  }

  /** "0/0/CPU0 TYPE IOS XR RUN": the line of a node, recognised by what stands between its slashes,
      with the node as its location, without commas in front, and the card type in its second column. */
  lemma NodeLine(front: Text, node: Text, slot: Text, gap: Text, kind: Text, gap2: Text, gap3: Text, back: Text)
    requires AllIn(front, {COMMA}) && Digits(node) && SeparatorFree(slot, WHITESPACE)
    requires Spaces(gap) && CardType(kind) && Spaces(gap2) && Spaces(gap3)
    ensures var line := front + (node + Ascii("/") + slot + Ascii("/CPU0")) + gap
                        + (kind + gap2 + (Ascii("IOS XR RUN") + gap3 + back));
            (Digits(slot) ==> line in ShowPlatform().lc)
            && ((exists n :: Digits(n) && (slot == Ascii("RP") + n || slot == Ascii("RSP") + n)) ==> line in ShowPlatform().rp)
            && |Columns(line)| >= 3 && Columns(line)[1] == kind
            && LocationOf(line) == node + Ascii("/") + slot + Ascii("/CPU0")
  {
    Spelling();
    var p := Parts(front, node, slot, gap, kind, gap2, gap3, back);
    var name := node + [SLASH] + slot + CPU;
    assert Ascii("/") == [SLASH];
    if n :| Digits(n) && (slot == RP + n || slot == RSP + n) { SlotOf(slot, n); }
    NodeMatched(p, front + name + gap + (kind + gap2 + (STATE + gap3 + back)));
    hide ShowPlatform, RpSlot, Columns;
    ColumnsOfNode(front, name, gap, kind, gap2, STATE + gap3 + back);
  }

  lemma NodeMatched(p: Parts, line: Text)
    requires Digits(p.node) && Spaces(p.gap) && CardType(p.kind) && Spaces(p.gap2) && Spaces(p.gap3)
    requires line == p.front + (p.node + [SLASH] + p.slot + CPU) + p.gap + (p.kind + p.gap2 + (STATE + p.gap3 + p.back))
    ensures Matched(line, p)
  {
  }

  lemma SlotOf(slot: Text, n: Text)
    requires Digits(n) && (slot == RP + n || slot == RSP + n)
    ensures RpSlot(slot)
  {
    if slot == RP + n { assert slot[|RP|..] == n; } else { assert slot[|RSP|..] == n; }
  }

  lemma ColumnsOfNode(front: Text, name: Text, gap: Text, kind: Text, gap2: Text, rest: Text)
    requires AllIn(front, {COMMA}) && name != [] && SeparatorFree(name, WHITESPACE) && Trimmed(name, TRIMMED)
    requires Spaces(gap) && Spaces(gap2)
    requires kind != [] && SeparatorFree(kind, WHITESPACE) && rest != [] && rest[0] !in WHITESPACE
    ensures var line := front + name + gap + (kind + gap2 + rest);
            |Columns(line)| >= 3 && Columns(line)[1] == kind && LocationOf(line) == name
  {
    SplitStep(kind, gap2, rest, WHITESPACE);
    SplitStep(front + name, gap, kind + gap2 + rest, WHITESPACE);
    TrimAround(front, name, [], TRIMMED);
    assert front + name + [] == front + name;
    hide Split, Trim;
    var later := Split(rest, WHITESPACE);
    assert Columns(front + name + gap + (kind + gap2 + rest)) == [front + name] + ([kind] + later);
  }

  /** Every route processor found is active exactly when the last line for its location says so in its
      second column. */
  lemma {:induction false} RpsValues(patterns: LinePatterns, lines: seq<Text>, n: nat, k: nat)
    requires k < n <= |lines| && RpsOf(patterns, lines, n).Ok? && lines[k] in patterns.rp
    requires forall m :: k < m < n && lines[m] in patterns.rp ==> LocationOf(lines[m]) != LocationOf(lines[k])
    ensures var l, rps := LocationOf(lines[k]), RpsOf(patterns, lines, n).value;
            |Columns(lines[k])| >= 3 && l in rps && rps[l].location == l
            && (rps[l].isActive
                <==> Contains(Columns(lines[k])[1], Ascii("Active")) || Contains(Columns(lines[k])[1], Ascii("active")))
  {
    hide Columns, LocationOf, Contains;
    Spelling();
    if k < n - 1 { RpsValues(patterns, lines, n - 1, k); }
  }

  /** A text is accepted exactly when its matching lines are well formed and at least one names a
      route processor; the inventory then describes it. */
  method PopulatePlatformInfo(patterns: LinePatterns, b: Text) returns (r: Result<Platform, PlatformError>)
    ensures r.Ok? <==> WellFormed(patterns, b) && RpLocations(patterns, b) != {}
    ensures r.Ok? ==> Describes(r.value, patterns, b)
  {
    ghost var lines := ReadLines(b);
    assert lines[..|lines|] == lines;
    ScansSucceed(patterns, lines, |lines|);
    var rps := GetRPs(patterns, b);
    if RpsOf(patterns, lines, |lines|).Ok? { RpsMeaning(patterns, lines, |lines|); }
    if LcsOf(patterns, lines, |lines|).Ok? { LcsMeaning(patterns, lines, |lines|); }
    if rps.Err? {
      return Err(rps.error);
    }
    var lcs := GetLCs(patterns, b);
    if lcs.Err? {
      return Err(lcs.error);
    }
    return Ok(Platform(Some(rps.value), lcs.value));
  }
}
