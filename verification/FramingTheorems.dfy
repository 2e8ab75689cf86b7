/** The output of a command does not depend on how the stream was split into reads, as long as the
    first thing that looks like a prompt after the echo line is the prompt. */
module FramingTheorems {
  import opened Bytes
  import opened Framing

  // ----- escape sequences

  ghost predicate NoEscapes(b: Text)
  {
    forall i :: 0 <= i < |b| ==> EscapeEnd(b, i).None?
  }

  predicate InRange(b: Text, i: int, j: int, lo: Byte, hi: Byte)
  {
    0 <= i <= j <= |b| && forall k :: i <= k < j ==> lo <= b[k] <= hi
  }

  /** ESC, a bracket, parameters (digits, semicolons, question marks) up to m, intermediate bytes up to
      n, and the final byte there. */
  predicate IsEscape(b: Text, i: nat, m: int, n: int)
  {
    i + 2 <= m <= n < |b| && b[i] == 0x1b && b[i + 1] == 0x5b
    && (forall k :: i + 2 <= k < m ==> 0x30 <= b[k] <= 0x39 || b[k] == 0x3b || b[k] == 0x3f)
    && InRange(b, m, n, 0x20, 0x2f) && 0x40 <= b[n] <= 0x7e
  }

  predicate IsParameter(c: Byte) { 0x30 <= c <= 0x39 || c == 0x3b || c == 0x3f }

  lemma {:induction false} SkipParametersMeaning(b: Text, i: nat)
    requires i <= |b|
    ensures forall k :: i <= k < SkipParameters(b, i) ==> IsParameter(b[k])
    decreases |b| - i
  {
    if SkipParameters(b, i) != i { SkipParametersMeaning(b, i + 1); }
  }

  lemma {:induction false} SkipMeaning(b: Text, i: nat, lo: Byte, hi: Byte)
    requires i <= |b|
    ensures InRange(b, i, Skip(b, i, lo, hi), lo, hi)
    decreases |b| - i
  {
    if Skip(b, i, lo, hi) != i { SkipMeaning(b, i + 1, lo, hi); }
  }

  lemma {:induction false} SkipParametersTo(b: Text, i: nat, m: nat)
    requires i <= m < |b| && (forall k :: i <= k < m ==> IsParameter(b[k])) && !IsParameter(b[m])
    ensures SkipParameters(b, i) == m
    decreases m - i
  {
    if i < m { SkipParametersTo(b, i + 1, m); }
  }

  lemma {:induction false} SkipTo(b: Text, i: nat, n: nat, lo: Byte, hi: Byte)
    requires i <= n < |b| && InRange(b, i, n, lo, hi) && !(lo <= b[n] <= hi)
    ensures Skip(b, i, lo, hi) == n
    decreases n - i
  {
    if i < n { SkipTo(b, i + 1, n, lo, hi); }
  }

  lemma EscapeAt(b: Text, i: nat, m: int, n: int)
    requires IsEscape(b, i, m, n)
    ensures EscapeEnd(b, i) == Some(n + 1)
  {
    SkipParametersTo(b, i + 2, m);
    SkipTo(b, m, n, 0x20, 0x2f);
  }

  /** A sequence starts at i exactly when its parts are there, and it ends behind its final byte. */
  lemma EscapeExactly(b: Text, i: nat)
    requires i < |b|
    ensures EscapeEnd(b, i).Some? <==> exists m, n :: IsEscape(b, i, m, n)
    ensures forall m, n :: IsEscape(b, i, m, n) ==> EscapeEnd(b, i) == Some(n + 1)
  {
    if EscapeEnd(b, i).Some? {
      var j := SkipParameters(b, i + 2);
      SkipParametersMeaning(b, i + 2);
      SkipMeaning(b, j, 0x20, 0x2f);
      assert IsEscape(b, i, j, Skip(b, j, 0x20, 0x2f));
    }
    forall m, n | IsEscape(b, i, m, n) ensures EscapeEnd(b, i) == Some(n + 1) { EscapeAt(b, i, m, n); }
  }

  lemma {:induction false} SkipInSuffix(b: Text, n: nat, i: nat, lo: Byte, hi: Byte)
    requires n + i <= |b|
    ensures Skip(b[n..], i, lo, hi) == Skip(b, n + i, lo, hi) - n
    decreases |b| - i
  {
    if n + i < |b| && lo <= b[n + i] <= hi { SkipInSuffix(b, n, i + 1, lo, hi); }
  }

  lemma {:induction false} SkipParametersInSuffix(b: Text, n: nat, i: nat)
    requires n + i <= |b|
    ensures SkipParameters(b[n..], i) == SkipParameters(b, n + i) - n
    decreases |b| - i
  {
    if n + i < |b| && SkipParameters(b, n + i) != n + i { SkipParametersInSuffix(b, n, i + 1); }
  }

  lemma EscapeInSuffix(b: Text, n: nat, i: nat)
    requires n + i < |b|
    ensures EscapeEnd(b, n + i) == match EscapeEnd(b[n..], i) case None => None case Some(end) => Some(n + end)
  {
    if n + i + 1 < |b| {
      SkipParametersInSuffix(b, n, i + 2);
      SkipInSuffix(b, n, SkipParameters(b[n..], i + 2), 0x20, 0x2f);
    }
  }

  lemma {:induction false} KeptInSuffix(b: Text, n: nat, i: nat)
    requires n + i <= |b|
    ensures |Kept(b[n..], i)| == |Kept(b, n + i)|
    ensures forall k :: 0 <= k < |Kept(b[n..], i)| ==> Kept(b[n..], i)[k] + n == Kept(b, n + i)[k]
    decreases |b| - i
  {
    hide EscapeEnd;
    if n + i < |b| {
      EscapeInSuffix(b, n, i);
      match EscapeEnd(b[n..], i)
      case Some(end) => KeptInSuffix(b, n, end);
      case None => KeptInSuffix(b, n, i + 1);
    }
  }

  lemma {:induction false} KeptUpTo(b: Text, i: nat, n: nat)
    requires i <= n < |b| && (forall k :: i <= k < n ==> EscapeEnd(b, k).None?) && EscapeEnd(b, n).Some?
    ensures var rest := Kept(b, EscapeEnd(b, n).value);
            |Kept(b, i)| == n - i + |rest| && Kept(b, i)[n - i..] == rest
            && forall k :: 0 <= k < n - i ==> Kept(b, i)[k] == i + k
    decreases n - i
  {
    hide EscapeEnd;
    if i < n { KeptUpTo(b, i + 1, n); }
  }

  /** Stripping takes out the first sequence as a whole, keeps what stands before it, and goes on
      behind it. */
  lemma StripAnsiFirst(b: Text, n: nat)
    requires n < |b| && (forall k :: 0 <= k < n ==> EscapeEnd(b, k).None?) && EscapeEnd(b, n).Some?
    ensures StripAnsi(b) == b[..n] + StripAnsi(b[EscapeEnd(b, n).value..])
  {
    hide EscapeEnd;
    var end := EscapeEnd(b, n).value;
    KeptUpTo(b, 0, n);
    KeptInSuffix(b, end, 0);
    KeptInside(b, 0);
    KeptInside(b[end..], 0);
    var rest := Kept(b[end..], 0);
    forall k | 0 <= k < |rest| ensures StripAnsi(b)[n + k] == StripAnsi(b[end..])[k] {
      assert Kept(b, 0)[n..][k] == Kept(b, end)[k];
    }
  }

  lemma {:induction false} SkipInPrefix(b: Text, n: nat, i: nat, lo: Byte, hi: Byte)
    requires i <= n <= |b|
    ensures var j := Skip(b[..n], i, lo, hi);
            j < n ==> Skip(b, i, lo, hi) == j
    decreases n - i
  {
    if i < n && lo <= b[i] <= hi { SkipInPrefix(b, n, i + 1, lo, hi); }
  }

  lemma {:induction false} SkipParametersInPrefix(b: Text, n: nat, i: nat)
    requires i <= n <= |b|
    ensures var j := SkipParameters(b[..n], i);
            j < n ==> SkipParameters(b, i) == j
    decreases n - i
  {
    if i < n && SkipParameters(b[..n], i) != i { SkipParametersInPrefix(b, n, i + 1); }
  }

  /** A complete escape sequence in a prefix is one in the whole. */
  lemma EscapeInPrefix(b: Text, n: nat, i: nat)
    requires i < n <= |b| && EscapeEnd(b[..n], i).Some?
    ensures EscapeEnd(b, i) == EscapeEnd(b[..n], i)
  {
    var j := SkipParameters(b[..n], i + 2);
    var k := Skip(b[..n], j, 0x20, 0x2f);
    assert j <= k < n;
    SkipParametersInPrefix(b, n, i + 2);
    SkipInPrefix(b, n, j, 0x20, 0x2f);
  }

  lemma NoEscapesInPrefix(b: Text, n: nat)
    requires n <= |b| && NoEscapes(b)
    ensures NoEscapes(b[..n])
  {
    forall i | 0 <= i < n ensures EscapeEnd(b[..n], i).None? {
      if EscapeEnd(b[..n], i).Some? { EscapeInPrefix(b, n, i); }
    }
  }

  /** The i-th kept byte stays at offset i exactly as long as no escape sequence starts before it. */
  lemma {:induction false} KeptShift(b: Text, i: nat, m: nat)
    requires i <= |b| && m < |Kept(b, i)|
    ensures Kept(b, i)[m] >= i + m
    ensures Kept(b, i)[m] == i + m <==> i + m < |b| && forall k :: i <= k <= i + m ==> EscapeEnd(b, k).None?
    decreases |b| - i
  {
    match EscapeEnd(b, i)
    case Some(end) =>
      KeptShift(b, end, m);
    case None =>
      if m > 0 { KeptShift(b, i + 1, m - 1); }
  }

  lemma {:induction false} KeptAll(b: Text, i: nat)
    requires i <= |b| && forall k :: i <= k < |b| ==> EscapeEnd(b, k).None?
    ensures |Kept(b, i)| == |b| - i
    decreases |b| - i
  {
    if i < |b| { KeptAll(b, i + 1); }
  }

  lemma StripAnsiNothing(b: Text)
    requires NoEscapes(b)
    ensures StripAnsi(b) == b
  {
    KeptAll(b, 0);
    KeptInside(b, 0);
    forall m | 0 <= m < |b| ensures StripAnsi(b)[m] == b[m] { KeptShift(b, 0, m); }
  }

  lemma {:induction false} KeptFew(b: Text, i: nat)
    requires i <= |b|
    ensures |Kept(b, i)| <= |b| - i
    ensures |Kept(b, i)| == |b| - i <==> forall k :: i <= k < |b| ==> EscapeEnd(b, k).None?
    decreases |b| - i
  {
    if i < |b| {
      match EscapeEnd(b, i)
      case Some(end) => KeptFew(b, end);
      case None => KeptFew(b, i + 1);
    }
  }

  lemma {:induction false} KeptMany(b: Text, i: nat, m: nat)
    requires i + m < |b| && forall k :: i <= k <= i + m ==> EscapeEnd(b, k).None?
    ensures m < |Kept(b, i)|
    decreases m
  {
    if m > 0 { KeptMany(b, i + 1, m - 1); }
  }

  // ----- what the cut returns

  /** Where the byte at offset `clean` of the text without escape sequences really stands. */
  function RawOffset(b: Text, clean: nat): (r: int)
    requires clean <= |Kept(b, 0)|
  {
    if clean == |Kept(b, 0)| then |b| else Kept(b, 0)[clean]
  }

  /** An offset is the same with and without escape sequences exactly when none starts up to it. */
  lemma RawOffsetExactly(b: Text, clean: nat)
    requires clean <= |Kept(b, 0)|
    ensures clean <= RawOffset(b, clean) <= |b|
    ensures clean == RawOffset(b, clean) <==> forall k :: 0 <= k <= clean && k < |b| ==> EscapeEnd(b, k).None?
  {
    KeptFew(b, 0);
    if clean < |Kept(b, 0)| {
      KeptShift(b, 0, clean);
      KeptInside(b, 0);
    } else if clean < |b| && forall k :: 0 <= k <= clean ==> EscapeEnd(b, k).None? {
      KeptMany(b, 0, clean);
    }
  }

  /** Where the echo ends in a text that starts with it: at its line's end, or behind it. */
  function EchoEnd(output: Text, echo: Text): (at: nat)
  {
    var eol := IndexFrom(output, [NL], 0);
    if eol.Some? then eol.value else |echo|
  }

  lemma EchoStaysFirst(buff: Text, echo: Text)
    requires CR !in echo && echo <= buff
    ensures IndexFrom(StripCR(buff), echo, 0) == Some(0) && |echo| <= |StripCR(buff)|
  {
    var rest := buff[|echo|..];
    assert buff == echo + rest;
    StripCRAppend(echo, rest);
    StripCRFree(echo);
    assert OccursAt(StripCR(buff), echo, 0);
  }

  /** The cut of what the reader hands over: from the end of the echo to the prompt's offset in the
      text without escape sequences, unless that comes before the end of the echo. */
  lemma CutHanded(buff: Text, echo: Text, prompts: seq<Prompt>, at: nat)
    requires CR !in echo && echo <= buff && InBounds(prompts)
    requires FindPrompt(prompts, buff).Some? && FindPrompt(prompts, buff).value.lo == at
    ensures at <= |Kept(StripCR(buff), 0)| <= |StripCR(buff)|
    ensures Cut(buff, echo, prompts)
            == var from := EchoEnd(StripCR(buff), echo);
               if from <= at then Ok(StripCR(buff)[from..at]) else Err(SlicePanic)
  {
    var output := StripCR(buff);
    EchoStaysFirst(buff, echo);
    PromptIgnoresCR(prompts, buff);
    FirstPromptInBounds(prompts, 0, Normalize(buff));
    KeptFew(output, 0);
    hide StripCR, Kept, FirstPrompt;
  }

  /** The body ends where the prompt stands if and only if no escape sequence starts up to the offset
      used; otherwise it ends too early. */
  lemma CutEndsAtPromptExactly(buff: Text, echo: Text, prompts: seq<Prompt>, at: nat)
    requires CR !in echo && echo <= buff && InBounds(prompts)
    requires FindPrompt(prompts, buff).Some? && FindPrompt(prompts, buff).value.lo == at
    requires EchoEnd(StripCR(buff), echo) <= at
    ensures at <= |Kept(StripCR(buff), 0)| && at <= RawOffset(StripCR(buff), at) <= |StripCR(buff)|
    ensures Cut(buff, echo, prompts) == Ok(StripCR(buff)[EchoEnd(StripCR(buff), echo)..RawOffset(StripCR(buff), at)])
            <==> forall k :: 0 <= k <= at && k < |StripCR(buff)| ==> EscapeEnd(StripCR(buff), k).None?
  {
    var output := StripCR(buff);
    CutHanded(buff, echo, prompts, at);
    RawOffsetExactly(output, at);
    var from, raw := EchoEnd(output, echo), RawOffset(output, at);
    hide Cut, StripCR, Kept, EchoEnd, FindPrompt, RawOffset;
    assert |output[from..at]| == at - from && |output[from..raw]| == raw - from;
  }

  // ----- prefixes of the stream

  /** A first occurrence that a prefix shows is the first occurrence in the whole. */
  lemma FirstInPrefix(s: Text, sub: Text, n: nat)
    requires n <= |s|
    ensures var i := IndexFrom(s[..n], sub, 0);
            i.Some? ==> IndexFrom(s, sub, 0) == i
    ensures var i := IndexFrom(s, sub, 0);
            i.Some? && i.value + |sub| <= n ==> IndexFrom(s[..n], sub, 0) == i
  {
    IndexInPrefix(s, sub, n, 0);
  }

  lemma {:induction false} IndexInPrefix(s: Text, sub: Text, n: nat, from: nat)
    requires from <= n <= |s|
    ensures var i := IndexFrom(s[..n], sub, from);
            i.Some? ==> IndexFrom(s, sub, from) == i
    ensures var i := IndexFrom(s, sub, from);
            i.Some? && i.value + |sub| <= n ==> IndexFrom(s[..n], sub, from) == i
    decreases n - from
  {
    OccursInPrefix(s, sub, n, from);
    hide OccursAt;
    if from < n { IndexInPrefix(s, sub, n, from + 1); }
  }

  lemma OccursInPrefix(output: Text, prompt: Text, n: nat, i: int)
    requires n <= |output|
    ensures OccursAt(output[..n], prompt, i) <==> OccursAt(output, prompt, i) && i + |prompt| <= n
  {
    if 0 <= i <= n - |prompt| { assert output[..n][i..i + |prompt|] == output[i..i + |prompt|]; }
  }

  /** Stripping a prefix gives a prefix of the stripped text. */
  lemma StripCRPrefix(b: Text, n: nat)
    requires n <= |b|
    ensures |StripCR(b[..n])| <= |StripCR(b)|
    ensures StripCR(b[..n]) == StripCR(b)[..|StripCR(b[..n])|]
  {
    assert b == b[..n] + b[n..];
    StripCRAppend(b[..n], b[n..]);
  }

  // ----- positions in a stream

  /** What the reader holds after the first q bytes of the stream. */
  function Held(stream: Text, echo: Text, q: nat): (r: Buffer)
    requires q <= |stream|
  {
    match IndexFrom(stream[..q], echo, 0)
    case Some(i) => Buffer(stream[..q][i..], true)
    case None => Buffer(stream[..q], false)
  }

  lemma HeldNext(stream: Text, echo: Text, q: nat, chunk: Text)
    requires q + |chunk| <= |stream| && stream[q..q + |chunk|] == chunk
    ensures Feed(Held(stream, echo, q), chunk, echo) == Held(stream, echo, q + |chunk|)
  {
    var next := q + |chunk|;
    assert stream[..next] == stream[..q] + chunk;
    assert stream[..next][..q] == stream[..q];
    FirstInPrefix(stream[..next], echo, q);
    var i := IndexFrom(stream[..q], echo, 0);
    if i.Some? { assert stream[..q][i.value..] + chunk == stream[..next][i.value..]; }
  }

  /** Once the echo is found, the reader holds the stream from there on. */
  lemma HeldFull(stream: Text, echo: Text, e: nat, q: nat)
    requires q <= |stream| && IndexFrom(stream, echo, 0) == Some(e)
    ensures Held(stream, echo, q).found <==> e + |echo| <= q
    ensures Held(stream, echo, q).found ==> Held(stream, echo, q).full == stream[e..q] && echo <= stream[e..q]
  {
    FirstInPrefix(stream, echo, q);
    if e + |echo| <= q {
      assert stream[..q][e..] == stream[e..q];
      assert stream[e..q][..|echo|] == stream[e..e + |echo|];
    }
  }

  /** After q bytes the reader sees a prompt, at offset `at` of what it holds without carriage
      returns and escape sequences. */
  ghost predicate ShowsAt(stream: Text, echo: Text, prompts: seq<Prompt>, q: nat, at: int)
  {
    q <= |stream| && Held(stream, echo, q).found
    && var prompt := FindPrompt(prompts, Held(stream, echo, q).full);
       prompt.Some? && prompt.value.lo == at
  }

  ghost predicate Shows(stream: Text, echo: Text, prompts: seq<Prompt>, q: nat)
  {
    q <= |stream| && Held(stream, echo, q).found && FindPrompt(prompts, Held(stream, echo, q).full).Some?
  }

  /** A reader can get to position q: it can skip every position before that shows a prompt. */
  ghost predicate Reaches(stream: Text, echo: Text, prompts: seq<Prompt>, q: nat)
    decreases q
  {
    q == 0
    || exists b: nat :: b < q && q - b <= READ_LIMIT && (b == 0 || !Shows(stream, echo, prompts, b))
                        && Reaches(stream, echo, prompts, b)
  }

  lemma FlattenStep(chunks: seq<Text>, k: nat)
    requires k < |chunks|
    ensures var q, stream := |Flatten(chunks[..k])|, Flatten(chunks);
            q + |chunks[k]| <= |stream| && stream[q..q + |chunks[k]|] == chunks[k]
            && |Flatten(chunks[..k + 1])| == q + |chunks[k]|
  {
    assert chunks[..k + 1][..k] == chunks[..k];
    FlattenAppend(chunks[..k + 1], chunks[k + 1..]);
    assert chunks[..k + 1] + chunks[k + 1..] == chunks;
  }

  lemma Advance(chunks: seq<Text>, k: nat, stream: Text, echo: Text, q: nat)
    requires k < |chunks| && q == |Flatten(chunks[..k])| && Flatten(chunks) == stream
    ensures q + |chunks[k]| <= |stream| && q + |chunks[k]| == |Flatten(chunks[..k + 1])|
    ensures Feed(Held(stream, echo, q), chunks[k], echo) == Held(stream, echo, q + |chunks[k]|)
  {
    FlattenStep(chunks, k);
    HeldNext(stream, echo, q, chunks[k]);
  }

  lemma StartAsHeld(stream: Text, chunks: seq<Text>, echo: Text, prompts: seq<Prompt>)
    ensures chunks != [] ==> ReadFrom(chunks, 0, Buffer([], false), echo, prompts)
                             == ReadFrom(chunks, 0, Held(stream, echo, 0), echo, prompts)
  {
    assert stream[..0] == [];
    if chunks != [] && echo == [] {
      assert OccursAt([] + chunks[0], echo, 0);
      assert ([] + chunks[0])[0..] == [] + chunks[0];
    }
  }

  /** One read, from a position that the reader goes on from. */
  lemma ReachesNext(stream: Text, echo: Text, prompts: seq<Prompt>, q: nat, next: nat)
    requires q <= next && next - q <= READ_LIMIT && Reaches(stream, echo, prompts, q)
    requires q == 0 || !Shows(stream, echo, prompts, q)
    ensures Reaches(stream, echo, prompts, next)
  {
  }

  /** One turn of the reading loop. */
  lemma ReadStep(chunks: seq<Text>, k: nat, stream: Text, echo: Text, prompts: seq<Prompt>, q: nat)
    requires k < |chunks| && q == |Flatten(chunks[..k])| && Flatten(chunks) == stream
    ensures q + |chunks[k]| <= |stream| && q + |chunks[k]| == |Flatten(chunks[..k + 1])|
    ensures ReadFrom(chunks, k, Held(stream, echo, q), echo, prompts)
            == var next := q + |chunks[k]|;
               if Shows(stream, echo, prompts, next) then Some(Held(stream, echo, next).full)
               else ReadFrom(chunks, k + 1, Held(stream, echo, next), echo, prompts)
  {
    Advance(chunks, k, stream, echo, q);
    hide Held, Feed, FindPrompt, Flatten;
  }

  lemma NothingLeft(chunks: seq<Text>, buffer: Buffer, echo: Text, prompts: seq<Prompt>)
    ensures ReadFrom(chunks, |chunks|, buffer, echo, prompts) == None
  {
  }

  lemma ReadFits(chunks: seq<Text>, k: nat)
    requires Reads(chunks) && k < |chunks|
    ensures |chunks[k]| <= READ_LIMIT
  {
  }

  lemma AtBoundary(chunks: seq<Text>, k: nat, stream: Text, q: nat)
    requires k <= |chunks| && q == |Flatten(chunks[..k])| && Flatten(chunks) == stream
    ensures q <= |stream| && (k == |chunks| ==> q == |stream|) && (k == 0 ==> q == 0)
  {
    assert chunks[..|chunks|] == chunks && chunks[..0] == [];
    FlattenAppend(chunks[..k], chunks[k..]);
    assert chunks[..k] + chunks[k..] == chunks;
  }

  /** However reads split the stream, the reader stops at a position it can get to and that shows a
      prompt, or runs out of input when the end shows none. */
  lemma {:induction false} ReadStops(chunks: seq<Text>, k: nat, stream: Text, echo: Text, prompts: seq<Prompt>, q: nat)
    returns (at: nat)
    requires Reads(chunks) && Flatten(chunks) == stream
    requires k <= |chunks| && q == |Flatten(chunks[..k])| && Reaches(stream, echo, prompts, q)
    requires k == 0 || !Shows(stream, echo, prompts, q)
    ensures q <= |stream| && at <= |stream|
    ensures var r := ReadFrom(chunks, k, Held(stream, echo, q), echo, prompts);
            (r.Some? ==> Reaches(stream, echo, prompts, at) && Shows(stream, echo, prompts, at)
                         && r.value == Held(stream, echo, at).full)
            && (r.None? ==> k == |chunks| || !Shows(stream, echo, prompts, |stream|))
    decreases |chunks| - k
  {
    hide Held, Shows, Reaches, Flatten, Reads, ReadFrom;
    at := 0;
    AtBoundary(chunks, k, stream, q);
    if k == |chunks| {
      NothingLeft(chunks, Held(stream, echo, q), echo, prompts);
    } else {
      ReadStep(chunks, k, stream, echo, prompts, q);
      var next := q + |chunks[k]|;
      assert |chunks[k]| <= READ_LIMIT by { ReadFits(chunks, k); }
      ReachesNext(stream, echo, prompts, q, next);
      if Shows(stream, echo, prompts, next) {
        at := next;
      } else {
        at := ReadStops(chunks, k + 1, stream, echo, prompts, next);
        AtBoundary(chunks, k + 1, stream, next);
      }
    }
  }

  /** The boundaries inside these chunks show no prompt. */
  ghost predicate Passes(stream: Text, echo: Text, prompts: seq<Prompt>, chunks: seq<Text>)
  {
    forall k :: 0 < k < |chunks| ==> !Shows(stream, echo, prompts, |Flatten(chunks[..k])|)
  }

  lemma PassesMore(stream: Text, echo: Text, prompts: seq<Prompt>, chunks: seq<Text>, chunk: Text)
    requires Passes(stream, echo, prompts, chunks)
    requires chunks == [] || !Shows(stream, echo, prompts, |Flatten(chunks)|)
    ensures Passes(stream, echo, prompts, chunks + [chunk])
  {
    hide Shows, Flatten;
    forall k | 0 < k <= |chunks| ensures !Shows(stream, echo, prompts, |Flatten((chunks + [chunk])[..k])|) {
      assert (chunks + [chunk])[..k] == chunks[..k];
      if k == |chunks| { assert chunks[..k] == chunks; }
    }
  }

  /** Reads that take the reader to a position it can get to. */
  lemma {:induction false} ReadsTo(stream: Text, echo: Text, prompts: seq<Prompt>, q: nat) returns (chunks: seq<Text>)
    requires q <= |stream| && Reaches(stream, echo, prompts, q)
    ensures Reads(chunks) && Flatten(chunks) == stream[..q] && Passes(stream, echo, prompts, chunks)
    ensures q == 0 <==> chunks == []
    decreases q
  {
    if q == 0 {
      chunks := [];
    } else {
      var b: nat :| b < q && q - b <= READ_LIMIT && (b == 0 || !Shows(stream, echo, prompts, b))
                    && Reaches(stream, echo, prompts, b);
      hide Shows, Reaches, Flatten, Passes;
      var before := ReadsTo(stream, echo, prompts, b);
      chunks := before + [stream[b..q]];
      FlattenAppend(before, [stream[b..q]]);
      FlattenOne(stream[b..q]);
      assert stream[..b] + stream[b..q] == stream[..q];
      PassesMore(stream, echo, prompts, before, stream[b..q]);
    }
  }

  /** Reads for the rest of a stream. */
  lemma {:induction false} SomeReads(text: Text) returns (chunks: seq<Text>)
    ensures Reads(chunks) && Flatten(chunks) == text
    decreases |text|
  {
    if |text| <= READ_LIMIT {
      chunks := [text];
      FlattenOne(text);
    } else {
      var rest := SomeReads(text[READ_LIMIT..]);
      chunks := [text[..READ_LIMIT]] + rest;
      FlattenAppend([text[..READ_LIMIT]], rest);
      FlattenOne(text[..READ_LIMIT]);
    }
  }

  lemma {:induction false} ReadAlong(chunks: seq<Text>, k: nat, n: nat, stream: Text, echo: Text, prompts: seq<Prompt>, q: nat)
    requires k < n <= |chunks| && Flatten(chunks) == stream && q == |Flatten(chunks[..n])|
    requires forall i :: k < i < n ==> !Shows(stream, echo, prompts, |Flatten(chunks[..i])|)
    requires Shows(stream, echo, prompts, q)
    ensures |Flatten(chunks[..k])| <= |stream| && q <= |stream|
    ensures ReadFrom(chunks, k, Held(stream, echo, |Flatten(chunks[..k])|), echo, prompts)
            == Some(Held(stream, echo, q).full)
    decreases n - k
  {
    hide Held, Shows, ReadFrom, Flatten;
    ReadStep(chunks, k, stream, echo, prompts, |Flatten(chunks[..k])|);
    if k + 1 < n { ReadAlong(chunks, k + 1, n, stream, echo, prompts, q); }
  }

  /** Wherever a reader can get to and sees a prompt, some reads of the stream make it stop there. */
  lemma StopsThere(stream: Text, echo: Text, prompts: seq<Prompt>, q: nat) returns (chunks: seq<Text>)
    requires Reaches(stream, echo, prompts, q) && Shows(stream, echo, prompts, q)
    ensures Reads(chunks) && Flatten(chunks) == stream
    ensures ReadFrom(chunks, 0, Buffer([], false), echo, prompts) == Some(Held(stream, echo, q).full)
  {
    assert q <= |stream|;
    hide Held, Shows, Reaches, ReadFrom, Flatten, Reads;
    var to := ReadsTo(stream, echo, prompts, q);
    if q == 0 {
      to := [[]];
      EmptyRead(stream);
    }
    var more := SomeReads(stream[q..]);
    chunks := to + more;
    JoinReads(stream, q, to, more);
    StartAsHeld(stream, chunks, echo, prompts);
    AtBoundary(chunks, 0, stream, |Flatten(chunks[..0])|);
    forall k | 0 < k < |to| ensures !Shows(stream, echo, prompts, |Flatten(chunks[..k])|) {
      assert chunks[..k] == to[..k];
    }
    ReadAlong(chunks, 0, |to|, stream, echo, prompts, q);
  }

  lemma EmptyRead(stream: Text)
    ensures Reads([[]]) && Flatten([[]]) == stream[..0]
  {
    FlattenOne<Byte>([]);
  }

  lemma JoinReads(stream: Text, q: nat, to: seq<Text>, more: seq<Text>)
    requires q <= |stream| && Reads(to) && Reads(more) && Flatten(to) == stream[..q] && Flatten(more) == stream[q..]
    ensures Reads(to + more) && Flatten(to + more) == stream && (to + more)[..|to|] == to
  {
    FlattenAppend(to, more);
    assert stream[..q] + stream[q..] == stream;
  }

  /** What all reads of a stream lead to: the reader stops exactly at the positions it can get to and
      that show a prompt. */
  lemma ReadResult(chunks: seq<Text>, stream: Text, echo: Text, prompts: seq<Prompt>) returns (q: nat)
    requires Reads(chunks) && Flatten(chunks) == stream
    ensures var r := ReadFrom(chunks, 0, Buffer([], false), echo, prompts);
            (r.Some? ==> Reaches(stream, echo, prompts, q) && Shows(stream, echo, prompts, q)
                         && r.value == Held(stream, echo, q).full)
            && (r.None? ==> stream == [] || !Shows(stream, echo, prompts, |stream|))
  {
    assert chunks[..0] == [];
    q := ReadStops(chunks, 0, stream, echo, prompts, 0);
    StartAsHeld(stream, chunks, echo, prompts);
  }

  // ----- exactly when the slice bounds are out of order

  /** Wherever a reader can get to and sees a prompt, its offset is not before the end of the echo. */
  ghost predicate BoundsInOrder(stream: Text, echo: Text, prompts: seq<Prompt>, e: nat)
    requires e <= |stream|
  {
    forall q: nat, at :: e <= q && ShowsAt(stream, echo, prompts, q, at) && Reaches(stream, echo, prompts, q) ==>
      EchoEnd(StripCR(stream[e..q]), echo) <= at
  }

  lemma CutThere(stream: Text, echo: Text, prompts: seq<Prompt>, e: nat, q: nat, at: nat)
    requires CR !in echo && InBounds(prompts) && IndexFrom(stream, echo, 0) == Some(e)
    requires ShowsAt(stream, echo, prompts, q, at)
    ensures e <= q && at <= |StripCR(stream[e..q])|
    ensures Cut(Held(stream, echo, q).full, echo, prompts)
            == var from := EchoEnd(StripCR(stream[e..q]), echo);
               if from <= at then Ok(StripCR(stream[e..q])[from..at]) else Err(SlicePanic)
  {
    HeldFull(stream, echo, e, q);
    CutHanded(stream[e..q], echo, prompts, at);
  }

  lemma ShownOffset(stream: Text, echo: Text, prompts: seq<Prompt>, q: nat) returns (at: nat)
    requires InBounds(prompts) && Shows(stream, echo, prompts, q)
    ensures ShowsAt(stream, echo, prompts, q, at)
  {
    FirstPromptInBounds(prompts, 0, Normalize(Held(stream, echo, q).full));
    at := FindPrompt(prompts, Held(stream, echo, q).full).value.lo;
  }

  /** No split of the stream into reads makes the slice panic if and only if no beginning of the
      stream that a reader can get to shows a prompt before the end of the echo. */
  lemma SlicePanicsExactly(stream: Text, echo: Text, prompts: seq<Prompt>, e: nat)
    requires CR !in echo && InBounds(prompts) && IndexFrom(stream, echo, 0) == Some(e)
    ensures (forall chunks :: Reads(chunks) && Flatten(chunks) == stream ==>
               Command(chunks, echo, prompts) != Err(SlicePanic))
            <==> BoundsInOrder(stream, echo, prompts, e)
  {
    hide StripCR, Cut, EchoEnd, FindPrompt, Held, Reaches;
    if BoundsInOrder(stream, echo, prompts, e) {
      forall chunks | Reads(chunks) && Flatten(chunks) == stream
        ensures Command(chunks, echo, prompts) != Err(SlicePanic)
      {
        var q := ReadResult(chunks, stream, echo, prompts);
        hide ReadFrom;
        if ReadFrom(chunks, 0, Buffer([], false), echo, prompts).Some? {
          var at := ShownOffset(stream, echo, prompts, q);
          CutThere(stream, echo, prompts, e, q, at);
        }
      }
    } else {
      var q: nat, at :| e <= q && ShowsAt(stream, echo, prompts, q, at) && Reaches(stream, echo, prompts, q)
                        && EchoEnd(StripCR(stream[e..q]), echo) > at;
      var shown := ShownOffset(stream, echo, prompts, q);
      CutThere(stream, echo, prompts, e, q, shown);
      var chunks := StopsThere(stream, echo, prompts, q);
      hide ReadFrom;
      assert Command(chunks, echo, prompts) == Err(SlicePanic);
    }
  }

  /** The two causes of a prompt before the end of the echo: the prompt stands there, or an escape
      sequence on the echo line moves the offset forward. Without an escape sequence on that line the
      first is the only one. */
  lemma PanicCauses(output: Text, echo: Text, at: nat)
    requires at <= |Kept(output, 0)| && |echo| <= |output|
    ensures EchoEnd(output, echo) <= |output|
    ensures var end := EchoEnd(output, echo);
            (RawOffset(output, at) < end ==> at < end)
            && (at < end ==> RawOffset(output, at) < end || exists k :: 0 <= k < end && EscapeEnd(output, k).Some?)
            && ((forall k :: 0 <= k < end ==> EscapeEnd(output, k).None?) ==>
                  (at < end <==> RawOffset(output, at) < end))
  {
    RawOffsetExactly(output, at);
    hide Kept, EscapeEnd, RawOffset;
  }

  // ----- the stream of one command

  /** What the finder says on the first n bytes of the CR-free output. */
  function PromptIn(prompts: seq<Prompt>, output: Text, n: nat): (r: Option<Span>)
    requires n <= |output|
  {
    FirstPrompt(prompts, 0, output[..n])
  }

  /** A complete stream: the echo is first found at e; after removing carriage returns, the output
      from there on has no escape sequences, its first line ends at eol, and it shows a prompt at p,
      after that line. */
  ghost predicate IsStream(stream: Text, echo: Text, prompts: seq<Prompt>, e: nat, eol: nat, p: nat)
  {
    CR !in echo && InBounds(prompts)
    && IndexFrom(stream, echo, 0) == Some(e)
    && var output := StripCR(stream[e..]);
       NoEscapes(output)
       && IndexFrom(output, [NL], 0) == Some(eol) && eol < p
       && PromptIn(prompts, output, |output|).Some? && PromptIn(prompts, output, |output|).value.lo == p
  }

  /** No beginning of the stream that a reader can get to shows a prompt anywhere but at p. */
  ghost predicate Stable(stream: Text, echo: Text, prompts: seq<Prompt>, p: nat)
  {
    forall q: nat, at :: ShowsAt(stream, echo, prompts, q, at) && Reaches(stream, echo, prompts, q) ==> at == p
  }

  /** The position in the CR-free output that q bytes of the stream reach. */
  function Reach(stream: Text, e: nat, q: nat): (n: nat)
    requires e <= q <= |stream|
    ensures n <= |StripCR(stream[e..])|
  {
    assert stream[e..][..q - e] == stream[e..q];
    StripCRPrefix(stream[e..], q - e);
    |StripCR(stream[e..q])|
  }

  lemma HeldOutput(stream: Text, echo: Text, prompts: seq<Prompt>, e: nat, eol: nat, p: nat, q: nat)
    requires IsStream(stream, echo, prompts, e, eol, p) && q <= |stream| && Held(stream, echo, q).found
    ensures e + |echo| <= q && Held(stream, echo, q).full == stream[e..q] && echo <= stream[e..q]
    ensures StripCR(stream[e..q]) == StripCR(stream[e..])[..Reach(stream, e, q)]
    ensures FindPrompt(prompts, stream[e..q]) == PromptIn(prompts, StripCR(stream[e..]), Reach(stream, e, q))
  {
    hide Held, IndexFrom, FirstPrompt, Kept, StripCR, NoEscapes;
    HeldFull(stream, echo, e, q);
    assert stream[e..][..q - e] == stream[e..q];
    StripCRPrefix(stream[e..], q - e);
    var output := StripCR(stream[e..]);
    NoEscapesInPrefix(output, Reach(stream, e, q));
    StripAnsiNothing(output[..Reach(stream, e, q)]);
  }

  lemma PromptInside(stream: Text, echo: Text, prompts: seq<Prompt>, e: nat, eol: nat, p: nat)
    requires IsStream(stream, echo, prompts, e, eol, p)
    ensures p <= |StripCR(stream[e..])| && |stream| > 0 && StripCR(stream[e..])[eol] == NL
  {
    var output := StripCR(stream[e..]);
    assert eol + 1 <= |output| && output[eol..eol + 1] == [NL];
    hide NoEscapes, StripCR, IndexFrom, Fits;
    assert output[eol..eol + 1][0] == output[eol];
    FirstPromptInBounds(prompts, 0, output[..|output|]);
  }

  /** The end of the stream shows its prompt. */
  lemma EndShows(stream: Text, echo: Text, prompts: seq<Prompt>, e: nat, eol: nat, p: nat)
    requires IsStream(stream, echo, prompts, e, eol, p)
    ensures ShowsAt(stream, echo, prompts, |stream|, p)
  {
    HeldFull(stream, echo, e, |stream|);
    HeldOutput(stream, echo, prompts, e, eol, p, |stream|);
    assert stream[e..|stream|] == stream[e..];
  }

  lemma {:induction false} NewlineFound(t: Text, k: nat, from: nat)
    requires from <= k < |t| && t[k] == NL
    ensures IndexFrom(t, [NL], from).Some? && IndexFrom(t, [NL], from).value <= k
    decreases k - from
  {
    assert t[k..k + 1] == [NL];
    if from < k { NewlineFound(t, k, from + 1); }
  }

  /** The end of the echo in a beginning of the output. */
  lemma EchoEndInPrefix(output: Text, echo: Text, n: nat, eol: nat)
    requires n <= |output| && IndexFrom(output, [NL], 0) == Some(eol)
    ensures EchoEnd(output[..n], echo) == if eol < n then eol else |echo|
    ensures n <= eol ==> NL !in output[..n]
  {
    FirstInPrefix(output, [NL], n);
    if k: nat :| k < n && n <= eol && output[..n][k] == NL { NewlineFound(output[..n], k, 0); }
  }

  /** Stopping there gives the body if and only if the prompt seen is the stream's. */
  lemma CutGivesBody(stream: Text, echo: Text, prompts: seq<Prompt>, e: nat, eol: nat, p: nat, q: nat, at: nat)
    requires IsStream(stream, echo, prompts, e, eol, p) && ShowsAt(stream, echo, prompts, q, at)
    ensures p <= |StripCR(stream[e..])|
    ensures Cut(Held(stream, echo, q).full, echo, prompts) == Ok(StripCR(stream[e..])[eol..p]) <==> at == p
  {
    PromptInside(stream, echo, prompts, e, eol, p);
    HeldOutput(stream, echo, prompts, e, eol, p, q);
    CutThere(stream, echo, prompts, e, q, at);
    var output, n := StripCR(stream[e..]), Reach(stream, e, q);
    EchoEndInPrefix(output, echo, n, eol);
    hide Cut, StripCR, EchoEnd, Held, FindPrompt, IsStream, IndexFrom;
    SamePiece(output, n, if eol < n then eol else |echo|, at, eol, p);
  }

  lemma SamePiece(output: Text, n: nat, from: nat, at: nat, eol: nat, p: nat)
    requires at <= n <= |output| && eol < p <= |output| && output[eol] == NL
    requires eol < n ==> from == eol
    requires n <= eol ==> NL !in output[..n]
    ensures from <= at && output[..n][from..at] == output[eol..p] <==> at == p
  {
    if n <= eol {
      assert NL in output[eol..p] by { assert output[eol..p][0] == NL; }
      if from <= at {
        forall k | 0 <= k < at - from ensures output[..n][from..at][k] != NL {
          assert output[..n][from..at][k] == output[..n][from + k];
        }
      }
    } else if from <= at {
      assert |output[..n][from..at]| == at - from;
    }
  }

  /** However reads split a stable stream, the command's result is the CR-free text from the end of
      the echo line up to the prompt. */
  lemma ChunkingIrrelevant(chunks: seq<Text>, stream: Text, echo: Text, prompts: seq<Prompt>, e: nat, eol: nat, p: nat)
    requires IsStream(stream, echo, prompts, e, eol, p) && Stable(stream, echo, prompts, p)
    requires Reads(chunks) && Flatten(chunks) == stream
    ensures p <= |StripCR(stream[e..])|
    ensures Command(chunks, echo, prompts) == Ok(StripCR(stream[e..])[eol..p])
  {
    PromptInside(stream, echo, prompts, e, eol, p);
    EndShows(stream, echo, prompts, e, eol, p);
    var q := ReadResult(chunks, stream, echo, prompts);
    hide StripCR, Cut, FindPrompt, Held, Reaches, ReadFrom;
    assert InBounds(prompts);
    hide IsStream, InBounds;
    var at := ShownOffset(stream, echo, prompts, q);
    CutGivesBody(stream, echo, prompts, e, eol, p, q, at);
  }

  /** If a position that a reader can get to shows a prompt anywhere else, some reads of the stream
      give something else. */
  lemma EarlyPromptMisleads(stream: Text, echo: Text, prompts: seq<Prompt>, e: nat, eol: nat, p: nat, q: nat, at: int)
    returns (chunks: seq<Text>)
    requires IsStream(stream, echo, prompts, e, eol, p)
    requires ShowsAt(stream, echo, prompts, q, at) && Reaches(stream, echo, prompts, q) && at != p
    ensures Reads(chunks) && Flatten(chunks) == stream && p <= |StripCR(stream[e..])|
    ensures Command(chunks, echo, prompts) != Ok(StripCR(stream[e..])[eol..p])
  {
    var shown := ShownOffset(stream, echo, prompts, q);
    CutGivesBody(stream, echo, prompts, e, eol, p, q, shown);
    chunks := StopsThere(stream, echo, prompts, q);
    hide StripCR, Cut, FindPrompt, Held, Reaches, ReadFrom;
  }

  /** Whatever the prompt patterns are: all reads of the stream give the text up to its prompt if and
      only if no beginning that a reader can get to shows a prompt anywhere else. */
  lemma ChunkingExactly(stream: Text, echo: Text, prompts: seq<Prompt>, e: nat, eol: nat, p: nat)
    requires IsStream(stream, echo, prompts, e, eol, p)
    ensures p <= |StripCR(stream[e..])|
    ensures (forall chunks :: Reads(chunks) && Flatten(chunks) == stream ==>
               Command(chunks, echo, prompts) == Ok(StripCR(stream[e..])[eol..p]))
            <==> Stable(stream, echo, prompts, p)
  {
    PromptInside(stream, echo, prompts, e, eol, p);
    hide IsStream, StripCR, Command, Reaches, ShowsAt;
    if Stable(stream, echo, prompts, p) {
      forall chunks | Reads(chunks) && Flatten(chunks) == stream
        ensures Command(chunks, echo, prompts) == Ok(StripCR(stream[e..])[eol..p])
      {
        ChunkingIrrelevant(chunks, stream, echo, prompts, e, eol, p);
      }
    } else {
      var q: nat, at :| ShowsAt(stream, echo, prompts, q, at) && Reaches(stream, echo, prompts, q) && at != p;
      var chunks := EarlyPromptMisleads(stream, echo, prompts, e, eol, p, q, at);
    }
  }

  // ----- positions that a reader cannot miss

  /** Reading byte by byte gets to the first position that shows a prompt. */
  lemma {:induction false} ByteByByte(stream: Text, echo: Text, prompts: seq<Prompt>, q: nat)
    requires forall b :: 0 < b < q ==> !Shows(stream, echo, prompts, b)
    ensures Reaches(stream, echo, prompts, q)
  {
    if q > 0 { ByteByByte(stream, echo, prompts, q - 1); }
  }

  lemma {:induction false} FirstShown(stream: Text, echo: Text, prompts: seq<Prompt>, q: nat, from: nat)
    returns (first: nat)
    requires Shows(stream, echo, prompts, q) && from <= q
    requires forall b :: 0 < b < from ==> !Shows(stream, echo, prompts, b)
    ensures first <= q && Shows(stream, echo, prompts, first) && Reaches(stream, echo, prompts, first)
    decreases q - from
  {
    hide Shows, Reaches;
    if Shows(stream, echo, prompts, from) {
      first := from;
      ByteByByte(stream, echo, prompts, first);
    } else {
      first := FirstShown(stream, echo, prompts, q, from + 1);
    }
  }

  /** A position of the stream for every length of CR-free output. */
  lemma {:induction false} ReachExactly(stream: Text, e: nat, n: nat, q: nat) returns (at: nat)
    requires e <= q <= |stream| && n <= Reach(stream, e, q)
    ensures e <= at <= q && Reach(stream, e, at) == n
    decreases q
  {
    if Reach(stream, e, q) == n {
      at := q;
    } else {
      assert stream[e..q] != [];
      assert stream[e..q][..q - 1 - e] == stream[e..q - 1];
      at := ReachExactly(stream, e, n, q - 1);
    }
  }

  lemma ReachGrows(stream: Text, e: nat, a: nat, b: nat)
    requires e <= a <= b <= |stream|
    ensures Reach(stream, e, a) <= Reach(stream, e, b)
  {
    assert stream[e..b][..a - e] == stream[e..a];
    StripCRPrefix(stream[e..b], a - e);
  }

  lemma ReachEcho(stream: Text, echo: Text, e: nat)
    requires IndexFrom(stream, echo, 0) == Some(e) && CR !in echo
    ensures e + |echo| <= |stream| && Reach(stream, e, e + |echo|) == |echo|
    ensures Reach(stream, e, |stream|) == |StripCR(stream[e..])|
  {
    assert e + |echo| <= |stream| && stream[e..e + |echo|] == echo;
    assert stream[e..|stream|] == stream[e..];
    hide IndexFrom, OccursAt, StripCR;
    StripCRFree(echo);
  }

  /** Where the reader holds n bytes of output, no fewer than the echo. */
  lemma PositionOf(stream: Text, echo: Text, e: nat, n: nat) returns (q: nat)
    requires IndexFrom(stream, echo, 0) == Some(e) && CR !in echo && |echo| <= n <= |StripCR(stream[e..])|
    ensures e + |echo| <= q <= |stream| && Reach(stream, e, q) == n
    ensures n == |echo| ==> q == e + |echo|
  {
    ReachEcho(stream, echo, e);
    hide Reach, StripCR, IndexFrom;
    if n == |echo| {
      q := e + |echo|;
    } else {
      q := ReachExactly(stream, e, n, |stream|);
      if q < e + |echo| { ReachGrows(stream, e, q, e + |echo|); }
    }
  }

  // ----- a literal prompt at the end of a line

  predicate EndsLine(text: Text, prompt: Text, i: int)
  {
    OccursAt(text, prompt, i) && (i + |prompt| == |text| || text[i + |prompt|] == NL)
  }

  /** First match at or after `from` of a literal prompt followed by a line end. */
  function FindLiteral(text: Text, prompt: Text, from: nat): (r: Option<nat>)
    requires from <= |text|
    decreases |text| - from
  {
    if EndsLine(text, prompt, from) then Some(from)
    else if from == |text| then None
    else FindLiteral(text, prompt, from + 1)
  }

  lemma {:induction false} FindLiteralMeaning(text: Text, prompt: Text, from: nat)
    requires from <= |text|
    ensures var r := FindLiteral(text, prompt, from);
            (r.Some? ==> from <= r.value && EndsLine(text, prompt, r.value)
                         && forall i :: from <= i < r.value ==> !EndsLine(text, prompt, i))
            && (r.None? ==> forall i :: from <= i ==> !EndsLine(text, prompt, i))
    decreases |text| - from
  {
    if !EndsLine(text, prompt, from) && from < |text| { FindLiteralMeaning(text, prompt, from + 1); }
  }

  ghost function LiteralPrompt(prompt: Text): (r: Prompt)
  {
    Prompt(imap text | FindLiteral(text, prompt, 0).Some? ::
             Span(FindLiteral(text, prompt, 0).value, FindLiteral(text, prompt, 0).value + |prompt|))
  }

  lemma OnePrompt(prompt: Prompt, text: Text)
    ensures FirstPrompt([prompt], 0, text) == if text in prompt.found then Some(prompt.found[text]) else None
  {
    assert FirstPrompt([prompt], 1, text) == None;
  }

  lemma LiteralFound(prompt: Text, output: Text, n: nat)
    requires n <= |output|
    ensures var literal := FindLiteral(output[..n], prompt, 0);
            PromptIn([LiteralPrompt(prompt)], output, n)
            == if literal.Some? then Some(Span(literal.value, literal.value + |prompt|)) else None
  {
    hide FindLiteral, FirstPrompt;
    OnePrompt(LiteralPrompt(prompt), output[..n]);
  }

  /** The prompt's text stands at i, before p, where a reader that has the echo can take it for the
      prompt: it ends behind the echo, or it ends a line. */
  ghost predicate Early(output: Text, prompt: Text, echo: Text, p: nat, i: nat)
  {
    i < p && OccursAt(output, prompt, i) && (|echo| <= i + |prompt| || EndsLine(output, prompt, i))
  }

  ghost predicate NoEarlier(output: Text, prompt: Text, echo: Text, p: nat)
  {
    forall i: nat :: !Early(output, prompt, echo, p, i)
  }

  lemma LiteralInBounds(prompt: Text)
    ensures InBounds([LiteralPrompt(prompt)])
  {
    forall text | FindLiteral(text, prompt, 0).Some?
      ensures FindLiteral(text, prompt, 0).value + |prompt| <= |text|
    {
      FindLiteralMeaning(text, prompt, 0);
    }
  }

  /** What a reader sees of a literal prompt, at a position with n bytes of output. */
  lemma LiteralShown(stream: Text, echo: Text, prompt: Text, e: nat, eol: nat, p: nat, q: nat)
    requires IsStream(stream, echo, [LiteralPrompt(prompt)], e, eol, p) && e + |echo| <= q <= |stream|
    ensures var literal := FindLiteral(StripCR(stream[e..])[..Reach(stream, e, q)], prompt, 0);
            (literal.Some? ==> ShowsAt(stream, echo, [LiteralPrompt(prompt)], q, literal.value))
            && (Shows(stream, echo, [LiteralPrompt(prompt)], q) ==> literal.Some?)
  {
    HeldFull(stream, echo, e, q);
    HeldOutput(stream, echo, [LiteralPrompt(prompt)], e, eol, p, q);
    LiteralFound(prompt, StripCR(stream[e..]), Reach(stream, e, q));
    hide StripCR, FindLiteral, FirstPrompt, LiteralPrompt, Held, NoEscapes, InBounds;
  }

  lemma ShownIsFound(stream: Text, echo: Text, prompt: Text, e: nat, eol: nat, p: nat, q: nat, at: int)
    requires IsStream(stream, echo, [LiteralPrompt(prompt)], e, eol, p)
    requires ShowsAt(stream, echo, [LiteralPrompt(prompt)], q, at)
    ensures e + |echo| <= q && at + |prompt| <= Reach(stream, e, q)
    ensures FindLiteral(StripCR(stream[e..])[..Reach(stream, e, q)], prompt, 0) == Some(at)
  {
    assert IndexFrom(stream, echo, 0) == Some(e);
    assert Held(stream, echo, q).found;
    hide StripCR, FindLiteral, LiteralPrompt, FindPrompt, Held, NoEscapes, InBounds, PromptIn, IndexFrom, Reach;
    HeldFull(stream, echo, e, q);
    HeldOutput(stream, echo, [LiteralPrompt(prompt)], e, eol, p, q);
    LiteralFound(prompt, StripCR(stream[e..]), Reach(stream, e, q));
    FindLiteralMeaning(StripCR(stream[e..])[..Reach(stream, e, q)], prompt, 0);
  }

  /** Prompt text in a beginning of the output that has the echo is the prompt, when there is none
      earlier. */
  lemma LiteralInPrefix(output: Text, prompt: Text, echo: Text, p: nat, n: nat)
    requires prompt != [] && |echo| <= n <= |output| && EndsLine(output, prompt, p)
    requires NoEarlier(output, prompt, echo, p) && FindLiteral(output[..n], prompt, 0).Some?
    ensures FindLiteral(output[..n], prompt, 0) == Some(p)
  {
    FindLiteralMeaning(output[..n], prompt, 0);
    var f := FindLiteral(output[..n], prompt, 0).value;
    OccursInPrefix(output, prompt, n, f);
    assert !Early(output, prompt, echo, p, f);
    OccursInPrefix(output, prompt, n, p);
    if f + |prompt| < n { assert output[..n][f + |prompt|] == output[f + |prompt|]; }
    if f > p {
      assert output[..n][p + |prompt|] == output[p + |prompt|];
      assert EndsLine(output[..n], prompt, p);
    }
  }

  /** With prompt text at i, a reader with n bytes of output takes something no later for the prompt. */
  lemma SeenBehind(output: Text, prompt: Text, echo: Text, p: nat, i: nat) returns (n: nat)
    requires Early(output, prompt, echo, p, i) && |echo| <= |output|
    ensures n == (if |echo| <= i + |prompt| then i + |prompt| else |echo|) && |echo| <= n <= |output|
    ensures FindLiteral(output[..n], prompt, 0).Some? && FindLiteral(output[..n], prompt, 0).value <= i
  {
    n := if |echo| <= i + |prompt| then i + |prompt| else |echo|;
    OccursInPrefix(output, prompt, n, i);
    if i + |prompt| < n { assert output[..n][i + |prompt|] == output[i + |prompt|]; }
    assert EndsLine(output[..n], prompt, i);
    FindLiteralMeaning(output[..n], prompt, 0);
  }

  /** For a literal prompt, no reader is misled exactly when its text does not stand earlier. */
  lemma LiteralStableExactly(stream: Text, echo: Text, prompt: Text, e: nat, eol: nat, p: nat)
    requires prompt != [] && IsStream(stream, echo, [LiteralPrompt(prompt)], e, eol, p)
    ensures Stable(stream, echo, [LiteralPrompt(prompt)], p) <==> NoEarlier(StripCR(stream[e..]), prompt, echo, p)
  {
    if NoEarlier(StripCR(stream[e..]), prompt, echo, p) {
      forall q: nat, at | ShowsAt(stream, echo, [LiteralPrompt(prompt)], q, at) ensures at == p {
        NoneEarlier(stream, echo, prompt, e, eol, p, q, at);
      }
    } else {
      var i: nat :| Early(StripCR(stream[e..]), prompt, echo, p, i);
      EarlyMisleads(stream, echo, prompt, e, eol, p, i);
    }
  }

  lemma StreamPrompt(stream: Text, echo: Text, prompt: Text, e: nat, eol: nat, p: nat)
    requires IsStream(stream, echo, [LiteralPrompt(prompt)], e, eol, p)
    ensures EndsLine(StripCR(stream[e..]), prompt, p)
    ensures |echo| <= |StripCR(stream[e..])| && e + |echo| <= |stream|
  {
    var output := StripCR(stream[e..]);
    LiteralFound(prompt, output, |output|);
    assert output[..|output|] == output;
    FindLiteralMeaning(output, prompt, 0);
    HeldFull(stream, echo, e, |stream|);
    EchoStaysFirst(stream[e..], echo);
  }

  lemma NoneEarlier(stream: Text, echo: Text, prompt: Text, e: nat, eol: nat, p: nat, q: nat, at: int)
    requires prompt != [] && IsStream(stream, echo, [LiteralPrompt(prompt)], e, eol, p)
    requires NoEarlier(StripCR(stream[e..]), prompt, echo, p)
    requires ShowsAt(stream, echo, [LiteralPrompt(prompt)], q, at)
    ensures at == p
  {
    StreamPrompt(stream, echo, prompt, e, eol, p);
    ShownIsFound(stream, echo, prompt, e, eol, p, q, at);
    EchoReached(stream, echo, e, q);
    hide StripCR, FindLiteral, LiteralPrompt, IsStream, NoEarlier, EndsLine, ShowsAt, Reach;
    LiteralInPrefix(StripCR(stream[e..]), prompt, echo, p, Reach(stream, e, q));
  }

  lemma EchoReached(stream: Text, echo: Text, e: nat, q: nat)
    requires CR !in echo && IndexFrom(stream, echo, 0) == Some(e) && e + |echo| <= q <= |stream|
    ensures |echo| <= Reach(stream, e, q)
  {
    HeldFull(stream, echo, e, q);
    EchoStaysFirst(stream[e..q], echo);
  }

  lemma EarlyMisleads(stream: Text, echo: Text, prompt: Text, e: nat, eol: nat, p: nat, i: nat)
    requires prompt != [] && IsStream(stream, echo, [LiteralPrompt(prompt)], e, eol, p)
    requires Early(StripCR(stream[e..]), prompt, echo, p, i)
    ensures !Stable(stream, echo, [LiteralPrompt(prompt)], p)
  {
    var output, prompts := StripCR(stream[e..]), [LiteralPrompt(prompt)];
    StreamPrompt(stream, echo, prompt, e, eol, p);
    var n := SeenBehind(output, prompt, echo, p, i);
    assert InBounds(prompts) && CR !in echo && IndexFrom(stream, echo, 0) == Some(e);
    hide StripCR, FindLiteral, LiteralPrompt, FindPrompt, IsStream, Held, InBounds, Reaches;
    var q := PositionOf(stream, echo, e, n);
    LiteralShown(stream, echo, prompt, e, eol, p, q);
    var first := FirstShown(stream, echo, prompts, q, 0);
    var at := ShownOffset(stream, echo, prompts, first);
    EarlierStill(stream, echo, prompt, e, eol, p, i, n, q, first, at);
  }

  /** The first position that shows a prompt shows one that is early as well. */
  lemma EarlierStill(stream: Text, echo: Text, prompt: Text, e: nat, eol: nat, p: nat, i: nat, n: nat, q: nat,
                     first: nat, at: nat)
    requires prompt != [] && IsStream(stream, echo, [LiteralPrompt(prompt)], e, eol, p) && i < p
    requires n == (if |echo| <= i + |prompt| then i + |prompt| else |echo|)
    requires e + |echo| <= q <= |stream| && Reach(stream, e, q) == n && (n == |echo| ==> q == e + |echo|)
    requires FindLiteral(StripCR(stream[e..])[..n], prompt, 0).Some?
             && FindLiteral(StripCR(stream[e..])[..n], prompt, 0).value <= i
    requires first <= q && ShowsAt(stream, echo, [LiteralPrompt(prompt)], first, at)
    ensures at != p
  {
    hide StripCR, FindLiteral, LiteralPrompt, IsStream, ShowsAt, Reach;
    ShownIsFound(stream, echo, prompt, e, eol, p, first, at);
    ReachGrows(stream, e, first, q);
  }

  // ----- small outputs, with the echo "a" and the prompt "#"

  const ECHO: Text := [0x61]
  const HASH: Text := [0x23]

  /** A reader whose first read starts with the echo and shows a prompt stops there. */
  lemma FirstReadStops(chunks: seq<Text>, echo: Text, prompts: seq<Prompt>)
    requires chunks != [] && echo <= chunks[0] && FindPrompt(prompts, chunks[0]).Some?
    ensures Command(chunks, echo, prompts) == Cut(chunks[0], echo, prompts)
  {
    assert [] + chunks[0] == chunks[0] == chunks[0][0..];
    assert OccursAt(chunks[0], echo, 0);
    assert IndexFrom(chunks[0], echo, 0) == Some(0);
  }

  lemma HashAt(clean: Text, at: nat)
    requires at < |clean| && clean[at] == 0x23 && (at + 1 == |clean| || clean[at + 1] == NL)
    requires forall i :: 0 <= i < at && clean[i] == 0x23 ==> clean[i + 1] != NL
    ensures FindLiteral(clean, HASH, 0) == Some(at)
  {
    FindLiteralMeaning(clean, HASH, 0);
    assert clean[at..at + 1] == HASH && EndsLine(clean, HASH, at);
    assert forall i :: 0 <= i < at && OccursAt(clean, HASH, i) ==> clean[i..i + 1][0] == 0x23;
  }

  lemma PlainText(text: Text)
    requires ESC !in text
    ensures NoEscapes(text) && StripAnsi(text) == text
  {
    StripAnsiNothing(text);
  }

  /** The first "#" that ends a line of the text without escape sequences is what the reader sees. */
  lemma HashSeen(text: Text, clean: Text, at: nat)
    requires CR !in text && ECHO <= text && StripAnsi(text) == clean
    requires at < |clean| && clean[at] == 0x23 && (at + 1 == |clean| || clean[at + 1] == NL)
    requires forall i :: 0 <= i < at && clean[i] == 0x23 ==> clean[i + 1] != NL
    ensures StripCR(text) == text && InBounds([LiteralPrompt(HASH)])
    ensures FindPrompt([LiteralPrompt(HASH)], text) == Some(Span(at, at + 1))
  {
    StripCRFree(text);
    LiteralInBounds(HASH);
    HashAt(clean, at);
    hide FindLiteral;
    OnePrompt(LiteralPrompt(HASH), clean);
  }

  /** What the command's result is when such an output comes in one read, or only its first part. */
  lemma HashCut(chunks: seq<Text>, clean: Text, at: nat)
    requires chunks != [] && CR !in chunks[0] && ECHO <= chunks[0] && StripAnsi(chunks[0]) == clean
    requires at < |clean| && clean[at] == 0x23 && (at + 1 == |clean| || clean[at + 1] == NL)
    requires forall i :: 0 <= i < at && clean[i] == 0x23 ==> clean[i + 1] != NL
    ensures at <= |chunks[0]|
    ensures Command(chunks, ECHO, [LiteralPrompt(HASH)])
            == var from := EchoEnd(chunks[0], ECHO);
               if from <= at then Ok(chunks[0][from..at]) else Err(SlicePanic)
  {
    HashSeen(chunks[0], clean, at);
    hide StripAnsi, LiteralPrompt, FindPrompt, StripCR, InBounds;
    FirstReadStops(chunks, ECHO, [LiteralPrompt(HASH)]);
    CutHanded(chunks[0], ECHO, [LiteralPrompt(HASH)], at);
  }

  lemma {:induction false} LineEndAt(text: Text, eol: nat, from: nat)
    requires from <= eol < |text| && text[eol] == NL && forall k :: 0 <= k < eol ==> text[k] != NL
    ensures IndexFrom(text, [NL], from) == Some(eol)
    decreases eol - from
  {
    assert text[eol..eol + 1] == [NL];
    if from < eol {
      assert text[from..from + 1][0] != NL;
      LineEndAt(text, eol, from + 1);
    }
  }

  lemma {:induction false} NoLineEnd(text: Text, from: nat)
    requires NL !in text && from <= |text|
    ensures IndexFrom(text, [NL], from) == None
    decreases |text| - from
  {
    if from < |text| {
      assert text[from..from + 1][0] == text[from] != NL;
      NoLineEnd(text, from + 1);
    }
  }

  /** "a", a newline, "#" */
  const CALM: Text := [0x61, NL, 0x23]

  /** "a", a newline, "#x", a newline, "#" */
  const MISLEADING: Text := [0x61, NL, 0x23, 0x78, NL, 0x23]

  /** "a#", a newline, "#" */
  const PROMPT_IN_ECHO: Text := [0x61, 0x23, NL, 0x23]

  /** "ax#", with more to come */
  const PROMPT_BEHIND_ECHO: Text := [0x61, 0x78, 0x23]

  /** "a", an escape sequence, a newline, "#" */
  const ESCAPE_IN_ECHO: Text := [0x61, ESC, 0x5b, 0x6d, NL, 0x23]

  /** "a", a newline, an escape sequence, "x#" */
  const ESCAPED: Text := [0x61, NL, ESC, 0x5b, 0x6d, 0x78, 0x23]

  /** All reads of the calm output give the same body. */
  lemma CalmStream()
    ensures forall chunks :: Reads(chunks) && Flatten(chunks) == CALM ==>
              Command(chunks, ECHO, [LiteralPrompt(HASH)]) == Ok([NL])
  {
    hide LiteralPrompt, InBounds, Command, NoEscapes, FindLiteral, Stable, IsStream;
    StripCRFree(CALM);
    assert CALM[0..] == CALM && CALM[1..2] == [NL];
    CalmIsStream();
    forall i: nat ensures !Early(CALM, HASH, ECHO, 2, i) {
      if i < 2 { assert CALM[i..i + 1][0] != 0x23; }
    }
    LiteralStableExactly(CALM, ECHO, HASH, 0, 1, 2);
    ChunkingExactly(CALM, ECHO, [LiteralPrompt(HASH)], 0, 1, 2);
  }

  const NEVER: Prompt := Prompt(imap[])

  /** So they do when the prompt is that of the last of four patterns. */
  lemma FourthPattern()
    ensures forall chunks :: Reads(chunks) && Flatten(chunks) == CALM ==>
              Command(chunks, ECHO, [NEVER, NEVER, NEVER, LiteralPrompt(HASH)]) == Ok([NL])
  {
    CalmStream();
    assert [NEVER, NEVER, NEVER] + [LiteralPrompt(HASH)] == [NEVER, NEVER, NEVER, LiteralPrompt(HASH)];
    hide LiteralPrompt, Command;
    forall chunks { AnyPatternEnds(chunks, ECHO, [NEVER, NEVER, NEVER], [LiteralPrompt(HASH)]); }
  }

  lemma CalmIsStream()
    ensures IsStream(CALM, ECHO, [LiteralPrompt(HASH)], 0, 1, 2)
  {
    PlainText(CALM);
    HashSeen(CALM, CALM, 2);
    LineEndAt(CALM, 1, 0);
    assert OccursAt(CALM, ECHO, 0);
    assert CALM[0..] == CALM && CALM[..3] == CALM;
    hide LiteralPrompt, StripCR, StripAnsi, InBounds, NoEscapes;
  }

  /** The misleading output in one read gives its body... */
  lemma MisleadingWhole()
    ensures Command([MISLEADING], ECHO, [LiteralPrompt(HASH)]) == Ok([NL, 0x23, 0x78, NL])
  {
    hide LiteralPrompt, Command, StripAnsi, IndexFrom, NoEscapes;
    PlainText(MISLEADING);
    LineEndAt(MISLEADING, 1, 0);
    HashCut([MISLEADING], MISLEADING, 5);
    assert MISLEADING[1..5] == [NL, 0x23, 0x78, NL];
  }

  /** ...and in two reads only the part before the first "#". */
  lemma MisleadingStream()
    ensures Flatten([MISLEADING[..3], MISLEADING[3..]]) == MISLEADING
    ensures Command([MISLEADING[..3], MISLEADING[3..]], ECHO, [LiteralPrompt(HASH)]) == Ok([NL])
  {
    var chunks := [MISLEADING[..3], MISLEADING[3..]];
    assert MISLEADING[..3] == CALM && CALM[1..2] == [NL];
    FlattenAppend([MISLEADING[..3]], [MISLEADING[3..]]);
    FlattenOne(MISLEADING[..3]);
    FlattenOne(MISLEADING[3..]);
    assert chunks == [MISLEADING[..3]] + [MISLEADING[3..]];
    hide LiteralPrompt, Command, StripAnsi, IndexFrom, Flatten;
    PlainText(CALM);
    LineEndAt(CALM, 1, 0);
    HashCut(chunks, CALM, 2);
  }

  /** A prompt that stands on the echo line puts the slice bounds out of order. */
  lemma PromptInEchoPanics()
    ensures Command([PROMPT_IN_ECHO], ECHO, [LiteralPrompt(HASH)]) == Err(SlicePanic)
    ensures RawOffset(PROMPT_IN_ECHO, 1) == 1 < EchoEnd(PROMPT_IN_ECHO, ECHO)
  {
    PlainText(PROMPT_IN_ECHO);
    KeptAll(PROMPT_IN_ECHO, 0);
    RawOffsetExactly(PROMPT_IN_ECHO, 1);
    LineEndAt(PROMPT_IN_ECHO, 2, 0);
    hide LiteralPrompt, Command, StripAnsi;
    HashCut([PROMPT_IN_ECHO], PROMPT_IN_ECHO, 1);
  }

  /** A prompt behind the echo, on a line that has not ended yet, ends the body without a panic. */
  lemma PromptBehindEcho()
    ensures Command([PROMPT_BEHIND_ECHO], ECHO, [LiteralPrompt(HASH)]) == Ok([0x78])
  {
    hide LiteralPrompt, Command, StripAnsi, IndexFrom, NoEscapes;
    PlainText(PROMPT_BEHIND_ECHO);
    NoLineEnd(PROMPT_BEHIND_ECHO, 0);
    HashCut([PROMPT_BEHIND_ECHO], PROMPT_BEHIND_ECHO, 2);
    assert PROMPT_BEHIND_ECHO[1..2] == [0x78];
  }

  /** An escape sequence on the echo line does so although the prompt stands behind that line. */
  lemma EscapeInEchoPanics()
    ensures Command([ESCAPE_IN_ECHO], ECHO, [LiteralPrompt(HASH)]) == Err(SlicePanic)
    ensures 2 < |Kept(ESCAPE_IN_ECHO, 0)| && RawOffset(ESCAPE_IN_ECHO, 2) == 5 > EchoEnd(ESCAPE_IN_ECHO, ECHO)
  {
    assert Kept(ESCAPE_IN_ECHO, 6) == [];
    assert Kept(ESCAPE_IN_ECHO, 5) == [5];
    assert Kept(ESCAPE_IN_ECHO, 4) == [4, 5];
    assert EscapeEnd(ESCAPE_IN_ECHO, 1) == Some(4) by {
      assert SkipParameters(ESCAPE_IN_ECHO, 3) == 3 && Skip(ESCAPE_IN_ECHO, 3, 0x20, 0x2f) == 3;
    }
    assert Kept(ESCAPE_IN_ECHO, 1) == [4, 5];
    assert Kept(ESCAPE_IN_ECHO, 0) == [0, 4, 5];
    assert StripAnsi(ESCAPE_IN_ECHO) == [0x61, NL, 0x23];
    LineEndAt(ESCAPE_IN_ECHO, 4, 0);
    hide LiteralPrompt, Command, StripAnsi, Kept;
    HashCut([ESCAPE_IN_ECHO], [0x61, NL, 0x23], 2);
  }

  lemma EscapedClean()
    ensures StripAnsi(ESCAPED) == [0x61, NL, 0x78, 0x23]
  {
    assert Kept(ESCAPED, 7) == [];
    assert Kept(ESCAPED, 6) == [6];
    assert Kept(ESCAPED, 5) == [5, 6];
    assert EscapeEnd(ESCAPED, 2) == Some(5) by {
      assert SkipParameters(ESCAPED, 4) == 4 && Skip(ESCAPED, 4, 0x20, 0x2f) == 4;
    }
    assert Kept(ESCAPED, 2) == [5, 6];
    assert Kept(ESCAPED, 1) == [1, 5, 6];
    assert Kept(ESCAPED, 0) == [0, 1, 5, 6];
    assert StripAnsi(ESCAPED) == [0x61, NL, 0x78, 0x23];
  }

  /** The body should be a newline, the escape sequence and "x", but the cut ends inside the escape
      sequence. */
  lemma EscapeCutsShort()
    ensures Command([ESCAPED], ECHO, [LiteralPrompt(HASH)]) == Ok([NL, ESC])
  {
    hide LiteralPrompt, Command, StripAnsi, Kept, IndexFrom;
    EscapedClean();
    LineEndAt(ESCAPED, 1, 0);
    HashCut([ESCAPED], [0x61, NL, 0x78, 0x23], 3);
    assert ESCAPED[1..3] == [NL, ESC];
  }
}
