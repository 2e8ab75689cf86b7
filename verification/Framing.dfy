/** Cutting one command's output out of the byte stream of a session: read until the echo and a
    prompt were both seen, normalise, find both again, return what lies between. */
module Framing {
  import opened Bytes

  // ----- normalisation

  function StripCR(b: Text): (r: Text)
    ensures |r| <= |b|
  {
    if |b| == 0 then []
    else StripCR(b[..|b| - 1]) + if b[|b| - 1] == CR then [] else [b[|b| - 1]]
  }

  /** First position at or after i whose byte is outside lo..hi. */
  function Skip(b: Text, i: nat, lo: Byte, hi: Byte): (j: nat)
    requires i <= |b|
    ensures i <= j <= |b|
    decreases |b| - i
  {
    if i < |b| && lo <= b[i] <= hi then Skip(b, i + 1, lo, hi) else i
  }

  /** End of the terminal escape sequence that starts at i: ESC [, parameters, intermediates, a final byte. */
  function EscapeEnd(b: Text, i: nat): (r: Option<nat>)
    requires i < |b|
    ensures r.Some? ==> i < r.value <= |b|
  {
    if b[i] == ESC && i + 1 < |b| && b[i + 1] == 0x5b then
      var j := SkipParameters(b, i + 2);
      var k := Skip(b, j, 0x20, 0x2f);
      if k < |b| && 0x40 <= b[k] <= 0x7e then Some(k + 1) else None
    else None
  }

  /** Digits, semicolons and question marks. */
  function SkipParameters(b: Text, i: nat): (j: nat)
    requires i <= |b|
    ensures i <= j <= |b|
    decreases |b| - i
  {
    if i < |b| && (0x30 <= b[i] <= 0x39 || b[i] == 0x3b || b[i] == 0x3f) then SkipParameters(b, i + 1) else i
  }

  /** The offsets at or after i that stripping escape sequences keeps. */
  function Kept(b: Text, i: nat): (offsets: seq<int>)
    requires i <= |b|
    decreases |b| - i
  {
    if i == |b| then []
    else
      match EscapeEnd(b, i)
      case Some(end) => Kept(b, end)
      case None => [i as int] + Kept(b, i + 1)
  }

  function Pick(b: Text, offsets: seq<int>): (r: Text)
    requires forall k :: 0 <= k < |offsets| ==> 0 <= offsets[k] < |b|
    ensures |r| == |offsets|
  {
    seq(|offsets|, k requires 0 <= k < |offsets| => b[offsets[k]])
  }

  lemma {:induction false} KeptInside(b: Text, i: nat)
    requires i <= |b|
    ensures forall k :: 0 <= k < |Kept(b, i)| ==> i <= Kept(b, i)[k] < |b|
    decreases |b| - i
  {
    if i < |b| {
      match EscapeEnd(b, i)
      case Some(end) => KeptInside(b, end);
      case None => KeptInside(b, i + 1);
    }
  }

  function StripAnsi(b: Text): (r: Text)
  {
    KeptInside(b, 0);
    Pick(b, Kept(b, 0))
  }

  function Normalize(b: Text): (r: Text)
  {
    StripAnsi(StripCR(b))
  }

  // ----- prompts

  datatype Span = Span(lo: int, hi: int)

  /** A prompt pattern, as the first match in each text that has one. */
  datatype Prompt = Prompt(found: imap<Text, Span>)

  ghost predicate Fits(prompt: Prompt)
  {
    forall text :: text in prompt.found ==> 0 <= prompt.found[text].lo <= prompt.found[text].hi <= |text|
  }

  ghost predicate InBounds(prompts: seq<Prompt>)
  {
    forall k :: 0 <= k < |prompts| ==> Fits(prompts[k])
  }

  /** First match of the first pattern from k on that matches. */
  function FirstPrompt(prompts: seq<Prompt>, k: nat, clean: Text): (r: Option<Span>)
    requires k <= |prompts|
    decreases |prompts| - k
  {
    if k == |prompts| then None
    else if clean in prompts[k].found then Some(prompts[k].found[clean])
    else FirstPrompt(prompts, k + 1, clean)
  }

  lemma {:induction false} FirstPromptInBounds(prompts: seq<Prompt>, k: nat, clean: Text)
    requires k <= |prompts| && InBounds(prompts)
    ensures var r := FirstPrompt(prompts, k, clean);
            r.Some? ==> 0 <= r.value.lo <= r.value.hi <= |clean|
    decreases |prompts| - k
  {
    if k < |prompts| {
      assert Fits(prompts[k]);
      if clean !in prompts[k].found { FirstPromptInBounds(prompts, k + 1, clean); }
    }
  }

  function FindPrompt(prompts: seq<Prompt>, buffer: Text): (r: Option<Span>)
  {
    FirstPrompt(prompts, 0, Normalize(buffer))
  }

  lemma {:induction false} FirstPromptExactly(prompts: seq<Prompt>, k: nat, clean: Text)
    requires k <= |prompts|
    ensures FirstPrompt(prompts, k, clean).Some? <==> exists i :: k <= i < |prompts| && clean in prompts[i].found
    ensures forall i :: k <= i < |prompts| && clean in prompts[i].found
                        && (forall l :: k <= l < i ==> clean !in prompts[l].found) ==>
              FirstPrompt(prompts, k, clean) == Some(prompts[i].found[clean])
    decreases |prompts| - k
  {
    if k < |prompts| && clean !in prompts[k].found { FirstPromptExactly(prompts, k + 1, clean); }
  }

  /** A prompt is found exactly when one of the patterns, no matter which, matches the text without
      carriage returns and escape sequences; it is then the match of the first such pattern. */
  lemma FindPromptExactly(prompts: seq<Prompt>, buffer: Text)
    ensures FindPrompt(prompts, buffer).Some?
            <==> exists k :: 0 <= k < |prompts| && StripAnsi(StripCR(buffer)) in prompts[k].found
    ensures forall k :: 0 <= k < |prompts| && StripAnsi(StripCR(buffer)) in prompts[k].found
                        && (forall l :: 0 <= l < k ==> StripAnsi(StripCR(buffer)) !in prompts[l].found) ==>
              FindPrompt(prompts, buffer) == Some(prompts[k].found[StripAnsi(StripCR(buffer))])
  {
    FirstPromptExactly(prompts, 0, Normalize(buffer));
  }

  // ----- reading and cutting

  datatype FrameError = ReadFailed | NoStart | NoEnd | SlicePanic

  /** The reader's buffer after a chunk: everything before the first echo is discarded once. */
  datatype Buffer = Buffer(full: Text, found: bool)

  function Feed(buffer: Buffer, chunk: Text, echo: Text): (r: Buffer)
  {
    var full := buffer.full + chunk;
    if buffer.found then Buffer(full, true)
    else
      match IndexFrom(full, echo, 0)
      case Some(i) => Buffer(full[i..], true)
      case None => Buffer(full, false)
  }

  /** A read returns at most this many bytes. */
  const READ_LIMIT := 1024

  /** The chunks are ones that reads can return. */
  predicate Reads(chunks: seq<Text>)
  {
    forall k :: 0 <= k < |chunks| ==> |chunks[k]| <= READ_LIMIT
  }

  /** The reading loop from chunk k on; running out of chunks is the reader's error. */
  function ReadFrom(chunks: seq<Text>, k: nat, buffer: Buffer, echo: Text, prompts: seq<Prompt>): (r: Option<Text>)
    requires k <= |chunks|
    decreases |chunks| - k
  {
    if k == |chunks| then None
    else
      var next := Feed(buffer, chunks[k], echo);
      if next.found && FindPrompt(prompts, next.full).Some? then Some(next.full)
      else ReadFrom(chunks, k + 1, next, echo, prompts)
  }

  method ReadUntilPrompt(chunks: seq<Text>, echo: Text, prompts: seq<Prompt>) returns (out: Option<Text>)
    ensures out == ReadFrom(chunks, 0, Buffer([], false), echo, prompts)
  {
    var fullInput: Text := [];
    var cmdFound := false;
    for k := 0 to |chunks|
      invariant ReadFrom(chunks, 0, Buffer([], false), echo, prompts)
                == ReadFrom(chunks, k, Buffer(fullInput, cmdFound), echo, prompts)
    {
      fullInput := fullInput + chunks[k];
      if !cmdFound {
        var ns := IndexFrom(fullInput, echo, 0);
        if ns.Some? {
          fullInput := fullInput[ns.value..];
          cmdFound := true;
        }
      }
      if !cmdFound {
        continue;
      }
      var prompt := FindPrompt(prompts, fullInput);
      if prompt.Some? {
        return Some(fullInput);
      }
    }
    return None;
  }

  /** From the end of the echo line, or of the echo when nothing ends its line, up to the prompt. */
  function Cut(buff: Text, echo: Text, prompts: seq<Prompt>): (r: Result<Text, FrameError>)
  {
    var buffer := StripCR(buff);
    match IndexFrom(buffer, echo, 0)
    case None => Err(NoStart)
    case Some(start) =>
      var eol := IndexFrom(buffer, [NL], start);
      var from := if eol.Some? then eol.value else start + |echo|;
      match FindPrompt(prompts, buffer)
      case None => Err(NoEnd)
      case Some(end) => if from <= end.lo <= |buffer| then Ok(buffer[from..end.lo]) else Err(SlicePanic)
  }

  /** The result of one command, given the chunks in which its output arrives. */
  function Command(chunks: seq<Text>, echo: Text, prompts: seq<Prompt>): (r: Result<Text, FrameError>)
  {
    match ReadFrom(chunks, 0, Buffer([], false), echo, prompts)
    case None => Err(ReadFailed)
    case Some(buff) => Cut(buff, echo, prompts)
  }

  // ----- patterns that match nothing

  /** Patterns that match no text. */
  ghost predicate Silent(prompts: seq<Prompt>)
  {
    forall k :: 0 <= k < |prompts| ==> prompts[k].found == imap[]
  }

  lemma {:induction false} SilentSkipped(silent: seq<Prompt>, prompts: seq<Prompt>, k: nat, clean: Text)
    requires Silent(silent) && k <= |silent|
    ensures FirstPrompt(silent + prompts, k, clean) == FirstPrompt(prompts, 0, clean)
    decreases |silent| - k
  {
    if k < |silent| {
      SilentSkipped(silent, prompts, k + 1, clean);
    } else {
      SamePrompts(silent, prompts, 0, clean);
    }
  }

  lemma {:induction false} SamePrompts(silent: seq<Prompt>, prompts: seq<Prompt>, k: nat, clean: Text)
    requires k <= |prompts|
    ensures FirstPrompt(silent + prompts, |silent| + k, clean) == FirstPrompt(prompts, k, clean)
    decreases |prompts| - k
  {
    if k < |prompts| { SamePrompts(silent, prompts, k + 1, clean); }
  }

  lemma {:induction false} ReadFromSilent(chunks: seq<Text>, k: nat, buffer: Buffer, echo: Text, silent: seq<Prompt>, prompts: seq<Prompt>)
    requires k <= |chunks| && Silent(silent)
    ensures ReadFrom(chunks, k, buffer, echo, silent + prompts) == ReadFrom(chunks, k, buffer, echo, prompts)
    decreases |chunks| - k
  {
    hide FirstPrompt, Silent;
    if k < |chunks| {
      var next := Feed(buffer, chunks[k], echo);
      SilentSkipped(silent, prompts, 0, Normalize(next.full));
      ReadFromSilent(chunks, k + 1, next, echo, silent, prompts);
    }
  }

  /** A prompt of any pattern ends an output: patterns in front of it that do not match change
      nothing. */
  lemma AnyPatternEnds(chunks: seq<Text>, echo: Text, silent: seq<Prompt>, prompts: seq<Prompt>)
    requires Silent(silent)
    ensures Command(chunks, echo, silent + prompts) == Command(chunks, echo, prompts)
  {
    ReadFromSilent(chunks, 0, Buffer([], false), echo, silent, prompts);
    var r := ReadFrom(chunks, 0, Buffer([], false), echo, prompts);
    if r.Some? { SilentSkipped(silent, prompts, 0, Normalize(StripCR(r.value))); }
    hide FirstPrompt, ReadFrom, Silent;
  }

  // ----- carriage returns

  lemma {:induction false} StripCRAppend(a: Text, b: Text)
    ensures StripCR(a + b) == StripCR(a) + StripCR(b)
  {
    if b == [] {
      assert a + b == a;
    } else {
      StripCRAppend(a, b[..|b| - 1]);
      assert (a + b)[..|a + b| - 1] == a + b[..|b| - 1];
    }
  }

  lemma {:induction false} StripCRFree(b: Text)
    ensures CR !in StripCR(b)
    ensures CR !in b ==> StripCR(b) == b
  {
    if |b| > 0 {
      var before, last := b[..|b| - 1], b[|b| - 1];
      StripCRFree(before);
      assert b == before + [last];
    }
  }

  /** Normalising twice strips nothing more: raw and CR-free bytes show the same prompt. */
  lemma PromptIgnoresCR(prompts: seq<Prompt>, b: Text)
    ensures FindPrompt(prompts, StripCR(b)) == FindPrompt(prompts, b)
  {
    StripCRFree(b);
    StripCRFree(StripCR(b));
  }

  // ----- whatever the reader found is found again

  lemma {:induction false} ReadStartsWithEcho(chunks: seq<Text>, k: nat, buffer: Buffer, echo: Text, prompts: seq<Prompt>)
    requires k <= |chunks| && (buffer.found ==> echo <= buffer.full)
    ensures var r := ReadFrom(chunks, k, buffer, echo, prompts);
            r.Some? ==> echo <= r.value && FindPrompt(prompts, r.value).Some?
    decreases |chunks| - k
  {
    if k < |chunks| {
      var next := Feed(buffer, chunks[k], echo);
      assert next.found ==> echo <= next.full;
      ReadStartsWithEcho(chunks, k + 1, next, echo, prompts);
    }
  }

  /** For an echo without carriage returns, the two "failed to find" errors cannot happen, however
      the output was split and whatever the prompt patterns are. */
  lemma FoundAgain(chunks: seq<Text>, echo: Text, prompts: seq<Prompt>)
    requires CR !in echo
    ensures Command(chunks, echo, prompts) != Err(NoStart) && Command(chunks, echo, prompts) != Err(NoEnd)
  {
    var r := ReadFrom(chunks, 0, Buffer([], false), echo, prompts);
    if r.Some? {
      ReadStartsWithEcho(chunks, 0, Buffer([], false), echo, prompts);
      var rest := r.value[|echo|..];
      assert r.value == echo + rest;
      StripCRAppend(echo, rest);
      StripCRFree(echo);
      assert OccursAt(StripCR(r.value), echo, 0);
      PromptIgnoresCR(prompts, r.value);
    }
  }
}
