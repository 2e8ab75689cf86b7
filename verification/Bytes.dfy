/** Byte strings and the few library routines on them that the program relies on. */
module Bytes {

  newtype Byte = b: int | 0 <= b < 0x100
  type Text = seq<Byte>

  const TAB: Byte := 0x09
  const NL: Byte := 0x0a
  const CR: Byte := 0x0d
  const ESC: Byte := 0x1b
  const SPACE: Byte := 0x20
  const COMMA: Byte := 0x2c

  /** The bytes of an ASCII text. */
  function Ascii(s: string): (r: Text)
    requires forall k :: 0 <= k < |s| ==> s[k] as int < 0x80
    ensures |r| == |s|
  {
    seq(|s|, k requires 0 <= k < |s| => s[k] as int as Byte)
  }

  datatype Option<+T> = None | Some(value: T)

  datatype Result<+T, +E> = Ok(value: T) | Err(error: E)

  // ----- concatenation of many pieces

  function Flatten<T>(pieces: seq<seq<T>>): (r: seq<T>)
  {
    if |pieces| == 0 then [] else Flatten(pieces[..|pieces| - 1]) + pieces[|pieces| - 1]
  }

  lemma {:induction false} FlattenAppend<T>(a: seq<seq<T>>, b: seq<seq<T>>)
    ensures Flatten(a + b) == Flatten(a) + Flatten(b)
  {
    if |b| == 0 {
      assert a + b == a;
    } else {
      FlattenAppend(a, b[..|b| - 1]);
      assert (a + b)[..|a + b| - 1] == a + b[..|b| - 1];
    }
  }

  lemma FlattenOne<T>(piece: seq<T>)
    ensures Flatten([piece]) == piece
  {
    assert [piece][..0] == [];
  }

  // ----- sequences without repetition

  ghost predicate Distinct<T>(s: seq<T>)
  {
    forall i, j :: 0 <= i < j < |s| ==> s[i] != s[j]
  }

  lemma DistinctAt<T>(s: seq<T>, j: nat)
    requires Distinct(s) && j < |s|
    ensures forall i :: 0 <= i < j ==> s[i] != s[j]
  {
  }

  lemma DistinctAppend<T>(s: seq<T>, x: T)
    requires Distinct(s) && x !in s
    ensures Distinct(s + [x])
  {
  }

  // ----- trimming: strings.Trim with a set of cut bytes

  function TrimLeft(s: Text, cut: set<Byte>): (r: Text)
  {
    if s != [] && s[0] in cut then TrimLeft(s[1..], cut) else s
  }

  function TrimRight(s: Text, cut: set<Byte>): (r: Text)
  {
    if s != [] && s[|s| - 1] in cut then TrimRight(s[..|s| - 1], cut) else s
  }

  function Trim(s: Text, cut: set<Byte>): (r: Text)
  {
    TrimRight(TrimLeft(s, cut), cut)
  }

  predicate Trimmed(s: Text, cut: set<Byte>)
  {
    s == [] || (s[0] !in cut && s[|s| - 1] !in cut)
  }

  predicate AllIn(s: Text, cut: set<Byte>)
  {
    forall k :: 0 <= k < |s| ==> s[k] in cut
  }

  /** `r` is s[i..j], and what is missing of s on either side is bytes of `cut`. */
  predicate TrimmedTo(s: Text, cut: set<Byte>, r: Text, i: int, j: int)
  {
    0 <= i <= j <= |s| && r == s[i..j] && AllIn(s[..i], cut) && AllIn(s[j..], cut)
  }

  lemma {:induction false} TrimLeftMeaning(s: Text, cut: set<Byte>)
    ensures |TrimLeft(s, cut)| <= |s|
    ensures var i := |s| - |TrimLeft(s, cut)|; TrimLeft(s, cut) == s[i..] && AllIn(s[..i], cut)
    ensures TrimLeft(s, cut) != [] ==> TrimLeft(s, cut)[0] !in cut
    ensures s != [] && s[|s| - 1] !in cut ==> TrimLeft(s, cut) != [] && TrimLeft(s, cut)[|TrimLeft(s, cut)| - 1] == s[|s| - 1]
  {
    if s != [] && s[0] in cut {
      var rest := s[1..];
      TrimLeftMeaning(rest, cut);
      assert TrimLeft(s, cut) == TrimLeft(rest, cut);
      hide TrimLeft;
      var i := |rest| - |TrimLeft(rest, cut)|;
      assert s[i + 1..] == rest[i..] && s[..i + 1] == [s[0]] + rest[..i];
    }
  }

  lemma {:induction false} TrimRightMeaning(s: Text, cut: set<Byte>)
    ensures |TrimRight(s, cut)| <= |s|
    ensures var j := |TrimRight(s, cut)|; TrimRight(s, cut) == s[..j] && AllIn(s[j..], cut)
    ensures TrimRight(s, cut) != [] ==> TrimRight(s, cut)[|TrimRight(s, cut)| - 1] !in cut
    ensures s != [] && s[0] !in cut ==> TrimRight(s, cut) != [] && TrimRight(s, cut)[0] == s[0]
  {
    if s != [] && s[|s| - 1] in cut { TrimRightMeaning(s[..|s| - 1], cut); }
  }

  /** Trimming takes bytes of the cut set off both ends, nothing else, until neither end has one;
      a text without one at either end is left alone. */
  lemma TrimMeaning(s: Text, cut: set<Byte>)
    ensures Trimmed(Trim(s, cut), cut)
    ensures exists i, j :: TrimmedTo(s, cut, Trim(s, cut), i, j)
    ensures Trim(s, cut) == s <==> Trimmed(s, cut)
  {
    var left := TrimLeft(s, cut);
    TrimLeftMeaning(s, cut);
    TrimRightMeaning(left, cut);
    hide TrimLeft, TrimRight;
    var i := |s| - |left|;
    var j := i + |Trim(s, cut)|;
    assert s[j..] == left[j - i..];
    assert TrimmedTo(s, cut, Trim(s, cut), i, j);
  }

  lemma {:induction false} TrimLeftFront(front: Text, s: Text, cut: set<Byte>)
    requires AllIn(front, cut) && s != [] && s[0] !in cut
    ensures TrimLeft(front + s, cut) == s
  {
    if front == [] {
      assert front + s == s;
    } else {
      TrimLeftFront(front[1..], s, cut);
      assert (front + s)[1..] == front[1..] + s;
    }
  }

  lemma {:induction false} TrimRightBack(s: Text, back: Text, cut: set<Byte>)
    requires AllIn(back, cut) && s != [] && s[|s| - 1] !in cut
    ensures TrimRight(s + back, cut) == s
  {
    if back == [] {
      assert s + back == s;
    } else {
      TrimRightBack(s, back[..|back| - 1], cut);
      assert (s + back)[..|s + back| - 1] == s + back[..|back| - 1];
    }
  }

  /** Bytes of the cut set around a text that has none at its ends come off. */
  lemma TrimAround(front: Text, s: Text, back: Text, cut: set<Byte>)
    requires AllIn(front, cut) && AllIn(back, cut) && s != [] && Trimmed(s, cut)
    ensures Trim(front + s + back, cut) == s
  {
    TrimLeftFront(front, s + back, cut);
    TrimRightBack(s, back, cut);
    assert front + (s + back) == front + s + back;
  }

  // ----- substring search

  predicate OccursAt(s: Text, sub: Text, i: int)
  {
    0 <= i <= |s| - |sub| && s[i..i + |sub|] == sub
  }

  predicate Contains(s: Text, sub: Text)
  {
    exists i :: 0 <= i <= |s| && OccursAt(s, sub, i)
  }

  /** A text contains another exactly when it can be cut into something, the other, and something. */
  lemma ContainsExactly(s: Text, sub: Text)
    ensures Contains(s, sub) <==> exists before: Text, after: Text :: s == before + sub + after
  {
    if Contains(s, sub) {
      var i :| 0 <= i <= |s| && OccursAt(s, sub, i);
      assert s == s[..i] + sub + s[i + |sub|..];
    }
    if before: Text, after: Text :| s == before + sub + after {
      assert OccursAt(s, sub, |before|);
    }
  }

  /** First occurrence of a literal at or after `from`. */
  function IndexFrom(s: Text, sub: Text, from: nat): (r: Option<nat>)
    requires from <= |s|
    ensures r.Some? ==> from <= r.value && OccursAt(s, sub, r.value)
    decreases |s| - from
  {
    if OccursAt(s, sub, from) then Some(from)
    else if from == |s| then None
    else IndexFrom(s, sub, from + 1)
  }

  // ----- lines: repeated reads up to and including a newline

  /** Position just after the first newline of `s`, or the end. */
  function LineBreak(s: Text): (n: nat)
    ensures n <= |s|
    ensures forall i :: 0 <= i < n - 1 ==> s[i] != NL
    ensures n < |s| ==> n > 0 && s[n - 1] == NL
    ensures NL in s ==> n > 0 && s[n - 1] == NL
  {
    if s == [] then 0 else if s[0] == NL then 1 else 1 + LineBreak(s[1..])
  }

  /** What a `ReadBytes('\n')` loop yields until end of file: every newline-terminated
      line with its newline, then the unterminated rest (which may be empty). */
  function ReadLines(s: Text): (lines: seq<Text>)
    ensures |lines| > 0
    ensures NL !in lines[|lines| - 1]
  {
    if NL !in s then [s]
    else [s[..LineBreak(s)]] + ReadLines(s[LineBreak(s)..])
  }

  /** The only newline of the line is its last byte. */
  predicate EndsItself(line: Text)
  {
    line != [] && line[|line| - 1] == NL && forall i :: 0 <= i < |line| - 1 ==> line[i] != NL
  }

  lemma FirstLine(s: Text)
    requires NL in s
    ensures EndsItself(s[..LineBreak(s)]) && s[..LineBreak(s)] + s[LineBreak(s)..] == s && |s[LineBreak(s)..]| < |s|
  {
    hide LineBreak;
  }

  lemma RestOfLines(s: Text)
    requires NL in s
    ensures ReadLines(s) == [s[..LineBreak(s)]] + ReadLines(s[LineBreak(s)..])
  {
    hide LineBreak;
  }

  /** Nothing is lost, and a newline ends every line but the last and stands nowhere else. */
  lemma {:induction false} ReadLinesMeaning(s: Text)
    ensures Flatten(ReadLines(s)) == s
    ensures forall k :: 0 <= k < |ReadLines(s)| - 1 ==> EndsItself(ReadLines(s)[k])
    ensures NL !in ReadLines(s)[|ReadLines(s)| - 1]
    decreases |s|
  {
    if NL !in s {
      FlattenOne(s);
    } else {
      var line, rest := s[..LineBreak(s)], s[LineBreak(s)..];
      FirstLine(s);
      RestOfLines(s);
      ReadLinesMeaning(rest);
      var lines := ReadLines(rest);
      hide ReadLines, EndsItself, Flatten, LineBreak;
      FlattenAppend([line], lines);
      FlattenOne(line);
    }
  }
}
