/**
 * The Python string primitives the pipeline relies on, on `seq<char>`:
 * character classes, `lower()`, character filters (`re.sub` with a negated class),
 * `strip()`, `split(sep)` / `sep.join(parts)`, and maximal runs of characters of a
 * class (`re.findall(r"\d+")`, `str.split()`).
 */
module Strings {
  import opened Seqs

  /** Python's `str.isspace()`; `re`'s `\s`, `str.split()` and `str.strip()` all use this class. */
  predicate IsSpace(c: char)
  {
    || c == ' ' || ('\t' <= c <= '\r') || ('\U{1C}' <= c <= '\U{1F}')
    || c == '\U{85}' || c == '\U{A0}' || c == '\U{1680}' || ('\U{2000}' <= c <= '\U{200A}')
    || c == '\U{2028}' || c == '\U{2029}' || c == '\U{202F}' || c == '\U{205F}' || c == '\U{3000}'
  }

  predicate NotSpace(c: char)
  {
    !IsSpace(c)
  }

  predicate IsDigit(c: char)
  {
    '0' <= c <= '9'
  }

  predicate IsLower(c: char)
  {
    'a' <= c <= 'z'
  }

  predicate IsUpper(c: char)
  {
    'A' <= c <= 'Z'
  }

  /** `[a-zA-Z0-9\s]` */
  predicate IsAlnumOrSpace(c: char)
  {
    IsLower(c) || IsUpper(c) || IsDigit(c) || IsSpace(c)
  }

  /** Every character of `s` is in class `p`. */
  predicate AllSat(s: string, p: char -> bool)
  {
    forall i :: 0 <= i < |s| ==> p(s[i])
  }

  function LowerChar(c: char): char
  {
    if IsUpper(c) then (c as int + 32) as char else c
  }

  /** `str.lower()` on the letters A to Z. */
  function Lower(s: string): string
  {
    seq(|s|, i requires 0 <= i < |s| => LowerChar(s[i]))
  }

  lemma LowerAppend(a: string, b: string)
    ensures Lower(a + b) == Lower(a) + Lower(b)
  {
  }

  /** Text with no upper-case letter is its own lower-case form. */
  lemma LowerOfLower(s: string)
    requires forall i :: 0 <= i < |s| ==> !IsUpper(s[i])
    ensures Lower(s) == s
  {
  }

  /** Lowering neither creates nor removes whitespace. */
  lemma LowerCharSpace(c: char)
    ensures IsSpace(LowerChar(c)) <==> IsSpace(c)
    ensures !IsUpper(LowerChar(c))
  {
  }

  /** Keep the characters of class `p`: `re.sub(r"[^...]", "", s)` for the class `[...]`. */
  function KeepChars(s: string, p: char -> bool): (r: string)
    ensures AllSat(r, p)
    ensures |r| <= |s|
  {
    if s == [] then [] else (if p(s[0]) then [s[0]] else []) + KeepChars(s[1..], p)
  }

  lemma {:induction false} KeepCharsAppend(a: string, b: string, p: char -> bool)
    ensures KeepChars(a + b, p) == KeepChars(a, p) + KeepChars(b, p)
  {
    if a == [] {
      assert a + b == b;
    } else {
      var head := if p(a[0]) then [a[0]] else [];
      assert (a + b)[0] == a[0];
      assert (a + b)[1..] == a[1..] + b;
      assert KeepChars(a + b, p) == head + KeepChars(a[1..] + b, p);
      assert KeepChars(a, p) == head + KeepChars(a[1..], p);
      KeepCharsAppend(a[1..], b, p);
    }
  }

  /** A filter that every character passes changes nothing. */
  lemma {:induction false} KeepCharsAll(s: string, p: char -> bool)
    requires AllSat(s, p)
    ensures KeepChars(s, p) == s
  {
    if s != [] {
      KeepCharsAll(s[1..], p);
    }
  }

  /** A filter that no character passes leaves nothing. */
  lemma {:induction false} KeepCharsNone(s: string, p: char -> bool)
    requires forall i :: 0 <= i < |s| ==> !p(s[i])
    ensures KeepChars(s, p) == []
  {
    if s != [] {
      KeepCharsNone(s[1..], p);
    }
  }

  /** Every character `KeepChars` keeps is one of the input's. */
  lemma {:induction false} KeepCharsFrom(s: string, p: char -> bool, q: char -> bool)
    requires AllSat(s, q)
    ensures AllSat(KeepChars(s, p), q)
  {
    if s != [] {
      KeepCharsFrom(s[1..], p, q);
    }
  }

  /** `s.replace(a, b)` for single characters. */
  function ReplaceChar(s: string, a: char, b: char): string
  {
    seq(|s|, i requires 0 <= i < |s| => if s[i] == a then b else s[i])
  }

  /** No whitespace at either end. */
  predicate IsStripped(s: string)
  {
    s == [] || (!IsSpace(s[0]) && !IsSpace(s[|s| - 1]))
  }

  /** Length of the longest suffix of `s` whose characters are in class `p`. */
  function SuffixLen(s: string, p: char -> bool): (k: nat)
    ensures k <= |s|
    ensures forall j :: |s| - k <= j < |s| ==> p(s[j])
    ensures k < |s| ==> !p(s[|s| - k - 1])
  {
    if s == [] || !p(s[|s| - 1]) then 0 else 1 + SuffixLen(s[..|s| - 1], p)
  }

  /**
   * `str.strip()`: cut the leading whitespace, then the trailing whitespace of
   * what is left. The result has no whitespace at either end.
   */
  function Strip(s: string): (r: string)
    ensures IsStripped(r)
  {
    var i := PrefixLen(s, IsSpace);
    var t := s[i..];
    var k := SuffixLen(t, IsSpace);
    assert k < |t| ==> t[0] == s[i];
    t[..|t| - k]
  }

  /**
   * The stripped text is the slice of `s` that is left once whitespace-only
   * borders are cut off.
   */
  lemma StripIsSlice(s: string)
    ensures exists i :: 0 <= i <= |s| - |Strip(s)| && Strip(s) == s[i..i + |Strip(s)|]
                        && AllSat(s[..i], IsSpace) && AllSat(s[i + |Strip(s)|..], IsSpace)
  {
    var i := PrefixLen(s, IsSpace);
    var t := s[i..];
    var k := SuffixLen(t, IsSpace);
    var r := Strip(s);
    assert r == s[i..i + |r|];
    var tail := s[i + |r|..];
    assert forall j :: 0 <= j < |tail| ==> tail[j] == t[|t| - k + j];
  }

  /** `s` is its stripped text with whitespace-only text on either side. */
  lemma StripBorders(s: string) returns (a: string, b: string)
    ensures s == a + Strip(s) + b && AllSat(a, IsSpace) && AllSat(b, IsSpace)
  {
    var i := PrefixLen(s, IsSpace);
    var r := Strip(s);
    assert r == s[i..i + |r|] && AllSat(s[i + |r|..], IsSpace) by {
      var t := s[i..];
      var k := SuffixLen(t, IsSpace);
      assert r == s[i..i + |r|];
      var tail := s[i + |r|..];
      assert forall j :: 0 <= j < |tail| ==> tail[j] == t[|t| - k + j];
    }
    a, b := s[..i], s[i + |r|..];
    SliceThree(s, i, i + |r|);
  }

  lemma SliceThree(s: string, i: nat, j: nat)
    requires i <= j <= |s|
    ensures s == s[..i] + s[i..j] + s[j..]
  {
    assert s[..j] == s[..i] + s[i..j];
  }

  /** Every character of the stripped text is a character of `s`. */
  lemma StripChars(s: string)
    ensures forall c :: c in Strip(s) ==> c in s
  {
    var i := PrefixLen(s, IsSpace);
    var r := Strip(s);
    forall c | c in r ensures c in s {
      var j :| 0 <= j < |r| && r[j] == c;
      assert r[j] == s[i + j];
    }
  }

  /** Stripping text that is already stripped changes nothing. */
  lemma StripStripped(s: string)
    requires IsStripped(s)
    ensures Strip(s) == s
  {
    assert PrefixLen(s, IsSpace) == 0;
    assert s[0..] == s;
  }

  /** One blank in front of stripped text is what `strip()` removes. */
  lemma StripPadded(t: string)
    requires IsStripped(t)
    ensures Strip(" " + t) == t
  {
    var s := " " + t;
    assert s[1..] == t;
    assert PrefixLen(s, IsSpace) == 1 by {
      assert PrefixLen(s[1..], IsSpace) == 0;
    }
    StripStripped(t);
  }

  /** `" ".join`-style concatenation with a separator. */
  function Join(parts: seq<string>, sep: string): string
  {
    if |parts| == 0 then []
    else if |parts| == 1 then parts[0]
    else parts[0] + sep + Join(parts[1..], sep)
  }

  /**
   * `s.split(sep)` for a one-character separator: the pieces between separators,
   * including empty ones; there is always at least one piece.
   */
  function Split(s: string, sep: char): (parts: seq<string>)
    ensures |parts| >= 1
    ensures forall i :: 0 <= i < |parts| ==> sep !in parts[i]
  {
    if s == [] then [[]]
    else
      var rest := Split(s[1..], sep);
      if s[0] == sep then [[]] + rest
      else [[s[0]] + rest[0]] + rest[1..]
  }

  /** Joining the pieces of a split with the separator gives back the string. */
  lemma {:induction false} JoinSplit(s: string, sep: char)
    ensures Join(Split(s, sep), [sep]) == s
  {
    if s != [] {
      var rest := Split(s[1..], sep);
      JoinSplit(s[1..], sep);
      if s[0] == sep {
        assert ([[]] + rest)[1..] == rest;
      } else {
        var parts := [[s[0]] + rest[0]] + rest[1..];
        assert s == [s[0]] + s[1..];
        if |rest| == 1 {
          assert Join(parts, [sep]) == [s[0]] + rest[0];
        } else {
          assert parts[1..] == rest[1..];
          assert Join(parts, [sep]) == [s[0]] + rest[0] + [sep] + Join(rest[1..], [sep]);
        }
      }
    }
  }

  /** Splitting the join of separator-free pieces gives back the pieces. */
  lemma {:induction false} SplitJoin(parts: seq<string>, sep: char)
    requires |parts| >= 1
    requires forall i :: 0 <= i < |parts| ==> sep !in parts[i]
    ensures Split(Join(parts, [sep]), sep) == parts
  {
    if |parts| == 1 {
      SplitPiece(parts[0], [], sep);
      assert parts[0] + [] == parts[0];
      assert Split(parts[0], sep) == [parts[0] + []];
    } else {
      var tail := Join(parts[1..], [sep]);
      SplitJoin(parts[1..], sep);
      assert Join(parts, [sep]) == parts[0] + ([sep] + tail);
      SplitPiece(parts[0], [sep] + tail, sep);
      assert ([sep] + tail)[1..] == tail;
      assert Split([sep] + tail, sep) == [[]] + parts[1..];
      assert parts[0] + [] == parts[0];
      assert parts == [parts[0]] + parts[1..];
    }
  }

  /** A separator-free prefix `w` fuses into the first piece. */
  lemma {:induction false} SplitPiece(w: string, t: string, sep: char)
    requires sep !in w
    ensures Split(w + t, sep) == [w + Split(t, sep)[0]] + Split(t, sep)[1..]
  {
    if w != [] {
      assert (w + t)[1..] == w[1..] + t;
      SplitPiece(w[1..], t, sep);
      assert w + Split(t, sep)[0] == [w[0]] + (w[1..] + Split(t, sep)[0]);
    } else {
      assert w + t == t;
      assert w + Split(t, sep)[0] == Split(t, sep)[0];
      assert Split(t, sep) == [Split(t, sep)[0]] + Split(t, sep)[1..];
    }
  }

  /** `s.split(sep)` has one more piece than `s` has separators. */
  lemma {:induction false} SplitCount(s: string, sep: char)
    ensures |Split(s, sep)| == Count(s, sep) + 1
  {
    if s != [] {
      SplitCount(s[1..], sep);
    }
  }

  /** Length of the longest prefix of `s` whose characters are in class `p`. */
  function PrefixLen(s: string, p: char -> bool): (k: nat)
    ensures k <= |s|
    ensures AllSat(s[..k], p)
    ensures k < |s| ==> !p(s[k])
  {
    if s == [] || !p(s[0]) then 0 else 1 + PrefixLen(s[1..], p)
  }

  /**
   * The maximal runs of class-`p` characters, left to right:
   * `re.findall(r"\d+", s)` for digits, `s.split()` for non-space.
   */
  function Runs(s: string, p: char -> bool): (r: seq<string>)
    ensures forall i :: 0 <= i < |r| ==> |r[i]| > 0 && AllSat(r[i], p)
    decreases |s|
  {
    if s == [] then []
    else if !p(s[0]) then Runs(s[1..], p)
    else
      var k := PrefixLen(s, p);
      [s[..k]] + Runs(s[k..], p)
  }

  /** `w` sits in `s` at offset `i` as a maximal run: no class-`p` character touches it on either side. */
  predicate RunAt(s: string, p: char -> bool, i: nat, w: string)
  {
    && i + |w| <= |s|
    && (forall j :: 0 <= j < |w| ==> s[i + j] == w[j])
    && (i == 0 || !p(s[i - 1]))
    && (i + |w| == |s| || !p(s[i + |w|]))
  }

  function Shift(o: seq<nat>, d: nat): (r: seq<nat>)
    ensures |r| == |o| && forall k :: 0 <= k < |o| ==> r[k] == o[k] + d
  {
    seq(|o|, k requires 0 <= k < |o| => o[k] + d)
  }

  /** Where each run of `Runs(s, p)` starts in `s`. */
  function RunOffsets(s: string, p: char -> bool): (o: seq<nat>)
    ensures |o| == |Runs(s, p)|
    decreases |s|
  {
    if s == [] then []
    else if !p(s[0]) then Shift(RunOffsets(s[1..], p), 1)
    else
      var k := PrefixLen(s, p);
      [0] + Shift(RunOffsets(s[k..], p), k)
  }

  /** A run placed in `s[d..]` is placed in `s`, `d` further on, unless it would touch a class character at the cut. */
  lemma RunAtShift(s: string, p: char -> bool, d: nat, i: nat, w: string)
    requires d <= |s| && RunAt(s[d..], p, i, w)
    requires i > 0 || d == 0 || !p(s[d - 1])
    ensures RunAt(s, p, i + d, w)
  {
    var t := s[d..];
    forall j | 0 <= j < |w| ensures s[i + d + j] == w[j] {
      assert s[i + d + j] == t[i + j];
    }
    if i > 0 {
      assert s[i + d - 1] == t[i - 1];
    }
    if i + |w| < |t| {
      assert s[i + d + |w|] == t[i + |w|];
    }
  }

  /**
   * The runs are the maximal class-`p` segments of `s`: run `k` is the text at
   * offset `RunOffsets(s, p)[k]`, bordered by non-class characters or the ends,
   * and each run ends before the next one starts.
   */
  lemma {:induction false} RunsPlaced(s: string, p: char -> bool)
    ensures forall k :: 0 <= k < |Runs(s, p)| ==> RunAt(s, p, RunOffsets(s, p)[k], Runs(s, p)[k])
    ensures forall k, l :: 0 <= k < l < |Runs(s, p)| ==> RunOffsets(s, p)[k] + |Runs(s, p)[k]| < RunOffsets(s, p)[l]
    decreases |s|
  {
    if s == [] {
    } else if !p(s[0]) {
      RunsPlacedSkip(s, p);
    } else {
      RunsPlacedRun(s, p);
    }
  }

  lemma {:induction false} RunsPlacedSkip(s: string, p: char -> bool)
    requires s != [] && !p(s[0])
    ensures forall k :: 0 <= k < |Runs(s, p)| ==> RunAt(s, p, RunOffsets(s, p)[k], Runs(s, p)[k])
    ensures forall k, l :: 0 <= k < l < |Runs(s, p)| ==> RunOffsets(s, p)[k] + |Runs(s, p)[k]| < RunOffsets(s, p)[l]
    decreases |s|, 0
  {
    var t := s[1..];
    RunsPlaced(t, p);
    var r, o, ot := Runs(s, p), RunOffsets(s, p), RunOffsets(t, p);
    assert r == Runs(t, p);
    assert o == Shift(ot, 1);
    forall k | 0 <= k < |r| ensures RunAt(s, p, o[k], r[k]) {
      assert RunAt(t, p, ot[k], r[k]);
      RunAtShift(s, p, 1, ot[k], r[k]);
    }
    forall k, l | 0 <= k < l < |r| ensures o[k] + |r[k]| < o[l] {
      assert ot[k] + |r[k]| < ot[l];
    }
  }

  /** The class-`p` prefix of `s` is a run at offset 0. */
  lemma RunAtFirst(s: string, p: char -> bool, n: nat)
    requires n == PrefixLen(s, p)
    ensures RunAt(s, p, 0, s[..n])
  {
  }

  /** Text that does not start with a class character has no run at offset 0. */
  lemma OffsetsAfterCut(t: string, p: char -> bool)
    requires t == [] || !p(t[0])
    ensures forall k :: 0 <= k < |RunOffsets(t, p)| ==> RunOffsets(t, p)[k] > 0
  {
    if t != [] {
      assert RunOffsets(t, p) == Shift(RunOffsets(t[1..], p), 1);
    }
  }

  lemma {:induction false} RunsPlacedRun(s: string, p: char -> bool)
    requires s != [] && p(s[0])
    ensures forall k :: 0 <= k < |Runs(s, p)| ==> RunAt(s, p, RunOffsets(s, p)[k], Runs(s, p)[k])
    ensures forall k, l :: 0 <= k < l < |Runs(s, p)| ==> RunOffsets(s, p)[k] + |Runs(s, p)[k]| < RunOffsets(s, p)[l]
    decreases |s|, 0
  {
    var n := PrefixLen(s, p);
    var t := s[n..];
    RunsPlaced(t, p);
    var r, o, rt, ot := Runs(s, p), RunOffsets(s, p), Runs(t, p), RunOffsets(t, p);
    assert r == [s[..n]] + rt;
    assert o == [0] + Shift(ot, n);
    assert r[1..] == rt;
    OffsetsAfterCut(t, p);
    RunAtFirst(s, p, n);
    PlacedAfterFirst(s, p, n, r, o, rt, ot);
    OrderedAfterFirst(n, r, o, rt, ot);
  }

  /** Runs placed in `s[n..]`, after the first run `s[..n]`, are placed in `s`. */
  lemma PlacedAfterFirst(s: string, p: char -> bool, n: nat, r: seq<string>, o: seq<nat>, rt: seq<string>, ot: seq<nat>)
    requires n <= |s| && |rt| == |ot| && r == [s[..n]] + rt && o == [0] + Shift(ot, n)
    requires forall k :: 0 <= k < |rt| ==> RunAt(s[n..], p, ot[k], rt[k]) && ot[k] > 0
    requires RunAt(s, p, 0, s[..n])
    ensures forall k :: 0 <= k < |r| ==> RunAt(s, p, o[k], r[k])
  {
    forall k | 1 <= k < |r| ensures RunAt(s, p, o[k], r[k]) {
      assert r[k] == rt[k - 1] && o[k] == ot[k - 1] + n;
      RunAtShift(s, p, n, ot[k - 1], rt[k - 1]);
    }
  }

  /** Ordered runs after a first run that ends before all of them stay ordered. */
  lemma OrderedAfterFirst(n: nat, r: seq<string>, o: seq<nat>, rt: seq<string>, ot: seq<nat>)
    requires |rt| == |ot| && |r| == |rt| + 1 && r[1..] == rt && |r[0]| == n && o == [0] + Shift(ot, n)
    requires forall k :: 0 <= k < |ot| ==> ot[k] > 0
    requires forall k, l :: 0 <= k < l < |rt| ==> ot[k] + |rt[k]| < ot[l]
    ensures forall k, l :: 0 <= k < l < |r| ==> o[k] + |r[k]| < o[l]
  {
    forall k, l | 0 <= k < l < |r| ensures o[k] + |r[k]| < o[l] {
      assert r[l] == rt[l - 1] && o[l] == ot[l - 1] + n;
      if k > 0 {
        assert r[k] == rt[k - 1] && o[k] == ot[k - 1] + n;
        assert ot[k - 1] + |rt[k - 1]| < ot[l - 1];
      }
    }
  }

  /**
   * Independent count of maximal runs: positions holding a class-`p` character
   * whose predecessor (if any) is not in the class; `inRun` says whether the
   * character just before `s` was in the class.
   */
  function RunStarts(s: string, p: char -> bool, inRun: bool): nat
  {
    if s == [] then 0
    else (if p(s[0]) && !inRun then 1 else 0) + RunStarts(s[1..], p, p(s[0]))
  }

  lemma {:induction false} RunStartsSkipRun(s: string, p: char -> bool)
    ensures RunStarts(s, p, true) == RunStarts(s[PrefixLen(s, p)..], p, false)
  {
    if s != [] && p(s[0]) {
      RunStartsSkipRun(s[1..], p);
      assert s[PrefixLen(s, p)..] == s[1..][PrefixLen(s[1..], p)..];
    }
  }

  /** `Runs` finds exactly as many runs as there are run starts. */
  lemma {:induction false} RunsCount(s: string, p: char -> bool)
    ensures |Runs(s, p)| == RunStarts(s, p, false)
    decreases |s|
  {
    if s != [] {
      if !p(s[0]) {
        RunsCount(s[1..], p);
      } else {
        var k := PrefixLen(s, p);
        RunStartsSkipRun(s[1..], p);
        assert s[1..][PrefixLen(s[1..], p)..] == s[k..];
        RunsCount(s[k..], p);
      }
    }
  }

  /** The runs, concatenated, are exactly the class-`p` characters of `s`, in order. */
  lemma {:induction false} RunsFlatten(s: string, p: char -> bool)
    ensures Flatten(Runs(s, p)) == KeepChars(s, p)
    decreases |s|
  {
    if s != [] {
      if !p(s[0]) {
        RunsFlatten(s[1..], p);
      } else {
        var k := PrefixLen(s, p);
        var r := Runs(s[k..], p);
        RunsFlatten(s[k..], p);
        assert ([s[..k]] + r)[1..] == r;
        assert s == s[..k] + s[k..];
        KeepCharsAppend(s[..k], s[k..], p);
        KeepCharsAll(s[..k], p);
      }
    }
  }

  /** A class-`p` word followed by a non-class character (or nothing) is one run prefix. */
  lemma {:induction false} PrefixLenOfWord(w: string, t: string, p: char -> bool)
    requires AllSat(w, p)
    requires t == [] || !p(t[0])
    ensures PrefixLen(w + t, p) == |w|
  {
    if w != [] {
      assert (w + t)[1..] == w[1..] + t;
      PrefixLenOfWord(w[1..], t, p);
    } else {
      assert w + t == t;
    }
  }

  /** Runs of a string join with a separator outside `p`: the pieces themselves. */
  lemma {:induction false} RunsOfJoin(ws: seq<string>, sep: char, p: char -> bool)
    requires forall i :: 0 <= i < |ws| ==> |ws[i]| > 0 && AllSat(ws[i], p)
    requires !p(sep)
    ensures Runs(Join(ws, [sep]), p) == ws
  {
    if |ws| == 1 {
      PrefixLenOfWord(ws[0], [], p);
      assert ws[0] + [] == ws[0];
      assert ws[0][|ws[0]|..] == [];
    } else if |ws| > 1 {
      var w, tail := ws[0], Join(ws[1..], [sep]);
      var j := Join(ws, [sep]);
      assert j == w + ([sep] + tail);
      PrefixLenOfWord(w, [sep] + tail, p);
      assert j[..|w|] == w;
      assert j[|w|..] == [sep] + tail;
      assert ([sep] + tail)[1..] == tail;
      RunsOfJoin(ws[1..], sep, p);
    }
  }

  /** Each run is made of characters of the string, so it inherits any class they all share. */
  lemma {:induction false} RunsWithin(s: string, p: char -> bool, q: char -> bool)
    requires AllSat(s, q)
    ensures forall i :: 0 <= i < |Runs(s, p)| ==> AllSat(Runs(s, p)[i], q)
    decreases |s|
  {
    if s != [] {
      if !p(s[0]) {
        RunsWithin(s[1..], p, q);
      } else {
        var k := PrefixLen(s, p);
        RunsWithin(s[k..], p, q);
        assert Runs(s, p)[1..] == Runs(s[k..], p);
      }
    }
  }
}
