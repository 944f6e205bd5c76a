/**
 * The JavaScript string operations the components apply: `split` on a
 * one-character separator, `join`, `trim`, `replace` with a string pattern
 * (first occurrence only) and `toUpperCase` (ASCII letters only here).
 */
module Text {

  /** Number of occurrences of `c` in `s`. */
  function Count(s: string, c: char): nat
    decreases |s|
  {
    if |s| == 0 then 0 else (if s[0] == c then 1 else 0) + Count(s[1..], c)
  }

  /**
   * `s.split(sep)`: the maximal runs between separators, always at least one
   * (so `"".split(",")` is `[""]`).
   */
  function Split(s: string, sep: char): (r: seq<string>)
    ensures |r| == Count(s, sep) + 1
    ensures forall i :: 0 <= i < |r| ==> sep !in r[i]
    decreases |s|
  {
    if |s| == 0 then [""]
    else if s[0] == sep then [""] + Split(s[1..], sep)
    else
      var rest := Split(s[1..], sep);
      [[s[0]] + rest[0]] + rest[1..]
  }

  /** `parts.join(sep)`. */
  function Join(parts: seq<string>, sep: string): string
    decreases |parts|
  {
    if |parts| == 0 then ""
    else if |parts| == 1 then parts[0]
    else parts[0] + sep + Join(parts[1..], sep)
  }

  /** Joining the pieces of a split with the separator gives back the original text. */
  lemma {:induction false} JoinSplit(s: string, sep: char)
    ensures Join(Split(s, sep), [sep]) == s
    decreases |s|
  {
    if |s| > 0 {
      var rest := Split(s[1..], sep);
      JoinSplit(s[1..], sep);
      if s[0] == sep {
        assert Split(s, sep) == [""] + rest;
        assert ([""] + rest)[1..] == rest;
        assert s == [sep] + s[1..];
      } else if |rest| == 1 {
        assert s == [s[0]] + s[1..];
      } else {
        var parts := Split(s, sep);
        assert parts[1..] == rest[1..];
        assert Join(rest, [sep]) == rest[0] + [sep] + Join(rest[1..], [sep]);
        assert s == [s[0]] + s[1..];
      }
    }
  }

  lemma {:induction false} SplitWithoutSep(s: string, sep: char)
    requires sep !in s
    ensures Split(s, sep) == [s]
    decreases |s|
  {
    if |s| > 0 {
      assert sep !in s[1..];
      SplitWithoutSep(s[1..], sep);
      assert s == [s[0]] + s[1..];
    }
  }

  lemma {:induction false} SplitAfterPrefix(p: string, sep: char, t: string)
    requires sep !in p
    ensures Split(p + [sep] + t, sep) == [p] + Split(t, sep)
    decreases |p|
  {
    if |p| == 0 {
      assert p + [sep] + t == [sep] + t;
      assert ([sep] + t)[1..] == t;
    } else {
      assert (p + [sep] + t)[1..] == p[1..] + [sep] + t;
      assert sep !in p[1..];
      SplitAfterPrefix(p[1..], sep, t);
      assert p == [p[0]] + p[1..];
    }
  }

  /** Splitting a join of separator-free pieces gives back the pieces. */
  lemma {:induction false} SplitJoin(parts: seq<string>, sep: char)
    requires |parts| >= 1
    requires forall i :: 0 <= i < |parts| ==> sep !in parts[i]
    ensures Split(Join(parts, [sep]), sep) == parts
    decreases |parts|
  {
    if |parts| == 1 {
      SplitWithoutSep(parts[0], sep);
    } else {
      SplitJoin(parts[1..], sep);
      SplitAfterPrefix(parts[0], sep, Join(parts[1..], [sep]));
      assert parts == [parts[0]] + parts[1..];
    }
  }

  /** Putting a space before the first piece puts it before the whole join. */
  lemma JoinConsSpace(a: string, rest: seq<string>, sep: string)
    ensures Join([" " + a] + rest, sep) == " " + Join([a] + rest, sep)
  {
    if |rest| > 0 {
      assert ([" " + a] + rest)[1..] == rest;
      assert ([a] + rest)[1..] == rest;
    }
  }

  /** The pieces with a space put before every piece but the first. */
  function PadTail(parts: seq<string>): (r: seq<string>)
    requires |parts| >= 1
    ensures |r| == |parts| && r[0] == parts[0]
    ensures forall i :: 1 <= i < |parts| ==> r[i] == " " + parts[i]
  {
    [parts[0]] + seq(|parts| - 1, i requires 0 <= i < |parts| - 1 => " " + parts[i + 1])
  }

  /** `parts.join(", ")` is the join on "," of the pieces with a space before every later one. */
  lemma {:induction false} JoinCommaSpace(parts: seq<string>)
    requires |parts| >= 1
    ensures Join(parts, ", ") == Join(PadTail(parts), ",")
    decreases |parts|
  {
    if |parts| > 1 {
      var tail := parts[1..];
      JoinCommaSpace(tail);
      var padded := PadTail(parts);
      assert padded[1..] == [" " + parts[1]] + PadTail(tail)[1..];
      assert [parts[1]] + PadTail(tail)[1..] == PadTail(tail);
      JoinConsSpace(parts[1], PadTail(tail)[1..], ",");
      assert Join(padded, ",") == parts[0] + "," + (" " + Join(PadTail(tail), ","));
      assert parts[0] + "," + (" " + Join(PadTail(tail), ",")) == parts[0] + ", " + Join(PadTail(tail), ",");
    }
  }

  /**
   * Characters `String.prototype.trim` removes: the ECMAScript WhiteSpace and
   * LineTerminator code points.
   */
  predicate IsSpace(c: char) {
    || c == ' ' || c == '\t' || c == '\n' || c == '\r'
    || c == '\U{000B}' || c == '\U{000C}' || c == '\U{00A0}' || c == '\U{1680}'
    || ('\U{2000}' <= c <= '\U{200A}')
    || c == '\U{2028}' || c == '\U{2029}' || c == '\U{202F}' || c == '\U{205F}'
    || c == '\U{3000}' || c == '\U{FEFF}'
  }

  function TrimStart(s: string): string
    decreases |s|
  {
    if |s| > 0 && IsSpace(s[0]) then TrimStart(s[1..]) else s
  }

  function TrimEnd(s: string): string
    decreases |s|
  {
    if |s| > 0 && IsSpace(s[|s| - 1]) then TrimEnd(s[..|s| - 1]) else s
  }

  /** `s.trim()`. */
  function Trim(s: string): string {
    TrimEnd(TrimStart(s))
  }

  predicate AllSpace(s: string) {
    forall i :: 0 <= i < |s| ==> IsSpace(s[i])
  }

  /** `TrimStart` drops a run of white space, the first `i` characters, and stops at a non-space. */
  lemma {:induction false} TrimStartSplits(s: string) returns (i: nat)
    ensures i <= |s| && AllSpace(s[..i]) && TrimStart(s) == s[i..]
    ensures |TrimStart(s)| == 0 || !IsSpace(TrimStart(s)[0])
    decreases |s|
  {
    if |s| > 0 && IsSpace(s[0]) {
      var k := TrimStartSplits(s[1..]);
      i := k + 1;
      assert s[..i] == [s[0]] + s[1..][..k];
      assert s[i..] == s[1..][k..];
    } else {
      i := 0;
      assert s[..0] == [];
      assert s[0..] == s;
    }
  }

  /** `TrimEnd` drops a run of white space, everything from `j` on, and stops at a non-space. */
  lemma {:induction false} TrimEndSplits(s: string) returns (j: nat)
    ensures j <= |s| && AllSpace(s[j..]) && TrimEnd(s) == s[..j]
    ensures |TrimEnd(s)| == 0 || !IsSpace(TrimEnd(s)[|TrimEnd(s)| - 1])
    decreases |s|
  {
    if |s| > 0 && IsSpace(s[|s| - 1]) {
      var init := s[..|s| - 1];
      j := TrimEndSplits(init);
      assert TrimEnd(s) == TrimEnd(init);
      assert s[j..] == init[j..] + [s[|s| - 1]];
      assert s[..j] == init[..j];
    } else {
      j := |s|;
      assert s[|s|..] == [];
      assert s[..|s|] == s;
    }
  }

  /** `s.trim()` strips only white space: `s` is spaces + result + spaces. */
  lemma TrimSplits(s: string)
    ensures exists i, j :: 0 <= i <= j <= |s| && AllSpace(s[..i]) && AllSpace(s[j..])
              && Trim(s) == s[i..j]
  {
    var i := TrimStartSplits(s);
    var t := s[i..];
    var j := TrimEndSplits(t);
    assert t[..j] == s[i..i + j];
    assert t[j..] == s[i + j..];
  }

  /** Trimming adds no character: one missing from `s` is missing from `s.trim()`. */
  lemma TrimKeepsOut(s: string, c: char)
    requires c !in s
    ensures c !in Trim(s)
  {
    var i := TrimStartSplits(s);
    var t := s[i..];
    var j := TrimEndSplits(t);
    assert Trim(s) == s[i..i + j];
  }

  /** Neither the first nor the last character is white space. */
  predicate NoEdgeSpace(t: string) {
    |t| == 0 || (!IsSpace(t[0]) && !IsSpace(t[|t| - 1]))
  }

  /** Trimming every piece leaves no edge space, and adds no character `c` that no piece has. */
  lemma TrimEach(parts: seq<string>, c: char)
    requires forall i :: 0 <= i < |parts| ==> c !in parts[i]
    ensures forall i :: 0 <= i < |parts| ==> c !in Trim(parts[i]) && NoEdgeSpace(Trim(parts[i]))
  {
    forall i | 0 <= i < |parts|
      ensures c !in Trim(parts[i]) && NoEdgeSpace(Trim(parts[i]))
    {
      TrimKeepsOut(parts[i], c);
      TrimEdges(parts[i]);
    }
  }

  /** `s.trim()` strips all of the surrounding white space: the result neither starts nor ends with it. */
  lemma TrimEdges(s: string)
    ensures |Trim(s)| == 0 || (!IsSpace(Trim(s)[0]) && !IsSpace(Trim(s)[|Trim(s)| - 1]))
  {
    var _ := TrimStartSplits(s);
    var t := TrimStart(s);
    var j := TrimEndSplits(t);
    if j > 0 {
      assert Trim(s)[0] == t[0];
    }
  }

  /** Trimming twice is the same as trimming once. */
  lemma TrimIdempotent(s: string)
    ensures Trim(Trim(s)) == Trim(s)
  {
    TrimEdges(s);
    var t := Trim(s);
    if |t| > 0 {
      assert TrimStart(t) == t;
      assert TrimEnd(t) == t;
    }
  }

  /** A leading space makes no difference to the trimmed text. */
  lemma TrimLeadingSpace(s: string)
    ensures Trim(" " + s) == Trim(s)
  {
    assert (" " + s)[1..] == s;
  }

  /** `toUpperCase` on one character, for the ASCII letters the status codes use. */
  function UpperChar(c: char): char {
    if 'a' <= c <= 'z' then (c as int - 32) as char else c
  }

  function ToUpper(s: string): (r: string)
    ensures |r| == |s|
    ensures forall i :: 0 <= i < |s| ==> r[i] == UpperChar(s[i])
  {
    seq(|s|, i requires 0 <= i < |s| => UpperChar(s[i]))
  }

  /** Upper-casing works character by character, so it distributes over concatenation. */
  lemma ToUpperAppend(a: string, b: string)
    ensures ToUpper(a + b) == ToUpper(a) + ToUpper(b)
  {
  }

  /** Index of the first `c` in `s`, or `|s|` when there is none. */
  function IndexOf(s: string, c: char): (k: nat)
    ensures k <= |s|
    ensures k < |s| ==> s[k] == c
    ensures forall i :: 0 <= i < k ==> s[i] != c
    decreases |s|
  {
    if |s| == 0 then 0 else if s[0] == c then 0 else 1 + IndexOf(s[1..], c)
  }

  /** The first `c` after a stretch without one is where that stretch ends. */
  lemma IndexOfAfter(before: string, c: char, after: string)
    requires c !in before
    ensures IndexOf(before + [c] + after, c) == |before|
  {
    var s := before + [c] + after;
    assert s[|before|] == c;
    forall i | 0 <= i < |before|
      ensures s[i] != c
    {
      assert s[i] == before[i];
    }
  }

  /** `s.replace(from, to)` with a one-character string pattern: only the first match changes. */
  function ReplaceFirst(s: string, from: char, to: char): (r: string)
    ensures |r| == |s|
    ensures forall i :: 0 <= i < |s| ==> r[i] == if i == IndexOf(s, from) then to else s[i]
  {
    var k := IndexOf(s, from);
    if k == |s| then s else s[..k] + [to] + s[k + 1..]
  }

  /** Replacing the first `from` after a stretch without one changes exactly that character. */
  lemma ReplaceFirstAfter(before: string, from: char, to: char, after: string)
    requires from !in before
    ensures ReplaceFirst(before + [from] + after, from, to) == before + [to] + after
  {
    var s := before + [from] + after;
    IndexOfAfter(before, from, after);
    assert s[..|before|] == before;
    assert s[|before| + 1..] == after;
  }
}
