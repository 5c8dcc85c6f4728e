/**
 * The few java.lang.String operations the core relies on, over `string`
 * (a sequence of characters): suffix tests, ASCII lower-casing, joining with
 * a separator, single-character replacement and `trim`.
 */
module Text {
  import opened Wrappers

  /** `s.endsWith(suffix)` */
  predicate EndsWith(s: string, suffix: string)
  {
    |suffix| <= |s| && s[|s| - |suffix|..] == suffix
  }

  /** A text whose k-th character from the end differs from the suffix's does not end with it. */
  lemma NotEndsWith(s: string, suffix: string, k: nat)
    requires k < |s| && k < |suffix| && s[|s| - 1 - k] != suffix[|suffix| - 1 - k]
    ensures !EndsWith(s, suffix)
  {
    assert |suffix| <= |s| ==> s[|s| - |suffix|..][|suffix| - 1 - k] == s[|s| - 1 - k];
  }

  /** Lower-casing a text without ASCII capitals keeps it. */
  lemma ToLowerAsciiNoCapitals(s: string)
    requires forall i :: 0 <= i < |s| ==> !('A' <= s[i] <= 'Z')
    ensures ToLowerAscii(s) == s
  {
  }

  /** `s.startsWith(prefix)` */
  predicate StartsWith(s: string, prefix: string)
  {
    |prefix| <= |s| && s[..|prefix|] == prefix
  }

  /** The position of the first `c` in `s`, if any: `s.indexOf(c)`. */
  function IndexOf(s: string, c: char): (r: Option<nat>)
    ensures r.Some? ==> r.value < |s| && s[r.value] == c && c !in s[..r.value]
    ensures r.None? <==> c !in s
  {
    if s == [] then None
    else if s[0] == c then Some(0)
    else match IndexOf(s[1..], c)
      case None => None
      case Some(i) => assert s[..i + 1] == [s[0]] + s[1..][..i]; Some(i + 1)
  }

  /** The first `c` of a text is the one right after a prefix free of `c`. */
  lemma {:induction false} IndexOfAfterFree(p: string, c: char, t: string)
    requires c !in p
    ensures IndexOf(p + [c] + t, c) == Some(|p|)
  {
    var s := p + [c] + t;
    if p != [] {
      assert s[0] == p[0] && s[1..] == p[1..] + [c] + t;
      IndexOfAfterFree(p[1..], c, t);
    }
  }

  /** The lower-case letter for an ASCII upper-case letter; every other character is kept. */
  function LowerAscii(c: char): char
  {
    if 'A' <= c <= 'Z' then (c as int + 32) as char else c
  }

  /** `s.toLowerCase()`, restricted to the ASCII letters (see README for why this is exact here). */
  function ToLowerAscii(s: string): (r: string)
    ensures |r| == |s|
    ensures forall i :: 0 <= i < |s| ==> r[i] == LowerAscii(s[i])
  {
    if s == [] then [] else [LowerAscii(s[0])] + ToLowerAscii(s[1..])
  }

  lemma {:induction false} ToLowerAsciiIdempotent(s: string)
    ensures ToLowerAscii(ToLowerAscii(s)) == ToLowerAscii(s)
  {
    var t := ToLowerAscii(s);
    assert forall i :: 0 <= i < |t| ==> LowerAscii(t[i]) == t[i];
  }

  /** `String.join(sep, parts)` */
  function Join(parts: seq<string>, sep: string): string
  {
    if |parts| == 0 then ""
    else if |parts| == 1 then parts[0]
    else parts[0] + sep + Join(parts[1..], sep)
  }

  function TotalLength(parts: seq<string>): nat
  {
    if parts == [] then 0 else |parts[0]| + TotalLength(parts[1..])
  }

  /** The joined text is as long as all parts together plus one separator between each two neighbours. */
  lemma {:induction false} JoinLength(parts: seq<string>, sep: string)
    requires |parts| > 0
    ensures |Join(parts, sep)| == TotalLength(parts) + (|parts| - 1) * |sep|
  {
    if |parts| > 1 {
      JoinLength(parts[1..], sep);
    }
  }

  /** The joined text starts with the first part. */
  lemma JoinStartsWithFirst(parts: seq<string>, sep: string)
    requires |parts| > 0
    ensures StartsWith(Join(parts, sep), parts[0])
  {
    if |parts| > 1 {
      var tail := sep + Join(parts[1..], sep);
      assert Join(parts, sep) == parts[0] + tail;
      ConcatParts(parts[0], tail);
    }
  }

  /** Adding a part at the end adds one separator and the part. */
  lemma {:induction false} JoinSnoc(parts: seq<string>, last: string, sep: string)
    requires |parts| > 0
    ensures Join(parts + [last], sep) == Join(parts, sep) + sep + last
  {
    if |parts| == 1 {
      assert parts + [last] == [parts[0], last];
    } else {
      assert (parts + [last])[1..] == parts[1..] + [last];
      JoinSnoc(parts[1..], last, sep);
    }
  }

  /**
   * Cutting a text at every occurrence of `c`, keeping empty pieces: the
   * reference inverse of joining with the one-character separator `[c]`.
   */
  function SplitOn(s: string, c: char): (r: seq<string>)
    ensures |r| > 0
  {
    if s == [] then [""]
    else if s[0] == c then [""] + SplitOn(s[1..], c)
    else var rest := SplitOn(s[1..], c); [[s[0]] + rest[0]] + rest[1..]
  }

  lemma {:induction false} SplitOnFree(p: string, c: char)
    requires c !in p
    ensures SplitOn(p, c) == [p]
  {
    if p != [] {
      SplitOnFree(p[1..], c);
      assert [p[0]] + p[1..] == p;
    }
  }

  lemma {:induction false} SplitOnPiece(p: string, c: char, t: string)
    requires c !in p
    ensures SplitOn(p + [c] + t, c) == [p] + SplitOn(t, c)
  {
    if p == [] {
      assert p + [c] + t == [c] + t;
      assert ([c] + t)[1..] == t;
    } else {
      var s := p + [c] + t;
      assert s[0] == p[0] && s[1..] == p[1..] + [c] + t;
      SplitOnPiece(p[1..], c, t);
      assert [p[0]] + p[1..] == p;
    }
  }

  /** Joining lines with a one-character separator that no line contains is undone by splitting. */
  lemma {:induction false} SplitJoinRoundTrip(parts: seq<string>, c: char)
    requires |parts| > 0
    requires forall i :: 0 <= i < |parts| ==> c !in parts[i]
    ensures SplitOn(Join(parts, [c]), c) == parts
  {
    if |parts| == 1 {
      SplitOnFree(parts[0], c);
    } else {
      SplitJoinRoundTrip(parts[1..], c);
      SplitOnPiece(parts[0], c, Join(parts[1..], [c]));
      assert [parts[0]] + parts[1..] == parts;
    }
  }

  /** `s.replace(from, to)` for one-character `from` and `to`. */
  function ReplaceChar(s: string, from: char, to: char): (r: string)
    ensures |r| == |s|
    ensures forall i :: 0 <= i < |s| ==> r[i] == if s[i] == from then to else s[i]
  {
    if s == [] then [] else [if s[0] == from then to else s[0]] + ReplaceChar(s[1..], from, to)
  }

  /** Java's `trim` removes characters up to U+0020 from both ends. */
  predicate IsTrimmable(c: char)
  {
    c <= ' '
  }

  /** The first index from `st` on that holds no trimmable character (the first loop of `trim`). */
  function TrimFrom(s: string, st: nat): (n: nat)
    requires st <= |s|
    ensures st <= n <= |s|
    ensures forall k :: st <= k < n ==> IsTrimmable(s[k])
    ensures n == |s| || !IsTrimmable(s[n])
    decreases |s| - st
  {
    if st < |s| && IsTrimmable(s[st]) then TrimFrom(s, st + 1) else st
  }

  /** The end left once trailing trimmable characters before `len` are dropped, never below `st` (the second loop). */
  function TrimTo(s: string, st: nat, len: nat): (n: nat)
    requires st <= len <= |s|
    ensures st <= n <= len
    ensures forall k :: n <= k < len ==> IsTrimmable(s[k])
    ensures n == st || !IsTrimmable(s[n - 1])
  {
    if st < len && IsTrimmable(s[len - 1]) then TrimTo(s, st, len - 1) else len
  }

  /** `s.trim()`: the longest middle part of `s` with no trimmable character at either end. */
  function Trim(s: string): (r: string)
    ensures exists i, j :: 0 <= i <= j <= |s| && r == s[i..j]
              && (forall k :: 0 <= k < i ==> IsTrimmable(s[k]))
              && (forall k :: j <= k < |s| ==> IsTrimmable(s[k]))
    ensures r == [] || (!IsTrimmable(r[0]) && !IsTrimmable(r[|r| - 1]))
  {
    var st := TrimFrom(s, 0);
    s[st..TrimTo(s, st, |s|)]
  }

  /** A text with no trimmable character at either end is its own trim. */
  lemma TrimOfTrimmed(s: string)
    requires s == [] || (!IsTrimmable(s[0]) && !IsTrimmable(s[|s| - 1]))
    ensures Trim(s) == s
  {
    assert TrimFrom(s, 0) == 0;
    assert TrimTo(s, 0, |s|) == |s|;
    assert s[0..|s|] == s;
  }

  /** Trimming a trimmed text changes nothing. */
  lemma TrimIdempotent(s: string)
    ensures Trim(Trim(s)) == Trim(s)
  {
    TrimOfTrimmed(Trim(s));
  }

  /** Part `k` starts after all earlier parts, each followed by a separator. */
  function PartOffset(parts: seq<string>, sep: string, k: nat): nat
    requires k < |parts|
  {
    if k == 0 then 0 else |parts[0]| + |sep| + PartOffset(parts[1..], sep, k - 1)
  }

  /** `p` sits in `s` at offset `o`. */
  predicate SliceIs(s: string, o: nat, p: string)
  {
    o + |p| <= |s| && s[o..o + |p|] == p
  }

  /**
   * The joined text holds every part at its offset, and right after every
   * part but the last, the separator.
   */
  lemma {:induction false} JoinPartAt(parts: seq<string>, sep: string, k: nat)
    requires k < |parts|
    ensures SliceIs(Join(parts, sep), PartOffset(parts, sep, k), parts[k])
    ensures k + 1 < |parts| ==> SliceIs(Join(parts, sep), PartOffset(parts, sep, k) + |parts[k]|, sep)
  {
    if |parts| == 1 {
      assert Join(parts, sep)[0..|parts[0]|] == parts[0];
    } else {
      var head, tail := parts[0] + sep, Join(parts[1..], sep);
      assert Join(parts, sep) == head + tail;
      if k == 0 {
        JoinHead(parts[0], sep, tail);
      } else {
        JoinPartAt(parts[1..], sep, k - 1);
        var o' := PartOffset(parts[1..], sep, k - 1);
        assert PartOffset(parts, sep, k) == |head| + o' && parts[1..][k - 1] == parts[k];
        SliceOfRight(head, tail, o', parts[k]);
        if k + 1 < |parts| {
          SliceOfRight(head, tail, o' + |parts[k]|, sep);
        }
      }
    }
  }

  /** The first part and the separator open `first + sep + tail`. */
  lemma JoinHead(first: string, sep: string, tail: string)
    ensures SliceIs(first + sep + tail, 0, first) && SliceIs(first + sep + tail, |first|, sep)
  {
    var s := first + sep + tail;
    assert s == first + (sep + tail);
    ConcatParts(first, sep + tail);
    ConcatParts(sep, tail);
    assert s[|first|..|first| + |sep|] == (sep + tail)[..|sep|];
  }

  /** What sits in the right part of a concatenation sits in the whole, shifted by the left part. */
  lemma SliceOfRight(a: string, b: string, o: nat, p: string)
    requires SliceIs(b, o, p)
    ensures SliceIs(a + b, |a| + o, p)
  {
    assert (a + b)[|a| + o..|a| + o + |p|] == b[o..o + |p|];
  }
}
