/**
 * Python `str` semantics for the model.  Clamped slicing `s[lo:hi]` is what
 * the downloader script itself uses to cut a date.  The rest (`count` of a
 * single character, `split` on a one-character separator, which never drops
 * empty pieces, `join`, and `partition` at the first occurrence of a
 * separator) the script never calls: they are the vocabulary in which the
 * model reads back the strings the script builds and states what those
 * strings contain.
 */
module PyStr {

  function Min(a: int, b: int): int { if a <= b then a else b }

  function Max(a: int, b: int): int { if a >= b then a else b }

  /** Python's `s[lo:hi]` for non-negative bounds: both bounds are clamped
      to `len(s)`, and an empty string results when they cross. */
  function Slice(s: string, lo: nat, hi: nat): (r: string)
    ensures |r| == Max(0, Min(hi, |s|) - lo)
    ensures forall k :: 0 <= k < |r| ==> r[k] == s[lo + k]
  {
    var a := Min(lo, |s|);
    var b := Min(hi, |s|);
    if a <= b then s[a..b] else []
  }

  /** Python's `s[lo:]`: everything from `lo` on, or nothing when `lo` is
      past the end. */
  function SliceFrom(s: string, lo: nat): (r: string)
    ensures |r| == Max(0, |s| - lo)
    ensures forall k :: 0 <= k < |r| ==> r[k] == s[lo + k]
  {
    Slice(s, lo, |s|)
  }

  /** Two adjacent clamped slices make up the clamped slice that spans both. */
  lemma SliceAdjacent(s: string, lo: nat, mid: nat, hi: nat)
    requires lo <= mid <= hi
    ensures Slice(s, lo, mid) + Slice(s, mid, hi) == Slice(s, lo, hi)
  {
  }

  /** Python's `s.count(c)` for a single character `c`. */
  function Count(s: string, c: char): (n: nat)
    ensures n <= |s|
    ensures n == 0 <==> c !in s
    decreases |s|
  {
    if |s| == 0 then 0
    else (if s[0] == c then 1 else 0) + Count(s[1..], c)
  }

  lemma {:induction false} CountConcat(a: string, b: string, c: char)
    ensures Count(a + b, c) == Count(a, c) + Count(b, c)
    decreases |a|
  {
    if |a| == 0 {
      assert a + b == b;
    } else {
      assert (a + b)[1..] == a[1..] + b;
      CountConcat(a[1..], b, c);
    }
  }

  /** Python's `s.split(sep)` for a one-character separator: every
      occurrence of `sep` ends a piece, so `k` separators give `k + 1`
      pieces, empty ones included, and none of them holds `sep`. */
  function Split(s: string, sep: char): (parts: seq<string>)
    ensures |parts| == Count(s, sep) + 1
    ensures forall i :: 0 <= i < |parts| ==> sep !in parts[i]
    decreases |s|
  {
    if |s| == 0 then [""]
    else
      var rest := Split(s[1..], sep);
      if s[0] == sep then [""] + rest
      else [[s[0]] + rest[0]] + rest[1..]
  }

  /** Python's `sep.join(parts)`. */
  function Join(parts: seq<string>, sep: char): string
    decreases |parts|
  {
    if |parts| == 0 then ""
    else if |parts| == 1 then parts[0]
    else parts[0] + [sep] + Join(parts[1..], sep)
  }

  lemma JoinCons(x: string, rest: seq<string>, sep: char)
    requires |rest| > 0
    ensures Join([x] + rest, sep) == x + [sep] + Join(rest, sep)
  {
    assert ([x] + rest)[1..] == rest;
  }

  /** A string free of the separator splits into itself alone. */
  lemma {:induction false} SplitFree(a: string, sep: char)
    requires sep !in a
    ensures Split(a, sep) == [a]
    decreases |a|
  {
    if |a| > 0 {
      SplitFree(a[1..], sep);
      assert [a[0]] + a[1..] == a;
    }
  }

  /** A first piece free of the separator is split off whole. */
  lemma {:induction false} SplitCons(a: string, t: string, sep: char)
    requires sep !in a
    ensures Split(a + [sep] + t, sep) == [a] + Split(t, sep)
    decreases |a|
  {
    var s := a + [sep] + t;
    if |a| == 0 {
      assert s == [sep] + t && s[1..] == t;
    } else {
      assert s[0] == a[0] && s[1..] == a[1..] + [sep] + t;
      SplitCons(a[1..], t, sep);
      assert [a[0]] + a[1..] == a;
    }
  }

  /** Splitting undoes joining when no piece contains the separator. */
  lemma {:induction false} SplitJoin(parts: seq<string>, sep: char)
    requires |parts| > 0
    requires forall i :: 0 <= i < |parts| ==> sep !in parts[i]
    ensures Split(Join(parts, sep), sep) == parts
    decreases |parts|
  {
    if |parts| == 1 {
      SplitFree(parts[0], sep);
    } else {
      SplitJoin(parts[1..], sep);
      SplitCons(parts[0], Join(parts[1..], sep), sep);
      assert parts == [parts[0]] + parts[1..];
    }
  }

  /** Joining undoes splitting, for every string. */
  lemma {:induction false} JoinSplit(s: string, sep: char)
    ensures Join(Split(s, sep), sep) == s
    decreases |s|
  {
    if |s| > 0 {
      var rest := Split(s[1..], sep);
      JoinSplit(s[1..], sep);
      assert s == [s[0]] + s[1..];
      if s[0] == sep {
        JoinCons("", rest, sep);
      } else if |rest| == 1 {
        assert Split(s, sep) == [[s[0]] + rest[0]];
      } else {
        JoinCons([s[0]] + rest[0], rest[1..], sep);
        JoinCons(rest[0], rest[1..], sep);
        assert rest == [rest[0]] + rest[1..];
      }
    }
  }

  /** Python's `s.partition(sep)` without the middle element: the text
      before the first `sep` and the text after it; when `sep` does not
      occur, the whole string and an empty remainder. */
  function Partition(s: string, sep: char): (r: (string, string))
    ensures sep !in r.0
    ensures sep in s ==> s == r.0 + [sep] + r.1
    ensures sep !in s ==> r == (s, "")
    decreases |s|
  {
    if |s| == 0 then ("", "")
    else if s[0] == sep then ("", s[1..])
    else
      var rest := Partition(s[1..], sep);
      assert s == [s[0]] + s[1..];
      ([s[0]] + rest.0, rest.1)
  }

  /** Partitioning `a + [sep] + b` at `sep` gives back `a` and `b` whenever
      `a` is free of `sep`, whatever `b` holds. */
  lemma {:induction false} PartitionAt(a: string, b: string, sep: char)
    requires sep !in a
    ensures Partition(a + [sep] + b, sep) == (a, b)
    decreases |a|
  {
    if |a| == 0 {
      assert a + [sep] + b == [sep] + b;
    } else {
      assert (a + [sep] + b)[1..] == a[1..] + [sep] + b;
      PartitionAt(a[1..], b, sep);
      assert [a[0]] + a[1..] == a;
    }
  }
}
