/**
 * The Python string and bytes operations the core relies on: `split` with an
 * explicit separator and `bytes.strip()`.
 */
module Text {
  import opened Wrappers

  /** An 8-bit byte, as Python `bytes` holds them. */
  type byte = x: int | 0 <= x < 256

  /** `sep` occurs in `s` starting at index `k`. */
  predicate OccursAt<T(==)>(s: seq<T>, sep: seq<T>, k: nat)
  {
    k + |sep| <= |s| && s[k..k + |sep|] == sep
  }

  /** `sep` occurs nowhere in `s`. */
  ghost predicate SepFree<T>(s: seq<T>, sep: seq<T>)
  {
    forall k: nat :: !OccursAt(s, sep, k)
  }

  /** The first index at or after `from` where `sep` occurs in `s`. */
  function FindFrom<T(==)>(s: seq<T>, sep: seq<T>, from: nat): (r: Option<nat>)
    requires |sep| > 0
    ensures r.Some? ==> from <= r.value && r.value + |sep| <= |s|
    decreases |s| - from
  {
    if from + |sep| > |s| then None
    else if OccursAt(s, sep, from) then Some(from)
    else FindFrom(s, sep, from + 1)
  }

  /**
   * The index found is an occurrence of `sep`, and no occurrence lies between
   * `from` and it; when none is found, `sep` occurs nowhere at or after `from`.
   */
  lemma {:induction false} FindFromFirst<T>(s: seq<T>, sep: seq<T>, from: nat)
    requires |sep| > 0
    ensures var r := FindFrom(s, sep, from);
      && (r.Some? ==> OccursAt(s, sep, r.value))
      && forall k: nat :: from <= k && (r.None? || k < r.value) ==> !OccursAt(s, sep, k)
    decreases |s| - from
  {
    if from + |sep| <= |s| && !OccursAt(s, sep, from) {
      FindFromFirst(s, sep, from + 1);
    }
  }

  /** The pieces joined back together with `sep` between them. */
  function Join<T>(parts: seq<seq<T>>, sep: seq<T>): seq<T>
    requires |parts| >= 1
  {
    if |parts| == 1 then parts[0] else parts[0] + sep + Join(parts[1..], sep)
  }

  lemma PrefixSepFree<T>(s: seq<T>, sep: seq<T>, i: nat)
    requires |sep| > 0 && i <= |s|
    requires forall k: nat :: k < i ==> !OccursAt(s, sep, k)
    ensures SepFree(s[..i], sep)
  {
    forall k: nat ensures !OccursAt(s[..i], sep, k) {
      if OccursAt(s[..i], sep, k) {
        assert s[..i][k..k + |sep|] == s[k..k + |sep|];
        assert OccursAt(s, sep, k);
      }
    }
  }

  /**
   * Python's `s.split(sep)` for a non-empty separator: the text between
   * successive leftmost, non-overlapping occurrences of `sep`.
   */
  function Split<T(==)>(s: seq<T>, sep: seq<T>): (parts: seq<seq<T>>)
    requires |sep| > 0
    ensures |parts| >= 1
    decreases |s|
  {
    match FindFrom(s, sep, 0)
    case None => [s]
    case Some(i) => [s[..i]] + Split(s[i + |sep|..], sep)
  }

  /**
   * Splitting loses nothing and leaves no separator behind: joining the parts
   * with the separator gives back the input, and no part contains it.
   */
  lemma {:induction false} SplitJoin<T>(s: seq<T>, sep: seq<T>)
    requires |sep| > 0
    ensures Join(Split(s, sep), sep) == s
    ensures forall p :: p in Split(s, sep) ==> SepFree(p, sep)
    decreases |s|
  {
    FindFromFirst(s, sep, 0);
    match FindFrom(s, sep, 0)
    case None =>
      PrefixSepFree(s, sep, |s|);
      assert s[..|s|] == s;
    case Some(i) =>
      PrefixSepFree(s, sep, i);
      SplitJoin(s[i + |sep|..], sep);
      var rest := Split(s[i + |sep|..], sep);
      assert s == s[..i] + sep + s[i + |sep|..] by {
        assert s[i..i + |sep|] == sep;
      }
      assert ([s[..i]] + rest)[1..] == rest;
  }

  lemma SingleSepFree<T>(p: seq<T>, c: T)
    requires SepFree(p, [c])
    ensures c !in p
  {
    if c in p {
      var k :| 0 <= k < |p| && p[k] == c;
      assert p[k..k + 1] == [c];
      assert OccursAt(p, [c], k);
    }
  }

  lemma OccursSingle<T>(s: seq<T>, c: T, k: nat)
    ensures OccursAt(s, [c], k) <==> k < |s| && s[k] == c
  {
    if k < |s| {
      assert s[k..k + 1] == [s[k]];
    }
  }

  /**
   * With a one-element separator `c`, the first piece is the word `w` and
   * another piece follows exactly when `s` starts with `w` followed by `c`;
   * the remaining pieces are then those of the text after that `c`.
   */
  lemma {:induction false} HeadToken<T>(s: seq<T>, c: T, w: seq<T>)
    requires c !in w
    ensures (|Split(s, [c])| >= 2 && Split(s, [c])[0] == w) <==> w + [c] <= s
    ensures w + [c] <= s ==> Split(s, [c])[1..] == Split(s[|w| + 1..], [c])
  {
    var f := FindFrom(s, [c], 0);
    FindFromFirst(s, [c], 0);
    if w + [c] <= s {
      assert s[..|w|] == w;
      OccursSingle(s, c, |w|);
      match f
      case None =>
        assert false;
      case Some(i) =>
        OccursSingle(s, c, i);
        assert Split(s, [c]) == [s[..i]] + Split(s[i + 1..], [c]);
    }
    if |Split(s, [c])| >= 2 && Split(s, [c])[0] == w {
      match f
      case None =>
        assert false;
      case Some(i) =>
        OccursSingle(s, c, i);
        assert s[..i] == w;
        assert s[..i + 1] == w + [c];
    }
  }

  /** With a one-element separator `c`, `s` splits into the single piece `w` exactly when `s` is `w`. */
  lemma {:induction false} SoleToken<T>(s: seq<T>, c: T, w: seq<T>)
    requires c !in w
    ensures Split(s, [c]) == [w] <==> s == w
  {
    FindFromFirst(s, [c], 0);
    match FindFrom(s, [c], 0)
    case None =>
    case Some(i) =>
      OccursSingle(s, c, i);
      assert |Split(s, [c])| >= 2;
  }

  /** Python's ASCII whitespace bytes, as `bytes.strip()` removes them. */
  predicate IsSpace(b: byte)
  {
    b in {9, 10, 11, 12, 13, 32}
  }

  /** `s` without its leading whitespace. */
  function TrimStart(s: seq<byte>): (t: seq<byte>)
    ensures |t| <= |s|
  {
    if |s| > 0 && IsSpace(s[0]) then TrimStart(s[1..]) else s
  }

  /** `s` without its trailing whitespace. */
  function TrimEnd(s: seq<byte>): (t: seq<byte>)
    ensures |t| <= |s|
  {
    if |s| > 0 && IsSpace(s[|s| - 1]) then TrimEnd(s[..|s| - 1]) else s
  }

  /**
   * Only leading whitespace goes: what remains is a suffix of `s` that is
   * empty or starts with a non-whitespace byte, and every byte removed is
   * whitespace.
   */
  lemma {:induction false} TrimStartRemovesSpace(s: seq<byte>)
    ensures var t := TrimStart(s);
      && t == s[|s| - |t|..]
      && (t == [] || !IsSpace(t[0]))
      && forall k :: 0 <= k < |s| - |t| ==> IsSpace(s[k])
    decreases |s|
  {
    if |s| > 0 && IsSpace(s[0]) {
      TrimStartRemovesSpace(s[1..]);
      var t := TrimStart(s[1..]);
      assert forall k :: 1 <= k < |s| - |t| ==> s[k] == s[1..][k - 1];
    }
  }

  /**
   * Only trailing whitespace goes: what remains is a prefix of `s` that is
   * empty or ends with a non-whitespace byte, and every byte removed is
   * whitespace.
   */
  lemma {:induction false} TrimEndRemovesSpace(s: seq<byte>)
    ensures var t := TrimEnd(s);
      && t == s[..|t|]
      && (t == [] || !IsSpace(t[|t| - 1]))
      && forall k :: |t| <= k < |s| ==> IsSpace(s[k])
    decreases |s|
  {
    if |s| > 0 && IsSpace(s[|s| - 1]) {
      TrimEndRemovesSpace(s[..|s| - 1]);
    }
  }

  /** Python's `bytes.strip()` with no argument. */
  function Strip(s: seq<byte>): seq<byte>
  {
    TrimEnd(TrimStart(s))
  }
}
