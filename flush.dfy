/**
 * The pure part of `_Model.process_decodes` (model/model.py): how one decode
 * is filed by its text, the three buckets, the descending-SNR sort and what
 * one flush of the decode buffer yields.
 */
module Flush {
  import opened Text
  import opened Types

  /** Where a decode is filed; `Malformed` is a text whose tokens run out before the indexing does. */
  datatype Bucket = Pota | Me | Cq | Dropped | Malformed

  /**
   * The classification of one decode text, token by token on single spaces:
   * "CQ POTA <call>" goes to POTA, any other "CQ <x>" to CQ, "<de_call> <x>" to
   * ME, and other texts are dropped. A text whose token list is shorter than
   * the index read raises IndexError in the source.
   */
  function Classify(text: string, deCall: string): Bucket
  {
    var t := Split(text, [' ']);
    if t[0] == "CQ" then
      if |t| < 2 then Malformed
      else if t[1] == "POTA" then (if |t| < 3 then Malformed else Pota)
      else Cq
    else if t[0] == deCall then
      if |t| < 2 then Malformed else Me
    else Dropped
  }

  lemma CqPotaPrefix(text: string)
    requires "CQ " <= text
    ensures "CQ POTA " <= text <==> "POTA " <= text[3..]
    ensures text == "CQ POTA" <==> text[3..] == "POTA"
  {
    assert text == "CQ " + text[3..];
  }

  /** What the first two tokens of a text say about its prefix. */
  lemma {:induction false} CqTokens(text: string)
    ensures var t := Split(text, [' ']);
      && ((|t| >= 2 && t[0] == "CQ") <==> "CQ " <= text)
      && (t == ["CQ"] <==> text == "CQ")
      && ("CQ " <= text ==>
            && ((|t| >= 3 && t[1] == "POTA") <==> "CQ POTA " <= text)
            && ((|t| == 2 && t[1] == "POTA") <==> text == "CQ POTA"))
  {
    var t := Split(text, [' ']);
    HeadToken(text, ' ', "CQ");
    SoleToken(text, ' ', "CQ");
    if "CQ " <= text {
      var rest := text[3..];
      CqPotaPrefix(text);
      HeadToken(rest, ' ', "POTA");
      SoleToken(rest, ' ', "POTA");
      assert t[1..] == Split(rest, [' ']);
      assert |t| >= 3 && t[1] == "POTA" <==> |t[1..]| >= 2 && t[1..][0] == "POTA";
      assert |t| == 2 && t[1] == "POTA" <==> t[1..] == ["POTA"];
    }
  }

  /** What the first token says when it is the operator's call. */
  lemma {:induction false} CallTokens(text: string, deCall: string)
    ensures var t := Split(text, [' ']);
      && (t[0] == deCall ==> ' ' !in deCall)
      && (' ' !in deCall ==>
            && ((|t| >= 2 && t[0] == deCall) <==> deCall + " " <= text)
            && (t == [deCall] <==> text == deCall))
  {
    var t := Split(text, [' ']);
    SplitJoin(text, [' ']);
    assert t[0] in t;
    SingleSepFree(t[0], ' ');
    if ' ' !in deCall {
      HeadToken(text, ' ', deCall);
      SoleToken(text, ' ', deCall);
    }
  }

  /**
   * The same classification stated on the raw text, without tokens: which
   * prefix puts a decode in which bucket, and which texts make the source fail.
   */
  lemma {:induction false} ClassifyByPrefix(text: string, deCall: string)
    ensures Classify(text, deCall) == Pota <==> "CQ POTA " <= text
    ensures Classify(text, deCall) == Cq <==>
      "CQ " <= text && !("CQ POTA " <= text) && text != "CQ POTA"
    ensures Classify(text, deCall) == Me <==>
      ' ' !in deCall && !("CQ " <= text) && text != "CQ" && deCall + " " <= text
    ensures Classify(text, deCall) == Malformed <==>
      text == "CQ" || text == "CQ POTA" || (text == deCall && ' ' !in deCall)
  {
    var t := Split(text, [' ']);
    CqTokens(text);
    CallTokens(text, deCall);
    assert t[0] == "CQ" <==> (|t| >= 2 && t[0] == "CQ") || t == ["CQ"];
    assert t[0] == deCall <==> (|t| >= 2 && t[0] == deCall) || t == [deCall];
  }

  /** The bucket `process_decodes` files a decode in, given the operator call. */
  function Filing(deCall: string): Decode -> Bucket
  {
    (d: Decode) => Classify(d.message, deCall)
  }

  /** The decodes of `r` that `filed` puts in bucket `b`, in arrival order. */
  function Select(r: seq<Decode>, filed: Decode -> Bucket, b: Bucket): seq<Decode>
    decreases |r|
  {
    if r == [] then []
    else
      var last := r[|r| - 1];
      Select(r[..|r| - 1], filed, b) + (if filed(last) == b then [last] else [])
  }

  /** A bucket holds exactly the decodes of the buffer filed in it. */
  lemma {:induction false} SelectMembers(r: seq<Decode>, filed: Decode -> Bucket, b: Bucket)
    ensures forall x :: x in Select(r, filed, b) <==> x in r && filed(x) == b
    decreases |r|
  {
    if r != [] {
      var last := r[|r| - 1];
      SelectMembers(r[..|r| - 1], filed, b);
      assert r == r[..|r| - 1] + [last];
    }
  }

  /**
   * A bucket holds each decode filed in it as often as the buffer does, and
   * nothing else: so every decode of the buffer lands in exactly one bucket.
   */
  lemma {:induction false} SelectCounts(r: seq<Decode>, filed: Decode -> Bucket, b: Bucket, x: Decode)
    ensures multiset(Select(r, filed, b))[x] == if filed(x) == b then multiset(r)[x] else 0
    decreases |r|
  {
    if r != [] {
      var front, last := r[..|r| - 1], r[|r| - 1];
      SelectCounts(front, filed, b, x);
      assert r == front + [last];
      assert multiset(r) == multiset(front) + multiset{last};
    }
  }

  /** Non-increasing SNR from front to back. */
  ghost predicate Descending(s: seq<Decode>)
  {
    forall i, j :: 0 <= i < j < |s| ==> s[i].snr >= s[j].snr
  }

  /** `x` placed before the first element whose SNR is not above its own. */
  function Insert(x: Decode, t: seq<Decode>): (u: seq<Decode>)
    ensures multiset(u) == multiset{x} + multiset(t)
  {
    if t == [] || x.snr >= t[0].snr then [x] + t
    else
      assert t == [t[0]] + t[1..];
      [t[0]] + Insert(x, t[1..])
  }

  lemma {:induction false} InsertDescending(x: Decode, t: seq<Decode>)
    requires Descending(t)
    ensures Descending(Insert(x, t))
    decreases |t|
  {
    if t != [] && x.snr < t[0].snr {
      var tail := t[1..];
      InsertDescending(x, tail);
      var u' := Insert(x, tail);
      forall j | 0 <= j < |u'| ensures u'[j].snr <= t[0].snr {
        assert u'[j] in multiset(u');
        if u'[j] != x {
          assert u'[j] in multiset(tail);
          var k :| 0 <= k < |tail| && tail[k] == u'[j];
          assert t[k + 1] == u'[j];
        }
      }
      assert Insert(x, t) == [t[0]] + u';
    }
  }

  /**
   * Python's `list.sort(key=snr, reverse=True)`: a stable sort into
   * non-increasing SNR (written here as an insertion sort).
   */
  function SortBySnr(s: seq<Decode>): (t: seq<Decode>)
    ensures multiset(t) == multiset(s)
    ensures Descending(t)
  {
    if s == [] then []
    else
      assert s == [s[0]] + s[1..];
      InsertDescending(s[0], SortBySnr(s[1..]));
      Insert(s[0], SortBySnr(s[1..]))
  }
  /** The decodes of `s` whose SNR is `v`, in their order in `s`. */
  function WithSnr(s: seq<Decode>, v: int): seq<Decode>
  {
    if s == [] then [] else (if s[0].snr == v then [s[0]] else []) + WithSnr(s[1..], v)
  }

  lemma {:induction false} InsertWithSnr(x: Decode, t: seq<Decode>, v: int)
    ensures WithSnr(Insert(x, t), v) == if x.snr == v then [x] + WithSnr(t, v) else WithSnr(t, v)
    decreases |t|
  {
    if t == [] || x.snr >= t[0].snr {
      assert ([x] + t)[1..] == t;
    } else {
      InsertWithSnr(x, t[1..], v);
      assert ([t[0]] + Insert(x, t[1..]))[1..] == Insert(x, t[1..]);
    }
  }

  /** Stability: decodes of equal SNR keep their arrival order through the sort. */
  lemma {:induction false} SortStable(s: seq<Decode>, v: int)
    ensures WithSnr(SortBySnr(s), v) == WithSnr(s, v)
    decreases |s|
  {
    if s != [] {
      SortStable(s[1..], v);
      InsertWithSnr(s[0], SortBySnr(s[1..]), v);
    }
  }

  /** What one flush of the decode buffer produces. */
  datatype Flushed =
    | NoCalls                                                     // empty buffer: nothing published
    | Crashed                                                     // a malformed text raised IndexError
    | Calls(pota: seq<Decode>, me: seq<Decode>, cq: seq<Decode>)  // the WSJTX_CALLS payload

  /** The result of `process_decodes` on the buffer `r` with the operator call `deCall`. */
  function FlushOutcome(r: seq<Decode>, deCall: string): (f: Flushed)
    ensures f.NoCalls? <==> r == []
  {
    var filed := Filing(deCall);
    if r == [] then NoCalls
    else if Select(r, filed, Malformed) != [] then Crashed
    else
      Calls(SortBySnr(Select(r, filed, Pota)),
            SortBySnr(Select(r, filed, Me)),
            SortBySnr(Select(r, filed, Cq)))
  }

  /** A flush raises exactly when the buffer holds a text too short for its bucket. */
  lemma FlushCrashes(r: seq<Decode>, deCall: string)
    ensures FlushOutcome(r, deCall).Crashed? <==>
      r != [] && exists i :: 0 <= i < |r| && Classify(r[i].message, deCall) == Malformed
  {
    var filed := Filing(deCall);
    var bad := Select(r, filed, Malformed);
    SelectMembers(r, filed, Malformed);
    assert |bad| > 0 ==> bad[0] in bad;
    if exists i :: 0 <= i < |r| && Classify(r[i].message, deCall) == Malformed {
      var i :| 0 <= i < |r| && Classify(r[i].message, deCall) == Malformed;
      assert r[i] in bad;
    }
  }

  /** Appending one decode extends only the bucket it is filed in. */
  lemma SelectSnoc(r: seq<Decode>, x: Decode, filed: Decode -> Bucket, b: Bucket)
    ensures Select(r + [x], filed, b) == Select(r, filed, b) + if filed(x) == b then [x] else []
  {
    assert (r + [x])[..|r|] == r;
  }

  /** A non-empty buffer without malformed decodes publishes its three sorted buckets. */
  lemma FlushPublishes(r: seq<Decode>, deCall: string)
    requires r != []
    requires forall i :: 0 <= i < |r| ==> Classify(r[i].message, deCall) != Malformed
    ensures var filed := Filing(deCall);
      FlushOutcome(r, deCall)
        == Calls(SortBySnr(Select(r, filed, Pota)), SortBySnr(Select(r, filed, Me)),
                 SortBySnr(Select(r, filed, Cq)))
  {
    FlushCrashes(r, deCall);
  }

  /** Without malformed decodes, the four remaining buckets together are the buffer. */
  lemma BucketsPartition(r: seq<Decode>, filed: Decode -> Bucket)
    requires forall i :: 0 <= i < |r| ==> filed(r[i]) != Malformed
    ensures multiset(Select(r, filed, Pota)) + multiset(Select(r, filed, Me))
          + multiset(Select(r, filed, Cq)) + multiset(Select(r, filed, Dropped)) == multiset(r)
  {
    var p, m, c, d := Select(r, filed, Pota), Select(r, filed, Me), Select(r, filed, Cq),
      Select(r, filed, Dropped);
    forall x ensures (multiset(p) + multiset(m) + multiset(c) + multiset(d))[x] == multiset(r)[x] {
      SelectCounts(r, filed, Pota, x);
      SelectCounts(r, filed, Me, x);
      SelectCounts(r, filed, Cq, x);
      SelectCounts(r, filed, Dropped, x);
      if x in r {
        var i :| 0 <= i < |r| && r[i] == x;
        assert filed(x) != Malformed;
      }
    }
  }

  /** The sorted bucket keeps the bucket's decodes and, per SNR value, their order. */
  lemma SortedBucket(s: seq<Decode>)
    ensures forall x :: x in SortBySnr(s) <==> x in s
    ensures forall v :: WithSnr(SortBySnr(s), v) == WithSnr(s, v)
  {
    forall x ensures x in SortBySnr(s) <==> x in s {
      assert x in SortBySnr(s) <==> x in multiset(SortBySnr(s));
    }
    forall v ensures WithSnr(SortBySnr(s), v) == WithSnr(s, v) {
      SortStable(s, v);
    }
  }

  /**
   * A flush that publishes holds, in each bucket, exactly the decodes filed
   * there and nothing else, in non-increasing SNR with ties in arrival order;
   * together with the dropped decodes the three buckets are the buffer.
   */
  lemma {:induction false} FlushBuckets(r: seq<Decode>, deCall: string)
    requires r != []
    requires forall i :: 0 <= i < |r| ==> Classify(r[i].message, deCall) != Malformed
    ensures FlushOutcome(r, deCall).Calls?
    ensures var f := FlushOutcome(r, deCall); var filed := Filing(deCall);
      && Descending(f.pota) && Descending(f.me) && Descending(f.cq)
      && (forall x :: x in f.pota <==> x in r && filed(x) == Pota)
      && (forall x :: x in f.me <==> x in r && filed(x) == Me)
      && (forall x :: x in f.cq <==> x in r && filed(x) == Cq)
      && multiset(f.pota) + multiset(f.me) + multiset(f.cq) + multiset(Select(r, filed, Dropped))
           == multiset(r)
      && (forall v :: WithSnr(f.pota, v) == WithSnr(Select(r, filed, Pota), v))
      && (forall v :: WithSnr(f.me, v) == WithSnr(Select(r, filed, Me), v))
      && (forall v :: WithSnr(f.cq, v) == WithSnr(Select(r, filed, Cq), v))
  {
    var filed := Filing(deCall);
    var p, m, c := Select(r, filed, Pota), Select(r, filed, Me), Select(r, filed, Cq);
    FlushPublishes(r, deCall);
    SelectMembers(r, filed, Pota);
    SelectMembers(r, filed, Me);
    SelectMembers(r, filed, Cq);
    SortedBucket(p);
    SortedBucket(m);
    SortedBucket(c);
    BucketsPartition(r, filed);
  }
}
