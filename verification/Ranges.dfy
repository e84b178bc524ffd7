/** Parts of a sequence, by their ends. Arrays and strings of the source are cut this way. */
module Ranges {
  /** The elements from `a` up to `b`. */
  function Range<T>(s: seq<T>, a: nat, b: nat): (r: seq<T>)
    requires a <= b <= |s|
    ensures |r| == b - a
    decreases b
  {
    if a == b then [] else Range(s, a, b - 1) + [s[b - 1]]
  }

  function From<T>(s: seq<T>, a: nat): (r: seq<T>)
    requires a <= |s|
    ensures |r| == |s| - a
  {
    Range(s, a, |s|)
  }

  lemma {:induction false} Assoc<T>(a: seq<T>, b: seq<T>, c: seq<T>)
    ensures a + (b + c) == a + b + c
  {
  }

  lemma {:induction false} NothingAdded<T>(s: seq<T>)
    ensures s + [] == s && [] + s == s
  {
  }

  lemma {:induction false} RangeAt<T>(s: seq<T>, a: nat, b: nat, i: nat)
    requires a <= i < b <= |s|
    ensures Range(s, a, b)[i - a] == s[i]
    decreases b
  {
    if i < b - 1 {
      RangeAt(s, a, b - 1, i);
    }
  }

  lemma {:induction false} RangeSplits<T>(s: seq<T>, a: nat, b: nat, c: nat)
    requires a <= b <= c <= |s|
    ensures Range(s, a, b) + Range(s, b, c) == Range(s, a, c)
    decreases c
  {
    if b < c {
      RangeSplits(s, a, b, c - 1);
      Assoc(Range(s, a, b), Range(s, b, c - 1), [s[c - 1]]);
    } else {
      NothingAdded(Range(s, a, b));
    }
  }

  lemma {:induction false} RangeOfRange<T>(s: seq<T>, start: nat, end: nat, a: nat, b: nat)
    requires start <= a <= b <= end <= |s|
    ensures Range(Range(s, start, end), a - start, b - start) == Range(s, a, b)
    decreases b
  {
    if a < b {
      RangeOfRange(s, start, end, a, b - 1);
      RangeAt(s, start, end, b - 1);
    }
  }

  lemma {:induction false} RangeOfFirst<T>(x: seq<T>, y: seq<T>, a: nat, b: nat)
    requires a <= b <= |x|
    ensures Range(x + y, a, b) == Range(x, a, b)
    decreases b
  {
    if a < b {
      RangeOfFirst(x, y, a, b - 1);
    }
  }

  lemma {:induction false} RangeOfSecond<T>(x: seq<T>, y: seq<T>, b: nat)
    requires b <= |y|
    ensures Range(x + y, |x|, |x| + b) == Range(y, 0, b)
    decreases b
  {
    if b > 0 {
      RangeOfSecond(x, y, b - 1);
      assert (x + y)[|x| + b - 1] == y[b - 1];
    }
  }

  lemma {:induction false} RangeElements<T>(s: seq<T>, a: nat, b: nat, t: seq<T>)
    requires a <= b <= |s| && |t| == b - a && forall i :: 0 <= i < |t| ==> t[i] == s[a + i]
    ensures Range(s, a, b) == t
  {
    forall i | 0 <= i < |t|
      ensures Range(s, a, b)[i] == t[i]
    {
      RangeAt(s, a, b, a + i);
    }
  }

  lemma {:induction false} WholeRange<T>(s: seq<T>)
    ensures Range(s, 0, |s|) == s
  {
    RangeElements(s, 0, |s|, s);
  }

  lemma {:induction false} RangeMembers<T>(s: seq<T>, a: nat, b: nat, x: T)
    requires a <= b <= |s|
    ensures x in Range(s, a, b) <==> exists i :: a <= i < b && s[i] == x
  {
    if i :| a <= i < b && s[i] == x {
      RangeAt(s, a, b, i);
    }
    if x in Range(s, a, b) {
      var k :| 0 <= k < b - a && Range(s, a, b)[k] == x;
      RangeAt(s, a, b, a + k);
    }
  }
}
