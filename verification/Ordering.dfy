/** How names and storage keys are ordered: names by their characters, keys name by name. */
module Ordering {
  import opened StorageKeys

  /** `left < right` of two names. */
  predicate Less(left: string, right: string)
    decreases |right|
  {
    right != "" && (left == "" || (if left[0] == right[0] then Less(left[1..], right[1..]) else left[0] < right[0]))
  }

  /** One list of names comes before another: at the first difference, or as its beginning. */
  predicate Before(left: seq<string>, right: seq<string>)
    decreases |right|
  {
    right != [] &&
    (left == [] || (if left[0] == right[0] then Before(left[1..], right[1..]) else Less(left[0], right[0])))
  }

  lemma {:induction false} LessIsTotal(a: string, b: string)
    ensures a == b || Less(a, b) || Less(b, a)
    ensures !(Less(a, b) && Less(b, a)) && !Less(a, a)
    decreases |a|
  {
    if a != "" {
      LessIsTotal(a[1..], a[1..]);
      if b != "" {
        LessIsTotal(a[1..], b[1..]);
        if a[0] == b[0] && a[1..] == b[1..] {
          assert a == [a[0]] + a[1..] && b == [b[0]] + b[1..];
        }
      }
    }
  }

  lemma {:induction false} LessIsTransitive(a: string, b: string, c: string)
    requires Less(a, b) && Less(b, c)
    ensures Less(a, c)
    decreases |a|
  {
    if a != "" && a[0] == b[0] == c[0] { LessIsTransitive(a[1..], b[1..], c[1..]); }
  }

  lemma {:induction false} BeforeIsTotal(a: seq<string>, b: seq<string>)
    ensures a == b || Before(a, b) || Before(b, a)
    ensures !(Before(a, b) && Before(b, a)) && !Before(a, a)
    decreases |a|
  {
    if a != [] {
      BeforeIsTotal(a[1..], a[1..]);
      if b != [] {
        LessIsTotal(a[0], b[0]);
        BeforeIsTotal(a[1..], b[1..]);
        if a[0] == b[0] && a[1..] == b[1..] {
          assert a == [a[0]] + a[1..] && b == [b[0]] + b[1..];
        }
      }
    }
  }

  lemma {:induction false} BeforeIsTransitive(a: seq<string>, b: seq<string>, c: seq<string>)
    requires Before(a, b) && Before(b, c)
    ensures Before(a, c)
    decreases |a|
  {
    if a != [] {
      LessIsTotal(a[0], b[0]);
      if a[0] == b[0] == c[0] { BeforeIsTransitive(a[1..], b[1..], c[1..]); }
      else if a[0] != b[0] && b[0] != c[0] { LessIsTransitive(a[0], b[0], c[0]); }
    }
  }

  lemma {:induction false} BeforeUnder(prefix: seq<string>, a: seq<string>, b: seq<string>)
    ensures Before(prefix + a, prefix + b) <==> Before(a, b)
    decreases |prefix|
  {
    if prefix == [] {
      assert prefix + a == a && prefix + b == b;
    } else {
      assert (prefix + a)[1..] == prefix[1..] + a && (prefix + b)[1..] == prefix[1..] + b;
      BeforeUnder(prefix[1..], a, b);
    }
  }

  /** `a` and `b` agree up to `n`; there `a` ends, or has the smaller character. */
  predicate SmallerAt(a: string, b: string, n: int) {
    0 <= n <= |a| && n < |b| && a[..n] == b[..n] && (n == |a| || a[n] < b[n])
  }

  lemma SameStart<T>(a: seq<T>, b: seq<T>, n: int)
    ensures 0 < n <= |a| && n <= |b| && a[..n] == b[..n] ==> a[0] == b[0]
  {
    if 0 < n <= |a| && n <= |b| && a[..n] == b[..n] { assert a[..n][0] == b[..n][0]; }
  }

  lemma {:induction false} LessExactly(a: string, b: string)
    ensures Less(a, b) <==> exists n :: SmallerAt(a, b, n)
    decreases |b|
  {
    if a != "" && b != "" && a[0] == b[0] {
      LessExactly(a[1..], b[1..]);
      if n :| SmallerAt(a[1..], b[1..], n) {
        assert a[..n + 1] == [a[0]] + a[1..][..n] && b[..n + 1] == [b[0]] + b[1..][..n];
        assert SmallerAt(a, b, n + 1);
      }
      if n :| SmallerAt(a, b, n) {
        assert n > 0 && a[1..][..n - 1] == a[..n][1..] && b[1..][..n - 1] == b[..n][1..];
        assert SmallerAt(a[1..], b[1..], n - 1);
      }
    } else {
      if n :| SmallerAt(a, b, n) { SameStart(a, b, n); }
      if Less(a, b) { assert SmallerAt(a, b, 0); }
    }
  }

  /** `a` and `b` agree up to `n`; there `a` ends, or has the smaller name. */
  ghost predicate EarlierAt(a: seq<string>, b: seq<string>, n: int) {
    0 <= n <= |a| && n < |b| && a[..n] == b[..n] && (n == |a| || exists k :: SmallerAt(a[n], b[n], k))
  }

  /** Keys are in order by the first name in which they differ, and names by the first character. */
  lemma {:induction false} BeforeExactly(a: seq<string>, b: seq<string>)
    ensures Before(a, b) <==> exists n :: EarlierAt(a, b, n)
    decreases |b|
  {
    if a != [] && b != [] && a[0] == b[0] {
      BeforeExactly(a[1..], b[1..]);
      if n :| EarlierAt(a[1..], b[1..], n) {
        assert a[..n + 1] == [a[0]] + a[1..][..n] && b[..n + 1] == [b[0]] + b[1..][..n];
        assert EarlierAt(a, b, n + 1);
      }
      if n :| EarlierAt(a, b, n) {
        if n == 0 { LessExactly(a[0], b[0]); LessIsTotal(a[0], b[0]); }
        assert n > 0 && a[1..][..n - 1] == a[..n][1..] && b[1..][..n - 1] == b[..n][1..];
        assert EarlierAt(a[1..], b[1..], n - 1);
      }
    } else {
      if a != [] && b != [] { LessExactly(a[0], b[0]); }
      if n :| EarlierAt(a, b, n) { SameStart(a, b, n); }
      if Before(a, b) { assert EarlierAt(a, b, 0); }
    }
  }

  /** `compareKeys`: negative exactly when the left key's names come first. */
  method CompareKeys(left: string, right: string) returns (order: int)
    ensures order < 0 <==> Before(Split(left), Split(right))
    ensures order > 0 <==> Before(Split(right), Split(left))
    ensures order == 0 <==> left == right
    ensures order < 0 <==> exists n :: EarlierAt(Split(left), Split(right), n)
  {
    var a, b := Split(left), Split(right);
    BeforeExactly(a, b);
    var index := 0;
    BeforeIsTotal(a, b);
    while index < |a| && index < |b|
      invariant index <= |a| && index <= |b| && a[..index] == b[..index]
      invariant Before(a, b) <==> Before(a[index..], b[index..])
      invariant Before(b, a) <==> Before(b[index..], a[index..])
    {
      LessIsTotal(a[index], b[index]);
      if Less(a[index], b[index]) { return -1; }
      if Less(b[index], a[index]) { return 1; }
      assert a[index..][1..] == a[index + 1..] && b[index..][1..] == b[index + 1..];
      index := index + 1;
    }
    if a == b { SplitInjective(left, right); }
    assert |a| == |b| ==> a == a[..index] && b == b[..index];
    return |a| - |b|;
  }
}
