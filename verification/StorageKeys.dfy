/** Resource keys as strings, and what splitting them at `/` makes of them. */
module StorageKeys {
  /** `s.split("/")`. */
  function Split(s: string): (parts: seq<string>)
    ensures parts != []
  {
    if s == "" then [""]
    else if s[0] == '/' then [""] + Split(s[1..])
    else [[s[0]] + Split(s[1..])[0]] + Split(s[1..])[1..]
  }

  /** `parts.join("/")`. */
  function Join(parts: seq<string>): string {
    if parts == [] then "" else if |parts| == 1 then parts[0] else parts[0] + "/" + Join(parts[1..])
  }

  predicate Plain(part: string) {
    '/' !in part
  }

  lemma {:induction false} SplitPlain(part: string)
    requires Plain(part)
    ensures Split(part) == [part]
  {
    if part != "" {
      assert part == [part[0]] + part[1..];
      SplitPlain(part[1..]);
    }
  }

  lemma {:induction false} SplitAppend(a: string, b: string)
    ensures Split(a + "/" + b) == Split(a) + Split(b)
  {
    var s := a + "/" + b;
    if a == "" {
      assert s[1..] == b;
    } else {
      assert s[1..] == a[1..] + "/" + b;
      SplitAppend(a[1..], b);
    }
  }

  lemma {:induction false} SplitJoin(parts: seq<string>)
    requires parts != [] && forall i :: 0 <= i < |parts| ==> Plain(parts[i])
    ensures Split(Join(parts)) == parts
  {
    SplitPlain(parts[0]);
    if |parts| > 1 {
      SplitJoin(parts[1..]);
      SplitAppend(parts[0], Join(parts[1..]));
    }
  }

  lemma {:induction false} JoinSplit(s: string)
    ensures Join(Split(s)) == s
    ensures forall i :: 0 <= i < |Split(s)| ==> Plain(Split(s)[i])
  {
    if s != "" {
      JoinSplit(s[1..]);
      JoinOne(s[0], Split(s[1..]));
      assert s == [s[0]] + s[1..];
    }
  }

  lemma JoinOne(c: char, rest: seq<string>)
    requires rest != []
    ensures Join([""] + rest) == "/" + Join(rest)
    ensures Join([[c] + rest[0]] + rest[1..]) == [c] + Join(rest)
  {
    var all := [[c] + rest[0]] + rest[1..];
    assert ([""] + rest)[1..] == rest && all[1..] == rest[1..];
    Prefixed("", rest);
    if |rest| > 1 {
      var tail := Join(rest[1..]);
      hide Join;
      Regroup([c], rest[0], tail);
    }
  }

  lemma Prefixed(first: string, rest: seq<string>)
    requires rest != []
    ensures Join([first] + rest) == first + "/" + Join(rest)
    ensures "" + "/" + Join(rest) == "/" + Join(rest)
  {
    assert ([first] + rest)[1..] == rest;
  }

  lemma Regroup(a: string, b: string, c: string)
    ensures (a + b) + "/" + c == a + (b + "/" + c)
  {
  }

  lemma {:induction false} JoinAppend(a: seq<string>, b: seq<string>)
    requires a != [] && b != []
    ensures Join(a + b) == Join(a) + "/" + Join(b)
  {
    if |a| == 1 {
      assert (a + b)[1..] == b;
    } else {
      assert (a + b)[1..] == a[1..] + b;
      JoinAppend(a[1..], b);
    }
  }

  lemma SplitInjective(a: string, b: string)
    requires Split(a) == Split(b)
    ensures a == b
  {
    JoinSplit(a);
    JoinSplit(b);
  }

  /** `starts_with`. */
  predicate StartsWith(s: string, prefix: string) {
    prefix <= s
  }

  /** A key lies below another exactly when its components properly extend the other's. */
  lemma BelowMeansComponents(a: string, b: string)
    ensures StartsWith(b, a + "/") <==> Split(a) < Split(b)
  {
    if StartsWith(b, a + "/") {
      var rest := b[|a + "/"|..];
      assert b == a + "/" + rest;
      SplitAppend(a, rest);
    }
    if Split(a) < Split(b) {
      var rest := Split(b)[|Split(a)|..];
      assert Split(b) == Split(a) + rest;
      JoinAppend(Split(a), rest);
      JoinSplit(a);
      JoinSplit(b);
    }
  }

  /** `resourceKeyAndAncestors`. */
  function KeyAndAncestors(key: string): seq<string> {
    var parts := Split(key);
    seq(|parts|, i requires 0 <= i < |parts| => Join(parts[..i + 1]))
  }

  /** The listed keys are exactly those whose components begin the key's own. */
  lemma AncestorsAreBeginnings(key: string, k: string)
    ensures k in KeyAndAncestors(key) <==> Split(k) <= Split(key)
  {
    var parts := Split(key);
    JoinSplit(key);
    JoinSplit(k);
    hide Split, Join;
    if k in KeyAndAncestors(key) {
      var i :| 0 <= i < |parts| && Join(parts[..i + 1]) == k;
      SplitJoin(parts[..i + 1]);
    }
    if Split(k) <= parts {
      var n := |Split(k)|;
      assert parts[..n] == Split(k);
      assert KeyAndAncestors(key)[n - 1] == Join(parts[..n]);
    }
  }
}
