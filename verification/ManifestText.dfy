/**
 * Writing manifest records out, one by one and as a whole.  The current
 * encoding puts each record's length before it, and loses nothing; the older
 * one, a line each, loses nothing while no name holds a line break.
 */
module ManifestText {
  import opened StorageKeys
  import opened Manifest

  function Digit(n: nat): char
    requires n < 10
  {
    ("0123456789")[n]
  }

  /** A number in decimal. */
  function Digits(n: nat): (text: string)
    ensures text != "" && forall c <- text :: c in "0123456789"
  {
    if n < 10 then [Digit(n)] else Digits(n / 10) + [Digit(n % 10)]
  }

  function RecordText(record: Rec): string {
    match record
    case D(path) => "D " + Join(path)
    case F(path, size, checksum) => "F " + Join(path) + " " + Digits(size) + " " + checksum
  }

  /** What `hashTreeManifestRecords` feeds the hash. */
  function Encoded(texts: seq<string>): string {
    if texts == [] then "" else Digits(|texts[0]|) + ":" + texts[0] + Encoded(texts[1..])
  }

  /** What `hashLegacyTreeManifestRecords` does. */
  function Lines(texts: seq<string>): string {
    if texts == [] then "" else if |texts| == 1 then texts[0] else texts[0] + "\n" + Lines(texts[1..])
  }

  function Texts(records: seq<Rec>): seq<string> {
    seq(|records|, i requires 0 <= i < |records| => RecordText(records[i]))
  }

  // ------------------------------------------------------------------------- numbers

  lemma {:induction false} DigitsDiffer(m: nat, n: nat)
    requires Digits(m) == Digits(n)
    ensures m == n
    decreases m
  {
    var a, b := Digits(m), Digits(n);
    assert a[|a| - 1] == Digit(m % 10) && b[|b| - 1] == Digit(n % 10);
    DigitsAreDifferent(m % 10, n % 10);
    if m >= 10 && n >= 10 {
      assert Digits(m / 10) == a[..|a| - 1] == b[..|b| - 1] == Digits(n / 10);
      DigitsDiffer(m / 10, n / 10);
    }
  }

  lemma DigitsAreDifferent(m: nat, n: nat)
    requires m < 10 && n < 10 && Digit(m) == Digit(n)
    ensures m == n
  {
  }

  // ------------------------------------------------------------------------ splitting

  /** Text up to the first `c` is unambiguous. */
  lemma FirstPart(a: string, x: string, b: string, y: string, c: char)
    requires a + [c] + x == b + [c] + y && c !in a && c !in b
    ensures a == b && x == y
  {
    var s := a + [c] + x;
    assert s[|a|] == c && (b + [c] + y)[|b|] == c;
    assert forall k | 0 <= k < |a| :: s[k] == a[k];
    assert forall k | 0 <= k < |b| :: (b + [c] + y)[k] == b[k];
    assert s[..|a|] == a && s[..|b|] == b;
    assert s[|a| + 1..] == x && s[|b| + 1..] == y;
  }

  /** Text after the last `c` is unambiguous. */
  lemma LastPart(a: string, x: string, b: string, y: string, c: char)
    requires a + [c] + x == b + [c] + y && c !in x && c !in y
    ensures a == b && x == y
  {
    var s := a + [c] + x;
    assert s[|a|] == c && (b + [c] + y)[|b|] == c;
    assert forall k | |a| < k < |s| :: s[k] == x[k - |a| - 1];
    assert forall k | |b| < k < |s| :: (b + [c] + y)[k] == y[k - |b| - 1];
    assert s[..|a|] == a && s[..|b|] == b;
    assert s[|a| + 1..] == x && s[|b| + 1..] == y;
  }

  // ---------------------------------------------------------------------- injectivity

  predicate ProperRec(record: Rec) {
    && record.path != [] && (forall i :: 0 <= i < |record.path| ==> Plain(record.path[i]))
    && (record.F? ==> ' ' !in record.checksum)
  }

  /** Different entries give different records, whatever their names are. */
  lemma RecordsDiffer(a: Rec, b: Rec)
    requires ProperRec(a) && ProperRec(b) && RecordText(a) == RecordText(b)
    ensures a == b
  {
    assert RecordText(a)[0] == (if a.D? then 'D' else 'F') && RecordText(b)[0] == (if b.D? then 'D' else 'F');
    SplitJoin(a.path);
    SplitJoin(b.path);
    if a.D? {
      assert RecordText(a)[2..] == Join(a.path) && RecordText(b)[2..] == Join(b.path);
    } else {
      var fa, fb := "F " + Join(a.path), "F " + Join(b.path);
      var da, db := Digits(a.sizeBytes), Digits(b.sizeBytes);
      assert RecordText(a) == (fa + [' '] + da) + [' '] + a.checksum;
      assert RecordText(b) == (fb + [' '] + db) + [' '] + b.checksum;
      LastPart(fa + [' '] + da, a.checksum, fb + [' '] + db, b.checksum, ' ');
      LastPart(fa, da, fb, db, ' ');
      DigitsDiffer(a.sizeBytes, b.sizeBytes);
      assert fa[2..] == Join(a.path) && fb[2..] == Join(b.path);
    }
  }

  /** Different lists of records never give the same bytes. */
  lemma {:induction false} EncodedDiffer(a: seq<string>, b: seq<string>)
    requires Encoded(a) == Encoded(b)
    ensures a == b
  {
    if a == [] || b == [] {
    } else {
      var da, db := Digits(|a[0]|), Digits(|b[0]|);
      var xa, xb := a[0] + Encoded(a[1..]), b[0] + Encoded(b[1..]);
      assert Encoded(a) == da + [':'] + xa && Encoded(b) == db + [':'] + xb;
      FirstPart(da, xa, db, xb, ':');
      DigitsDiffer(|a[0]|, |b[0]|);
      assert xa[..|a[0]|] == a[0] && xb[..|b[0]|] == b[0];
      assert xa[|a[0]|..] == Encoded(a[1..]) && xb[|b[0]|..] == Encoded(b[1..]);
      EncodedDiffer(a[1..], b[1..]);
      assert a == [a[0]] + a[1..] && b == [b[0]] + b[1..];
    }
  }

  predicate Hexadecimal(entries: seq<Entry>) {
    forall e <- entries :: if e.File? then ' ' !in e.checksum else Hexadecimal(e.children)
  }

  lemma {:induction false} FlatIsProper(entries: seq<Entry>, prefix: seq<string>)
    requires Proper(entries) && Hexadecimal(entries) && forall i :: 0 <= i < |prefix| ==> Plain(prefix[i])
    ensures forall r <- Flat(entries, prefix) :: ProperRec(r)
    decreases entries
  {
    if entries != [] {
      var e := entries[0];
      if e.Dir? { FlatIsProper(e.children, prefix + [e.name]); }
      FlatIsProper(entries[1..], prefix);
    }
  }

  lemma WalkIsProper(entries: seq<Entry>)
    requires Proper(entries) && Hexadecimal(entries)
    ensures forall i :: 0 <= i < |Walk(entries, [])| ==> ProperRec(Walk(entries, [])[i])
  {
    FlatIsProper(entries, []);
    WalkKeeps(entries, []);
    forall r <- Walk(entries, [])
      ensures ProperRec(r)
    {
      assert r in multiset(Walk(entries, []));
      assert r in Flat(entries, []);
    }
  }

  /**
   * Two trees with the same encoded manifest have the same at every path: with a hash
   * that never collides, a digest stands for the tree it was taken of.
   */
  lemma DigestStandsForTree(a: seq<Entry>, b: seq<Entry>)
    requires Proper(a) && Proper(b) && Hexadecimal(a) && Hexadecimal(b)
    requires Encoded(Texts(Walk(a, []))) == Encoded(Texts(Walk(b, [])))
    ensures forall path :: NodeAt(a, path) == NodeAt(b, path)
  {
    var wa, wb := Walk(a, []), Walk(b, []);
    WalkIsProper(a);
    WalkIsProper(b);
    hide Walk, Encoded, Proper, ProperRec;
    TextsDiffer(wa, wb);
    WalkKeeps(a, []);
    WalkKeeps(b, []);
    forall path { SameRecordsSameTree(a, b, path); }
  }

  lemma TextsDiffer(a: seq<Rec>, b: seq<Rec>)
    requires Encoded(Texts(a)) == Encoded(Texts(b))
    requires forall i :: 0 <= i < |a| ==> ProperRec(a[i])
    requires forall i :: 0 <= i < |b| ==> ProperRec(b[i])
    ensures a == b
  {
    EncodedDiffer(Texts(a), Texts(b));
    hide RecordText, ProperRec, Encoded;
    assert |a| == |Texts(a)| == |Texts(b)| == |b|;
    forall i | 0 <= i < |a|
      ensures a[i] == b[i]
    {
      assert Texts(a)[i] == RecordText(a[i]) && Texts(b)[i] == RecordText(b[i]);
      RecordsDiffer(a[i], b[i]);
    }
  }

  // ------------------------------------------------------------------ the older encoding

  predicate LineTexts(texts: seq<string>) {
    forall i :: 0 <= i < |texts| ==> texts[i] != "" && '\n' !in texts[i]
  }

  /** Lists of lines without a line break in them are told apart. */
  lemma {:induction false} LinesDiffer(a: seq<string>, b: seq<string>)
    requires Lines(a) == Lines(b) && LineTexts(a) && LineTexts(b)
    ensures a == b
    decreases a
  {
    if |a| <= 1 || |b| <= 1 {
      BreaksWhenMany(a);
      BreaksWhenMany(b);
      assert |a| == |b|;
      assert |a| == 1 ==> Lines(a) == a[0] && Lines(b) == b[0];
    } else {
      assert Lines(a) == a[0] + ['\n'] + Lines(a[1..]) && Lines(b) == b[0] + ['\n'] + Lines(b[1..]);
      FirstPart(a[0], Lines(a[1..]), b[0], Lines(b[1..]), '\n');
      LinesDiffer(a[1..], b[1..]);
      assert a == [a[0]] + a[1..] && b == [b[0]] + b[1..];
    }
  }

  /** The text tells no lines, one and many apart. */
  lemma BreaksWhenMany(texts: seq<string>)
    requires LineTexts(texts)
    ensures texts == [] <==> Lines(texts) == ""
    ensures |texts| > 1 <==> '\n' in Lines(texts)
  {
    if |texts| > 1 { assert Lines(texts)[|texts[0]|] == '\n'; }
  }

  lemma {:induction false} JoinHasNo(parts: seq<string>, c: char)
    requires c != '/' && forall part <- parts :: c !in part
    ensures c !in Join(parts)
  {
    if |parts| > 1 { JoinHasNo(parts[1..], c); }
  }

  predicate OneLine(record: Rec) {
    (forall name <- record.path :: '\n' !in name) && (record.F? ==> '\n' !in record.checksum)
  }

  lemma TextIsOneLine(record: Rec)
    requires OneLine(record)
    ensures RecordText(record) != "" && '\n' !in RecordText(record)
  {
    JoinHasNo(record.path, '\n');
  }

  /** No name in the tree holds a line break. */
  predicate Unbroken(entries: seq<Entry>) {
    forall e <- entries :: '\n' !in e.name && if e.File? then '\n' !in e.checksum else Unbroken(e.children)
  }

  lemma {:induction false} FlatIsOneLine(entries: seq<Entry>, prefix: seq<string>)
    requires Unbroken(entries) && forall name <- prefix :: '\n' !in name
    ensures forall r <- Flat(entries, prefix) :: OneLine(r)
    decreases entries
  {
    if entries != [] {
      var e := entries[0];
      assert e in entries;
      if e.Dir? { FlatIsOneLine(e.children, prefix + [e.name]); }
      FlatIsOneLine(entries[1..], prefix);
    }
  }

  lemma WalkIsOneLine(entries: seq<Entry>)
    requires Unbroken(entries)
    ensures forall i :: 0 <= i < |Walk(entries, [])| ==> OneLine(Walk(entries, [])[i])
  {
    FlatIsOneLine(entries, []);
    WalkKeeps(entries, []);
    forall r <- Walk(entries, [])
      ensures OneLine(r)
    {
      assert r in multiset(Walk(entries, []));
      assert r in Flat(entries, []);
    }
  }

  /** An older digest stands for its tree among the trees whose names hold no line break. */
  lemma OlderDigestStandsForTree(a: seq<Entry>, b: seq<Entry>)
    requires Proper(a) && Proper(b) && Hexadecimal(a) && Hexadecimal(b) && Unbroken(a) && Unbroken(b)
    requires Lines(Texts(Walk(a, []))) == Lines(Texts(Walk(b, [])))
    ensures forall path :: NodeAt(a, path) == NodeAt(b, path)
  {
    var wa, wb := Walk(a, []), Walk(b, []);
    WalkIsProper(a);
    WalkIsProper(b);
    WalkIsOneLine(a);
    WalkIsOneLine(b);
    hide Walk, Lines, Proper, ProperRec, OneLine;
    LineTextsDiffer(wa, wb);
    WalkKeeps(a, []);
    WalkKeeps(b, []);
    forall path { SameRecordsSameTree(a, b, path); }
  }

  lemma LineTextsDiffer(a: seq<Rec>, b: seq<Rec>)
    requires Lines(Texts(a)) == Lines(Texts(b))
    requires forall i :: 0 <= i < |a| ==> ProperRec(a[i]) && OneLine(a[i])
    requires forall i :: 0 <= i < |b| ==> ProperRec(b[i]) && OneLine(b[i])
    ensures a == b
  {
    hide RecordText, ProperRec, Lines, OneLine;
    forall i | 0 <= i < |a| ensures Texts(a)[i] != "" && '\n' !in Texts(a)[i] { TextIsOneLine(a[i]); }
    forall i | 0 <= i < |b| ensures Texts(b)[i] != "" && '\n' !in Texts(b)[i] { TextIsOneLine(b[i]); }
    LinesDiffer(Texts(a), Texts(b));
    assert |a| == |Texts(a)| == |Texts(b)| == |b|;
    forall i | 0 <= i < |a|
      ensures a[i] == b[i]
    {
      assert Texts(a)[i] == RecordText(a[i]) && Texts(b)[i] == RecordText(b[i]);
      RecordsDiffer(a[i], b[i]);
    }
  }

  /** The older encoding confuses two folders with one whose name holds a line break. */
  lemma LinesConfuse()
    ensures var two := [D(["a"]), D(["b"])];
            var one := [D(["a\nD b"])];
            && (forall r <- two + one :: ProperRec(r)) && two != one && Lines(Texts(two)) == Lines(Texts(one))
  {
    var two, one := [D(["a"]), D(["b"])], [D(["a\nD b"])];
    var texts := Texts(two);
    assert Join(["a"]) == "a" && Join(["b"]) == "b" && Join(["a\nD b"]) == "a\nD b";
    assert texts[0] == RecordText(two[0]) == "D a" && texts[1] == RecordText(two[1]) == "D b";
    assert Texts(one)[0] == RecordText(one[0]) == "D a\nD b";
    assert Lines(texts) == texts[0] + "\n" + Lines(texts[1..]);
  }
}
