/** Holding derived locks means having one's paths to oneself. */
module LockedPaths {
  import opened Common
  import opened StorageKeys
  import opened ResourceLocks
  import opened Paths
  import opened Disk
  import opened Steps
  import opened Effects
  import opened Serialisability

  /** A path whose names hold no separator: what a normalised storage key is split into. */
  predicate Canonical(p: Path) {
    p != [] && forall i :: 0 <= i < |p| ==> Plain(p[i])
  }

  function OwnerKey(owner: string): string {
    OWNER_PREFIX + owner
  }

  /** `storagePathResourceKey`. */
  function PathKey(owner: string, p: Path): string {
    OwnerKey(owner) + "/" + Join(p)
  }

  function AllKeys(steps: seq<Step>): set<Path> {
    set i, p | 0 <= i < |steps| && p in KeysOf(steps[i]) :: p
  }

  /** `deriveStorageMutationResourceKeys` for a user mutation. */
  function DerivedKeys(owner: string, steps: seq<Step>): set<string> {
    if AllKeys(steps) == {} then {OwnerKey(owner)} else set p | p in AllKeys(steps) :: PathKey(owner, p)
  }

  lemma KeyComponents(owner: string, p: Path)
    requires Plain(owner) && Canonical(p)
    ensures Split(PathKey(owner, p)) == [OwnerKey(owner)] + p
  {
    SplitAppend(OwnerKey(owner), Join(p));
    SplitPlain(OwnerKey(owner));
    SplitJoin(p);
  }

  lemma KeyHasOwner(owner: string, p: Path)
    requires Plain(owner) && owner != "" && Canonical(p)
    ensures IsOwnerKey(PathKey(owner, p))
  {
    var key := PathKey(owner, p);
    assert key[|OWNER_PREFIX|..] == owner + "/" + Join(p);
    SplitAppend(owner, Join(p));
    SplitPlain(owner);
  }

  /** Two path locks of an owner overlap exactly when one path contains the other. */
  lemma OverlapMeansInside(owner: string, a: Path, b: Path)
    requires Plain(owner) && Canonical(a) && Canonical(b)
    ensures Overlap(PathKey(owner, a), PathKey(owner, b)) <==> !Apart(a, b)
  {
    KeyComponents(owner, a);
    KeyComponents(owner, b);
    PrefixMeansInside(OwnerKey(owner), a, b);
    PrefixMeansInside(OwnerKey(owner), b, a);
  }

  lemma PrefixMeansInside(x: string, a: Path, b: Path)
    ensures [x] + a <= [x] + b <==> Inside(a, b)
  {
    if [x] + a <= [x] + b {
      assert forall i | 0 <= i < |a| :: a[i] == ([x] + a)[i + 1] == ([x] + b)[i + 1] == b[i];
    }
  }

  ghost predicate Collide(x: set<string>, y: set<string>) {
    exists a <- x, b <- y :: Overlap(a, b)
  }

  predicate NoPaths(steps: seq<Step>) {
    forall i | 0 <= i < |steps| :: KeysOf(steps[i]) == {}
  }

  /** A path of a step of one is, contains or lies in a path of a step of the other. */
  ghost predicate Meet(a: seq<Step>, b: seq<Step>) {
    exists i, j | 0 <= i < |a| && 0 <= j < |b| :: !StepsApart(a[i], b[j])
  }

  /**
   * The derived locks of two mutations of one owner collide exactly if one path
   * contains another, or one of them has no path and so takes the whole account.
   */
  lemma DerivedKeysCollideExactly(owner: string, a: seq<Step>, b: seq<Step>)
    requires Plain(owner) && CanonicalSteps(a) && CanonicalSteps(b)
    ensures Collide(DerivedKeys(owner, a), DerivedKeys(owner, b)) <==> NoPaths(a) || NoPaths(b) || Meet(a, b)
  {
    AccountHoldsAll(owner, a);
    AccountHoldsAll(owner, b);
    NoPathsNoKeys(a);
    NoPathsNoKeys(b);
    MeetMeans(a, b);
    forall p, q | p in AllKeys(a) && q in AllKeys(b)
      ensures Overlap(PathKey(owner, p), PathKey(owner, q)) <==> !Apart(p, q)
    {
      OverlapMeansInside(owner, p, q);
    }
    hide Overlap, PathKey, OwnerKey, Apart, AllKeys, Meet, NoPaths;
    if AllKeys(a) != {} && AllKeys(b) != {} {
      if p, q :| p in AllKeys(a) && q in AllKeys(b) && !Apart(p, q) {
        assert PathKey(owner, p) in DerivedKeys(owner, a) && PathKey(owner, q) in DerivedKeys(owner, b);
      }
    }
  }

  lemma NoPathsNoKeys(steps: seq<Step>)
    ensures NoPaths(steps) <==> AllKeys(steps) == {}
  {
    forall i, p | 0 <= i < |steps| && p in KeysOf(steps[i]) ensures p in AllKeys(steps) {}
  }

  lemma MeetMeans(a: seq<Step>, b: seq<Step>)
    ensures Meet(a, b) <==> exists p <- AllKeys(a), q <- AllKeys(b) :: !Apart(p, q)
  {
    if p, q :| p in AllKeys(a) && q in AllKeys(b) && !Apart(p, q) {
      var i :| 0 <= i < |a| && p in KeysOf(a[i]);
      var j :| 0 <= j < |b| && q in KeysOf(b[j]);
      assert !StepsApart(a[i], b[j]);
    }
    if Meet(a, b) {
      var i, j :| 0 <= i < |a| && 0 <= j < |b| && !StepsApart(a[i], b[j]);
      var p, q :| p in KeysOf(a[i]) && q in KeysOf(b[j]) && !Apart(p, q);
      assert p in AllKeys(a) && q in AllKeys(b);
    }
  }

  /** Every lock of the owner overlaps with the one of the account. */
  lemma AccountHoldsAll(owner: string, steps: seq<Step>)
    requires Plain(owner) && CanonicalSteps(steps)
    ensures DerivedKeys(owner, steps) != {}
    ensures forall y <- DerivedKeys(owner, steps) :: Overlap(OwnerKey(owner), y) && Overlap(y, OwnerKey(owner))
  {
    SplitPlain(OwnerKey(owner));
    if p :| p in AllKeys(steps) { assert PathKey(owner, p) in DerivedKeys(owner, steps); }
    forall p | p in AllKeys(steps)
      ensures Overlap(OwnerKey(owner), PathKey(owner, p))
    {
      KeyComponents(owner, p);
    }
  }
  ghost predicate Holds(held: Held, id: string, keys: set<string>) {
    forall k <- keys :: k in held && held[k] == id
  }

  predicate CanonicalSteps(steps: seq<Step>) {
    forall i, p | 0 <= i < |steps| && p in KeysOf(steps[i]) :: Canonical(p)
  }

  lemma HoldersAreApart(held: Held, owner: string, m: string, n: string, a: seq<Step>, b: seq<Step>)
    requires LockTree(held) && m != n && Plain(owner) && owner != "" && CanonicalSteps(a) && CanonicalSteps(b)
    requires Holds(held, m, DerivedKeys(owner, a)) && Holds(held, n, DerivedKeys(owner, b))
    ensures AllApart(a, b)
  {
    forall i, j | 0 <= i < |a| && 0 <= j < |b|
      ensures StepsApart(a[i], b[j])
    {
      forall x <- KeysOf(a[i]), y <- KeysOf(b[j])
        ensures Apart(x, y)
      {
        assert x in AllKeys(a) && y in AllKeys(b);
        assert PathKey(owner, x) in DerivedKeys(owner, a) && PathKey(owner, y) in DerivedKeys(owner, b);
        KeyHasOwner(owner, x);
        KeyHasOwner(owner, y);
        OverlapMeansInside(owner, x, y);
      }
    }
  }

  /**
   * Two mutations of one owner that hold their derived locks at the same time:
   * however their forward steps interleave, and whichever of them stop, the disk
   * ends as if one had run wholly before the other.
   */
  lemma LockedRunsAreSerial(d: Disk, held: Held, owner: string, m: string, n: string,
    a: seq<Step>, b: seq<Step>, turns: seq<bool>)
    requires IsTree(d) && AllForward(a) && AllForward(b) && Enough(a, b, turns)
    requires LockTree(held) && m != n && Plain(owner) && owner != "" && CanonicalSteps(a) && CanonicalSteps(b)
    requires Holds(held, m, DerivedKeys(owner, a)) && Holds(held, n, DerivedKeys(owner, b))
    ensures OneThenOther(d, a, b, Together(d, a, b, turns))
  {
    HoldersAreApart(held, owner, m, n, a, b);
    Serial(d, a, b, turns);
  }
}
