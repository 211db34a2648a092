/**
 * The tree-shaped locks mutations hold while they run, and the one global lock
 * that excludes everybody.
 */
module ResourceLocks {
  import opened Common
  import opened StorageKeys

  /** The unreleased resources, each with the mutation that holds it (at most one a key). */
  type Held = map<string, string>

  const GLOBAL := "storage:global-recovery"
  const OWNER_PREFIX := "owner:"

  /** `ownerOfResourceKey`; the empty string stands for none. */
  function OwnerOf(key: string): string {
    if StartsWith(key, OWNER_PREFIX) then Split(key[|OWNER_PREFIX|..])[0] else ""
  }

  predicate IsOwnerKey(key: string) {
    OwnerOf(key) != ""
  }

  /** One key equals the other or contains it, component by component. */
  predicate Overlap(a: string, b: string) {
    Split(a) <= Split(b) || Split(b) <= Split(a)
  }

  datatype Verdict = Free | RecoveryRequired | InProgress

  /** The overlap query. */
  predicate Hit(existing: string, requested: string) {
    existing in KeyAndAncestors(requested) || StartsWith(existing, requested + "/")
  }

  predicate Blocks(held: Held, existing: string, keys: set<string>, self: string)
    requires existing in held
  {
    held[existing] != self && exists key :: key in keys && IsOwnerKey(key) && Hit(existing, key)
  }

  /** `acquireStorageMutationResources`. */
  function Check(held: Held, keys: set<string>, self: string): Verdict {
    if keys == {} then Free
    else if (if GLOBAL in keys then held != map[] else GLOBAL in held) then RecoveryRequired
    else if exists existing :: existing in held && Blocks(held, existing, keys, self) then InProgress
    else Free
  }

  /** The locks after `prepare`; a key that is already held violates the unique index. */
  function Prepared(held: Held, keys: set<string>, id: string): Option<Held> {
    if Check(held, keys, "") == Free && keys !! held.Keys then Some(held + map k | k in keys :: id) else None
  }

  /** The locks after a claim that asks for further keys. */
  function Claimed(held: Held, keys: set<string>, id: string): Option<Held> {
    if Check(held, keys, id) == Free && forall k <- keys :: k in held ==> held[k] == id
    then Some(held + map k | k in keys :: id) else None
  }

  function Released(held: Held, id: string): Held {
    map k | k in held && held[k] != id :: held[k]
  }

  // --------------------------------------------------------------------- the invariant

  ghost predicate LockTree(held: Held) {
    && (forall a, b | a in held && b in held && held[a] != held[b] && IsOwnerKey(a) && IsOwnerKey(b) :: !Overlap(a, b))
    && (GLOBAL in held ==> forall k <- held :: held[k] == held[GLOBAL])
  }

  /** The ancestor list and the prefix query together decide exactly the overlap. */
  lemma QueryDecidesOverlap(existing: string, requested: string)
    ensures Hit(existing, requested) <==> Overlap(existing, requested)
  {
    AncestorsAreBeginnings(requested, existing);
    BelowMeansComponents(requested, existing);
    if Split(existing) == Split(requested) { SplitInjective(existing, requested); }
  }

  lemma FreeMeansApart(held: Held, keys: set<string>, self: string, a: string, b: string)
    requires Check(held, keys, self) == Free && a in held && held[a] != self && b in keys && IsOwnerKey(b)
    ensures !Overlap(a, b) && !Overlap(b, a)
  {
    QueryDecidesOverlap(a, b);
    assert !Blocks(held, a, keys, self);
  }

  lemma TakenKeepsTree(held: Held, keys: set<string>, self: string, id: string)
    requires LockTree(held) && Check(held, keys, self) == Free
    requires forall k <- held :: held[k] == self ==> id == self
    requires forall k <- keys :: k in held ==> held[k] == id
    ensures LockTree(held + map k | k in keys :: id)
  {
    var after := held + map k | k in keys :: id;
    forall a, b | a in after && b in after && after[a] != after[b] && IsOwnerKey(a) && IsOwnerKey(b)
      ensures !Overlap(a, b)
    {
      if a in keys && b !in keys { FreeMeansApart(held, keys, self, b, a); }
      if b in keys && a !in keys { FreeMeansApart(held, keys, self, a, b); }
    }
  }

  /** Mutation ids are never empty, so `prepare` counts nobody's locks as its own. */
  ghost predicate RealIds(held: Held) {
    forall k <- held :: held[k] != ""
  }

  lemma PrepareKeepsTree(held: Held, keys: set<string>, id: string)
    requires LockTree(held) && RealIds(held) && id != "" && Prepared(held, keys, id).Some?
    ensures LockTree(Prepared(held, keys, id).value) && RealIds(Prepared(held, keys, id).value)
  {
    TakenKeepsTree(held, keys, "", id);
  }

  lemma ClaimKeepsTree(held: Held, keys: set<string>, id: string)
    requires LockTree(held) && RealIds(held) && id != "" && Claimed(held, keys, id).Some?
    ensures LockTree(Claimed(held, keys, id).value) && RealIds(Claimed(held, keys, id).value)
  {
    TakenKeepsTree(held, keys, id, id);
  }

  lemma ReleaseKeepsTree(held: Held, id: string)
    requires LockTree(held) && RealIds(held)
    ensures LockTree(Released(held, id)) && RealIds(Released(held, id))
  {
  }

  /** `prepare` is refused for overlaps and for the global lock, and for nothing else. */
  lemma PrepareRefusesExactly(held: Held, keys: set<string>, id: string)
    requires RealIds(held) && keys != {}
    ensures Prepared(held, keys, id).Some? <==>
            && keys !! held.Keys
            && (if GLOBAL in keys then held == map[] else GLOBAL !in held)
            && forall a <- held, b <- keys :: IsOwnerKey(b) ==> !Overlap(a, b)
  {
    forall a <- held, b <- keys
      ensures Hit(a, b) <==> Overlap(a, b)
    {
      QueryDecidesOverlap(a, b);
    }
    if Check(held, keys, "") == Free {
      forall a <- held, b <- keys | IsOwnerKey(b)
        ensures !Overlap(a, b)
      {
        FreeMeansApart(held, keys, "", a, b);
      }
    }
  }
}
