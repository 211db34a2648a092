/**
 * The storage filesystem as a map from paths to nodes, and what the calls the
 * executor makes on it do.  A path is its list of names below the storage root.
 */
module Disk {
  import opened Common
  import opened Paths

  /** File contents stand for their own checksum: hashing is taken to be injective. */
  type Bytes = seq<int>

  datatype Node = DirNode | FileNode(bytes: Bytes)

  type Disk = map<Path, Node>

  function Lookup(d: Disk, p: Path): Option<Node> {
    if p in d then Some(d[p]) else None
  }

  /** Every node sits in a directory. */
  ghost predicate IsTree(d: Disk) {
    [] !in d && forall p {:trigger HasFolder(d, p)} | p in d :: HasFolder(d, p)
  }

  predicate HasFolder(d: Disk, p: Path)
    requires p != []
  {
    |p| == 1 || Lookup(d, Parent(p)) == Some(DirNode)
  }

  /** The files alone: what two disks are compared by. */
  function Files(d: Disk): map<Path, Bytes> {
    map p | p in d && d[p].FileNode? :: d[p].bytes
  }

  /** No folder on the way to `p` is anything but a directory (where it exists). */
  predicate SafeAncestors(d: Disk, p: Path) {
    forall i | 0 < i < |p| :: p[..i] in d ==> d[p[..i]] == DirNode
  }

  // -------------------------------------------------------------- filesystem calls

  /** `mkdir` of the first `upTo` folders of `p`, skipping those that exist. */
  function WithFolders(d: Disk, p: Path, upTo: nat): Disk {
    d + map q | q in (set i | 0 < i <= upTo && i <= |p| :: p[..i]) && q !in d :: DirNode
  }

  /** The tree at `top`, by paths relative to it. */
  function Contents(d: Disk, top: Path): Disk {
    map q | q in (set p | p in d && StrictlyInside(top, p) :: p[|top|..]) && top + q in d :: d[top + q]
  }

  /** What is at `q` after a rename. */
  function Landed(d: Disk, source: Path, target: Path, q: Path): Option<Node> {
    if Inside(target, q) then Lookup(d, source + q[|target|..])
    else if Inside(source, q) then None
    else Lookup(d, q)
  }

  /** `rename`: the node at `source` and everything inside it, now at `target`. */
  function Renamed(d: Disk, source: Path, target: Path): Disk {
    map q | q in d.Keys + (set p | p in d && Inside(source, p) :: target + p[|source|..])
            && Landed(d, source, target, q).Some? :: Landed(d, source, target, q).value
  }

  function Without(d: Disk, top: Path): Disk {
    map p | p in d && !Inside(top, p) :: d[p]
  }

  predicate IsEmpty(d: Disk, top: Path) {
    forall p <- d :: !StrictlyInside(top, p)
  }

  // ------------------------------------------------------------------ what they mean

  lemma SameDisk(a: Disk, b: Disk)
    requires forall p :: Lookup(a, p) == Lookup(b, p)
    ensures a == b
  {
    forall p ensures p in a <==> p in b { assert Lookup(a, p) == Lookup(b, p); }
    forall p | p in a ensures a[p] == b[p] { assert Lookup(a, p) == Lookup(b, p); }
  }

  lemma WithFoldersAt(d: Disk, p: Path, upTo: nat, q: Path)
    ensures Lookup(WithFolders(d, p, upTo), q) ==
            if q in d then Some(d[q])
            else if q != [] && |q| <= upTo && Inside(q, p) then Some(DirNode) else None
  {
    if q != [] && |q| <= upTo && Inside(q, p) {
      assert q == p[..|q|];
    }
  }

  lemma ContentsAt(d: Disk, top: Path, q: Path)
    ensures Lookup(Contents(d, top), q) == if q == [] then None else Lookup(d, top + q)
  {
    assert (top + q)[..|top|] == top && (top + q)[|top|..] == q;
    if q in Contents(d, top) {
      var p :| p in d && StrictlyInside(top, p) && p[|top|..] == q;
      assert p == top + q;
    } else if q != [] && top + q in d {
      assert StrictlyInside(top, top + q);
    }
  }

  lemma RenamedAt(d: Disk, source: Path, target: Path, q: Path)
    ensures Lookup(Renamed(d, source, target), q) == Landed(d, source, target, q)
  {
    if Inside(target, q) {
      var p := source + q[|target|..];
      assert q == target + q[|target|..];
      assert p[..|source|] == source && p[|source|..] == q[|target|..];
      if p in d {
        assert Inside(source, p) && target + p[|source|..] == q;
      }
    }
  }
}
