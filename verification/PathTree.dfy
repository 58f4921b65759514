/** A file tree keyed by path, and the system calls both halves of the driver make on it. */
module PathTree {
  import opened Wrappers
  import opened Documents

  /** The components of a cleaned path; the empty sequence stands for the empty string. */
  type Path = seq<string>

  datatype Node = Dir | File(text: Text) | Link(dest: Path) | Device(mode: nat)

  type Tree = map<Path, Node>

  /** `os.ModeDevice`. */
  const MODE_DEVICE: nat := 0x400_0000

  /** `filepath.EvalSymlinks` gives up after this many links. */
  const EVAL_LINKS: nat := 255

  /** The kernel gives up after this many links. */
  const KERNEL_LINKS: nat := 40

  function Lookup(t: Tree, p: Path): Option<Node> {
    if p in t then Some(t[p]) else None
  }

  function Parent(p: Path): Path
    requires p != []
  {
    p[..|p| - 1]
  }

  /** The root always exists. */
  predicate IsDir(t: Tree, p: Path) {
    p == [] || Lookup(t, p) == Some(Dir)
  }

  predicate HasChild(t: Tree, p: Path) {
    exists q | q in t :: p < q
  }

  /** Follows links at `p`, at most `hops` of them. */
  function Resolve(t: Tree, p: Path, hops: nat): Option<Path>
    decreases hops
  {
    match Lookup(t, p)
    case None => None
    case Some(Link(d)) => if hops == 0 then None else Resolve(t, d, hops - 1)
    case Some(_) => Some(p)
  }

  /** Where a file that is opened for writing at `p` lies or is created: links are followed even to a missing path. */
  function Follow(t: Tree, p: Path, hops: nat): Option<Path>
    decreases hops
  {
    match Lookup(t, p)
    case Some(Link(d)) => if hops == 0 then None else Follow(t, d, hops - 1)
    case _ => Some(p)
  }

  /** A directory, or a link to one. */
  predicate LeadsToDir(t: Tree, p: Path) {
    p == [] || match Resolve(t, p, KERNEL_LINKS)
               case Some(q) => Lookup(t, q) == Some(Dir)
               case None => false
  }

  /** Following links ends at a node that is not a link. */
  lemma ResolveEnds(t: Tree, p: Path, hops: nat)
    ensures Resolve(t, p, hops).Some? ==>
              var q := Resolve(t, p, hops).value;
              q in t && !t[q].Link? && forall h: nat :: Resolve(t, q, h) == Some(q)
    decreases hops
  {
    if p in t && t[p].Link? && hops > 0 {
      ResolveEnds(t, t[p].dest, hops - 1);
    }
  }

  /** Consecutive paths are links to each other, and the last is a node that is not a link. */
  ghost predicate Chain(t: Tree, c: seq<Path>) {
    && c != [] && c[|c| - 1] in t && !t[c[|c| - 1]].Link?
    && forall i | 0 <= i < |c| - 1 :: c[i] in t && t[c[i]] == Link(c[i + 1])
  }

  /** A path resolves to another if and only if a chain of at most `hops` links leads there. */
  lemma {:induction false} ResolveIsChain(t: Tree, p: Path, hops: nat, q: Path)
    ensures Resolve(t, p, hops) == Some(q) <==>
              exists c :: Chain(t, c) && |c| <= hops + 1 && c[0] == p && c[|c| - 1] == q
    decreases hops
  {
    if Resolve(t, p, hops) == Some(q) {
      if t[p].Link? {
        ResolveIsChain(t, t[p].dest, hops - 1, q);
        var c :| Chain(t, c) && |c| <= hops && c[0] == t[p].dest && c[|c| - 1] == q;
        var c' := [p] + c;
        assert c'[|c'| - 1] == q;
        assert forall i | 0 <= i < |c'| - 1 :: c'[i + 1] == c[i];
        assert Chain(t, c');
      } else {
        assert Chain(t, [p]);
      }
    }
    forall c | Chain(t, c) && |c| <= hops + 1 && c[0] == p && c[|c| - 1] == q
      ensures Resolve(t, p, hops) == Some(q)
    {
      if |c| > 1 {
        assert forall i | 0 <= i < |c[1..]| :: c[1..][i] == c[i + 1];
        assert Chain(t, c[1..]);
        ResolveIsChain(t, c[1], hops - 1, q);
      }
    }
  }
}
