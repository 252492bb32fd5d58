/** The served directory as a finite map from paths to nodes, and the tree operations on it. */
module DavTree {
  import opened Wrappers
  import opened Bytes

  type Path = seq<string>

  datatype Node = File(data: seq<Byte>) | Dir

  type Tree = map<Path, Node>

  function At(t: Tree, p: Path): Option<Node> {
    if p in t then Some(t[p]) else None
  }

  function Parent(p: Path): Path
    requires p != []
  {
    p[..|p| - 1]
  }

  /** Everything hangs below the root directory through directories. */
  ghost predicate WellFormed(t: Tree) {
    At(t, []) == Some(Dir) && forall p: Path {:trigger p in t} :: p in t && p != [] ==> At(t, Parent(p)) == Some(Dir)
  }

  predicate Comparable(p: Path, q: Path) { p <= q || q <= p }

  /** Two prefixes of one path are comparable. */
  lemma PrefixesCompare(p: Path, q: Path, k: Path)
    requires p <= k && q <= k
    ensures Comparable(p, q)
  {
    if |p| <= |q| { assert q[..|p|] == k[..|p|] == p; } else { assert p[..|q|] == k[..|q|] == q; }
  }

  /** Every ancestor of a node is a directory. */
  lemma {:induction false} AncestorsAreDirs(t: Tree, p: Path, q: Path)
    requires WellFormed(t) && p in t && q <= p && q != p
    ensures At(t, q) == Some(Dir)
    decreases |p|
  {
    var up := Parent(p);
    assert q == p[..|q|] == up[..|q|];
    if q != up { AncestorsAreDirs(t, up, q); }
  }

  // ---------- removing ----------

  function RemoveTree(t: Tree, p: Path): Tree {
    map q | q in t && !(p <= q) :: t[q]
  }

  lemma RemoveKeepsWellFormed(t: Tree, p: Path)
    requires WellFormed(t) && p != []
    ensures WellFormed(RemoveTree(t, p))
  {
    forall q: Path | q in RemoveTree(t, p) && q != [] ensures At(RemoveTree(t, p), Parent(q)) == Some(Dir) {
      assert p <= Parent(q) ==> p <= q;
    }
  }

  // ---------- grafting a copy ----------

  /** `path`, which lies at or below `from`, moved to the same place below `to`. */
  function Rebase(path: Path, from: Path, to: Path): Path
    requires from <= path
  {
    to + path[|from|..]
  }

  lemma RebaseBack(path: Path, from: Path, to: Path)
    requires from <= path
    ensures to <= Rebase(path, from, to) && Rebase(Rebase(path, from, to), to, from) == path
  {
    var moved := Rebase(path, from, to);
    assert moved[..|to|] == to && moved[|to|..] == path[|from|..];
    assert path == path[..|from|] + path[|from|..];
  }

  /** `t` with the subtree at `to` replaced by a copy of the one at `from`. */
  function Graft(t: Tree, from: Path, to: Path): (r: Tree)
    ensures forall k: Path ::
              At(r, k) == if to <= k then At(t, Rebase(k, to, from)) else At(t, k)
  {
    var copied := set q | q in t && from <= q :: Rebase(q, from, to);
    var keys := (set q | q in t && !(to <= q)) + copied;
    forall q | q in t && from <= q { RebaseBack(q, from, to); }
    var r := map k | k in keys :: if to <= k then t[Rebase(k, to, from)] else t[k];
    assert forall k: Path :: At(r, k) == if to <= k then At(t, Rebase(k, to, from)) else At(t, k) by {
      forall k: Path | to <= k ensures At(r, k) == At(t, Rebase(k, to, from)) {
        RebaseBack(k, to, from);
        if Rebase(k, to, from) in t { assert k in copied; }
      }
    }
    r
  }

  lemma SameTree(t: Tree, u: Tree)
    requires forall k: Path :: At(t, k) == At(u, k)
    ensures t == u
  {
    forall k: Path ensures k in t <==> k in u {
      assert At(t, k) == At(u, k);
    }
    forall k: Path | k in t ensures t[k] == u[k] {
      assert At(t, k) == At(u, k);
    }
  }

  lemma RebaseParent(k: Path, from: Path, to: Path)
    requires from <= k && k != from
    ensures from <= Parent(k) && Rebase(k, from, to) != [] && Parent(Rebase(k, from, to)) == Rebase(Parent(k), from, to)
  {
    assert k[|from|..] != [] && Parent(k)[|from|..] == k[|from|..][..|k| - |from| - 1];
  }

  lemma GraftParent(t: Tree, from: Path, to: Path, k: Path)
    requires WellFormed(t) && from in t && to != [] && At(t, Parent(to)) == Some(Dir)
    requires At(Graft(t, from, to), k).Some? && k != []
    ensures At(Graft(t, from, to), Parent(k)) == Some(Dir)
  {
    assert to <= Parent(k) ==> to <= k;
    if k == to {
      assert !(to <= Parent(to));
    } else if to <= k {
      RebaseParent(k, to, from);
    }
  }

  lemma GraftKeepsWellFormed(t: Tree, from: Path, to: Path)
    requires WellFormed(t) && from in t && to != [] && At(t, Parent(to)) == Some(Dir)
    ensures WellFormed(Graft(t, from, to))
  {
    var g := Graft(t, from, to);
    assert !(to <= []);
    forall k: Path | k in g && k != [] ensures At(g, Parent(k)) == Some(Dir) {
      GraftParent(t, from, to, k);
    }
  }

  /** A copy reproduces the source subtree exactly and leaves everything else, the source included, alone. */
  lemma GraftIsCopy(t: Tree, from: Path, to: Path)
    requires !Comparable(from, to)
    ensures forall x: Path :: At(Graft(t, from, to), to + x) == At(t, from + x)
    ensures forall x: Path :: At(Graft(t, from, to), from + x) == At(t, from + x)
    ensures forall k: Path :: !(to <= k) ==> At(Graft(t, from, to), k) == At(t, k)
  {
    var g := Graft(t, from, to);
    forall x: Path ensures At(g, to + x) == At(t, from + x) {
      assert to <= to + x && (to + x)[|to|..] == x;
      assert At(g, to + x) == At(t, Rebase(to + x, to, from));
    }
    forall x: Path ensures At(g, from + x) == At(t, from + x) {
      assert from <= from + x;
      if to <= from + x { PrefixesCompare(from, to, from + x); }
    }
  }
}
