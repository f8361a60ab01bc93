/** The part of a filesystem the device-data generator touches, as a finite
    map from paths to nodes, and the handful of `pathlib`/`shutil`
    operations it uses, each as a function on that map. */
module FileTree {

  /** A path as its list of components: `a/b/c` is `["a", "b", "c"]`. */
  type Path = seq<string>

  /** What lives at a path: a directory, or a file and its text. */
  datatype Node = Dir | File(content: string)

  /** A filesystem: every path that exists, mapped to its node. */
  type Tree = map<Path, Node>

  /** `p.is_file()` */
  predicate IsFile(t: Tree, p: Path)
  {
    p in t && t[p].File?
  }

  /** `p.is_dir()` */
  predicate IsDir(t: Tree, p: Path)
  {
    p in t && t[p].Dir?
  }

  /** `t` and `u` hold the same thing at `p`, or both nothing. */
  predicate SameAt(t: Tree, u: Tree, p: Path)
  {
    (p in t <==> p in u) && (p in t ==> t[p] == u[p])
  }

  /** `t` and `u` differ at most inside directory `d` (`d` included). */
  ghost predicate OnlyWithin(t: Tree, u: Tree, d: Path)
  {
    forall q :: !(d <= q) ==> SameAt(t, u, q)
  }

  /** Differences confined to a directory stay confined over two steps. */
  lemma OnlyWithinTrans(t: Tree, u: Tree, v: Tree, d: Path)
    requires OnlyWithin(t, u, d) && OnlyWithin(u, v, d)
    ensures OnlyWithin(t, v, d)
  {
    forall q | !(d <= q) ensures SameAt(t, v, q) {
      assert SameAt(t, u, q) && SameAt(u, v, q);
    }
  }

  /** Differences confined to a subdirectory are confined to its parent. */
  lemma OnlyWithinWiden(t: Tree, u: Tree, d: Path, e: Path)
    requires OnlyWithin(t, u, d) && e <= d
    ensures OnlyWithin(t, u, e)
  {
    forall q | !(e <= q) ensures SameAt(t, u, q) {
      assert !(d <= q);
    }
  }

  /** `t` and `u` differ at most strictly inside directory `d`: `d` itself
      is untouched. */
  ghost predicate OnlyBelow(t: Tree, u: Tree, d: Path)
  {
    forall q :: !(d < q) ==> SameAt(t, u, q)
  }

  lemma OnlyBelowTrans(t: Tree, u: Tree, v: Tree, d: Path)
    requires OnlyBelow(t, u, d) && OnlyBelow(u, v, d)
    ensures OnlyBelow(t, v, d)
  {
    forall q | !(d < q) ensures SameAt(t, v, q) {
      assert SameAt(t, u, q) && SameAt(u, v, q);
    }
  }

  /** Changes inside a child directory are strictly below its parent. */
  lemma OnlyWithinChild(t: Tree, u: Tree, d: Path, name: string)
    requires OnlyWithin(t, u, d + [name])
    ensures OnlyBelow(t, u, d)
  {
    forall q | !(d < q) ensures SameAt(t, u, q) {
      assert d < d + [name];
    }
  }

  /** A change confined to one entry of `d` is strictly below `d`. */
  lemma ChangeAtChild(t: Tree, u: Tree, d: Path, n: string)
    requires forall q :: q != d + [n] ==> SameAt(t, u, q)
    ensures OnlyBelow(t, u, d)
  {
    assert d < d + [n];
  }

  lemma OnlyBelowWithin(t: Tree, u: Tree, d: Path)
    requires OnlyBelow(t, u, d)
    ensures OnlyWithin(t, u, d)
  {
    forall q | !(d <= q) ensures SameAt(t, u, q) {
      assert !(d < q);
    }
  }

  /** `p.write_text(text)`: `p` becomes a file holding exactly `text`. */
  function WriteText(t: Tree, p: Path, text: string): (u: Tree)
    ensures IsFile(u, p) && u[p].content == text
    ensures forall q :: q != p ==> SameAt(t, u, q)
  {
    t[p := File(text)]
  }

  /** `open(p, "a").write(text)` on an existing file: `text` goes at its end. */
  function AppendText(t: Tree, p: Path, text: string): (u: Tree)
    requires IsFile(t, p)
    ensures IsFile(u, p) && u[p].content == t[p].content + text
    ensures forall q :: q != p ==> SameAt(t, u, q)
  {
    t[p := File(t[p].content + text)]
  }

  /** `shutil.copy2(src, dst)`: `dst` becomes a file with `src`'s text. */
  function CopyFile(t: Tree, src: Path, dst: Path): (u: Tree)
    requires IsFile(t, src)
    ensures IsFile(u, dst) && u[dst].content == t[src].content
    ensures forall q :: q != dst ==> SameAt(t, u, q)
  {
    t[dst := t[src]]
  }

  /** `p.unlink()`: `p` no longer exists. */
  function Unlink(t: Tree, p: Path): (u: Tree)
    ensures p !in u
    ensures forall q :: q != p ==> SameAt(t, u, q)
  {
    map q | q in t && q != p :: t[q]
  }

  /** The paths `copytree(src, dst)` creates or overwrites: `dst + x` for
      every `src + x` that exists. */
  function CopyTargets(t: Tree, src: Path, dst: Path): set<Path>
  {
    set x | x in t && src <= x :: dst + x[|src|..]
  }

  /** The source of a path `dst + x` under `copytree(src, dst)`. */
  function CopySource(src: Path, dst: Path, q: Path): Path
    requires dst <= q
  {
    src + q[|dst|..]
  }

  /** `shutil.copytree(src, dst, dirs_exist_ok=True)`: everything under `src`
      (`src` itself included) is copied to the same place under `dst`, over
      whatever was there; what `dst` already held and `src` does not have
      stays. */
  function CopyTree(t: Tree, src: Path, dst: Path): Tree
  {
    t + map q | q in CopyTargets(t, src, dst) ::
      assert dst <= q && CopySource(src, dst, q) in t by {
        var x :| x in t && src <= x && q == dst + x[|src|..];
        assert q[|dst|..] == x[|src|..];
        assert src + x[|src|..] == x;
      }
      t[CopySource(src, dst, q)]
  }

  /** After `copytree`, every entry of `src` is at the same place under
      `dst`, and nothing outside `dst` has changed. */
  lemma CopyTreeSpec(t: Tree, src: Path, dst: Path, x: Path)
    ensures src + x in t ==> dst + x in CopyTree(t, src, dst)
                             && CopyTree(t, src, dst)[dst + x] == t[src + x]
    ensures OnlyWithin(t, CopyTree(t, src, dst), dst)
  {
    var u := CopyTree(t, src, dst);
    if src + x in t {
      assert (dst + x)[|dst|..] == x;
      assert (src + x)[|src|..] == x;
      assert dst + x in CopyTargets(t, src, dst);
    }
    forall q | !(dst <= q) ensures SameAt(t, u, q) {
      assert q !in CopyTargets(t, src, dst);
    }
  }

  /** `copytree` of a directory leaves a directory at the destination. */
  lemma CopyTreeMakesDir(t: Tree, src: Path, dst: Path)
    requires IsDir(t, src)
    ensures IsDir(CopyTree(t, src, dst), dst)
  {
    CopyTreeSpec(t, src, dst, []);
    assert src + [] == src && dst + [] == dst;
  }
}
