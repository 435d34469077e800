// internal/storage/local/local.go: Move and its copy-then-remove fallback, on a
// finite tree without symbolic links.
module Moves {
  import opened Common
  import opened Paths
  import opened Marks

  type Path = seq<string>

  datatype Node = Dir(mode: int) | File(mode: int, data: seq<int>)

  /** Nodes by path below the root; [] is the root. */
  type Tree = map<Path, Node>

  /** The root and every parent of a node are directories, names are proper. */
  ghost predicate Rooted(t: Tree) {
    [] in t && t[[]].Dir? && forall p {:trigger Grounded(t, p)} :: p in t ==> Grounded(t, p)
  }

  predicate Grounded(t: Tree, p: Path) {
    p != [] ==> Parent(p) in t && t[Parent(p)].Dir? && Solid(p[|p| - 1])
  }

  function Parent(p: Path): Path
    requires p != []
  {
    p[..|p| - 1]
  }

  // ---------------------------------------------------------------------
  // validateMove
  // ---------------------------------------------------------------------

  function CommonPrefix(a: Path, b: Path): nat {
    if a == [] || b == [] || a[0] != b[0] then 0 else 1 + CommonPrefix(a[1..], b[1..])
  }

  lemma {:induction false} CommonPrefixBounds(a: Path, b: Path)
    ensures var c := CommonPrefix(a, b);
            c <= |a| && c <= |b| && a[..c] == b[..c] && (c < |a| && c < |b| ==> a[c] != b[c])
  {
    if a != [] && b != [] && a[0] == b[0] {
      CommonPrefixBounds(a[1..], b[1..]);
      var c := CommonPrefix(a[1..], b[1..]);
      assert a[..c + 1] == [a[0]] + a[1..][..c] && b[..c + 1] == [b[0]] + b[1..][..c];
    }
  }

  /** filepath.Rel, as segments: up from base to the common prefix, then down. */
  function Rel(base: Path, target: Path): Path {
    CommonPrefixBounds(base, target);
    var c := CommonPrefix(base, target);
    seq(|base| - c, i => "..") + target[c..]
  }

  datatype MoveError = NoError | Permission | InvalidMove | AlreadyExists | NotFound | NotDirectory | CopyFailed

  /** The textual test: rel is neither "." nor starts with "../". */
  function ValidateMove(from: Path, to: Path): MoveError {
    if from == [] || to == [] then Permission
    else if from == to then InvalidMove
    else
      var rel := Rel(from, to);
      if rel != [] && !(|rel| >= 2 && rel[0] == "..") then InvalidMove else NoError
  }

  /** It rejects every move of a node to itself or below itself; of the moves
      upwards it rejects the one to the own parent only. */
  lemma ValidateMoveIs(from: Path, to: Path)
    requires (forall i :: 0 <= i < |to| ==> Solid(to[i])) && from != [] && to != []
    ensures ValidateMove(from, to) == NoError <==> !(from <= to) && to != Parent(from)
  {
    CommonPrefixBounds(from, to);
    var c, rel := CommonPrefix(from, to), Rel(from, to);
    if from <= to {
      assert forall i :: 0 <= i < |from| ==> from[i] == to[i];
      assert c == |from| && rel == to[|from|..];
    } else if to == Parent(from) {
      assert forall i :: 0 <= i < |to| ==> from[i] == to[i];
      assert c == |to| && rel == [".."];
    } else {
      assert c < |from| && rel[0] == "..";
      assert |rel| == 1 ==> c == |to| == |from| - 1;
      assert from[..c] == to[..c] && to[..|to|] == to;
    }
  }

  // ---------------------------------------------------------------------
  // Renaming a subtree
  // ---------------------------------------------------------------------

  function Carry(p: Path, from: Path, to: Path): Path
    requires from <= p
  {
    to + p[|from|..]
  }

  /** The nodes at or below src, at their places below dst. */
  function Copies(t: Tree, src: Path, dst: Path): Tree {
    map q | q in (set p | p in t && src <= p :: Carry(p, src, dst)) && dst <= q && Carry(q, dst, src) in t ::
      t[Carry(q, dst, src)]
  }

  lemma CarryBack(p: Path, from: Path, to: Path)
    requires from <= p
    ensures to <= Carry(p, from, to) && Carry(Carry(p, from, to), to, from) == p
  {
    assert p == from + p[|from|..];
    assert Carry(p, from, to)[|to|..] == p[|from|..];
  }

  lemma CopiesAt(t: Tree, src: Path, dst: Path, q: Path)
    ensures q in Copies(t, src, dst) <==> dst <= q && Carry(q, dst, src) in t
    ensures q in Copies(t, src, dst) ==> Copies(t, src, dst)[q] == t[Carry(q, dst, src)]
  {
    if dst <= q && Carry(q, dst, src) in t {
      CarryBack(q, dst, src);
      assert Carry(Carry(q, dst, src), src, dst) == q;
    }
  }

  function Without(t: Tree, root: Path): Tree { map p | p in t && !(root <= p) :: t[p] }

  /** os.Rename of an existing node to a free place. */
  function Renamed(t: Tree, from: Path, to: Path): Tree { Without(t, from) + Copies(t, from, to) }

  const DIR_MODE := 0x1ED   // 0o755

  /** What MkdirAll adds: the directories missing on the way to p. */
  function MissingDirs(t: Tree, p: Path): Tree {
    map k | k in (set i | 0 <= i <= |p| :: p[..i]) && k !in t :: Dir(DIR_MODE)
  }

  /** The way to p is free exactly if adding them makes it a way of directories. */
  lemma DirsMade(t: Tree, p: Path)
    ensures var t' := t + MissingDirs(t, p);
            (WayFree(t, p) <==> forall i | 0 <= i <= |p| :: p[..i] in t' && t'[p[..i]].Dir?) &&
            (forall k :: k in t' && k !in t ==> k <= p && t'[k] == Dir(493)) &&
            (forall k :: k in t ==> k in t' && t'[k] == t[k])
  {
    var t' := t + MissingDirs(t, p);
    assert forall i | 0 <= i <= |p| :: p[..i] in t';
  }

  /** The tree once the first i directories on the way to p are there. */
  function DirsUpTo(t: Tree, p: Path, i: nat): Tree {
    var missing := MissingDirs(t, p);
    t + map k | k in missing && |k| < i :: missing[k]
  }

  lemma DirsEnds(t: Tree, p: Path)
    ensures DirsUpTo(t, p, 0) == t && DirsUpTo(t, p, |p| + 1) == t + MissingDirs(t, p)
  {
    assert forall k :: k in MissingDirs(t, p) ==> |k| <= |p|;
  }

  lemma OneDir(t: Tree, p: Path, i: nat)
    requires Rooted(t) && i <= |p| && WayFree(t, p) && Rooted(DirsUpTo(t, p, i))
    requires forall k :: 0 <= k < |p| ==> Solid(p[k])
    ensures var d, d' := DirsUpTo(t, p, i), DirsUpTo(t, p, i + 1);
            d' == (if p[..i] in d then d else d[p[..i] := Dir(DIR_MODE)]) && Rooted(d')
  {
    var d, d', k := DirsUpTo(t, p, i), DirsUpTo(t, p, i + 1), p[..i];
    assert k in MissingDirs(t, p) <==> k !in t;
    assert d' == if k in d then d else d[k := Dir(DIR_MODE)];
    if k !in d {
      assert Parent(k) == p[..i - 1];
      assert Parent(k) in d && d[Parent(k)].Dir?;
      forall q | q in d
        ensures !(k <= q)
      {
        assert k <= q ==> q[..i] == k;
        if q in t && k <= q { AncestorsIn(t, q, i); }
      }
      NodeAdded(d, k, Dir(DIR_MODE));
    }
  }

  /** No file stands on the way to p. */
  predicate WayFree(t: Tree, p: Path) { forall i | 0 <= i <= |p| :: p[..i] in t ==> t[p[..i]].Dir? }

  /** The names in a directory. */
  function Names(t: Tree, dir: Path): set<string> {
    set p | p in t && p != [] && Parent(p) == dir :: p[|p| - 1]
  }

  /** The nodes at or below src. */
  function Subtree(t: Tree, src: Path): set<Path> { set p | p in t && src <= p }

  ghost predicate Apart(a: Path, b: Path) { !(a <= b) && !(b <= a) }

  lemma {:induction false} AncestorsIn(t: Tree, p: Path, k: nat)
    requires Rooted(t) && p in t && k <= |p|
    ensures p[..k] in t && (k < |p| ==> t[p[..k]].Dir? && Solid(p[k]))
    decreases |p|
  {
    if k < |p| {
      assert Grounded(t, p);
      AncestorsIn(t, Parent(p), k);
      assert Parent(p)[..k] == p[..k];
      if k < |p| - 1 { assert Parent(p)[k] == p[k]; }
    } else {
      assert p[..k] == p;
    }
  }

  /** The part of a directory's copy that stands once the entries done are copied. */
  function Partial(t: Tree, src: Path, dst: Path, done: set<string>): Tree
    requires src in t
  {
    var copies := Copies(t, src, dst);
    map q | q in copies && (|q| <= |dst| || q[|dst|] in done) :: copies[q]
  }

  lemma PartialNone(t: Tree, src: Path, dst: Path)
    requires src in t
    ensures Partial(t, src, dst, {}) == map[dst := t[src]]
  {
    var partial := Partial(t, src, dst, {});
    CopiesAt(t, src, dst, dst);
    assert Carry(dst, dst, src) == src;
    forall q | q in partial
      ensures q == dst
    {
      CopiesAt(t, src, dst, q);
    }
    assert partial.Keys == {dst};
  }

  lemma CopyName(t: Tree, src: Path, dst: Path, q: Path)
    requires Rooted(t) && src in t && q in Copies(t, src, dst) && |q| > |dst|
    ensures q[|dst|] in Names(t, src)
  {
    CopiesAt(t, src, dst, q);
    var p := Carry(q, dst, src);
    AncestorsIn(t, p, |src| + 1);
    var child := p[..|src| + 1];
    assert child != [] && Parent(child) == src && child[|src|] == q[|dst|];
  }

  lemma PartialAll(t: Tree, src: Path, dst: Path)
    requires Rooted(t) && src in t
    ensures Partial(t, src, dst, Names(t, src)) == Copies(t, src, dst)
  {
    forall q | q in Copies(t, src, dst) && |q| > |dst|
      ensures q[|dst|] in Names(t, src)
    {
      CopyName(t, src, dst, q);
    }
  }

  lemma PartialMore(t: Tree, src: Path, dst: Path, done: set<string>, n: string, q: Path)
    requires src in t
    ensures q in Partial(t, src, dst, done + {n}) <==>
              q in Partial(t, src, dst, done) || q in Copies(t, src + [n], dst + [n])
    ensures q in Copies(t, src + [n], dst + [n]) ==>
              q in Copies(t, src, dst) && Copies(t, src + [n], dst + [n])[q] == Copies(t, src, dst)[q]
  {
    CopiesAt(t, src, dst, q);
    CopiesAt(t, src + [n], dst + [n], q);
    if dst <= q && |q| > |dst| && q[|dst|] == n {
      assert dst + [n] == q[..|dst| + 1];
      assert Carry(q, dst + [n], src + [n]) == src + [n] + q[|dst| + 1..] == src + q[|dst|..] == Carry(q, dst, src);
    }
  }

  /** Nothing at or below src has changed. */
  lemma SameBelow(t: Tree, t': Tree, src: Path, dst: Path)
    requires forall p :: src <= p ==> (p in t <==> p in t') && (p in t ==> t[p] == t'[p])
    ensures Copies(t', src, dst) == Copies(t, src, dst) && Subtree(t', src) == Subtree(t, src)
  {
    forall q
      ensures q in Copies(t', src, dst) <==> q in Copies(t, src, dst)
      ensures q in Copies(t, src, dst) ==> Copies(t', src, dst)[q] == Copies(t, src, dst)[q]
    {
      CopiesAt(t, src, dst, q);
      CopiesAt(t', src, dst, q);
    }
  }

  // ---------------------------------------------------------------------
  // The adapter
  // ---------------------------------------------------------------------

  class Storage {
    var t: Tree

    method MkdirAll(p: Path) returns (ok: bool)
      requires Rooted(t) && forall i :: 0 <= i < |p| ==> Solid(p[i])
      modifies this
      ensures Rooted(t) && ok == WayFree(old(t), p)
      ensures t == if ok then old(t) + MissingDirs(old(t), p) else old(t)
    {
      if !WayFree(t, p) { return false; }
      ghost var t0 := t;
      DirsEnds(t0, p);
      var i := 0;
      while i <= |p|
        invariant 0 <= i <= |p| + 1 && t == DirsUpTo(t0, p, i) && Rooted(t)
      {
        OneDir(t0, p, i);
        if p[..i] !in t { t := t[p[..i] := Dir(DIR_MODE)]; }
        i := i + 1;
      }
      ok := true;
    }

    method RemoveAll(p: Path)
      requires p != [] && Rooted(t)
      modifies this
      ensures t == Without(old(t), p) && Rooted(t)
    {
      WithoutRooted(t, p);
      t := Without(t, p);
    }

    /** copyTree, which fails at the nodes in faults and at no others. Whatever
        happens, only nodes at or below dst are touched. */
    method CopyTree(src: Path, dst: Path, faults: set<Path>) returns (ok: bool)
      requires CanCopy(t, src, dst)
      modifies this
      ensures Rooted(t) && OnlyBelow(old(t), t, dst)
      ensures ok <==> Clear(old(t), src, faults)
      ensures ok ==> t == old(t) + Copies(old(t), src, dst)
      decreases Subtree(t, src), 3
    {
      if t[src].Dir? { ok := CopyDir(src, dst, faults); } else { ok := CopyFile(src, dst, faults); }
    }

    method CopyFile(src: Path, dst: Path, faults: set<Path>) returns (ok: bool)
      requires CanCopy(t, src, dst) && t[src].File?
      modifies this
      ensures Rooted(t) && OnlyBelow(old(t), t, dst)
      ensures ok <==> Clear(old(t), src, faults)
      ensures ok ==> t == old(t) + Copies(old(t), src, dst)
    {
      var node := t[src];
      FileAlone(t, src);
      ok := src !in faults;
      var created: bool :| ok ==> created;
      if created {
        var n :| 0 <= n <= |node.data| && (ok ==> n == |node.data|);   // bytes copied before an error, if any
        FileWritten(t, src, dst, n);
        t := t[dst := node.(data := node.data[..n])];
      }
    }

    method CopyDir(src: Path, dst: Path, faults: set<Path>) returns (ok: bool)
      requires CanCopy(t, src, dst) && t[src].Dir?
      modifies this
      ensures Rooted(t) && OnlyBelow(old(t), t, dst)
      ensures ok <==> Clear(old(t), src, faults)
      ensures ok ==> t == old(t) + Copies(old(t), src, dst)
      decreases Subtree(t, src), 2
    {
      var names := Names(t, src);
      ghost var t0, parts, faulty := t, PartsOf(t, src, dst), Faulty(t, src, faults);
      DirReady(t, src, dst, faults, parts);
      ok := src !in faults;
      var created: bool :| ok ==> created;
      if created { t := t[dst := t[src]]; }
      if ok { ok := CopyEntries(t0, src, dst, names, faults, parts, faulty); }
    }

    /** The loop over ReadDir in copyDir; parts(done) is the tree with the entries
        done copied. */
    method CopyEntries(ghost t0: Tree, src: Path, dst: Path, names: set<string>, faults: set<Path>,
                       ghost parts: set<string> -> Tree, ghost faulty: set<string>) returns (ok: bool)
      requires Copying(t0, src, dst, faults, parts, faulty) && names == Names(t0, src)
      requires t == parts({}) && Rooted(t) && OnlyBelow(t0, t, dst)
      modifies this
      ensures Rooted(t) && OnlyBelow(t0, t, dst)
      ensures ok <==> faulty * names == {}
      ensures ok ==> t == parts(names)
      decreases Subtree(t0, src), 1
    {
      var todo := names;
      ghost var done: set<string> := {};
      while todo != {}
        invariant done !! todo && done + todo == names
        invariant t == parts(done) && Rooted(t) && OnlyBelow(t0, t, dst)
        invariant done !! faulty
        decreases |todo|
      {
        var n :| n in todo;
        todo := todo - {n};
        ok := CopyEntry(t0, src, dst, done, n, faults, parts, faulty);
        if !ok { return; }
        done := done + {n};
      }
      assert done == names;
      ok := true;
    }

    /** One round of the loop in copyDir, with the entries done already copied. */
    method CopyEntry(ghost t0: Tree, src: Path, dst: Path, ghost done: set<string>, n: string, faults: set<Path>,
                     ghost parts: set<string> -> Tree, ghost faulty: set<string>) returns (ok: bool)
      requires Copying(t0, src, dst, faults, parts, faulty) && n in Names(t0, src) && n !in done
      requires t == parts(done) && Rooted(t)
      modifies this
      ensures Rooted(t) && OnlyBelow(t0, t, dst)
      ensures ok <==> n !in faulty
      ensures ok ==> t == parts(done + {n})
      decreases Subtree(t0, src), 0
    {
      ghost var t1 := t;
      assert IsPart(t0, src, dst, parts, done) && IsPart(t0, src, dst, parts, done + {n});
      assert IsFaulty(t0, src, faults, faulty, n);
      ChildReady(t0, src, dst, done, n);
      ok := CopyTree(src + [n], dst + [n], faults);
      OnlyBelowChild(t0, t1, t, dst, n);
      OneMore(t0, src, dst, done, n);
    }

    /** Move. sameDevice says whether os.Rename can do it, faults which nodes
        cannot be copied. A move succeeds exactly as said below; a failed one leaves
        the tree as it was, but for missing parent directories of to. */
    method Move(from: Path, to: Path, sameDevice: bool, faults: set<Path>) returns (e: MoveError)
      requires Rooted(t) && forall i :: 0 <= i < |to| ==> Solid(to[i])
      modifies this
      ensures Rooted(t)
      ensures e == NoError ==>
                Apart(from, to) && from in old(t) && to !in old(t) &&
                t == Renamed(old(t) + MissingDirs(old(t), Parent(to)), from, to)
      ensures e != NoError ==> t == old(t) || (to != [] && t == old(t) + MissingDirs(old(t), Parent(to)))
      ensures e == NoError <==>
                from in old(t) && from != [] && to != [] && !(from <= to) && to !in old(t) && WayFree(old(t), to) &&
                (sameDevice || Clear(old(t), from, faults))
      ensures e == AlreadyExists <==>
                to in old(t) && from != [] && to != [] && !(from <= to) && to != Parent(from)
      ensures e == InvalidMove <==> from != [] && to != [] && (from <= to || to == Parent(from))
      ensures e == Permission <==> from == [] || to == []
      ensures e == CopyFailed <==>
                from in old(t) && from != [] && to != [] && !(from <= to) && to !in old(t) && WayFree(old(t), to) &&
                !sameDevice && !Clear(old(t), from, faults)
      ensures e == NotFound ==> from !in old(t)
      ensures e == NotDirectory ==> !WayFree(old(t), to)
    {
      e := ValidateMove(from, to);
      if from != [] && to != [] { ValidateMoveIs(from, to); }
      assert from in t ==> Grounded(t, from);
      if e != NoError { return; }
      if to in t { return AlreadyExists; }
      if !WayFree(t, to) { return NotDirectory; }
      ghost var t0 := t;
      assert WayFree(t, Parent(to)) by { assert forall i :: 0 <= i <= |Parent(to)| ==> Parent(to)[..i] == to[..i]; }
      var made := MkdirAll(Parent(to));
      assert made;
      ghost var t1 := t;
      if from !in t { return NotFound; }
      ReadyToMove(t0, t1, from, to);
      StillClear(t0, t1, from, to, faults);
      if sameDevice {
        t := Without(t, from) + Copies(t, from, to);
        RenamedRooted(t1, from, to);
      } else {
        var copied := CopyTree(from, to, faults);
        if !copied {
          CleanedUp(t1, t, to);
          RemoveAll(to);
          return CopyFailed;
        }
        RemoveAll(from);
        CopyThenRemove(t1, from, to);
      }
      e := NoError;
    }
  }

  /** dst is free, has a parent directory and lies apart from the node src. */
  ghost predicate CanCopy(t: Tree, src: Path, dst: Path) {
    Rooted(t) && src in t && dst != [] && Apart(src, dst) && Solid(dst[|dst| - 1]) &&
    Parent(dst) in t && t[Parent(dst)].Dir? && Subtree(t, dst) == {}
  }

  /** No node at or below src fails to be copied. */
  ghost predicate Clear(t: Tree, src: Path, faults: set<Path>) { Subtree(t, src) !! faults }

  ghost predicate IsPart(t0: Tree, src: Path, dst: Path, parts: set<string> -> Tree, done: set<string>)
    requires src in t0
  {
    parts(done) == Progress(t0, src, dst, done)
  }

  ghost function PartsOf(t0: Tree, src: Path, dst: Path): (parts: set<string> -> Tree)
    requires src in t0
    ensures forall done: set<string> {:trigger IsPart(t0, src, dst, parts, done)} :: IsPart(t0, src, dst, parts, done)
  {
    (done: set<string>) => if src in t0 then Progress(t0, src, dst, done) else map[]
  }

  /** What copyDir knows while it copies the entries of src. */
  ghost predicate Copying(t0: Tree, src: Path, dst: Path, faults: set<Path>, parts: set<string> -> Tree,
                          faulty: set<string>)
  {
    CanCopy(t0, src, dst) && t0[src].Dir? &&
    (forall done: set<string> {:trigger IsPart(t0, src, dst, parts, done)} :: IsPart(t0, src, dst, parts, done)) &&
    (forall n {:trigger IsFaulty(t0, src, faults, faulty, n)} :: IsFaulty(t0, src, faults, faulty, n))
  }

  ghost predicate IsFaulty(t0: Tree, src: Path, faults: set<Path>, faulty: set<string>, n: string) {
    n in faulty <==> n in Names(t0, src) && !Clear(t0, src + [n], faults)
  }

  lemma DirReady(t: Tree, src: Path, dst: Path, faults: set<Path>, parts: set<string> -> Tree)
    requires CanCopy(t, src, dst) && t[src].Dir? && parts == PartsOf(t, src, dst)
    ensures var t' := t[dst := t[src]];
            Rooted(t') && OnlyBelow(t, t', dst) && OnlyBelow(t, t, dst) && t' == parts({})
    ensures parts(Names(t, src)) == t + Copies(t, src, dst)
    ensures Copying(t, src, dst, faults, parts, Faulty(t, src, faults))
    ensures Clear(t, src, faults) <==> src !in faults && Faulty(t, src, faults) * Names(t, src) == {}
  {
    DirStarted(t, src, dst);
    PartialOnlyBelow(t, src, dst, {});
    PartialAll(t, src, dst);
    ClearBelow(t, src, faults);
    assert IsPart(t, src, dst, parts, {}) && IsPart(t, src, dst, parts, Names(t, src));
    assert Faulty(t, src, faults) * Names(t, src) == Faulty(t, src, faults);
  }

  /** The entries of src that cannot be copied as a whole. */
  ghost function Faulty(t: Tree, src: Path, faults: set<Path>): set<string> {
    set n | n in Names(t, src) && !Clear(t, src + [n], faults)
  }

  lemma FileAlone(t: Tree, src: Path)
    requires Rooted(t) && src in t && t[src].File?
    ensures Subtree(t, src) == {src}
  {
    forall p | p in Subtree(t, src)
      ensures p == src
    {
      AncestorsIn(t, p, |src|);
      assert p[..|src|] == src;
    }
  }

  /** A directory can be copied if it can itself and everything in it can. */
  lemma ClearBelow(t: Tree, src: Path, faults: set<Path>)
    requires Rooted(t) && src in t
    ensures Clear(t, src, faults) <==>
              src !in faults && Faulty(t, src, faults) == {}
  {
    assert src in Subtree(t, src);
    forall n | n in Names(t, src)
      ensures Subtree(t, src + [n]) <= Subtree(t, src)
    {
      assert src <= src + [n];
    }
    forall p | p in Subtree(t, src) && p in faults && p != src
      ensures Faulty(t, src, faults) != {}
    {
      FaultInEntry(t, src, faults, p);
    }
    if n :| n in Faulty(t, src, faults) { assert Subtree(t, src + [n]) <= Subtree(t, src); }
  }

  lemma FaultInEntry(t: Tree, src: Path, faults: set<Path>, p: Path)
    requires Rooted(t) && src in t && p in Subtree(t, src) && p in faults && p != src
    ensures p[|src|] in Faulty(t, src, faults)
  {
    var n := p[|src|];
    var child := p[..|src| + 1];
    AncestorsIn(t, p, |src| + 1);
    assert child == src + [n] && Parent(child) == src;
    assert p in Subtree(t, src + [n]);
  }

  lemma StillClear(t0: Tree, t1: Tree, from: Path, to: Path, faults: set<Path>)
    requires to != [] && !(from <= to) && t1 == t0 + MissingDirs(t0, Parent(to))
    ensures Clear(t1, from, faults) == Clear(t0, from, faults)
  {
    forall p | p in MissingDirs(t0, Parent(to))
      ensures !(from <= p)
    {
      assert p <= Parent(to) <= to;
    }
    assert Subtree(t1, from) == Subtree(t0, from);
  }

  predicate Under(q: Path, p: Path) { p <= q }

  ghost predicate SameAt(t: Tree, t': Tree, q: Path) { (q in t <==> q in t') && (q in t ==> t[q] == t'[q]) }

  ghost predicate OnlyBelow(t: Tree, t': Tree, root: Path) { forall q :: !Under(q, root) ==> SameAt(t, t', q) }

  lemma UnderChain(q: Path, a: Path, b: Path)
    requires Under(q, a) && Under(q, b)
    ensures a <= b || b <= a
  {
    if |a| <= |b| { assert b[..|a|] == q[..|a|] == a; } else { assert a[..|b|] == q[..|b|] == b; }
  }

  lemma NotBoth(a: Path, b: Path)
    requires Apart(a, b)
    ensures forall q :: !(Under(q, a) && Under(q, b))
  {
    forall q
      ensures !(Under(q, a) && Under(q, b))
    {
      if Under(q, a) && Under(q, b) { UnderChain(q, a, b); }
    }
  }

  /** The tree while the directory src is being copied to dst. */
  function Progress(t0: Tree, src: Path, dst: Path, done: set<string>): Tree
    requires src in t0
  {
    t0 + Partial(t0, src, dst, done)
  }

  lemma DirStarted(t: Tree, src: Path, dst: Path)
    requires CanCopy(t, src, dst)
    ensures Rooted(t[dst := t[src]]) && t[dst := t[src]] == Progress(t, src, dst, {})
  {
    NodeAdded(t, dst, t[src]);
    PartialNone(t, src, dst);
  }

  lemma PartialOnlyBelow(t0: Tree, src: Path, dst: Path, done: set<string>)
    requires src in t0
    ensures OnlyBelow(t0, Progress(t0, src, dst, done), dst)
  {
    forall q | !Under(q, dst)
      ensures q !in Partial(t0, src, dst, done)
    {
      CopiesAt(t0, src, dst, q);
    }
  }

  lemma OnlyBelowChild(t0: Tree, t1: Tree, t: Tree, dst: Path, n: string)
    requires OnlyBelow(t0, t1, dst) && OnlyBelow(t1, t, dst + [n])
    ensures OnlyBelow(t0, t, dst)
  {
    forall q | !Under(q, dst)
      ensures SameAt(t0, t, q)
    {
      assert dst <= dst + [n];
      assert Under(q, dst + [n]) ==> Under(q, dst);
      assert SameAt(t0, t1, q) && SameAt(t1, t, q);
    }
  }

  lemma OneMore(t0: Tree, src: Path, dst: Path, done: set<string>, n: string)
    requires src in t0
    ensures Progress(t0, src, dst, done) + Copies(t0, src + [n], dst + [n]) == Progress(t0, src, dst, done + {n})
  {
    var part, more := Partial(t0, src, dst, done), Partial(t0, src, dst, done + {n});
    var child := Copies(t0, src + [n], dst + [n]);
    forall q
      ensures q in more <==> q in part || q in child
      ensures q in more ==> more[q] == if q in child then child[q] else part[q]
    {
      PartialMore(t0, src, dst, done, n, q);
    }
    MergeParts(t0, part, child, more);
  }

  lemma MergeParts(t0: Tree, part: Tree, child: Tree, more: Tree)
    requires forall q :: q in more <==> q in part || q in child
    requires forall q :: q in more ==> more[q] == if q in child then child[q] else part[q]
    ensures t0 + part + child == t0 + more
  {
    forall q
      ensures q in t0 + part + child <==> q in t0 + more
      ensures q in t0 + more ==> (t0 + part + child)[q] == (t0 + more)[q]
    {}
  }

  lemma FileWritten(t: Tree, src: Path, dst: Path, n: nat)
    requires CanCopy(t, src, dst) && t[src].File? && n <= |t[src].data|
    ensures var t' := t[dst := t[src].(data := t[src].data[..n])];
            Rooted(t') && OnlyBelow(t, t', dst) && (n == |t[src].data| ==> t' == t + Copies(t, src, dst))
  {
    FileCopied(t, src, dst);
    NodeAdded(t, dst, t[src].(data := t[src].data[..n]));
    assert t[src].data[..|t[src].data|] == t[src].data;
  }

  lemma FileCopied(t: Tree, src: Path, dst: Path)
    requires Rooted(t) && src in t && t[src].File?
    ensures Copies(t, src, dst) == map[dst := t[src]]
  {
    PartialNone(t, src, dst);
    PartialAll(t, src, dst);
    forall p | p in t && p != []
      ensures Parent(p) != src
    {
      assert Grounded(t, p);
    }
    assert Names(t, src) == {};
  }

  lemma NodeAdded(t: Tree, p: Path, node: Node)
    requires Rooted(t) && p != [] && Parent(p) in t && t[Parent(p)].Dir? && Solid(p[|p| - 1]) && Subtree(t, p) == {}
    ensures Rooted(t[p := node])
  {
    var t' := t[p := node];
    forall q | q in t'
      ensures Grounded(t', q)
    {
      if q != p {
        assert Grounded(t, q);
        assert q != [] && p == Parent(q) ==> q in Subtree(t, p);
      }
    }
  }

  lemma PartialBelow(t0: Tree, src: Path, dst: Path, done: set<string>, n: string, q: Path)
    requires src in t0 && n !in done && q in Partial(t0, src, dst, done)
    ensures Under(q, dst) && !Under(q, dst + [n])
  {
    CopiesAt(t0, src, dst, q);
    assert (dst + [n])[|dst|] == n;
    if |q| > |dst| { assert q[|dst|] in done; }
  }

  lemma ChildReady(t0: Tree, src: Path, dst: Path, done: set<string>, n: string)
    requires CanCopy(t0, src, dst) && t0[src].Dir? && n in Names(t0, src) && n !in done
    requires Rooted(Progress(t0, src, dst, done))
    ensures var t := Progress(t0, src, dst, done);
            OnlyBelow(t0, t, dst) && CanCopy(t, src + [n], dst + [n]) &&
            Copies(t, src + [n], dst + [n]) == Copies(t0, src + [n], dst + [n]) &&
            Subtree(t, src + [n]) < Subtree(t0, src)
  {
    var t := Progress(t0, src, dst, done);
    var s', d' := src + [n], dst + [n];
    ChildThere(t0, src, n);
    assert Parent(d') == dst;
    CopiesAt(t0, src, dst, dst);
    assert Carry(dst, dst, src) == src;
    PartialOnlyBelow(t0, src, dst, done);
    ChildApart(src, dst, n);
    ChildFree(t0, src, dst, done, n);
    ChildSame(t0, src, dst, done, n);
    SameBelow(t0, t, s', d');
  }

  lemma ChildThere(t0: Tree, src: Path, n: string)
    requires Rooted(t0) && src in t0 && n in Names(t0, src)
    ensures src + [n] in t0 && Solid(n) && Subtree(t0, src + [n]) < Subtree(t0, src)
  {
    var p :| p in t0 && p != [] && Parent(p) == src && p[|p| - 1] == n;
    assert p == src + [n] && Grounded(t0, p);
    assert src <= src + [n];
    assert src in Subtree(t0, src) && src !in Subtree(t0, src + [n]);
  }

  lemma ChildApart(a: Path, b: Path, n: string)
    requires Apart(a, b)
    ensures Apart(a + [n], b + [n])
  {
    assert Under(a + [n], a) && Under(b + [n], b);
    assert a + [n] <= b + [n] ==> Under(b + [n], a);
    assert b + [n] <= a + [n] ==> Under(a + [n], b);
    if Under(b + [n], a) { UnderChain(b + [n], a, b); }
    if Under(a + [n], b) { UnderChain(a + [n], a, b); }
  }

  lemma ChildFree(t0: Tree, src: Path, dst: Path, done: set<string>, n: string)
    requires CanCopy(t0, src, dst) && n !in done
    ensures Subtree(Progress(t0, src, dst, done), dst + [n]) == {}
  {
    forall q | q in Progress(t0, src, dst, done)
      ensures !(dst + [n] <= q)
    {
      if q in Partial(t0, src, dst, done) {
        PartialBelow(t0, src, dst, done, n, q);
      } else {
        assert dst <= dst + [n];
        assert q !in Subtree(t0, dst);
      }
    }
  }

  lemma ChildSame(t0: Tree, src: Path, dst: Path, done: set<string>, n: string)
    requires CanCopy(t0, src, dst)
    ensures var t := Progress(t0, src, dst, done);
            forall p :: src + [n] <= p ==> (p in t0 <==> p in t) && (p in t0 ==> t0[p] == t[p])
  {
    NotBoth(src, dst);
    PartialOnlyBelow(t0, src, dst, done);
    var t := Progress(t0, src, dst, done);
    forall p | src + [n] <= p
      ensures (p in t0 <==> p in t) && (p in t0 ==> t0[p] == t[p])
    {
      assert src <= src + [n];
      assert Under(p, src) && !Under(p, dst);
      assert SameAt(t0, t, p);
    }
  }

  // ---------------------------------------------------------------------
  // Rename, and copy then remove
  // ---------------------------------------------------------------------

  lemma ReadyToMove(t0: Tree, t1: Tree, from: Path, to: Path)
    requires Rooted(t0) && Rooted(t1) && to != [] && from != [] && to !in t0 && !(from <= to) && from in t1
    requires (forall i :: 0 <= i < |to| ==> Solid(to[i])) && WayFree(t0, to)
    requires t1 == t0 + MissingDirs(t0, Parent(to))
    ensures CanCopy(t1, from, to) && from in t0
  {
    assert Parent(to)[..|Parent(to)|] == Parent(to);
    assert forall i :: 0 <= i <= |Parent(to)| ==> Parent(to)[..i] == to[..i];
    assert Parent(to) in t1;
    forall p | p in t1
      ensures !(to <= p)
    {
      assert to <= p ==> p[..|to|] == to;
      if to <= p && p in t0 { AncestorsIn(t0, p, |to|); }
    }
    assert forall i :: 0 <= i <= |Parent(to)| ==> Parent(to)[..i] <= to;
    assert from !in MissingDirs(t0, Parent(to));
  }

  lemma CopiesApart(t: Tree, from: Path, to: Path)
    requires Apart(from, to)
    ensures forall q :: q in Copies(t, from, to) ==> Under(q, to) && !Under(q, from)
  {
    NotBoth(from, to);
    forall q | q in Copies(t, from, to)
      ensures Under(q, to)
    {
      CopiesAt(t, from, to, q);
    }
  }

  /** Copying the tree and removing the original ends where renaming ends. */
  lemma CopyThenRemove(t: Tree, from: Path, to: Path)
    requires Apart(from, to)
    ensures Without(t + Copies(t, from, to), from) == Renamed(t, from, to)
  {
    CopiesApart(t, from, to);
    var a, b := Without(t + Copies(t, from, to), from), Renamed(t, from, to);
    forall q
      ensures q in a <==> q in b
      ensures q in a ==> a[q] == b[q]
    {
      assert Under(q, from) <==> from <= q;
    }
  }

  /** r is t with from renamed to to, as far as q is concerned. */
  ghost predicate IsRenamed(t: Tree, r: Tree, from: Path, to: Path, q: Path) {
    (q in r <==> (q in t && !(from <= q)) || (to <= q && Carry(q, to, from) in t)) &&
    (to <= q && Carry(q, to, from) in t ==> r[q] == t[Carry(q, to, from)]) &&
    (!(to <= q) && q in t && !(from <= q) ==> r[q] == t[q])
  }

  lemma RenamedAt(t: Tree, from: Path, to: Path, q: Path)
    ensures IsRenamed(t, Renamed(t, from, to), from, to, q)
  {
    CopiesAt(t, from, to, q);
  }

  lemma BackAgain(t: Tree, t1: Tree, t2: Tree, from: Path, to: Path, q: Path)
    requires IsRenamed(t, t1, from, to, q) && IsRenamed(t1, t2, to, from, q) && (q in t ==> !(to <= q))
    requires from <= q ==>
               !(to <= q) && IsRenamed(t, t1, from, to, Carry(q, from, to)) && Carry(q, from, to) !in t
    ensures (q in t2 <==> q in t) && (q in t ==> t2[q] == t[q])
  {
    if from <= q { CarryBack(q, from, to); }
  }

  /** Renaming back restores the tree, contents and modes included. */
  lemma RenamedBack(t: Tree, from: Path, to: Path)
    requires Apart(from, to) && Subtree(t, to) == {}
    ensures Renamed(Renamed(t, from, to), to, from) == t
  {
    var t1 := Renamed(t, from, to);
    var t2 := Renamed(t1, to, from);
    forall q
      ensures (q in t2 <==> q in t) && (q in t ==> t2[q] == t[q])
    {
      RenamedAt(t, from, to, q);
      RenamedAt(t1, to, from, q);
      if from <= q {
        RenamedAt(t, from, to, Carry(q, from, to));
        CarryBack(q, from, to);
        assert Carry(q, from, to) !in Subtree(t, to);
        if to <= q { UnderChain(q, from, to); }
      }
      assert q in t ==> q !in Subtree(t, to);
      BackAgain(t, t1, t2, from, to, q);
    }
  }

  lemma RenamedRooted(t: Tree, from: Path, to: Path)
    requires CanCopy(t, from, to) && from != []
    ensures Rooted(Renamed(t, from, to))
  {
    var t' := Renamed(t, from, to);
    CopiesApart(t, from, to);
    forall p | p in t'
      ensures Grounded(t', p)
    {
      if p in Copies(t, from, to) {
        MovedParent(t, from, to, p);
      } else if p != [] {
        assert Grounded(t, p);
        KeptParent(t, from, to, p);
      }
    }
  }

  lemma KeptParent(t: Tree, from: Path, to: Path, p: Path)
    requires CanCopy(t, from, to) && p in t && !(from <= p) && p != []
    ensures var t' := Renamed(t, from, to); Parent(p) in t && Parent(p) in t' && t'[Parent(p)] == t[Parent(p)]
  {
    assert Grounded(t, p);
    assert from <= Parent(p) ==> from <= p;
    assert Parent(p) !in Subtree(t, to);
    CopiesAt(t, from, to, Parent(p));
  }

  lemma MovedParent(t: Tree, from: Path, to: Path, p: Path)
    requires CanCopy(t, from, to) && p in Copies(t, from, to)
    ensures var t' := Renamed(t, from, to); Parent(p) in t' && t'[Parent(p)].Dir? && Solid(p[|p| - 1])
  {
    CopiesAt(t, from, to, p);
    if p == to {
      KeptParent2(t, from, to);
    } else {
      CarriedParent(p, to, from);
      assert Grounded(t, Carry(p, to, from));
      CopiesAt(t, from, to, Parent(p));
    }
  }

  lemma CarriedParent(p: Path, from: Path, to: Path)
    requires from < p
    ensures var k := Carry(p, from, to);
            from <= Parent(p) && k != [] && Carry(Parent(p), from, to) == Parent(k) && k[|k| - 1] == p[|p| - 1]
  {}

  lemma KeptParent2(t: Tree, from: Path, to: Path)
    requires CanCopy(t, from, to)
    ensures var t' := Renamed(t, from, to); Parent(to) in t' && t'[Parent(to)] == t[Parent(to)]
  {
    assert Parent(to) <= to;
    assert from <= Parent(to) ==> from <= to;
    CopiesAt(t, from, to, Parent(to));
  }

  lemma WithoutRooted(t: Tree, root: Path)
    requires Rooted(t) && root != []
    ensures Rooted(Without(t, root))
  {
    var t' := Without(t, root);
    forall p | p in t'
      ensures Grounded(t', p)
    {
      assert Grounded(t, p);
      assert p != [] && root <= Parent(p) ==> root <= p;
    }
  }

  lemma CleanedUp(t1: Tree, t2: Tree, to: Path)
    requires OnlyBelow(t1, t2, to) && Subtree(t1, to) == {}
    ensures Without(t2, to) == t1
  {
    var t := Without(t2, to);
    forall q
      ensures (q in t1 <==> q in t) && (q in t ==> t1[q] == t[q])
    {
      assert q !in Subtree(t1, to);
      assert Under(q, to) || SameAt(t1, t2, q);
    }
  }

  // ---------------------------------------------------------------------
  // A move and its marks (internal/api/admin.go, handleMove)
  // ---------------------------------------------------------------------

  ghost predicate SolidPath(p: Path) { p != [] && forall i :: 0 <= i < |p| ==> Solid(p[i]) }

  /** The path text of a moved node is the re-rooted path text. */
  lemma CarriedText(k: Path, from: Path, to: Path)
    requires SolidPath(k) && SolidPath(from) && SolidPath(to) && from <= k
    ensures AtOrBelow(Join(k), Join(from)) && Join(Carry(k, from, to)) == Reroot(Join(k), Join(from), Join(to))
  {
    var rest := k[|from|..];
    assert k == from + rest;
    if rest == [] {
      assert k == from && Carry(k, from, to) == to;
      assert Join(from) + "" == Join(from) && Join(to) + "" == Join(to);
      RerootText(Join(from), Join(to), "");
    } else {
      JoinExtends(from, rest);
      JoinExtends(to, rest);
      RerootText(Join(from), Join(to), "/" + Join(rest));
    }
  }

  lemma RerootText(f: string, g: string, r: string)
    requires r == "" || r[0] == '/'
    ensures AtOrBelow(f + r, f) && Reroot(f + r, f, g) == g + r
    ensures forall x :: r == "/" + x ==> f + r == f + "/" + x && g + r == g + "/" + x
  {
    assert (f + r)[|f|..] == r;
    if r == "" { assert f + r == f; } else { assert (f + r)[..|f| + 1] == f + "/"; }
  }

  /** After a successful Move, and with no stale mark at or below the new place,
      RenamePrivate succeeds whatever order the rows come in and re-roots the
      table in one piece; every node governed by a mark at or below the moved one
      gives every reader the same verdict at its new path. */
  lemma MoveCarriesMarks(t: Tree, m: Marks, from: Path, to: Path, rows: seq<string>, a: Actor)
    requires Apart(from, to) && SolidPath(from) && SolidPath(to)
    requires Distinct(rows) && Elements(rows) == m.Keys && NoneAtOrBelow(m, Join(to))
    ensures Incomparable(Join(from), Join(to))
    ensures RenameRows(m, rows, Join(from), Join(to)) == (Moved(m, Join(from), Join(to)), true)
    ensures |Moved(m, Join(from), Join(to))| == |m|
    ensures forall k :: k in t && SolidPath(k) && from <= k && GovernedWithin(m, Join(k), Join(from)) ==>
              Carry(k, from, to) in Renamed(t, from, to) &&
              (PrivateToOthers(Moved(m, Join(from), Join(to)), a, Join(Carry(k, from, to))) <==>
                PrivateToOthers(m, a, Join(k)))
  {
    var f, g := Join(from), Join(to);
    BelowIsExtension(from, to);
    BelowIsExtension(to, from);
    MovedFacts(m, f, g);
    RenameIsReroot(m, rows, f, g);
    JoinSolid(to);
    forall k | k in t && SolidPath(k) && from <= k && GovernedWithin(m, Join(k), f)
      ensures Carry(k, from, to) in Renamed(t, from, to)
      ensures PrivateToOthers(Moved(m, f, g), a, Join(Carry(k, from, to))) <==> PrivateToOthers(m, a, Join(k))
    {
      CarriedText(k, from, to);
      MarksTravel(m, f, g, Join(k), a);
      CarryBack(k, from, to);
      CopiesAt(t, from, to, Carry(k, from, to));
    }
  }

  /** The governing mark of rel lies at or below root. */
  predicate GovernedWithin(m: Marks, rel: string, root: string) {
    Governing(m, rel).Some? && AtOrBelow(Governing(m, rel).value, root)
  }

  /** SetPrivate never checks that a folder exists, so a stale mark can be in the
      way: then renaming the marks fails in any row order, and what was moved to
      the stale mark's place falls to the owner of that mark. */
  lemma StaleMarkBlocks(m: Marks, from: Path, to: Path, rows: seq<string>, a: Actor, k: Path)
    requires Apart(from, to) && SolidPath(from) && SolidPath(to) && SolidPath(k) && from <= k
    requires Distinct(rows) && Elements(rows) == m.Keys
    requires Join(k) in m && Join(Carry(k, from, to)) in m
    ensures var (m', ok) := RenameRows(m, rows, Join(from), Join(to)); var stale := Join(Carry(k, from, to));
            !ok && (PrivateToOthers(m', a, stale) <==> !a.admin && m[stale] != a.userId)
  {
    BelowIsExtension(from, to);
    BelowIsExtension(to, from);
    CarriedText(k, from, to);
    JoinSolid(to);
    BlockingMarkStays(m, rows, Join(from), Join(to), Join(k));
  }
}
