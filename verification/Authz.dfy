// internal/authz/authz.go: the engine that caches the mark table and answers
// permission checks, and the listing filter of internal/api/files.go on top.
module Authz {
  import opened Common
  import opened Paths
  import opened Marks
  import opened Accounts

  datatype Verdict = Allowed | ErrPrivate | ErrOutOfScope | ErrDenied | ErrInvalid | ErrStore

  predicate WithinScope(scope: string, rel: string) { scope == "" || AtOrBelow(rel, scope) }

  predicate ScopeOwnsRoot(scope: string, rel: string) { scope != "" && rel == scope }

  /** CanRead against a mark table. */
  function ReadVerdict(m: Marks, a: Actor, path: string): Verdict {
    match Clean(path)
    case Invalid => ErrInvalid
    case Ok(rel) => if PrivateToOthers(m, a, rel) then ErrPrivate else Allowed
  }

  /** CanWrite against a mark table. */
  function WriteVerdict(m: Marks, a: Actor, path: string): Verdict {
    match Clean(path)
    case Invalid => ErrInvalid
    case Ok(rel) =>
      if a.admin then Allowed
      else if a.userId == 0 then ErrDenied
      else if !WithinScope(a.scope, rel) || ScopeOwnsRoot(a.scope, rel) then ErrOutOfScope
      else if PrivateToOthers(m, a, rel) then ErrPrivate
      else Allowed
  }

  /** Who may read, by the marks: a path is private to a non-admin exactly when the
      mark that contains it, and that all other marks containing it contain too, is
      not its own. */
  lemma ReadByMarks(m: Marks, a: Actor, path: string)
    ensures Clean(path).Invalid? ==> ReadVerdict(m, a, path) == ErrInvalid
    ensures Clean(path).Ok? ==>
              var rel := Clean(path).path;
              (ReadVerdict(m, a, path) == ErrPrivate || ReadVerdict(m, a, path) == Allowed) &&
              (ReadVerdict(m, a, path) == ErrPrivate <==>
                !a.admin && exists g :: IsDeepest(m, rel, g) && m[g] != a.userId)
  {
    if Clean(path).Ok? {
      var rel := Clean(path).path;
      var d := Governing(m, rel);
      GoverningIsDeepest(m, rel, if d.Some? then d.value else "");
      if d.Some? { assert IsDeepest(m, rel, d.value); }
      if g :| IsDeepest(m, rel, g) { GoverningIsDeepest(m, rel, g); }
    }
  }

  ghost predicate IsDeepest(m: Marks, rel: string, g: string) {
    g in m && g != "" && AtOrBelow(rel, g) && forall p :: p in m && p != "" && AtOrBelow(rel, p) ==> AtOrBelow(g, p)
  }

  /** Who may write: an admin everywhere, a user strictly inside its scope (anywhere
      if it has none) where it may read, nobody else. */
  lemma WriteByScope(m: Marks, a: Actor, path: string)
    ensures WriteVerdict(m, a, path) == Allowed <==>
              Clean(path).Ok? &&
              (a.admin ||
                (a.userId != 0 && (a.scope != "" ==> a.scope + "/" <= Clean(path).path) &&
                 ReadVerdict(m, a, path) == Allowed))
    ensures WriteVerdict(m, a, path) == ErrDenied <==> Clean(path).Ok? && !a.admin && a.userId == 0
    ensures WriteVerdict(m, a, path) == ErrPrivate ==> ReadVerdict(m, a, path) == ErrPrivate
    ensures WriteVerdict(m, a, path) == ErrOutOfScope <==>
              Clean(path).Ok? && !a.admin && a.userId != 0 && a.scope != "" && !(a.scope + "/" <= Clean(path).path)
  {
    if Clean(path).Ok? { assert a.scope + "/" <= Clean(path).path ==> Clean(path).path != a.scope; }
  }

  /** The paths of a list that the actor may see, in order. */
  function Visible(m: Marks, a: Actor, paths: seq<string>): seq<string> {
    if |paths| == 0 then [] else IfReadable(m, a, paths[0]) + Visible(m, a, paths[1..])
  }

  function IfReadable(m: Marks, a: Actor, p: string): seq<string> {
    if ReadVerdict(m, a, p) == Allowed then [p] else []
  }

  lemma {:induction false} VisibleSnoc(m: Marks, a: Actor, paths: seq<string>, p: string)
    ensures Visible(m, a, paths + [p]) ==
            Visible(m, a, paths) + IfReadable(m, a, p)
  {
    if |paths| > 0 {
      var h, t, e := IfReadable(m, a, paths[0]), Visible(m, a, paths[1..]), IfReadable(m, a, p);
      VisibleSnoc(m, a, paths[1..], p);
      assert (paths + [p])[1..] == paths[1..] + [p];
      assert h + (t + e) == (h + t) + e;
    } else {
      assert paths + [p] == [p];
    }
  }

  lemma {:induction false} VisibleMembers(m: Marks, a: Actor, paths: seq<string>, p: string)
    ensures p in Visible(m, a, paths) <==> p in paths && ReadVerdict(m, a, p) == Allowed
  {
    if |paths| > 0 {
      VisibleMembers(m, a, paths[1..], p);
      assert paths == [paths[0]] + paths[1..];
    }
  }

  // ---------------------------------------------------------------------
  // What the engine does to the table and to its cache
  // ---------------------------------------------------------------------

  /** The store's tables and the engine's cache of the marks. */
  datatype Cached = Cached(tables: Tables, priv: Marks)

  datatype Act =
    | SetMark(a: Actor, dir: string)
    | UnsetMark(a: Actor, dir: string)
    | RenameMarks(from: string, to: string, rows: seq<string>)   // rows: the order SELECT returns
    | DropMarks(dir: string)
    | Invalidate

  predicate Coherent(s: Cached) { s.priv == s.tables.marks }

  predicate OwnsGoverning(m: Marks, userId: int, rel: string) {
    var g := Governing(m, rel); g.Some? && g.value in m && m[g.value] == userId
  }

  /** After the store's answer: reload on success only. */
  function Reloaded(s: Cached, answer: (Tables, Result)): (Cached, Verdict) {
    if answer.1 == Done then (Cached(answer.0, answer.0.marks), Allowed) else (s.(tables := answer.0), ErrStore)
  }

  function Step(s: Cached, act: Act): (Cached, Verdict)
    requires UniqueNames(s.tables.users)
  {
    match act
    case SetMark(a, dir) =>
      (match Clean(dir)
       case Invalid => (s, ErrInvalid)
       case Ok(c) =>
         if c == "." then (s, ErrDenied)
         else if !a.admin && (a.userId == 0 || !WithinScope(a.scope, c) || ScopeOwnsRoot(a.scope, c)) then
           (s, ErrOutOfScope)
         else Reloaded(s, Apply(s.tables, Op.SetPrivate(c, a.userId))))
    case UnsetMark(a, dir) =>
      (match Clean(dir)
       case Invalid => (s, ErrInvalid)
       case Ok(c) =>
         if !a.admin && !OwnsGoverning(s.priv, a.userId, c) then (s, ErrPrivate)
         else Reloaded(s, Apply(s.tables, Op.UnsetPrivate(c))))
    case RenameMarks(from, to, rows) => Reloaded(s, Apply(s.tables, Op.RenamePrivate(from, to, rows)))
    case DropMarks(dir) => Reloaded(s, Apply(s.tables, Op.DeletePrivateBelow(dir)))
    case Invalidate => (s.(priv := s.tables.marks), Allowed)
  }

  class Engine {
    const src: Store
    var priv: Marks

    ghost function View(): Cached
      reads this, src
    {
      Cached(src.View(), priv)
    }

    constructor (src: Store)
      ensures this.src == src && View() == Cached(src.View(), src.marks)
    {
      this.src, priv := src, src.marks;
    }

    method Reload()
      modifies this
      ensures priv == src.marks
    {
      priv := src.marks;
    }

    /** The scan over the cached map, in whatever order it is iterated. */
    method OwningPrivateFolder(rel: string) returns (best: string, owner: int, found: bool)
      ensures found <==> Governing(priv, rel).Some?
      ensures found ==> Governing(priv, rel) == Some(best) && best in priv && owner == priv[best]
    {
      best, owner, found := "", 0, false;
      var todo := priv.Keys;
      while todo != {}
        invariant todo <= priv.Keys
        invariant found ==> best in priv && best != "" && AtOrBelow(rel, best) && owner == priv[best]
        invariant !found ==> best == ""
        invariant forall p :: p in priv && p !in todo && p != "" && AtOrBelow(rel, p) ==> found && |p| <= |best|
        decreases |todo|
      {
        var p :| p in todo;
        todo := todo - {p};
        if AtOrBelow(rel, p) {
          if |p| > |best| { best, owner, found := p, priv[p], true; }
        }
      }
      forall p | p in priv && p != "" && AtOrBelow(rel, p)
        ensures AtOrBelow(best, p)
      {
        AncestorsChain(rel, best, p);
      }
      GoverningIsDeepest(priv, rel, best);
    }

    method IsPrivateToOthers(a: Actor, rel: string) returns (b: bool)
      ensures b == PrivateToOthers(priv, a, rel)
    {
      if a.admin { return false; }
      var best, owner, found := OwningPrivateFolder(rel);
      b := found && owner != a.userId;
    }

    method CanRead(a: Actor, path: string) returns (v: Verdict)
      ensures v == ReadVerdict(priv, a, path)
    {
      var clean := Clean(path);
      if clean.Invalid? { return ErrInvalid; }
      var hidden := IsPrivateToOthers(a, clean.path);
      v := if hidden then ErrPrivate else Allowed;
    }

    method CanWrite(a: Actor, path: string) returns (v: Verdict)
      ensures v == WriteVerdict(priv, a, path)
    {
      var clean := Clean(path);
      if clean.Invalid? { return ErrInvalid; }
      if a.admin { return Allowed; }
      if a.userId == 0 { return ErrDenied; }
      if !WithinScope(a.scope, clean.path) || ScopeOwnsRoot(a.scope, clean.path) { return ErrOutOfScope; }
      var hidden := IsPrivateToOthers(a, clean.path);
      v := if hidden then ErrPrivate else Allowed;
    }

    /** Compacts the slice in place; the first n entries are what is kept. */
    method FilterPaths(a: Actor, paths: array<string>) returns (n: nat)
      modifies paths
      ensures n <= paths.Length && paths[..n] == Visible(priv, a, old(paths[..]))
    {
      ghost var all := paths[..];
      n := 0;
      var k := 0;
      assert paths[..0] == [] && all[..0] == [];
      while k < paths.Length
        invariant 0 <= n <= k <= paths.Length
        invariant paths[..n] == Visible(priv, a, all[..k])
        invariant forall i :: k <= i < paths.Length ==> paths[i] == all[i]
      {
        var p := paths[k];
        ghost var done := paths[..n];
        assert all[..k + 1] == all[..k] + [p];
        VisibleSnoc(priv, a, all[..k], p);
        var clean := Clean(p);
        if clean.Ok? {
          var hidden := IsPrivateToOthers(a, clean.path);
          if !hidden {
            paths[n] := p;
            assert paths[..n + 1] == done + [p];
            n := n + 1;
          }
        }
        k := k + 1;
      }
      assert all[..k] == all;
    }

    method SetPrivate(a: Actor, dir: string) returns (v: Verdict)
      requires UniqueNames(src.users)
      modifies this, src`marks
      ensures (View(), v) == Step(old(View()), SetMark(a, dir))
    {
      var clean := Clean(dir);
      if clean.Invalid? { return ErrInvalid; }
      if clean.path == "." { return ErrDenied; }
      if !a.admin && (a.userId == 0 || !WithinScope(a.scope, clean.path) || ScopeOwnsRoot(a.scope, clean.path)) {
        return ErrOutOfScope;
      }
      var r := src.SetPrivate(clean.path, a.userId);
      if r != Done { return ErrStore; }
      Reload();
      v := Allowed;
    }

    method UnsetPrivate(a: Actor, dir: string) returns (v: Verdict)
      requires UniqueNames(src.users)
      modifies this, src`marks
      ensures (View(), v) == Step(old(View()), UnsetMark(a, dir))
    {
      var clean := Clean(dir);
      if clean.Invalid? { return ErrInvalid; }
      if !a.admin {
        var best, owner, found := OwningPrivateFolder(clean.path);
        if !found || owner != a.userId { return ErrPrivate; }
      }
      var r := src.UnsetPrivate(clean.path);
      if r != Done { return ErrStore; }
      Reload();
      v := Allowed;
    }

    /** After a move. An error leaves the cache as it was, also when some rows were
        updated before the one that failed. */
    method RenamePrivate(from: string, to: string) returns (v: Verdict, ghost rows: seq<string>)
      requires UniqueNames(src.users)
      modifies this, src`marks
      ensures Distinct(rows) && Elements(rows) == old(src.marks).Keys
      ensures (View(), v) == Step(old(View()), RenameMarks(from, to, rows))
    {
      var r;
      r, rows := src.RenamePrivate(from, to);
      if r != Done { return ErrStore, rows; }
      Reload();
      v := Allowed;
    }

    method DeletePrivateBelow(dir: string) returns (v: Verdict)
      requires UniqueNames(src.users)
      modifies this, src`marks
      ensures (View(), v) == Step(old(View()), DropMarks(dir))
    {
      var r := src.DeletePrivateBelow(dir);
      if r != Done { return ErrStore; }
      Reload();
      v := Allowed;
    }
  }

  // ---------------------------------------------------------------------
  // Listings
  // ---------------------------------------------------------------------

  datatype FileInfo = FileInfo(path: string, isDir: bool, private: bool)

  /** annotatePrivate. */
  function Annotate(m: Marks, a: Actor, item: FileInfo): FileInfo {
    var c := Clean(item.path);
    if c.Ok? && c.path in m && (a.admin || m[c.path] == a.userId) then item.(private := true) else item
  }

  /** The listing an actor is shown: what it may read, annotated, in order. */
  function Shown(m: Marks, a: Actor, items: seq<FileInfo>): seq<FileInfo> {
    if |items| == 0 then []
    else
      (if ReadVerdict(m, a, items[0].path) == Allowed then [Annotate(m, a, items[0])] else [])
      + Shown(m, a, items[1..])
  }

  lemma {:induction false} RebuiltIsShown(m: Marks, a: Actor, items: seq<FileInfo>, kept: set<string>)
    requires forall it :: it in items ==> (it.path in kept <==> ReadVerdict(m, a, it.path) == Allowed)
    ensures Rebuilt(items, Some(kept), (it: FileInfo) => Annotate(m, a, it)) == Shown(m, a, items)
  {
    if |items| > 0 {
      assert items == [items[0]] + items[1..];
      RebuiltIsShown(m, a, items[1..], kept);
    }
  }

  /** The items whose path is kept (all of them when there is no list), annotated. */
  function Rebuilt(items: seq<FileInfo>, kept: Option<set<string>>, annotate: FileInfo -> FileInfo): seq<FileInfo> {
    if |items| == 0 then [] else IfKept(items[0], kept, annotate) + Rebuilt(items[1..], kept, annotate)
  }

  function IfKept(it: FileInfo, kept: Option<set<string>>, annotate: FileInfo -> FileInfo): seq<FileInfo> {
    if kept.None? || it.path in kept.value then [annotate(it)] else []
  }

  lemma {:induction false} RebuiltSnoc(items: seq<FileInfo>, it: FileInfo, kept: Option<set<string>>,
                                       annotate: FileInfo -> FileInfo)
    ensures Rebuilt(items + [it], kept, annotate) == Rebuilt(items, kept, annotate) + IfKept(it, kept, annotate)
  {
    if |items| > 0 {
      assert (items + [it])[1..] == items[1..] + [it];
      RebuiltSnoc(items[1..], it, kept, annotate);
    } else {
      assert items + [it] == [it];
    }
  }

  predicate Follows(parts: seq<seq<FileInfo>>, items: seq<FileInfo>, k: nat, kept: Option<set<string>>,
                    annotate: FileInfo -> FileInfo)
  {
    k < |items| && k + 1 < |parts| && parts[k + 1] == parts[k] + IfKept(items[k], kept, annotate)
  }

  /** parts[k] is what is kept of the first k items. */
  lemma {:induction false} RebuiltParts(items: seq<FileInfo>, n: nat, kept: Option<set<string>>,
                                        annotate: FileInfo -> FileInfo) returns (parts: seq<seq<FileInfo>>)
    requires n <= |items|
    ensures |parts| == n + 1 && parts[0] == [] && parts[n] == Rebuilt(items[..n], kept, annotate)
    ensures forall k: nat :: k < n ==> Follows(parts, items, k, kept, annotate)
  {
    if n == 0 { return [[]]; }
    parts := RebuiltParts(items, n - 1, kept, annotate);
    ghost var was := parts;
    assert items[..n] == items[..n - 1] + [items[n - 1]];
    RebuiltSnoc(items[..n - 1], items[n - 1], kept, annotate);
    parts := was + [was[n - 1] + IfKept(items[n - 1], kept, annotate)];
    forall k: nat | k < n
      ensures Follows(parts, items, k, kept, annotate)
    {
      if k < n - 1 { assert Follows(was, items, k, kept, annotate); }
    }
  }

  function CountDirs(items: seq<FileInfo>): nat {
    if |items| == 0 then 0 else CountDirs(items[..|items| - 1]) + if items[|items| - 1].isDir then 1 else 0
  }

  lemma CountDirsSnoc(items: seq<FileInfo>, it: FileInfo)
    ensures CountDirs(items + [it]) == CountDirs(items) + if it.isDir then 1 else 0
  {
    assert (items + [it])[..|items|] == items;
  }

  method PutItem(items: array<FileInfo>, at: nat, item: FileInfo)
    requires at < items.Length
    modifies items
    ensures items[..at + 1] == old(items[..at]) + [item]
    ensures forall i :: at < i < items.Length ==> items[i] == old(items[i])
  {
    items[at] := item;
  }

  /** Compacts the items slice in place and recounts it. */
  method RebuildListing(items: array<FileInfo>, kept: Option<set<string>>, annotate: FileInfo -> FileInfo)
    returns (total: nat, dirs: nat, files: nat)
    modifies items
    ensures total <= items.Length && items[..total] == Rebuilt(old(items[..]), kept, annotate)
    ensures dirs == CountDirs(items[..total]) && dirs + files == total
  {
    ghost var all := items[..];
    ghost var done: seq<FileInfo> := [];
    ghost var parts := RebuiltParts(all, |all|, kept, annotate);
    assert all[..|all|] == all && items[..0] == done;
    total, dirs, files := 0, 0, 0;
    var k := 0;
    while k < items.Length
      invariant 0 <= total <= k <= items.Length
      invariant done == parts[k] && |done| == total
      invariant items[..total] == done
      invariant forall i :: k <= i < items.Length ==> items[i] == all[i]
      invariant dirs == CountDirs(done) && dirs + files == total
    {
      assert Follows(parts, all, k, kept, annotate);
      if kept.None? || items[k].path in kept.value {
        var item := annotate(items[k]);
        CountDirsSnoc(done, item);
        PutItem(items, total, item);
        done := done + [item];
        if item.isDir { dirs := dirs + 1; } else { files := files + 1; }
        total := total + 1;
      }
      k := k + 1;
    }
  }

  lemma {:induction false} RebuiltAll(items: seq<FileInfo>, annotate: FileInfo -> FileInfo)
    ensures |Rebuilt(items, None, annotate)| == |items|
    ensures forall i :: 0 <= i < |items| ==> Rebuilt(items, None, annotate)[i] == annotate(items[i])
  {
    if |items| > 0 { RebuiltAll(items[1..], annotate); }
  }

  /** filterListing: the actor is left with exactly the entries it may read, in
      order, and the totals count only those. In insecure mode every entry stays,
      annotated as for an admin. */
  method FilterListing(e: Engine, insecure: bool, a: Actor, items: array<FileInfo>)
    returns (total: nat, dirs: nat, files: nat)
    modifies items
    ensures total <= items.Length
    ensures !insecure ==> items[..total] == Shown(e.priv, a, old(items[..]))
    ensures insecure ==>
              total == items.Length &&
              forall i :: 0 <= i < total ==> items[i] == Annotate(e.priv, Actor(0, true, ""), old(items[i]))
    ensures dirs == CountDirs(items[..total]) && dirs + files == total
  {
    var priv := e.priv;
    if insecure {
      var annotate := (it: FileInfo) => Annotate(priv, Actor(0, true, ""), it);
      RebuiltAll(items[..], annotate);
      total, dirs, files := RebuildListing(items, None, annotate);
      return;
    }
    var paths := new string[items.Length](i requires 0 <= i < items.Length reads items => items[i].path);
    ghost var names := paths[..];
    var n := e.FilterPaths(a, paths);
    var kept := set i | 0 <= i < n :: paths[i];
    forall it | it in items[..]
      ensures it.path in kept <==> ReadVerdict(priv, a, it.path) == Allowed
    {
      var k :| 0 <= k < items.Length && items[k] == it;
      assert names[k] == it.path;
      VisibleMembers(priv, a, names, it.path);
      assert it.path in kept <==> it.path in paths[..n];
    }
    RebuiltIsShown(priv, a, items[..], kept);
    total, dirs, files := RebuildListing(items, Some(kept), (it: FileInfo) => Annotate(priv, a, it));
  }

  /** What is shown of an item is the item, flagged private only to admins and to
      the owner of a mark on it. */
  lemma AnnotatedOnly(m: Marks, a: Actor, item: FileInfo)
    ensures var r := Annotate(m, a, item);
            r.path == item.path && r.isDir == item.isDir && (item.private ==> r.private) &&
            (r.private && !item.private <==>
              !item.private && Clean(item.path).Ok? && Clean(item.path).path in m &&
              (a.admin || m[Clean(item.path).path] == a.userId))
  {}

  /** Every item shown is an item of the listing the actor may read, and every
      such item is shown. */
  lemma {:induction false} ShownExactly(m: Marks, a: Actor, items: seq<FileInfo>, path: string)
    ensures (exists it :: it in Shown(m, a, items) && it.path == path) <==>
            (exists it :: it in items && it.path == path) && ReadVerdict(m, a, path) == Allowed
  {
    if |items| > 0 {
      ShownExactly(m, a, items[1..], path);
      assert items == [items[0]] + items[1..];
      assert Annotate(m, a, items[0]).path == items[0].path;
    }
  }
}
