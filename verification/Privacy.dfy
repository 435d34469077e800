// Who gets to read what others marked private, over the steps of the engine in
// internal/authz/authz.go and the checks of the handlers that call it
// (internal/api/admin.go, internal/api/users.go).
module Privacy {
  import opened Common
  import opened Paths
  import opened Marks
  import opened Accounts
  import opened Authz

  // ---------------------------------------------------------------------
  // The cache and the table
  // ---------------------------------------------------------------------

  lemma StepKeepsSound(s: Cached, act: Act)
    requires Sound(s.tables)
    ensures Sound(Step(s, act).0.tables)
  {
    match act
    case SetMark(a, dir) => if Clean(dir).Ok? { ApplyKeepsSound(s.tables, Op.SetPrivate(Clean(dir).path, a.userId)); }
    case UnsetMark(a, dir) => if Clean(dir).Ok? { ApplyKeepsSound(s.tables, Op.UnsetPrivate(Clean(dir).path)); }
    case RenameMarks(from, to, rows) => ApplyKeepsSound(s.tables, Op.RenamePrivate(from, to, rows));
    case DropMarks(dir) => ApplyKeepsSound(s.tables, Op.DeletePrivateBelow(dir));
    case Invalidate =>
  }

  lemma StepCaches(s: Cached, act: Act)
    requires UniqueNames(s.tables.users)
    ensures var (s', v) := Step(s, act); if v == Allowed then Coherent(s') else s'.priv == s.priv
  {}

  lemma FailureKeepsTable(s: Cached, act: Act)
    requires UniqueNames(s.tables.users) && !act.RenameMarks?
    ensures var (s', v) := Step(s, act); v == Allowed || s'.tables == s.tables
  {}

  /** From any state a step that answers nil makes the cache the table, and one that
      fails leaves the cache as it was. From a coherent state the two differ exactly
      after a rename that moved some marks and then failed. */
  lemma StaleExactly(s: Cached, act: Act)
    requires UniqueNames(s.tables.users)
    ensures var (s', v) := Step(s, act);
            (if v == Allowed then Coherent(s') else s'.priv == s.priv) &&
            (Coherent(s) ==>
              (Coherent(s') <==> !(act.RenameMarks? && v != Allowed && s'.tables.marks != s.tables.marks)))
  {
    StepCaches(s, act);
    if !act.RenameMarks? { FailureKeepsTable(s, act); }
  }

  lemma {:induction false} RunCoherent(s: Cached, acts: seq<Act>)
    requires Sound(s.tables) && Coherent(s) && NoFailedRename(s, acts)
    ensures Sound(After(s, acts).tables) && Coherent(After(s, acts))
    decreases |acts|
  {
    if |acts| > 0 {
      StepKeepsSound(s, acts[0]);
      StaleExactly(s, acts[0]);
      RunCoherent(Step(s, acts[0]).0, acts[1..]);
    }
  }

  ghost function After(s: Cached, acts: seq<Act>): Cached
    requires Sound(s.tables)
    decreases |acts|
  {
    if |acts| == 0 then s
    else
      StepKeepsSound(s, acts[0]);
      After(Step(s, acts[0]).0, acts[1..])
  }

  ghost predicate NoFailedRename(s: Cached, acts: seq<Act>)
    requires Sound(s.tables)
    decreases |acts|
  {
    |acts| == 0 ||
    (StepKeepsSound(s, acts[0]);
     (acts[0].RenameMarks? ==> Step(s, acts[0]).1 == Allowed) && NoFailedRename(Step(s, acts[0]).0, acts[1..]))
  }

  // ---------------------------------------------------------------------
  // Removing a mark of somebody else
  // ---------------------------------------------------------------------

  lemma CleanNonEmpty(dir: string)
    requires Clean(dir).Ok?
    ensures Clean(dir).path != "" && (Clean(dir).path != "." ==> CleanPath(Clean(dir).path) == Some(Clean(dir).path))
  {
    CleanIsNormalize(dir);
    CleanFixpoints(dir);
    EmptyNotNormal();
  }

  lemma EmptyNotNormal()
    ensures !NormalForm("")
  {
    assert Split("")[0] == "" && !Solid("");
  }

  /** A non-admin removes somebody else's mark c exactly when it names c and the
      cache lets a mark of its own govern c. */
  lemma UnmarksAnothers(s: Cached, a: Actor, dir: string, c: string)
    requires UniqueNames(s.tables.users) && !a.admin
    requires c in s.tables.marks && s.tables.marks[c] != a.userId
    ensures c !in Step(s, UnsetMark(a, dir)).0.tables.marks <==>
              Clean(dir) == Ok(c) && c != "." && OwnsGoverning(s.priv, a.userId, c)
  {
    if Clean(dir).Ok? { CleanNonEmpty(dir); }
  }

  /** With a cache that holds the table this never happens. */
  lemma CoherentUnmark(s: Cached, a: Actor, dir: string, c: string)
    requires UniqueNames(s.tables.users) && Coherent(s) && !a.admin
    requires c in s.tables.marks && s.tables.marks[c] != a.userId
    ensures c in Step(s, UnsetMark(a, dir)).0.tables.marks
  {
    UnmarksAnothers(s, a, dir, c);
    if Clean(dir) == Ok(c) {
      CleanNonEmpty(dir);
      GoverningIsDeepest(s.priv, c, c);
    }
  }

  lemma UnsetApplied(t: Tables, c: string)
    requires UniqueNames(t.users)
    ensures Apply(t, Op.UnsetPrivate(c)) ==
            if CleanPath(c).None? then (t, BadValue) else (t.(marks := t.marks - {CleanPath(c).value}), Done)
  {}

  lemma SetApplied(t: Tables, c: string, owner: int)
    requires UniqueNames(t.users) && CleanPath(c) == Some(c)
    ensures Apply(t, Op.SetPrivate(c, owner)) ==
            if owner in t.users then (t.(marks := t.marks[c := owner]), Done) else (t, Constraint)
  {}

  lemma RootIsNoMark(dir: string)
    requires Clean(dir) == Ok(".")
    ensures CleanPath(".").None?
  {
    CleanFixpoints(dir);
  }

  /** Which mark an UnsetPrivate removes: the one it names, for an admin, or for a
      user whose own mark governs it in the cache. */
  lemma UnmarksExactly(s: Cached, a: Actor, dir: string)
    requires UniqueNames(s.tables.users)
    ensures var (s', v) := Step(s, UnsetMark(a, dir)); var m, m' := s.tables.marks, s'.tables.marks;
            s'.tables.users == s.tables.users &&
            if Clean(dir).Ok? && Clean(dir).path != "." && (a.admin || OwnsGoverning(s.priv, a.userId, Clean(dir).path))
            then v == Allowed && m' == m - {Clean(dir).path}
            else v != Allowed && m' == m
  {
    if Clean(dir).Ok? {
      UnsetApplied(s.tables, Clean(dir).path);
      if Clean(dir).path == "." { RootIsNoMark(dir); } else { CleanNonEmpty(dir); }
    }
  }

  /** What a SetPrivate marks: a folder other than the root, for a live user that is
      an admin or has it strictly inside its scope. */
  lemma MarksExactly(s: Cached, a: Actor, dir: string)
    requires UniqueNames(s.tables.users)
    ensures var (s', v) := Step(s, SetMark(a, dir)); var m, m' := s.tables.marks, s'.tables.marks;
            s'.tables.users == s.tables.users &&
            if Clean(dir).Ok? && Clean(dir).path != "." && a.userId in s.tables.users &&
               (a.admin || (a.userId != 0 && (a.scope != "" ==> a.scope + "/" <= Clean(dir).path)))
            then v == Allowed && m' == m[Clean(dir).path := a.userId]
            else v != Allowed && m' == m
    ensures Step(s, SetMark(a, dir)).1 == ErrInvalid <==> Clean(dir).Invalid?
    ensures Step(s, SetMark(a, dir)).1 == ErrDenied <==> Clean(dir) == Ok(".")
  {
    if Clean(dir).Ok? && Clean(dir).path != "." {
      CleanNonEmpty(dir);
      SetApplied(s.tables, Clean(dir).path, a.userId);
      assert a.scope + "/" <= Clean(dir).path ==> Clean(dir).path != a.scope;
    }
  }

  /** What a DeletePrivateBelow leaves: no mark for the root, else the marks that are
      neither on the folder nor below a case variant of it. */
  lemma DropsExactly(s: Cached, dir: string, p: string)
    requires UniqueNames(s.tables.users)
    ensures var (s', v) := Step(s, DropMarks(dir)); var m, m', c := s.tables.marks, s'.tables.marks, Clean(dir);
            s'.tables.users == s.tables.users &&
            if dir == "" || dir == "." then v == Allowed && m' == map[]
            else if c.Ok? && c.path != "." then
              v == Allowed && (p in m' <==> p in m && p != c.path && !BelowFolded(p, c.path)) &&
              (p in m' ==> m'[p] == m[p])
            else v == ErrStore && m' == m
  {
    if Clean(dir).Ok? && Clean(dir).path != "." { DeletedBelowExactly(s.tables.marks, Clean(dir).path); }
  }

  // ---------------------------------------------------------------------
  // What opens a hidden path
  // ---------------------------------------------------------------------

  lemma HiddenBy(m: Marks, x: Actor, rel: string)
    requires PrivateToOthers(m, x, rel)
    ensures var g := Governing(m, rel);
            g.Some? && g.value in m && g.value != "" && AtOrBelow(rel, g.value) && m[g.value] != x.userId
  {
    GoverningIsDeepest(m, rel, Governing(m, rel).value);
  }

  /** A new mark d governs rel if it contains rel and lies at or below the mark that
      governed rel so far. */
  lemma NewMarkGoverns(m: Marks, d: string, owner: int, rel: string)
    requires d != "" && Governing(m, rel).Some?
    ensures var g := Governing(m, rel).value;
            Governing(m[d := owner], rel) == Some(if AtOrBelow(rel, d) && AtOrBelow(d, g) then d else g)
  {
    var g := Governing(m, rel).value;
    GoverningIsDeepest(m, rel, g);
    if AtOrBelow(rel, d) {
      AncestorsChain(rel, d, g);
      if AtOrBelow(d, g) { GoverningUnderNew(m, d, owner, rel, g); }
    }
    GoverningIsDeepest(m[d := owner], rel, if AtOrBelow(rel, d) && AtOrBelow(d, g) then d else g);
  }

  lemma GoverningUnderNew(m: Marks, d: string, owner: int, rel: string, g: string)
    requires Governing(m, rel) == Some(g) && AtOrBelow(rel, d) && AtOrBelow(d, g)
    ensures forall p :: p in m[d := owner] && p != "" && AtOrBelow(rel, p) ==> AtOrBelow(d, p)
  {
    GoverningIsDeepest(m, rel, g);
    forall p | p in m && p != "" && AtOrBelow(rel, p)
      ensures AtOrBelow(d, p)
    {
      AtOrBelowTransitive(d, g, p);
    }
  }

  /** The actor's own mark opens rel to it exactly when it lies between rel and the
      mark that hides rel. */
  lemma TakesOver(m: Marks, x: Actor, d: string, rel: string)
    requires d != "" && PrivateToOthers(m, x, rel)
    ensures !PrivateToOthers(m[d := x.userId], x, rel) <==>
              AtOrBelow(rel, d) && AtOrBelow(d, Governing(m, rel).value)
  {
    HiddenBy(m, x, rel);
    NewMarkGoverns(m, d, x.userId, rel);
  }

  /** So marking d opens something exactly when d itself is hidden from the actor:
      what SetPrivate leaves its caller to check. */
  lemma TakesOverSome(m: Marks, x: Actor, d: string)
    requires d != ""
    ensures (exists rel :: PrivateToOthers(m, x, rel) && !PrivateToOthers(m[d := x.userId], x, rel)) <==>
              PrivateToOthers(m, x, d)
  {
    if PrivateToOthers(m, x, d) {
      HiddenBy(m, x, d);
      TakesOver(m, x, d, d);
    }
    if rel :| PrivateToOthers(m, x, rel) && !PrivateToOthers(m[d := x.userId], x, rel) {
      HiddenBy(m, x, rel);
      TakesOver(m, x, d, rel);
      GovernsBetween(m, rel, d);
    }
  }

  /** What lies between a path and its governing mark is governed by that mark. */
  lemma GovernsBetween(m: Marks, rel: string, d: string)
    requires Governing(m, rel).Some? && AtOrBelow(rel, d) && AtOrBelow(d, Governing(m, rel).value)
    ensures Governing(m, d) == Governing(m, rel)
  {
    var g := Governing(m, rel).value;
    GoverningIsDeepest(m, rel, g);
    forall p | p in m && p != "" && AtOrBelow(d, p)
      ensures AtOrBelow(g, p)
    {
      AtOrBelowTransitive(rel, d, p);
    }
    GoverningIsDeepest(m, d, g);
  }

  lemma SameGoverning(m: Marks, m': Marks, rel: string, g: string)
    requires Governing(m, rel) == Some(g) && g in m' && m'.Keys <= m.Keys
    ensures Governing(m', rel) == Some(g)
  {
    GoverningIsDeepest(m, rel, g);
    GoverningIsDeepest(m', rel, g);
  }

  /** A moved path and the mark below from that governs it. */
  ghost predicate Carries(m: Marks, from: string, to: string, rel: string, g: string) {
    Incomparable(from, to) && NoCollision(m, from, to) && from != "" && to != "" && AtOrBelow(rel, from) &&
    Governing(m, rel) == Some(g) && g in m && AtOrBelow(g, from)
  }

  lemma CarriedMark(m: Marks, from: string, to: string, rel: string, g: string)
    requires Carries(m, from, to, rel, g)
    ensures var m', rel', g' := Moved(m, from, to), Reroot(rel, from, to), Reroot(g, from, to);
            AtOrBelow(rel', to) && AtOrBelow(rel', g') && g' != "" && g' in m' && m'[g'] == m[g]
  {
    var g' := Reroot(g, from, to);
    GoverningIsDeepest(m, rel, g);
    RerootFacts(rel, from, to);
    RerootFacts(g, from, to);
    RerootMonotone(rel, g, from, to);
    MovedAt(m, from, to, g');
  }

  /** The deeper of the mark that came along and the one that stood there. */
  function Deeper(m: Marks, from: string, to: string, rel: string, g: string): string
    requires AtOrBelow(rel, from) && AtOrBelow(g, from)
  {
    var g', h := Reroot(g, from, to), Governing(m, Reroot(rel, from, to));
    if h.Some? && AtOrBelow(h.value, g') then h.value else g'
  }

  /** Where a moved path ends up, its own mark or one that stood there governs it,
      whichever lies deeper. */
  lemma MovedGoverns(m: Marks, from: string, to: string, rel: string, g: string)
    requires Carries(m, from, to, rel, g)
    ensures Governing(Moved(m, from, to), Reroot(rel, from, to)) == Some(Deeper(m, from, to, rel, g))
  {
    var m', rel', d := Moved(m, from, to), Reroot(rel, from, to), Deeper(m, from, to, rel, g);
    CarriedMark(m, from, to, rel, g);
    StoodThere(m, from, to, rel');
    forall p | p in m' && p != "" && AtOrBelow(rel', p)
      ensures AtOrBelow(d, p)
    {
      MovedContains(m, from, to, rel, g, p);
    }
    GoverningIsDeepest(m', rel', d);
  }

  /** A mark that governed the new place before stays there. */
  lemma StoodThere(m: Marks, from: string, to: string, rel': string)
    requires Incomparable(from, to) && NoCollision(m, from, to) && AtOrBelow(rel', to)
    ensures var h := Governing(m, rel');
            h.Some? ==>
              h.value in m && h.value != "" && AtOrBelow(rel', h.value) &&
              h.value in Moved(m, from, to) && Moved(m, from, to)[h.value] == m[h.value]
  {
    var h := Governing(m, rel');
    if h.Some? {
      GoverningIsDeepest(m, rel', h.value);
      MovedAt(m, from, to, h.value);
      if AtOrBelow(h.value, from) {
        AtOrBelowTransitive(rel', h.value, from);
        BelowEither(from, to);
      }
    }
  }

  /** A mark of the re-rooted table that contains the moved path came with it, or
      stood there before. */
  lemma MovedContains(m: Marks, from: string, to: string, rel: string, g: string, p: string)
    requires Carries(m, from, to, rel, g)
    requires p in Moved(m, from, to) && p != "" && AtOrBelow(Reroot(rel, from, to), p)
    ensures AtOrBelow(Deeper(m, from, to, rel, g), p)
  {
    var rel', g' := Reroot(rel, from, to), Reroot(g, from, to);
    var h := Governing(m, rel');
    CarriedMark(m, from, to, rel, g);
    StoodThere(m, from, to, rel');
    MovedAt(m, from, to, p);
    if AtOrBelow(p, to) && Reroot(p, to, from) in m {
      CameAlong(m, from, to, rel, g, p);
      if h.Some? && AtOrBelow(h.value, g') { AtOrBelowTransitive(h.value, g', p); }
    } else {
      GoverningIsDeepest(m, rel', if h.Some? then h.value else "");
      AncestorsChain(rel', h.value, g');
      if AtOrBelow(g', h.value) { AtOrBelowTransitive(g', h.value, p); }
    }
  }

  lemma CameAlong(m: Marks, from: string, to: string, rel: string, g: string, p: string)
    requires Carries(m, from, to, rel, g)
    requires AtOrBelow(p, to) && Reroot(p, to, from) in m && AtOrBelow(Reroot(rel, from, to), p)
    ensures AtOrBelow(Reroot(g, from, to), p)
  {
    var q := Reroot(p, to, from);
    GoverningIsDeepest(m, rel, g);
    RerootFacts(rel, from, to);
    RerootFacts(p, to, from);
    RerootMonotone(Reroot(rel, from, to), p, to, from);
    RerootMonotone(g, q, from, to);
  }

  /** A path that does not move, and that nothing moves above, keeps its governing
      mark. */
  lemma UnmovedGoverns(m: Marks, from: string, to: string, rel: string)
    requires Incomparable(from, to) && NoCollision(m, from, to) && Governing(m, rel).Some?
    requires !AtOrBelow(rel, from) && !AtOrBelow(rel, to)
    ensures var g := Governing(m, rel).value;
            Governing(Moved(m, from, to), rel) == Some(g) &&
            g in m && g in Moved(m, from, to) && Moved(m, from, to)[g] == m[g]
  {
    var g := Governing(m, rel).value;
    GoverningIsDeepest(m, rel, g);
    forall p | AtOrBelow(rel, p)
      ensures p in Moved(m, from, to) <==> p in m
      ensures p in m ==> Moved(m, from, to)[p] == m[p]
    {
      MovedAt(m, from, to, p);
      if AtOrBelow(p, from) { AtOrBelowTransitive(rel, p, from); }
      if AtOrBelow(p, to) { AtOrBelowTransitive(rel, p, to); }
    }
    GoverningIsDeepest(Moved(m, from, to), rel, g);
  }

  /** Removing another mark leaves the governing one. */
  lemma WithoutGoverns(m: Marks, gone: set<string>, rel: string)
    requires Governing(m, rel).Some? && Governing(m, rel).value !in gone
    ensures Governing(m - gone, rel) == Governing(m, rel) && Governing(m, rel).value in m
  {
    GoverningIsDeepest(m, rel, Governing(m, rel).value);
    SameGoverning(m, m - gone, rel, Governing(m, rel).value);
  }

  // ---------------------------------------------------------------------
  // What the steps of users open to others
  // ---------------------------------------------------------------------

  /** What the handlers see to before they call the engine for the user a: the
      actor is a, a may write what it moves or deletes, a move had a free place to
      go to and was not of the root, its marks could follow, and rel is something
      that is still there after a deletion. */
  ghost predicate Guarded(s: Cached, a: Actor, act: Act, rel: string) {
    !a.admin &&
    match act
    case SetMark(b, _) => b == a
    case UnsetMark(b, _) => b == a
    case RenameMarks(from, to, rows) =>
      WriteVerdict(s.priv, a, from) == Allowed && WriteVerdict(s.priv, a, to) == Allowed &&
      CleanPath(from).Some? && CleanPath(to).Some? && Incomparable(CleanPath(from).value, CleanPath(to).value) &&
      !AtOrBelow(rel, CleanPath(to).value) && Distinct(rows) && Elements(rows) == s.tables.marks.Keys &&
      NoCollision(s.tables.marks, CleanPath(from).value, CleanPath(to).value)
    case DropMarks(dir) =>
      WriteVerdict(s.priv, a, dir) == Allowed && dir != "" && dir != "." &&
      CleanPath(dir).Some? && !AtOrBelow(rel, CleanPath(dir).value)
    case Invalidate => true
  }

  /** Where rel is after the step. */
  function Place(act: Act, rel: string): string {
    if act.RenameMarks? && CleanPath(act.from).Some? && CleanPath(act.to).Some? &&
       AtOrBelow(rel, CleanPath(act.from).value)
    then Reroot(rel, CleanPath(act.from).value, CleanPath(act.to).value)
    else rel
  }

  /** The steps of the user a that open rel, hidden by the mark g, to the user x: x
      marks something between rel and g for itself; a mark of x stood where rel is
      moved to, below the new place of g; or the deletion of another case variant
      takes g along, and no mark of a third user is left above rel. */
  predicate Opens(s: Cached, x: int, a: Actor, act: Act, rel: string, g: string)
    requires UniqueNames(s.tables.users)
  {
    var m := s.tables.marks;
    match act
    case SetMark(_, dir) =>
      a.userId == x && Step(s, act).1 == Allowed && AtOrBelow(rel, Clean(dir).path) && AtOrBelow(Clean(dir).path, g)
    case RenameMarks(from, to, _) =>
      CleanPath(from).Some? && CleanPath(to).Some? &&
      MarkAwaits(m, x, CleanPath(from).value, CleanPath(to).value, rel, g)
    case DropMarks(dir) => CleanPath(dir).Some? && FoldedAway(m, x, CleanPath(dir).value, rel, g)
    case _ => false
  }

  predicate MarkAwaits(m: Marks, x: int, from: string, to: string, rel: string, g: string) {
    AtOrBelow(rel, from) && AtOrBelow(g, from) &&
    var h := Governing(m, Reroot(rel, from, to));
    h.Some? && h.value in m && AtOrBelow(h.value, Reroot(g, from, to)) && m[h.value] == x
  }

  predicate FoldedAway(m: Marks, x: int, c: string, rel: string, g: string) {
    BelowFolded(g, c) && (Governing(m - DeletedBelow(m, c), rel).None? || OwnsGoverning(m - DeletedBelow(m, c), x, rel))
  }

  lemma SetHides(s: Cached, a: Actor, act: Act, x: Actor, rel: string)
    requires act.SetMark? && act.a == a
    requires UniqueNames(s.tables.users) && Coherent(s) && PrivateToOthers(s.tables.marks, x, rel)
    ensures var s' := Step(s, act).0;
            Coherent(s') &&
            (PrivateToOthers(s'.tables.marks, x, rel) <==>
              !Opens(s, x.userId, a, act, rel, Governing(s.tables.marks, rel).value))
  {
    var m := s.tables.marks;
    HiddenBy(m, x, rel);
    MarksExactly(s, a, act.dir);
    if Step(s, act).1 == Allowed {
      CleanNonEmpty(act.dir);
      NewMarkGoverns(m, Clean(act.dir).path, a.userId, rel);
    }
  }

  lemma UnsetHides(s: Cached, a: Actor, act: Act, x: Actor, rel: string)
    requires act.UnsetMark? && act.a == a && !a.admin && !OwnsGoverning(s.tables.marks, a.userId, rel)
    requires UniqueNames(s.tables.users) && Coherent(s) && PrivateToOthers(s.tables.marks, x, rel)
    ensures var s' := Step(s, act).0; Coherent(s') && PrivateToOthers(s'.tables.marks, x, rel)
  {
    var m := s.tables.marks;
    var g := Governing(m, rel).value;
    HiddenBy(m, x, rel);
    if Step(s, act).1 == Allowed {
      var c := Clean(act.dir).path;
      CleanNonEmpty(act.dir);
      if c == g { CoherentUnmark(s, a, act.dir, g); }
      WithoutGoverns(m, {c}, rel);
    }
  }

  /** Whoever may write a folder and does not own the mark that hides something in
      it finds that mark in the folder. */
  lemma MarkWithin(m: Marks, a: Actor, from: string, f: string, rel: string)
    requires CleanPath(from) == Some(f) && WriteVerdict(m, a, from) == Allowed && !a.admin
    requires AtOrBelow(rel, f) && Governing(m, rel).Some? && !OwnsGoverning(m, a.userId, rel)
    ensures AtOrBelow(Governing(m, rel).value, f)
  {
    var g := Governing(m, rel).value;
    GoverningIsDeepest(m, rel, g);
    AncestorsChain(rel, f, g);
    if AtOrBelow(f, g) { GovernsBetween(m, rel, f); }
  }

  lemma CleanPathNonEmpty(p: string)
    requires CleanPath(p).Some?
    ensures CleanPath(p).value != ""
  {
    CleanNonEmpty(p);
  }

  /** A rename without collision, in any row order. */
  lemma RenameStep(s: Cached, from: string, to: string, f: string, t: string, rows: seq<string>)
    requires UniqueNames(s.tables.users) && CleanPath(from) == Some(f) && CleanPath(to) == Some(t)
    requires Incomparable(f, t) && NoCollision(s.tables.marks, f, t)
    requires Distinct(rows) && Elements(rows) == s.tables.marks.Keys
    ensures var m' := Moved(s.tables.marks, f, t);
            Step(s, RenameMarks(from, to, rows)) == (Cached(s.tables.(marks := m'), m'), Allowed)
  {
    RenameIsReroot(s.tables.marks, rows, f, t);
    RenameApplied(s.tables, from, to, f, t, rows);
  }

  /** What a rename does to who may read, by path texts. */
  lemma RenameOpens(m: Marks, a: Actor, from: string, f: string, t: string, x: Actor, rel: string)
    requires CleanPath(from) == Some(f) && WriteVerdict(m, a, from) == Allowed && !a.admin && t != ""
    requires Incomparable(f, t) && NoCollision(m, f, t) && !AtOrBelow(rel, t)
    requires PrivateToOthers(m, x, rel) && !OwnsGoverning(m, a.userId, rel)
    ensures var rel' := if AtOrBelow(rel, f) then Reroot(rel, f, t) else rel;
            PrivateToOthers(Moved(m, f, t), x, rel') <==> !MarkAwaits(m, x.userId, f, t, rel, Governing(m, rel).value)
  {
    var g := Governing(m, rel).value;
    CleanPathNonEmpty(from);
    HiddenBy(m, x, rel);
    if AtOrBelow(rel, f) {
      MarkWithin(m, a, from, f, rel);
      MovedHides(m, x, f, t, rel, g);
    } else {
      UnmovedGoverns(m, f, t, rel);
    }
  }

  lemma RenameHides(s: Cached, a: Actor, act: Act, x: Actor, rel: string)
    requires act.RenameMarks? && Guarded(s, a, act, rel) && !OwnsGoverning(s.tables.marks, a.userId, rel)
    requires UniqueNames(s.tables.users) && Coherent(s) && PrivateToOthers(s.tables.marks, x, rel)
    ensures var s' := Step(s, act).0;
            Coherent(s') &&
            (PrivateToOthers(s'.tables.marks, x, Place(act, rel)) <==>
              !Opens(s, x.userId, a, act, rel, Governing(s.tables.marks, rel).value))
  {
    var f, t := CleanPath(act.from).value, CleanPath(act.to).value;
    CleanPathNonEmpty(act.to);
    RenameStep(s, act.from, act.to, f, t, act.rows);
    RenameOpens(s.tables.marks, a, act.from, f, t, x, rel);
  }

  lemma MovedHides(m: Marks, x: Actor, from: string, to: string, rel: string, g: string)
    requires Incomparable(from, to) && NoCollision(m, from, to) && from != "" && to != ""
    requires PrivateToOthers(m, x, rel) && AtOrBelow(rel, from) && Governing(m, rel) == Some(g) && AtOrBelow(g, from)
    ensures PrivateToOthers(Moved(m, from, to), x, Reroot(rel, from, to)) <==>
              !MarkAwaits(m, x.userId, from, to, rel, g)
  {
    MovedGoverns(m, from, to, rel, g);
    CarriedMark(m, from, to, rel, g);
    StoodThere(m, from, to, Reroot(rel, from, to));
  }

  lemma DropHides(s: Cached, a: Actor, act: Act, x: Actor, rel: string)
    requires act.DropMarks? && Guarded(s, a, act, rel)
    requires UniqueNames(s.tables.users) && Coherent(s) && PrivateToOthers(s.tables.marks, x, rel)
    ensures var s' := Step(s, act).0;
            Coherent(s') &&
            (PrivateToOthers(s'.tables.marks, x, rel) <==>
              !Opens(s, x.userId, a, act, rel, Governing(s.tables.marks, rel).value))
  {
    var m, c := s.tables.marks, CleanPath(act.dir).value;
    var g := Governing(m, rel).value;
    assert Step(s, act).0.tables.marks == m - DeletedBelow(m, c);
    HiddenBy(m, x, rel);
    DeletedBelowExactly(m, c);
    assert g == c ==> AtOrBelow(rel, c);
    if g !in DeletedBelow(m, c) {
      WithoutGoverns(m, DeletedBelow(m, c), rel);
    } else {
      RemainingGoverns(m - DeletedBelow(m, c), rel);
    }
  }

  lemma RemainingGoverns(m: Marks, rel: string)
    ensures var h := Governing(m, rel); h.Some? ==> h.value in m
  {
    DeepestUpToIs(m, rel, |rel|);
  }

  /** A step of a user who does not own the mark that hides rel opens rel to x in
      the cases of Opens, and in no others. */
  lemma StepOpensExactly(s: Cached, a: Actor, act: Act, x: Actor, rel: string)
    requires UniqueNames(s.tables.users) && Coherent(s) && PrivateToOthers(s.tables.marks, x, rel)
    requires Guarded(s, a, act, rel) && !OwnsGoverning(s.tables.marks, a.userId, rel)
    ensures var s' := Step(s, act).0;
            Coherent(s') &&
            (PrivateToOthers(s'.tables.marks, x, Place(act, rel)) <==>
              !Opens(s, x.userId, a, act, rel, Governing(s.tables.marks, rel).value))
  {
    match act
    case SetMark(_, _) => SetHides(s, a, act, x, rel);
    case UnsetMark(_, _) => UnsetHides(s, a, act, x, rel);
    case RenameMarks(_, _, _) => RenameHides(s, a, act, x, rel);
    case DropMarks(_) => DropHides(s, a, act, x, rel);
    case Invalidate =>
  }

  datatype Request = Request(a: Actor, act: Act)

  /** A run of such steps, none of which opens rel, wherever it is by then. */
  ghost predicate Discreet(s: Cached, reqs: seq<Request>, x: Actor, rel: string)
    requires Sound(s.tables)
    decreases |reqs|
  {
    |reqs| == 0 ||
    (var (a, act) := (reqs[0].a, reqs[0].act);
     StepKeepsSound(s, act);
     Guarded(s, a, act, rel) && !OwnsGoverning(s.tables.marks, a.userId, rel) && Governing(s.tables.marks, rel).Some? &&
     !Opens(s, x.userId, a, act, rel, Governing(s.tables.marks, rel).value) &&
     Discreet(Step(s, act).0, reqs[1..], x, Place(act, rel)))
  }

  ghost function End(s: Cached, reqs: seq<Request>): Cached
    requires Sound(s.tables)
    decreases |reqs|
  {
    if |reqs| == 0 then s
    else
      StepKeepsSound(s, reqs[0].act);
      End(Step(s, reqs[0].act).0, reqs[1..])
  }

  function EndPlace(reqs: seq<Request>, rel: string): string
    decreases |reqs|
  {
    if |reqs| == 0 then rel else EndPlace(reqs[1..], Place(reqs[0].act, rel))
  }

  /** Through every such run what is hidden from x stays hidden from x, wherever it
      is moved, and the engine answers so from its cache. */
  lemma StaysHidden(s: Cached, reqs: seq<Request>, x: Actor, path: string, rel: string, later: string)
    requires Sound(s.tables) && Coherent(s) && Clean(path) == Ok(rel) && Discreet(s, reqs, x, rel)
    requires ReadVerdict(s.priv, x, path) == ErrPrivate && Clean(later) == Ok(EndPlace(reqs, rel))
    ensures Coherent(End(s, reqs)) && ReadVerdict(End(s, reqs).priv, x, later) == ErrPrivate
  {
    MarksStayHidden(s, reqs, x, rel);
  }

  lemma {:induction false} MarksStayHidden(s: Cached, reqs: seq<Request>, x: Actor, rel: string)
    requires Sound(s.tables) && Coherent(s) && PrivateToOthers(s.tables.marks, x, rel) && Discreet(s, reqs, x, rel)
    ensures Coherent(End(s, reqs)) && PrivateToOthers(End(s, reqs).priv, x, EndPlace(reqs, rel))
    decreases |reqs|
  {
    if |reqs| > 0 {
      var (a, act) := (reqs[0].a, reqs[0].act);
      StepKeepsSound(s, act);
      StepOpensExactly(s, a, act, x, rel);
      MarksStayHidden(Step(s, act).0, reqs[1..], x, Place(act, rel));
    }
  }

  // ---------------------------------------------------------------------
  // Inputs
  // ---------------------------------------------------------------------

  /** A user that shares the scope of the owner takes its mark over and removes it:
      SetPrivate asks for the scope only, and the table keeps one owner. */
  lemma TakeOver(s: Cached, x: Actor, dir: string, d: string)
    requires UniqueNames(s.tables.users) && Coherent(s) && Clean(dir) == Ok(d) && d != "."
    requires !x.admin && x.userId != 0 && x.userId in s.tables.users
    requires WithinScope(x.scope, d) && !ScopeOwnsRoot(x.scope, d) && PrivateToOthers(s.tables.marks, x, d)
    ensures var (s1, v1) := Step(s, SetMark(x, dir)); var (s2, v2) := Step(s1, UnsetMark(x, dir));
            ReadVerdict(s.priv, x, dir) == ErrPrivate &&
            v1 == Allowed && ReadVerdict(s1.priv, x, dir) == Allowed && v2 == Allowed && d !in s2.tables.marks
  {
    CleanNonEmpty(dir);
    var m1 := s.tables.marks[d := x.userId];
    GoverningIsDeepest(m1, d, d);
    assert Step(s, SetMark(x, dir)) == (Cached(s.tables.(marks := m1), m1), Allowed);
  }

  lemma {:induction false} ByteLenBound(s: string)
    ensures ByteLen(s) <= 4 * |s|
  {
    if s != "" { ByteLenBound(s[1..]); }
  }

  lemma {:induction false} SplitLengths(s: string)
    ensures forall i :: 0 <= i < |Split(s)| ==> |Split(s)[i]| <= |s|
  {
    if s != "" { SplitLengths(s[1..]); }
  }

  lemma ShortIsClean(p: string)
    requires NormalForm(p) && p != "." && |p| <= 60 && '\0' !in p && '\\' !in p
    ensures Clean(p) == Ok(p) && CleanPath(p) == Some(p)
  {
    ByteLenBound(p);
    SplitLengths(p);
    forall i | 0 <= i < |Split(p)|
      ensures ByteLen(Split(p)[i]) <= MAX_SEGMENT_LEN
    {
      ByteLenBound(Split(p)[i]);
    }
    CleanFixes(p);
  }

  const FROM := "f"
  const TO := "p/t"
  const NEW := "p/t/x"

  lemma FromClean()
    ensures CleanPath(FROM) == Some(FROM)
  {
    SplitCons("f", "");
    assert Split(FROM) == ["f"] && Solid("f");
    ShortIsClean(FROM);
  }

  lemma ToClean()
    ensures CleanPath(TO) == Some(TO)
  {
    SplitCons("t", "");
    SplitCons("p", "t");
    assert TO == "p" + "/" + "t";
    assert Split(TO) == ["p", "t"] && Solid("p") && Solid("t");
    ShortIsClean(TO);
  }

  lemma NewSplit()
    ensures Split(NEW) == ["p", "t", "x"]
  {
    SplitCons("x", "");
    SplitCons("t", "x");
    SplitCons("p", "t/x");
    assert "t/x" == "t" + "/" + "x" && NEW == "p" + "/" + "t/x";
  }

  lemma NewClean()
    ensures Clean(NEW) == Ok(NEW)
  {
    NewSplit();
    assert Solid("p") && Solid("t") && Solid("x");
    ShortIsClean(NEW);
  }

  lemma MovedPlaces()
    ensures AtOrBelow("f/x", FROM) && Reroot("f/x", FROM, TO) == NEW
    ensures AtOrBelow("f/y", FROM) && Reroot("f/y", FROM, TO) == "p/t/y"
  {
    assert "f/x"[..2] == FROM + "/" && "f/y"[..2] == FROM + "/";
    assert "f/x"[1..] == "/x" && "f/y"[1..] == "/y";
  }

  lemma NewContained()
    ensures AtOrBelow(NEW, "p") && !AtOrBelow(NEW, "f/x") && !AtOrBelow(NEW, "f/y") && !AtOrBelow(NEW, "p/t/y")
  {
    assert NEW[..2] == "p" + "/";
    assert NEW[0] == 'p' && NEW[4] == 'x' && "p/t/y"[4] == 'y' && |NEW| == |"p/t/y"|;
  }

  /** User 1 owns p, user 2 owns f/x and f/y, and a stale mark of user 3 stands at
      p/t/y. */
  function InputMarks(): Marks { map["p" := 1, "f/x" := 2, "f/y" := 2, "p/t/y" := 3] }

  /** The first UPDATE moves the mark on f/x, the second one fails. */
  lemma InputRename(m: Marks, rows: seq<string>)
    requires m == InputMarks() && rows == ["f/x", "f/y", "p", "p/t/y"]
    ensures RenameRows(m, rows, FROM, TO) == ((m - {"f/x"})[NEW := 2], false)
  {
    var m1 := (m - {"f/x"})[NEW := 2];
    MovedPlaces();
    assert rows[0] == "f/x" && m["f/x"] == 2 && NEW !in m;
    assert RenameRows(m, rows, FROM, TO) == RenameRows(m1, rows[1..], FROM, TO);
    assert rows[1..][0] == "f/y" && "f/y" in m1 && "p/t/y" in m1 && "p/t/y" != "f/y";
  }

  lemma InputReaders(m: Marks, u: Actor)
    requires m == InputMarks() && !u.admin && u.userId == 1
    ensures PrivateToOthers(m, u, "f/x") && OwnsGoverning(m, 1, NEW)
  {
    NewContained();
    GoverningIsDeepest(m, NEW, "p");
    GoverningIsDeepest(m, "f/x", "f/x");
  }

  /** An admin moves f to p/t. Until the next reload user 1 reads what user 2 hid,
      now at p/t/x, and may remove the mark on it. */
  lemma StaleCacheUnmarks(t: Tables, u: Actor, rows: seq<string>)
    requires UniqueNames(t.users) && t.marks == InputMarks() && rows == ["f/x", "f/y", "p", "p/t/y"]
    requires !u.admin && u.userId == 1
    ensures var s := Cached(t, t.marks);
            var (s1, v1) := Step(s, RenameMarks(FROM, TO, rows));
            var (s2, v2) := Step(s1, UnsetMark(u, NEW));
            PrivateToOthers(s.priv, u, "f/x") &&
            v1 == ErrStore && s1.priv == s.priv && NEW in s1.tables.marks && s1.tables.marks[NEW] == 2 &&
            !PrivateToOthers(s1.priv, u, NEW) && NEW !in s2.tables.marks
  {
    var m := t.marks;
    var m1 := (m - {"f/x"})[NEW := 2];
    InputReaders(m, u);
    InputRename(m, rows);
    FromClean();
    ToClean();
    RenameApplied(t, FROM, TO, FROM, TO, rows);
    var s1 := Cached(t.(marks := m1), m);
    assert Step(Cached(t, m), RenameMarks(FROM, TO, rows)) == (s1, ErrStore);
    NewClean();
    UnmarksAnothers(s1, u, NEW, NEW);
  }
}
