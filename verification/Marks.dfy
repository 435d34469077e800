// Private-folder marks as a table from clean paths to owners: which mark governs
// a path (internal/authz/authz.go), and what the statements of
// internal/store/store.go do to the table.
module Marks {
  import opened Common
  import opened Paths

  type Marks = map<string, int>

  // ---------------------------------------------------------------------
  // The governing mark
  // ---------------------------------------------------------------------

  /** The longest mark among the prefixes of rel up to length k that are rel or
      one of its ancestors. */
  function DeepestUpTo(m: Marks, rel: string, k: nat): Option<string>
    requires k <= |rel|
  {
    if k == 0 then None
    else if rel[..k] in m && AtOrBelow(rel, rel[..k]) then Some(rel[..k])
    else DeepestUpTo(m, rel, k - 1)
  }

  /** The deepest mark that contains rel. */
  function Governing(m: Marks, rel: string): Option<string> { DeepestUpTo(m, rel, |rel|) }

  lemma {:induction false} DeepestUpToIs(m: Marks, rel: string, k: nat)
    requires k <= |rel|
    ensures var g := DeepestUpTo(m, rel, k);
            (g.Some? ==> g.value in m && g.value != "" && |g.value| <= k && AtOrBelow(rel, g.value)) &&
            forall p :: p in m && p != "" && |p| <= k && AtOrBelow(rel, p) ==> g.Some? && |p| <= |g.value|
  {
    if k > 0 {
      DeepestUpToIs(m, rel, k - 1);
      forall p | p in m && |p| == k && AtOrBelow(rel, p)
        ensures p == rel[..k]
      {}
    }
  }

  /** It is the unique mark containing rel that every other mark containing rel
      contains too. */
  lemma GoverningIsDeepest(m: Marks, rel: string, g: string)
    ensures Governing(m, rel) == Some(g) <==>
              g in m && g != "" && AtOrBelow(rel, g) &&
              forall p :: p in m && p != "" && AtOrBelow(rel, p) ==> AtOrBelow(g, p)
    ensures Governing(m, rel).None? <==> forall p :: p in m && p != "" ==> !AtOrBelow(rel, p)
  {
    DeepestUpToIs(m, rel, |rel|);
    var d := Governing(m, rel);
    if d.Some? {
      forall p | p in m && p != "" && AtOrBelow(rel, p)
        ensures AtOrBelow(d.value, p)
      {
        AncestorsChain(rel, d.value, p);
      }
      if g in m && g != "" && AtOrBelow(rel, g) { AncestorsChain(rel, d.value, g); }
    }
  }

  datatype Actor = Actor(userId: int, admin: bool, scope: string)

  /** privateToOthers, with the governing mark for owningPrivateFolder. */
  predicate PrivateToOthers(m: Marks, a: Actor, rel: string) {
    !a.admin && var g := Governing(m, rel); g.Some? && g.value in m && m[g.value] != a.userId
  }

  // ---------------------------------------------------------------------
  // RenamePrivate: one re-rooting of the table
  // ---------------------------------------------------------------------

  function Reroot(p: string, from: string, to: string): string
    requires AtOrBelow(p, from)
  {
    to + p[|from|..]
  }

  function Affected(m: Marks, from: string): set<string> { set p | p in m && AtOrBelow(p, from) }

  /** No mark is in the place one of the affected marks is going to. */
  ghost predicate NoCollision(m: Marks, from: string, to: string) {
    forall p :: p in Affected(m, from) ==> Reroot(p, from, to) !in m
  }

  /** Every mark in moved found its new place free. */
  ghost predicate FoundFree(m: Marks, moved: set<string>, from: string, to: string) {
    moved <= Affected(m, from) && forall p :: p in moved ==> Reroot(p, from, to) !in m
  }

  lemma RerootFacts(p: string, from: string, to: string)
    requires AtOrBelow(p, from)
    ensures AtOrBelow(Reroot(p, from, to), to)
    ensures Reroot(Reroot(p, from, to), to, from) == p
    ensures |Reroot(p, from, to)| == |to| + |p| - |from|
  {
    assert p == from + p[|from|..];
    var r := Reroot(p, from, to);
    assert r[|to|..] == p[|from|..];
    if p != from { assert p[|from|] == '/'; assert r[..|to| + 1] == to + "/"; }
  }

  lemma BelowEither(from: string, to: string)
    requires Incomparable(from, to)
    ensures forall p :: !(AtOrBelow(p, from) && AtOrBelow(p, to))
  {
    forall p
      ensures !(AtOrBelow(p, from) && AtOrBelow(p, to))
    {
      if AtOrBelow(p, from) && AtOrBelow(p, to) { AncestorsChain(p, from, to); }
    }
  }

  /** The marks in moved at their new places. */
  function Carried(m: Marks, moved: set<string>, from: string, to: string): (c: Marks)
    ensures forall q :: q in c <==> AtOrBelow(q, to) && Reroot(q, to, from) in m && Reroot(q, to, from) in moved
    ensures forall q :: q in c ==> c[q] == m[Reroot(q, to, from)]
  {
    forall p
      ensures AtOrBelow(p, from) ==>
                AtOrBelow(Reroot(p, from, to), to) && Reroot(Reroot(p, from, to), to, from) == p
      ensures AtOrBelow(p, to) ==>
                AtOrBelow(Reroot(p, to, from), from) && Reroot(Reroot(p, to, from), from, to) == p
    {
      if AtOrBelow(p, from) { RerootFacts(p, from, to); }
      if AtOrBelow(p, to) { RerootFacts(p, to, from); }
    }
    var keys := set p | p in m && p in moved && AtOrBelow(p, from) :: Reroot(p, from, to);
    map q | q in keys && AtOrBelow(q, to) && Reroot(q, to, from) in m :: m[Reroot(q, to, from)]
  }

  /** The table with the marks in moved re-rooted. */
  function Rerooted(m: Marks, moved: set<string>, from: string, to: string): Marks {
    (m - moved) + Carried(m, moved, from, to)
  }

  /** The table with every mark at or below from re-rooted. */
  function Moved(m: Marks, from: string, to: string): Marks { Rerooted(m, Affected(m, from), from, to) }

  /** One UPDATE moves one more mark, and violates the primary key exactly when
      the original table had a mark in its new place. */
  lemma UpdateOne(m: Marks, moved: set<string>, from: string, to: string, p: string)
    requires Incomparable(from, to) && moved <= Affected(m, from)
    requires p in Affected(m, from) && p !in moved
    ensures var m', r := Rerooted(m, moved, from, to), Reroot(p, from, to);
            p in m' && m'[p] == m[p] && (r in m' <==> r in m) && r != p &&
            Rerooted(m, moved + {p}, from, to) == (m' - {p})[r := m[p]]
  {
    var m', r := Rerooted(m, moved, from, to), Reroot(p, from, to);
    RerootFacts(p, from, to);
    BelowEither(from, to);
    var m2, m3 := Rerooted(m, moved + {p}, from, to), (m' - {p})[r := m[p]];
    forall q
      ensures q in m2 <==> q in m3
      ensures q in m2 ==> m2[q] == m3[q]
    {
      UpdateAt(m, moved, from, to, p, q);
    }
    assert m2 == m3;
  }

  lemma UpdateAt(m: Marks, moved: set<string>, from: string, to: string, p: string, q: string)
    requires Incomparable(from, to) && moved <= Affected(m, from)
    requires p in Affected(m, from) && p !in moved
    ensures var m2 := Rerooted(m, moved + {p}, from, to);
            var m3 := (Rerooted(m, moved, from, to) - {p})[Reroot(p, from, to) := m[p]];
            (q in m2 <==> q in m3) && (q in m2 ==> m2[q] == m3[q])
  {
    var moved', r := moved + {p}, Reroot(p, from, to);
    RerootFacts(p, from, to);
    if AtOrBelow(q, to) {
      RerootFacts(q, to, from);
      BelowEither(from, to);
      assert q !in moved' && (q == r <==> Reroot(q, to, from) == p);
      assert q in Carried(m, moved', from, to) <==> q in Carried(m, moved, from, to) || q == r;
    } else {
      assert q != r && q !in Carried(m, moved', from, to) && q !in Carried(m, moved, from, to);
    }
  }

  lemma RerootedNone(m: Marks, from: string, to: string)
    ensures Rerooted(m, {}, from, to) == m
  {
    assert m - {} == m;
    assert Carried(m, {}, from, to) == map[];
  }

  lemma SameSize(m: Marks, p: string, r: string)
    requires p in m && r !in m
    ensures |(m - {p})[r := m[p]]| == |m|
  {
    assert (m - {p}).Keys == m.Keys - {p};
    assert (m - {p})[r := m[p]].Keys == (m.Keys - {p}) + {r};
  }

  lemma {:induction false} RerootedSize(m: Marks, moved: set<string>, from: string, to: string)
    requires Incomparable(from, to) && NoCollision(m, from, to) && moved <= Affected(m, from)
    ensures |Rerooted(m, moved, from, to)| == |m|
    decreases |moved|
  {
    if moved == {} {
      RerootedNone(m, from, to);
    } else {
      var p :| p in moved;
      var rest := moved - {p};
      assert rest + {p} == moved;
      RerootedSize(m, rest, from, to);
      UpdateOne(m, rest, from, to, p);
      SameSize(Rerooted(m, rest, from, to), p, Reroot(p, from, to));
    }
  }

  /** RenamePrivate over the table's rows in the order they come: each row at or
      below from is updated, and the first key violation ends it. */
  function RenameRows(m: Marks, rows: seq<string>, from: string, to: string): (Marks, bool)
    decreases |rows|
  {
    if |rows| == 0 then (m, true)
    else
      var p, rest := rows[0], rows[1..];
      if !AtOrBelow(p, from) || p !in m then RenameRows(m, rest, from, to)
      else
        var r := Reroot(p, from, to);
        if r in m && r != p then (m, false) else RenameRows((m - {p})[r := m[p]], rest, from, to)
  }

  ghost predicate Distinct(rows: seq<string>) { forall i, j :: 0 <= i < j < |rows| ==> rows[i] != rows[j] }

  function Elements(rows: seq<string>): set<string> { set p | p in rows }

  /** How the rest of the UPDATEs can end once the marks in moved are moved. */
  ghost predicate RowsOutcome(m: Marks, moved: set<string>, m': Marks, ok: bool, from: string, to: string) {
    (ok ==> m' == Moved(m, from, to)) &&
    (ok <==> forall p :: p in Affected(m, from) && p !in moved ==> Reroot(p, from, to) !in m) &&
    exists done :: FoundFree(m, done, from, to) && m' == Rerooted(m, done, from, to)
  }

  lemma RowsDone(m: Marks, moved: set<string>, from: string, to: string)
    requires FoundFree(m, moved, from, to) && Affected(m, from) <= moved
    ensures RowsOutcome(m, moved, Rerooted(m, moved, from, to), true, from, to)
  {
    assert moved == Affected(m, from);
  }

  lemma RowsBlocked(m: Marks, moved: set<string>, p: string, from: string, to: string)
    requires FoundFree(m, moved, from, to) && p in Affected(m, from) && p !in moved && Reroot(p, from, to) in m
    ensures RowsOutcome(m, moved, Rerooted(m, moved, from, to), false, from, to)
  {}

  lemma RowsMore(m: Marks, moved: set<string>, p: string, m': Marks, ok: bool, from: string, to: string)
    requires p in Affected(m, from) && Reroot(p, from, to) !in m
    requires RowsOutcome(m, moved + {p}, m', ok, from, to)
    ensures RowsOutcome(m, moved, m', ok, from, to)
  {}

  lemma {:induction false} RenameRowsFrom(m: Marks, moved: set<string>, rows: seq<string>, from: string, to: string)
    requires Incomparable(from, to) && Distinct(rows) && Elements(rows) <= m.Keys
    requires FoundFree(m, moved, from, to) && moved !! Elements(rows) && Affected(m, from) <= moved + Elements(rows)
    ensures var (m', ok) := RenameRows(Rerooted(m, moved, from, to), rows, from, to);
            RowsOutcome(m, moved, m', ok, from, to)
    decreases |rows|
  {
    if |rows| == 0 {
      RowsDone(m, moved, from, to);
    } else {
      var p, rest := rows[0], rows[1..];
      assert Elements(rows) == {p} + Elements(rest);
      assert p !in Elements(rest);
      if AtOrBelow(p, from) {
        UpdateOne(m, moved, from, to, p);
        if Reroot(p, from, to) !in m {
          var (m', ok) := RenameRows(Rerooted(m, moved + {p}, from, to), rest, from, to);
          RenameRowsFrom(m, moved + {p}, rest, from, to);
          RowsMore(m, moved, p, m', ok, from, to);
        } else {
          RowsBlocked(m, moved, p, from, to);
        }
      } else {
        RenameRowsFrom(m, moved, rest, from, to);
      }
    }
  }

  /** How RenamePrivate can end: with the whole table re-rooted exactly when no
      mark is in the way, else with some of those moved whose new place was free. */
  ghost predicate RenameOutcome(m: Marks, m': Marks, ok: bool, from: string, to: string) {
    (ok <==> NoCollision(m, from, to)) && (ok ==> m' == Moved(m, from, to) && |m'| == |m|) &&
    exists done :: FoundFree(m, done, from, to) && m' == Rerooted(m, done, from, to)
  }

  /** Whatever order the rows come in, the UPDATEs succeed exactly when no mark
      stands where an affected one is going, and then the table is re-rooted in
      one piece; if not, some of the affected marks have moved and all others are
      untouched. */
  lemma RenameIsReroot(m: Marks, rows: seq<string>, from: string, to: string)
    requires Incomparable(from, to) && Distinct(rows) && Elements(rows) == m.Keys
    ensures var (m', ok) := RenameRows(m, rows, from, to); RenameOutcome(m, m', ok, from, to)
  {
    RerootedNone(m, from, to);
    RenameRowsFrom(m, {}, rows, from, to);
    if NoCollision(m, from, to) { RerootedSize(m, Affected(m, from), from, to); }
  }

  /** A mark that stood in the way stays, with its owner, and governs its path. */
  lemma BlockingMarkStays(m: Marks, rows: seq<string>, from: string, to: string, p: string)
    requires Incomparable(from, to) && Distinct(rows) && Elements(rows) == m.Keys && to != ""
    requires p in Affected(m, from) && Reroot(p, from, to) in m
    ensures var (m', ok) := RenameRows(m, rows, from, to); var r := Reroot(p, from, to);
            !ok && r in m' && m'[r] == m[r] && Governing(m', r) == Some(r)
  {
    var (m', ok) := RenameRows(m, rows, from, to);
    var r := Reroot(p, from, to);
    RenameIsReroot(m, rows, from, to);
    RenameKeepsOwners(m, rows, from, to);
    var done :| FoundFree(m, done, from, to) && m' == Rerooted(m, done, from, to);
    RerootFacts(p, from, to);
    BelowEither(from, to);
    assert r !in done && Reroot(r, to, from) == p && p !in done;
    assert r in m' && m'[r] == m[r] && r != "";
    GoverningIsDeepest(m', r, r);
  }

  /** Every mark of the new table has an owner it had before, for any arguments. */
  lemma {:induction false} RenameKeepsOwners(m: Marks, rows: seq<string>, from: string, to: string)
    ensures var m' := RenameRows(m, rows, from, to).0;
            m'.Values <= m.Values && (forall q :: q in m' ==> q in m || AtOrBelow(q, to))
    decreases |rows|
  {
    if |rows| > 0 {
      var p, rest := rows[0], rows[1..];
      if !AtOrBelow(p, from) || p !in m {
        RenameKeepsOwners(m, rest, from, to);
      } else if !(Reroot(p, from, to) in m && Reroot(p, from, to) != p) {
        RerootFacts(p, from, to);
        RenameKeepsOwners((m - {p})[Reroot(p, from, to) := m[p]], rest, from, to);
      }
    }
  }

  // ---------------------------------------------------------------------
  // What a move does to readers
  // ---------------------------------------------------------------------

  ghost predicate NoneAtOrBelow(m: Marks, root: string) { forall p :: p in m ==> !AtOrBelow(p, root) }

  /** The re-rooted table, path by path. */
  lemma MovedAt(m: Marks, from: string, to: string, q: string)
    requires Incomparable(from, to) && NoCollision(m, from, to)
    ensures var m' := Moved(m, from, to);
            (q in m' <==> (q in m && !AtOrBelow(q, from)) || (AtOrBelow(q, to) && Reroot(q, to, from) in m)) &&
            (q in m && !AtOrBelow(q, from) ==> m'[q] == m[q]) &&
            (AtOrBelow(q, to) && Reroot(q, to, from) in m ==> m'[q] == m[Reroot(q, to, from)])
  {
    if AtOrBelow(q, to) {
      RerootFacts(q, to, from);
      assert Reroot(q, to, from) in m ==> Reroot(q, to, from) in Affected(m, from);
    }
  }

  lemma MovedFacts(m: Marks, from: string, to: string)
    requires Incomparable(from, to) && NoneAtOrBelow(m, to)
    ensures NoCollision(m, from, to)
    ensures forall p :: p in Affected(m, from) ==>
              Reroot(p, from, to) in Moved(m, from, to) && Moved(m, from, to)[Reroot(p, from, to)] == m[p]
    ensures forall q :: !AtOrBelow(q, to) ==>
              (q in Moved(m, from, to) <==> q in m && !AtOrBelow(q, from)) &&
              (q in Moved(m, from, to) ==> Moved(m, from, to)[q] == m[q])
    ensures forall q :: AtOrBelow(q, to) ==> (q in Moved(m, from, to) <==> Reroot(q, to, from) in m)
  {
    var m' := Moved(m, from, to);
    forall p | p in Affected(m, from)
      ensures Reroot(p, from, to) !in m && Reroot(p, from, to) in m' && m'[Reroot(p, from, to)] == m[p]
    {
      RerootFacts(p, from, to);
    }
    forall q | AtOrBelow(q, to)
      ensures q in m' <==> Reroot(q, to, from) in m
    {
      RerootFacts(q, to, from);
    }
  }

  /** Renaming back restores the table. */
  lemma RenameBack(m: Marks, from: string, to: string)
    requires Incomparable(from, to) && NoneAtOrBelow(m, to)
    ensures NoneAtOrBelow(Moved(m, from, to), from) && Moved(Moved(m, from, to), to, from) == m
  {
    var m' := Moved(m, from, to);
    NothingLeft(m, from, to);
    forall p
      ensures (p in Moved(m', to, from) <==> p in m) && (p in m ==> Moved(m', to, from)[p] == m[p])
    {
      BackAt(m, m', Moved(m', to, from), from, to, p);
    }
    assert Moved(m', to, from) == m;
  }

  lemma NothingLeft(m: Marks, from: string, to: string)
    requires Incomparable(from, to) && NoneAtOrBelow(m, to)
    ensures NoneAtOrBelow(Moved(m, from, to), from)
  {
    MovedFacts(m, from, to);
    BelowEither(from, to);
  }

  lemma BackAt(m: Marks, m': Marks, m2: Marks, from: string, to: string, p: string)
    requires Incomparable(from, to) && NoneAtOrBelow(m, to) && NoneAtOrBelow(m', from)
    requires m' == Moved(m, from, to) && m2 == Moved(m', to, from)
    ensures (p in m2 <==> p in m) && (p in m ==> m2[p] == m[p])
  {
    if AtOrBelow(p, from) {
      var r := Reroot(p, from, to);
      RerootFacts(p, from, to);
      assert r in m' <==> p in m;
      assert p in m2 <==> r in m';
    } else if AtOrBelow(p, to) {
      assert p !in m && p !in m2;
    }
  }

  lemma RerootMonotone(p: string, q: string, from: string, to: string)
    requires AtOrBelow(p, from) && AtOrBelow(q, from)
    ensures AtOrBelow(Reroot(p, from, to), Reroot(q, from, to)) <==> AtOrBelow(p, q)
  {
    if AtOrBelow(p, q) { RerootForward(p, q, from, to); }
    RerootFacts(p, from, to);
    RerootFacts(q, from, to);
    if AtOrBelow(Reroot(p, from, to), Reroot(q, from, to)) {
      RerootForward(Reroot(p, from, to), Reroot(q, from, to), to, from);
    }
  }

  lemma RerootForward(p: string, q: string, from: string, to: string)
    requires AtOrBelow(p, from) && AtOrBelow(q, from) && AtOrBelow(p, q)
    ensures AtOrBelow(Reroot(p, from, to), Reroot(q, from, to))
  {
    if p != q {
      var rp, rq := Reroot(p, from, to), Reroot(q, from, to);
      assert rp == to + p[|from|..] && rq == to + q[|from|..];
      assert p[|from|..][..|q| - |from|] == p[..|q|][|from|..] == q[|from|..];
      assert rp[..|rq|] == rq && rp[|rq|] == p[|q|] == '/';
      assert rp[..|rq| + 1] == rq + "/";
    }
  }

  /** A path governed by a mark at or below the moved folder is governed by the
      moved mark at its new place, so every reader gets the same verdict. */
  lemma MarksTravel(m: Marks, from: string, to: string, rel: string, a: Actor)
    requires Incomparable(from, to) && NoneAtOrBelow(m, to) && to != ""
    requires AtOrBelow(rel, from) && Governing(m, rel).Some? && AtOrBelow(Governing(m, rel).value, from)
    ensures Governing(Moved(m, from, to), Reroot(rel, from, to)) == Some(Reroot(Governing(m, rel).value, from, to))
    ensures PrivateToOthers(Moved(m, from, to), a, Reroot(rel, from, to)) <==> PrivateToOthers(m, a, rel)
  {
    var m', rel', g := Moved(m, from, to), Reroot(rel, from, to), Governing(m, rel).value;
    var g' := Reroot(g, from, to);
    MovedFacts(m, from, to);
    GoverningIsDeepest(m, rel, g);
    RerootFacts(rel, from, to);
    RerootFacts(g, from, to);
    RerootMonotone(rel, g, from, to);
    forall p | p in m' && p != "" && AtOrBelow(rel', p)
      ensures AtOrBelow(g', p)
    {
      AncestorsChain(rel', p, to);
      if AtOrBelow(p, to) {
        RerootFacts(p, to, from);
        RerootMonotone(rel', p, to, from);
        RerootMonotone(g, Reroot(p, to, from), from, to);
      } else {
        AtOrBelowTransitive(g', to, p);
      }
    }
    GoverningIsDeepest(m', rel', g');
  }

  /** Elsewhere nothing changes: the governing mark of a path outside the moved
      folder and outside its new place is the same as before. */
  lemma OthersKeepMarks(m: Marks, from: string, to: string, rel: string)
    requires Incomparable(from, to) && NoneAtOrBelow(m, to)
    requires !AtOrBelow(rel, from) && !AtOrBelow(rel, to)
    ensures Governing(Moved(m, from, to), rel) == Governing(m, rel)
  {
    var m' := Moved(m, from, to);
    MovedFacts(m, from, to);
    forall p | AtOrBelow(rel, p)
      ensures p in m' <==> p in m
    {
      if AtOrBelow(p, from) { AtOrBelowTransitive(rel, p, from); }
      if AtOrBelow(p, to) { AtOrBelowTransitive(rel, p, to); }
    }
    if Governing(m, rel).Some? {
      GoverningIsDeepest(m, rel, Governing(m, rel).value);
      GoverningIsDeepest(m', rel, Governing(m, rel).value);
    } else {
      GoverningIsDeepest(m, rel, "");
      GoverningIsDeepest(m', rel, "");
    }
  }

  // ---------------------------------------------------------------------
  // DeletePrivateBelow: LIKE with escaping
  // ---------------------------------------------------------------------

  function Fold(c: char): char { if 'A' <= c <= 'Z' then (c as int + 32) as char else c }

  function FoldAll(s: string): string { if s == "" then "" else [Fold(s[0])] + FoldAll(s[1..]) }

  /** SQLite's LIKE with ESCAPE '\\': case-insensitive for ASCII letters. */
  predicate Like(s: string, pattern: string)
    decreases |pattern|, |s|
  {
    if pattern == "" then s == ""
    else if pattern[0] == '\\' then
      |pattern| > 1 && s != "" && Fold(s[0]) == Fold(pattern[1]) && Like(s[1..], pattern[2..])
    else if pattern[0] == '%' then Like(s, pattern[1..]) || (s != "" && Like(s[1..], pattern))
    else s != "" && (pattern[0] == '_' || Fold(s[0]) == Fold(pattern[0])) && Like(s[1..], pattern[1..])
  }

  function EscapeChar(c: char): string { if c == '\\' || c == '%' || c == '_' then ['\\', c] else [c] }

  function EscapeLike(p: string): string { if p == "" then "" else EscapeChar(p[0]) + EscapeLike(p[1..]) }

  lemma {:induction false} PercentMatchesAll(s: string)
    ensures Like(s, "%")
  {
    assert "%"[1..] == "";
    if s != "" { PercentMatchesAll(s[1..]); }
  }

  lemma LikeEscaped(s: string, c: char, rest: string)
    ensures Like(s, EscapeChar(c) + rest) <==> s != "" && Fold(s[0]) == Fold(c) && Like(s[1..], rest)
  {
    var pattern := EscapeChar(c) + rest;
    assert pattern[|EscapeChar(c)|..] == rest;
  }

  lemma FoldHead(s: string, p: string)
    requires s != "" && p != ""
    ensures FoldAll(s) == FoldAll(p) <==> Fold(s[0]) == Fold(p[0]) && FoldAll(s[1..]) == FoldAll(p[1..])
  {
    assert FoldAll(s)[0] == Fold(s[0]) && FoldAll(s)[1..] == FoldAll(s[1..]);
    assert FoldAll(p)[0] == Fold(p[0]) && FoldAll(p)[1..] == FoldAll(p[1..]);
  }

  /** The pattern escapeLike(p) + "/%" matches exactly the strings that, up to
      ASCII case, start with p and a slash, for every p. */
  lemma {:induction false} LikeIsFoldedPrefix(s: string, p: string)
    ensures Like(s, EscapeLike(p) + "/%") <==>
              |s| > |p| && s[|p|] == '/' && FoldAll(s[..|p|]) == FoldAll(p)
  {
    if p == "" {
      assert EscapeLike(p) + "/%" == EscapeChar('/') + "%";
      LikeEscaped(s, '/', "%");
      if s != "" { PercentMatchesAll(s[1..]); }
    } else {
      var rest := EscapeLike(p[1..]) + "/%";
      assert EscapeLike(p) + "/%" == EscapeChar(p[0]) + rest;
      LikeEscaped(s, p[0], rest);
      if s != "" {
        LikeIsFoldedPrefix(s[1..], p[1..]);
        if |s| > |p| { FoldHead(s[..|p|], p); assert s[..|p|][1..] == s[1..][..|p| - 1]; }
      }
    }
  }

  /** The rows the DELETE statement removes. */
  function DeletedBelow(m: Marks, clean: string): set<string> {
    set p | p in m && (p == clean || Like(p, EscapeLike(clean) + "/%"))
  }

  /** p lies below a path that differs from root at most in ASCII case. */
  predicate BelowFolded(p: string, root: string) {
    |p| > |root| && p[|root|] == '/' && FoldAll(p[..|root|]) == FoldAll(root)
  }

  /** It removes the mark itself and the marks below any case variant of the path,
      so it removes exactly what lies at or below the path if and only if no mark
      lies below another case variant. */
  lemma DeletedBelowExactly(m: Marks, clean: string)
    ensures forall p :: p in DeletedBelow(m, clean) <==> p in m && (p == clean || BelowFolded(p, clean))
    ensures DeletedBelow(m, clean) == Affected(m, clean) <==>
              forall p :: p in m && BelowFolded(p, clean) ==> p[..|clean|] == clean
  {
    forall p
      ensures Like(p, EscapeLike(clean) + "/%") <==> BelowFolded(p, clean)
      ensures AtOrBelow(p, clean) && p != clean <==> BelowFolded(p, clean) && p[..|clean|] == clean
    {
      LikeIsFoldedPrefix(p, clean);
      StrictlyBelow(p, clean);
    }
    forall p | p in m && BelowFolded(p, clean) && p[..|clean|] != clean
      ensures p in DeletedBelow(m, clean) && p !in Affected(m, clean)
    {}
  }

  lemma StrictlyBelow(p: string, root: string)
    ensures AtOrBelow(p, root) && p != root <==> |p| > |root| && p[|root|] == '/' && p[..|root|] == root
  {
    if |p| > |root| { assert p[..|root| + 1] == p[..|root|] + [p[|root|]]; }
    if root + "/" <= p { assert p[|root|] == (root + "/")[|root|]; assert p[..|root|] == (root + "/")[..|root|]; }
  }

  /** Deleting "docs" also drops the mark on "Docs/private". */
  lemma DeleteFoldsCase()
    ensures DeletedBelow(map["Docs/p" := 1], "docs") == {"Docs/p"} && !AtOrBelow("Docs/p", "docs")
  {
    var m := map["Docs/p" := 1];
    DeletedBelowExactly(m, "docs");
    assert "Docs/p"[..4] == "Docs" && "Docs"[1..] == "docs"[1..];
    assert FoldAll("Docs") == [Fold('D')] + FoldAll("docs"[1..]) == FoldAll("docs");
    assert "Docs/p"[0] != "docs"[0];
  }
}
