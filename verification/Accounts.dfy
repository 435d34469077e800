// internal/store/store.go: the account and private-folder tables. The database
// is two tables with their key constraints: usernames are unique, ids are
// AUTOINCREMENT, a mark's owner references an account and goes with it.
module Accounts {
  import opened Common
  import opened Paths
  import opened Marks

  datatype User = User(name: string, hash: string, admin: bool, scope: string, original: bool)

  /** nextId is the AUTOINCREMENT sequence: above every id ever handed out. */
  datatype Tables = Tables(users: map<int, User>, nextId: int, marks: Marks)

  datatype Result = Done | NewId(id: int) | Exists | NotFound | Original | LastAdmin | BadValue | Constraint

  datatype Op =
    | CreateUser(name: string, hash: string, admin: bool, scope: string)
    | UpdateUser(id: int, admin: bool, scope: string)
    | RenameUser(id: int, name: string)
    | SetPassword(id: int, hash: string)
    | DeleteUser(id: int)
    | CreateOriginal(hash: string)
    | SetPrivate(dir: string, owner: int)
    | UnsetPrivate(dir: string)
    | RenamePrivate(from: string, to: string, rows: seq<string>)   // rows: the order SELECT returns
    | DeletePrivateBelow(dir: string)

  predicate NameChar(c: char) {
    'a' <= c <= 'z' || 'A' <= c <= 'Z' || '0' <= c <= '9' || c == '.' || c == '_' || c == '-'
  }

  predicate ValidUsername(name: string) { 1 <= |name| <= 64 && forall c :: c in name ==> NameChar(c) }

  function ValidScope(scope: string): Option<string> {
    match Clean(scope)
    case Invalid => None
    case Ok(c) => Some(if c == "." then "" else c)
  }

  function CleanPath(p: string): Option<string> {
    match Clean(p)
    case Invalid => None
    case Ok(c) => if c == "." then None else Some(c)
  }

  predicate NameTaken(t: Tables, name: string) { exists id :: id in t.users && t.users[id].name == name }

  function Admins(users: map<int, User>): set<int> { set id | id in users && users[id].admin }

  lemma SomeId(ids: set<int>)
    ensures ids == {} || exists id :: id in ids
  {
    if !exists id :: id in ids { assert ids == {}; }
  }

  function IdOf(t: Tables, name: string): int
    requires NameTaken(t, name) && UniqueNames(t.users)
  {
    var id :| id in t.users && t.users[id].name == name; id
  }

  predicate UniqueNames(users: map<int, User>) {
    forall a, b :: a in users && b in users && users[a].name == users[b].name ==> a == b
  }

  function Insert(t: Tables, u: User): Tables { t.(users := t.users[t.nextId := u], nextId := t.nextId + 1) }

  function OwnedBy(m: Marks, id: int): set<string> { set p | p in m && m[p] == id }

  function Apply(t: Tables, op: Op): (Tables, Result)
    requires UniqueNames(t.users)
  {
    match op
    case CreateUser(name, hash, admin, scope) =>
      if !ValidUsername(name) || ValidScope(scope).None? then (t, BadValue)
      else if NameTaken(t, name) then (t, Exists)
      else (Insert(t, User(name, hash, admin, ValidScope(scope).value, false)), NewId(t.nextId))
    case UpdateUser(id, admin, scope) =>
      if ValidScope(scope).None? then (t, BadValue)
      else if id !in t.users then (t, NotFound)
      else if t.users[id].admin && !admin && |Admins(t.users)| <= 1 then (t, LastAdmin)
      else (t.(users := t.users[id := t.users[id].(admin := admin, scope := ValidScope(scope).value)]), Done)
    case RenameUser(id, name) =>
      if !ValidUsername(name) then (t, BadValue)
      else if id !in t.users then (t, NotFound)
      else if t.users[id].name == name then (t, Done)
      else if NameTaken(t, name) then (t, Exists)
      else (t.(users := t.users[id := t.users[id].(name := name)]), Done)
    case SetPassword(id, hash) =>
      if id !in t.users then (t, NotFound)
      else (t.(users := t.users[id := t.users[id].(hash := hash)]), Done)
    case DeleteUser(id) =>
      if id !in t.users then (t, NotFound)
      else if t.users[id].original then (t, Original)
      else if t.users[id].admin && |Admins(t.users)| <= 1 then (t, LastAdmin)
      else (t.(users := t.users - {id}, marks := t.marks - OwnedBy(t.marks, id)), Done)
    case CreateOriginal(hash) =>
      if !NameTaken(t, "admin") then (Insert(t, User("admin", hash, true, "", true)), NewId(t.nextId))
      else
        var id := IdOf(t, "admin");
        if !t.users[id].original then (t, Constraint)
        else (t.(users := t.users[id := t.users[id].(hash := hash)]), NewId(id))
    case SetPrivate(dir, owner) =>
      if CleanPath(dir).None? then (t, BadValue)
      else if owner !in t.users then (t, Constraint)
      else (t.(marks := t.marks[CleanPath(dir).value := owner]), Done)
    case UnsetPrivate(dir) =>
      if CleanPath(dir).None? then (t, BadValue) else (t.(marks := t.marks - {CleanPath(dir).value}), Done)
    case RenamePrivate(from, to, rows) =>
      if CleanPath(from).None? || CleanPath(to).None? then (t, BadValue)
      else
        var (m, ok) := RenameRows(t.marks, rows, CleanPath(from).value, CleanPath(to).value);
        (t.(marks := m), if ok then Done else Constraint)
    case DeletePrivateBelow(dir) =>
      if dir == "." || dir == "" then (t.(marks := map[]), Done)
      else if CleanPath(dir).None? then (t, BadValue)
      else (t.(marks := t.marks - DeletedBelow(t.marks, CleanPath(dir).value)), Done)
  }

  // ---------------------------------------------------------------------
  // The store
  // ---------------------------------------------------------------------

  class Store {
    var users: map<int, User>
    var nextId: int
    var marks: Marks

    ghost function View(): Tables
      reads this
    {
      Tables(users, nextId, marks)
    }

    constructor ()
      ensures View() == Tables(map[], 1, map[])
    {
      users, nextId, marks := map[], 1, map[];
    }

    method Find(name: string) returns (found: Option<int>)
      requires UniqueNames(users)
      ensures found.None? <==> !NameTaken(View(), name)
      ensures found.Some? ==> NameTaken(View(), name) && found.value == IdOf(View(), name)
    {
      if id :| id in users && users[id].name == name { return Some(id); }
      found := None;
    }

    method CountAdmins() returns (n: nat)
      ensures n == |Admins(users)|
    {
      var todo: set<int> := users.Keys;
      var counted: set<int> := {};
      n := 0;
      while todo != {}
        invariant todo <= users.Keys && n == |counted|
        invariant counted == set id | id in users.Keys - todo && users[id].admin
        decreases |todo|
      {
        SomeId(todo);
        var id :| id in todo;
        todo := todo - {id};
        if users[id].admin { n, counted := n + 1, counted + {id}; }
      }
      assert counted == Admins(users);
    }

    method CreateUser(name: string, hash: string, admin: bool, scope: string) returns (r: Result)
      requires UniqueNames(users)
      modifies this
      ensures (View(), r) == Apply(old(View()), Op.CreateUser(name, hash, admin, scope))
    {
      if !ValidUsername(name) { return BadValue; }
      var clean := ValidScope(scope);
      if clean.None? { return BadValue; }
      var taken := Find(name);
      if taken.Some? { return Exists; }
      users := users[nextId := User(name, hash, admin, clean.value, false)];
      nextId := nextId + 1;
      r := NewId(nextId - 1);
    }

    method UpdateUser(id: int, admin: bool, scope: string) returns (r: Result)
      requires UniqueNames(users)
      modifies this
      ensures (View(), r) == Apply(old(View()), Op.UpdateUser(id, admin, scope))
    {
      var clean := ValidScope(scope);
      if clean.None? { return BadValue; }
      if id !in users { return NotFound; }
      if users[id].admin && !admin {
        var n := CountAdmins();
        if n <= 1 { return LastAdmin; }
      }
      users := users[id := users[id].(admin := admin, scope := clean.value)];
      r := Done;
    }

    method RenameUser(id: int, name: string) returns (r: Result)
      requires UniqueNames(users)
      modifies this
      ensures (View(), r) == Apply(old(View()), Op.RenameUser(id, name))
    {
      if !ValidUsername(name) { return BadValue; }
      if id !in users { return NotFound; }
      if users[id].name == name { return Done; }
      var taken := Find(name);
      if taken.Some? { return Exists; }
      users := users[id := users[id].(name := name)];
      r := Done;
    }

    method SetPassword(id: int, hash: string) returns (r: Result)
      requires UniqueNames(users)
      modifies this
      ensures (View(), r) == Apply(old(View()), Op.SetPassword(id, hash))
    {
      if id !in users { return NotFound; }
      users := users[id := users[id].(hash := hash)];
      r := Done;
    }

    method DeleteUser(id: int) returns (r: Result)
      requires UniqueNames(users)
      modifies this
      ensures (View(), r) == Apply(old(View()), Op.DeleteUser(id))
    {
      if id !in users { return NotFound; }
      if users[id].original { return Original; }
      if users[id].admin {
        var n := CountAdmins();
        if n <= 1 { return LastAdmin; }
      }
      users := users - {id};
      marks := marks - OwnedBy(marks, id);   // ON DELETE CASCADE
      r := Done;
    }

    method CreateOriginal(hash: string) returns (r: Result)
      requires UniqueNames(users)
      modifies this
      ensures (View(), r) == Apply(old(View()), Op.CreateOriginal(hash))
    {
      var found := Find("admin");
      if found.Some? {
        if !users[found.value].original { return Constraint; }
        var _ := SetPassword(found.value, hash);
        return NewId(found.value);
      }
      users := users[nextId := User("admin", hash, true, "", true)];
      nextId := nextId + 1;
      r := NewId(nextId - 1);
    }

    method SetPrivate(dir: string, owner: int) returns (r: Result)
      requires UniqueNames(users)
      modifies this`marks
      ensures (View(), r) == Apply(old(View()), Op.SetPrivate(dir, owner))
    {
      var clean := CleanPath(dir);
      if clean.None? { return BadValue; }
      if owner !in users { return Constraint; }
      marks := marks[clean.value := owner];
      r := Done;
    }

    method UnsetPrivate(dir: string) returns (r: Result)
      requires UniqueNames(users)
      modifies this`marks
      ensures (View(), r) == Apply(old(View()), Op.UnsetPrivate(dir))
    {
      var clean := CleanPath(dir);
      if clean.None? { return BadValue; }
      marks := marks - {clean.value};
      r := Done;
    }

    /** SELECT path: the rows of the table in some order. */
    method Rows() returns (rows: seq<string>)
      ensures Distinct(rows) && Elements(rows) == marks.Keys
    {
      rows := [];
      var todo := marks.Keys;
      while todo != {}
        invariant Distinct(rows) && Elements(rows) !! todo && Elements(rows) + todo == marks.Keys
        decreases |todo|
      {
        var p :| p in todo;
        todo := todo - {p};
        assert Elements(rows + [p]) == Elements(rows) + {p};
        rows := rows + [p];
      }
    }

    /** The rows to update, collected before the first UPDATE. */
    method SelectBelow(from: string, rows: seq<string>) returns (affected: seq<string>)
      ensures affected == Below(rows, from)
    {
      affected := [];
      var k := 0;
      while k < |rows|
        invariant 0 <= k <= |rows| && affected == Below(rows[..k], from)
      {
        assert rows[..k + 1] == rows[..k] + [rows[k]];
        BelowSnoc(rows[..k], rows[k], from);
        if AtOrBelow(rows[k], from) { affected := affected + [rows[k]]; }
        k := k + 1;
      }
      assert rows[..k] == rows;
    }

    /** One UPDATE after the other; stops at a key violation. */
    method UpdateRows(affected: seq<string>, from: string, to: string) returns (ok: bool)
      requires forall p :: p in affected ==> AtOrBelow(p, from)
      modifies this`marks
      ensures (marks, ok) == RenameRows(old(marks), affected, from, to)
    {
      var i := 0;
      assert affected[0..] == affected;
      while i < |affected|
        invariant 0 <= i <= |affected|
        invariant RenameRows(old(marks), affected, from, to) == RenameRows(marks, affected[i..], from, to)
      {
        var p := affected[i];
        assert affected[i..][1..] == affected[i + 1..] && affected[i..][0] == p;
        if p in marks {
          var newPath := to + p[|from|..];
          if newPath in marks && newPath != p { return false; }
          marks := (marks - {p})[newPath := marks[p]];
        }
        i := i + 1;
      }
      ok := true;
    }

    method RenamePrivate(from: string, to: string) returns (r: Result, ghost rows: seq<string>)
      requires UniqueNames(users)
      modifies this`marks
      ensures Distinct(rows) && Elements(rows) == old(marks).Keys
      ensures (View(), r) == Apply(old(View()), Op.RenamePrivate(from, to, rows))
    {
      var all := Rows();
      rows := all;
      var f := CleanPath(from);
      if f.None? { return BadValue, rows; }
      var t := CleanPath(to);
      if t.None? { return BadValue, rows; }
      RowsBelow(marks, all, f.value, t.value);
      var affected := SelectBelow(f.value, all);
      var ok := UpdateRows(affected, f.value, t.value);
      r := if ok then Done else Constraint;
    }

    method DeletePrivateBelow(dir: string) returns (r: Result)
      requires UniqueNames(users)
      modifies this`marks
      ensures (View(), r) == Apply(old(View()), Op.DeletePrivateBelow(dir))
    {
      if dir == "." || dir == "" {
        marks := map[];
        return Done;
      }
      var clean := CleanPath(dir);
      if clean.None? { return BadValue; }
      marks := marks - DeletedBelow(marks, clean.value);
      r := Done;
    }
  }

  /** The rows at or below from, in order. */
  function Below(rows: seq<string>, from: string): seq<string> {
    if |rows| == 0 then []
    else (if AtOrBelow(rows[0], from) then [rows[0]] else []) + Below(rows[1..], from)
  }

  lemma {:induction false} BelowSnoc(rows: seq<string>, p: string, from: string)
    ensures Below(rows + [p], from) == Below(rows, from) + if AtOrBelow(p, from) then [p] else []
  {
    if |rows| > 0 {
      assert (rows + [p])[1..] == rows[1..] + [p];
      BelowSnoc(rows[1..], p, from);
    } else {
      assert rows + [p] == [p];
    }
  }

  /** Collecting the affected rows first changes nothing. */
  lemma {:induction false} RowsBelow(m: Marks, rows: seq<string>, from: string, to: string)
    ensures RenameRows(m, rows, from, to) == RenameRows(m, Below(rows, from), from, to)
    ensures forall p :: p in Below(rows, from) ==> AtOrBelow(p, from)
    decreases |rows|
  {
    if |rows| > 0 {
      var p, rest := rows[0], rows[1..];
      RowsBelow(m, rest, from, to);
      if AtOrBelow(p, from) {
        assert Below(rows, from)[0] == p && Below(rows, from)[1..] == Below(rest, from);
        if p in m { RowsBelow((m - {p})[Reroot(p, from, to) := m[p]], rest, from, to); }
      } else {
        assert Below(rows, from) == Below(rest, from);
      }
    }
  }

  lemma RenameApplied(t: Tables, from: string, to: string, f: string, g: string, rows: seq<string>)
    requires UniqueNames(t.users) && CleanPath(from) == Some(f) && CleanPath(to) == Some(g)
    ensures var (m, ok) := RenameRows(t.marks, rows, f, g);
            Apply(t, Op.RenamePrivate(from, to, rows)) == (t.(marks := m), if ok then Done else Constraint)
  {}

  // ---------------------------------------------------------------------
  // Every run of account and mark operations
  // ---------------------------------------------------------------------

  /** At least one admin, unique usernames, ids below the sequence, and every
      mark a path in normal form, not the root, owned by a live account. */
  ghost predicate Sound(t: Tables) {
    Admins(t.users) != {} && UniqueNames(t.users) &&
    (forall id :: id in t.users ==> id < t.nextId) &&
    MarksSound(t, t.marks)
  }

  /** Originals stay, and a retired id stays retired. */
  ghost predicate Kept(t: Tables, t': Tables) {
    t.nextId <= t'.nextId &&
    (forall id :: id in t.users && t.users[id].original ==> id in t'.users && t'.users[id].original) &&
    (forall id :: id < t.nextId && id !in t.users ==> id !in t'.users)
  }

  /** With more than one admin, one is left when id loses the flag or the row. */
  lemma AnotherAdmin(users: map<int, User>, users': map<int, User>, id: int)
    requires |Admins(users)| > 1 || id !in Admins(users)
    requires Admins(users) != {} && forall a :: a in users && a != id ==> a in users' && users'[a] == users[a]
    ensures Admins(users') != {}
  {
    var rest := Admins(users) - {id};
    assert |rest| > 0 || rest == Admins(users);
    SomeId(rest);
    var a :| a in rest;
    assert a in Admins(users');
  }

  lemma InsertSound(t: Tables, u: User)
    requires Sound(t) && !NameTaken(t, u.name)
    ensures Sound(Insert(t, u)) && Kept(t, Insert(t, u))
  {
    assert Admins(t.users) <= Admins(Insert(t, u).users);
  }

  /** An account row that changes in place. */
  lemma UpdateSound(t: Tables, id: int, u: User)
    requires Sound(t) && id in t.users && u.original == t.users[id].original
    requires u.name == t.users[id].name || !NameTaken(t, u.name)
    requires u.admin || !t.users[id].admin || |Admins(t.users)| > 1
    ensures Sound(t.(users := t.users[id := u])) && Kept(t, t.(users := t.users[id := u]))
  {
    var users' := t.users[id := u];
    if u.admin && t.users[id].admin {
      assert id in Admins(users');
    } else if u.admin {
      assert id in Admins(users');
    } else {
      AnotherAdmin(t.users, users', id);
    }
  }

  lemma DeleteSound(t: Tables, id: int)
    requires Sound(t) && id in t.users && !t.users[id].original
    requires !t.users[id].admin || |Admins(t.users)| > 1
    ensures var t' := t.(users := t.users - {id}, marks := t.marks - OwnedBy(t.marks, id)); Sound(t') && Kept(t, t')
  {
    AnotherAdmin(t.users, t.users - {id}, id);
  }

  lemma MarkSound(t: Tables, m: Marks)
    requires Sound(t)
    requires MarksSound(t, m)
    ensures Sound(t.(marks := m)) && Kept(t, t.(marks := m))
  {}

  lemma CleanPathCanonical(p: string)
    ensures CleanPath(p).Some? ==> Canonical(CleanPath(p).value) && CleanPath(p).value != "."
  {
    CleanIsNormalize(p);
  }

  /** A re-rooted mark is in normal form again (its length is not checked). */
  lemma RerootNormal(p: string, from: string, to: string)
    requires NormalForm(p) && NormalForm(from) && NormalForm(to) && p != "." && from != "." && to != "."
    requires AtOrBelow(p, from)
    ensures NormalForm(Reroot(p, from, to)) && Reroot(p, from, to) != "."
  {
    if p == from {
      assert Reroot(p, from, to) == to;
    } else {
      var t := p[|from| + 1..];
      assert p == from + "/" + t;
      TailSolid(from, t);
      JoinSplit(to);
      SplitExtends(Split(to), t);
      assert Reroot(p, from, to) == to + "/" + t;
      assert |to + "/" + t| > 1;
    }
  }

  lemma TailSolid(from: string, t: string)
    requires AllSolid(Split(from)) && AllSolid(Split(from + "/" + t))
    ensures AllSolid(Split(t))
  {
    JoinSplit(from);
    SplitExtends(Split(from), t);
    var all := Split(from) + Split(t);
    forall i | 0 <= i < |Split(t)|
      ensures Solid(Split(t)[i])
    {
      assert all[|Split(from)| + i] == Split(t)[i];
    }
  }

  ghost predicate MarksSound(t: Tables, m: Marks) {
    forall p :: p in m ==> NormalForm(p) && p != "." && m[p] in t.users
  }

  lemma {:induction false} RenameKeepsMarks(t: Tables, m: Marks, rows: seq<string>, from: string, to: string)
    requires MarksSound(t, m) && NormalForm(from) && NormalForm(to) && from != "." && to != "."
    ensures MarksSound(t, RenameRows(m, rows, from, to).0)
    decreases |rows|
  {
    if |rows| > 0 {
      var p := rows[0];
      if !AtOrBelow(p, from) || p !in m {
        RenameKeepsMarks(t, m, rows[1..], from, to);
      } else {
        RerootNormal(p, from, to);
        RenameKeepsMarks(t, (m - {p})[Reroot(p, from, to) := m[p]], rows[1..], from, to);
      }
    }
  }

  predicate IsAccountOp(op: Op) {
    op.CreateUser? || op.UpdateUser? || op.RenameUser? || op.SetPassword? || op.DeleteUser? || op.CreateOriginal?
  }

  lemma AccountKeepsSound(t: Tables, op: Op)
    requires Sound(t) && IsAccountOp(op)
    ensures Sound(Apply(t, op).0) && Kept(t, Apply(t, op).0)
  {
    match op {
      case CreateUser(name, hash, admin, scope) =>
        if ValidScope(scope).Some? && !NameTaken(t, name) {
          InsertSound(t, User(name, hash, admin, ValidScope(scope).value, false));
        }
      case UpdateUser(id, admin, scope) =>
        if ValidScope(scope).Some? && id in t.users && Apply(t, op).1 == Done {
          UpdateSound(t, id, t.users[id].(admin := admin, scope := ValidScope(scope).value));
        }
      case RenameUser(id, name) =>
        if id in t.users && !NameTaken(t, name) { UpdateSound(t, id, t.users[id].(name := name)); }
      case SetPassword(id, hash) =>
        if id in t.users { UpdateSound(t, id, t.users[id].(hash := hash)); }
      case DeleteUser(id) =>
        if Apply(t, op).1 == Done { DeleteSound(t, id); }
      case CreateOriginal(hash) =>
        if NameTaken(t, "admin") {
          var id := IdOf(t, "admin");
          UpdateSound(t, id, t.users[id].(hash := hash));
        } else {
          InsertSound(t, User("admin", hash, true, "", true));
        }
      case _ =>
    }
  }

  /** Every operation keeps the tables sound, the originals and retired ids. */
  lemma ApplyKeepsSound(t: Tables, op: Op)
    requires Sound(t)
    ensures Sound(Apply(t, op).0) && Kept(t, Apply(t, op).0)
  {
    match op {
      case SetPrivate(dir, owner) =>
        CleanPathCanonical(dir);
        if CleanPath(dir).Some? && owner in t.users { MarkSound(t, t.marks[CleanPath(dir).value := owner]); }
      case UnsetPrivate(dir) =>
        if CleanPath(dir).Some? { MarkSound(t, t.marks - {CleanPath(dir).value}); }
      case RenamePrivate(from, to, rows) =>
        CleanPathCanonical(from);
        CleanPathCanonical(to);
        if CleanPath(from).Some? && CleanPath(to).Some? {
          RenameKeepsMarks(t, t.marks, rows, CleanPath(from).value, CleanPath(to).value);
        }
      case DeletePrivateBelow(dir) =>
        if dir == "." || dir == "" { MarkSound(t, map[]); }
        else if CleanPath(dir).Some? { MarkSound(t, t.marks - DeletedBelow(t.marks, CleanPath(dir).value)); }
      case _ => AccountKeepsSound(t, op);
    }
  }

  lemma ApplyKeepsNames(t: Tables, op: Op)
    requires UniqueNames(t.users)
    ensures UniqueNames(Apply(t, op).0.users)
  {
    if op.CreateOriginal? && NameTaken(t, "admin") { assert t.users[IdOf(t, "admin")].name == "admin"; }
  }

  function Run(t: Tables, ops: seq<Op>): Tables
    requires UniqueNames(t.users)
    decreases |ops|
  {
    if |ops| == 0 then t
    else
      ApplyKeepsNames(t, ops[0]);
      Run(Apply(t, ops[0]).0, ops[1..])
  }

  /** Over every run from a store with an admin: there always is an admin, no two
      accounts share a name, original accounts stay, every mark belongs to a live
      account, and an id that was deleted once never comes back, so a session
      minted for it never resolves again. */
  lemma {:induction false} RunKeepsSound(t: Tables, ops: seq<Op>)
    requires Sound(t)
    ensures Sound(Run(t, ops)) && Kept(t, Run(t, ops))
    decreases |ops|
  {
    if |ops| > 0 {
      ApplyKeepsSound(t, ops[0]);
      RunKeepsSound(Apply(t, ops[0]).0, ops[1..]);
    }
  }

  /** VerifySession on a genuine, unexpired token: the account row is reloaded. */
  predicate Resolves(t: Tables, tokenUser: int) { tokenUser in t.users }

  lemma DeletedNeverResolves(t: Tables, id: int, ops: seq<Op>)
    requires Sound(t) && id in t.users && Apply(t, Op.DeleteUser(id)).1 == Done
    ensures Sound(Apply(t, Op.DeleteUser(id)).0)
    ensures !Resolves(Run(Apply(t, Op.DeleteUser(id)).0, ops), id)
  {
    var t' := Apply(t, Op.DeleteUser(id)).0;
    ApplyKeepsSound(t, Op.DeleteUser(id));
    RunKeepsSound(t', ops);
  }

  // ---------------------------------------------------------------------
  // What each account operation writes, and when
  // ---------------------------------------------------------------------

  /** The stored scope is empty for the root, and else the path Clean makes of it. */
  predicate StoredScope(scope: string, stored: string) {
    Clean(scope).Ok? && (if Clean(scope).path == "." then stored == "" else stored == Clean(scope).path)
  }

  predicate IsName(name: string) {
    0 < |name| < 65 &&
    forall i :: 0 <= i < |name| ==>
      'a' <= name[i] <= 'z' || 'A' <= name[i] <= 'Z' || '0' <= name[i] <= '9' || name[i] in {'.', '_', '-'}
  }

  lemma NamesAre(name: string)
    ensures ValidUsername(name) <==> IsName(name)
  {
    if IsName(name) {
      forall c | c in name
        ensures NameChar(c)
      {
        var i :| 0 <= i < |name| && name[i] == c;
      }
    }
    if ValidUsername(name) {
      forall i | 0 <= i < |name|
        ensures NameChar(name[i])
      {
        assert name[i] in name;
      }
    }
  }

  /** id is the only admin. */
  ghost predicate OnlyAdmin(t: Tables, id: int) {
    id in t.users && forall a :: a in t.users && t.users[a].admin <==> a == id
  }

  lemma OnlyAdminCounts(t: Tables, id: int)
    requires id in t.users && t.users[id].admin
    ensures |Admins(t.users)| <= 1 <==> forall a :: a in t.users && t.users[a].admin ==> a == id
  {
    var all := Admins(t.users);
    assert id in all;
    if forall a :: a in t.users && t.users[a].admin ==> a == id { assert all == {id}; }
    var rest := all - {id};
    assert |rest| == |all| - 1;
    if a :| a in t.users && t.users[a].admin && a != id { assert a in rest; }
  }

  lemma UserCreated(t: Tables, name: string, hash: string, admin: bool, scope: string)
    requires UniqueNames(t.users)
    ensures var (t', r) := Apply(t, Op.CreateUser(name, hash, admin, scope));
            if IsName(name) && Clean(scope).Ok? && !NameTaken(t, name) then
              r == NewId(t.nextId) && t'.nextId == t.nextId + 1 && t'.marks == t.marks &&
              exists stored ::
                StoredScope(scope, stored) && t'.users == t.users[t.nextId := User(name, hash, admin, stored, false)]
            else t' == t && r == if IsName(name) && Clean(scope).Ok? then Exists else BadValue
  {
    NamesAre(name);
    if Clean(scope).Ok? { assert StoredScope(scope, ValidScope(scope).value); }
  }

  /** Flag and scope change, nothing else; the last admin keeps the flag. */
  lemma UserUpdated(t: Tables, id: int, admin: bool, scope: string)
    requires UniqueNames(t.users)
    ensures var (t', r) := Apply(t, Op.UpdateUser(id, admin, scope));
            t'.nextId == t.nextId && t'.marks == t.marks &&
            if Clean(scope).Ok? && id in t.users && (admin || !OnlyAdmin(t, id)) then
              var u := t.users[id];
              r == Done &&
              exists stored ::
                StoredScope(scope, stored) && t'.users == t.users[id := User(u.name, u.hash, admin, stored, u.original)]
            else
              t' == t &&
              r == if Clean(scope).Invalid? then BadValue else if id !in t.users then NotFound else LastAdmin
  {
    if Clean(scope).Ok? { assert StoredScope(scope, ValidScope(scope).value); }
    if id in t.users && t.users[id].admin { OnlyAdminCounts(t, id); }
  }

  lemma UserRenamed(t: Tables, id: int, name: string)
    requires UniqueNames(t.users)
    ensures var (t', r) := Apply(t, Op.RenameUser(id, name));
            t'.nextId == t.nextId && t'.marks == t.marks &&
            if IsName(name) && id in t.users && (NameTaken(t, name) ==> t.users[id].name == name) then
              var u := t.users[id];
              r == Done && t'.users == t.users[id := User(name, u.hash, u.admin, u.scope, u.original)]
            else t' == t && r == if !IsName(name) then BadValue else if id !in t.users then NotFound else Exists
  {
    NamesAre(name);
    if id in t.users && t.users[id].name == name { assert t.users[id := t.users[id]] == t.users; }
  }

  lemma PasswordSet(t: Tables, id: int, hash: string)
    requires UniqueNames(t.users)
    ensures var (t', r) := Apply(t, Op.SetPassword(id, hash));
            t'.nextId == t.nextId && t'.marks == t.marks &&
            if id in t.users then
              var u := t.users[id];
              r == Done && t'.users == t.users[id := User(u.name, hash, u.admin, u.scope, u.original)]
            else t' == t && r == NotFound
  {}

  /** The row goes, and of the marks exactly those of its owner. */
  lemma UserDeleted(t: Tables, id: int)
    requires UniqueNames(t.users)
    ensures var (t', r) := Apply(t, Op.DeleteUser(id));
            t'.nextId == t.nextId &&
            if id in t.users && !t.users[id].original && !OnlyAdmin(t, id) then
              r == Done && t'.users == t.users - {id} &&
              (forall p :: p in t'.marks <==> p in t.marks && t.marks[p] != id) &&
              (forall p :: p in t'.marks ==> t'.marks[p] == t.marks[p])
            else
              t' == t &&
              r == if id !in t.users then NotFound else if t.users[id].original then Original else LastAdmin
  {
    if id in t.users && t.users[id].admin { OnlyAdminCounts(t, id); }
  }

  /** The first call creates the original admin, later ones reset its hash; it never
      takes over an account that merely has the name. */
  lemma OriginalSeeded(t: Tables, hash: string)
    requires UniqueNames(t.users)
    ensures var (t', r) := Apply(t, Op.CreateOriginal(hash));
            t'.marks == t.marks &&
            if !NameTaken(t, "admin") then
              r == NewId(t.nextId) && t'.nextId == t.nextId + 1 &&
              t'.users == t.users[t.nextId := User("admin", hash, true, "", true)]
            else
              exists id ::
                id in t.users && t.users[id].name == "admin" && t'.nextId == t.nextId &&
                if t.users[id].original then
                  r == NewId(id) && t'.users == t.users[id := t.users[id].(hash := hash)]
                else r == Constraint && t' == t
  {
    if NameTaken(t, "admin") { assert IdOf(t, "admin") in t.users; }
  }
}
