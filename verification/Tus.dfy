// internal/api/tus.go with the upload handle of internal/storage/local/local.go:
// resumable uploads over the tus protocol 1.0.0. Each request and each garbage
// collection is one atomic step; the disk does not fail.
module Tus {
  import opened Common
  import opened Paths

  type byte = x: int | 0 <= x < 256
  type bytes = seq<byte>

  // ---------------------------------------------------------------------
  // The request body and the clamping copy loop
  // ---------------------------------------------------------------------

  datatype ReadError = NoError | Eof | Transport | LimitExceeded

  /** Whether reading pieces of these sizes shows more than remaining bytes: some
      piece straddles the limit. A piece that ends on it stops the loop first. */
  predicate Crosses(sizes: seq<nat>, remaining: nat) {
    |sizes| > 0 &&
    (sizes[0] > remaining || (sizes[0] < remaining && Crosses(sizes[1..], remaining - sizes[0])))
  }

  function Total(sizes: seq<nat>): nat { if |sizes| == 0 then 0 else sizes[0] + Total(sizes[1..]) }

  lemma {:induction false} CrossesAtEnd(sizes: seq<nat>, n: nat, remaining: nat)
    requires Total(sizes) < remaining
    ensures Crosses(sizes + [n], remaining) <==> n > remaining - Total(sizes)
    ensures Total(sizes + [n]) == Total(sizes) + n
  {
    if |sizes| > 0 {
      CrossesAtEnd(sizes[1..], n, remaining - sizes[0]);
      assert (sizes + [n])[1..] == sizes[1..] + [n];
    } else {
      assert sizes + [n] == [n];
    }
  }

  const CHUNK_BUFFER := 1048576

  /** The pieces fit the buffer of copyTusBody. */
  predicate FitsBuffer(sizes: seq<nat>, remaining: nat) {
    forall i :: 0 <= i < |sizes| ==> sizes[i] <= Min(CHUNK_BUFFER, remaining)
  }

  /** A way to read a body of len bytes piece by piece. */
  predicate IsCut(sizes: seq<nat>, len: nat, remaining: nat) {
    FitsBuffer(sizes, remaining) && Total(sizes) == len && forall i :: 0 <= i < |sizes| ==> sizes[i] > 0
  }

  /** Only a body that is too long is seen to be, and never with a single byte left:
      the buffer then holds one byte. */
  lemma {:induction false} CrossesNeeds(sizes: seq<nat>, remaining: nat)
    requires Crosses(sizes, remaining)
    ensures Total(sizes) > remaining
    ensures remaining == 1 ==> exists i :: 0 <= i < |sizes| && sizes[i] > 1
  {
    if sizes[0] < remaining {
      CrossesNeeds(sizes[1..], remaining - sizes[0]);
      if remaining == 1 {
        var i :| 0 <= i < |sizes[1..]| && sizes[1..][i] > 1;
        assert sizes[i + 1] > 1;
      }
    }
  }

  /** One more piece for copyTusBody, read before the limit was reached. */
  lemma PieceRead(sizes: seq<nat>, n: nat, remaining: nat)
    requires Total(sizes) < remaining && FitsBuffer(sizes, remaining) && n <= Min(CHUNK_BUFFER, remaining)
    ensures Total(sizes + [n]) == Total(sizes) + n && FitsBuffer(sizes + [n], remaining)
    ensures Crosses(sizes + [n], remaining) <==> n > remaining - Total(sizes)
    ensures n > remaining - Total(sizes) ==> remaining >= 2
  {
    CrossesAtEnd(sizes, n, remaining);
    if Crosses(sizes + [n], remaining) { CrossesNeeds(sizes + [n], remaining); }
  }

  function Ones(n: nat): (r: seq<nat>)
    ensures |r| == n && forall i :: 0 <= i < n ==> r[i] == 1
  {
    if n == 0 then [] else [1] + Ones(n - 1)
  }

  lemma {:induction false} OnesFirst(n: nat, rest: seq<nat>, left: nat)
    requires left > 0
    ensures Crosses(Ones(n) + rest, n + left) == Crosses(rest, left) && Total(Ones(n) + rest) == n + Total(rest)
  {
    if n == 0 {
      assert Ones(0) + rest == rest;
    } else {
      assert (Ones(n) + rest)[1..] == Ones(n - 1) + rest;
      OnesFirst(n - 1, rest, left);
    }
  }

  /** Byte by byte a body passes for a fitting one; with one piece of two bytes
      across the limit it is seen to be too long. */
  lemma TwoCuts(len: nat, remaining: nat)
    requires len > remaining >= 2
    ensures exists a, b ::
              IsCut(a, len, remaining) && IsCut(b, len, remaining) && Crosses(a, remaining) && !Crosses(b, remaining)
  {
    var head, tail := Ones(remaining - 1), [2] + Ones(len - remaining - 1);
    var a, b := head + tail, head + Ones(len - remaining + 1);
    OnesFirst(remaining - 1, tail, 1);
    OnesFirst(remaining - 1, Ones(len - remaining + 1), 1);
    OnesFirst(len - remaining - 1, [], 1);
    OnesFirst(len - remaining + 1, [], 1);
    assert Ones(len - remaining - 1) + [] == Ones(len - remaining - 1);
    assert Ones(len - remaining + 1) + [] == Ones(len - remaining + 1);
    assert tail[1..] == Ones(len - remaining - 1);
    assert IsCut(a, len, remaining) && IsCut(b, len, remaining);
  }

  /** The overflow flag depends on how the body is cut into pieces exactly when the
      body is longer than what remains and more than one byte remains. */
  lemma OverflowDependsOnPieces(len: nat, remaining: nat)
    requires remaining > 0
    ensures (exists a, b ::
               IsCut(a, len, remaining) && IsCut(b, len, remaining) && Crosses(a, remaining) != Crosses(b, remaining))
            <==> len > remaining >= 2
  {
    if a, b :| IsCut(a, len, remaining) && IsCut(b, len, remaining) && Crosses(a, remaining) != Crosses(b, remaining) {
      CrossesNeeds(if Crosses(a, remaining) then a else b, remaining);
    }
    if len > remaining >= 2 { TwoCuts(len, remaining); }
  }

  /** r.Body: the bytes the client still sends, handed out in pieces of any
      positive size; broken bodies end in a transport error instead of EOF. */
  class Body {
    var rest: bytes
    var broken: bool
    ghost var sizes: seq<nat>     // sizes of the pieces read so far

    constructor (data: bytes, broken: bool)
      ensures rest == data && this.broken == broken && sizes == []
    {
      this.rest, this.broken, this.sizes := data, broken, [];
    }

    method Read(room: nat) returns (piece: bytes, err: ReadError)
      requires room > 0
      modifies this`rest, this`sizes
      ensures piece + rest == old(rest) && |piece| <= room && sizes == old(sizes) + [|piece|]
      ensures err == NoError || (rest == [] && err == if broken then Transport else Eof)
      ensures err == NoError ==> |piece| > 0
    {
      var n: nat :| n <= room && n <= |rest| && (n == 0 ==> rest == []);
      var early: bool :| true;
      piece, rest := rest[..n], rest[n..];
      sizes := sizes + [n];
      err := if rest == [] && (early || n == 0) then (if broken then Transport else Eof) else NoError;
    }
  }

  /** http.MaxBytesReader: passes at most left bytes on, then a sticky error. */
  class LimitedBody {
    const body: Body
    var left: nat
    var err: ReadError

    constructor (body: Body, limit: nat)
      ensures this.body == body && left == limit && err == NoError
    {
      this.body, left, err := body, limit, NoError;
    }

    /** n is what was read from the body itself. */
    method Read(room: nat) returns (piece: bytes, e: ReadError, ghost n: nat)
      requires room > 0 && err == NoError
      modifies this, body`rest, body`sizes
      ensures body.sizes == old(body.sizes) + [n] && n <= room && n <= |old(body.rest)|
      ensures |piece| == Min(n, old(left)) && piece == old(body.rest)[..|piece|] && body.rest == old(body.rest)[n..]
      ensures (e == LimitExceeded <==> n > old(left)) && left == old(left) - |piece| && err == e
      ensures e == NoError ==> |piece| > 0
      ensures e == Eof ==> body.rest == [] && !body.broken
      ensures e == Transport ==> body.rest == [] && body.broken
    {
      var r := if room - 1 > left then left + 1 else room;
      ghost var before := body.rest;
      piece, e := body.Read(r);
      n := |piece|;
      assert before[n..] == body.rest && before[..n] == piece;
      if |piece| <= left {
        left := left - |piece|;
      } else {
        piece := piece[..left];
        e := LimitExceeded;
        left := 0;
      }
      err := e;
    }
  }

  /** os.File.WriteAt on the contents of a file. */
  function WriteAt(file: bytes, data: bytes, off: nat): bytes
    requires off <= |file|
  {
    file[..off] + data + (if off + |data| < |file| then file[off + |data|..] else [])
  }

  lemma Appended(file0: bytes, all: bytes, written: nat, piece: bytes, k: nat)
    requires written + |piece| <= |all| && piece == all[written..][..|piece|] && k <= |piece|
    ensures all[written..][k..] == all[written + k..]
    ensures WriteAt(file0 + all[..written], piece[..k], |file0| + written) == file0 + all[..written + k]
  {
    assert piece[..k] == all[written..][..k] == all[written..written + k];
    assert all[..written + k] == all[..written] + all[written..written + k];
  }

  class File {
    var data: bytes

    constructor (data: bytes)
      ensures this.data == data
    {
      this.data := data;
    }
  }

  /** Appends the first remaining bytes of the body at offset, the size of the
      file. What is written does not depend on how the body is cut into pieces;
      the overflow flag does, and is raised only for a body that is too long when
      more than one byte remains.
      The limit error of MaxBytesReader is never the answer. */
  method CopyTusBody(file: File, body: Body, offset: nat, remaining: nat)
    returns (written: nat, overflow: bool, err: ReadError)
    requires offset == |file.data| && remaining > 0 && body.sizes == []
    modifies file, body`rest, body`sizes
    ensures written == Min(|old(body.rest)|, remaining)
    ensures file.data == old(file.data) + old(body.rest)[..written]
    ensures err == NoError || (err == Transport && body.broken && |old(body.rest)| <= remaining)
    ensures body.broken && |old(body.rest)| < remaining ==> err == Transport
    ensures overflow <==> Crosses(body.sizes, remaining)
    ensures FitsBuffer(body.sizes, remaining)
    ensures overflow ==> |old(body.rest)| > remaining >= 2
  {
    ghost var all, file0 := body.rest, file.data;
    var limited := new LimitedBody(body, remaining + 1);
    var buffer := Min(CHUNK_BUFFER, remaining);
    written, overflow, err := 0, false, NoError;
    while true
      invariant 0 <= written < remaining && written <= |all| && body.rest == all[written..]
      invariant file.data == file0 + all[..written]
      invariant limited.left == remaining + 1 - written && limited.err == NoError
      invariant Total(body.sizes) == written && FitsBuffer(body.sizes, remaining)
      invariant !overflow && body.broken == old(body.broken)
      decreases |body.rest|
    {
      ghost var sizes := body.sizes;
      var piece, rerr, n := limited.Read(buffer);
      PieceRead(sizes, n, remaining);
      if |piece| > 0 {
        var clamped := |piece|;
        if written + clamped > remaining {
          clamped := remaining - written;
          overflow := true;
        }
        Appended(file0, all, written, piece, clamped);
        file.data := WriteAt(file.data, piece[..clamped], offset + written);
        written := written + clamped;
      }
      if rerr == Eof || overflow { break; }
      if rerr != NoError { return written, overflow, rerr; }
      if written >= remaining { break; }
    }
  }

  // ---------------------------------------------------------------------
  // The registry as a state machine
  // ---------------------------------------------------------------------

  datatype Session = Session(path: string, size: nat, lastUsed: int)

  /** Upload sessions, and the files below the storage root by clean path. */
  datatype Tus = Tus(sessions: map<string, Session>, disk: map<string, bytes>, maxSize: int, ttl: nat)

  datatype Event =
    // refused: not a permitted write, or the storage cannot start it
    // isDir: the target exists, as a directory
    | Create(id: string, target: string, length: Option<int>, isDir: bool, refused: bool, now: int)
    // cut: the body broke off and copyTusBody saw it
    | Patch(id: string, mediaOk: bool, offset: Option<int>, body: bytes, cut: bool, now: int)
    | Head(id: string, now: int)
    | Delete(id: string, now: int)
    | Gc(now: int)
    | SetMaxSize(size: int)

  datatype Reply =
    | Created | Progress(offset: nat) | Offset(at: nat, length: nat) | NoContent
    | BadRequest | Conflict | NotFound | TooLarge | Refused | BodyFailed

  function Size(t: Tus, path: string): nat { if path in t.disk then |t.disk[path]| else 0 }

  predicate Accepts(t: Tus, e: Event) {
    e.Patch? && e.mediaOk && e.id in t.sessions &&
    e.offset == Some(Size(t, t.sessions[e.id].path)) &&
    Size(t, t.sessions[e.id].path) < t.sessions[e.id].size
  }

  function Remaining(t: Tus, id: string): int
    requires id in t.sessions
  {
    t.sessions[id].size - Size(t, t.sessions[id].path)
  }

  function Touch(t: Tus, id: string, now: int): Tus {
    if id in t.sessions then t.(sessions := t.sessions[id := t.sessions[id].(lastUsed := now)]) else t
  }

  predicate Expired(t: Tus, id: string, now: int)
    requires id in t.sessions
  {
    now - t.sessions[id].lastUsed > t.ttl
  }

  /** Abort of the sessions ids: their files and entries are gone. */
  function Discard(t: Tus, ids: set<string>): Tus {
    t.(sessions := t.sessions - ids,
       disk := t.disk - set id | id in ids && id in t.sessions :: t.sessions[id].path)
  }

  /** Answer to a creation request that does not start an upload. */
  function CreateRejection(t: Tus, e: Event): Option<Reply>
    requires e.Create?
  {
    if e.target == "" || RejectReservedRoot(e.target) then Some(BadRequest)
    else if e.length.None? || e.length.value < 0 then Some(BadRequest)
    else if e.length.value > t.maxSize then Some(TooLarge)
    else if Clean(e.target).Invalid? then Some(BadRequest)
    else if Clean(e.target).path in t.disk || e.isDir then Some(Conflict)
    else if e.refused then Some(Refused)
    else None
  }

  /** Answer to a PATCH that is not accepted. */
  function PatchRejection(t: Tus, e: Event): Reply
    requires e.Patch?
  {
    if !e.mediaOk then BadRequest
    else if e.id !in t.sessions then NotFound
    else if e.offset.None? then BadRequest
    else if e.offset.value != Size(t, t.sessions[e.id].path) then Conflict
    else BadRequest
  }

  function Next(t: Tus, e: Event): Tus {
    match e
    case Create(id, target, length, _, _, now) =>
      if CreateRejection(t, e).Some? then t
      else Start(t, id, Clean(target).path, length.value, now)
    case Patch(id, mediaOk, _, body, cut, now) =>
      if !mediaOk then t
      else if !Accepts(t, e) then Touch(t, id, now)
      else
        var s := t.sessions[id];
        var file := (if s.path in t.disk then t.disk[s.path] else []) + body[..Min(|body|, Remaining(t, id))];
        var t' := Touch(t, id, now).(disk := t.disk[s.path := file]);
        if !cut && |file| >= s.size then t'.(sessions := t'.sessions - {id}) else t'
    case Head(id, now) => Touch(t, id, now)
    case Delete(id, _) => Discard(t, {id})
    case Gc(now) => Discard(t, set id | id in t.sessions && Expired(t, id, now))
    case SetMaxSize(size) => t.(maxSize := size)
  }

  /** Session ids are fresh random values; only a body that does not exceed what
      was left can be cut. */
  predicate Possible(t: Tus, e: Event) {
    (e.Create? ==> e.id !in t.sessions) &&
    (Accepts(t, e) && e.cut ==> |e.body| <= Remaining(t, e.id))
  }

  predicate SessionSound(t: Tus, id: string) {
    id in t.sessions && t.sessions[id].path in t.disk &&
    |t.disk[t.sessions[id].path]| <= t.sessions[id].size
  }

  predicate SamePath(t: Tus, a: string, b: string) {
    a in t.sessions && b in t.sessions && t.sessions[a].path == t.sessions[b].path
  }

  /** Live sessions write to distinct files that exist and are never too long. */
  ghost predicate Valid(t: Tus) {
    (forall id :: id in t.sessions ==> SessionSound(t, id)) &&
    (forall a, b :: SamePath(t, a, b) ==> a == b)
  }

  lemma DiscardNone(t: Tus)
    ensures Discard(t, {}) == t
  {
    assert t.sessions - {} == t.sessions;
    assert t.disk - {} == t.disk;
  }

  lemma DiscardUnknown(t: Tus, id: string)
    requires id !in t.sessions
    ensures Discard(t, {id}) == t
  {
    assert t.sessions - {id} == t.sessions;
    assert (set i | i in {id} && i in t.sessions :: t.sessions[i].path) == {};
    assert t.disk - {} == t.disk;
  }

  lemma DiscardOne(t: Tus, ids: set<string>, id: string)
    requires id in t.sessions
    ensures var d := Discard(t, ids);
            Discard(t, ids + {id}) == d.(sessions := d.sessions - {id}, disk := d.disk - {t.sessions[id].path})
  {
    var paths := set i | i in ids && i in t.sessions :: t.sessions[i].path;
    assert (set i | i in ids + {id} && i in t.sessions :: t.sessions[i].path) == paths + {t.sessions[id].path};
    assert t.sessions - (ids + {id}) == t.sessions - ids - {id};
    assert t.disk - (paths + {t.sessions[id].path}) == t.disk - paths - {t.sessions[id].path};
  }

  lemma DiscardValid(t: Tus, ids: set<string>)
    requires Valid(t)
    ensures Valid(Discard(t, ids))
    ensures forall id :: id in t.sessions && id !in ids ==>
              Size(Discard(t, ids), t.sessions[id].path) == Size(t, t.sessions[id].path)
  {
    var d := Discard(t, ids);
    forall id | id in t.sessions && id !in ids
      ensures SessionSound(d, id) && d.disk[t.sessions[id].path] == t.disk[t.sessions[id].path]
    {
      assert SessionSound(t, id);
      forall i | i in ids && i in t.sessions
        ensures t.sessions[i].path != t.sessions[id].path
      {
        assert SamePath(t, i, id) ==> i == id;
      }
    }
    forall a, b | SamePath(d, a, b)
      ensures a == b
    {
      assert SamePath(t, a, b);
    }
  }

  /** Sessions keep their path and size, and their own file if it is still fit. */
  lemma KeptValid(t: Tus, t': Tus)
    requires Valid(t) && t'.sessions.Keys <= t.sessions.Keys
    requires forall id :: id in t'.sessions ==> t'.sessions[id].path == t.sessions[id].path && SessionSound(t', id)
    ensures Valid(t')
  {
    forall a, b | SamePath(t', a, b)
      ensures a == b
    {
      assert SamePath(t, a, b);
    }
  }

  function Start(t: Tus, id: string, path: string, size: nat, now: int): Tus {
    t.(sessions := t.sessions[id := Session(path, size, now)], disk := t.disk[path := []])
  }

  lemma StartValid(t: Tus, id: string, path: string, size: nat, now: int)
    requires Valid(t) && path !in t.disk && id !in t.sessions
    ensures Valid(Start(t, id, path, size, now))
  {
    var t' := Start(t, id, path, size, now);
    forall a | a in t.sessions
      ensures t.sessions[a].path != path && SessionSound(t', a)
    {
      assert SessionSound(t, a);
    }
    forall a, b | SamePath(t', a, b)
      ensures a == b
    {
      assert a != id && b != id ==> SamePath(t, a, b);
    }
  }

  lemma PatchValid(t: Tus, e: Event)
    requires Valid(t) && Accepts(t, e)
    ensures Valid(Next(t, e))
  {
    var t', path := Next(t, e), t.sessions[e.id].path;
    assert SessionSound(t, e.id);
    forall id | id in t'.sessions
      ensures t'.sessions[id].path == t.sessions[id].path && SessionSound(t', id)
    {
      assert SessionSound(t, id);
      assert SamePath(t, id, e.id) ==> id == e.id;
    }
    KeptValid(t, t');
  }

  lemma TouchValid(t: Tus, id: string, now: int)
    requires Valid(t)
    ensures Valid(Touch(t, id, now))
  {
    forall a | a in t.sessions
      ensures SessionSound(Touch(t, id, now), a)
    {
      assert SessionSound(t, a);
    }
    KeptValid(t, Touch(t, id, now));
  }

  /** Every step keeps the registry valid. */
  lemma NextValid(t: Tus, e: Event)
    requires Valid(t) && Possible(t, e)
    ensures Valid(Next(t, e))
  {
    match e {
      case Delete(id, _) => DiscardValid(t, {id});
      case Gc(now) => DiscardValid(t, set id | id in t.sessions && Expired(t, id, now));
      case Patch(id, _, _, _, _, now) =>
        TouchValid(t, id, now);
        if Accepts(t, e) { PatchValid(t, e); }
      case Create(id, _, _, _, _, _) =>
        if CreateRejection(t, e).None? { StartValid(t, id, Clean(e.target).path, e.length.value, e.now); }
      case Head(id, now) => TouchValid(t, id, now);
      case SetMaxSize(_) => KeptValid(t, Next(t, e));
    }
  }

  // ---------------------------------------------------------------------
  // The handlers
  // ---------------------------------------------------------------------

  class Registry {
    var sessions: map<string, Session>
    var disk: map<string, bytes>
    var maxSize: int
    const ttl: nat

    ghost function View(): Tus
      reads this
    {
      Tus(sessions, disk, maxSize, ttl)
    }

    constructor (disk: map<string, bytes>, maxSize: int, ttl: nat)
      ensures View() == Tus(map[], disk, maxSize, ttl)
    {
      sessions, this.disk, this.maxSize, this.ttl := map[], disk, maxSize, ttl;
    }

    /** tusRegistry.get. */
    method Get(id: string, now: int) returns (s: Option<Session>)
      modifies this
      ensures View() == Touch(old(View()), id, now)
      ensures s == if id in sessions then Some(sessions[id]) else None
    {
      if id in sessions {
        sessions := sessions[id := sessions[id].(lastUsed := now)];
        return Some(sessions[id]);
      }
      s := None;
    }

    method HandleTusCreate(id: string, target: string, length: Option<int>, isDir: bool, refused: bool, now: int)
      returns (r: Reply)
      requires id !in sessions
      modifies this
      ensures var e := Create(id, target, length, isDir, refused, now);
              View() == Next(old(View()), e) &&
              r == match CreateRejection(old(View()), e) case Some(no) => no case None => Created
    {
      if target == "" || RejectReservedRoot(target) { return BadRequest; }
      if length.None? || length.value < 0 { return BadRequest; }
      if length.value > maxSize { return TooLarge; }
      var clean := Clean(target);
      if clean.Invalid? { return BadRequest; }
      if clean.path in disk || isDir { return Conflict; }
      if refused { return Refused; }
      disk := disk[clean.path := []];
      sessions := sessions[id := Session(clean.path, length.value, now)];
      r := Created;
    }

    method HandleTusPatch(id: string, mediaOk: bool, offset: Option<int>, body: Body, now: int) returns (r: Reply)
      requires Valid(View()) && body.sizes == []
      modifies this, body`rest, body`sizes
      ensures var e := Patch(id, mediaOk, offset, old(body.rest), r.BodyFailed?, now);
              Possible(old(View()), e) && View() == Next(old(View()), e) &&
              (Accepts(old(View()), e) && r.BodyFailed? ==> body.broken) &&
              (Accepts(old(View()), e) && body.broken && |old(body.rest)| < Remaining(old(View()), id) ==>
                r.BodyFailed?) &&
              (Accepts(old(View()), e) && !r.BodyFailed? ==>
                r == Progress(Size(View(), old(View()).sessions[id].path)))
      ensures var e := Patch(id, mediaOk, offset, old(body.rest), false, now);
              !Accepts(old(View()), e) ==> r == PatchRejection(old(View()), e) && disk == old(disk)
    {
      if !mediaOk { return BadRequest; }
      var found := Get(id, now);
      if found.None? { return NotFound; }
      assert SessionSound(old(View()), id);
      var s := found.value;
      var at := |disk[s.path]|;
      if offset.None? { return BadRequest; }
      if offset.value != at { return Conflict; }
      if at >= s.size { return BadRequest; }
      var file := new File(disk[s.path]);
      var written, overflow, err := CopyTusBody(file, body, at, s.size - at);
      disk := disk[s.path := file.data];
      if err != NoError { return BodyFailed; }
      if at + written >= s.size { sessions := sessions - {id}; }
      r := Progress(at + written);
    }

    method HandleTusHead(id: string, now: int) returns (r: Reply)
      requires Valid(View())
      modifies this
      ensures View() == Next(old(View()), Head(id, now))
      ensures r == if id in sessions then Offset(Size(View(), sessions[id].path), sessions[id].size) else NotFound
    {
      var found := Get(id, now);
      if found.None? { return NotFound; }
      assert SessionSound(old(View()), id);
      r := Offset(|disk[found.value.path]|, found.value.size);
    }

    method HandleTusDelete(id: string, now: int) returns (r: Reply)
      modifies this
      ensures View() == Next(old(View()), Delete(id, now))
      ensures r == if id in old(sessions) then NoContent else NotFound
    {
      var found := Get(id, now);
      if found.None? {
        DiscardUnknown(View(), id);
        return NotFound;
      }
      sessions := sessions - {id};
      disk := disk - {found.value.path};
      assert View() == Discard(old(View()), {id});
      r := NoContent;
    }

    method GcOnce(now: int)
      modifies this
      ensures View() == Next(old(View()), Gc(now))
    {
      var todo := sessions.Keys;
      ghost var gone: set<string> := {};
      ghost var t := View();
      DiscardNone(t);
      while todo != {}
        invariant todo <= t.sessions.Keys && gone <= t.sessions.Keys && gone !! todo
        invariant View() == Discard(t, gone)
        invariant forall id :: id in t.sessions && id !in todo ==> (id in gone <==> Expired(t, id, now))
        decreases |todo|
      {
        var id :| id in todo;
        todo := todo - {id};
        assert sessions[id] == t.sessions[id] && (Expired(t, id, now) <==> now - sessions[id].lastUsed > ttl);
        if now - sessions[id].lastUsed > ttl {
          DiscardOne(t, gone, id);
          disk := disk - {sessions[id].path};
          sessions := sessions - {id};
          gone := gone + {id};
          assert View() == Discard(t, gone);
        }
      }
      assert gone == set id | id in t.sessions && Expired(t, id, now);
    }
  }

  // ---------------------------------------------------------------------
  // Every run
  // ---------------------------------------------------------------------

  function Run(t: Tus, es: seq<Event>): Tus {
    if |es| == 0 then t else Next(Run(t, es[..|es| - 1]), es[|es| - 1])
  }

  ghost predicate Feasible(t: Tus, es: seq<Event>) {
    |es| == 0 || (Feasible(t, es[..|es| - 1]) && Possible(Run(t, es[..|es| - 1]), es[|es| - 1]))
  }

  /** One step seen from a session that lives through it: its path and length
      stay, its file grows by the clamped body if the step is an accepted PATCH
      of its own, and does not change by a byte otherwise. */
  lemma StepSession(t: Tus, e: Event, id: string)
    requires Valid(t) && Possible(t, e) && id in t.sessions && id in Next(t, e).sessions
    ensures var t', s := Next(t, e), t.sessions[id];
            t'.sessions[id].path == s.path && t'.sessions[id].size == s.size &&
            s.path in t.disk && s.path in t'.disk &&
            t'.disk[s.path] == t.disk[s.path] +
              if Accepts(t, e) && e.id == id then e.body[..Min(|e.body|, s.size - |t.disk[s.path]|)] else []
  {
    assert SessionSound(t, id);
    NextValid(t, e);
    assert SessionSound(Next(t, e), id);
    match e {
      case Delete(d, _) => DiscardValid(t, {d});
      case Gc(now) => DiscardValid(t, set i | i in t.sessions && Expired(t, i, now));
      case Patch(d, _, _, _, _, _) => assert Accepts(t, e) && SamePath(t, id, d) ==> id == d;
      case _ =>
    }
  }

  function Flatten(bs: seq<bytes>): bytes {
    if |bs| == 0 then [] else Flatten(bs[..|bs| - 1]) + bs[|bs| - 1]
  }

  function Take(b: bytes, n: nat): bytes { b[..Min(|b|, n)] }

  /** The bodies of the PATCH requests accepted for the session id since it was
      created, in order. */
  function Bodies(t: Tus, es: seq<Event>, id: string): seq<bytes> {
    if |es| == 0 then []
    else
      var before, e := Run(t, es[..|es| - 1]), es[|es| - 1];
      if e.Create? && e.id == id && CreateRejection(before, e).None? then []
      else if Accepts(before, e) && e.id == id then Bodies(t, es[..|es| - 1], id) + [e.body]
      else Bodies(t, es[..|es| - 1], id)
  }

  lemma TakeGrows(sofar: bytes, body: bytes, size: nat)
    ensures Take(sofar + body, size) ==
            Take(sofar, size) + body[..Min(|body|, size - |Take(sofar, size)|)]
  {}

  lemma FlattenSnoc(bs: seq<bytes>, b: bytes)
    ensures Flatten(bs + [b]) == Flatten(bs) + b
  {
    assert (bs + [b])[..|bs|] == bs;
  }

  /** In every run from an empty registry, the file of a live session is the
      concatenation of its accepted bodies, cut at the declared length; and
      distinct live sessions write to distinct files. */
  lemma {:induction false} FileIsBodies(t: Tus, es: seq<Event>, id: string)
    requires t.sessions == map[] && Feasible(t, es)
    ensures Valid(Run(t, es))
    ensures var u := Run(t, es);
            id in u.sessions ==>
              var s := u.sessions[id];
              s.path in u.disk && u.disk[s.path] == Take(Flatten(Bodies(t, es, id)), s.size)
  {
    if |es| > 0 {
      var pre, e := es[..|es| - 1], es[|es| - 1];
      var before := Run(t, pre);
      FileIsBodies(t, pre, id);
      NextValid(before, e);
      if id in Next(before, e).sessions {
        if id in before.sessions {
          StepSession(before, e, id);
          if Accepts(before, e) && e.id == id {
            TakeGrows(Flatten(Bodies(t, pre, id)), e.body, before.sessions[id].size);
            FlattenSnoc(Bodies(t, pre, id), e.body);
          }
        } else {
          assert Bodies(t, es, id) == [];
        }
      }
    }
  }

  /** An accepted PATCH commits and ends its session exactly when its body came
      through and covers what was left; then the file has the declared length. */
  lemma CommitsExactly(t: Tus, e: Event)
    requires Valid(t) && Possible(t, e) && Accepts(t, e)
    ensures e.id !in Next(t, e).sessions <==> !e.cut && |e.body| >= Remaining(t, e.id)
    ensures e.id !in Next(t, e).sessions ==> Size(Next(t, e), t.sessions[e.id].path) == t.sessions[e.id].size
  {
    assert SessionSound(t, e.id);
  }

  // ---------------------------------------------------------------------
  // A client that resumes
  // ---------------------------------------------------------------------

  /** The client of session id sends, with every accepted PATCH, bytes of its
      source from the current offset on, as many as get through. */
  predicate SendsSource(t: Tus, e: Event, id: string, source: bytes) {
    Accepts(t, e) && e.id == id ==>
      Size(t, t.sessions[id].path) <= |source| && e.body <= source[Size(t, t.sessions[id].path)..]
  }

  /** Session id lives through the run and its client is faithful to source. */
  ghost predicate Uploading(t: Tus, es: seq<Event>, id: string, source: bytes) {
    id in Run(t, es).sessions &&
    (|es| == 0 ||
      (Uploading(t, es[..|es| - 1], id, source) && SendsSource(Run(t, es[..|es| - 1]), es[|es| - 1], id, source)))
  }

  /** The file of session id holds a prefix of source, as long as it is declared. */
  predicate HoldsPrefix(u: Tus, id: string, path: string, source: bytes) {
    id in u.sessions && u.sessions[id].path == path && u.sessions[id].size == |source| &&
    path in u.disk && u.disk[path] <= source
  }

  lemma UploadStep(u: Tus, e: Event, id: string, path: string, source: bytes)
    requires Valid(u) && Possible(u, e) && HoldsPrefix(u, id, path, source)
    requires id in Next(u, e).sessions && SendsSource(u, e, id, source)
    ensures HoldsPrefix(Next(u, e), id, path, source)
  {
    StepSession(u, e, id);
    var at := u.disk[path];
    if Accepts(u, e) && e.id == id {
      var part := e.body[..Min(|e.body|, |source| - |at|)];
      assert part <= source[|at|..];
      assert source == at + source[|at|..];
    } else {
      assert at + [] == at;
    }
  }

  lemma {:induction false} UploadPrefix(t: Tus, es: seq<Event>, id: string, source: bytes)
    requires Valid(t) && Feasible(t, es) && Uploading(t, es, id, source)
    requires id in t.sessions && t.sessions[id].size == |source| && Size(t, t.sessions[id].path) == 0
    ensures Valid(Run(t, es)) && HoldsPrefix(Run(t, es), id, t.sessions[id].path, source)
  {
    assert SessionSound(t, id);
    if |es| > 0 {
      var pre, e := es[..|es| - 1], es[|es| - 1];
      UploadPrefix(t, pre, id, source);
      NextValid(Run(t, pre), e);
      UploadStep(Run(t, pre), e, id, t.sessions[id].path, source);
    }
  }

  ghost predicate Settled(t: Tus, path: string) {
    path in t.disk && forall id :: id in t.sessions ==> t.sessions[id].path != path
  }

  /** A file no session writes to is never changed or removed by a tus step. */
  lemma SettledStep(t: Tus, e: Event, path: string)
    requires Valid(t) && Possible(t, e) && Settled(t, path)
    ensures Settled(Next(t, e), path) && Next(t, e).disk[path] == t.disk[path]
  {}

  lemma {:induction false} SettledRun(t: Tus, es: seq<Event>, path: string)
    requires Valid(t) && Feasible(t, es) && Settled(t, path)
    ensures Valid(Run(t, es)) && Settled(Run(t, es), path) && Run(t, es).disk[path] == t.disk[path]
  {
    if |es| > 0 {
      SettledRun(t, es[..|es| - 1], path);
      NextValid(Run(t, es[..|es| - 1]), es[|es| - 1]);
      SettledStep(Run(t, es[..|es| - 1]), es[|es| - 1], path);
    }
  }

  /** However often a faithful client was dropped and resumed, once its session
      commits the file equals the source, and no later tus step touches it. */
  lemma UploadArrives(t: Tus, es: seq<Event>, e: Event, later: seq<Event>, id: string, source: bytes)
    requires Valid(t) && id in t.sessions && t.sessions[id].size == |source| && Size(t, t.sessions[id].path) == 0
    requires Feasible(t, es) && Uploading(t, es, id, source)
    requires Possible(Run(t, es), e) && Accepts(Run(t, es), e) && e.id == id && SendsSource(Run(t, es), e, id, source)
    requires id !in Next(Run(t, es), e).sessions && Feasible(Next(Run(t, es), e), later)
    ensures var path, end := t.sessions[id].path, Run(Next(Run(t, es), e), later);
            path in end.disk && end.disk[path] == source
  {
    UploadPrefix(t, es, id, source);
    CommitIsSource(Run(t, es), e, id, source);
    NextValid(Run(t, es), e);
    SettledRun(Next(Run(t, es), e), later, t.sessions[id].path);
  }

  lemma CommitIsSource(u: Tus, e: Event, id: string, source: bytes)
    requires Valid(u) && Possible(u, e) && Accepts(u, e) && e.id == id && SendsSource(u, e, id, source)
    requires u.sessions[id].size == |source| && u.sessions[id].path in u.disk && u.disk[u.sessions[id].path] <= source
    requires id !in Next(u, e).sessions
    ensures var path := u.sessions[id].path; Settled(Next(u, e), path) && Next(u, e).disk[path] == source
  {
    var done, path := Next(u, e), u.sessions[id].path;
    CommitsExactly(u, e);
    var at := |u.disk[path]|;
    assert e.body == source[at..];
    assert done.disk[path] == u.disk[path] + e.body[..|source| - at] == source;
    forall other | other in done.sessions
      ensures done.sessions[other].path != path
    {
      assert other in u.sessions && other != id;
      assert SamePath(u, other, id) ==> other == id;
    }
  }

  // ---------------------------------------------------------------------
  // Sessions that can never commit
  // ---------------------------------------------------------------------

  predicate Full(t: Tus, id: string) { id in t.sessions && Size(t, t.sessions[id].path) == t.sessions[id].size }

  /** A live session whose file already has the declared length accepts nothing
      more: it stays as it is until it is discarded together with its file. */
  lemma FullNeverCommits(t: Tus, e: Event, id: string)
    requires Valid(t) && Possible(t, e) && Full(t, id)
    ensures var t', path := Next(t, e), t.sessions[id].path;
            if id in t'.sessions then Full(t', id) && path in t.disk && path in t'.disk && t'.disk[path] == t.disk[path]
            else (e == Delete(id, e.now) || (e.Gc? && Expired(t, id, e.now))) && path !in t'.disk
  {
    assert SessionSound(t, id);
    if id in Next(t, e).sessions { StepSession(t, e, id); }
  }

  /** Exactly two things leave a session full and alive: declaring length 0, and
      a body that delivers the last byte before the transport reports its error. */
  lemma FullExactly(t: Tus, e: Event, id: string)
    requires Valid(t) && Possible(t, e) && !Full(t, id)
    ensures Full(Next(t, e), id) <==>
              (e.Create? && e.id == id && CreateRejection(t, e).None? && e.length == Some(0)) ||
              (Accepts(t, e) && e.id == id && e.cut && |e.body| == Remaining(t, id))
  {
    if id in t.sessions {
      assert SessionSound(t, id);
      if id in Next(t, e).sessions { StepSession(t, e, id); }
      if Accepts(t, e) && e.id == id { CommitsExactly(t, e); }
    }
  }

  /** So a completely received upload can be lost: all bytes arrive, HEAD reports
      offset == length, and the garbage collector removes the file. */
  lemma ReceivedThenCollected()
    ensures var t := Tus(map[], map[], 10, 5);
            var create, patch := Create("u", "f", Some(1), false, false, 0), Patch("u", true, Some(0), [7], true, 0);
            var t1 := Next(t, create);
            var t2 := Next(t1, patch);
            Possible(t, create) && Possible(t1, patch) && Full(t2, "u") && t2.disk == map["f" := [7]] &&
            "f" !in Next(t2, Gc(6)).disk
  {
    var t := Tus(map[], map[], 10, 5);
    FileNameIsClean();
    assert Next(t, Create("u", "f", Some(1), false, false, 0)) == Start(t, "u", "f", 1, 0);
    LastByteCut(Start(t, "u", "f", 1, 0));
  }

  lemma FileNameIsClean()
    ensures Clean("f") == Ok("f") && !RejectReservedRoot("f")
  {
    SplitCons("f", "");
    assert ByteLen("f") == 1 by { assert "f"[1..] == ""; }
    CleanFixes("f");
  }

  lemma LastByteCut(t: Tus)
    requires t == Tus(map["u" := Session("f", 1, 0)], map["f" := []], 10, 5)
    ensures var patch := Patch("u", true, Some(0), [7], true, 0);
            var t2 := Next(t, patch);
            Possible(t, patch) && Full(t2, "u") && t2.disk == map["f" := [7]] && "f" !in Next(t2, Gc(6)).disk
  {
    var patch := Patch("u", true, Some(0), [7], true, 0);
    assert Accepts(t, patch);
    var t2 := Next(t, patch);
    assert [] + [7][..1] == [7];
    var stale := set i | i in t2.sessions && Expired(t2, i, 6);
    assert "u" in stale;
  }

  // ---------------------------------------------------------------------
  // How a session starts, and how it ends without a commit
  // ---------------------------------------------------------------------

  /** A creation is answered with a session exactly for a path Clean accepts that is
      not reserved, a length from 0 to the maximum, and a free place the storage lets
      it write to. */
  lemma CreatedExactly(t: Tus, e: Event)
    requires e.Create?
    ensures CreateRejection(t, e).None? <==>
              e.target != "" && Clean(e.target).Ok? && !ReservedRoot(Split(Clean(e.target).path)[0]) &&
              e.length.Some? && 0 <= e.length.value <= t.maxSize &&
              Clean(e.target).path !in t.disk && !e.isDir && !e.refused
    ensures CreateRejection(t, e).None? ==>
              Next(t, e) == t.(sessions := t.sessions[e.id := Session(Clean(e.target).path, e.length.value, e.now)],
                               disk := t.disk[Clean(e.target).path := []])
    ensures CreateRejection(t, e) == Some(TooLarge) <==>
              e.target != "" && !RejectReservedRoot(e.target) &&
              e.length.Some? && e.length.value >= 0 && e.length.value > t.maxSize
    ensures CreateRejection(t, e) == Some(Conflict) ==> Clean(e.target).path in t.disk || e.isDir
    ensures CreateRejection(t, e) == Some(Refused) ==> e.refused
  {}

  lemma LimitSet(t: Tus, size: int, e: Event)
    requires e.Create? && Valid(t)
    ensures var t' := Next(t, SetMaxSize(size));
            t'.sessions == t.sessions && t'.disk == t.disk && t'.ttl == t.ttl &&
            (CreateRejection(t', e) == Some(TooLarge) ==> e.length.value > size) &&
            (CreateRejection(t', e).None? ==> e.length.value <= size)
  {}

  /** Only a PATCH that starts at the end of a file that is not complete changes it. */
  lemma ChangedAtEnd(t: Tus, e: Event, id: string)
    requires Valid(t) && Possible(t, e) && id in t.sessions && id in Next(t, e).sessions
    ensures var disk, s := Next(t, e).disk, t.sessions[id];
            s.path in t.disk && s.path in disk &&
            (disk[s.path] != t.disk[s.path] ==>
              e.Patch? && e.id == id && e.mediaOk && e.offset == Some(|t.disk[s.path]|) && |t.disk[s.path]| < s.size)
  {
    StepSession(t, e, id);
    assert SessionSound(t, id);
  }

  /** Why a PATCH is not accepted: in this order the wrong media type, an unknown
      session, no offset, an offset that is not the size of the file, and a file that
      is complete. */
  lemma PatchRejectedFor(t: Tus, e: Event)
    requires Valid(t) && e.Patch? && !Accepts(t, e)
    ensures PatchRejection(t, e) == NotFound <==> e.mediaOk && e.id !in t.sessions
    ensures PatchRejection(t, e) == Conflict <==>
              e.mediaOk && e.id in t.sessions && e.offset.Some? && e.offset.value != |t.disk[t.sessions[e.id].path]|
    ensures PatchRejection(t, e) == BadRequest <==>
              !e.mediaOk ||
              (e.id in t.sessions && (e.offset.None? || Full(t, e.id)) && PatchRejection(t, e) != Conflict)
  {
    if e.id in t.sessions { assert SessionSound(t, e.id); }
  }

  ghost predicate Within(t: Tus, most: int) {
    t.maxSize <= most && forall id :: id in t.sessions ==> t.sessions[id].size <= most
  }

  lemma StepWithin(t: Tus, e: Event, most: int)
    requires Within(t, most) && (e.SetMaxSize? ==> e.size <= most)
    ensures Within(Next(t, e), most)
  {}

  /** The greatest size a run has allowed so far bounds every session and its file. */
  lemma {:induction false} SizesBounded(t: Tus, es: seq<Event>, most: int, id: string)
    requires Valid(t) && Within(t, most) && Feasible(t, es)
    requires forall i :: 0 <= i < |es| && es[i].SetMaxSize? ==> es[i].size <= most
    ensures Valid(Run(t, es)) && Within(Run(t, es), most)
    ensures var u := Run(t, es); id in u.sessions ==> Size(u, u.sessions[id].path) <= u.sessions[id].size <= most
  {
    if |es| > 0 {
      var pre, e := es[..|es| - 1], es[|es| - 1];
      assert forall i :: 0 <= i < |pre| ==> pre[i] == es[i];
      SizesBounded(t, pre, most, id);
      NextValid(Run(t, pre), e);
      StepWithin(Run(t, pre), e, most);
    }
    assert id in Run(t, es).sessions ==> SessionSound(Run(t, es), id);
  }

  /** DELETE takes the session and its file, and nothing else. */
  lemma DeletedExactly(t: Tus, id: string, now: int)
    requires Valid(t) && id in t.sessions
    ensures var t' := Next(t, Delete(id, now));
            t'.sessions == t.sessions - {id} && t'.disk == t.disk - {t.sessions[id].path}
  {
    DiscardOne(t, {}, id);
    DiscardNone(t);
    assert {} + {id} == {id};
  }

  // ---------------------------------------------------------------------
  // The time to live
  // ---------------------------------------------------------------------

  /** A request that uses the session id. */
  predicate Touches(e: Event, id: string) {
    (e.Head? && e.id == id) || (e.Patch? && e.id == id && e.mediaOk)
  }

  /** When the session was last used in a run, created at start. */
  function LastTouch(es: seq<Event>, id: string, start: int): int {
    if |es| == 0 then start
    else if Touches(es[|es| - 1], id) then es[|es| - 1].now
    else LastTouch(es[..|es| - 1], id, start)
  }

  /** The session is neither deleted nor committed, and no tick of the collector
      comes more than ttl after its last use. */
  ghost predicate Undisturbed(t: Tus, es: seq<Event>, id: string, start: int) {
    |es| == 0 ||
    (var pre, e := es[..|es| - 1], es[|es| - 1];
     Undisturbed(t, pre, id, start) &&
     !(e.Delete? && e.id == id) &&
     !(Accepts(Run(t, pre), e) && e.id == id && !e.cut && |e.body| >= Remaining(Run(t, pre), id)) &&
     (e.Gc? ==> e.now - LastTouch(pre, id, start) <= t.ttl))
  }

  lemma {:induction false} StaysLive(t: Tus, es: seq<Event>, id: string, start: int)
    requires Valid(t) && Feasible(t, es) && id in t.sessions && t.sessions[id].lastUsed == start
    requires Undisturbed(t, es, id, start)
    ensures var u := Run(t, es);
            Valid(u) && id in u.sessions && u.sessions[id].path in u.disk && u.ttl == t.ttl &&
            u.sessions[id].lastUsed == LastTouch(es, id, start) && u.sessions[id].path == t.sessions[id].path
  {
    assert SessionSound(t, id);
    if |es| > 0 {
      var pre, e := es[..|es| - 1], es[|es| - 1];
      StaysLive(t, pre, id, start);
      NextValid(Run(t, pre), e);
      StaysLiveStep(Run(t, pre), e, id);
      assert SessionSound(Run(t, es), id);
    }
  }

  lemma StaysLiveStep(u: Tus, e: Event, id: string)
    requires Valid(u) && Possible(u, e) && id in u.sessions && !(e.Delete? && e.id == id)
    requires !(Accepts(u, e) && e.id == id && !e.cut && |e.body| >= Remaining(u, id))
    requires e.Gc? ==> e.now - u.sessions[id].lastUsed <= u.ttl
    ensures var u' := Next(u, e);
            id in u'.sessions && u'.ttl == u.ttl && u'.sessions[id].path == u.sessions[id].path &&
            u'.sessions[id].lastUsed == if Touches(e, id) then e.now else u.sessions[id].lastUsed
  {
    if Accepts(u, e) && e.id == id { CommitsExactly(u, e); }
  }

  /** From its creation on a session that is neither deleted nor committed lives as
      long as no tick of the collector comes more than ttl after its last use; a tick
      ends it, with its file, exactly if it does. */
  lemma IdleExactly(t: Tus, create: Event, es: seq<Event>, now: int)
    requires Valid(t) && create.Create? && Possible(t, create) && CreateRejection(t, create).None?
    requires Feasible(Next(t, create), es) && Undisturbed(Next(t, create), es, create.id, create.now)
    ensures var u, path := Run(Next(t, create), es), Clean(create.target).path;
            var swept, idle := Next(u, Gc(now)), now - LastTouch(es, create.id, create.now);
            create.id in u.sessions && u.sessions[create.id].path == path && path in u.disk &&
            (create.id in swept.sessions <==> idle <= t.ttl) && (path in swept.disk <==> idle <= t.ttl)
  {
    var t1, id := Next(t, create), create.id;
    NextValid(t, create);
    StaysLive(t1, es, id, create.now);
    var u := Run(t1, es);
    NextValid(u, Gc(now));
    if now - u.sessions[id].lastUsed <= u.ttl {
      StaysLiveStep(u, Gc(now), id);
      assert SessionSound(Next(u, Gc(now)), id);
    }
  }
}
