// internal/fsutil/path.go, and the path vocabulary the other modules share.
// A string is a sequence of Unicode scalar values; a Go length is its UTF-8 size.
module Paths {

  function Split(s: string): (segs: seq<string>)
    ensures |segs| >= 1
    ensures forall i :: 0 <= i < |segs| ==> '/' !in segs[i]
  {
    if s == "" then [""]
    else
      var rest := Split(s[1..]);
      if s[0] == '/' then [""] + rest else [[s[0]] + rest[0]] + rest[1..]
  }

  function Join(segs: seq<string>): string {
    if |segs| == 0 then ""
    else if |segs| == 1 then segs[0]
    else segs[0] + "/" + Join(segs[1..])
  }

  lemma {:induction false} JoinSplit(s: string)
    ensures Join(Split(s)) == s
  {
    if s != "" {
      JoinSplit(s[1..]);
      var rest := Split(s[1..]);
      assert s == [s[0]] + s[1..];
      if s[0] != '/' && |rest| > 1 {
        assert Split(s)[1..] == rest[1..];
        assert s == ([s[0]] + rest[0]) + "/" + Join(rest[1..]);
      } else if s[0] == '/' {
        assert Split(s)[1..] == rest;
      }
    }
  }

  lemma {:induction false} SplitCons(a: string, t: string)
    requires '/' !in a
    ensures Split(a) == [a]
    ensures Split(a + "/" + t) == [a] + Split(t)
  {
    if a == "" {
      assert (a + "/" + t)[1..] == t;
    } else {
      SplitCons(a[1..], t);
      assert (a + "/" + t)[1..] == a[1..] + "/" + t;
      assert a == [a[0]] + a[1..];
    }
  }

  lemma {:induction false} SplitJoin(segs: seq<string>)
    requires |segs| > 0 && forall i :: 0 <= i < |segs| ==> '/' !in segs[i]
    ensures Split(Join(segs)) == segs
  {
    SplitCons(segs[0], Join(segs[1..]));
    if |segs| > 1 { SplitJoin(segs[1..]); }
  }

  // ---------------------------------------------------------------------
  // Two normalizers: Go's path.Clean and the router's normalizeStoragePath
  // ---------------------------------------------------------------------

  /** Go's path.Clean as a stack machine over segments. */
  function CleanSegments(rooted: bool, segs: seq<string>, stack: seq<string>): seq<string>
    decreases |segs|
  {
    if |segs| == 0 then stack
    else
      var s, rest := segs[0], segs[1..];
      if s == "" || s == "." then CleanSegments(rooted, rest, stack)
      else if s != ".." then CleanSegments(rooted, rest, stack + [s])
      else if |stack| > 0 && stack[|stack| - 1] != ".." then CleanSegments(rooted, rest, stack[..|stack| - 1])
      else CleanSegments(rooted, rest, if rooted then stack else stack + [".."])
  }

  function PathClean(p: string): string {
    var rooted := "/" <= p;
    var body := Join(CleanSegments(rooted, Split(p), []));
    if rooted then "/" + body else if body == "" then "." else body
  }

  function NormalizeSegments(segs: seq<string>, stack: seq<string>): seq<string>
    decreases |segs|
  {
    if |segs| == 0 then stack
    else
      var s, rest := segs[0], segs[1..];
      if s == "" || s == "." then NormalizeSegments(rest, stack)
      else if s == ".." then NormalizeSegments(rest, if |stack| > 0 then stack[..|stack| - 1] else stack)
      else NormalizeSegments(rest, stack + [s])
  }

  /** What normalizeStoragePath in frontend/src/lib/routes.ts computes. */
  function Normalize(p: string): string {
    var body := Join(NormalizeSegments(Split(p), []));
    if body == "" then "." else body
  }

  method NormalizeStoragePath(path: string) returns (r: string)
    ensures r == Normalize(path)
  {
    var segments: seq<string> := [];
    var parts := Split(path);
    var k := 0;
    while k < |parts|
      invariant 0 <= k <= |parts|
      invariant NormalizeSegments(parts, []) == NormalizeSegments(parts[k..], segments)
    {
      var segment := parts[k];
      assert parts[k..][1..] == parts[k + 1..];
      k := k + 1;
      if segment == "" || segment == "." { continue; }
      if segment == ".." {
        if |segments| > 0 { segments := segments[..|segments| - 1]; }
        continue;
      }
      segments := segments + [segment];
    }
    r := Join(segments);
    if r == "" { r := "."; }
  }

  // ---------------------------------------------------------------------
  // Clean
  // ---------------------------------------------------------------------

  const MAX_PATH_LEN := 4096
  const MAX_SEGMENT_LEN := 255

  function Utf8Size(c: char): nat {
    var cp := c as int;
    if cp < 0x80 then 1 else if cp < 0x800 then 2 else if cp < 0x1_0000 then 3 else 4
  }

  function ByteLen(s: string): nat {
    if s == "" then 0 else Utf8Size(s[0]) + ByteLen(s[1..])
  }

  datatype Cleaned = Ok(path: string) | Invalid

  function Clean(p: string): Cleaned {
    if p == "" then Ok(".")
    else if '\0' in p || '\\' in p then Invalid
    else if "/" <= p then Invalid
    else if exists i :: 0 <= i < |Split(p)| && (Split(p)[i] == ".." || ByteLen(Split(p)[i]) > MAX_SEGMENT_LEN) then
      Invalid
    else
      var c := PathClean(p);
      if c == "." then Ok(".")
      else if c == "/" then Invalid
      else if "../" <= c || c == ".." then Invalid
      else if ByteLen(c) > MAX_PATH_LEN then Invalid
      else Ok(c)
  }

  /** A segment that survives normalization. */
  predicate Solid(s: string) { s != "" && s != "." && s != ".." && '/' !in s }

  ghost predicate AllSolid(segs: seq<string>) { forall i :: 0 <= i < |segs| ==> Solid(segs[i]) }

  /** The segments that neither normalizer drops. */
  function Keep(segs: seq<string>): seq<string> {
    if |segs| == 0 then []
    else if segs[0] == "" || segs[0] == "." then Keep(segs[1..])
    else [segs[0]] + Keep(segs[1..])
  }

  lemma {:induction false} NormalizersKeep(segs: seq<string>, stack: seq<string>)
    requires ".." !in segs
    ensures CleanSegments(false, segs, stack) == stack + Keep(segs)
    ensures NormalizeSegments(segs, stack) == stack + Keep(segs)
    decreases |segs|
  {
    if |segs| > 0 {
      var s := segs[0];
      if s == "" || s == "." {
        NormalizersKeep(segs[1..], stack);
      } else {
        NormalizersKeep(segs[1..], stack + [s]);
        assert stack + Keep(segs) == (stack + [s]) + Keep(segs[1..]);
      }
    }
  }

  lemma {:induction false} KeepSolid(segs: seq<string>)
    requires ".." !in segs && forall i :: 0 <= i < |segs| ==> '/' !in segs[i]
    ensures AllSolid(Keep(segs))
    ensures forall s :: s in Keep(segs) ==> s in segs
    ensures AllSolid(segs) ==> Keep(segs) == segs
  {
    if |segs| > 0 { KeepSolid(segs[1..]); }
  }

  lemma {:induction false} NormalizeSolid(segs: seq<string>, stack: seq<string>)
    requires AllSolid(stack) && forall i :: 0 <= i < |segs| ==> '/' !in segs[i]
    ensures AllSolid(NormalizeSegments(segs, stack))
    decreases |segs|
  {
    if |segs| > 0 {
      var s := segs[0];
      NormalizeSolid(segs[1..],
        if s == "" || s == "." then stack
        else if s == ".." then (if |stack| > 0 then stack[..|stack| - 1] else stack)
        else stack + [s]);
    }
  }

  lemma SolidHead(h: string, rest: string)
    requires Solid(h) && (rest == "" || rest[0] == '/')
    ensures var j := h + rest; j != "" && j != "." && j != ".." && !("/" <= j) && !("../" <= j)
  {
    var j := h + rest;
    assert h == j[..|h|] && h[0] in h;
    assert |h| == 1 ==> h == [j[0]];
    assert |h| == 2 ==> h == [j[0], j[1]];
    assert |h| > 2 ==> h[2] in h;
    assert |h| < |j| ==> j[|h|] == rest[0];
  }

  /** What Join puts after the first segment. */
  function JoinRest(segs: seq<string>): (r: string)
    requires |segs| > 0
    ensures r == "" || r[0] == '/'
  {
    if |segs| == 1 then "" else "/" + Join(segs[1..])
  }

  lemma JoinHead(segs: seq<string>)
    requires |segs| > 0
    ensures Join(segs) == segs[0] + JoinRest(segs)
  {
    if |segs| == 1 { assert segs[0] + "" == segs[0]; }
  }

  lemma JoinSolid(segs: seq<string>)
    requires |segs| > 0 && AllSolid(segs)
    ensures Split(Join(segs)) == segs
    ensures Join(segs) != "" && Join(segs) != "." && Join(segs) != ".."
    ensures !("/" <= Join(segs)) && !("../" <= Join(segs))
  {
    assert Split(Join(segs)) == segs by { SplitJoin(segs); }
    assert Solid(segs[0]);
    JoinHead(segs);
    SolidHead(segs[0], JoinRest(segs));
  }

  /** In normal form: the root, or solid segments joined by single slashes. */
  ghost predicate NormalForm(p: string) { p == "." || AllSolid(Split(p)) }

  lemma NormalizeLands(p: string)
    ensures NormalForm(Normalize(p))
  {
    var n := NormalizeSegments(Split(p), []);
    NormalizeSolid(Split(p), []);
    if |n| > 0 { JoinSolid(n); }
  }

  lemma NormalizeFixes(p: string)
    requires NormalForm(p)
    ensures Normalize(p) == p
  {
    if p == "." {
      SplitCons(".", "");
      assert NormalizeSegments(["."], []) == NormalizeSegments([], []);
    } else {
      NormalizersKeep(Split(p), []);
      KeepSolid(Split(p));
      assert [] + Split(p) == Split(p);
      JoinSplit(p);
      JoinSolid(Split(p));
    }
  }

  /** The router's normalizer lands in normal form and fixes exactly that. */
  lemma NormalizeFixpoints(p: string)
    ensures NormalForm(Normalize(p))
    ensures Normalize(p) == p <==> NormalForm(p)
  {
    NormalizeLands(p);
    if NormalForm(p) { NormalizeFixes(p); }
  }

  /** Canonical: in normal form, made of characters and lengths Clean accepts. */
  ghost predicate Canonical(c: string) {
    NormalForm(c) && '\0' !in c && '\\' !in c && ByteLen(c) <= MAX_PATH_LEN &&
    forall i :: 0 <= i < |Split(c)| ==> ByteLen(Split(c)[i]) <= MAX_SEGMENT_LEN
  }

  lemma {:induction false} JoinChars(segs: seq<string>, ch: char)
    requires ch != '/' && forall s :: s in segs ==> ch !in s
    ensures ch !in Join(segs)
  {
    if |segs| > 1 { JoinChars(segs[1..], ch); }
  }

  lemma {:induction false} SplitChars(s: string, ch: char)
    requires ch !in s
    ensures forall i :: 0 <= i < |Split(s)| ==> ch !in Split(s)[i]
  {
    if s != "" { SplitChars(s[1..], ch); }
  }

  lemma CleanKeeps(p: string)
    requires p != "" && ".." !in Split(p) && !("/" <= p)
    ensures var kept := Keep(Split(p));
            AllSolid(kept) && PathClean(p) == Normalize(p) == if |kept| == 0 then "." else Join(kept)
  {
    var segs := Split(p);
    NormalizersKeep(segs, []);
    KeepSolid(segs);
    assert [] + Keep(segs) == Keep(segs);
    if |Keep(segs)| > 0 { JoinSolid(Keep(segs)); }
  }

  lemma KeptIsCanonical(p: string)
    requires p != "" && Clean(p).Ok? && Clean(p).path != "."
    ensures Canonical(Clean(p).path)
  {
    var segs := Split(p);
    CleanKeeps(p);
    KeepSolid(segs);
    var kept := Keep(segs);
    assert forall s :: s in segs ==> ByteLen(s) <= MAX_SEGMENT_LEN;
    JoinSolid(kept);
    assert Split(Clean(p).path) == kept;
    SplitChars(p, '\0');
    SplitChars(p, '\\');
    JoinChars(kept, '\0');
    JoinChars(kept, '\\');
  }

  lemma RootIsCanonical()
    ensures Canonical(".")
  {
    SplitCons(".", "");
  }

  /** Clean accepts p only as a canonical path, and it is the same path the
      browser's normalizer computes. */
  lemma CleanIsNormalize(p: string)
    ensures var r := Clean(p); r.Ok? ==> Canonical(r.path) && r.path == Normalize(p)
  {
    RootIsCanonical();
    if Clean(p).Ok? && p != "" {
      CleanKeeps(p);
      if Clean(p).path != "." { KeptIsCanonical(p); }
    }
  }

  lemma CleanFixes(c: string)
    requires Canonical(c)
    ensures Clean(c) == Ok(c)
  {
    if c == "." {
      SplitCons(".", "");
      assert CleanSegments(false, ["."], []) == CleanSegments(false, [], []);
    } else {
      JoinSplit(c);
      JoinSolid(Split(c));
      assert forall i :: 0 <= i < |Split(c)| ==> Solid(Split(c)[i]);
      CleanKeeps(c);
      KeepSolid(Split(c));
    }
  }

  /** Clean fixes exactly the canonical paths, so it is idempotent. */
  lemma CleanFixpoints(c: string)
    ensures Clean(c) == Ok(c) <==> Canonical(c)
    ensures Clean(c).Ok? ==> Clean(Clean(c).path) == Clean(c)
  {
    CleanIsNormalize(c);
    if Canonical(c) { CleanFixes(c); }
    if Clean(c).Ok? { CleanFixes(Clean(c).path); }
  }

  /** What Clean accepts: no NUL, no backslash, not rooted, no "..", segments of at
      most 255 bytes and at most 4096 bytes in the end. Dots, doubled and trailing
      slashes are dropped on the way. */
  lemma CleanAccepts(p: string)
    ensures Clean(p).Ok? <==>
              '\0' !in p && '\\' !in p && !("/" <= p) && ".." !in Split(p) &&
              (forall i :: 0 <= i < |Split(p)| ==> ByteLen(Split(p)[i]) <= 255) && ByteLen(Normalize(p)) <= 4096
    ensures Clean(p).Ok? ==> Clean(p).path == Normalize(p)
  {
    assert ByteLen(".") == 1 by { assert "."[1..] == ""; }
    if p == "" {
      assert Split(p) == [""];
      assert Normalize(p) == ".";
    } else if !("/" <= p) && ".." !in Split(p) {
      UnrootedClean(p);
    }
  }

  lemma UnrootedClean(p: string)
    requires p != "" && ".." !in Split(p) && !("/" <= p)
    ensures var c := PathClean(p); c == Normalize(p) && c != "/" && !("../" <= c) && c != ".."
  {
    CleanKeeps(p);
    if |Keep(Split(p))| > 0 { JoinSolid(Keep(Split(p))); }
  }

  lemma {:induction false} NormalizeConcat(pre: seq<string>, post: seq<string>, stack: seq<string>)
    ensures NormalizeSegments(pre + post, stack) == NormalizeSegments(post, NormalizeSegments(pre, stack))
    decreases |pre|
  {
    if |pre| == 0 {
      assert pre + post == post;
    } else {
      var s := pre[0];
      assert (pre + post)[0] == s && (pre + post)[1..] == pre[1..] + post;
      NormalizeConcat(pre[1..], post,
        if s == "" || s == "." then stack
        else if s == ".." then (if |stack| > 0 then stack[..|stack| - 1] else stack)
        else stack + [s]);
    }
  }

  /** A segment "" or "." can be dropped anywhere, a name is cancelled by a ".."
      right after it, and at the root ".." does nothing. */
  lemma NormalizeLaws(pre: seq<string>, s: string, post: seq<string>)
    ensures s == "" || s == "." ==> NormalizeSegments(pre + ([s] + post), []) == NormalizeSegments(pre + post, [])
    ensures s != "" && s != "." && s != ".." ==>
              NormalizeSegments(pre + ([s, ".."] + post), []) == NormalizeSegments(pre + post, [])
    ensures NormalizeSegments([".."] + post, []) == NormalizeSegments(post, [])
  {
    var stack := NormalizeSegments(pre, []);
    NormalizeConcat(pre, post, []);
    NormalizeConcat(pre, [s] + post, []);
    NormalizeConcat(pre, [s, ".."] + post, []);
    assert ([s] + post)[1..] == post && ([".."] + post)[1..] == post;
    assert ([s, ".."] + post)[1..] == [".."] + post;
    assert (stack + [s])[..|stack|] == stack;
  }

  // ---------------------------------------------------------------------
  // Trees of paths
  // ---------------------------------------------------------------------

  /** p is root or lies below it: p == root or strings.HasPrefix(p, root+"/"). */
  predicate AtOrBelow(p: string, root: string) { p == root || root + "/" <= p }

  predicate Incomparable(p: string, q: string) { !AtOrBelow(p, q) && !AtOrBelow(q, p) }

  lemma AtOrBelowTransitive(p: string, q: string, r: string)
    requires AtOrBelow(p, q) && AtOrBelow(q, r)
    ensures AtOrBelow(p, r)
  {}

  /** Two paths that both contain p lie on one chain. */
  lemma AncestorsChain(p: string, q: string, r: string)
    requires AtOrBelow(p, q) && AtOrBelow(p, r)
    ensures AtOrBelow(q, r) || AtOrBelow(r, q)
    ensures |q| == |r| ==> q == r
  {
    if |q| < |r| {
      assert r[..|q| + 1] == p[..|q| + 1];
    } else if |r| < |q| {
      assert q[..|r| + 1] == p[..|r| + 1];
    } else {
      assert q == p[..|q|] == r;
    }
  }

  lemma SplitExtends(a: seq<string>, t: string)
    requires |a| > 0 && AllSolid(a)
    ensures Split(Join(a) + "/" + t) == a + Split(t)
  {
    JoinSplit(t);
    JoinExtends(a, Split(t));
    SplitJoin(a + Split(t));
  }

  /** On solid segment lists, lying below is being an extension. */
  lemma BelowIsExtension(a: seq<string>, b: seq<string>)
    requires |a| > 0 && |b| > 0 && AllSolid(a) && AllSolid(b)
    ensures AtOrBelow(Join(b), Join(a)) <==> a <= b
  {
    if AtOrBelow(Join(b), Join(a)) { BelowExtends(a, b); }
    if a <= b { ExtensionBelow(a, b); }
  }

  lemma BelowExtends(a: seq<string>, b: seq<string>)
    requires |a| > 0 && |b| > 0 && AllSolid(a) && AllSolid(b) && AtOrBelow(Join(b), Join(a))
    ensures a <= b
  {
    SplitJoin(a);
    SplitJoin(b);
    if Join(b) != Join(a) {
      var t := Join(b)[|Join(a)| + 1..];
      assert Join(b) == Join(a) + "/" + t;
      SplitExtends(a, t);
      assert b == a + Split(t);
    }
  }

  lemma ExtensionBelow(a: seq<string>, b: seq<string>)
    requires |a| > 0 && a <= b
    ensures AtOrBelow(Join(b), Join(a))
  {
    if a != b {
      var d := b[|a|..];
      assert b == a + d;
      JoinExtends(a, d);
      assert Join(b)[..|Join(a)| + 1] == Join(a) + "/";
    }
  }

  lemma {:induction false} JoinExtends(a: seq<string>, b: seq<string>)
    requires |a| > 0 && |b| > 0
    ensures Join(a + b) == Join(a) + "/" + Join(b)
  {
    if |a| > 1 {
      JoinExtends(a[1..], b);
      assert (a + b)[1..] == a[1..] + b;
    } else {
      assert (a + b)[1..] == b;
    }
  }

  // ---------------------------------------------------------------------
  // internal/api/reserved.go
  // ---------------------------------------------------------------------

  /** First segments claimed by client-side routes. */
  predicate ReservedRoot(s: string) {
    s == "view" || s == "new" || s == "settings" || s == "login" || s == "setup"
  }

  /** isReservedPath of routes.ts. */
  predicate IsReservedPath(p: string) { ReservedRoot(Split(p)[0]) }

  /** The decision of rejectReservedRoot. */
  predicate RejectReservedRoot(p: string) {
    var c := Clean(p);
    c.Ok? && ReservedRoot(Split(c.path)[0])
  }
}
