// frontend/src/lib/routes.ts and base.ts: application routes as URLs.
// encodeURIComponent and decodeURIComponent are spelled out: UTF-8 octets,
// percent-encoded as in section 2.1 of RFC 3986.
module Routes {
  import opened Common
  import opened Paths

  // ---------------------------------------------------------------------
  // UTF-8 and percent-encoding
  // ---------------------------------------------------------------------

  type octet = x: int | 0 <= x < 256

  function Utf8(c: char): (o: seq<octet>)
    ensures 1 <= |o| <= 4
  {
    var cp := c as int;
    if cp < 0x80 then [cp]
    else if cp < 0x800 then [0xC0 + cp / 64, 0x80 + cp % 64]
    else if cp < 0x1_0000 then [0xE0 + cp / 4096, 0x80 + cp / 64 % 64, 0x80 + cp % 64]
    else [0xF0 + cp / 0x4_0000, 0x80 + cp / 4096 % 64, 0x80 + cp / 64 % 64, 0x80 + cp % 64]
  }

  predicate Continuation(b: octet) { 0x80 <= b < 0xC0 }

  /** Octet count announced by a leading octet; 0 when it cannot lead. */
  function LeadCount(b: octet): nat {
    if b < 0x80 then 1
    else if 0xC0 <= b < 0xE0 then 2
    else if 0xE0 <= b < 0xF0 then 3
    else if 0xF0 <= b < 0xF8 then 4
    else 0
  }

  /** The six payload bits of a continuation octet. */
  function Payload(b: octet): int { b as int - 0x80 }

  function Assemble(o: seq<octet>): int
    requires 1 <= |o| <= 4
  {
    var lead := o[0] as int;
    if |o| == 1 then lead
    else if |o| == 2 then (lead - 0xC0) * 64 + Payload(o[1])
    else if |o| == 3 then (lead - 0xE0) * 4096 + Payload(o[1]) * 64 + Payload(o[2])
    else (lead - 0xF0) * 0x4_0000 + Payload(o[1]) * 4096 + Payload(o[2]) * 64 + Payload(o[3])
  }

  /** A scalar value from its octets: no overlong form, no surrogate. */
  function FromUtf8(o: seq<octet>): Option<char>
    requires 1 <= |o| <= 4 && LeadCount(o[0]) == |o|
  {
    if exists i :: 1 <= i < |o| && !Continuation(o[i]) then None
    else
      var cp := Assemble(o);
      var least := if |o| == 1 then 0 else if |o| == 2 then 0x80 else if |o| == 3 then 0x800 else 0x1_0000;
      if cp < least || 0xD800 <= cp < 0xE000 || cp >= 0x11_0000 then None
      else Some(cp as char)
  }

  lemma LastDigit(n: nat)
    ensures n == n / 64 * 64 + n % 64
  {}

  lemma SecondDigit(n: nat)
    ensures n / 64 / 64 == n / 4096
  {}

  lemma ThirdDigit(n: nat)
    ensures n / 4096 / 64 == n / 0x4_0000
  {}

  lemma Base64Digits(cp: nat)
    ensures cp == cp / 64 * 64 + cp % 64
    ensures cp == cp / 4096 * 4096 + cp / 64 % 64 * 64 + cp % 64
    ensures cp == cp / 0x4_0000 * 0x4_0000 + cp / 4096 % 64 * 4096 + cp / 64 % 64 * 64 + cp % 64
  {
    LastDigit(cp);
    LastDigit(cp / 64);
    LastDigit(cp / 4096);
    SecondDigit(cp);
    ThirdDigit(cp);
  }

  lemma Utf8Shape(c: char)
    ensures var o := Utf8(c);
            LeadCount(o[0]) == |o| && forall i :: 1 <= i < |o| ==> Continuation(o[i])
  {}

  lemma Utf8RoundTrip(c: char)
    ensures LeadCount(Utf8(c)[0]) == |Utf8(c)| && FromUtf8(Utf8(c)) == Some(c)
  {
    Utf8Shape(c);
    Base64Digits(c as int);
    assert Assemble(Utf8(c)) == c as int;
  }

  function HexDigit(n: int): char
    requires 0 <= n < 16
  {
    "0123456789ABCDEF"[n]
  }

  function FromHex(c: char): (d: Option<int>)
    ensures d.Some? ==> 0 <= d.value < 16
  {
    if '0' <= c <= '9' then Some(c as int - '0' as int)
    else if 'A' <= c <= 'F' then Some(c as int - 'A' as int + 10)
    else if 'a' <= c <= 'f' then Some(c as int - 'a' as int + 10)
    else None
  }

  lemma HexInverse(n: int)
    requires 0 <= n < 16
    ensures FromHex(HexDigit(n)) == Some(n) && HexDigit(n) != '/'
  {}

  lemma HexRoundTrip(b: octet)
    ensures var h, l := HexDigit(b / 16), HexDigit(b % 16);
            FromHex(h).Some? && FromHex(l).Some? && FromHex(h).value * 16 + FromHex(l).value == b &&
            h != '/' && l != '/'
  {
    HexInverse(b / 16);
    HexInverse(b % 16);
  }

  function PercentOctet(b: octet): string { ['%', HexDigit(b / 16), HexDigit(b % 16)] }

  function PercentOctets(o: seq<octet>): string {
    if |o| == 0 then "" else PercentOctet(o[0]) + PercentOctets(o[1..])
  }

  /** The octet written at the head of s as '%' and two hex digits. */
  function ReadOctet(s: string): Option<octet> {
    if |s| < 3 || s[0] != '%' || FromHex(s[1]).None? || FromHex(s[2]).None? then None
    else Some(FromHex(s[1]).value * 16 + FromHex(s[2]).value)
  }

  /** The first n octets written at the head of s. */
  function ReadOctets(s: string, n: nat): Option<seq<octet>> {
    if n == 0 then Some([])
    else if ReadOctet(s).None? then None
    else
      match ReadOctets(s[3..], n - 1)
      case None => None
      case Some(rest) => Some([ReadOctet(s).value] + rest)
  }

  lemma {:induction false} ReadOctetsLength(s: string, n: nat)
    requires ReadOctets(s, n).Some?
    ensures |ReadOctets(s, n).value| == n && |s| >= 3 * n
  {
    if n > 0 { ReadOctetsLength(s[3..], n - 1); }
  }

  lemma ReadOneOctet(b: octet, u: string)
    ensures var s := PercentOctet(b) + u;
            ReadOctet(s) == Some(b) && |s| >= 3 && s[3..] == u && '/' !in PercentOctet(b)
  {
    HexRoundTrip(b);
  }

  lemma ReadStep(b: octet, u: string, n: nat)
    requires ReadOctets(u, n).Some?
    ensures ReadOctets(PercentOctet(b) + u, n + 1) == Some([b] + ReadOctets(u, n).value)
  {
    ReadOneOctet(b, u);
  }

  lemma Associative(a: string, b: string, c: string)
    ensures a + b + c == a + (b + c)
  {}

  lemma {:induction false} OctetsRoundTrip(o: seq<octet>, t: string)
    ensures |PercentOctets(o)| == 3 * |o|
    ensures ReadOctets(PercentOctets(o) + t, |o|) == Some(o)
  {
    if |o| > 0 {
      OctetsRoundTrip(o[1..], t);
      ReadStep(o[0], PercentOctets(o[1..]) + t, |o| - 1);
      Associative(PercentOctet(o[0]), PercentOctets(o[1..]), t);
      assert o == [o[0]] + o[1..];
    }
  }

  predicate Unreserved(c: char) {
    'A' <= c <= 'Z' || 'a' <= c <= 'z' || '0' <= c <= '9' || c in "-_.!~*'()"
  }

  function EncodeChar(c: char): string { if Unreserved(c) then [c] else PercentOctets(Utf8(c)) }

  /** encodeURIComponent. */
  function EncodeComponent(s: string): string {
    if s == "" then "" else EncodeChar(s[0]) + EncodeComponent(s[1..])
  }

  /** decodeURIComponent; None stands for its URIError. */
  function DecodeComponent(s: string): Option<string>
    decreases |s|
  {
    if s == "" then Some("")
    else if s[0] != '%' then
      match DecodeComponent(s[1..])
      case None => None
      case Some(rest) => Some([s[0]] + rest)
    else
      match ReadOctets(s, 1)
      case None => None
      case Some(lead) =>
        ReadOctetsLength(s, 1);
        var n := LeadCount(lead[0]);
        if n == 0 then None
        else
          match ReadOctets(s, n)
          case None => None
          case Some(o) =>
            ReadOctetsLength(s, n);
            LeadIsFirst(s, n);
            match FromUtf8(o)
            case None => None
            case Some(c) =>
              match DecodeComponent(s[3 * n..])
              case None => None
              case Some(rest) => Some([c] + rest)
  }

  lemma LeadIsFirst(s: string, n: nat)
    requires n > 0 && ReadOctets(s, n).Some?
    ensures ReadOctets(s, 1).Some? && |ReadOctets(s, 1).value| == 1 && |ReadOctets(s, n).value| == n
    ensures ReadOctets(s, n).value[0] == ReadOctets(s, 1).value[0]
  {
    ReadOctetsLength(s, n);
    assert ReadOctets(s[3..], 0) == Some([]);
  }

  lemma DecodeChar(c: char, t: string)
    ensures DecodeComponent(EncodeChar(c) + t) ==
            match DecodeComponent(t) case None => None case Some(rest) => Some([c] + rest)
  {
    var s := EncodeChar(c) + t;
    if Unreserved(c) {
      assert s[1..] == t;
    } else {
      var o := Utf8(c);
      Utf8RoundTrip(c);
      OctetsRoundTrip(o, t);
      LeadIsFirst(s, |o|);
      assert s[3 * |o|..] == t;
    }
  }

  /** Percent-decoding undoes percent-encoding on every string. */
  lemma {:induction false} ComponentRoundTrip(s: string)
    ensures DecodeComponent(EncodeComponent(s)) == Some(s)
  {
    if s != "" {
      ComponentRoundTrip(s[1..]);
      DecodeChar(s[0], EncodeComponent(s[1..]));
      assert s == [s[0]] + s[1..];
    }
  }

  lemma {:induction false} PercentHasNoSlash(o: seq<octet>)
    ensures '/' !in PercentOctets(o)
  {
    if |o| > 0 {
      PercentHasNoSlash(o[1..]);
      ReadOneOctet(o[0], "");
    }
  }

  lemma {:induction false} EncodedSegment(s: string)
    ensures '/' !in EncodeComponent(s)
    ensures EncodeComponent(s) == "" <==> s == ""
  {
    if s != "" {
      EncodedSegment(s[1..]);
      PercentHasNoSlash(Utf8(s[0]));
      OctetsRoundTrip(Utf8(s[0]), "");
    }
  }

  lemma {:induction false} PlainDecodesToItself(w: string)
    requires '%' !in w
    ensures DecodeComponent(w) == Some(w)
  {
    if w != "" {
      PlainDecodesToItself(w[1..]);
      assert w == [w[0]] + w[1..];
    }
  }

  /** Only the word itself is encoded as a word without percent signs. */
  lemma EncodesToWord(s: string, w: string)
    requires '%' !in w && EncodeComponent(s) == w
    ensures s == w
  {
    ComponentRoundTrip(s);
    PlainDecodesToItself(w);
  }

  // ---------------------------------------------------------------------
  // Storage paths in URLs
  // ---------------------------------------------------------------------

  function EncodeAll(segs: seq<string>): (r: seq<string>)
    ensures |r| == |segs|
  {
    if |segs| == 0 then [] else [EncodeComponent(segs[0])] + EncodeAll(segs[1..])
  }

  function DecodeAll(segs: seq<string>): Option<seq<string>> {
    if |segs| == 0 then Some([])
    else
      match (DecodeComponent(segs[0]), DecodeAll(segs[1..]))
      case (Some(s), Some(rest)) => Some([s] + rest)
      case _ => None
  }

  function EncodeStoragePath(path: string): string {
    var normalized := Normalize(path);
    if normalized == "." then "" else Join(EncodeAll(Split(normalized)))
  }

  function DecodeStoragePath(segs: seq<string>): Option<string> {
    match DecodeAll(segs)
    case None => None
    case Some(decoded) =>
      if exists i :: 0 <= i < |decoded| && '/' in decoded[i] then None
      else Some(Normalize(Join(decoded)))
  }

  lemma {:induction false} AllRoundTrip(segs: seq<string>)
    ensures DecodeAll(EncodeAll(segs)) == Some(segs)
    ensures forall i :: 0 <= i < |segs| ==> EncodeAll(segs)[i] == EncodeComponent(segs[i])
  {
    if |segs| > 0 {
      AllRoundTrip(segs[1..]);
      ComponentRoundTrip(segs[0]);
      assert EncodeAll(segs)[1..] == EncodeAll(segs[1..]);
      assert segs == [segs[0]] + segs[1..];
    }
  }

  /** pathname.split("/").filter(Boolean). */
  function NonEmpty(segs: seq<string>): seq<string> {
    if |segs| == 0 then []
    else if segs[0] == "" then NonEmpty(segs[1..])
    else [segs[0]] + NonEmpty(segs[1..])
  }

  function Segments(pathname: string): seq<string> { NonEmpty(Split(pathname)) }

  lemma {:induction false} NonEmptyKeeps(segs: seq<string>)
    requires "" !in segs
    ensures NonEmpty(segs) == segs
  {
    if |segs| > 0 { NonEmptyKeeps(segs[1..]); }
  }

  /** The segments a URL is parsed into after a list of words is printed. */
  lemma PrintedSegments(words: seq<string>)
    requires |words| > 0 && forall i :: 0 <= i < |words| ==> words[i] != "" && '/' !in words[i]
    ensures Segments("/" + Join(words)) == words
  {
    SplitJoin(words);
    SplitCons("", Join(words));
    assert "" + "/" + Join(words) == "/" + Join(words);
    NonEmptyKeeps(words);
    assert ([""] + words)[1..] == words;
  }

  /** The encoded segments of a path in normal form. */
  function UrlWords(d: string): seq<string> { if d == "." then [] else EncodeAll(Split(d)) }

  lemma UrlWordsFacts(d: string)
    requires NormalForm(d)
    ensures EncodeStoragePath(d) == Join(UrlWords(d))
    ensures forall i :: 0 <= i < |UrlWords(d)| ==> UrlWords(d)[i] != "" && '/' !in UrlWords(d)[i]
    ensures DecodeStoragePath(UrlWords(d)) == Some(d)
    ensures EncodeStoragePath(d) == "" <==> d == "."
  {
    NormalizeFixpoints(d);
    var segs := Split(d);
    AllRoundTrip(segs);
    JoinSplit(d);
    if d == "." {
      assert Split("") == [""];
      assert NormalizeSegments([""], []) == NormalizeSegments([], []) == [];
    } else {
      forall i | 0 <= i < |segs|
        ensures UrlWords(d)[i] != "" && '/' !in UrlWords(d)[i]
      {
        EncodedSegment(segs[i]);
      }
      PrintedSegments(UrlWords(d));
      assert |UrlWords(d)| == 1 ==> Join(UrlWords(d)) == UrlWords(d)[0];
    }
  }

  // ---------------------------------------------------------------------
  // Routes
  // ---------------------------------------------------------------------

  datatype CreateKind = DirKind | FileKind
  datatype Tab = Profile | Users | Policy | System | About
  datatype Mode = Login | Setup

  /** edit is None where the TypeScript field is absent. */
  datatype Route =
    | Files(dir: string)
    | Viewer(path: string, dir: string, edit: Option<bool>)
    | Create(kind: CreateKind, dir: string)
    | Settings(tab: Tab, dir: string)
    | Auth(mode: Mode, dir: string)

  function TabName(t: Tab): string {
    match t
    case Profile => "profile" case Users => "users" case Policy => "policy"
    case System => "system" case About => "about"
  }

  function TabOf(s: string): Option<Tab> {
    if s == "profile" then Some(Profile) else if s == "users" then Some(Users)
    else if s == "policy" then Some(Policy) else if s == "system" then Some(System)
    else if s == "about" then Some(About) else None
  }

  function RoutePath(route: Route): string {
    match route
    case Files(dir) =>
      var path := EncodeStoragePath(dir);
      if path == "" then "/" else "/" + path
    case Viewer(path, _, _) => "/" + "view" + "/" + EncodeStoragePath(path)
    case Create(kind, dir) =>
      var word := KindWord(kind);
      var d := EncodeStoragePath(dir);
      if d == "" then "/" + "new" + "/" + word else "/" + "new" + "/" + word + "/" + d
    case Settings(tab, _) => "/" + "settings" + "/" + TabName(tab)
    case Auth(mode, _) => if mode == Login then "/" + "login" else "/" + "setup"
  }

  /** lastIndexOf("/") + slice, on a path in normal form. */
  function ParentDirectory(path: string): string {
    var segs := Split(Normalize(path));
    if |segs| == 1 then "." else Join(segs[..|segs| - 1])
  }

  function OrElse<T>(o: Option<T>, d: T): T { if o.Some? then o.value else d }

  function RouteFromPath(pathname: string, backgroundDir: Option<string>, backgroundEdit: Option<bool>): Option<Route> {
    RouteFromSegments(Segments(pathname), backgroundDir, backgroundEdit)
  }

  function RouteFromSegments(segs: seq<string>, backgroundDir: Option<string>, backgroundEdit: Option<bool>)
    : Option<Route>
  {
    if |segs| == 0 then Some(Files("."))
    else if segs[0] == "view" then
      if |segs| < 2 then None
      else
        match DecodeStoragePath(segs[1..])
        case None => None
        case Some(path) =>
          if path == "." then None
          else Some(Viewer(path, OrElse(backgroundDir, ParentDirectory(path)),
                           if backgroundEdit == Some(true) then Some(true) else None))
    else if segs[0] == "new" then
      if |segs| < 2 || (segs[1] != "folder" && segs[1] != "file") then None
      else
        match DecodeStoragePath(segs[2..])
        case None => None
        case Some(dir) => Some(Create(if segs[1] == "folder" then DirKind else FileKind, dir))
    else if segs[0] == "settings" then
      if |segs| > 2 then None
      else
        match TabOf(if |segs| == 2 then segs[1] else "profile")
        case None => None
        case Some(tab) => Some(Settings(tab, OrElse(backgroundDir, ".")))
    else if segs[0] == "login" || segs[0] == "setup" then
      if |segs| != 1 then None
      else Some(Auth(if segs[0] == "login" then Login else Setup, OrElse(backgroundDir, ".")))
    else
      match DecodeStoragePath(segs)
      case None => None
      case Some(dir) => Some(Files(dir))
  }

  function ParseRoute(pathname: string, backgroundDir: Option<string>, backgroundEdit: Option<bool>): Route {
    OrElse(RouteFromPath(pathname, backgroundDir, backgroundEdit), Files("."))
  }

  // ---------------------------------------------------------------------
  // base.ts
  // ---------------------------------------------------------------------

  function StripTrailingSlashes(s: string): string {
    if |s| > 0 && s[|s| - 1] == '/' then StripTrailingSlashes(s[..|s| - 1]) else s
  }

  function NormalizeBasePath(path: string): string {
    if path == "" || path == "/" then ""
    else StripTrailingSlashes(if "/" <= path then path else "/" + path)
  }

  function AddBasePath(base: string, pathname: string): string
    requires "/" <= pathname
  {
    var b := NormalizeBasePath(base);
    if b == "" then pathname else if pathname == "/" then b + "/" else b + pathname
  }

  function RemoveBasePath(base: string, pathname: string): Option<string> {
    var b := NormalizeBasePath(base);
    if b == "" then Some(pathname)
    else if pathname == b || pathname == b + "/" then Some("/")
    else if !(b + "/" <= pathname) then None
    else Some(pathname[|b|..])
  }

  /** Under any mount path, removing the base gives back the pathname. */
  lemma BaseRoundTrip(base: string, pathname: string)
    requires "/" <= pathname
    ensures RemoveBasePath(base, AddBasePath(base, pathname)) == Some(pathname)
  {
    var b := NormalizeBasePath(base);
    if b != "" && pathname != "/" {
      var full := b + pathname;
      assert full[|b|..] == pathname;
      assert full[..|b| + 1] == b + pathname[..1];
    }
  }

  // ---------------------------------------------------------------------
  // Round trips
  // ---------------------------------------------------------------------

  lemma {:induction false} PlainEncodesToItself(w: string)
    requires forall c :: c in w ==> Unreserved(c)
    ensures EncodeComponent(w) == w
  {
    if w != "" {
      PlainEncodesToItself(w[1..]);
      assert w == [w[0]] + w[1..];
    }
  }

  lemma PathWords(d: string)
    requires NormalForm(d) && d != "."
    ensures |UrlWords(d)| > 0 && Segments("/" + EncodeStoragePath(d)) == UrlWords(d)
    ensures UrlWords(d)[0] == EncodeComponent(Split(d)[0])
  {
    UrlWordsFacts(d);
    PrintedSegments(UrlWords(d));
  }

  lemma ReservedEncodes(s: string)
    ensures ReservedRoot(EncodeComponent(s)) <==> ReservedRoot(s)
    ensures ReservedRoot(s) ==> EncodeComponent(s) == s
  {
    var e := EncodeComponent(s);
    if ReservedRoot(s) {
      ReservedIsPlain(s);
      PlainEncodesToItself(s);
    }
    if ReservedRoot(e) {
      ReservedIsPlain(e);
      EncodesToWord(s, e);
    }
  }

  lemma ReservedIsPlain(s: string)
    requires ReservedRoot(s)
    ensures '%' !in s && forall c :: c in s ==> Unreserved(c)
  {}

  /** A directory in normal form is browsable at its URL exactly when its first
      segment is not claimed by a route. */
  lemma FilesRoundTrip(d: string, backgroundDir: Option<string>, backgroundEdit: Option<bool>)
    ensures ParseRoute(RoutePath(Files(d)), backgroundDir, backgroundEdit) == Files(d)
            <==> NormalForm(d) && !IsReservedPath(d)
  {
    var n := Normalize(d);
    NormalizeFixpoints(d);
    NormalizeFixpoints(n);
    assert RoutePath(Files(d)) == RoutePath(Files(n));
    NormalFilesRoundTrip(n, backgroundDir, backgroundEdit);
  }

  lemma NormalFilesRoundTrip(d: string, backgroundDir: Option<string>, backgroundEdit: Option<bool>)
    requires NormalForm(d)
    ensures var r := ParseRoute(RoutePath(Files(d)), backgroundDir, backgroundEdit);
            if IsReservedPath(d) then r.Files? ==> r.dir == "." && d != "." else r == Files(d)
  {
    UrlWordsFacts(d);
    if d == "." {
      SplitCons(".", "");
      RootSegments();
    } else {
      PathWords(d);
      ReservedEncodes(Split(d)[0]);
      SegmentsAsFiles(UrlWords(d), backgroundDir, backgroundEdit);
    }
  }

  lemma RootSegments()
    ensures Segments("/") == []
  {
    assert Split("") == [""];
    assert Split("/") == ["", ""];
    assert NonEmpty(["", ""]) == NonEmpty([""]) == NonEmpty([]);
  }

  lemma SegmentsAsFiles(segs: seq<string>, backgroundDir: Option<string>, backgroundEdit: Option<bool>)
    requires |segs| > 0
    ensures var r := RouteFromSegments(segs, backgroundDir, backgroundEdit);
            if ReservedRoot(segs[0]) then r.Some? ==> !r.value.Files?
            else match DecodeStoragePath(segs) case None => r == None case Some(d) => r == Some(Files(d))
  {}

  /** "/word" and "/word/..." parse back to the words they were printed from. */
  lemma WordSegments(word: string, words: seq<string>)
    requires word != "" && '/' !in word
    requires forall i :: 0 <= i < |words| ==> words[i] != "" && '/' !in words[i]
    ensures Segments(if |words| == 0 then "/" + word else "/" + word + "/" + Join(words)) == [word] + words
  {
    var all := [word] + words;
    PrintedSegments(all);
    assert all[1..] == words;
    if |words| > 0 {
      Associative("/", word, "/");
      Associative("/", word + "/", Join(words));
    }
  }

  lemma ViewerSegments(path: string)
    requires NormalForm(path) && path != "."
    ensures |UrlWords(path)| > 0 && Segments("/" + "view" + "/" + EncodeStoragePath(path)) == ["view"] + UrlWords(path)
  {
    UrlWordsFacts(path);
    WordSegments("view", UrlWords(path));
  }

  lemma SegmentsAsViewer(words: seq<string>, backgroundDir: Option<string>, backgroundEdit: Option<bool>)
    requires |words| > 0 && DecodeStoragePath(words).Some? && DecodeStoragePath(words).value != "."
    ensures var path := DecodeStoragePath(words).value;
            RouteFromSegments(["view"] + words, backgroundDir, backgroundEdit)
            == Some(Viewer(path, OrElse(backgroundDir, ParentDirectory(path)),
                           if backgroundEdit == Some(true) then Some(true) else None))
  {
    var segs := ["view"] + words;
    assert segs[0] == "view" && segs[1..] == words;
  }

  lemma ViewerRoundTrip(path: string, dir: string, edit: Option<bool>)
    requires NormalForm(path) && path != "."
    ensures ParseRoute(RoutePath(Viewer(path, dir, edit)), Some(dir), edit) == Viewer(path, dir, edit)
            <==> edit != Some(false)
  {
    ViewerSegments(path);
    UrlWordsFacts(path);
    SegmentsAsViewer(UrlWords(path), Some(dir), edit);
    assert RouteFromPath(RoutePath(Viewer(path, dir, edit)), Some(dir), edit)
        == RouteFromSegments(["view"] + UrlWords(path), Some(dir), edit)
        == Some(Viewer(path, dir, if edit == Some(true) then Some(true) else None));
    if edit.Some? {
      if edit.value { assert edit == Some(true); } else { assert edit == Some(false); }
    }
  }

  function KindWord(kind: CreateKind): string { if kind == DirKind then "folder" else "file" }

  lemma Associative4(a: string, b: string, c: string, d: string)
    ensures a + (b + c + d) == a + b + c + d
  {}

  lemma CreateUrl(kind: CreateKind, dir: string)
    requires NormalForm(dir)
    ensures RoutePath(Create(kind, dir)) == "/" + "new" + "/" + Join([KindWord(kind)] + UrlWords(dir))
  {
    var rest := [KindWord(kind)] + UrlWords(dir);
    UrlWordsFacts(dir);
    assert rest[1..] == UrlWords(dir);
    if dir != "." {
      assert |UrlWords(dir)| > 0;
      Associative4("/" + "new" + "/", KindWord(kind), "/", Join(UrlWords(dir)));
    }
  }

  lemma CreateWords(kind: CreateKind, words: seq<string>)
    requires forall i :: 0 <= i < |words| ==> words[i] != "" && '/' !in words[i]
    ensures var rest := [KindWord(kind)] + words;
            (forall i :: 0 <= i < |rest| ==> rest[i] != "" && '/' !in rest[i]) &&
            ["new"] + rest == ["new", KindWord(kind)] + words
  {
    var rest := [KindWord(kind)] + words;
    assert forall i :: 1 <= i < |rest| ==> rest[i] == words[i - 1];
  }

  lemma CreateSegments(kind: CreateKind, dir: string)
    requires NormalForm(dir)
    ensures Segments("/" + "new" + "/" + Join([KindWord(kind)] + UrlWords(dir)))
            == ["new", KindWord(kind)] + UrlWords(dir)
  {
    UrlWordsFacts(dir);
    CreateWords(kind, UrlWords(dir));
    WordSegments("new", [KindWord(kind)] + UrlWords(dir));
  }

  lemma SegmentsAsCreate(kind: CreateKind, words: seq<string>, backgroundDir: Option<string>,
                         backgroundEdit: Option<bool>)
    requires DecodeStoragePath(words).Some?
    ensures RouteFromSegments(["new", KindWord(kind)] + words, backgroundDir, backgroundEdit)
            == Some(Create(kind, DecodeStoragePath(words).value))
  {
    var segs := ["new", KindWord(kind)] + words;
    assert segs[0] == "new" && segs[1] == KindWord(kind) && segs[2..] == words;
  }

  lemma CreateRoundTrip(kind: CreateKind, dir: string, backgroundDir: Option<string>, backgroundEdit: Option<bool>)
    requires NormalForm(dir)
    ensures ParseRoute(RoutePath(Create(kind, dir)), backgroundDir, backgroundEdit) == Create(kind, dir)
  {
    CreateUrl(kind, dir);
    CreateSegments(kind, dir);
    UrlWordsFacts(dir);
    SegmentsAsCreate(kind, UrlWords(dir), backgroundDir, backgroundEdit);
  }

  lemma SettingsRoundTrip(tab: Tab, dir: string, backgroundEdit: Option<bool>)
    ensures ParseRoute(RoutePath(Settings(tab, dir)), Some(dir), backgroundEdit) == Settings(tab, dir)
  {
    WordSegments("settings", [TabName(tab)]);
    assert Join([TabName(tab)]) == TabName(tab);
    assert Segments(RoutePath(Settings(tab, dir))) == ["settings"] + [TabName(tab)];
  }

  lemma AuthRoundTrip(mode: Mode, dir: string, backgroundEdit: Option<bool>)
    ensures ParseRoute(RoutePath(Auth(mode, dir)), Some(dir), backgroundEdit) == Auth(mode, dir)
  {
    var word := if mode == Login then "login" else "setup";
    WordSegments(word, []);
    assert "/" + word == RoutePath(Auth(mode, dir));
  }

  /** The routes the application prints: paths in normal form, a viewer of
      something other than the root, and edit either absent or true. */
  ghost predicate Printable(r: Route) {
    match r
    case Files(dir) => NormalForm(dir) && !IsReservedPath(dir)
    case Viewer(path, _, edit) => NormalForm(path) && path != "." && edit != Some(false)
    case Create(_, dir) => NormalForm(dir)
    case _ => true
  }

  function EditOf(r: Route): Option<bool> { if r.Viewer? then r.edit else None }

  /** Printing a route under any mount path, removing the mount path and parsing
      with the stored background directory and edit flag gives the route back. */
  lemma RouteRoundTrip(r: Route, base: string)
    requires Printable(r)
    ensures "/" <= RoutePath(r)
    ensures var url := AddBasePath(base, RoutePath(r));
            RemoveBasePath(base, url) == Some(RoutePath(r)) &&
            ParseRoute(RoutePath(r), Some(r.dir), EditOf(r)) == r
  {
    match r {
      case Files(dir) => FilesRoundTrip(dir, Some(dir), None);
      case Viewer(path, dir, edit) => ViewerRoundTrip(path, dir, edit);
      case Create(kind, dir) => CreateRoundTrip(kind, dir, Some(dir), None);
      case Settings(tab, dir) => SettingsRoundTrip(tab, dir, None);
      case Auth(mode, dir) => AuthRoundTrip(mode, dir, None);
    }
    BaseRoundTrip(base, RoutePath(r));
  }

  /** What the server lets anyone create stays browsable: for every path Clean
      accepts, the reserved-root check rejects it exactly when its directory URL
      would not lead back to it, under any mount path and any history state. */
  lemma CreatableIsBrowsable(p: string, base: string, backgroundDir: Option<string>, backgroundEdit: Option<bool>)
    requires Clean(p).Ok?
    ensures var c := Clean(p).path;
            Normalize(p) == c && "/" <= RoutePath(Files(c)) &&
            var shown := RemoveBasePath(base, AddBasePath(base, RoutePath(Files(c))));
            shown.Some? &&
            (!RejectReservedRoot(p) <==> ParseRoute(shown.value, backgroundDir, backgroundEdit) == Files(c))
  {
    var c := Clean(p).path;
    CleanIsNormalize(p);
    FilesRoundTrip(c, backgroundDir, backgroundEdit);
    BaseRoundTrip(base, RoutePath(Files(c)));
  }

  // ---------------------------------------------------------------------
  // Parsing any location
  // ---------------------------------------------------------------------

  /** The parent of a path in normal form is the path without its last segment. */
  lemma ParentOf(segs: seq<string>, name: string)
    requires AllSolid(segs + [name])
    ensures ParentDirectory(Join(segs + [name])) == if |segs| == 0 then "." else Join(segs)
  {
    var all := segs + [name];
    JoinSolid(all);
    NormalizeFixes(Join(all));
    assert all[..|all| - 1] == segs;
  }

  /** A viewer opened at its URL without a history entry goes back to the parent. */
  lemma ViewerWithoutHistory(path: string, dir: string, edit: Option<bool>)
    requires NormalForm(path) && path != "."
    ensures ParseRoute(RoutePath(Viewer(path, dir, edit)), None, edit) ==
            Viewer(path, ParentDirectory(path), if edit == Some(true) then Some(true) else None)
  {
    ViewerSegments(path);
    UrlWordsFacts(path);
    SegmentsAsViewer(UrlWords(path), None, edit);
  }

  /** Settings and account pages then go back to the root. */
  lemma SettingsWithoutHistory(tab: Tab, dir: string, edit: Option<bool>)
    ensures ParseRoute(RoutePath(Settings(tab, dir)), None, edit) == Settings(tab, ".")
  {
    WordSegments("settings", [TabName(tab)]);
    assert Join([TabName(tab)]) == TabName(tab);
    assert Segments(RoutePath(Settings(tab, dir))) == ["settings"] + [TabName(tab)];
  }

  lemma AuthWithoutHistory(mode: Mode, dir: string, edit: Option<bool>)
    ensures ParseRoute(RoutePath(Auth(mode, dir)), None, edit) == Auth(mode, ".")
  {
    var word := if mode == Login then "login" else "setup";
    WordSegments(word, []);
    assert "/" + word == RoutePath(Auth(mode, dir));
  }

  /** The URLs of the fixed pages; a bare /settings is the profile page. */
  lemma PageUrls(dir: string)
    ensures RoutePath(Auth(Login, dir)) == "/login" && RoutePath(Auth(Setup, dir)) == "/setup"
    ensures RoutePath(Settings(Profile, dir)) == "/settings/profile"
    ensures RoutePath(Settings(Users, dir)) == "/settings/users"
    ensures RoutePath(Settings(Policy, dir)) == "/settings/policy"
    ensures RoutePath(Settings(System, dir)) == "/settings/system"
    ensures RoutePath(Settings(About, dir)) == "/settings/about"
  {
    assert "/" + "login" == "/login" && "/" + "setup" == "/setup";
    assert "/" + "settings" + "/" == "/settings/";
  }

  lemma CreateUrls(dir: string)
    ensures "/new/folder" <= RoutePath(Create(DirKind, dir)) && "/new/file" <= RoutePath(Create(FileKind, dir))
  {
    assert "/" + "new" + "/" + "folder" == "/new/folder";
    assert "/" + "new" + "/" + "file" == "/new/file";
  }

  lemma BareSettings(dir: string)
    ensures ParseRoute("/settings", Some(dir), None) == Settings(Profile, dir)
  {
    WordSegments("settings", []);
    assert "/" + "settings" == "/settings";
    BareSegments(["settings"], dir);
  }

  lemma BareSegments(segs: seq<string>, dir: string)
    requires |segs| == 1 && segs[0] == "settings"
    ensures RouteFromSegments(segs, Some(dir), None) == Some(Settings(Profile, dir))
  {}

  /** A location names a path exactly if every segment can be unescaped and none hides
      a slash; the path is what the unescaped segments make. */
  lemma {:induction false} DecodesExactly(segs: seq<string>)
    ensures DecodeAll(segs).Some? <==> forall i :: 0 <= i < |segs| ==> DecodeComponent(segs[i]).Some?
    ensures DecodeAll(segs).Some? ==>
              |DecodeAll(segs).value| == |segs| &&
              forall i :: 0 <= i < |segs| ==> DecodeComponent(segs[i]) == Some(DecodeAll(segs).value[i])
    ensures DecodeStoragePath(segs).Some? <==>
              forall i :: 0 <= i < |segs| ==> DecodeComponent(segs[i]).Some? && '/' !in DecodeComponent(segs[i]).value
  {
    if |segs| > 0 { DecodesExactly(segs[1..]); }
  }

  /** The characters a URL keeps as they are: uriUnescaped of section 19.2.6.1 of
      ECMA-262. */
  lemma KeptInUrls(c: char)
    ensures EncodeComponent([c]) == [c] <==>
              'A' <= c <= 'Z' || 'a' <= c <= 'z' || '0' <= c <= '9' ||
              c == '-' || c == '_' || c == '.' || c == '!' || c == '~' || c == '*' || c == '\'' || c == '(' || c == ')'
  {
    assert [c][1..] == "";
    assert EncodeComponent([c]) == EncodeChar(c);
    assert |PercentOctets(Utf8(c))| >= 3;
  }

  /** Other characters are escaped with capital digits. */
  lemma EscapedCapital(c: char)
    ensures var word := EncodeComponent([c]);
            word != [c] ==> forall i :: 0 <= i < |word| ==> word[i] in "%0123456789ABCDEF"
    ensures c == '/' ==> EncodeComponent([c]) == "%2F"
  {
    assert [c][1..] == "";
    assert EncodeComponent([c]) == EncodeChar(c);
    assert EncodeChar(c) != [c] ==> EncodeChar(c) == PercentOctets(Utf8(c));
    CapitalOctets(Utf8(c));
    assert Utf8('/') == [0x2F] && PercentOctet(0x2F) == "%2F" && [0x2F][1..] == [];
  }

  lemma {:induction false} CapitalOctets(o: seq<octet>)
    ensures forall i :: 0 <= i < |PercentOctets(o)| ==> PercentOctets(o)[i] in "%0123456789ABCDEF"
  {
    if |o| > 0 {
      CapitalOctets(o[1..]);
      assert HexDigit(o[0] / 16) in "%0123456789ABCDEF" && HexDigit(o[0] % 16) in "%0123456789ABCDEF" by {
        HexIn(o[0] / 16);
        HexIn(o[0] % 16);
      }
    }
  }

  lemma HexIn(n: int)
    requires 0 <= n < 16
    ensures HexDigit(n) in "%0123456789ABCDEF"
  {
    assert HexDigit(n) == "%0123456789ABCDEF"[n + 1];
  }

  /** Lengths of paths count the octets of UTF-8. */
  lemma {:induction false} ByteLenIs(s: string)
    ensures ByteLen(s) == |Octets(s)|
  {
    if s != "" { ByteLenIs(s[1..]); }
  }

  function Octets(s: string): seq<octet> { if s == "" then [] else Utf8(s[0]) + Octets(s[1..]) }

  lemma DecodedIsNormal(segs: seq<string>)
    ensures DecodeStoragePath(segs).Some? ==> NormalForm(DecodeStoragePath(segs).value)
  {
    if DecodeStoragePath(segs).Some? { NormalizeFixpoints(Join(DecodeAll(segs).value)); }
  }

  /** Every location parses to a route that its own URL leads back to, except the
      directories that look like application routes once decoded. */
  lemma ParseCanonical(pathname: string, backgroundDir: Option<string>, backgroundEdit: Option<bool>)
    ensures var r := ParseRoute(pathname, backgroundDir, backgroundEdit);
            ParseRoute(RoutePath(r), Some(r.dir), EditOf(r)) == r <==> !(r.Files? && IsReservedPath(r.dir))
  {
    var segs := Segments(pathname);
    var r := ParseRoute(pathname, backgroundDir, backgroundEdit);
    ParsedNormal(segs, backgroundDir, backgroundEdit);
    if r.Files? { FilesRoundTrip(r.dir, Some(r.dir), None); } else { RouteRoundTrip(r, ""); }
  }

  lemma ParsedNormal(segs: seq<string>, backgroundDir: Option<string>, backgroundEdit: Option<bool>)
    ensures var r := OrElse(RouteFromSegments(segs, backgroundDir, backgroundEdit), Files("."));
            match r
            case Files(dir) => NormalForm(dir)
            case Viewer(path, _, edit) => NormalForm(path) && path != "." && edit != Some(false)
            case Create(_, dir) => NormalForm(dir)
            case _ => true
  {
    DecodedIsNormal(segs);
    if |segs| > 0 { DecodedIsNormal(segs[1..]); }
    if |segs| > 1 { DecodedIsNormal(segs[2..]); }
  }

  lemma {:induction false} PlainAllDecode(segs: seq<string>)
    requires forall i :: 0 <= i < |segs| ==> '%' !in segs[i]
    ensures DecodeAll(segs) == Some(segs)
  {
    if |segs| > 0 {
      PlainDecodesToItself(segs[0]);
      PlainAllDecode(segs[1..]);
      assert segs == [segs[0]] + segs[1..];
    }
  }

  /** A location without escapes whose first segment is not claimed by a route. */
  lemma PlainLocation(segs: seq<string>)
    requires |segs| > 0 && !ReservedRoot(segs[0])
    requires forall i :: 0 <= i < |segs| ==> segs[i] != "" && '/' !in segs[i] && '%' !in segs[i]
    ensures ParseRoute("/" + Join(segs), None, None) == Files(Normalize(Join(segs)))
  {
    PrintedSegments(segs);
    PlainAllDecode(segs);
  }

  /** Such a directory: /a/../view is shown as the directory "view", whose own URL is
      the viewer's. */
  lemma ShadowedLocation(segs: seq<string>)
    requires segs == ["a", "..", "view"]
    ensures ParseRoute("/" + Join(segs), None, None) == Files("view") && IsReservedPath("view")
  {
    PlainLocation(segs);
    SplitJoin(segs);
    assert segs[1..] == ["..", "view"] && segs[1..][1..] == ["view"];
    assert NormalizeSegments(segs, []) == NormalizeSegments(["..", "view"], ["a"]);
    assert ["..", "view"][1..] == ["view"] && ["a"][..0] == [];
    assert NormalizeSegments(["..", "view"], ["a"]) == NormalizeSegments(["view"], []);
    assert NormalizeSegments(["view"], []) == ["view"];
    SplitCons("view", "");
  }

  /** The locations that are no route and fall back to the root directory. */
  lemma NoRouteExactly(segs: seq<string>, backgroundDir: Option<string>, backgroundEdit: Option<bool>)
    ensures RouteFromSegments(segs, backgroundDir, backgroundEdit).None? <==>
              |segs| > 0 &&
              if segs[0] == "view" then
                |segs| == 1 || DecodeStoragePath(segs[1..]).None? || DecodeStoragePath(segs[1..]) == Some(".")
              else if segs[0] == "new" then
                |segs| == 1 || segs[1] !in {"folder", "file"} || DecodeStoragePath(segs[2..]).None?
              else if segs[0] == "settings" then
                |segs| > 2 || (|segs| == 2 && segs[1] !in {"profile", "users", "policy", "system", "about"})
              else if segs[0] in {"login", "setup"} then |segs| > 1
              else DecodeStoragePath(segs).None?
  {}

  // ---------------------------------------------------------------------
  // The mount path
  // ---------------------------------------------------------------------

  predicate AllSlashes(s: string) { forall c :: c in s ==> c == '/' }

  lemma {:induction false} StripParts(s: string) returns (slashes: string)
    ensures s == StripTrailingSlashes(s) + slashes && AllSlashes(slashes)
    ensures var r := StripTrailingSlashes(s); |r| > 0 ==> r[|r| - 1] != '/'
  {
    if |s| > 0 && s[|s| - 1] == '/' {
      slashes := StripParts(s[..|s| - 1]);
      slashes := slashes + "/";
    } else {
      slashes := "";
    }
  }

  /** A mount path is empty or starts with a slash and does not end with one; it is
      the configured path but for slashes in front and at the end. */
  lemma MountPath(path: string) returns (slashes: string)
    ensures var b := NormalizeBasePath(path);
            (b == "" || ("/" <= b && b[|b| - 1] != '/')) && AllSlashes(slashes) &&
            (b + slashes == path || b + slashes == "/" + path)
  {
    if path == "" || path == "/" {
      slashes := path;
    } else {
      var p := if "/" <= path then path else "/" + path;
      slashes := StripParts(p);
      var b := NormalizeBasePath(path);
      if b != "" { assert b[0] == p[0] == '/'; }
    }
  }

  /** What is left of a location once the mount path is removed leads back to it;
      the mount path itself gets its slash. Locations outside have nothing left. */
  lemma BaseRemoved(base: string, pathname: string)
    requires "/" <= pathname
    ensures var b, rest := NormalizeBasePath(base), RemoveBasePath(base, pathname);
            (rest.Some? <==> pathname == b || b + "/" <= pathname) &&
            (rest.Some? ==>
              "/" <= rest.value && AddBasePath(base, rest.value) == if pathname == b then b + "/" else pathname)
  {
    var b := NormalizeBasePath(base);
    var slashes := MountPath(base);
    if b + "/" <= pathname {
      assert pathname == b + pathname[|b|..];
      assert pathname[|b|] == (b + "/")[|b|];
    }
  }
}
