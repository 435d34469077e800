// internal/fsutil/sort.go and sortfiles.go: natural ordering of file names and
// the comparator that orders a directory listing.
module NaturalOrder {
  type byte = x: int | 0 <= x < 256
  type bytes = seq<byte>

  predicate IsDigit(c: byte) { 0x30 <= c <= 0x39 }

  function ToLower(c: byte): byte {
    if 0x41 <= c <= 0x5A then c + 0x20 else c
  }

  function Sign(n: int): int {
    if n < 0 then -1 else if n > 0 then 1 else 0
  }

  function CompareRunes(a: byte, b: byte): int {
    var la, lb := ToLower(a), ToLower(b);
    if la != lb then (if la < lb then -1 else 1)
    else if a != b then (if a < b then -1 else 1)
    else 0
  }

  function CompareRemainder(ra: bytes, rb: bytes): int {
    if |ra| < |rb| then -1 else if |ra| > |rb| then 1 else 0
  }

  function TrimZeros(s: bytes): bytes {
    if |s| > 0 && s[0] == 0x30 then TrimZeros(s[1..]) else s
  }

  /** Go's strings.Compare: bytewise lexicographic order. */
  function CompareBytes(a: bytes, b: bytes): int {
    if |a| == 0 || |b| == 0 then CompareRemainder(a, b)
    else if a[0] != b[0] then (if a[0] < b[0] then -1 else 1)
    else CompareBytes(a[1..], b[1..])
  }

  function CompareDigitRuns(ra: bytes, rb: bytes): int {
    var na, nb := TrimZeros(ra), TrimZeros(rb);
    if |na| != |nb| then (if |na| < |nb| then -1 else 1) else CompareBytes(na, nb)
  }

  // ---------------------------------------------------------------------
  // The meaning of a name: a list of tokens, numbers taken by value
  // ---------------------------------------------------------------------

  datatype Token = Number(value: nat) | Byte(b: byte)

  ghost predicate AllDigits(s: bytes) { forall i :: 0 <= i < |s| ==> IsDigit(s[i]) }

  /** Length of the digit run at the head of s. */
  function Run(s: bytes): (n: nat)
    ensures n <= |s|
    ensures AllDigits(s[..n])
    ensures n < |s| ==> !IsDigit(s[n])
  {
    if |s| > 0 && IsDigit(s[0]) then
      assert forall i :: 1 <= i < 1 + Run(s[1..]) ==> s[i] == s[1..][..Run(s[1..])][i - 1];
      1 + Run(s[1..])
    else 0
  }

  function Pow10(n: nat): nat { if n == 0 then 1 else 10 * Pow10(n - 1) }

  /** Unbounded value of a decimal run. */
  function Value(s: bytes): nat
    requires AllDigits(s)
  {
    if |s| == 0 then 0 else (s[0] - 0x30) * Pow10(|s| - 1) + Value(s[1..])
  }

  function Tokens(s: bytes): seq<Token>
    decreases |s|
  {
    if |s| == 0 then []
    else if IsDigit(s[0]) then [Number(Value(s[..Run(s)]))] + Tokens(s[Run(s)..])
    else [Byte(s[0])] + Tokens(s[1..])
  }

  /** Where a token sorts: all numbers sit at the place of the digits, other
      bytes by their lower case and then by the byte itself. */
  function Key(t: Token): (int, int) {
    match t
    case Number(n) => (0x30, n)
    case Byte(b) => (ToLower(b), b)
  }

  function CompareToken(t: Token, u: Token): int {
    if Key(t).0 != Key(u).0 then Sign(Key(t).0 - Key(u).0) else Sign(Key(t).1 - Key(u).1)
  }

  function CompareTokens(s: seq<Token>, t: seq<Token>): int {
    if |s| == 0 || |t| == 0 then Sign(|s| - |t|)
    else if CompareToken(s[0], t[0]) != 0 then CompareToken(s[0], t[0])
    else CompareTokens(s[1..], t[1..])
  }

  /** The order NaturalCompare computes, as a function of the two names. */
  function NaturalSpec(a: bytes, b: bytes): int { CompareTokens(Tokens(a), Tokens(b)) }

  // ---------------------------------------------------------------------
  // Digit runs compare by value
  // ---------------------------------------------------------------------

  lemma {:induction false} ValueBound(s: bytes)
    requires AllDigits(s)
    ensures Value(s) < Pow10(|s|)
  {
    if |s| > 0 {
      ValueBound(s[1..]);
      assert (s[0] - 0x30) * Pow10(|s| - 1) <= 9 * Pow10(|s| - 1) by {
        assert s[0] - 0x30 <= 9;
        MulMono(s[0] - 0x30, 9, Pow10(|s| - 1));
      }
    }
  }

  lemma MulMono(a: int, b: int, k: nat)
    requires a <= b
    ensures a * k <= b * k
  {}

  lemma {:induction false} Pow10Mono(m: nat, n: nat)
    requires m <= n
    ensures Pow10(m) <= Pow10(n)
    decreases n
  {
    if m < n { Pow10Mono(m, n - 1); }
  }

  lemma {:induction false} TrimKeepsValue(s: bytes)
    requires AllDigits(s)
    ensures AllDigits(TrimZeros(s)) && Value(TrimZeros(s)) == Value(s)
    ensures var t := TrimZeros(s); |t| > 0 ==> t[0] != 0x30
  {
    if |s| > 0 && s[0] == 0x30 { TrimKeepsValue(s[1..]); }
  }

  lemma LeadingDigitDecides(x: nat, y: nat, p: nat, u: nat, v: nat)
    requires x < y && u < p
    ensures x * p + u < y * p + v
  {
    MulMono(x + 1, y, p);
  }

  lemma {:induction false} SameLengthByValue(a: bytes, b: bytes)
    requires AllDigits(a) && AllDigits(b) && |a| == |b|
    ensures CompareBytes(a, b) == Sign(Value(a) - Value(b))
  {
    if |a| > 0 {
      var p := Pow10(|a| - 1);
      var u, v := Value(a[1..]), Value(b[1..]);
      ValueBound(a[1..]);
      ValueBound(b[1..]);
      if a[0] < b[0] {
        LeadingDigitDecides(a[0] - 0x30, b[0] - 0x30, p, u, v);
      } else if a[0] > b[0] {
        LeadingDigitDecides(b[0] - 0x30, a[0] - 0x30, p, v, u);
      } else {
        SameLengthByValue(a[1..], b[1..]);
      }
    }
  }

  lemma ShorterIsSmaller(a: bytes, b: bytes)
    requires AllDigits(a) && AllDigits(b) && |a| < |b| && b[0] != 0x30
    ensures Value(a) < Value(b)
  {
    ValueBound(a);
    Pow10Mono(|a|, |b| - 1);
    MulMono(1, b[0] - 0x30, Pow10(|b| - 1));
  }

  /** compareDigitRuns is the numeric order, for runs of any length. */
  lemma DigitRunsByValue(a: bytes, b: bytes)
    requires AllDigits(a) && AllDigits(b)
    ensures CompareDigitRuns(a, b) == Sign(Value(a) - Value(b))
  {
    TrimKeepsValue(a);
    TrimKeepsValue(b);
    var na, nb := TrimZeros(a), TrimZeros(b);
    if |na| == |nb| {
      SameLengthByValue(na, nb);
    } else if |na| < |nb| {
      ShorterIsSmaller(na, nb);
    } else {
      ShorterIsSmaller(nb, na);
    }
  }

  // ---------------------------------------------------------------------
  // The two-index loop
  // ---------------------------------------------------------------------

  /** First index at or after start that does not hold a digit. */
  method SkipDigits(s: bytes, start: nat) returns (next: nat)
    requires start < |s|
    ensures next == start + Run(s[start..])
  {
    next := start;
    while next < |s| && IsDigit(s[next])
      invariant start <= next <= |s|
      invariant start + Run(s[start..]) == next + Run(s[next..])
    {
      assert s[next..][1..] == s[next + 1..];
      next := next + 1;
    }
  }

  lemma NumberStep(s: bytes, t: bytes)
    requires |s| > 0 && |t| > 0 && IsDigit(s[0]) && IsDigit(t[0])
    ensures var d := CompareDigitRuns(s[..Run(s)], t[..Run(t)]);
            NaturalSpec(s, t) == if d != 0 then d else NaturalSpec(s[Run(s)..], t[Run(t)..])
  {
    DigitRunsByValue(s[..Run(s)], t[..Run(t)]);
    assert Tokens(s)[1..] == Tokens(s[Run(s)..]);
    assert Tokens(t)[1..] == Tokens(t[Run(t)..]);
  }

  lemma ByteStep(s: bytes, t: bytes)
    requires |s| > 0 && |t| > 0 && !(IsDigit(s[0]) && IsDigit(t[0]))
    ensures var d := CompareRunes(s[0], t[0]);
            NaturalSpec(s, t) == if d != 0 then d else NaturalSpec(s[1..], t[1..])
  {
    if !IsDigit(s[0]) { assert Tokens(s)[1..] == Tokens(s[1..]); }
    if !IsDigit(t[0]) { assert Tokens(t)[1..] == Tokens(t[1..]); }
  }

  lemma Slices(s: bytes, i: nat, k: nat)
    requires i <= k <= |s|
    ensures s[i..k] == s[i..][..k - i] && s[i..][k - i..] == s[k..]
  {}

  /** NumberStep at the positions i and j of the loop. */
  lemma NumberAt(a: bytes, b: bytes, i: nat, j: nat, nextA: nat, nextB: nat)
    requires i < |a| && j < |b| && IsDigit(a[i]) && IsDigit(b[j])
    requires nextA == i + Run(a[i..]) && nextB == j + Run(b[j..])
    ensures var d := CompareDigitRuns(a[i..nextA], b[j..nextB]);
            NaturalSpec(a[i..], b[j..]) == if d != 0 then d else NaturalSpec(a[nextA..], b[nextB..])
  {
    NumberStep(a[i..], b[j..]);
    Slices(a, i, nextA);
    Slices(b, j, nextB);
  }

  lemma ByteAt(a: bytes, b: bytes, i: nat, j: nat)
    requires i < |a| && j < |b| && !(IsDigit(a[i]) && IsDigit(b[j]))
    ensures var d := CompareRunes(a[i], b[j]);
            NaturalSpec(a[i..], b[j..]) == if d != 0 then d else NaturalSpec(a[i + 1..], b[j + 1..])
  {
    ByteStep(a[i..], b[j..]);
    Slices(a, i, i + 1);
    Slices(b, j, j + 1);
  }

  lemma RemainderAt(ra: bytes, rb: bytes)
    requires ra == [] || rb == []
    ensures NaturalSpec(ra, rb) == CompareRemainder(ra, rb)
  {
    TokensEmpty(ra);
    TokensEmpty(rb);
  }

  method NaturalCompare(a: bytes, b: bytes) returns (c: int)
    ensures c == NaturalSpec(a, b)
  {
    var i, j := 0, 0;
    ghost var want := NaturalSpec(a, b);
    assert a[0..] == a && b[0..] == b;
    while i < |a| && j < |b|
      invariant i <= |a| && j <= |b|
      invariant want == NaturalSpec(a[i..], b[j..])
    {
      var ca, cb := a[i], b[j];
      if IsDigit(ca) && IsDigit(cb) {
        var nextA := SkipDigits(a, i);
        var nextB := SkipDigits(b, j);
        NumberAt(a, b, i, j, nextA, nextB);
        var d := CompareDigitRuns(a[i..nextA], b[j..nextB]);
        if d != 0 { return d; }
        i, j := nextA, nextB;
      } else {
        ByteAt(a, b, i, j);
        var d := CompareRunes(ca, cb);
        if d != 0 { return d; }
        i, j := i + 1, j + 1;
      }
    }
    RemainderAt(a[i..], b[j..]);
    c := CompareRemainder(a[i..], b[j..]);
  }

  lemma TokensEmpty(s: bytes)
    ensures |Tokens(s)| == 0 <==> |s| == 0
  {}

  // ---------------------------------------------------------------------
  // It is an order
  // ---------------------------------------------------------------------

  lemma {:induction false} TokensAntisymmetric(s: seq<Token>, t: seq<Token>)
    ensures CompareTokens(s, t) == -CompareTokens(t, s)
  {
    if |s| > 0 && |t| > 0 { TokensAntisymmetric(s[1..], t[1..]); }
  }

  lemma {:induction false} TokensTransitive(s: seq<Token>, t: seq<Token>, u: seq<Token>)
    requires CompareTokens(s, t) <= 0 && CompareTokens(t, u) <= 0
    ensures CompareTokens(s, u) <= 0
    ensures CompareTokens(s, u) == 0 ==> CompareTokens(s, t) == 0 && CompareTokens(t, u) == 0
  {
    if |s| > 0 && |t| > 0 && |u| > 0 && CompareToken(s[0], t[0]) == 0 && CompareToken(t[0], u[0]) == 0 {
      TokensTransitive(s[1..], t[1..], u[1..]);
    }
  }

  lemma {:induction false} TokensTie(s: seq<Token>, t: seq<Token>)
    requires forall k :: 0 <= k < |s| && s[k].Byte? ==> !IsDigit(s[k].b)
    requires forall k :: 0 <= k < |t| && t[k].Byte? ==> !IsDigit(t[k].b)
    ensures CompareTokens(s, t) == 0 <==> s == t
  {
    if |s| > 0 && |t| > 0 {
      TokensTie(s[1..], t[1..]);
      assert CompareToken(s[0], t[0]) == 0 <==> s[0] == t[0];
      assert s == [s[0]] + s[1..] && t == [t[0]] + t[1..];
    }
  }

  /** NaturalCompare is a total preorder on all byte strings: sign-antisymmetric,
      and transitive with strictness carried along either step. */
  lemma NaturalTotalPreorder(a: bytes, b: bytes, c: bytes)
    ensures NaturalSpec(a, b) == -NaturalSpec(b, a)
    ensures NaturalSpec(a, b) <= 0 && NaturalSpec(b, c) <= 0 ==> NaturalSpec(a, c) <= 0
    ensures NaturalSpec(a, b) < 0 && NaturalSpec(b, c) <= 0 ==> NaturalSpec(a, c) < 0
    ensures NaturalSpec(a, b) <= 0 && NaturalSpec(b, c) < 0 ==> NaturalSpec(a, c) < 0
  {
    TokensAntisymmetric(Tokens(a), Tokens(b));
    if NaturalSpec(a, b) <= 0 && NaturalSpec(b, c) <= 0 {
      TokensTransitive(Tokens(a), Tokens(b), Tokens(c));
    }
  }

  // ---------------------------------------------------------------------
  // Ties: equal up to leading zeros
  // ---------------------------------------------------------------------

  /** A digit run without its leading zeros; an all-zero run keeps one. */
  function ShortRun(r: bytes): bytes {
    if |r| > 0 && |TrimZeros(r)| == 0 then [0x30] else TrimZeros(r)
  }

  /** The name with the leading zeros of every digit run removed. */
  function Strip(s: bytes): bytes
    decreases |s|
  {
    if |s| == 0 then []
    else if IsDigit(s[0]) then ShortRun(s[..Run(s)]) + Strip(s[Run(s)..])
    else [s[0]] + Strip(s[1..])
  }

  lemma {:induction false} TokensPlain(s: bytes)
    ensures forall k :: 0 <= k < |Tokens(s)| && Tokens(s)[k].Byte? ==> !IsDigit(Tokens(s)[k].b)
    decreases |s|
  {
    if |s| > 0 && IsDigit(s[0]) {
      TokensPlain(s[Run(s)..]);
    } else if |s| > 0 {
      TokensPlain(s[1..]);
    }
  }

  lemma ShortRunFacts(r: bytes)
    requires AllDigits(r) && |r| > 0
    ensures var t := ShortRun(r); AllDigits(t) && |t| > 0 && Value(t) == Value(r)
  {
    TrimKeepsValue(r);
  }

  lemma {:induction false} RunOfConcat(r: bytes, rest: bytes)
    requires AllDigits(r)
    requires |rest| > 0 ==> !IsDigit(rest[0])
    ensures Run(r + rest) == |r|
  {
    if |r| > 0 {
      assert (r + rest)[1..] == r[1..] + rest;
      RunOfConcat(r[1..], rest);
    } else {
      assert r + rest == rest;
    }
  }

  lemma StripHead(s: bytes)
    ensures |s| > 0 && !IsDigit(s[0]) ==> |Strip(s)| > 0 && !IsDigit(Strip(s)[0])
    ensures |s| == 0 ==> |Strip(s)| == 0
  {}

  lemma {:induction false} StripKeepsTokens(s: bytes)
    ensures Tokens(Strip(s)) == Tokens(s)
    decreases |s|
  {
    if |s| > 0 && IsDigit(s[0]) {
      var r, rest := s[..Run(s)], s[Run(s)..];
      ShortRunFacts(r);
      StripKeepsTokens(rest);
      StripHead(rest);
      RunOfConcat(ShortRun(r), Strip(rest));
      var t := Strip(s);
      assert t[0] == ShortRun(r)[0];
      assert t[..Run(t)] == ShortRun(r) && t[Run(t)..] == Strip(rest);
    } else if |s| > 0 {
      StripKeepsTokens(s[1..]);
      assert Strip(s)[1..] == Strip(s[1..]);
    }
  }

  lemma {:induction false} CompareBytesZero(a: bytes, b: bytes)
    requires |a| == |b| && CompareBytes(a, b) == 0
    ensures a == b
  {
    if |a| > 0 {
      CompareBytesZero(a[1..], b[1..]);
      assert a == [a[0]] + a[1..] && b == [b[0]] + b[1..];
    }
  }

  lemma {:induction false} SameTokensSameStrip(a: bytes, b: bytes)
    requires Tokens(a) == Tokens(b)
    ensures Strip(a) == Strip(b)
    decreases |a|
  {
    TokensEmpty(a);
    TokensEmpty(b);
    if |a| > 0 {
      assert Tokens(a)[0] == Tokens(b)[0];
      if IsDigit(a[0]) {
        var ra, rb := a[..Run(a)], b[..Run(b)];
        assert Tokens(a)[1..] == Tokens(a[Run(a)..]);
        assert Tokens(b)[1..] == Tokens(b[Run(b)..]);
        SameTokensSameStrip(a[Run(a)..], b[Run(b)..]);
        DigitRunsByValue(ra, rb);
        CompareBytesZero(TrimZeros(ra), TrimZeros(rb));
      } else {
        assert Tokens(a)[1..] == Tokens(a[1..]);
        assert Tokens(b)[1..] == Tokens(b[1..]);
        SameTokensSameStrip(a[1..], b[1..]);
      }
    }
  }

  /** NaturalCompare answers 0 exactly for names that agree once the leading
      zeros of every digit run are dropped. So it is not case-insensitive. */
  lemma NaturalTie(a: bytes, b: bytes)
    ensures NaturalSpec(a, b) == 0 <==> Strip(a) == Strip(b)
  {
    TokensPlain(a);
    TokensPlain(b);
    TokensTie(Tokens(a), Tokens(b));
    if NaturalSpec(a, b) == 0 { SameTokensSameStrip(a, b); }
    StripKeepsTokens(a);
    StripKeepsTokens(b);
  }

  // ---------------------------------------------------------------------
  // The laws that determine the order
  // ---------------------------------------------------------------------

  lemma NothingFirst(b: bytes)
    ensures NaturalSpec([], b) == if |b| == 0 then 0 else -1
    ensures NaturalSpec(b, []) == if |b| == 0 then 0 else 1
  {
    TokensEmpty(b);
  }

  /** Of two names that start with digit runs, the smaller number comes first;
      between equal numbers the rest decides. */
  lemma NumbersDecide(x: bytes, y: bytes, a: bytes, b: bytes)
    requires |x| > 0 && |y| > 0 && AllDigits(x) && AllDigits(y)
    requires (|a| > 0 ==> !(0x30 <= a[0] <= 0x39)) && (|b| > 0 ==> !(0x30 <= b[0] <= 0x39))
    ensures NaturalSpec(x + a, y + b) ==
            if Value(x) < Value(y) then -1 else if Value(x) > Value(y) then 1 else NaturalSpec(a, b)
  {
    RunOfConcat(x, a);
    RunOfConcat(y, b);
    NumberStep(x + a, y + b);
    assert (x + a)[..|x|] == x && (x + a)[|x|..] == a;
    assert (y + b)[..|y|] == y && (y + b)[|y|..] == b;
    DigitRunsByValue(x, y);
  }

  /** Otherwise the first bytes decide, letters without regard to case first. */
  lemma BytesDecide(c: byte, d: byte, a: bytes, b: bytes)
    requires !(0x30 <= c <= 0x39 && 0x30 <= d <= 0x39)
    ensures var lc := if 0x41 <= c <= 0x5A then c + 32 else c;
            var ld := if 0x41 <= d <= 0x5A then d + 32 else d;
            NaturalSpec([c] + a, [d] + b) ==
            if c == d then NaturalSpec(a, b)
            else if lc < ld then -1 else if lc > ld then 1 else if c < d then -1 else 1
  {
    ByteStep([c] + a, [d] + b);
    assert ([c] + a)[1..] == a && ([d] + b)[1..] == b;
  }

  // ---------------------------------------------------------------------
  // SortFileInfos
  // ---------------------------------------------------------------------

  datatype FileInfo = FileInfo(name: bytes, size: int, modified: int, isDir: bool)
  datatype SortKey = ByName | BySize | ByModified
  datatype SortOptions = SortOptions(key: SortKey, asc: bool)

  /** The comparator SortFileInfos hands to slices.SortFunc, with NaturalCompare
      replaced by the function it is proved to compute. */
  function CompareInfos(opt: SortOptions, a: FileInfo, b: FileInfo): int {
    if a.isDir != b.isDir then (if a.isDir then -1 else 1)
    else
      var r :=
        match opt.key
        case BySize => Sign(a.size - b.size)
        case ByModified => Sign(a.modified - b.modified)
        case ByName => NaturalSpec(a.name, b.name);
      var r' := if r == 0 then NaturalSpec(a.name, b.name) else r;
      if opt.asc then r' else -r'
  }

  /** For every key and direction the comparator is a strict weak order, which is
      what slices.SortFunc demands, and directories precede files. */
  lemma ListingStrictWeakOrder(opt: SortOptions, a: FileInfo, b: FileInfo, c: FileInfo)
    ensures CompareInfos(opt, a, b) == -CompareInfos(opt, b, a)
    ensures CompareInfos(opt, a, b) <= 0 && CompareInfos(opt, b, c) <= 0 ==> CompareInfos(opt, a, c) <= 0
    ensures CompareInfos(opt, a, b) < 0 && CompareInfos(opt, b, c) <= 0 ==> CompareInfos(opt, a, c) < 0
    ensures CompareInfos(opt, a, b) <= 0 && CompareInfos(opt, b, c) < 0 ==> CompareInfos(opt, a, c) < 0
    ensures a.isDir && !b.isDir ==> CompareInfos(opt, a, b) < 0
  {
    NaturalTotalPreorder(a.name, b.name, c.name);
    NaturalTotalPreorder(c.name, b.name, a.name);
    NaturalTotalPreorder(a.name, c.name, b.name);
  }

  /** Among files, or among directories, the key decides, then the natural order of
      the names; descending turns the answer round. */
  lemma KeysDecide(key: SortKey, a: FileInfo, b: FileInfo)
    requires a.isDir == b.isDir
    ensures var up := CompareInfos(SortOptions(key, true), a, b);
            CompareInfos(SortOptions(key, false), a, b) == -up &&
            (key == BySize && a.size < b.size ==> up < 0) &&
            (key == BySize && a.size > b.size ==> up > 0) &&
            (key == ByModified && a.modified < b.modified ==> up < 0) &&
            (key == ByModified && a.modified > b.modified ==> up > 0) &&
            (key == ByName || (key == BySize && a.size == b.size) || (key == ByModified && a.modified == b.modified) ==>
              up == NaturalSpec(a.name, b.name))
  {}

  ghost predicate SortedBy(opt: SortOptions, s: seq<FileInfo>) {
    forall i, j :: 0 <= i < j < |s| ==> CompareInfos(opt, s[i], s[j]) <= 0
  }

  /** How many items sort strictly before x. */
  ghost function CountBefore(opt: SortOptions, s: seq<FileInfo>, x: FileInfo): nat {
    if |s| == 0 then 0
    else (if CompareInfos(opt, s[0], x) < 0 then 1 else 0) + CountBefore(opt, s[1..], x)
  }

  lemma {:induction false} CountBeforeConcat(opt: SortOptions, s: seq<FileInfo>, t: seq<FileInfo>, x: FileInfo)
    ensures CountBefore(opt, s + t, x) == CountBefore(opt, s, x) + CountBefore(opt, t, x)
  {
    if |s| == 0 {
      assert s + t == t;
    } else {
      CountBeforeConcat(opt, s[1..], t, x);
      assert (s + t)[1..] == s[1..] + t;
    }
  }

  lemma RemoveAt(s: seq<FileInfo>, t: seq<FileInfo>) returns (k: nat)
    requires |s| > 0 && multiset(s) == multiset(t)
    ensures k < |t| && t[k] == s[0]
    ensures t == t[..k] + ([t[k]] + t[k + 1..])
    ensures multiset(s[1..]) == multiset(t[..k] + t[k + 1..])
  {
    assert s[0] in multiset(t);
    k :| 0 <= k < |t| && t[k] == s[0];
    assert t == t[..k] + ([t[k]] + t[k + 1..]);
    assert s == [s[0]] + s[1..];
    assert multiset(s[1..]) == multiset(s) - multiset{s[0]};
    assert multiset(t[..k] + t[k + 1..]) == multiset(t) - multiset{t[k]};
  }

  lemma {:induction false} CountBeforePermutation(opt: SortOptions, s: seq<FileInfo>, t: seq<FileInfo>, x: FileInfo)
    requires multiset(s) == multiset(t)
    ensures CountBefore(opt, s, x) == CountBefore(opt, t, x)
  {
    if |s| == 0 {
      assert |multiset(t)| == 0;
    } else {
      var k := RemoveAt(s, t);
      var u, v := t[..k], t[k + 1..];
      CountBeforePermutation(opt, s[1..], u + v, x);
      CountBeforeConcat(opt, u, [t[k]] + v, x);
      CountBeforeConcat(opt, u, v, x);
      assert ([t[k]] + v)[1..] == v;
    }
  }

  lemma {:induction false} CountBeforeBounds(opt: SortOptions, s: seq<FileInfo>, x: FileInfo, i: nat)
    requires SortedBy(opt, s) && i < |s|
    ensures CompareInfos(opt, s[i], x) < 0 ==> CountBefore(opt, s, x) > i
    ensures CompareInfos(opt, s[i], x) >= 0 ==> CountBefore(opt, s, x) <= i
  {
    ListingStrictWeakOrder(opt, s[0], s[i], x);
    if i > 0 {
      CountBeforeBounds(opt, s[1..], x, i - 1);
    } else if CompareInfos(opt, s[0], x) >= 0 {
      NoneBefore(opt, s, x);
    }
  }

  lemma {:induction false} NoneBefore(opt: SortOptions, s: seq<FileInfo>, x: FileInfo)
    requires SortedBy(opt, s) && (|s| > 0 ==> CompareInfos(opt, s[0], x) >= 0)
    ensures CountBefore(opt, s, x) == 0
  {
    if |s| > 1 {
      ListingStrictWeakOrder(opt, s[0], s[1], x);
      NoneBefore(opt, s[1..], x);
    }
  }

  /** The order of a listing is determined: two arrangements of the same items
      sorted by the comparator tie at every position, whatever algorithm sorted
      them, and no file stands before a directory. */
  lemma ListingDetermined(opt: SortOptions, s: seq<FileInfo>, t: seq<FileInfo>, i: nat)
    requires SortedBy(opt, s) && SortedBy(opt, t) && multiset(s) == multiset(t) && i < |s|
    ensures |t| == |s| && CompareInfos(opt, s[i], t[i]) == 0 && s[i].isDir == t[i].isDir
    ensures forall j :: 0 <= j < |s| && s[j].isDir && !s[i].isDir ==> j < i
  {
    assert |s| == |multiset(s)| == |multiset(t)| == |t|;
    var x, y := s[i], t[i];
    ListingStrictWeakOrder(opt, x, x, y);
    ListingStrictWeakOrder(opt, x, y, y);
    ListingStrictWeakOrder(opt, y, y, y);
    CountBeforePermutation(opt, s, t, x);
    CountBeforePermutation(opt, s, t, y);
    CountBeforeBounds(opt, s, x, i);
    CountBeforeBounds(opt, t, x, i);
    CountBeforeBounds(opt, s, y, i);
    CountBeforeBounds(opt, t, y, i);
    forall j | 0 <= j < |s| && s[j].isDir && !s[i].isDir
      ensures j < i
    {
      ListingStrictWeakOrder(opt, s[j], s[i], s[j]);
    }
  }

  /** In a sorted listing all directories come first, and along the directories and
      along the files the key runs in the direction asked for. */
  lemma ListingSorted(opt: SortOptions, s: seq<FileInfo>, i: nat, j: nat)
    requires SortedBy(opt, s) && i < j < |s|
    ensures s[j].isDir ==> s[i].isDir
    ensures s[i].isDir == s[j].isDir ==>
              var (a, b) := if opt.asc then (s[i], s[j]) else (s[j], s[i]);
              (opt.key == BySize ==> a.size <= b.size) && (opt.key == ByModified ==> a.modified <= b.modified) &&
              (opt.key == ByName ==> NaturalSpec(a.name, b.name) <= 0)
  {
    var a, b := s[i], s[j];
    ListingStrictWeakOrder(opt, b, a, b);
    if a.isDir == b.isDir {
      KeysDecide(opt.key, a, b);
      NaturalTotalPreorder(a.name, b.name, a.name);
    }
  }
}
