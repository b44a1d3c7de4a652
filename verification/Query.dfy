/** Query strings: application/x-www-form-urlencoded, section 5 of the WHATWG URL Standard, as
    Python's `parse_qsl` and `urlencode` read and print it. */
module Query {
  import opened Text
  import U = Utf8

  type Pair = (string, string)

  // ---------------------------------------------------------------- percent coding

  predicate IsUnreserved(n: nat) {
    || 'a' as int <= n <= 'z' as int || 'A' as int <= n <= 'Z' as int || '0' as int <= n <= '9' as int
    || n == '_' as int || n == '.' as int || n == '-' as int || n == '~' as int
  }

  function HexDigit(n: nat): char
    requires n < 16
  {
    if n < 10 then '0' + n as char else 'A' + (n - 10) as char
  }

  function HexValue(c: char): Option<nat> {
    if '0' <= c <= '9' then Some(c as nat - '0' as nat)
    else if 'A' <= c <= 'F' then Some(c as nat - 'A' as nat + 10)
    else if 'a' <= c <= 'f' then Some(c as nat - 'a' as nat + 10)
    else None
  }

  function QuoteByte(b: U.byte): string {
    if IsUnreserved(b) then [b as char]
    else if b == 0x20 then "+"
    else ['%', HexDigit(b / 16), HexDigit(b % 16)]
  }

  function QuoteBytes(bs: seq<U.byte>): string {
    if bs == [] then "" else QuoteByte(bs[0]) + QuoteBytes(bs[1..])
  }

  /** `quote_plus(s)` */
  function QuotePlus(s: string): string {
    QuoteBytes(U.Encode(s))
  }

  function PlusToSpace(s: string): (r: string)
    ensures |r| == |s|
  {
    seq(|s|, i requires 0 <= i < |s| => if s[i] == '+' then ' ' else s[i])
  }

  predicate IsAscii(c: char) {
    c as int < 0x80
  }

  predicate AllAscii(s: string) {
    forall i :: 0 <= i < |s| ==> IsAscii(s[i])
  }

  /** The byte that three characters `%XY` stand for. */
  function Escaped(s: string): Option<U.byte> {
    if |s| >= 3 && s[0] == '%' && HexValue(s[1]).Some? && HexValue(s[2]).Some?
    then
      var b := HexValue(s[1]).value * 16 + HexValue(s[2]).value;
      if b < 256 then Some(b) else None
    else None
  }

  /** `unquote_to_bytes` on ASCII text. */
  function UnquoteToBytes(s: string): seq<U.byte>
    requires AllAscii(s)
  {
    if s == "" then []
    else if Escaped(s).Some? then [Escaped(s).value] + UnquoteToBytes(s[3..])
    else [s[0] as nat] + UnquoteToBytes(s[1..])
  }

  function AsciiRun(s: string): (k: nat)
    ensures k <= |s| && forall i :: 0 <= i < k ==> IsAscii(s[i])
    ensures s != "" && IsAscii(s[0]) ==> k > 0
  {
    if s != "" && IsAscii(s[0]) then
      var k := AsciiRun(s[1..]);
      assert forall i :: 0 < i < k + 1 ==> s[i] == s[1..][i - 1];
      k + 1
    else 0
  }

  /** Each ASCII run is decoded, everything else is kept. */
  function UnquoteRuns(s: string): string {
    if s == "" then ""
    else
      var k := AsciiRun(s);
      if k == 0 then [s[0]] + UnquoteRuns(s[1..])
      else U.Decode(UnquoteToBytes(s[..k])) + UnquoteRuns(s[k..])
  }

  function Unquote(s: string): string {
    if '%' !in s then s else UnquoteRuns(s)
  }

  /** `unquote_plus(s)` */
  function UnquotePlus(s: string): string {
    Unquote(PlusToSpace(s))
  }

  // ---------------------------------------------------------------- quoting round trip

  /** The characters that quoted text is made of. */
  predicate IsQuotedChar(c: char) {
    IsAscii(c) && (IsUnreserved(c as int) || c == '+' || c == '%')
  }

  predicate AllQuoted(s: string) {
    forall i :: 0 <= i < |s| ==> IsQuotedChar(s[i])
  }

  lemma {:induction false} QuotedCharsOnly(bs: seq<U.byte>)
    ensures AllQuoted(QuoteBytes(bs))
  {
    if bs != [] { QuotedCharsOnly(bs[1..]); }
  }

  lemma PlusToSpaceConcat(a: string, b: string)
    ensures PlusToSpace(a + b) == PlusToSpace(a) + PlusToSpace(b)
  {
  }

  lemma HexRoundTrip(b: U.byte)
    ensures HexValue(HexDigit(b / 16)) == Some(b / 16) && HexValue(HexDigit(b % 16)) == Some(b % 16)
    ensures HexDigit(b / 16) != '+' && HexDigit(b % 16) != '+'
    ensures IsAscii(HexDigit(b / 16)) && IsAscii(HexDigit(b % 16))
  {
  }

  lemma UnquoteOneByte(b: U.byte, rest: string)
    requires AllAscii(rest)
    ensures AllAscii(PlusToSpace(QuoteByte(b)) + rest)
    ensures UnquoteToBytes(PlusToSpace(QuoteByte(b)) + rest) == [b] + UnquoteToBytes(rest)
  {
    HexRoundTrip(b);
    var q := PlusToSpace(QuoteByte(b));
    var s := q + rest;
    if IsUnreserved(b) || b == 0x20 {
      assert |q| == 1 && s[0] == q[0] && s[1..] == rest;
    } else {
      assert q == QuoteByte(b) && s[3..] == rest;
      assert s[0] == '%' && s[1] == HexDigit(b / 16) && s[2] == HexDigit(b % 16);
    }
  }

  lemma {:induction false} UnquoteUndoesQuote(bs: seq<U.byte>)
    ensures AllAscii(PlusToSpace(QuoteBytes(bs)))
    ensures UnquoteToBytes(PlusToSpace(QuoteBytes(bs))) == bs
  {
    if bs != [] {
      var rest := PlusToSpace(QuoteBytes(bs[1..]));
      UnquoteUndoesQuote(bs[1..]);
      PlusToSpaceConcat(QuoteByte(bs[0]), QuoteBytes(bs[1..]));
      assert PlusToSpace(QuoteBytes(bs)) == PlusToSpace(QuoteByte(bs[0])) + rest;
      UnquoteOneByte(bs[0], rest);
      assert bs == [bs[0]] + bs[1..];
    }
  }

  lemma {:induction false} PlainTextIsItsBytes(s: string)
    requires AllAscii(s) && '%' !in s
    ensures UnquoteToBytes(s) == U.Encode(s)
  {
    if s != "" { PlainTextIsItsBytes(s[1..]); }
  }

  lemma {:induction false} AsciiRunOfAll(s: string)
    requires AllAscii(s)
    ensures AsciiRun(s) == |s|
  {
    if s != "" { AsciiRunOfAll(s[1..]); }
  }

  lemma UnquoteOfAscii(x: string)
    requires AllAscii(x)
    ensures Unquote(x) == U.Decode(UnquoteToBytes(x))
  {
    if '%' !in x {
      PlainTextIsItsBytes(x);
      U.DecodeUndoesEncode(x);
    } else {
      AsciiRunOfAll(x);
      var head, tail := x[..|x|], x[|x|..];
      assert head == x && tail == "";
      assert x != "" && UnquoteRuns(x) == U.Decode(UnquoteToBytes(head)) + UnquoteRuns(tail);
      EmptyIsUnit(U.Decode(UnquoteToBytes(x)));
    }
  }

  /** Reading back quoted text gives the text. */
  lemma QuoteRoundTrip(s: string)
    ensures UnquotePlus(QuotePlus(s)) == s
  {
    UnquoteUndoesQuote(U.Encode(s));
    UnquoteOfAscii(PlusToSpace(QuotePlus(s)));
    U.DecodeUndoesEncode(s);
  }

  lemma {:induction false} AsciiRunBefore(x: string, c: char, y: string)
    requires AllAscii(x) && !IsAscii(c)
    ensures AsciiRun(x + [c] + y) == |x|
  {
    var s := x + [c] + y;
    if x == "" {
      assert s[0] == c;
    } else {
      assert s[0] == x[0] && s[1..] == x[1..] + [c] + y;
      AsciiRunBefore(x[1..], c, y);
    }
  }

  /** Text with other characters is decoded stretch by stretch: the ASCII before such a character, the
      character itself as it is, and the rest. */
  lemma UnquoteAroundOthers(x: string, c: char, y: string)
    requires AllAscii(x) && !IsAscii(c)
    ensures UnquoteRuns(x + [c] + y) == U.Decode(UnquoteToBytes(x)) + [c] + UnquoteRuns(y)
    ensures '%' in x + [c] + y ==> Unquote(x + [c] + y) == UnquoteRuns(x + [c] + y)
    ensures '%' !in x + [c] + y ==> Unquote(x + [c] + y) == x + [c] + y
  {
    var s := x + [c] + y;
    AsciiRunBefore(x, c, y);
    assert s[|x|..] == [c] + y && s[..|x|] == x;
    assert UnquoteRuns([c] + y) == [c] + UnquoteRuns(y) by { assert ([c] + y)[1..] == y && AsciiRun([c] + y) == 0; }
    if x == "" { EmptyIsUnit(s); }
    ConcatAssociates(U.Decode(UnquoteToBytes(x)), [c], UnquoteRuns(y));
  }

  // ---------------------------------------------------------------- pairs

  /** Where the first character of `stops` stands, or the end. */
  function Cut(s: string, stops: set<char>): (k: nat)
    ensures k <= |s| && (k < |s| ==> s[k] in stops) && forall i :: 0 <= i < k ==> s[i] !in stops
  {
    if s == "" || s[0] in stops then 0
    else
      var k := Cut(s[1..], stops);
      assert forall i :: 0 < i < k + 1 ==> s[i] == s[1..][i - 1];
      k + 1
  }

  function After(s: string, k: nat): (r: string)
    ensures s != "" ==> |r| < |s|
  {
    if k < |s| then s[k + 1..] else ""
  }

  predicate Avoids(s: string, stops: set<char>) {
    forall i :: 0 <= i < |s| ==> s[i] !in stops
  }

  /** A stop right after text without one is where the cut falls. */
  lemma CutAt(a: string, b: string, stops: set<char>)
    requires Avoids(a, stops) && (b == "" || b[0] in stops)
    ensures Cut(a + b, stops) == |a| && (a + b)[..|a|] == a && (a + b)[|a|..] == b
    ensures After(a + b, |a|) == if b == "" then "" else b[1..]
  {
    assert forall i :: 0 <= i < |a| ==> (a + b)[i] == a[i];
    assert b != "" ==> (a + b)[|a|] == b[0];
  }

  lemma CutInFirst(a: string, b: string, stops: set<char>)
    requires Cut(a, stops) < |a|
    ensures Cut(a + b, stops) == Cut(a, stops)
    ensures (a + b)[Cut(a, stops) + 1..] == a[Cut(a, stops) + 1..] + b
  {
    assert forall i :: 0 <= i < |a| ==> (a + b)[i] == a[i];
  }

  function PairOf(piece: string): Pair {
    var e := Cut(piece, {'='});
    (UnquotePlus(piece[..e]), UnquotePlus(After(piece, e)))
  }

  /** `parse_qsl(s, keep_blank_values=True)` */
  function ParseQsl(s: string): seq<Pair>
    decreases |s|
  {
    if s == "" then []
    else
      var k := Cut(s, {'&'});
      (if k > 0 then [PairOf(s[..k])] else []) + ParseQsl(After(s, k))
  }

  function PrintPair(p: Pair): string {
    QuotePlus(p.0) + ("=" + QuotePlus(p.1))
  }

  /** `urlencode(pairs)` */
  function UrlEncode(ps: seq<Pair>): string {
    if ps == [] then ""
    else if |ps| == 1 then PrintPair(ps[0])
    else PrintPair(ps[0]) + ("&" + UrlEncode(ps[1..]))
  }

  predicate IsQueryChar(c: char) {
    IsQuotedChar(c) || c == '=' || c == '&'
  }

  lemma PrintedPairChars(p: Pair)
    ensures PrintPair(p) != "" && Avoids(PrintPair(p), {'&'})
    ensures forall i :: 0 <= i < |PrintPair(p)| ==> IsQueryChar(PrintPair(p)[i])
  {
    QuotedCharsOnly(U.Encode(p.0));
    QuotedCharsOnly(U.Encode(p.1));
  }

  /** A name ends at the first equals sign. */
  lemma PairOfPieces(x: string, y: string)
    requires Avoids(x, {'='})
    ensures PairOf(x + ("=" + y)) == (UnquotePlus(x), UnquotePlus(y))
  {
    CutAt(x, "=" + y, {'='});
    assert ("=" + y)[1..] == y;
  }

  lemma PairRoundTrip(p: Pair)
    ensures PairOf(PrintPair(p)) == p
  {
    QuotedCharsOnly(U.Encode(p.0));
    PairOfPieces(QuotePlus(p.0), QuotePlus(p.1));
    QuoteRoundTrip(p.0);
    QuoteRoundTrip(p.1);
  }

  /** The first piece of a query is read, and then the rest. */
  lemma FirstPiece(a: string, rest: string)
    requires a != "" && Avoids(a, {'&'})
    ensures ParseQsl(a) == [PairOf(a)] && ParseQsl(a + ("&" + rest)) == [PairOf(a)] + ParseQsl(rest)
  {
    CutAt(a, "", {'&'});
    CutAt(a, "&" + rest, {'&'});
    EmptyIsUnit(a);
    assert ("&" + rest)[1..] == rest;
  }

  lemma {:induction false} EncodedCharsOnly(ps: seq<Pair>)
    ensures UrlEncode(ps) == "" <==> ps == []
    ensures forall i :: 0 <= i < |UrlEncode(ps)| ==> IsQueryChar(UrlEncode(ps)[i])
  {
    if ps != [] {
      PrintedPairChars(ps[0]);
      EncodedCharsOnly(ps[1..]);
    }
  }

  /** The parser undoes the printer. */
  lemma {:induction false} QueryRoundTrip(ps: seq<Pair>)
    ensures ParseQsl(UrlEncode(ps)) == ps
  {
    if ps != [] {
      var first, rest := PrintPair(ps[0]), UrlEncode(ps[1..]);
      PrintedPairChars(ps[0]);
      PairRoundTrip(ps[0]);
      QueryRoundTrip(ps[1..]);
      FirstPiece(first, rest);
      if |ps| == 1 {
        assert ps == [ps[0]] && UrlEncode(ps) == first;
      } else {
        assert UrlEncode(ps) == first + ("&" + rest);
        assert ps == [ps[0]] + ps[1..];
      }
    }
  }

  // ---------------------------------------------------------------- order

  predicate StringLeq(a: string, b: string) {
    a == b || StringLess(a, b)
  }

  /** Tuple order. */
  predicate PairLeq(p: Pair, q: Pair) {
    StringLess(p.0, q.0) || (p.0 == q.0 && StringLeq(p.1, q.1))
  }

  lemma {:induction false} StringsAreOrdered(a: string, b: string)
    ensures StringLess(a, b) || a == b || StringLess(b, a)
    ensures !(StringLess(a, b) && StringLess(b, a)) && !StringLess(a, a)
  {
    if a != "" && b != "" {
      StringsAreOrdered(a[1..], b[1..]);
      assert a == [a[0]] + a[1..] && b == [b[0]] + b[1..];
    }
    if a != "" { NotLessThanItself(a); }
  }

  lemma {:induction false} NotLessThanItself(a: string)
    ensures !StringLess(a, a)
  {
    if a != "" { NotLessThanItself(a[1..]); }
  }

  lemma {:induction false} StringLessIsTransitive(a: string, b: string, c: string)
    requires StringLess(a, b) && StringLess(b, c)
    ensures StringLess(a, c)
  {
    if a != "" && b[0] == a[0] && c[0] == b[0] { StringLessIsTransitive(a[1..], b[1..], c[1..]); }
  }

  function Insert(p: Pair, ps: seq<Pair>): seq<Pair> {
    if ps == [] then [p]
    else if PairLeq(p, ps[0]) then [p] + ps
    else [ps[0]] + Insert(p, ps[1..])
  }

  function Sorted(ps: seq<Pair>): seq<Pair> {
    if ps == [] then [] else Insert(ps[0], Sorted(ps[1..]))
  }

  predicate InOrder(ps: seq<Pair>) {
    forall i, j :: 0 <= i < j < |ps| ==> PairLeq(ps[i], ps[j])
  }

  lemma PairsAreOrdered(p: Pair, q: Pair, r: Pair)
    ensures PairLeq(p, q) || PairLeq(q, p)
    ensures PairLeq(p, q) && PairLeq(q, p) ==> p == q
    ensures PairLeq(p, q) && PairLeq(q, r) ==> PairLeq(p, r)
  {
    StringsAreOrdered(p.0, q.0);
    StringsAreOrdered(p.1, q.1);
    if StringLess(p.0, q.0) && StringLess(q.0, r.0) { StringLessIsTransitive(p.0, q.0, r.0); }
    if StringLess(p.1, q.1) && StringLess(q.1, r.1) { StringLessIsTransitive(p.1, q.1, r.1); }
  }

  lemma {:induction false} InsertKeepsPairs(p: Pair, ps: seq<Pair>)
    ensures multiset(Insert(p, ps)) == multiset(ps) + multiset{p}
  {
    if ps != [] {
      InsertKeepsPairs(p, ps[1..]);
      assert ps == [ps[0]] + ps[1..];
    }
  }

  lemma InsertAdds(p: Pair, ps: seq<Pair>, q: Pair)
    ensures q in Insert(p, ps) <==> q == p || q in ps
  {
    InsertKeepsPairs(p, ps);
    assert q in multiset(Insert(p, ps)) <==> q in multiset(ps) + multiset{p};
  }

  lemma {:induction false} InsertKeepsOrder(p: Pair, ps: seq<Pair>)
    requires InOrder(ps)
    ensures InOrder(Insert(p, ps))
  {
    if ps != [] {
      PairsAreOrdered(p, ps[0], ps[0]);
      if PairLeq(p, ps[0]) {
        forall j | 0 <= j < |ps| ensures PairLeq(p, ps[j]) { PairsAreOrdered(p, ps[0], ps[j]); }
      } else {
        InsertKeepsOrder(p, ps[1..]);
        var rest := Insert(p, ps[1..]);
        forall j | 0 <= j < |rest| ensures PairLeq(ps[0], rest[j]) {
          InsertAdds(p, ps[1..], rest[j]);
        }
      }
    }
  }

  lemma {:induction false} SortedSorts(ps: seq<Pair>)
    ensures InOrder(Sorted(ps)) && multiset(Sorted(ps)) == multiset(ps)
  {
    if ps != [] {
      SortedSorts(ps[1..]);
      InsertKeepsOrder(ps[0], Sorted(ps[1..]));
      InsertKeepsPairs(ps[0], Sorted(ps[1..]));
      assert ps == [ps[0]] + ps[1..];
    }
  }

  lemma SamePairs(a: seq<Pair>, b: seq<Pair>, p: Pair)
    requires multiset(a) == multiset(b)
    ensures |a| == |b| && (p in a <==> p in b)
  {
    assert |multiset(a)| == |a| && |multiset(b)| == |b|;
    assert p in multiset(a) <==> p in multiset(b);
  }

  lemma TailPairs(a: seq<Pair>, b: seq<Pair>)
    requires multiset(a) == multiset(b) && a != [] && b != [] && a[0] == b[0]
    ensures multiset(a[1..]) == multiset(b[1..])
  {
    assert a == [a[0]] + a[1..] && b == [b[0]] + b[1..];
    assert multiset(a[1..]) == multiset(a) - multiset{a[0]};
    assert multiset(b[1..]) == multiset(b) - multiset{b[0]};
  }

  lemma {:induction false} OneOrder(a: seq<Pair>, b: seq<Pair>)
    requires InOrder(a) && InOrder(b) && multiset(a) == multiset(b)
    ensures a == b
  {
    SamePairs(a, b, ("", ""));
    if a != [] {
      SamePairs(a, b, a[0]);
      SamePairs(a, b, b[0]);
      HeadIsLeast(a, b[0]);
      HeadIsLeast(b, a[0]);
      PairsAreOrdered(a[0], b[0], b[0]);
      TailPairs(a, b);
      OneOrder(a[1..], b[1..]);
      assert a == [a[0]] + a[1..] && b == [b[0]] + b[1..];
    }
  }

  lemma HeadIsLeast(ps: seq<Pair>, p: Pair)
    requires InOrder(ps) && p in ps
    ensures PairLeq(ps[0], p)
  {
    PairsAreOrdered(p, p, p);
  }

  /** Sorting forgets exactly the order: two lists sort alike when they hold the same pairs as often. */
  lemma SortForgetsOrder(a: seq<Pair>, b: seq<Pair>)
    ensures Sorted(a) == Sorted(b) <==> multiset(a) == multiset(b)
  {
    SortedSorts(a);
    SortedSorts(b);
    if multiset(a) == multiset(b) { OneOrder(Sorted(a), Sorted(b)); }
  }

  // ---------------------------------------------------------------- filtering

  function Kept(ps: seq<Pair>, tracking: string -> bool): seq<Pair> {
    if ps == [] then []
    else (if tracking(ps[0].0) then [] else [ps[0]]) + Kept(ps[1..], tracking)
  }

  lemma {:induction false} KeptAreNotTracking(ps: seq<Pair>, tracking: string -> bool)
    ensures forall p :: p in Kept(ps, tracking) ==> !tracking(p.0)
  {
    if ps != [] { KeptAreNotTracking(ps[1..], tracking); }
  }

  lemma {:induction false} KeepingAll(ps: seq<Pair>, tracking: string -> bool)
    requires forall p :: p in ps ==> !tracking(p.0)
    ensures Kept(ps, tracking) == ps
  {
    if ps != [] { KeepingAll(ps[1..], tracking); }
  }

  /** The query of the canonical form. */
  function CanonicalQuery(query: string, tracking: string -> bool): string {
    UrlEncode(Sorted(Kept(ParseQsl(query), tracking)))
  }

  lemma CanonicalQueryIsStable(query: string, tracking: string -> bool)
    ensures CanonicalQuery(CanonicalQuery(query, tracking), tracking) == CanonicalQuery(query, tracking)
  {
    var kept := Kept(ParseQsl(query), tracking);
    QueryRoundTrip(Sorted(kept));
    SortedSorts(kept);
    KeptAreNotTracking(ParseQsl(query), tracking);
    forall p | p in Sorted(kept) ensures !tracking(p.0) {
      assert p in multiset(Sorted(kept));
    }
    KeepingAll(Sorted(kept), tracking);
    SortForgetsOrder(Sorted(kept), kept);
  }

  /** Canonical queries are equal exactly when the same pairs are left, as often, in any order. */
  lemma CanonicalQueriesCompare(q1: string, q2: string, tracking: string -> bool)
    ensures CanonicalQuery(q1, tracking) == CanonicalQuery(q2, tracking)
            <==> multiset(Kept(ParseQsl(q1), tracking)) == multiset(Kept(ParseQsl(q2), tracking))
  {
    var a, b := Kept(ParseQsl(q1), tracking), Kept(ParseQsl(q2), tracking);
    QueryRoundTrip(Sorted(a));
    QueryRoundTrip(Sorted(b));
    SortForgetsOrder(a, b);
  }
}
