/** What the reading of URLs does to single characters: letter case, the characters of schemes and of
    addresses, slashes at the end of a path, white space and line breaks in the text. */
module UrlText {
  import opened Text
  import opened Query
  import opened Urls

  const UPPER := "ABCDEFGHIJKLMNOPQRSTUVWXYZ"
  const LOWER := "abcdefghijklmnopqrstuvwxyz"
  const DIGITS := "0123456789"

  // ---------------------------------------------------------------- letter case

  lemma LettersAreInOrder(k: nat)
    requires k < 26
    ensures UPPER[k] == 'A' + k as char && LOWER[k] == 'a' + k as char
  {
  }

  predicate IsPair(c: char, d: char, k: nat) {
    k < 26 && c == UPPER[k] && d == LOWER[k]
  }

  ghost predicate SameLetter(c: char, d: char) {
    c == d || exists k: nat :: IsPair(c, d, k) || IsPair(d, c, k)
  }

  ghost predicate SameLetters(a: string, b: string) {
    |a| == |b| && forall i :: 0 <= i < |a| ==> SameLetter(a[i], b[i])
  }

  lemma UpperIff(c: char)
    ensures c in UPPER <==> 'A' <= c <= 'Z'
  {
    if c in UPPER {
      var k :| 0 <= k < |UPPER| && UPPER[k] == c;
      LettersAreInOrder(k);
    }
    if 'A' <= c <= 'Z' { LettersAreInOrder(c as nat - 'A' as nat); }
  }

  lemma SmallIff(c: char)
    ensures c in LOWER <==> 'a' <= c <= 'z'
  {
    if c in LOWER {
      var k :| 0 <= k < |LOWER| && LOWER[k] == c;
      LettersAreInOrder(k);
    }
    if 'a' <= c <= 'z' { LettersAreInOrder(c as nat - 'a' as nat); }
  }

  lemma PairOfUpper(c: char)
    requires 'A' <= c <= 'Z'
    ensures IsPair(c, LowerChar(c), c as nat - 'A' as nat)
  {
    LettersAreInOrder(c as nat - 'A' as nat);
  }

  lemma LowerCharIsTheSame(c: char)
    ensures SameLetter(c, LowerChar(c)) && LowerChar(c) !in UPPER
  {
    UpperIff(c);
    UpperIff(LowerChar(c));
    if 'A' <= c <= 'Z' { PairOfUpper(c); }
  }

  lemma SameLetterIff(c: char, d: char)
    ensures SameLetter(c, d) <==> LowerChar(c) == LowerChar(d)
  {
    if k: nat :| IsPair(c, d, k) || IsPair(d, c, k) { LettersAreInOrder(k); }
    if 'A' <= c <= 'Z' && LowerChar(c) == d { PairOfUpper(c); }
    if 'A' <= d <= 'Z' && LowerChar(d) == c { PairOfUpper(d); }
  }

  /** Lower-casing gives the same letters, none a capital. */
  lemma LowerIs(s: string)
    ensures SameLetters(s, Lower(s)) && forall i :: 0 <= i < |s| ==> Lower(s)[i] !in UPPER
  {
    forall i | 0 <= i < |s|
      ensures SameLetter(s[i], Lower(s)[i]) && Lower(s)[i] !in UPPER
    {
      LowerCharIsTheSame(s[i]);
    }
  }

  lemma LowerCompares(a: string, b: string)
    ensures Lower(a) == Lower(b) <==> SameLetters(a, b)
  {
    if |a| == |b| {
      forall i | 0 <= i < |a|
        ensures SameLetter(a[i], b[i]) <==> Lower(a)[i] == Lower(b)[i]
      {
        SameLetterIff(a[i], b[i]);
      }
    }
  }

  /** Two spellings that differ in scheme or host have one key exactly when they differ in letter case. */
  lemma KeyIgnoresCaseOnly(u: Url, v: Url, r: Rules)
    requires Typed(u, r) && Typed(v, r)
    requires v == u.(scheme := v.scheme, host := v.host)
    ensures Canonicalize(Spell(u), r) == Canonicalize(Spell(v), r)
            <==> SameLetters(u.scheme, v.scheme) && SameLetters(u.host, v.host)
  {
    SpelledKeysCompare(u, v, r);
    LowerCompares(u.scheme, v.scheme);
    LowerCompares(u.host, v.host);
  }

  /** An entry that ends in a star stands for the names that begin like it, any other for itself, in any
      letter case. */
  lemma TrackingIff(name: string, blocklist: seq<string>)
    ensures IsTrackingParam(name, blocklist)
            <==> exists k :: 0 <= k < |blocklist| && Blocks(blocklist[k], name)
  {
    forall k | 0 <= k < |blocklist|
      ensures MatchesEntry(name, blocklist[k]) <==> Blocks(blocklist[k], name)
    {
      EntryIff(name, blocklist[k]);
    }
  }

  ghost predicate Blocks(entry: string, name: string) {
    var stem := |entry| - 1;
    if stem >= 0 && entry[stem] == '*' then stem <= |name| && SameLetters(entry[..stem], name[..stem])
    else SameLetters(entry, name)
  }

  lemma EntryIff(name: string, entry: string)
    ensures MatchesEntry(name, entry) <==> Blocks(entry, name)
  {
    LowerCompares(entry, name);
    var stem := |entry| - 1;
    if stem >= 0 { StemIff(name, entry[..stem]); }
  }

  lemma StemIff(name: string, stem: string)
    ensures Lower(stem) <= Lower(name) <==> |stem| <= |name| && SameLetters(stem, name[..|stem|])
  {
    if |stem| <= |name| {
      LowerCompares(stem, name[..|stem|]);
      assert Lower(name)[..|stem|] == Lower(name[..|stem|]);
    }
  }

  // ---------------------------------------------------------------- schemes and addresses

  lemma SchemeOkIff(s: string)
    ensures SchemeOk(s) <==>
            s == "" || ((s[0] in UPPER || s[0] in LOWER)
                        && forall i :: 0 <= i < |s| ==> s[i] in UPPER + LOWER + DIGITS + "+-.")
  {
    forall i | 0 <= i < |s|
      ensures IsAlpha(s[i]) <==> s[i] in UPPER || s[i] in LOWER
      ensures IsSchemeChar(s[i]) <==> s[i] in UPPER + LOWER + DIGITS + "+-."
    {
      UpperIff(s[i]);
      SmallIff(s[i]);
      DigitIff(s[i]);
    }
  }

  lemma DigitIff(c: char)
    ensures c in DIGITS <==> IsDigit(c)
  {
    if IsDigit(c) { assert DIGITS[c as nat - '0' as nat] == c; }
  }

  const HEX := "0123456789abcdef"
  const HEX_CAPITALS := "0123456789ABCDEF"

  lemma HexValueIs(k: nat)
    requires k < 16
    ensures HexValue(HEX[k]) == Some(k) && HexValue(HEX_CAPITALS[k]) == Some(k)
  {
  }

  lemma HexIff(c: char)
    ensures HexValue(c).Some? <==> c in HEX || c in HEX_CAPITALS
  {
    if HexValue(c).Some? {
      var k := HexValue(c).value;
      assert HEX[k] == c || HEX_CAPITALS[k] == c;
    }
    if c in HEX {
      var k :| 0 <= k < |HEX| && HEX[k] == c;
      HexValueIs(k);
    }
    if c in HEX_CAPITALS {
      var k :| 0 <= k < |HEX_CAPITALS| && HEX_CAPITALS[k] == c;
      HexValueIs(k);
    }
  }

  /** A `v`, hexadecimal digits up to `k`, a dot, and the rest of the line. */
  predicate IsFutureAt(h: string, k: nat) {
    && 2 <= k < |h| - 1 && h[0] == 'v' && h[k] == '.'
    && (forall i :: 1 <= i < k ==> h[i] in HEX || h[i] in HEX_CAPITALS)
    && (forall i :: k < i < |h| ==> h[i] != '\n')
  }

  lemma {:induction false} HexRunIs(h: string, i: nat)
    requires i <= |h|
    ensures var k := HexRun(h, i);
            && (forall j :: i <= j < k ==> h[j] in HEX || h[j] in HEX_CAPITALS)
            && (k < |h| ==> h[k] !in HEX && h[k] !in HEX_CAPITALS)
    decreases |h| - i
  {
    if i < |h| {
      HexIff(h[i]);
      if HexValue(h[i]).Some? { HexRunIs(h, i + 1); }
    }
  }

  lemma FutureAddressIff(h: string)
    ensures IsFutureAddress(h) <==> exists k: nat :: IsFutureAt(h, k)
  {
    if |h| >= 1 {
      var run := HexRun(h, 1);
      HexRunIs(h, 1);
      if k: nat :| IsFutureAt(h, k) {
        assert '.' !in HEX && '.' !in HEX_CAPITALS;
        assert run == k;
        assert Avoids(h[k + 1..], {'\n'});
      }
      if IsFutureAddress(h) {
        assert forall i :: run < i < |h| ==> h[i] == h[run + 1..][i - run - 1];
        assert IsFutureAt(h, run);
      }
    }
  }

  // ---------------------------------------------------------------- paths

  lemma {:induction false} OnlySlashesGo(p: string)
    ensures var q := RStripSlashes(p);
            && q <= p && (q != "" ==> q[|q| - 1] != '/')
            && forall i :: |q| <= i < |p| ==> p[i] == '/'
    decreases |p|
  {
    if p != "" && p[|p| - 1] == '/' { OnlySlashesGo(p[..|p| - 1]); }
  }

  /** The canonical path is the path without the slashes at its end, or one slash where nothing is left. */
  lemma CanonicalPathIs(p: string)
    requires PathOk(p)
    ensures var c := CanonicalPath(p);
            || (c == "/" && forall i :: 0 <= i < |p| ==> p[i] == '/')
            || (c != "" && c <= p && c[|c| - 1] != '/' && forall i :: |c| <= i < |p| ==> p[i] == '/')
  {
    CanonicalPathFacts(p);
    OnlySlashesGo(p);
  }

  // ---------------------------------------------------------------- white space and line breaks

  lemma {:induction false} LStripOfConcat(space: string, t: string)
    requires AllSpace(space) && t != "" && !IsSpace(t[0])
    ensures LStrip(space + t) == t
  {
    if space == "" {
      EmptyIsUnit(t);
    } else {
      assert (space + t)[1..] == space[1..] + t;
      LStripOfConcat(space[1..], t);
    }
  }

  lemma {:induction false} RStripOfSpace(t: string, space: string)
    requires AllSpace(space) && EndsVisible(t)
    ensures RStrip(t + space) == t
  {
    if space == "" {
      EmptyIsUnit(t);
    } else {
      assert (t + space)[..|t + space| - 1] == t + space[..|space| - 1];
      RStripOfSpace(t, space[..|space| - 1]);
    }
  }

  lemma StripOfPadded(before: string, t: string, after: string)
    requires AllSpace(before) && AllSpace(after) && Tight(t)
    ensures Strip(before + t + after) == t
  {
    ConcatAssociates(before, t, after);
    LStripOfConcat(before, t + after);
    RStripOfSpace(t, after);
  }

  lemma {:induction false} RemoveOfConcat(a: string, b: string)
    ensures RemoveUnsafe(a + b) == RemoveUnsafe(a) + RemoveUnsafe(b)
  {
    if a == "" {
      EmptyIsUnit(b);
      EmptyIsUnit(RemoveUnsafe(b));
    } else {
      assert (a + b)[1..] == a[1..] + b;
      RemoveOfConcat(a[1..], b);
      var first := if a[0] in UNSAFE then "" else [a[0]];
      ConcatAssociates(first, RemoveUnsafe(a[1..]), RemoveUnsafe(b));
    }
  }

  lemma RemoveInside(a: string, c: char, b: string)
    requires c in UNSAFE && Avoids(a, UNSAFE) && Avoids(b, UNSAFE)
    ensures RemoveUnsafe(a + [c] + b) == a + b
  {
    RemoveOfConcat(a + [c], b);
    RemoveOfConcat(a, [c]);
    NothingToRemove(a);
    NothingToRemove(b);
    assert RemoveUnsafe([c]) == "";
    EmptyIsUnit(a);
  }

  lemma CleanOfJunk(a: string, c: char, b: string, before: string, after: string)
    requires StartsVisible(a) && EndsVisible(b) && Avoids(a, UNSAFE) && Avoids(b, UNSAFE)
    requires c in UNSAFE && AllSpace(before) && AllSpace(after)
    ensures Clean(before + (a + [c] + b) + after) == a + b
  {
    var mixed := a + [c] + b;
    assert mixed[0] == a[0] && mixed[|mixed| - 1] == b[|b| - 1];
    StripOfPadded(before, mixed, after);
    RemoveInside(a, c, b);
  }

  lemma SpellingSplits(u: Url, k: nat, r: Rules)
    requires Typed(u, r) && 0 < k < |Spell(u)|
    ensures var a, b := Spell(u)[..k], Spell(u)[k..];
            && StartsVisible(a) && EndsVisible(b) && Avoids(a, UNSAFE) && Avoids(b, UNSAFE)
            && a + b == Spell(u) && Clean(Spell(u)) == Spell(u)
  {
    SpelledIsSafe(u);
    CleanKeeps(Spell(u));
  }

  /** White space around a URL, and a tab or line break inside it, change nothing. */
  lemma JunkIsIgnored(u: Url, k: nat, c: char, before: string, after: string, r: Rules)
    requires Typed(u, r) && 0 < k < |Spell(u)| && c in {'\t', '\r', '\n'} && AllSpace(before) && AllSpace(after)
    ensures var t := Spell(u);
            Canonicalize(before + (t[..k] + [c] + t[k..]) + after, r) == Canonicalize(t, r)
  {
    SpellingSplits(u, k, r);
    CleanOfJunk(Spell(u)[..k], c, Spell(u)[k..], before, after);
  }
}
