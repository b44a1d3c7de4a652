/** Fenced code blocks, as section 4.5 of CommonMark closes them. */
module Fences {
  import opened Text

  function MarkerRun(s: string, c: char, i: nat): (j: nat)
    requires i <= |s|
    ensures i <= j <= |s| && (forall k :: i <= k < j ==> s[k] == c) && (j < |s| ==> s[j] != c)
    decreases |s| - i
  {
    if i < |s| && s[i] == c then MarkerRun(s, c, i + 1) else i
  }

  /** `(marker, info)` for a line that starts with three or more backticks or tildes. */
  function MatchFenceMarker(stripped: string): Option<(string, string)> {
    if stripped == "" || stripped[0] !in {'`', '~'} then None
    else
      var k := MarkerRun(stripped, stripped[0], 0);
      var rest := stripped[k..];
      var info := if rest != "" && rest[|rest| - 1] == '\n' then rest[..|rest| - 1] else rest;
      if k < 3 || '\n' in info then None else Some((stripped[..k], info))
  }

  predicate AllAre(s: string, c: char) {
    forall k :: 0 <= k < |s| ==> s[k] == c
  }

  /** A run of the opener's character at least as long as the opener, and nothing else. */
  predicate ClosesFence(stripped: string, fence: string)
    requires fence != ""
  {
    |stripped| >= |fence| && AllAre(stripped, fence[0])
  }

  predicate IsMarker(m: string) {
    |m| >= 3 && m[0] in {'`', '~'} && AllAre(m, m[0])
  }

  lemma MarkersAreRuns(stripped: string)
    requires MatchFenceMarker(stripped).Some?
    ensures IsMarker(MatchFenceMarker(stripped).value.0)
  {
  }

  /** The fence left open after a stripped line. */
  function AfterLine(stripped: string, open: Option<string>): (m: Option<string>)
    requires open.Some? ==> IsMarker(open.value)
    ensures m.Some? ==> IsMarker(m.value)
  {
    match open
    case Some(fence) => if ClosesFence(stripped, fence) then None else open
    case None =>
      match MatchFenceMarker(stripped)
      case Some(found) => MarkersAreRuns(stripped); Some(found.0)
      case None => None
  }

  /** The marker of the fence that is open before line `i` of stripped lines. */
  function OpenBefore(stripped: seq<string>, i: nat): (m: Option<string>)
    requires i <= |stripped|
    ensures m.Some? ==> IsMarker(m.value)
  {
    if i == 0 then None else AfterLine(stripped[i - 1], OpenBefore(stripped, i - 1))
  }

  function Stripped(lines: seq<string>): (r: seq<string>)
    ensures |r| == |lines|
  {
    seq(|lines|, i requires 0 <= i < |lines| => Strip(lines[i]))
  }

  predicate InsideFence(lines: seq<string>, i: nat)
    requires i <= |lines|
  {
    OpenBefore(Stripped(lines), i).Some?
  }

  lemma NextOpen(lines: seq<string>, stripped: seq<string>, i: nat)
    requires i < |lines| && stripped == Stripped(lines)
    ensures stripped[i] == Strip(lines[i])
    ensures OpenBefore(stripped, i + 1) == AfterLine(stripped[i], OpenBefore(stripped, i))
  {
  }

  function FlagsUpTo(lines: seq<string>, n: nat): seq<bool>
    requires n <= |lines|
  {
    if n == 0 then [] else FlagsUpTo(lines, n - 1) + [InsideFence(lines, n - 1)]
  }

  lemma {:induction false} FlagsAreInside(lines: seq<string>, n: nat)
    requires n <= |lines|
    ensures |FlagsUpTo(lines, n)| == n && forall i :: 0 <= i < n ==> FlagsUpTo(lines, n)[i] == InsideFence(lines, i)
  {
    if n > 0 { FlagsAreInside(lines, n - 1); }
  }

  /** The flags of all lines: is the line inside a fence? */
  method FenceFlags(lines: seq<string>) returns (flags: seq<bool>)
    ensures |flags| == |lines| && forall i :: 0 <= i < |lines| ==> flags[i] == InsideFence(lines, i)
  {
    flags := [];
    var open: Option<string> := None;
    for i := 0 to |lines|
      invariant flags == FlagsUpTo(lines, i) && open == OpenBefore(Stripped(lines), i)
    {
      NextOpen(lines, Stripped(lines), i);
      flags := flags + [open.Some?];
      open := Scan(Strip(lines[i]), open);
    }
    FlagsAreInside(lines, |lines|);
  }

  /** The loop's body: a closer ends an open fence, a marker opens one. */
  method Scan(stripped: string, open: Option<string>) returns (after: Option<string>)
    requires open.Some? ==> IsMarker(open.value)
    ensures after == AfterLine(stripped, open)
  {
    after := open;
    if open.Some? {
      if ClosesFence(stripped, open.value) {
        after := None;
      }
    } else {
      var m := MatchFenceMarker(stripped);
      if m.Some? {
        after := Some(m.value.0);
      }
    }
  }

  predicate Opens(stripped: string, m: string) {
    MatchFenceMarker(stripped).Some? && MatchFenceMarker(stripped).value.0 == m
  }

  /** A line of one text opens a fence exactly when it starts with three or more backticks or tildes, all of
      them its marker; it closes one exactly when it is nothing but the fence's character, as often or more. */
  lemma MarkersAre(stripped: string, m: string)
    requires '\n' !in stripped
    ensures Opens(stripped, m)
            <==> && 3 <= |m| <= |stripped| && (m[0] == '`' || m[0] == '~')
                 && (forall k :: 0 <= k < |m| ==> m[k] == m[0] == stripped[k])
                 && (|m| < |stripped| ==> stripped[|m|] != m[0])
    ensures m != "" ==>
              (ClosesFence(stripped, m)
               <==> |m| <= |stripped| && forall k :: 0 <= k < |stripped| ==> stripped[k] == m[0])
  {
    if stripped != "" && stripped[0] in {'`', '~'} {
      var k := MarkerRun(stripped, stripped[0], 0);
      assert forall c :: c in stripped[k..] ==> c in stripped;
    }
  }

  /** Line `j` opens a fence with marker `m` and no line after it and before `i` closes it. */
  ghost predicate OpenedAt(stripped: seq<string>, j: nat, i: nat, m: string) {
    && j < i <= |stripped| && OpenBefore(stripped, j).None? && m != ""
    && Opens(stripped[j], m)
    && forall k :: j < k < i ==> !ClosesFence(stripped[k], m)
  }

  lemma AfterLineLeaves(stripped: string, open: Option<string>, m: string)
    requires open.Some? ==> IsMarker(open.value)
    ensures AfterLine(stripped, open) == Some(m) <==>
              if open.Some? then open.value == m && !ClosesFence(stripped, m) else Opens(stripped, m)
    ensures Opens(stripped, m) ==> m != ""
  {
    if MatchFenceMarker(stripped).Some? { MarkersAreRuns(stripped); }
  }

  lemma OpenedHere(stripped: seq<string>, i: nat, m: string)
    requires 0 < i <= |stripped| && OpenBefore(stripped, i - 1).None? && Opens(stripped[i - 1], m) && m != ""
    ensures OpenedAt(stripped, i - 1, i, m)
  {
  }

  lemma OpenedOneLater(stripped: seq<string>, j: nat, i: nat, m: string)
    requires i < |stripped| && OpenedAt(stripped, j, i, m) && !ClosesFence(stripped[i], m)
    ensures OpenedAt(stripped, j, i + 1, m)
  {
  }

  lemma {:induction false} OpenHasOpener(stripped: seq<string>, i: nat, m: string) returns (j: nat)
    requires i <= |stripped| && OpenBefore(stripped, i) == Some(m)
    ensures OpenedAt(stripped, j, i, m)
  {
    var open := OpenBefore(stripped, i - 1);
    AfterLineLeaves(stripped[i - 1], open, m);
    if open.None? {
      j := i - 1;
      OpenedHere(stripped, i, m);
    } else {
      j := OpenHasOpener(stripped, i - 1, m);
      OpenedOneLater(stripped, j, i - 1, m);
    }
  }

  lemma OpenedOneEarlier(stripped: seq<string>, j: nat, i: nat, m: string)
    requires OpenedAt(stripped, j, i, m) && j < i - 1
    ensures OpenedAt(stripped, j, i - 1, m) && !ClosesFence(stripped[i - 1], m)
  {
  }

  lemma OpensOutside(stripped: seq<string>, j: nat, i: nat, m: string)
    requires OpenedAt(stripped, j, i, m) && j == i - 1
    ensures OpenBefore(stripped, i - 1).None? && Opens(stripped[i - 1], m)
  {
  }

  lemma {:induction false} OpenerIsOpen(stripped: seq<string>, j: nat, i: nat, m: string)
    requires OpenedAt(stripped, j, i, m)
    ensures OpenBefore(stripped, i) == Some(m)
  {
    if j < i - 1 {
      OpenedOneEarlier(stripped, j, i, m);
      OpenerIsOpen(stripped, j, i - 1, m);
    } else {
      OpensOutside(stripped, j, i, m);
    }
    AfterLineLeaves(stripped[i - 1], OpenBefore(stripped, i - 1), m);
  }

  /** A line is inside a fence exactly when some earlier line, itself outside every fence, opens one
      that no line between closes; the opener's line is outside, the closer's inside. */
  lemma InsideIffOpened(stripped: seq<string>, i: nat, m: string)
    requires i <= |stripped|
    ensures OpenBefore(stripped, i) == Some(m) <==> exists j: nat :: OpenedAt(stripped, j, i, m)
  {
    if OpenBefore(stripped, i) == Some(m) {
      var j := OpenHasOpener(stripped, i, m);
    }
    if j: nat :| OpenedAt(stripped, j, i, m) {
      OpenerIsOpen(stripped, j, i, m);
    }
  }

  /** Remark: a shorter run, or a line with any other character in it, does not close an open fence. */
  lemma OtherMarkersAreContent(stripped: seq<string>, i: nat, fence: string, c: char)
    requires i < |stripped| && OpenBefore(stripped, i) == Some(fence)
    requires |stripped[i]| < |fence| || (c in stripped[i] && c != fence[0])
    ensures OpenBefore(stripped, i + 1) == Some(fence)
  {
    AfterLineLeaves(stripped[i], OpenBefore(stripped, i), fence);
  }
}
