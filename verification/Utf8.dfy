/** UTF-8 (RFC 3629): the encoder, and the decoder that writes U+FFFD for each ill-formed stretch. */
module Utf8 {
  type byte = n: nat | n < 256

  const REPLACEMENT: char := '\U{FFFD}'

  function EncodeChar(c: char): seq<byte> {
    var n := c as int;
    if n < 0x80 then [n]
    else if n < 0x800 then [0xC0 + n / 0x40, 0x80 + n % 0x40]
    else if n < 0x1_0000 then [0xE0 + n / 0x1000, 0x80 + n / 0x40 % 0x40, 0x80 + n % 0x40]
    else [0xF0 + n / 0x4_0000, 0x80 + n / 0x1000 % 0x40, 0x80 + n / 0x40 % 0x40, 0x80 + n % 0x40]
  }

  function Encode(s: string): seq<byte> {
    if s == "" then [] else EncodeChar(s[0]) + Encode(s[1..])
  }

  /** How many continuation bytes a lead byte asks for; none for a byte that cannot lead. */
  function Needs(lead: byte): nat {
    if 0xC2 <= lead <= 0xDF then 1
    else if 0xE0 <= lead <= 0xEF then 2
    else if 0xF0 <= lead <= 0xF4 then 3
    else 0
  }

  /** Whether `b` may stand at place `k` (from 1) after `lead`. */
  predicate Continues(lead: byte, k: nat, b: byte) {
    var lo := if k == 1 && lead == 0xE0 then 0xA0 else if k == 1 && lead == 0xF0 then 0x90 else 0x80;
    var hi := if k == 1 && lead == 0xED then 0x9F else if k == 1 && lead == 0xF4 then 0x8F else 0xBF;
    lo <= b <= hi
  }

  /** How many continuation bytes are really there, from place `k` on, up to the number asked for. */
  function Present(b: seq<byte>, k: nat): (n: nat)
    requires 1 <= k <= |b|
    ensures k <= n + 1 <= |b| && (n + 1 == k || n <= Needs(b[0]))
    ensures forall i :: k <= i <= n ==> Continues(b[0], i, b[i])
    decreases |b| - k
  {
    if k < |b| && k <= Needs(b[0]) && Continues(b[0], k, b[k]) then Present(b, k + 1) else k - 1
  }

  predicate IsScalar(n: int) {
    0 <= n < 0xD800 || 0xE000 <= n < 0x11_0000
  }

  /** The scalar value that `need` continuation bytes after a lead byte spell. */
  function Scalar(b: seq<byte>, need: nat): (v: int)
    requires 1 <= need < |b| && need == Needs(b[0])
    requires forall i :: 1 <= i <= need ==> Continues(b[0], i, b[i])
    ensures IsScalar(v)
  {
    var lead: int := b[0];
    var v: int := (if need == 1 then lead - 0xC0 else if need == 2 then lead - 0xE0 else lead - 0xF0) * 0x40
                  + (b[1] as int - 0x80);
    var w: int := if need >= 2 then v * 0x40 + (b[2] as int - 0x80) else v;
    assert Continues(b[0], 1, b[1]);
    assert need >= 2 ==> Continues(b[0], 2, b[2]);
    assert need >= 3 ==> Continues(b[0], 3, b[3]);
    if need == 3 then w * 0x40 + (b[3] as int - 0x80) else w
  }

  /** The character at the front of `b`, and how many bytes it took. */
  function DecodeFirst(b: seq<byte>): (r: (char, nat))
    requires b != []
    ensures 1 <= r.1 <= |b|
  {
    var need, n := Needs(b[0]), Present(b, 1);
    if b[0] < 0x80 then (b[0] as char, 1)
    else if need == 0 || n < need then (REPLACEMENT, n + 1)
    else
      (Scalar(b, need) as char, need + 1)
  }

  /** `bytes.decode("utf-8", "replace")` */
  function Decode(b: seq<byte>): string {
    if b == [] then ""
    else
      var (c, n) := DecodeFirst(b);
      [c] + Decode(b[n..])
  }

  lemma DecodeOneChar(c: char, rest: seq<byte>)
    ensures DecodeFirst(EncodeChar(c) + rest) == (c, |EncodeChar(c)|)
  {
    var e, b := EncodeChar(c), EncodeChar(c) + rest;
    if c as int >= 0x80 {
      assert forall i :: 0 <= i < |e| ==> b[i] == e[i];
      LeadAndContinuations(c);
      PresentReaches(b, 1, |e| - 1);
    }
  }

  lemma LeadAndContinuations(c: char)
    requires c as int >= 0x80
    ensures var e := EncodeChar(c);
            && Needs(e[0]) == |e| - 1 >= 1
            && (forall i :: 1 <= i < |e| ==> Continues(e[0], i, e[i]))
            && Scalar(e, |e| - 1) == c as int
  {
    var n := c as int;
    if n < 0x800 {
    } else if n < 0x1_0000 {
      assert n / 0x40 / 0x40 == n / 0x1000;
    } else {
      assert n / 0x40 / 0x40 == n / 0x1000 && n / 0x1000 / 0x40 == n / 0x4_0000;
    }
  }

  lemma {:induction false} PresentReaches(b: seq<byte>, k: nat, n: nat)
    requires 1 <= k <= n + 1 <= |b| && n == Needs(b[0])
    requires forall i :: k <= i <= n ==> Continues(b[0], i, b[i])
    ensures Present(b, k) == n
    decreases n + 1 - k
  {
    if k <= n { PresentReaches(b, k + 1, n); }
  }

  /** Decoding undoes encoding. */
  lemma {:induction false} DecodeUndoesEncode(s: string)
    ensures Decode(Encode(s)) == s
  {
    if s != "" {
      DecodeOneChar(s[0], Encode(s[1..]));
      DecodeUndoesEncode(s[1..]);
      assert Encode(s)[|EncodeChar(s[0])|..] == Encode(s[1..]);
    }
  }

  lemma EncodeIsInjective(s: string, t: string)
    requires Encode(s) == Encode(t)
    ensures s == t
  {
    DecodeUndoesEncode(s);
    DecodeUndoesEncode(t);
  }

  // ---------------------------------------------------------------- ill-formed bytes

  /** A lead byte and as many continuations as it asks for. */
  predicate WellFormed(e: seq<byte>) {
    && e != [] && Needs(e[0]) >= 1 && |e| == Needs(e[0]) + 1
    && forall i :: 1 <= i < |e| ==> Continues(e[0], i, e[i])
  }

  lemma TwoBytes(e: seq<byte>)
    requires WellFormed(e) && |e| == 2
    ensures EncodeChar(Scalar(e, 1) as char) == e
  {
    assert Continues(e[0], 1, e[1]);
    var n, lead: int, x: int := Scalar(e, 1), e[0] - 0xC0, e[1] as int - 0x80;
    assert n / 0x40 == lead && n % 0x40 == x;
  }

  lemma ThreeBytes(e: seq<byte>)
    requires WellFormed(e) && |e| == 3
    ensures EncodeChar(Scalar(e, 2) as char) == e
  {
    assert Continues(e[0], 1, e[1]) && Continues(e[0], 2, e[2]);
    var n, lead: int, x: int, y: int := Scalar(e, 2), e[0] - 0xE0, e[1] as int - 0x80, e[2] as int - 0x80;
    var m := lead * 0x40 + x;
    assert n / 0x40 == m && n % 0x40 == y;
    assert n / 0x1000 == m / 0x40 == lead && m % 0x40 == x;
  }

  lemma FourBytes(e: seq<byte>)
    requires WellFormed(e) && |e| == 4
    ensures EncodeChar(Scalar(e, 3) as char) == e
  {
    assert Continues(e[0], 1, e[1]) && Continues(e[0], 2, e[2]) && Continues(e[0], 3, e[3]);
    var n, lead: int, x: int, y: int, z: int :=
      Scalar(e, 3), e[0] - 0xF0, e[1] as int - 0x80, e[2] as int - 0x80, e[3] as int - 0x80;
    var l := lead * 0x40 + x;
    var m := l * 0x40 + y;
    assert n / 0x40 == m && n % 0x40 == z;
    assert n / 0x1000 == m / 0x40 == l && m % 0x40 == y;
    assert n / 0x4_0000 == l / 0x40 == lead && l % 0x40 == x;
  }

  lemma WellFormedIsEncoded(e: seq<byte>)
    requires WellFormed(e)
    ensures EncodeChar(Scalar(e, |e| - 1) as char) == e
  {
    if |e| == 2 { TwoBytes(e); } else if |e| == 3 { ThreeBytes(e); } else { FourBytes(e); }
  }

  /** The least byte that may stand at place `k`. */
  function Least(lead: byte, k: nat): byte {
    if k == 1 && lead == 0xE0 then 0xA0 else if k == 1 && lead == 0xF0 then 0x90 else 0x80
  }

  /** Every start that the decoder takes can be completed to a character. */
  lemma StartsAreCompletable(b: seq<byte>, n: nat) returns (d: char)
    requires 1 <= n <= |b| && n <= Needs(b[0])
    requires forall i :: 1 <= i < n ==> Continues(b[0], i, b[i])
    ensures b[..n] <= EncodeChar(d)
  {
    var e: seq<byte> := seq(Needs(b[0]) + 1, i requires 0 <= i => if i < n then b[i] else Least(b[0], i));
    WellFormedIsEncoded(e);
    d := Scalar(e, |e| - 1) as char;
  }

  lemma StopsAt(b: seq<byte>, k: nat)
    requires 1 <= k <= |b|
    ensures var n := Present(b, k); n + 1 < |b| && n < Needs(b[0]) ==> !Continues(b[0], n + 1, b[n + 1])
    decreases |b| - k
  {
  }

  lemma StartContinues(b: seq<byte>, m: nat, d: char)
    requires 1 <= m <= |b| && b[..m] <= EncodeChar(d) && b[0] >= 0x80
    ensures m - 1 <= Needs(b[0]) && forall i :: 1 <= i < m ==> Continues(b[0], i, b[i])
  {
    var e := EncodeChar(d);
    assert forall i :: 0 <= i < m ==> e[i] == b[..m][i] == b[i];
    LeadAndContinuations(d);
  }

  /** No character starts with the bytes that one replacement stands for and the next one. */
  lemma StopsAreMaximal(b: seq<byte>, d: char)
    requires b != [] && b[0] >= 0x80 && Present(b, 1) < Needs(b[0]) && Present(b, 1) + 1 < |b|
    ensures !(b[..Present(b, 1) + 2] <= EncodeChar(d))
  {
    StopsAt(b, 1);
    if b[..Present(b, 1) + 2] <= EncodeChar(d) { StartContinues(b, Present(b, 1) + 2, d); }
  }

  lemma LeadsNothing(lead: byte, d: char)
    requires lead >= 0x80 && Needs(lead) == 0
    ensures EncodeChar(d)[0] != lead
  {
    if d as int >= 0x80 { LeadAndContinuations(d); }
  }

  /** What one step of the decoder takes from any bytes: the encoding of the character it gives; or, where no
      character is encoded at the front, the longest start of one that is there (one byte at least), for U+FFFD. */
  lemma DecodesOrReplaces(b: seq<byte>)
    requires b != []
    ensures var (c, n) := DecodeFirst(b);
            || EncodeChar(c) == b[..n]
            || (&& c == '\U{FFFD}' && (forall d: char :: !(EncodeChar(d) <= b))
                && (n == 1 || exists d: char :: b[..n] <= EncodeChar(d))
                && (n < |b| ==> forall d: char :: !(b[..n + 1] <= EncodeChar(d))))
  {
    var need, n := Needs(b[0]), Present(b, 1);
    if b[0] >= 0x80 {
      if need == 0 || n < need {
        Replaces(b);
      } else {
        assert b[..need + 1][0] == b[0];
        WellFormedIsEncoded(b[..need + 1]);
      }
    }
  }

  lemma Replaces(b: seq<byte>)
    requires b != [] && b[0] >= 0x80 && (Needs(b[0]) == 0 || Present(b, 1) < Needs(b[0]))
    ensures var n := DecodeFirst(b).1;
            && (forall d: char :: !(EncodeChar(d) <= b))
            && (n == 1 || exists d: char :: b[..n] <= EncodeChar(d))
            && (n < |b| ==> forall d: char :: !(b[..n + 1] <= EncodeChar(d)))
  {
    forall d: char ensures !(EncodeChar(d) <= b) {
      if EncodeChar(d) <= b { NotReplaced(b, d); }
    }
    ReplacesTheStart(b);
  }

  lemma ReplacesTheStart(b: seq<byte>)
    requires b != [] && b[0] >= 0x80 && (Needs(b[0]) == 0 || Present(b, 1) < Needs(b[0]))
    ensures var n := DecodeFirst(b).1;
            && (n == 1 || exists d: char :: b[..n] <= EncodeChar(d))
            && (n < |b| ==> forall d: char :: !(b[..n + 1] <= EncodeChar(d)))
  {
    var n := DecodeFirst(b).1;
    if Needs(b[0]) >= 1 { var d := StartsAreCompletable(b, n); }
    if n < |b| {
      forall d: char ensures !(b[..n + 1] <= EncodeChar(d)) {
        if Needs(b[0]) == 0 { LeadsNothing(b[0], d); } else { StopsAreMaximal(b, d); }
      }
    }
  }

  lemma NotReplaced(b: seq<byte>, d: char)
    requires EncodeChar(d) <= b
    ensures b[0] < 0x80 || (Needs(b[0]) >= 1 && Present(b, 1) == Needs(b[0]))
  {
    var e := EncodeChar(d);
    assert forall i :: 0 <= i < |e| ==> b[i] == e[i];
    if d as int >= 0x80 {
      LeadAndContinuations(d);
      PresentReaches(b, 1, |e| - 1);
    }
  }
}
