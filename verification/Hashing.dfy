/** Content-address ids: the framed encoding of a list of fields, and the ids hashed from it. */
module Hashing {
  import opened Text
  import opened Utf8

  const FRAME_LEN_BYTES := 8

  function Pow256(w: nat): nat {
    if w == 0 then 1 else 256 * Pow256(w - 1)
  }

  /** `n.to_bytes(w, "big")` */
  function BigEndian(n: nat, w: nat): seq<byte> {
    if w == 0 then [] else BigEndian(n / 256, w - 1) + [n % 256]
  }

  /** Length prefix and bytes; None where `to_bytes` overflows. */
  function Framed(field: string): Option<seq<byte>> {
    var b := Encode(field);
    if |b| < Pow256(FRAME_LEN_BYTES) then Some(BigEndian(|b|, FRAME_LEN_BYTES) + b) else None
  }

  function FramedAll(fields: seq<string>): Option<seq<byte>> {
    if fields == [] then Some([])
    else
      match (Framed(fields[0]), FramedAll(fields[1..]))
      case (Some(a), Some(b)) => Some(a + b)
      case _ => None
  }

  /** A content-address id, by what it is the hash of. The hash is taken to be collision-free, so
      an id stands for its hash input, and `IdsStandForTheirInputs` shows that inputs stand for these. */
  datatype ContentId = VersionId(noteId: string, parent: string, body: string)
                     | SnapshotId(externalId: string, text: string)
  {
    function Fields(): seq<string> {
      match this
      case VersionId(n, p, b) => [n, p, b]
      case SnapshotId(e, t) => [e, t]
    }

    function HashInput(): Option<seq<byte>> {
      FramedAll(Fields())
    }
  }

  lemma {:induction false} BigEndianIsInjective(m: nat, n: nat, w: nat)
    requires m < Pow256(w) && n < Pow256(w)
    ensures |BigEndian(m, w)| == w
    ensures BigEndian(m, w) == BigEndian(n, w) ==> m == n
    decreases w
  {
    if w > 0 {
      BigEndianIsInjective(m / 256, n / 256, w - 1);
      BigEndianIsInjective(n / 256, n / 256, w - 1);
      var a, b := BigEndian(m, w), BigEndian(n, w);
      assert a[..w - 1] == BigEndian(m / 256, w - 1) && b[..w - 1] == BigEndian(n / 256, w - 1);
      assert a[w - 1] == m % 256 && b[w - 1] == n % 256;
    }
  }

  /** A number read from bytes, the greatest first. */
  function FromBytes(bs: seq<byte>): nat {
    if bs == [] then 0 else FromBytes(bs[..|bs| - 1]) * 256 + bs[|bs| - 1] as nat
  }

  lemma {:induction false} BigEndianReadsBack(n: nat, w: nat)
    requires n < Pow256(w)
    ensures |BigEndian(n, w)| == w && FromBytes(BigEndian(n, w)) == n
  {
    if w > 0 {
      BigEndianReadsBack(n / 256, w - 1);
      var bs := BigEndian(n, w);
      assert bs[..w - 1] == BigEndian(n / 256, w - 1);
    }
  }

  /** A framed field: eight bytes that read, greatest first, as the number of bytes that follow. */
  lemma FramedIs(field: string)
    requires Framed(field).Some?
    ensures var f := Framed(field).value;
            |f| == 8 + |Encode(field)| && FromBytes(f[..8]) == |Encode(field)| && f[8..] == Encode(field)
  {
    BigEndianReadsBack(|Encode(field)|, FRAME_LEN_BYTES);
    var head := BigEndian(|Encode(field)|, FRAME_LEN_BYTES);
    assert (head + Encode(field))[..8] == head && (head + Encode(field))[8..] == Encode(field);
  }

  lemma CutAt(u: seq<byte>, x: seq<byte>, v: seq<byte>, y: seq<byte>)
    requires |u| == |v| && u + x == v + y
    ensures u == v && x == y
  {
    assert (u + x)[..|u|] == u && (v + y)[..|v|] == v;
    assert (u + x)[|u|..] == x && (v + y)[|v|..] == y;
  }

  lemma BytesAreDetermined(a: seq<byte>, b: seq<byte>, x: seq<byte>, y: seq<byte>, w: nat)
    requires |a| < Pow256(w) && |b| < Pow256(w)
    requires (BigEndian(|a|, w) + a) + x == (BigEndian(|b|, w) + b) + y
    ensures a == b && x == y
  {
    var m, n := BigEndian(|a|, w), BigEndian(|b|, w);
    BigEndianIsInjective(|a|, |b|, w);
    BigEndianIsInjective(|b|, |b|, w);
    ConcatAssociates(m, a, x);
    ConcatAssociates(n, b, y);
    CutAt(m, a + x, n, b + y);
    CutAt(a, x, b, y);
  }

  /** The first field of a framed list can be read off its bytes. */
  lemma FirstFieldIsDetermined(f: string, g: string, x: seq<byte>, y: seq<byte>)
    requires Framed(f).Some? && Framed(g).Some? && Framed(f).value + x == Framed(g).value + y
    ensures f == g && x == y
  {
    BytesAreDetermined(Encode(f), Encode(g), x, y, FRAME_LEN_BYTES);
    EncodeIsInjective(f, g);
  }

  lemma OnlyTheEmptyListFramesToNothing(fs: seq<string>)
    requires FramedAll(fs).Some?
    ensures fs == [] <==> FramedAll(fs).value == []
  {
    if fs != [] {
      BigEndianIsInjective(|Encode(fs[0])|, 0, FRAME_LEN_BYTES);
    }
  }

  /** The framed encoding is uniquely decodable: equal inputs mean equal field lists. */
  lemma {:induction false} FramingIsUniquelyDecodable(fs: seq<string>, gs: seq<string>)
    requires FramedAll(fs).Some? && FramedAll(fs) == FramedAll(gs)
    ensures fs == gs
  {
    OnlyTheEmptyListFramesToNothing(fs);
    OnlyTheEmptyListFramesToNothing(gs);
    if fs != [] {
      FirstFieldIsDetermined(fs[0], gs[0], FramedAll(fs[1..]).value, FramedAll(gs[1..]).value);
      FramingIsUniquelyDecodable(fs[1..], gs[1..]);
      assert fs == [fs[0]] + fs[1..] && gs == [gs[0]] + gs[1..];
    }
  }

  /** Equal hash inputs come from equal ids: no version meets a snapshot, and no characters can
      move across a field boundary unnoticed. */
  lemma IdsStandForTheirInputs(x: ContentId, y: ContentId)
    requires x.HashInput().Some?
    ensures x.HashInput() == y.HashInput() <==> x == y
  {
    if x.HashInput() == y.HashInput() {
      var fs, gs := x.Fields(), y.Fields();
      FramingIsUniquelyDecodable(fs, gs);
      assert fs[0] == gs[0] && fs[1] == gs[1] && (|fs| == 3 ==> fs[2] == gs[2]);
    }
  }

  /** The aliasing that bare concatenation would allow: shifting characters between fields
      keeps the concatenation and changes the hash input. */
  lemma ShiftingCharactersChangesTheInput(a: string, moved: string, b: string)
    requires moved != "" && SnapshotId(a + moved, b).HashInput().Some?
    ensures (a + moved) + b == a + (moved + b)
    ensures SnapshotId(a + moved, b).HashInput() != SnapshotId(a, moved + b).HashInput()
  {
    IdsStandForTheirInputs(SnapshotId(a + moved, b), SnapshotId(a, moved + b));
    assert |a + moved| != |a|;
  }
}
