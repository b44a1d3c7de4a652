/** The cloud-egress gate: withhold, redact, and leave one audit row. */
module Egress {
  import opened Text
  import R = Redact

  datatype Passage = Passage(targetId: string, text: string, noEgress: bool, isExternal: bool)

  datatype RedactedSend = RedactedSend(targetId: string, text: string, redactions: nat)

  /** The columns an Ask writes; `redactions` keeps the order in which a dict prints its keys. */
  datatype EgressRow = EgressRow(purpose: string, model: string, sentTargets: seq<string>,
                                 redactions: Option<seq<(string, nat)>>)

  const QA_PURPOSE := "qa"

  class EgressLog {
    var rows: seq<EgressRow>

    constructor ()
      ensures rows == []
    {
      rows := [];
    }

    /** One row per time content leaves the box. */
    method LogEgress(row: EgressRow) returns (id: nat)
      modifies this
      ensures rows == old(rows) + [row] && id == |rows|
    {
      rows := rows + [row];
      id := |rows|;
    }
  }

  // ---------------------------------------------------------------- withholding

  function Side(items: seq<Passage>, withheld: bool): seq<Passage> {
    if items == [] then []
    else
      var last := items[|items| - 1];
      Side(items[..|items| - 1], withheld) + if last.noEgress == withheld then [last] else []
  }

  method PartitionEgress(items: seq<Passage>) returns (sendable: seq<Passage>, withheld: seq<Passage>)
    ensures sendable == Side(items, false) && withheld == Side(items, true)
  {
    sendable, withheld := [], [];
    for i := 0 to |items|
      invariant sendable == Side(items[..i], false) && withheld == Side(items[..i], true)
    {
      assert items[..i + 1][..i] == items[..i];
      if items[i].noEgress {
        withheld := withheld + [items[i]];
      } else {
        sendable := sendable + [items[i]];
      }
    }
    assert items[..|items|] == items;
  }

  function Count(items: seq<Passage>, p: Passage): nat {
    if items == [] then 0
    else Count(items[..|items| - 1], p) + if items[|items| - 1] == p then 1 else 0
  }

  lemma CountOfAppend(s: seq<Passage>, x: Passage, p: Passage)
    ensures Count(s + [x], p) == Count(s, p) + if x == p then 1 else 0
  {
    assert (s + [x])[..|s|] == s;
  }

  /** Nothing is lost or invented: every item lands on the side its flag names, as often as it came. */
  lemma {:induction false} PartitionIsExact(items: seq<Passage>, p: Passage)
    ensures Count(Side(items, p.noEgress), p) == Count(items, p)
    ensures Count(Side(items, !p.noEgress), p) == 0
  {
    if items != [] {
      var init, last := items[..|items| - 1], items[|items| - 1];
      PartitionIsExact(init, p);
      CountOfAppend(Side(init, p.noEgress), last, p);
      CountOfAppend(Side(init, !p.noEgress), last, p);
      EmptyIsUnit(Side(init, p.noEgress));
      EmptyIsUnit(Side(init, !p.noEgress));
    }
  }

  // ---------------------------------------------------------------- redacting

  function SendOf(p: Passage, patterns: seq<R.Pattern>): RedactedSend {
    var (text, n) := R.Redacted(p.text, patterns);
    RedactedSend(p.targetId, text, n)
  }

  function Sends(passages: seq<Passage>, patterns: seq<R.Pattern>): seq<RedactedSend> {
    seq(|passages|, k requires 0 <= k < |passages| => SendOf(passages[k], patterns))
  }

  /** The payloads sent for `passages`. */
  function SentFor(passages: seq<Passage>, patterns: seq<R.Pattern>): seq<RedactedSend> {
    Sends(Side(passages, false), patterns)
  }

  /** `d[key] = n`: an old key keeps its place, a new one goes last. */
  function SetItem(d: seq<(string, nat)>, key: string, n: nat): seq<(string, nat)> {
    if d == [] then [(key, n)]
    else if d[0].0 == key then [(key, n)] + d[1..]
    else [d[0]] + SetItem(d[1..], key, n)
  }

  /** How many spans each target lost in its last passage that lost any; targets that lost none are absent. */
  function RedactionCounts(sent: seq<RedactedSend>): seq<(string, nat)> {
    if sent == [] then []
    else
      var last, init := sent[|sent| - 1], RedactionCounts(sent[..|sent| - 1]);
      if last.redactions == 0 then init else SetItem(init, last.targetId, last.redactions)
  }

  function TargetsOf(sent: seq<RedactedSend>): seq<string> {
    seq(|sent|, k requires 0 <= k < |sent| => sent[k].targetId)
  }

  /** The audit row of one Q&A send. */
  function AuditRow(model: string, sent: seq<RedactedSend>): EgressRow {
    var counts := RedactionCounts(sent);
    EgressRow(QA_PURPOSE, model, TargetsOf(sent), if counts == [] then None else Some(counts))
  }

  method GateQaEgress(log: EgressLog, model: string, passages: seq<Passage>, patterns: seq<R.Pattern>)
    returns (sent: seq<RedactedSend>, withheldIds: seq<string>, id: nat)
    modifies log
    ensures sent == SentFor(passages, patterns)
    ensures |withheldIds| == |Side(passages, true)|
    ensures forall k :: 0 <= k < |withheldIds| ==> withheldIds[k] == Side(passages, true)[k].targetId
    ensures log.rows == old(log.rows) + [AuditRow(model, sent)] && id == |log.rows|
  {
    var sendable, withheld := PartitionEgress(passages);
    sent := [];
    for i := 0 to |sendable|
      invariant sent == Sends(sendable[..i], patterns)
      invariant log.rows == old(log.rows)
    {
      var text, count := R.RedactCounting(sendable[i].text, patterns);
      sent := sent + [RedactedSend(sendable[i].targetId, text, count)];
      assert sendable[..i + 1] == sendable[..i] + [sendable[i]];
    }
    assert sendable[..|sendable|] == sendable;
    id := log.LogEgress(AuditRow(model, sent));
    withheldIds := seq(|withheld|, k requires 0 <= k < |withheld| => withheld[k].targetId);
  }

  // ---------------------------------------------------------------- what leaves the box

  lemma {:induction false} SideHolds(items: seq<Passage>, withheld: bool, p: Passage)
    ensures p in Side(items, withheld) <==> p in items && p.noEgress == withheld
  {
    if items != [] {
      SideHolds(items[..|items| - 1], withheld, p);
      assert items == items[..|items| - 1] + [items[|items| - 1]];
    }
  }

  /** What is sent is the redacted text of a passage that may leave, and holds no secret. */
  lemma NoSecretIsSent(passages: seq<Passage>, patterns: seq<R.Pattern>, k: nat, j: nat)
    requires forall p :: p in patterns ==> R.Good(p)
    requires k < |SentFor(passages, patterns)| && j < |patterns|
    ensures R.Clean(patterns[j], SentFor(passages, patterns)[k].text)
    ensures exists p :: p in passages && !p.noEgress && SentFor(passages, patterns)[k] == SendOf(p, patterns)
  {
    var p := Side(passages, false)[k];
    SideHolds(passages, false, p);
    R.RedactionIsComplete(p.text, patterns, j);
  }

  predicate DistinctKeys(d: seq<(string, nat)>) {
    forall i, j :: 0 <= i < j < |d| ==> d[i].0 != d[j].0
  }

  lemma {:induction false} SetItemSets(d: seq<(string, nat)>, key: string, n: nat)
    requires DistinctKeys(d)
    ensures DistinctKeys(SetItem(d, key, n))
    ensures forall e :: e in SetItem(d, key, n) <==> e == (key, n) || (e in d && e.0 != key)
  {
    if d != [] && d[0].0 != key {
      SetItemSets(d[1..], key, n);
      var rest := SetItem(d[1..], key, n);
      assert forall i :: 0 <= i < |rest| ==> rest[i].0 != d[0].0 by {
        assert forall e :: e in rest ==> e.0 != d[0].0;
      }
    }
  }

  /** Passage `k` is the last one of its target that lost a span, and it lost `n`. */
  predicate LastCount(sent: seq<RedactedSend>, k: nat, target: string, n: nat)
    requires k < |sent|
  {
    && sent[k].targetId == target && sent[k].redactions == n > 0
    && forall j :: k < j < |sent| && sent[j].targetId == target ==> sent[j].redactions == 0
  }

  ghost predicate IsLastCount(sent: seq<RedactedSend>, target: string, n: nat) {
    exists k :: 0 <= k < |sent| && LastCount(sent, k, target, n)
  }

  lemma LastCountWithLast(init: seq<RedactedSend>, last: RedactedSend, k: nat, target: string, n: nat)
    requires k < |init|
    ensures LastCount(init + [last], k, target, n)
            <==> LastCount(init, k, target, n) && !(last.redactions > 0 && last.targetId == target)
  {
    var sent := init + [last];
    if LastCount(sent, k, target, n) {
      assert sent[|init|] == last;
      assert forall j :: k < j < |init| ==> sent[j] == init[j];
    }
  }

  /** One more passage overrides its target's count if it lost a span, and leaves all others. */
  lemma LastCountOfOneMore(init: seq<RedactedSend>, last: RedactedSend, target: string, n: nat)
    ensures IsLastCount(init + [last], target, n)
            <==> if last.redactions > 0 && last.targetId == target then n == last.redactions
                 else IsLastCount(init, target, n)
  {
    var sent := init + [last];
    if k :| 0 <= k < |init| && LastCount(init, k, target, n) {
      LastCountWithLast(init, last, k, target, n);
    }
    if k :| 0 <= k < |sent| && LastCount(sent, k, target, n) {
      if k < |init| { LastCountWithLast(init, last, k, target, n); }
    }
    if last.redactions > 0 && last.targetId == target {
      assert LastCount(sent, |init|, target, last.redactions);
    }
  }

  /** The row's counts: one entry per target that lost a span, with the count of its last such passage. */
  lemma {:induction false} CountsAreLastCounts(sent: seq<RedactedSend>, target: string, n: nat)
    ensures DistinctKeys(RedactionCounts(sent))
    ensures (target, n) in RedactionCounts(sent) <==> IsLastCount(sent, target, n)
  {
    if sent != [] {
      var last, init := sent[|sent| - 1], sent[..|sent| - 1];
      CountsAreLastCounts(init, target, n);
      if last.redactions > 0 { SetItemSets(RedactionCounts(init), last.targetId, last.redactions); }
      assert sent == init + [last];
      LastCountOfOneMore(init, last, target, n);
    }
  }

  /** The columns of the audit row: the purpose, the model, the targets in the order sent, and counts only
      where something was redacted. */
  lemma AuditRowIs(model: string, sent: seq<RedactedSend>)
    ensures var row := AuditRow(model, sent);
            && row.purpose == "qa" && row.model == model
            && |row.sentTargets| == |sent| && (forall k :: 0 <= k < |sent| ==> row.sentTargets[k] == sent[k].targetId)
            && (row.redactions.None? <==> forall k :: 0 <= k < |sent| ==> sent[k].redactions == 0)
            && (row.redactions.Some? ==> row.redactions.value == RedactionCounts(sent))
  {
    NoCountsIffNoneRedacted(sent);
  }

  lemma {:induction false} NoCountsIffNoneRedacted(sent: seq<RedactedSend>)
    ensures RedactionCounts(sent) == [] <==> forall k :: 0 <= k < |sent| ==> sent[k].redactions == 0
  {
    if sent != [] {
      var init := sent[..|sent| - 1];
      NoCountsIffNoneRedacted(init);
      assert forall k :: 0 <= k < |init| ==> init[k] == sent[k];
    }
  }
}
