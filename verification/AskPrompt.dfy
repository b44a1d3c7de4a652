/** What the model is shown: the question, and every payload in a tag of its own, in order. */
module AskPrompt {
  import opened Text
  import opened Targets
  import opened CitedAnswer
  import E = Egress

  // ---------------------------------------------------------------- joined pieces

  lemma OccursInConcat(s: string, a: string, b: string, p: nat)
    ensures OccursAt(s, b, p) ==> OccursAt(s, a + b, |a| + p)
    ensures OccursAt(s, a, p) ==> OccursAt(s, a + b, p)
  {
    if OccursAt(s, b, p) { SliceOfSuffix(a, b, p, p + |s|); }
    if OccursAt(s, a, p) { SliceOfPrefix(a, b, p, p + |s|); }
  }

  lemma OccursAtStart(s: string, rest: string)
    ensures OccursAt(s, s + rest, 0)
  {
    SliceOfPrefix(s, rest, 0, |s|);
    WholeSlice(s);
  }

  /** The pieces stand in the text one after the other, none overlapping, from place `lo` on. */
  ghost predicate InOrder(pieces: seq<string>, text: string, at: seq<nat>, lo: nat) {
    && |at| == |pieces|
    && (forall k :: 0 <= k < |at| ==> lo <= at[k] && OccursAt(pieces[k], text, at[k]))
    && (forall j, k :: 0 <= j < k < |at| ==> at[j] + |pieces[j]| <= at[k])
  }

  function Moved(at: seq<nat>, d: nat): seq<nat> {
    seq(|at|, k requires 0 <= k < |at| => at[k] + d)
  }

  lemma InOrderLater(pieces: seq<string>, text: string, at: seq<nat>, lo: nat, head: string)
    requires InOrder(pieces, text, at, lo)
    ensures InOrder(pieces, head + text, Moved(at, |head|), lo + |head|)
  {
    forall k | 0 <= k < |at| ensures OccursAt(pieces[k], head + text, at[k] + |head|) {
      OccursInConcat(pieces[k], head, text, at[k]);
    }
  }

  lemma InOrderCons(first: string, rest: seq<string>, text: string, at: seq<nat>)
    requires InOrder(rest, text, at, |first|) && OccursAt(first, text, 0)
    ensures InOrder([first] + rest, text, [0] + at, 0)
  {
  }

  lemma {:induction false} JoinedInOrder(pieces: seq<string>, sep: string) returns (at: seq<nat>)
    ensures InOrder(pieces, Join(pieces, sep), at, 0)
  {
    at := [];
    if |pieces| == 1 {
      at := [0];
      WholeSlice(pieces[0]);
    } else if pieces != [] {
      var first, rest := pieces[0], pieces[1..];
      var tail := JoinedInOrder(rest, sep);
      ConcatAssociates(first, sep, Join(rest, sep));
      InOrderLater(rest, Join(rest, sep), tail, 0, first + sep);
      OccursAtStart(first, sep + Join(rest, sep));
      InOrderCons(first, rest, Join(pieces, sep), Moved(tail, |first + sep|));
      assert pieces == [first] + rest;
      at := [0] + Moved(tail, |first + sep|);
    }
  }

  // ---------------------------------------------------------------- the kind of a source

  /** Item `k` is the first of the context with its target and block. */
  predicate FirstOfItsBlock(c: seq<ContextItem>, k: nat)
    requires k < |c|
  {
    forall j :: 0 <= j < k ==> !(c[j].target == c[k].target && c[j].parentBlock == c[k].parentBlock)
  }

  /** Item `k` holds the last distinct block of the target, and comes from an external tier. */
  predicate LastExternalAt(c: seq<ContextItem>, id: string, k: nat)
    requires k < |c|
  {
    && c[k].target == id && FirstOfItsBlock(c, k) && (c[k].tier.CurrentExternal? || c[k].tier.StaleExternal?)
    && forall m :: k < m < |c| ==> !(c[m].target == id && FirstOfItsBlock(c, m))
  }

  /** The last distinct block of a target comes from an external tier. */
  ghost predicate LastBlockIsExternal(c: seq<ContextItem>, id: string) {
    exists k :: 0 <= k < |c| && LastExternalAt(c, id, k)
  }

  lemma FirstInPrefix(c: seq<ContextItem>, k: nat)
    requires k < |c| - 1
    ensures FirstOfItsBlock(c[..|c| - 1], k) <==> FirstOfItsBlock(c, k)
  {
  }

  lemma NewBlockIffFirst(c: seq<ContextItem>)
    requires c != []
    ensures var item := c[|c| - 1];
            (item.target, item.parentBlock) !in Keys(c[..|c| - 1]) <==> FirstOfItsBlock(c, |c| - 1)
  {
    var init, item := c[..|c| - 1], c[|c| - 1];
    if (item.target, item.parentBlock) in Keys(init) {
      var other :| other in init && other.target == item.target && other.parentBlock == item.parentBlock;
      var j :| 0 <= j < |init| && init[j] == other;
      assert c[j] == other;
    }
    forall j | 0 <= j < |c| - 1 && c[j].target == item.target && c[j].parentBlock == item.parentBlock
      ensures (item.target, item.parentBlock) in Keys(init)
    {
      assert init[j] == c[j] && c[j] in init;
    }
  }

  lemma LastInPrefix(c: seq<ContextItem>, id: string, k: nat)
    requires k < |c| - 1
    ensures var n := |c| - 1;
            LastExternalAt(c, id, k)
            <==> LastExternalAt(c[..n], id, k) && !(c[n].target == id && FirstOfItsBlock(c, n))
  {
    var n := |c| - 1;
    var init := c[..n];
    forall m | 0 <= m < n ensures init[m] == c[m] && (FirstOfItsBlock(init, m) <==> FirstOfItsBlock(c, m)) {
      FirstInPrefix(c, m);
    }
  }

  lemma LastBlockOfOneMore(c: seq<ContextItem>, id: string)
    requires c != []
    ensures var n := |c| - 1;
            LastBlockIsExternal(c, id)
            <==> if c[n].target == id && FirstOfItsBlock(c, n)
                 then c[n].tier.CurrentExternal? || c[n].tier.StaleExternal?
                 else LastBlockIsExternal(c[..n], id)
  {
    var n := |c| - 1;
    if k :| 0 <= k < n && LastExternalAt(c[..n], id, k) {
      LastInPrefix(c, id, k);
    }
    if k :| 0 <= k < |c| && LastExternalAt(c, id, k) {
      if k < n { LastInPrefix(c, id, k); }
    }
    if c[n].target == id && FirstOfItsBlock(c, n) && (c[n].tier.CurrentExternal? || c[n].tier.StaleExternal?) {
      assert LastExternalAt(c, id, n);
    }
  }

  lemma {:induction false} FlagIsLastBlock(c: seq<ContextItem>, r: map<string, Resolution>, id: string)
    ensures var flags := ExternalFlags(Offered(c, r));
            (id in flags && flags[id]) <==> LastBlockIsExternal(c, id)
  {
    if c != [] {
      var init, item := c[..|c| - 1], c[|c| - 1];
      FlagIsLastBlock(init, r, id);
      NewBlockIffFirst(c);
      LastBlockOfOneMore(c, id);
      var ps := Offered(init, r);
      assert (ps + [PassageFor(item, r)])[..|ps|] == ps;
    }
  }

  // ---------------------------------------------------------------- what the prompt holds

  /** A payload in its tag. */
  function Tagged(s: E.RedactedSend, external: bool): string {
    "<source id=\"" + s.targetId + (if external then "\" kind=\"external\">\n" else "\" kind=\"note\">\n")
    + s.text + "\n</source>"
  }

  ghost function TaggedAll(sent: seq<E.RedactedSend>, c: seq<ContextItem>): seq<string> {
    seq(|sent|, k requires 0 <= k < |sent| => Tagged(sent[k], LastBlockIsExternal(c, sent[k].targetId)))
  }

  lemma SourcesAreTagged(st: Store, c: seq<ContextItem>, cfg: Config)
    ensures Sources(Sent(st, c, cfg), ExternalFlags(Offered(c, Resolve(st, c, cfg.scoped))))
            == TaggedAll(Sent(st, c, cfg), c)
  {
    var sent, r := Sent(st, c, cfg), Resolve(st, c, cfg.scoped);
    forall k | 0 <= k < |sent|
      ensures RenderSource(sent[k], ExternalFlags(Offered(c, r)))
              == Tagged(sent[k], LastBlockIsExternal(c, sent[k].targetId))
    {
      FlagIsLastBlock(c, r, sent[k].targetId);
    }
  }

  /** The prompt holds the question, and after it every payload that the audit row lists, in order, each
      in a tag with its target; the tag says external exactly when the target's last distinct block
      comes from an external tier. */
  lemma PromptShowsQuestionAndSources(st: Store, question: string, c: seq<ContextItem>, cfg: Config)
    returns (at: seq<nat>)
    ensures OccursAt("QUESTION:\n" + question, Prompt(st, question, c, cfg), 0)
    ensures InOrder(TaggedAll(Sent(st, c, cfg), c), Prompt(st, question, c, cfg), at, |question| + |"QUESTION:\n"|)
  {
    var pieces := TaggedAll(Sent(st, c, cfg), c);
    SourcesAreTagged(st, c, cfg);
    var head := "QUESTION:\n" + question + "\n\nSOURCES:\n";
    var places := JoinedInOrder(pieces, "\n\n");
    InOrderLater(pieces, Join(pieces, "\n\n"), places, 0, head);
    at := Moved(places, |head|);
    var front := "QUESTION:\n" + question;
    OccursAtStart(front, "\n\nSOURCES:\n");
    OccursInConcat(front, head, Join(pieces, "\n\n"), 0);
  }

  lemma OccursInside(s: string, piece: string, whole: string, p: nat, q: nat)
    requires OccursAt(s, piece, p) && OccursAt(piece, whole, q)
    ensures OccursAt(s, whole, q + p)
  {
    SliceOfSlice(whole, q, q + |piece|, p, p + |s|);
  }

  lemma InBetween(open: string, text: string, close: string)
    ensures OccursAt(text, open + text + close, |open|)
  {
    OccursAtStart(text, close);
    OccursInConcat(text, open, text + close, 0);
    ConcatAssociates(open, text, close);
  }

  lemma TextIsInTag(s: E.RedactedSend, external: bool) returns (p: nat)
    ensures OccursAt(s.text, Tagged(s, external), p)
  {
    var open := "<source id=\"" + s.targetId + if external then "\" kind=\"external\">\n" else "\" kind=\"note\">\n";
    InBetween(open, s.text, "\n</source>");
    p := |open|;
  }

  /** So the redacted text of a payload, word for word, is in the prompt. */
  lemma PromptShowsEveryPayload(st: Store, question: string, c: seq<ContextItem>, cfg: Config, k: nat)
    requires k < |Sent(st, c, cfg)|
    ensures IsSubstring(Sent(st, c, cfg)[k].text, Prompt(st, question, c, cfg))
  {
    var s, prompt := Sent(st, c, cfg)[k], Prompt(st, question, c, cfg);
    var external := LastBlockIsExternal(c, s.targetId);
    var at := PromptShowsQuestionAndSources(st, question, c, cfg);
    var p := TextIsInTag(s, external);
    assert TaggedAll(Sent(st, c, cfg), c)[k] == Tagged(s, external);
    OccursInside(s.text, Tagged(s, external), prompt, p, at[k]);
  }
}
