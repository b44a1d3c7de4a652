/** What an Ask keeps from the model, and what it promises about what it shows. */
module NonInterference {
  import opened Text
  import opened Targets
  import opened CitedAnswer
  import F = Faithfulness
  import E = Egress
  import G = Gate
  import R = Redact

  // ---------------------------------------------------------------- two runs

  /** Two contexts that differ only in what they hold of hidden targets, and two resolutions that
      differ only in hidden bodies. */
  ghost predicate Agree(c1: seq<ContextItem>, r1: map<string, Resolution>,
                        c2: seq<ContextItem>, r2: map<string, Resolution>) {
    && |c1| == |c2|
    && (forall k :: 0 <= k < |c1| ==> SameOutside(c1[k], c2[k], r1))
    && (forall id :: SameResolution(r1, r2, id))
  }

  predicate SameOutside(i1: ContextItem, i2: ContextItem, r: map<string, Resolution>) {
    i1.tier == i2.tier && i1.target == i2.target && (Hidden(r, i1.target) || i1 == i2)
  }

  predicate SameResolution(r1: map<string, Resolution>, r2: map<string, Resolution>, id: string) {
    && Hidden(r1, id) == Hidden(r2, id)
    && (!Hidden(r1, id) ==> (id in r1) == (id in r2) && (id in r1 ==> r1[id] == r2[id]))
  }

  lemma AgreeOnInit(c1: seq<ContextItem>, r1: map<string, Resolution>,
                    c2: seq<ContextItem>, r2: map<string, Resolution>)
    requires Agree(c1, r1, c2, r2) && c1 != []
    ensures Agree(c1[..|c1| - 1], r1, c2[..|c2| - 1], r2) && SameOutside(c1[|c1| - 1], c2[|c2| - 1], r1)
  {
  }

  lemma KeysAgree(c1: seq<ContextItem>, r1: map<string, Resolution>, c2: seq<ContextItem>, r2: map<string, Resolution>,
                  key: (string, string))
    requires Agree(c1, r1, c2, r2) && !Hidden(r1, key.0)
    ensures key in Keys(c1) <==> key in Keys(c2)
  {
    if key in Keys(c1) {
      var k :| 0 <= k < |c1| && (c1[k].target, c1[k].parentBlock) == key;
      assert SameOutside(c1[k], c2[k], r1);
      assert c2[k] in c2;
    }
    if key in Keys(c2) {
      var k :| 0 <= k < |c2| && (c2[k].target, c2[k].parentBlock) == key;
      assert SameOutside(c1[k], c2[k], r1);
      assert c1[k] in c1;
    }
  }

  lemma SideOfAppend(ps: seq<E.Passage>, p: E.Passage, withheld: bool)
    ensures E.Side(ps + [p], withheld) == E.Side(ps, withheld) + if p.noEgress == withheld then [p] else []
  {
    assert (ps + [p])[..|ps|] == ps;
  }

  lemma SendableStep(c: seq<ContextItem>, r: map<string, Resolution>)
    requires c != []
    ensures var init, item := c[..|c| - 1], c[|c| - 1];
            E.Side(Offered(c, r), false)
            == if (item.target, item.parentBlock) in Keys(init) || Hidden(r, item.target)
               then E.Side(Offered(init, r), false)
               else E.Side(Offered(init, r), false) + [PassageFor(item, r)]
  {
    var init, item := c[..|c| - 1], c[|c| - 1];
    EmptyIsUnit(E.Side(Offered(init, r), false));
    SideOfAppend(Offered(init, r), PassageFor(item, r), false);
  }

  lemma {:induction false} SendableAgrees(c1: seq<ContextItem>, r1: map<string, Resolution>,
                                          c2: seq<ContextItem>, r2: map<string, Resolution>)
    requires Agree(c1, r1, c2, r2)
    ensures E.Side(Offered(c1, r1), false) == E.Side(Offered(c2, r2), false)
  {
    if c1 != [] {
      var n := |c1| - 1;
      AgreeOnInit(c1, r1, c2, r2);
      SendableAgrees(c1[..n], r1, c2[..n], r2);
      SendableStep(c1, r1);
      SendableStep(c2, r2);
      LastAgrees(c1, r1, c2, r2);
    }
  }

  /** The last items are one item, new or old in both runs, unless they are hidden in both. */
  lemma LastAgrees(c1: seq<ContextItem>, r1: map<string, Resolution>, c2: seq<ContextItem>, r2: map<string, Resolution>)
    requires Agree(c1, r1, c2, r2) && c1 != []
    ensures var n := |c1| - 1;
            var i1, i2 := c1[n], c2[n];
            && i1.target == i2.target && Hidden(r1, i1.target) == Hidden(r2, i1.target)
            && (!Hidden(r1, i1.target) ==>
                  && i1 == i2
                  && ((i1.target, i1.parentBlock) in Keys(c1[..n]) <==> (i2.target, i2.parentBlock) in Keys(c2[..n])))
  {
    var n := |c1| - 1;
    AgreeOnInit(c1, r1, c2, r2);
    assert SameResolution(r1, r2, c1[n].target);
    if !Hidden(r1, c1[n].target) {
      KeysAgree(c1[..n], r1, c2[..n], r2, (c1[n].target, c1[n].parentBlock));
    }
  }

  function Flag(flags: map<string, bool>, id: string): bool {
    id in flags && flags[id]
  }

  lemma FlagStep(c: seq<ContextItem>, r: map<string, Resolution>, id: string)
    requires c != []
    ensures var init, item := c[..|c| - 1], c[|c| - 1];
            Flag(ExternalFlags(Offered(c, r)), id)
            == if item.target == id && (id, item.parentBlock) !in Keys(init) then item.tier.IsExternal()
               else Flag(ExternalFlags(Offered(init, r)), id)
  {
    var ps, p := Offered(c[..|c| - 1], r), PassageFor(c[|c| - 1], r);
    assert (ps + [p])[..|ps|] == ps;
  }

  lemma {:induction false} FlagsAgree(c1: seq<ContextItem>, r1: map<string, Resolution>,
                                      c2: seq<ContextItem>, r2: map<string, Resolution>, id: string)
    requires Agree(c1, r1, c2, r2) && !Hidden(r1, id)
    ensures Flag(ExternalFlags(Offered(c1, r1)), id) == Flag(ExternalFlags(Offered(c2, r2)), id)
  {
    if c1 != [] {
      var n := |c1| - 1;
      AgreeOnInit(c1, r1, c2, r2);
      FlagsAgree(c1[..n], r1, c2[..n], r2, id);
      FlagStep(c1, r1, id);
      FlagStep(c2, r2, id);
      LastAgrees(c1, r1, c2, r2);
    }
  }

  lemma {:induction false} BodiesAgree(c1: seq<ContextItem>, r1: map<string, Resolution>,
                                       c2: seq<ContextItem>, r2: map<string, Resolution>)
    requires Agree(c1, r1, c2, r2)
    ensures Bodies(c1, r1) == Bodies(c2, r2)
  {
    if c1 != [] {
      var n := |c1| - 1;
      AgreeOnInit(c1, r1, c2, r2);
      BodiesAgree(c1[..n], r1, c2[..n], r2);
      assert SameResolution(r1, r2, c1[n].target);
    }
  }

  lemma {:induction false} RangesAgree(c1: seq<ContextItem>, r1: map<string, Resolution>,
                                       c2: seq<ContextItem>, r2: map<string, Resolution>, id: string)
    requires Agree(c1, r1, c2, r2) && !Hidden(r1, id)
    ensures RangesFor(c1, id) == RangesFor(c2, id)
  {
    if c1 != [] {
      AgreeOnInit(c1, r1, c2, r2);
      RangesAgree(c1[..|c1| - 1], r1, c2[..|c2| - 1], r2, id);
    }
  }

  // ---------------------------------------------------------------- from stores to resolutions

  /** Two stores alike but for the bodies of targets hidden in the first run. */
  ghost predicate StoresDifferOnlyIn(s1: Store, s2: Store, r1: map<string, Resolution>) {
    && s1.noteFlags == s2.noteFlags && s1.externals == s2.externals
    && s1.versions.Keys == s2.versions.Keys && s1.snapshots.Keys == s2.snapshots.Keys
    && (forall id :: id in s1.versions ==>
          && s1.versions[id].noteId == s2.versions[id].noteId
          && (s1.versions[id].body == s2.versions[id].body || Hidden(r1, id)))
    && (forall id :: id in s1.snapshots ==>
          && s1.snapshots[id].externalId == s2.snapshots[id].externalId
          && (s1.snapshots[id].body == s2.snapshots[id].body || Hidden(r1, id)))
  }

  /** Two runs that differ only in the bodies and passage text of targets resolved as no_egress. */
  ghost predicate DifferOnlyInHidden(s1: Store, c1: seq<ContextItem>, s2: Store, c2: seq<ContextItem>,
                                     scoped: (string, string) -> bool) {
    var r1 := Resolve(s1, c1, scoped);
    && StoresDifferOnlyIn(s1, s2, r1)
    && |c1| == |c2| && forall k :: 0 <= k < |c1| ==> SameOutside(c1[k], c2[k], r1)
  }

  lemma SameTargets(c1: seq<ContextItem>, c2: seq<ContextItem>)
    requires |c1| == |c2| && forall k :: 0 <= k < |c1| ==> c1[k].tier == c2[k].tier && c1[k].target == c2[k].target
    ensures NoteIds(c1) == NoteIds(c2) && ExternalIds(c1) == ExternalIds(c2)
  {
    forall id
      ensures id in NoteIds(c1) <==> id in NoteIds(c2)
      ensures id in ExternalIds(c1) <==> id in ExternalIds(c2)
    {
      forall k | 0 <= k < |c1| ensures c1[k] in c1 && c2[k] in c2 {}
    }
  }

  lemma ResolutionsAgree(s1: Store, c1: seq<ContextItem>, s2: Store, c2: seq<ContextItem>,
                         scoped: (string, string) -> bool)
    requires DifferOnlyInHidden(s1, c1, s2, c2, scoped)
    ensures Agree(c1, Resolve(s1, c1, scoped), c2, Resolve(s2, c2, scoped))
  {
    SameTargets(c1, c2);
    var r1, r2 := Resolve(s1, c1, scoped), Resolve(s2, c2, scoped);
    forall id
      ensures SameResolution(r1, r2, id)
    {
      ResolvesAlike(s1, s2, r1, NoteIds(c1), ExternalIds(c1), scoped, id);
    }
  }

  lemma ResolvesAlike(s1: Store, s2: Store, r1: map<string, Resolution>, notes: set<string>, externals: set<string>,
                      scoped: (string, string) -> bool, id: string)
    requires StoresDifferOnlyIn(s1, s2, r1)
    requires r1 == NoteRows(s1, notes) + ExternalRows(s1, externals, scoped)
    ensures SameResolution(r1, NoteRows(s2, notes) + ExternalRows(s2, externals, scoped), id)
  {
    var n1, n2 := NoteTarget(s1, id), NoteTarget(s2, id);
    var e1, e2 := ExternalTarget(s1, id, scoped), ExternalTarget(s2, id, scoped);
    assert n1.Some? == n2.Some? && (n1.Some? ==> n1.value.noEgress == n2.value.noEgress);
    assert e1.Some? == e2.Some? && (e1.Some? ==> e1.value.noEgress == e2.value.noEgress);
    if !Hidden(r1, id) {
      assert n1 == n2 && e1 == e2;
    }
  }

  // ---------------------------------------------------------------- non-interference

  lemma SourcesAgree(sent: seq<E.RedactedSend>, f1: map<string, bool>, f2: map<string, bool>)
    requires forall s :: s in sent ==> Flag(f1, s.targetId) == Flag(f2, s.targetId)
    ensures Sources(sent, f1) == Sources(sent, f2)
  {
  }

  lemma {:induction false} OfferedComeFromContext(c: seq<ContextItem>, r: map<string, Resolution>, p: E.Passage)
    requires p in Offered(c, r)
    ensures exists k :: 0 <= k < |c| && p == PassageFor(c[k], r)
  {
    var n := |c| - 1;
    if p in Offered(c[..n], r) {
      OfferedComeFromContext(c[..n], r, p);
      var k :| 0 <= k < n && p == PassageFor(c[..n][k], r);
      assert p == PassageFor(c[k], r);
    }
  }

  predicate Offers(p: E.Passage, item: ContextItem, r: map<string, Resolution>) {
    p.targetId == item.target && p.text == item.parentBlock && p.noEgress == Hidden(r, item.target)
  }

  lemma {:induction false} EveryItemIsOffered(c: seq<ContextItem>, r: map<string, Resolution>, k: nat)
    requires k < |c|
    ensures exists p :: p in Offered(c, r) && Offers(p, c[k], r)
  {
    var n := |c| - 1;
    if k < n {
      EveryItemIsOffered(c[..n], r, k);
      var p :| p in Offered(c[..n], r) && Offers(p, c[k], r);
      assert p in Offered(c, r);
    } else if (c[n].target, c[n].parentBlock) in Keys(c[..n]) {
      var j :| 0 <= j < n && (c[j].target, c[j].parentBlock) == (c[n].target, c[n].parentBlock);
      EveryItemIsOffered(c[..n], r, j);
      var p :| p in Offered(c[..n], r) && Offers(p, c[..n][j], r);
      assert p in Offered(c, r) && Offers(p, c[k], r);
    } else {
      assert PassageFor(c[n], r) in Offered(c, r);
    }
  }

  /** A withheld citation names a hidden target of the context, and every such target is named. */
  lemma WithheldAreTheHiddenTargets(c: seq<ContextItem>, r: map<string, Resolution>, id: string)
    ensures (exists p :: p in E.Side(Offered(c, r), true) && p.targetId == id)
            <==> Hidden(r, id) && exists k :: 0 <= k < |c| && c[k].target == id
  {
    if p :| p in E.Side(Offered(c, r), true) && p.targetId == id {
      E.SideHolds(Offered(c, r), true, p);
      OfferedComeFromContext(c, r, p);
    }
    if Hidden(r, id) {
      if k :| 0 <= k < |c| && c[k].target == id {
        EveryItemIsOffered(c, r, k);
        var p :| p in Offered(c, r) && Offers(p, c[k], r);
        E.SideHolds(Offered(c, r), true, p);
      }
    }
  }

  lemma PromptsAgree(c1: seq<ContextItem>, r1: map<string, Resolution>,
                     c2: seq<ContextItem>, r2: map<string, Resolution>, ps: seq<R.Pattern>, question: string)
    requires Agree(c1, r1, c2, r2)
    ensures E.SentFor(Offered(c1, r1), ps) == E.SentFor(Offered(c2, r2), ps)
    ensures UserPrompt(question, E.SentFor(Offered(c1, r1), ps), ExternalFlags(Offered(c1, r1)))
            == UserPrompt(question, E.SentFor(Offered(c2, r2), ps), ExternalFlags(Offered(c2, r2)))
  {
    SendableAgrees(c1, r1, c2, r2);
    var sent := E.SentFor(Offered(c1, r1), ps);
    forall s | s in sent
      ensures Flag(ExternalFlags(Offered(c1, r1)), s.targetId) == Flag(ExternalFlags(Offered(c2, r2)), s.targetId)
    {
      var k :| 0 <= k < |sent| && s == sent[k];
      var p := E.Side(Offered(c1, r1), false)[k];
      E.SideHolds(Offered(c1, r1), false, p);
      OfferedComeFromContext(c1, r1, p);
      FlagsAgree(c1, r1, c2, r2, s.targetId);
    }
    SourcesAgree(sent, ExternalFlags(Offered(c1, r1)), ExternalFlags(Offered(c2, r2)));
  }

  /** No tool fetched a hidden target: a fetch refuses what the flag or a scope rule withholds. */
  predicate FetchedNothingHidden(fetched: map<string, string>, r: map<string, Resolution>) {
    forall id :: id in fetched ==> !Hidden(r, id)
  }

  lemma StampsAgree(claims: seq<G.Claim>, c1: seq<ContextItem>, r1: map<string, Resolution>,
                    c2: seq<ContextItem>, r2: map<string, Resolution>, fetched: map<string, string>)
    requires Agree(c1, r1, c2, r2) && FetchedNothingHidden(fetched, r1)
    ensures Stamped(claims, c1, Bodies(c1, r1) + fetched) == Stamped(claims, c2, Bodies(c2, r2) + fetched)
  {
    BodiesAgree(c1, r1, c2, r2);
    var bodies := Bodies(c1, r1) + fetched;
    forall s: G.Support
      ensures StampedSupport(s, c1, bodies) == StampedSupport(s, c2, bodies)
    {
      var id := s.target.id;
      if id in bodies {
        if id !in fetched { BodiesHoldCleared(c1, r1, id); }
        RangesAgree(c1, r1, c2, r2, id);
      }
    }
    forall k | 0 <= k < |claims|
      ensures StampedClaim(claims[k], c1, bodies) == StampedClaim(claims[k], c2, bodies)
    {
    }
  }

  /** The gate checks quotes against the bodies of the targets that may be sent, and no others. */
  lemma {:induction false} BodiesHoldCleared(c: seq<ContextItem>, r: map<string, Resolution>, id: string)
    ensures id in Bodies(c, r) <==> id in r && !Hidden(r, id) && exists k :: 0 <= k < |c| && c[k].target == id
    ensures id in Bodies(c, r) ==> Bodies(c, r)[id] == r[id].body
  {
    if c != [] {
      BodiesHoldCleared(c[..|c| - 1], r, id);
      if k :| 0 <= k < |c| && c[k].target == id {
        assert k < |c| - 1 ==> c[..|c| - 1][k].target == id;
      }
    }
  }

  /** Non-interference: what is hidden has no influence on the payloads, the prompt, the audit row,
      the surviving claims, their offsets, or which targets are reported withheld. */
  lemma HiddenTextHasNoInfluence(s1: Store, c1: seq<ContextItem>, s2: Store, c2: seq<ContextItem>,
                                 question: string, cfg: Config)
    requires DifferOnlyInHidden(s1, c1, s2, c2, cfg.scoped)
    requires var reply := cfg.provider(Prompt(s1, question, c1, cfg));
             reply.Some? ==> FetchedNothingHidden(reply.value.fetched, Resolve(s1, c1, cfg.scoped))
    ensures Sent(s1, c1, cfg) == Sent(s2, c2, cfg)
    ensures Prompt(s1, question, c1, cfg) == Prompt(s2, question, c2, cfg)
    ensures E.AuditRow(cfg.model, Sent(s1, c1, cfg)) == E.AuditRow(cfg.model, Sent(s2, c2, cfg))
    ensures ShownClaims(s1, question, c1, cfg) == ShownClaims(s2, question, c2, cfg)
    ensures WithheldIds(s1, c1, cfg) == WithheldIds(s2, c2, cfg)
  {
    var r1, r2 := Resolve(s1, c1, cfg.scoped), Resolve(s2, c2, cfg.scoped);
    ResolutionsAgree(s1, c1, s2, c2, cfg.scoped);
    PromptsAgree(c1, r1, c2, r2, cfg.patterns, question);
    BodiesAgree(c1, r1, c2, r2);
    var reply := cfg.provider(Prompt(s1, question, c1, cfg));
    if reply.Some? {
      var fetched := reply.value.fetched;
      StampsAgree(G.ApplyGate(reply.value.claims, Bodies(c1, r1) + fetched, cfg.judge), c1, r1, c2, r2, fetched);
    }
    WithheldAgrees(c1, r1, c2, r2);
  }

  function WithheldIds(st: Store, c: seq<ContextItem>, cfg: Config): set<string> {
    IdsOf(E.Side(Offered(c, Resolve(st, c, cfg.scoped)), true))
  }

  function IdsOf(ps: seq<E.Passage>): set<string> {
    set p | p in ps :: p.targetId
  }

  lemma WithheldAgrees(c1: seq<ContextItem>, r1: map<string, Resolution>,
                       c2: seq<ContextItem>, r2: map<string, Resolution>)
    requires Agree(c1, r1, c2, r2)
    ensures IdsOf(E.Side(Offered(c1, r1), true)) == IdsOf(E.Side(Offered(c2, r2), true))
  {
    forall id
      ensures id in IdsOf(E.Side(Offered(c1, r1), true)) <==> id in IdsOf(E.Side(Offered(c2, r2), true))
    {
      WithheldAreTheHiddenTargets(c1, r1, id);
      WithheldAreTheHiddenTargets(c2, r2, id);
      assert SameResolution(r1, r2, id);
      assert forall k :: 0 <= k < |c1| ==> SameOutside(c1[k], c2[k], r1);
    }
  }

  // ---------------------------------------------------------------- what is shown

  /** A block of context reaches the payloads unless its target resolves as no_egress; a target the
      store does not know resolves to nothing, so its block is sent. */
  lemma SentUnlessHidden(st: Store, c: seq<ContextItem>, cfg: Config, k: nat)
    requires k < |c|
    ensures var sent, (text, n) := Sent(st, c, cfg), R.Redacted(c[k].parentBlock, cfg.patterns);
            if Hidden(Resolve(st, c, cfg.scoped), c[k].target)
            then forall s :: s in sent ==> s.targetId != c[k].target
            else E.RedactedSend(c[k].target, text, n) in sent
  {
    var r := Resolve(st, c, cfg.scoped);
    var sent, side := Sent(st, c, cfg), E.Side(Offered(c, r), false);
    if Hidden(r, c[k].target) {
      forall s | s in sent
        ensures s.targetId != c[k].target
      {
        var m :| 0 <= m < |sent| && s == sent[m];
        E.SideHolds(Offered(c, r), false, side[m]);
        OfferedComeFromContext(c, r, side[m]);
      }
    } else {
      EveryItemIsOffered(c, r, k);
      var p :| p in Offered(c, r) && Offers(p, c[k], r);
      E.SideHolds(Offered(c, r), false, p);
      var m :| 0 <= m < |side| && side[m] == p;
      assert sent[m] == E.SendOf(p, cfg.patterns);
    }
  }

  const NO_ROWS := Store(map[], map[], map[], map[])

  /** A block of a target that the store does not know: it is sent. */
  lemma UnknownTargetIsSent(item: ContextItem, cfg: Config)
    ensures var (text, n) := R.Redacted(item.parentBlock, cfg.patterns);
            E.RedactedSend(item.target, text, n) in Sent(NO_ROWS, [item], cfg)
  {
    assert !Hidden(Resolve(NO_ROWS, [item], cfg.scoped), item.target);
    SentUnlessHidden(NO_ROWS, [item], cfg, 0);
  }

  /** Every quote shown stands, up to white space, in the body of a snapshot that a tool fetched, or in
      the stored body of a target whose text was in the payloads; a quote of anything withheld, unknown
      or made up is never shown. */
  lemma ShownQuotesWereSent(st: Store, question: string, c: seq<ContextItem>, cfg: Config,
                            shown: seq<G.Claim>, k: nat, m: nat)
    requires ShownClaims(st, question, c, cfg) == Some(shown)
    requires k < |shown| && m < |shown[k].support| && shown[k].support[m].quotedSpan != ""
    ensures var s, r := shown[k].support[m], Resolve(st, c, cfg.scoped);
            var id, fetched := s.target.id, cfg.provider(Prompt(st, question, c, cfg)).value.fetched;
            && (id in fetched
                || (id in r && !r[id].noEgress && exists sent :: sent in Sent(st, c, cfg) && sent.targetId == id))
            && StandsUpToSpace(s.quotedSpan, if id in fetched then fetched[id] else r[id].body)
  {
    var r, reply := Resolve(st, c, cfg.scoped), cfg.provider(Prompt(st, question, c, cfg)).value;
    var bodies := Bodies(c, r) + reply.fetched;
    var claim := G.ApplyGate(reply.claims, bodies, cfg.judge)[k];
    var s := claim.support[m];
    G.SurvivorsSurvive(reply.claims, bodies, cfg.judge, claim);
    if s.target.id !in bodies { G.MissingBodyDropsTheClaim(claim, m, bodies, cfg.judge); }
    if s.target.id !in reply.fetched {
      BodiesHoldCleared(c, r, s.target.id);
      var i :| 0 <= i < |c| && c[i].target == s.target.id;
      SentUnlessHidden(st, c, cfg, i);
    }
    assert s in claim.support;
    StandingQuote(s.quotedSpan, bodies[s.target.id]);
  }

  /** The span check passes, and for a span with a visible character normalised text holds it. */
  ghost predicate StandsUpToSpace(span: string, body: string) {
    && F.SpanOccurs(span, body)
    && (Words(span) != [] ==> IsSubstring(F.NormalizeWhitespace(span), F.NormalizeWhitespace(body)))
  }

  lemma StandingQuote(span: string, body: string)
    requires F.SpanOccurs(span, body)
    ensures StandsUpToSpace(span, body)
  {
    if Words(span) != [] { F.LocateAgreesWithNormalizedSearch(span, body, None); }
  }

  lemma LocatedIsTheSpan(span: string, text: string)
    requires F.LocateSpan(span, text, None).Some?
    ensures var (i, j) := F.LocateSpan(span, text, None).value;
            i <= j <= |text| && F.NormalizeWhitespace(text[i..j]) == F.NormalizeWhitespace(span)
  {
    if Words(span) != [] { F.LocateAgreesWithNormalizedSearch(span, text, None); }
  }

  lemma SliceOfPySlice(body: string, a: int, b: int, i: nat, j: nat)
    requires i <= j <= |PySlice(body, a, b)| && PySlice(body, a, b) != ""
    ensures var lo := SliceBound(a, |body|);
            && lo + j <= SliceBound(b, |body|) && body[lo + i..lo + j] == PySlice(body, a, b)[i..j]
            && (lo == a <==> a >= 0)
  {
    SliceOfSlice(body, SliceBound(a, |body|), SliceBound(b, |body|), i, j);
  }

  lemma LocatedInText(span: string, text: string)
    requires span != "" && F.LocateSpan(span, text, None).Some?
    ensures text != ""
  {
    if text == "" { G.NothingOccursInEmpty(span); }
  }

  /** `body[o..e]` is the span up to white space, inside a range and at the located place. */
  ghost predicate StandsIn(span: string, body: string, range: (int, int), i: nat, o: nat, e: nat) {
    && o == SliceBound(range.0, |body|) + i && o <= e <= SliceBound(range.1, |body|)
    && F.NormalizeWhitespace(body[o..e]) == F.NormalizeWhitespace(span)
  }

  /** `text[m.0..m.1]` is the span up to white space. */
  ghost predicate IsHit(span: string, text: string, m: F.Span) {
    text != "" && m.0 <= m.1 <= |text| && F.NormalizeWhitespace(text[m.0..m.1]) == F.NormalizeWhitespace(span)
  }

  lemma LocatorFindsHits(span: string, body: string, range: (int, int), m: F.Span)
    requires span != "" && LocatorFor(span, body)(range) == Some(m)
    ensures IsHit(span, PySlice(body, range.0, range.1), m)
  {
    var text := PySlice(body, range.0, range.1);
    LocatedInText(span, text);
    LocatedIsTheSpan(span, text);
  }

  lemma HitStandsInRange(span: string, body: string, range: (int, int), m: F.Span)
    requires IsHit(span, PySlice(body, range.0, range.1), m)
    ensures StandsIn(span, body, range, m.0, StartOf(body, range) + m.0, StartOf(body, range) + m.1)
    ensures StartOf(body, range) == range.0 <==> range.0 >= 0
  {
    SliceOfPySlice(body, range.0, range.1, m.0, m.1);
  }

  lemma {:induction false} FirstHitIsFirst(ranges: seq<(int, int)>, hit: ((int, int)) -> Option<F.Span>)
    returns (k: nat)
    requires FirstHit(ranges, hit).Some?
    ensures k < |ranges| && hit(ranges[k]).Some? && forall j :: 0 <= j < k ==> hit(ranges[j]).None?
    ensures FirstHit(ranges, hit) == Some(ranges[k].0 + hit(ranges[k]).value.0)
  {
    if hit(ranges[0]).Some? {
      k := 0;
    } else {
      k := FirstHitIsFirst(ranges[1..], hit);
      k := k + 1;
    }
  }

  ghost predicate FindsHits(hit: ((int, int)) -> Option<F.Span>, span: string, body: string) {
    forall r, m :: hit(r) == Some(m) ==> IsHit(span, PySlice(body, r.0, r.1), m)
  }

  /** Range `k` is the first with a hit, the span stands at `o..e` in it, and `offset` is `o`
      exactly when the range does not start below zero. */
  ghost predicate PlacedBy(hit: ((int, int)) -> Option<F.Span>, span: string, body: string, ranges: seq<(int, int)>,
                           offset: int, k: nat, i: nat, o: nat, e: nat) {
    && k < |ranges| && (forall j :: 0 <= j < k ==> hit(ranges[j]).None?)
    && StandsIn(span, body, ranges[k], i, o, e)
    && (offset == o <==> ranges[k].0 >= 0)
  }

  lemma FirstHitIsPlaced(hit: ((int, int)) -> Option<F.Span>, span: string, body: string, ranges: seq<(int, int)>)
    returns (k: nat, i: nat, o: nat, e: nat)
    requires FindsHits(hit, span, body) && FirstHit(ranges, hit).Some?
    ensures PlacedBy(hit, span, body, ranges, FirstHit(ranges, hit).value, k, i, o, e)
  {
    k := FirstHitIsFirst(ranges, hit);
    var m := hit(ranges[k]).value;
    assert IsHit(span, PySlice(body, ranges[k].0, ranges[k].1), m) by { assert hit(ranges[k]) == Some(m); }
    HitStandsInRange(span, body, ranges[k], m);
    i, o, e := m.0, StartOf(body, ranges[k]) + m.0, StartOf(body, ranges[k]) + m.1;
  }

  /** A stamped offset is the place of the quote in the first retrieved passage that holds it,
      exactly when that passage's range does not start below zero. */
  lemma OffsetIsThePlace(span: string, body: string, ranges: seq<(int, int)>)
    returns (k: nat, i: nat, o: nat, e: nat)
    requires span != "" && OffsetIn(span, body, ranges).Some?
    ensures PlacedBy(LocatorFor(span, body), span, body, ranges, OffsetIn(span, body, ranges).value, k, i, o, e)
  {
    forall r, m | LocatorFor(span, body)(r) == Some(m)
      ensures IsHit(span, PySlice(body, r.0, r.1), m)
    {
      LocatorFindsHits(span, body, r, m);
    }
    k, i, o, e := FirstHitIsPlaced(LocatorFor(span, body), span, body, ranges);
  }

  function StartOf(body: string, range: (int, int)): nat {
    SliceBound(range.0, |body|)
  }

  // ---------------------------------------------------------------- what hidden text does change

  /** The distinct blocks of a target in the context. */
  function Blocks(c: seq<ContextItem>, id: string): set<string> {
    set item | item in c && item.target == id :: item.parentBlock
  }

  /** How often a target is in a list of passages. */
  function Listed(ps: seq<E.Passage>, id: string): nat {
    if ps == [] then 0
    else Listed(ps[..|ps| - 1], id) + if ps[|ps| - 1].targetId == id then 1 else 0
  }

  lemma ListedOfAppend(ps: seq<E.Passage>, p: E.Passage, id: string)
    ensures Listed(ps + [p], id) == Listed(ps, id) + if p.targetId == id then 1 else 0
  {
    assert (ps + [p])[..|ps|] == ps;
  }

  lemma WithheldStep(c: seq<ContextItem>, r: map<string, Resolution>, id: string)
    requires c != [] && Hidden(r, id)
    ensures var init, item := c[..|c| - 1], c[|c| - 1];
            Listed(E.Side(Offered(c, r), true), id)
            == Listed(E.Side(Offered(init, r), true), id)
               + if item.target == id && (id, item.parentBlock) !in Keys(init) then 1 else 0
  {
    var init, item := c[..|c| - 1], c[|c| - 1];
    var side, p := E.Side(Offered(init, r), true), PassageFor(item, r);
    EmptyIsUnit(side);
    SideOfAppend(Offered(init, r), p, true);
    ListedOfAppend(side, p, id);
  }

  lemma BlocksStep(c: seq<ContextItem>, id: string)
    requires c != []
    ensures var init, item := c[..|c| - 1], c[|c| - 1];
            |Blocks(c, id)|
            == |Blocks(init, id)| + if item.target == id && (id, item.parentBlock) !in Keys(init) then 1 else 0
  {
    var init, item := c[..|c| - 1], c[|c| - 1];
    assert c == init + [item];
    var blocks, b := Blocks(init, id), item.parentBlock;
    if item.target != id {
      assert Blocks(c, id) == blocks;
    } else {
      assert Blocks(c, id) == blocks + {b};
      if (id, b) in Keys(init) {
        var other :| other in init && (other.target, other.parentBlock) == (id, b);
        assert b in blocks && blocks + {b} == blocks;
      }
    }
  }

  /** A hidden target is listed as withheld once for each distinct block of it in the context. */
  lemma {:induction false} WithheldOncePerBlock(c: seq<ContextItem>, r: map<string, Resolution>, id: string)
    requires Hidden(r, id)
    ensures Listed(E.Side(Offered(c, r), true), id) == |Blocks(c, id)|
  {
    if c != [] {
      WithheldOncePerBlock(c[..|c| - 1], r, id);
      WithheldStep(c, r, id);
      BlocksStep(c, id);
    }
  }

  /** Two runs that differ only in what is hidden list a hidden target equally often if and only if
      their contexts hold equally many distinct blocks of it. */
  lemma WithheldCountsAgreeIffBlocksDo(s1: Store, c1: seq<ContextItem>, s2: Store, c2: seq<ContextItem>,
                                       scoped: (string, string) -> bool, id: string)
    requires DifferOnlyInHidden(s1, c1, s2, c2, scoped) && Hidden(Resolve(s1, c1, scoped), id)
    ensures Listed(E.Side(Offered(c1, Resolve(s1, c1, scoped)), true), id)
            == Listed(E.Side(Offered(c2, Resolve(s2, c2, scoped)), true), id)
            <==> |Blocks(c1, id)| == |Blocks(c2, id)|
  {
    ResolutionsAgree(s1, c1, s2, c2, scoped);
    assert SameResolution(Resolve(s1, c1, scoped), Resolve(s2, c2, scoped), id);
    WithheldOncePerBlock(c1, Resolve(s1, c1, scoped), id);
    WithheldOncePerBlock(c2, Resolve(s2, c2, scoped), id);
  }

  const TWICE := ContextItem(OwnedNote, "v", None, "a", "a")
  const OTHER := ContextItem(OwnedNote, "v", None, "b", "b")
  const STORE := Store(map["v" := VersionRow("n", "ab", false, false)], map["n" := true], map[], map[])

  lemma NoteHidden(c: seq<ContextItem>, scoped: (string, string) -> bool)
    requires c == [TWICE, TWICE] || c == [TWICE, OTHER]
    ensures Hidden(Resolve(STORE, c, scoped), "v")
  {
    assert c[0] in c && "v" in NoteIds(c);
    assert "v" in NoteRows(STORE, NoteIds(c)) && "v" !in ExternalRows(STORE, ExternalIds(c), scoped);
  }

  lemma StoreIsLikeItself(st: Store, r: map<string, Resolution>)
    ensures StoresDifferOnlyIn(st, st, r)
  {
  }

  lemma ItemsDifferInHidden(r: map<string, Resolution>)
    requires Hidden(r, "v")
    ensures SameOutside(TWICE, TWICE, r) && SameOutside(TWICE, OTHER, r)
  {
  }

  lemma ExampleBlocks()
    ensures |Blocks([TWICE, TWICE], "v")| == 1 && |Blocks([TWICE, OTHER], "v")| == 2
  {
    assert [TWICE, OTHER][0] == TWICE && [TWICE, OTHER][1] == OTHER && [TWICE, TWICE][0] == TWICE;
    assert Blocks([TWICE, TWICE], "v") == {"a"} && Blocks([TWICE, OTHER], "v") == {"a", "b"};
    assert "a"[0] != "b"[0];
  }

  /** Such a pair of runs: two passages of one hidden target count once when their blocks are equal
      and twice when they are not. */
  lemma WithheldCountDependsOnHiddenText(scoped: (string, string) -> bool)
    ensures var c1, c2 := [TWICE, TWICE], [TWICE, OTHER];
            && DifferOnlyInHidden(STORE, c1, STORE, c2, scoped)
            && Listed(E.Side(Offered(c1, Resolve(STORE, c1, scoped)), true), "v") == 1
            && Listed(E.Side(Offered(c2, Resolve(STORE, c2, scoped)), true), "v") == 2
  {
    var r1, r2 := Resolve(STORE, [TWICE, TWICE], scoped), Resolve(STORE, [TWICE, OTHER], scoped);
    NoteHidden([TWICE, TWICE], scoped);
    NoteHidden([TWICE, OTHER], scoped);
    StoreIsLikeItself(STORE, r1);
    ItemsDifferInHidden(r1);
    WithheldOncePerBlock([TWICE, TWICE], r1, "v");
    WithheldOncePerBlock([TWICE, OTHER], r2, "v");
    ExampleBlocks();
  }
}
