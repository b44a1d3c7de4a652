/** Ask: offer context to the model, gate what comes back, and point each quote at its place. */
module CitedAnswer {
  import opened Text
  import opened Targets
  import F = Faithfulness
  import E = Egress
  import G = Gate
  import C = Chunking
  import R = Redact

  datatype Tier = OwnedNote | UserAnnotation | CurrentExternal | StaleExternal | AiEdge {
    predicate IsExternal() {
      CurrentExternal? || StaleExternal?
    }
  }

  datatype ContextItem = ContextItem(tier: Tier, target: string, charRange: Option<string>,
                                     passageText: string, parentBlock: string)

  // ---------------------------------------------------------------- the store

  datatype Resolution = Resolution(body: string, noEgress: bool)

  /** What comes back: claims, and the bodies of the snapshots that tools fetched meanwhile. */
  datatype Reply = Reply(claims: seq<G.Claim>, fetched: map<string, string>)

  /** What an Ask is configured with: the model's name, the redaction patterns, the scope rules as
      a predicate on an external's id and source type, the model as a function of the prompt that may
      raise, and the gate's judge. */
  datatype Config = Config(model: string, patterns: seq<R.Pattern>, scoped: (string, string) -> bool,
                           provider: string -> Option<Reply>, judge: G.Judge)

  /** `versions JOIN notes` on one id. */
  function NoteTarget(st: Store, id: string): Option<Resolution> {
    if id in st.versions && st.versions[id].noteId in st.noteFlags
    then Some(Resolution(st.versions[id].body, st.noteFlags[st.versions[id].noteId]))
    else None
  }

  /** `snapshots JOIN externals` on one id; either the row's flag or a scope rule withholds. */
  function ExternalTarget(st: Store, id: string, scoped: (string, string) -> bool): Option<Resolution> {
    if id in st.snapshots && st.snapshots[id].externalId in st.externals
    then
      var s := st.snapshots[id];
      var e := st.externals[s.externalId];
      Some(Resolution(s.body, e.noEgress || scoped(s.externalId, e.sourceType)))
    else None
  }

  function NoteIds(context: seq<ContextItem>): set<string> {
    set item | item in context && !item.tier.IsExternal() :: item.target
  }

  function ExternalIds(context: seq<ContextItem>): set<string> {
    set item | item in context && item.tier.IsExternal() :: item.target
  }

  function NoteRows(st: Store, ids: set<string>): map<string, Resolution> {
    map id | id in ids && NoteTarget(st, id).Some? :: NoteTarget(st, id).value
  }

  function ExternalRows(st: Store, ids: set<string>, scoped: (string, string) -> bool): map<string, Resolution> {
    map id | id in ids && ExternalTarget(st, id, scoped).Some? :: ExternalTarget(st, id, scoped).value
  }

  function Resolve(st: Store, context: seq<ContextItem>, scoped: (string, string) -> bool): map<string, Resolution> {
    NoteRows(st, NoteIds(context)) + ExternalRows(st, ExternalIds(context), scoped)
  }

  lemma NoteRowsGrow(st: Store, done: set<string>, id: string)
    ensures NoteRows(st, done + {id})
            == var r := NoteTarget(st, id); if r.Some? then NoteRows(st, done)[id := r.value] else NoteRows(st, done)
  {
  }

  lemma ExternalRowsGrow(st: Store, done: set<string>, scoped: (string, string) -> bool, id: string)
    ensures ExternalRows(st, done + {id}, scoped)
            == var r := ExternalTarget(st, id, scoped);
               if r.Some? then ExternalRows(st, done, scoped)[id := r.value] else ExternalRows(st, done, scoped)
  {
  }

  /** Writes the note rows, in whatever order the store returns them. */
  method AddNotes(st: Store, ids: set<string>) returns (rows: map<string, Resolution>)
    ensures rows == NoteRows(st, ids)
  {
    rows := map[];
    var left, done := ids, {};
    while left != {}
      invariant ids == done + left && rows == NoteRows(st, done)
      decreases left
    {
      var id :| id in left;
      NoteRowsGrow(st, done, id);
      left, done := left - {id}, done + {id};
      if NoteTarget(st, id).Some? {
        rows := rows[id := NoteTarget(st, id).value];
      }
    }
  }

  lemma MergeUpdates(base: map<string, Resolution>, over: map<string, Resolution>, id: string, r: Resolution)
    ensures (base + over)[id := r] == base + over[id := r]
  {
  }

  /** Note rows first, external rows over them. */
  method ResolveTargets(st: Store, context: seq<ContextItem>, scoped: (string, string) -> bool)
    returns (resolved: map<string, Resolution>)
    ensures resolved == Resolve(st, context, scoped)
  {
    resolved := AddNotes(st, NoteIds(context));
    ghost var base := resolved;
    var left, done := ExternalIds(context), {};
    assert base + ExternalRows(st, {}, scoped) == base;
    while left != {}
      invariant ExternalIds(context) == done + left && resolved == base + ExternalRows(st, done, scoped)
      decreases left
    {
      var id :| id in left;
      ExternalRowsGrow(st, done, scoped, id);
      if ExternalTarget(st, id, scoped).Some? {
        MergeUpdates(base, ExternalRows(st, done, scoped), id, ExternalTarget(st, id, scoped).value);
        resolved := resolved[id := ExternalTarget(st, id, scoped).value];
      }
      left, done := left - {id}, done + {id};
    }
    assert done == ExternalIds(context);
  }

  predicate Hidden(resolved: map<string, Resolution>, id: string) {
    id in resolved && resolved[id].noEgress
  }

  predicate FromExternalTier(c: seq<ContextItem>, id: string) {
    exists k :: 0 <= k < |c| && c[k].target == id && (c[k].tier.CurrentExternal? || c[k].tier.StaleExternal?)
  }

  predicate FromNoteTier(c: seq<ContextItem>, id: string) {
    exists k :: 0 <= k < |c| && c[k].target == id && !(c[k].tier.CurrentExternal? || c[k].tier.StaleExternal?)
  }

  lemma IdsAreOfTheirTier(c: seq<ContextItem>, id: string)
    ensures id in ExternalIds(c) <==> FromExternalTier(c, id)
    ensures id in NoteIds(c) <==> FromNoteTier(c, id)
  {
    if FromExternalTier(c, id) {
      var k :| 0 <= k < |c| && c[k].target == id && (c[k].tier.CurrentExternal? || c[k].tier.StaleExternal?);
      assert c[k] in c && c[k].tier.IsExternal();
    }
    if FromNoteTier(c, id) {
      var k :| 0 <= k < |c| && c[k].target == id && !(c[k].tier.CurrentExternal? || c[k].tier.StaleExternal?);
      assert c[k] in c && !c[k].tier.IsExternal();
    }
  }

  /** What a target resolves to: as an external, the stored snapshot, withheld if its external's flag is set
      or a scope rule covers it; as a note, the stored version with its note's flag; an external counts
      before a note. */
  lemma ResolvesTo(st: Store, c: seq<ContextItem>, scoped: (string, string) -> bool, id: string)
    ensures var r := Resolve(st, c, scoped);
            var external := FromExternalTier(c, id)
                            && id in st.snapshots && st.snapshots[id].externalId in st.externals;
            var note := FromNoteTier(c, id) && id in st.versions && st.versions[id].noteId in st.noteFlags;
            && (id in r <==> external || note)
            && (external ==>
                  var e := st.snapshots[id].externalId;
                  && r[id].body == st.snapshots[id].body
                  && (r[id].noEgress <==> st.externals[e].noEgress || scoped(e, st.externals[e].sourceType)))
            && (note && !external ==>
                  && r[id].body == st.versions[id].body && r[id].noEgress == st.noteFlags[st.versions[id].noteId])
  {
    IdsAreOfTheirTier(c, id);
  }

  // ---------------------------------------------------------------- what is offered

  function PassageFor(item: ContextItem, resolved: map<string, Resolution>): E.Passage {
    E.Passage(item.target, item.parentBlock, Hidden(resolved, item.target), item.tier.IsExternal())
  }

  function Keys(context: seq<ContextItem>): set<(string, string)> {
    set item | item in context :: (item.target, item.parentBlock)
  }

  /** One passage per distinct (target, parent block), in order of first appearance. */
  function Offered(context: seq<ContextItem>, resolved: map<string, Resolution>): seq<E.Passage> {
    if context == [] then []
    else
      var init, item := context[..|context| - 1], context[|context| - 1];
      if (item.target, item.parentBlock) in Keys(init) then Offered(init, resolved)
      else Offered(init, resolved) + [PassageFor(item, resolved)]
  }

  /** The bodies the gate may check quotes against. */
  function Bodies(context: seq<ContextItem>, resolved: map<string, Resolution>): map<string, string> {
    if context == [] then map[]
    else
      var id, init := context[|context| - 1].target, Bodies(context[..|context| - 1], resolved);
      if id in resolved && !resolved[id].noEgress then init[id := resolved[id].body] else init
  }

  /** For each target offered, whether its last passage is of an external. */
  function ExternalFlags(passages: seq<E.Passage>): map<string, bool> {
    if passages == [] then map[]
    else
      var last := passages[|passages| - 1];
      ExternalFlags(passages[..|passages| - 1])[last.targetId := last.isExternal]
  }

  function RenderSource(s: E.RedactedSend, flags: map<string, bool>): string {
    var kind := if s.targetId in flags && flags[s.targetId] then "external" else "note";
    "<source id=\"" + s.targetId + "\" kind=\"" + kind + "\">\n" + s.text + "\n</source>"
  }

  function Sources(sent: seq<E.RedactedSend>, flags: map<string, bool>): seq<string> {
    seq(|sent|, k requires 0 <= k < |sent| => RenderSource(sent[k], flags))
  }

  function UserPrompt(question: string, sent: seq<E.RedactedSend>, flags: map<string, bool>): string {
    "QUESTION:\n" + question + "\n\nSOURCES:\n" + Join(Sources(sent, flags), "\n\n")
  }

  // ---------------------------------------------------------------- where a quote stands

  /** The place a Python slice bound names in a sequence of length `n`. */
  function SliceBound(i: int, n: nat): nat {
    if i < 0 then (if i + n < 0 then 0 else i + n) else if i > n then n else i
  }

  /** `s[a:b]` */
  function PySlice(s: string, a: int, b: int): string {
    var lo, hi := SliceBound(a, |s|), SliceBound(b, |s|);
    if lo <= hi then s[lo..hi] else ""
  }

  /** A slice in Python's reading: bounds inside the text cut as they are, a negative bound counts from the
      end, and bounds beyond either end are moved to it. */
  lemma PySliceIs(s: string, a: int, b: int)
    ensures 0 <= a <= b <= |s| ==> PySlice(s, a, b) == s[a..b]
    ensures 0 <= b <= a <= |s| ==> PySlice(s, a, b) == ""
    ensures -|s| <= a < 0 ==> PySlice(s, a, b) == PySlice(s, a + |s|, b)
    ensures -|s| <= b < 0 ==> PySlice(s, a, b) == PySlice(s, a, b + |s|)
    ensures a < -|s| ==> PySlice(s, a, b) == PySlice(s, 0, b)
    ensures b < -|s| ==> PySlice(s, a, b) == PySlice(s, a, 0)
    ensures a > |s| ==> PySlice(s, a, b) == PySlice(s, |s|, b)
    ensures b > |s| ==> PySlice(s, a, b) == PySlice(s, a, |s|)
  {
  }

  /** The ranges of the retrieved passages of one target, in context order. */
  function RangesFor(context: seq<ContextItem>, id: string): seq<(int, int)> {
    if context == [] then []
    else
      var item, init := context[|context| - 1], RangesFor(context[..|context| - 1], id);
      var bounds := C.ParseCharRange(item.charRange);
      if item.target == id && bounds.Some? then init + [bounds.value] else init
  }

  /** Where the first range with a hit starts, and the hit's start in its slice, added up. */
  function FirstHit(ranges: seq<(int, int)>, hit: ((int, int)) -> Option<F.Span>): Option<int> {
    if ranges == [] then None
    else if hit(ranges[0]).Some? then Some(ranges[0].0 + hit(ranges[0]).value.0)
    else FirstHit(ranges[1..], hit)
  }

  function LocatorFor(span: string, body: string): ((int, int)) -> Option<F.Span> {
    (r: (int, int)) => F.LocateSpan(span, PySlice(body, r.0, r.1), None)
  }

  function OffsetIn(span: string, body: string, ranges: seq<(int, int)>): Option<int> {
    FirstHit(ranges, LocatorFor(span, body))
  }

  function OffsetFor(s: G.Support, ranges: map<string, seq<(int, int)>>, bodies: map<string, string>): Option<int> {
    if s.target.id !in bodies then None
    else OffsetIn(s.quotedSpan, bodies[s.target.id], if s.target.id in ranges then ranges[s.target.id] else [])
  }

  function StampedSupport(s: G.Support, context: seq<ContextItem>, bodies: map<string, string>): G.Support {
    var offset := if s.target.id !in bodies then None
                  else OffsetIn(s.quotedSpan, bodies[s.target.id], RangesFor(context, s.target.id));
    G.Support(s.target, s.quotedSpan, offset)
  }

  function StampedClaim(c: G.Claim, context: seq<ContextItem>, bodies: map<string, string>): G.Claim {
    G.Claim(c.text, seq(|c.support|, k requires 0 <= k < |c.support| => StampedSupport(c.support[k], context, bodies)))
  }

  function Stamped(claims: seq<G.Claim>, context: seq<ContextItem>, bodies: map<string, string>): seq<G.Claim> {
    seq(|claims|, k requires 0 <= k < |claims| => StampedClaim(claims[k], context, bodies))
  }

  method StampBodyOffsets(claims: seq<G.Claim>, context: seq<ContextItem>, bodies: map<string, string>)
    returns (stamped: seq<G.Claim>)
    ensures stamped == Stamped(claims, context, bodies)
  {
    if claims == [] {
      return [];
    }
    var ranges: map<string, seq<(int, int)>> := map[];
    for i := 0 to |context|
      invariant forall id :: RangesFor(context[..i], id) == if id in ranges then ranges[id] else []
    {
      var bounds, id := C.ParseCharRange(context[i].charRange), context[i].target;
      assert context[..i + 1][..i] == context[..i];
      if bounds.Some? {
        ranges := ranges[id := (if id in ranges then ranges[id] else []) + [bounds.value]];
      }
    }
    assert context[..|context|] == context;
    stamped := seq(|claims|, k requires 0 <= k < |claims| =>
      G.Claim(claims[k].text, seq(|claims[k].support|, m requires 0 <= m < |claims[k].support| =>
        var s := claims[k].support[m]; G.Support(s.target, s.quotedSpan, OffsetFor(s, ranges, bodies)))));
    forall k | 0 <= k < |claims| ensures stamped[k] == StampedClaim(claims[k], context, bodies) {
      assert forall m :: 0 <= m < |claims[k].support| ==>
        stamped[k].support[m] == StampedSupport(claims[k].support[m], context, bodies);
    }
  }

  // ---------------------------------------------------------------- ask

  datatype Shown = Shown(claims: seq<G.Claim>, withheld: seq<string>)

  function Sent(st: Store, context: seq<ContextItem>, cfg: Config): seq<E.RedactedSend> {
    E.SentFor(Offered(context, Resolve(st, context, cfg.scoped)), cfg.patterns)
  }

  function Prompt(st: Store, question: string, context: seq<ContextItem>, cfg: Config): string {
    UserPrompt(question, Sent(st, context, cfg), ExternalFlags(Offered(context, Resolve(st, context, cfg.scoped))))
  }

  /** The claims that survive against the bodies that may be sent and those fetched, with their offsets;
      None where the model raises. */
  function ShownClaims(st: Store, question: string, context: seq<ContextItem>, cfg: Config): Option<seq<G.Claim>> {
    var reply := cfg.provider(Prompt(st, question, context, cfg));
    if reply.None? then None
    else
      var bodies := Bodies(context, Resolve(st, context, cfg.scoped)) + reply.value.fetched;
      Some(Stamped(G.ApplyGate(reply.value.claims, bodies, cfg.judge), context, bodies))
  }

  lemma KeysGrow(context: seq<ContextItem>, i: nat)
    requires i < |context|
    ensures Keys(context[..i + 1]) == Keys(context[..i]) + {(context[i].target, context[i].parentBlock)}
  {
    assert context[..i + 1] == context[..i] + [context[i]];
  }

  /** The loop over the context: what to offer, and the bodies of what may be sent. */
  method Gather(context: seq<ContextItem>, resolved: map<string, Resolution>)
    returns (passages: seq<E.Passage>, bodies: map<string, string>)
    ensures passages == Offered(context, resolved) && bodies == Bodies(context, resolved)
  {
    var seen: set<(string, string)> := {};
    passages, bodies := [], map[];
    for i := 0 to |context|
      invariant passages == Offered(context[..i], resolved) && seen == Keys(context[..i])
      invariant bodies == Bodies(context[..i], resolved)
    {
      assert context[..i + 1][..i] == context[..i];
      KeysGrow(context, i);
      var item := context[i];
      var key := (item.target, item.parentBlock);
      if key !in seen {
        seen := seen + {key};
        passages := passages + [PassageFor(item, resolved)];
      }
      if item.target in resolved && !resolved[item.target].noEgress {
        bodies := bodies[item.target := resolved[item.target].body];
      }
    }
    assert context[..|context|] == context;
  }

  /** What is shown, or None where the model raises; the audit row of the send is there either way. */
  method Ask(log: E.EgressLog, st: Store, question: string, context: seq<ContextItem>, cfg: Config)
    returns (shown: Option<Shown>)
    modifies log
    ensures (if shown.None? then None else Some(shown.value.claims)) == ShownClaims(st, question, context, cfg)
    ensures shown.Some? ==>
              var withheld := E.Side(Offered(context, Resolve(st, context, cfg.scoped)), true);
              && |shown.value.withheld| == |withheld|
              && forall k :: 0 <= k < |withheld| ==> shown.value.withheld[k] == withheld[k].targetId
    ensures log.rows == old(log.rows) + [E.AuditRow(cfg.model, Sent(st, context, cfg))]
  {
    var resolved := ResolveTargets(st, context, cfg.scoped);
    var passages, bodies := Gather(context, resolved);
    var sent, withheld, _ := E.GateQaEgress(log, cfg.model, passages, cfg.patterns);
    var reply := cfg.provider(UserPrompt(question, sent, ExternalFlags(passages)));
    if reply.None? {
      return None;
    }
    bodies := bodies + reply.value.fetched;
    var stamped := StampBodyOffsets(G.ApplyGate(reply.value.claims, bodies, cfg.judge), context, bodies);
    shown := Some(Shown(stamped, withheld));
  }
}
