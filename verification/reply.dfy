/**
 The pattern store of `src/reply/mod.rs`: one generation of the bot's
 knowledge, i.e. the ordered pattern list the automaton is compiled from and
 the map from each pattern to its reply variants.

 The automaton is not stored: it is always compiled from `patterns` in order,
 so hit number `k` denotes `patterns[k]` (see `Matcher.ValidHits`).
 */
module Reply {
  import opened Util
  import opened Matcher

  /** `ReplyType`: one reply payload. Plain text is the only variant. */
  datatype Reply = PlainMessage(text: string)

  /** `ReplyConfigEntry`: several patterns sharing one reply. */
  datatype ConfigEntry = ConfigEntry(patterns: seq<string>, reply: Reply)

  /** `ACStrategy` without its compiled automaton. */
  datatype Strategy = Strategy(patterns: seq<string>, replies: map<string, seq<Reply>>)

  /** Every listed pattern has a reply list: what the `unwrap` in `find_reply` relies on. */
  predicate Covered(s: Strategy)
  {
    forall p :: p in s.patterns ==> p in s.replies
  }

  /** The generation invariant: listed patterns and map keys agree, and no reply list is empty. */
  predicate Consistent(s: Strategy)
  {
    && Elems(s.patterns) == s.replies.Keys
    && forall p :: p in s.replies ==> |s.replies[p]| > 0
  }

  /** One (pattern, reply) pair contributed by the configuration or by a learned entry. */
  datatype Contribution = Contribution(pattern: string, reply: Reply)

  /** The pairs one config entry contributes: one per listed pattern, in the entry's order. */
  function Spread(e: ConfigEntry): (cs: seq<Contribution>)
    decreases |e.patterns|
    ensures PatternsOf(cs) == e.patterns
  {
    if |e.patterns| == 0 then []
    else
      var c, rest := Contribution(e.patterns[0], e.reply), Spread(ConfigEntry(e.patterns[1..], e.reply));
      PatternsOfCons(c, rest);
      assert e.patterns == [e.patterns[0]] + e.patterns[1..];
      [c] + rest
  }

  lemma PatternsOfCons(c: Contribution, cs: seq<Contribution>)
    ensures PatternsOf([c] + cs) == [c.pattern] + PatternsOf(cs)
  {
  }

  /** An entry gives pattern `p` one copy of its reply for each time it lists `p`. */
  lemma {:induction false} SpreadReplies(e: ConfigEntry, p: string)
    decreases |e.patterns|
    ensures RepliesFor(Spread(e), p) == seq(multiset(e.patterns)[p], _ => e.reply)
  {
    var ps := e.patterns;
    if |ps| == 0 {
      assert multiset(ps) == multiset{};
    } else {
      var tail := ConfigEntry(ps[1..], e.reply);
      var cs := Spread(e);
      SpreadReplies(tail, p);
      assert cs[0] == Contribution(ps[0], e.reply) && cs[1..] == Spread(tail);
      CopiesCons(ps, p, e.reply);
    }
  }

  /** Counting `p` in `ps` is counting it in the head, then in the tail. */
  lemma CopiesCons(ps: seq<string>, p: string, r: Reply)
    requires |ps| > 0
    ensures seq(multiset(ps)[p], _ => r) == (if ps[0] == p then [r] else []) + seq(multiset(ps[1..])[p], _ => r)
  {
    assert ps == [ps[0]] + ps[1..];
    var n := multiset(ps[1..])[p];
    if ps[0] == p {
      assert multiset(ps)[p] == n + 1;
      assert seq(n + 1, _ => r) == [r] + seq(n, _ => r);
    } else {
      assert multiset(ps)[p] == n;
      assert [] + seq(n, _ => r) == seq(n, _ => r);
    }
  }

  /** The pairs of a whole configuration, entry after entry. */
  function Contributions(entries: seq<ConfigEntry>): seq<Contribution>
  {
    if |entries| == 0 then [] else Spread(entries[0]) + Contributions(entries[1..])
  }

  /** The pattern of every pair, in order and with repetitions. */
  function PatternsOf(cs: seq<Contribution>): (ps: seq<string>)
  {
    seq(|cs|, k requires 0 <= k < |cs| => cs[k].pattern)
  }

  /** Reference definition: the replies the pairs give `p`, in order, one per pair naming `p`. */
  function RepliesFor(cs: seq<Contribution>, p: string): seq<Reply>
  {
    if |cs| == 0 then []
    else (if cs[0].pattern == p then [cs[0].reply] else []) + RepliesFor(cs[1..], p)
  }

  /** Reference definition: where `p` first appears in `ps`, or `|ps|` when it does not. */
  function FirstIndex(ps: seq<string>, p: string): (k: nat)
    ensures k <= |ps|
    ensures forall j :: 0 <= j < k ==> ps[j] != p
    ensures k < |ps| ==> ps[k] == p
  {
    if |ps| == 0 then 0 else if ps[0] == p then 0 else 1 + FirstIndex(ps[1..], p)
  }

  /** The reply list `p` has in `m`, empty when `p` is not a key. */
  function Prior(m: map<string, seq<Reply>>, p: string): seq<Reply>
  {
    if p in m then m[p] else []
  }

  /** `entry(p).and_modify(push r).or_insert_with(vec![r])`. */
  function AddReply(m: map<string, seq<Reply>>, p: string, r: Reply): (m': map<string, seq<Reply>>)
    ensures m'.Keys == m.Keys + {p}
    ensures m'[p] == Prior(m, p) + [r]
    ensures forall q :: q in m && q != p ==> m'[q] == m[q]
  {
    if p in m then m[p := m[p] + [r]] else m[p := [r]]
  }

  /** Fold `AddReply` over the pairs in order; a key no pair names keeps its list. */
  function AddAll(m: map<string, seq<Reply>>, cs: seq<Contribution>): (r: map<string, seq<Reply>>)
    decreases |cs|
    ensures forall q :: q in m && q !in PatternsOf(cs) ==> q in r && r[q] == m[q]
  {
    if |cs| == 0 then m
    else
      var pre, last := cs[..|cs| - 1], cs[|cs| - 1];
      assert cs == pre + [last];
      PatternsOfAppend(pre, last);
      AddReply(AddAll(m, pre), last.pattern, last.reply)
  }

  /**
   One step of the construction loop: group the reply, list the pattern on
   first sight only. It keeps the store consistent and its list free of
   duplicates, and the pair's pattern is listed afterwards.
   */
  function Insert(s: Strategy, c: Contribution): (r: Strategy)
    ensures Consistent(s) ==> Consistent(r) && Elems(r.patterns) == Elems(s.patterns) + {c.pattern}
    ensures Consistent(s) && NoDup(s.patterns) ==> NoDup(r.patterns)
  {
    var ps := if c.pattern in s.replies then s.patterns else s.patterns + [c.pattern];
    InsertFacts(s, c);
    Strategy(ps, AddReply(s.replies, c.pattern, c.reply))
  }

  lemma InsertFacts(s: Strategy, c: Contribution)
    ensures Consistent(s) && c.pattern !in s.replies ==>
      && Elems(s.patterns + [c.pattern]) == Elems(s.patterns) + {c.pattern}
      && (NoDup(s.patterns) ==> NoDup(s.patterns + [c.pattern]))
  {
    if Consistent(s) && c.pattern !in s.replies {
      ElemsAppend(s.patterns, c.pattern);
      if NoDup(s.patterns) {
        assert c.pattern !in Elems(s.patterns);
        NoDupAppend(s.patterns, c.pattern);
      }
    }
  }

  /** The construction loop over all pairs; what it builds is consistent and lists no pattern twice. */
  function Build(cs: seq<Contribution>): (s: Strategy)
    decreases |cs|
    ensures Consistent(s) && NoDup(s.patterns)
  {
    if |cs| == 0 then Strategy([], map[]) else Insert(Build(cs[..|cs| - 1]), cs[|cs| - 1])
  }

  /**
   What construction guarantees about a generation built from the pairs `cs`:
   consistent, no pattern listed twice, exactly the patterns of `cs`, listed
   in order of first appearance, and each reply list holding one reply per
   pair naming the pattern, in order.
   */
  ghost predicate BuiltFrom(s: Strategy, cs: seq<Contribution>)
  {
    && Consistent(s)
    && NoDup(s.patterns)
    && Elems(s.patterns) == Elems(PatternsOf(cs))
    && FirstOrder(s.patterns, PatternsOf(cs))
    && (forall p :: p in s.replies ==> s.replies[p] == RepliesFor(cs, p))
  }

  /** `qs` lists patterns of `ps` in the order of their first appearance in `ps`. */
  ghost predicate FirstOrder(qs: seq<string>, ps: seq<string>)
  {
    forall i, j :: 0 <= i < j < |qs| ==> FirstIndex(ps, qs[i]) < FirstIndex(ps, qs[j])
  }

  /** `ACStrategy::new`. */
  function New(entries: seq<ConfigEntry>): (s: Strategy)
    ensures BuiltFrom(s, Contributions(entries))
  {
    BuildSpec(Contributions(entries));
    Build(Contributions(entries))
  }

  lemma PatternsOfAppend(cs: seq<Contribution>, c: Contribution)
    ensures PatternsOf(cs + [c]) == PatternsOf(cs) + [c.pattern]
  {
  }

  lemma {:induction false} FirstIndexAppend(ps: seq<string>, x: string, q: string)
    requires q in ps
    ensures FirstIndex(ps + [x], q) == FirstIndex(ps, q)
  {
    if ps[0] != q {
      assert (ps + [x])[1..] == ps[1..] + [x];
      FirstIndexAppend(ps[1..], x, q);
    }
  }

  lemma {:induction false} RepliesForAppend(cs: seq<Contribution>, c: Contribution, p: string)
    ensures RepliesFor(cs + [c], p) == RepliesFor(cs, p) + (if c.pattern == p then [c.reply] else [])
  {
    var d := cs + [c];
    if |cs| == 0 {
      assert d[0] == c && d[1..] == [];
      assert RepliesFor(d, p) == (if c.pattern == p then [c.reply] else []) + RepliesFor([], p);
    } else {
      assert d[0] == cs[0] && d[1..] == cs[1..] + [c];
      var head := if cs[0].pattern == p then [cs[0].reply] else [];
      assert RepliesFor(d, p) == head + RepliesFor(cs[1..] + [c], p);
      RepliesForAppend(cs[1..], c, p);
      assert RepliesFor(cs, p) == head + RepliesFor(cs[1..], p);
    }
  }

  /** Folding pairs into a map adds exactly the keys the pairs name. */
  lemma {:induction false} AddAllKeys(m: map<string, seq<Reply>>, cs: seq<Contribution>)
    decreases |cs|
    ensures AddAll(m, cs).Keys == m.Keys + Elems(PatternsOf(cs))
  {
    if |cs| > 0 {
      var pre, c := cs[..|cs| - 1], cs[|cs| - 1];
      assert cs == pre + [c];
      AddAllKeys(m, pre);
      PatternsOfAppend(pre, c);
    }
  }

  /** Folding pairs into a map extends each pattern's list by its replies, in order. */
  lemma {:induction false} AddAllPrior(m: map<string, seq<Reply>>, cs: seq<Contribution>, p: string)
    decreases |cs|
    ensures Prior(AddAll(m, cs), p) == Prior(m, p) + RepliesFor(cs, p)
  {
    if |cs| > 0 {
      var pre, c := cs[..|cs| - 1], cs[|cs| - 1];
      assert cs == pre + [c];
      AddAllPrior(m, pre, p);
      RepliesForAppend(pre, c, p);
    }
  }

  /** Folding pairs into a map never leaves an empty reply list. */
  lemma {:induction false} AddAllNonEmpty(m: map<string, seq<Reply>>, cs: seq<Contribution>)
    requires forall p :: p in m ==> |m[p]| > 0
    decreases |cs|
    ensures forall p :: p in AddAll(m, cs) ==> |AddAll(m, cs)[p]| > 0
  {
    if |cs| > 0 {
      AddAllNonEmpty(m, cs[..|cs| - 1]);
    }
  }

  /** The construction loop keeps the store's maps and lists in step with its input. */
  lemma {:induction false} BuildReplies(cs: seq<Contribution>)
    decreases |cs|
    ensures Build(cs).replies == AddAll(map[], cs)
  {
    if |cs| > 0 {
      BuildReplies(cs[..|cs| - 1]);
    }
  }

  /** The listed patterns of a built store are distinct and are exactly those of the pairs. */
  lemma {:induction false} BuildDistinct(cs: seq<Contribution>)
    decreases |cs|
    ensures NoDup(Build(cs).patterns)
    ensures Elems(Build(cs).patterns) == Elems(PatternsOf(cs))
  {
    if |cs| > 0 {
      var pre, c := cs[..|cs| - 1], cs[|cs| - 1];
      assert cs == pre + [c];
      BuildDistinct(pre);
      BuildReplies(pre);
      AddAllKeys(map[], pre);
      PatternsOfAppend(pre, c);
      ElemsAppend(PatternsOf(pre), c.pattern);
      var s0 := Build(pre);
      if c.pattern !in s0.replies {
        assert c.pattern !in s0.patterns;
        NoDupAppend(s0.patterns, c.pattern);
        ElemsAppend(s0.patterns, c.pattern);
      }
    }
  }

  lemma FirstIndexLast(ps: seq<string>, x: string)
    requires x !in ps
    ensures FirstIndex(ps + [x], x) == |ps|
  {
    var k := FirstIndex(ps + [x], x);
    assert (ps + [x])[|ps|] == x;
    assert (ps + [x])[..|ps|] == ps;
    assert forall j :: 0 <= j < |ps| ==> (ps + [x])[j] == ps[j];
  }

  /** Appending to `ps` does not move the first appearances of what `qs` lists. */
  lemma FirstOrderGrow(qs: seq<string>, ps: seq<string>, x: string)
    requires FirstOrder(qs, ps)
    ensures FirstOrder(qs, ps + [x])
  {
    forall q | q in ps
      ensures FirstIndex(ps + [x], q) == FirstIndex(ps, q)
    {
      FirstIndexAppend(ps, x, q);
    }
  }

  /** A pattern seen for the first time goes after everything listed so far. */
  lemma FirstOrderNew(qs: seq<string>, ps: seq<string>, x: string)
    requires FirstOrder(qs, ps) && Elems(qs) <= Elems(ps) && x !in ps
    ensures FirstOrder(qs + [x], ps + [x])
  {
    FirstOrderGrow(qs, ps, x);
    var qs', ps' := qs + [x], ps + [x];
    FirstIndexLast(ps, x);
    forall i, j | 0 <= i < j < |qs'|
      ensures FirstIndex(ps', qs'[i]) < FirstIndex(ps', qs'[j])
    {
      assert qs'[i] == qs[i];
      assert qs[i] in Elems(qs);
      FirstIndexAppend(ps, x, qs[i]);
      if j < |qs| {
        assert qs'[j] == qs[j];
      } else {
        assert qs'[j] == x;
      }
    }
  }

  /** The listed patterns of a built store follow the order of first appearance among the pairs. */
  lemma {:induction false} BuildOrder(cs: seq<Contribution>)
    decreases |cs|
    ensures FirstOrder(Build(cs).patterns, PatternsOf(cs))
  {
    if |cs| > 0 {
      var pre, c := cs[..|cs| - 1], cs[|cs| - 1];
      assert cs == pre + [c];
      BuildOrder(pre);
      BuildDistinct(pre);
      BuildReplies(pre);
      AddAllKeys(map[], pre);
      PatternsOfAppend(pre, c);
      if c.pattern in Build(pre).replies {
        FirstOrderGrow(Build(pre).patterns, PatternsOf(pre), c.pattern);
      } else {
        FirstOrderNew(Build(pre).patterns, PatternsOf(pre), c.pattern);
      }
    }
  }

  lemma BuildSpec(cs: seq<Contribution>)
    ensures BuiltFrom(Build(cs), cs)
  {
    BuildReplies(cs);
    AddAllKeys(map[], cs);
    AddAllNonEmpty(map[], cs);
    BuildDistinct(cs);
    BuildOrder(cs);
    var s := Build(cs);
    forall p | p in s.replies
      ensures s.replies[p] == RepliesFor(cs, p)
    {
      AddAllPrior(map[], cs, p);
    }
  }

  /** The reply list of one hit; `None` where `patterns[id]` or the map `unwrap` would panic. */
  function Lookup(s: Strategy, h: Hit): (r: Option<seq<Reply>>)
    ensures r.Some? <==> h.pattern < |s.patterns| && s.patterns[h.pattern] in s.replies
  {
    if h.pattern < |s.patterns| && s.patterns[h.pattern] in s.replies
    then Some(s.replies[s.patterns[h.pattern]])
    else None
  }

  /** Joining the outcomes of two consecutive hit runs: a panic in either is a panic. */
  function Then(a: Option<seq<Reply>>, b: Option<seq<Reply>>): Option<seq<Reply>>
  {
    if a.Some? && b.Some? then Some(a.value + b.value) else None
  }

  /**
   The loop of `find_reply` over a given hit sequence: the replies of each
   hit in turn, extended onto the result.
   */
  function Gather(s: Strategy, hits: seq<Hit>): (r: Option<seq<Reply>>)
    decreases |hits|
    ensures r.Some? <==> forall k :: 0 <= k < |hits| ==> Lookup(s, hits[k]).Some?
  {
    if |hits| == 0 then Some([])
    else Then(Gather(s, hits[..|hits| - 1]), Lookup(s, hits[|hits| - 1]))
  }

  lemma ThenAssoc(a: Option<seq<Reply>>, b: Option<seq<Reply>>, c: Option<seq<Reply>>)
    ensures Then(Then(a, b), c) == Then(a, Then(b, c))
  {
    if a.Some? && b.Some? && c.Some? {
      assert (a.value + b.value) + c.value == a.value + (b.value + c.value);
    }
  }

  /** Gathering is a homomorphism: the replies of `h1 + h2` are those of `h1` followed by those of `h2`. */
  lemma {:induction false} GatherAppend(s: Strategy, h1: seq<Hit>, h2: seq<Hit>)
    decreases |h2|
    ensures Gather(s, h1 + h2) == Then(Gather(s, h1), Gather(s, h2))
  {
    if |h2| == 0 {
      assert h1 + h2 == h1;
      assert Gather(s, h2) == Some([]);
      if Gather(s, h1).Some? {
        assert Gather(s, h1).value + [] == Gather(s, h1).value;
      }
    } else {
      var pre, last := h2[..|h2| - 1], h2[|h2| - 1];
      assert (h1 + h2)[..|h1 + h2| - 1] == h1 + pre;
      assert (h1 + h2)[|h1 + h2| - 1] == last;
      GatherAppend(s, h1, pre);
      assert Gather(s, h2) == Then(Gather(s, pre), Lookup(s, last));
      assert Gather(s, h1 + h2) == Then(Gather(s, h1 + pre), Lookup(s, last));
      ThenAssoc(Gather(s, h1), Gather(s, pre), Lookup(s, last));
    }
  }

  /** One hit gathers exactly its pattern's reply list. */
  lemma GatherOne(s: Strategy, h: Hit)
    ensures Gather(s, [h]) == Lookup(s, h)
  {
    assert [h][..0] == [];
    assert Gather(s, []) == Some([]);
    assert Gather(s, [h]) == Then(Gather(s, []), Lookup(s, h));
    if Lookup(s, h).Some? {
      assert Then(Some([]), Lookup(s, h)) == Some([] + Lookup(s, h).value);
      assert [] + Lookup(s, h).value == Lookup(s, h).value;
    }
  }

  /** Every gathered reply comes from the reply list of one of the hits. */
  lemma {:induction false} GatherSources(s: Strategy, hits: seq<Hit>, x: Reply)
    requires Gather(s, hits).Some? && x in Gather(s, hits).value
    decreases |hits|
    ensures exists k :: 0 <= k < |hits| && Lookup(s, hits[k]).Some? && x in Lookup(s, hits[k]).value
  {
    var pre, last := hits[..|hits| - 1], hits[|hits| - 1];
    if x !in Lookup(s, last).value {
      GatherSources(s, pre, x);
      var k :| 0 <= k < |pre| && Lookup(s, pre[k]).Some? && x in Lookup(s, pre[k]).value;
      assert pre[k] == hits[k];
    }
  }

  /**
   `ACStrategy::find_reply` on `msg`, given the automaton's hits for it; `None`
   is a panic. Only `Reported` is required of the hits, so the hit positions
   may be character indices or UTF-8 byte offsets alike.
   */
  function FindReply(s: Strategy, msg: string, hits: seq<Hit>): (r: Option<seq<Reply>>)
    requires Reported(s.patterns, msg, hits)
    ensures r.Some? <==> forall k :: 0 <= k < |hits| ==> s.patterns[hits[k].pattern] in s.replies
    ensures Covered(s) ==> r.Some?
    ensures !AnyOccurs(s.patterns, msg) ==> r == Some([])
    ensures Consistent(s) ==> r.Some? && (|r.value| == 0 <==> !AnyOccurs(s.patterns, msg))
    ensures r.Some? ==> forall x :: x in r.value ==>
      exists p :: p in s.replies && Contains(msg, p) && x in s.replies[p]
  {
    GatherFacts(s, msg, hits);
    Gather(s, hits)
  }

  /** The facts `FindReply` promises, proved about `Gather`. */
  lemma GatherFacts(s: Strategy, msg: string, hits: seq<Hit>)
    requires Reported(s.patterns, msg, hits)
    ensures Consistent(s) ==> Gather(s, hits).Some? && (|Gather(s, hits).value| == 0 <==> !AnyOccurs(s.patterns, msg))
    ensures Gather(s, hits).Some? ==> forall x :: x in Gather(s, hits).value ==>
      exists p :: p in s.replies && Contains(msg, p) && x in s.replies[p]
  {
    if Consistent(s) {
      GatherNonEmpty(s, msg, hits);
    }
    GatherOccurring(s, msg, hits);
  }

  /** On a consistent store the lookup succeeds, and is empty exactly when no pattern occurs. */
  lemma GatherNonEmpty(s: Strategy, msg: string, hits: seq<Hit>)
    requires Reported(s.patterns, msg, hits) && Consistent(s)
    ensures Gather(s, hits).Some? && (|Gather(s, hits).value| == 0 <==> !AnyOccurs(s.patterns, msg))
  {
    if |hits| > 0 {
      var pre, last := hits[..|hits| - 1], hits[|hits| - 1];
      assert s.patterns[last.pattern] in Elems(s.patterns);
      assert |Lookup(s, last).value| > 0;
    }
  }

  /** Every gathered reply belongs to a pattern that occurs in the message. */
  lemma GatherOccurring(s: Strategy, msg: string, hits: seq<Hit>)
    requires forall k :: 0 <= k < |hits| ==> hits[k].pattern < |s.patterns| && Contains(msg, s.patterns[hits[k].pattern])
    ensures Gather(s, hits).Some? ==> forall x :: x in Gather(s, hits).value ==>
      exists p :: p in s.replies && Contains(msg, p) && x in s.replies[p]
  {
    forall x | Gather(s, hits).Some? && x in Gather(s, hits).value
      ensures exists p :: p in s.replies && Contains(msg, p) && x in s.replies[p]
    {
      GatherSources(s, hits, x);
      var k :| 0 <= k < |hits| && Lookup(s, hits[k]).Some? && x in Lookup(s, hits[k]).value;
      assert Contains(msg, s.patterns[hits[k].pattern]);
    }
  }

  /** The k-th hit contributes its pattern's full reply list, right after the replies of the earlier hits. */
  lemma FindReplyBlock(s: Strategy, msg: string, hits: seq<Hit>, k: nat)
    requires Reported(s.patterns, msg, hits)
    requires Covered(s)
    requires k < |hits|
    ensures Gather(s, hits[..k]).Some?
    ensures OccursAt(s.replies[s.patterns[hits[k].pattern]], FindReply(s, msg, hits).value,
                     |Gather(s, hits[..k]).value|)
  {
    assert FindReply(s, msg, hits) == Gather(s, hits);
    GatherBlock(s, hits, k);
  }

  /** `FindReplyBlock`, stated for any hits whose pattern numbers are in range. */
  lemma GatherBlock(s: Strategy, hits: seq<Hit>, k: nat)
    requires Covered(s) && k < |hits|
    requires forall j :: 0 <= j < |hits| ==> hits[j].pattern < |s.patterns|
    ensures Gather(s, hits[..k]).Some? && Gather(s, hits).Some?
    ensures OccursAt(s.replies[s.patterns[hits[k].pattern]], Gather(s, hits).value, |Gather(s, hits[..k]).value|)
  {
    var a, h, b := hits[..k], hits[k], hits[k + 1..];
    assert hits == a + [h] + b;
    GatherAppend(s, a + [h], b);
    GatherAppend(s, a, [h]);
    GatherOne(s, h);
    var L := s.replies[s.patterns[h.pattern]];
    OccursInMiddle(Gather(s, a).value, L, Gather(s, b).value);
  }
}
