/**
 The learning pipeline of `add_auto_append_handle`: learned pairs wait in a
 queue; on every tick the whole queue is drained, each pair is written to the
 optional cache log, and a non-empty batch is merged into the live store.

 The channel is a `seq` in arrival order and a tick is one call of `Drain`.
 */
module Pipeline {
  import opened Util
  import opened Reply

  /** `EntryUpdate`: one learned pair; also the content of one cache-log record. */
  datatype Entry = Entry(pattern: string, reply: string)

  /** The pairs of a batch, each reply wrapped as plain text (the `map(ReplyType::PlainMessage)` step). */
  function AsContributions(batch: seq<Entry>): (cs: seq<Contribution>)
  {
    seq(|batch|, k requires 0 <= k < |batch| => Contribution(batch[k].pattern, PlainMessage(batch[k].reply)))
  }

  /** The merge of a non-empty batch: extend the pattern list, then fold the pairs into the map. */
  function Merge(s: Strategy, batch: seq<Entry>): (r: Strategy)
    ensures r.patterns == s.patterns + PatternsOf(AsContributions(batch))
    ensures r.replies.Keys == s.replies.Keys + Elems(PatternsOf(AsContributions(batch)))
    ensures forall p :: Prior(r.replies, p) == Prior(s.replies, p) + RepliesFor(AsContributions(batch), p)
    ensures forall p :: p in s.replies && p !in PatternsOf(AsContributions(batch)) ==> r.replies[p] == s.replies[p]
    ensures Consistent(s) ==> Consistent(r)
  {
    MergeFacts(s, batch);
    Strategy(s.patterns + PatternsOf(AsContributions(batch)), AddAll(s.replies, AsContributions(batch)))
  }

  /** A pattern no pair names gets no replies. */
  lemma {:induction false} RepliesForAbsent(cs: seq<Contribution>, p: string)
    requires p !in PatternsOf(cs)
    ensures RepliesFor(cs, p) == []
  {
    if |cs| > 0 {
      assert PatternsOf(cs)[0] == cs[0].pattern;
      assert PatternsOf(cs[1..]) == PatternsOf(cs)[1..];
      RepliesForAbsent(cs[1..], p);
    }
  }

  lemma MergeFacts(s: Strategy, batch: seq<Entry>)
    ensures var cs := AsContributions(batch);
      && AddAll(s.replies, cs).Keys == s.replies.Keys + Elems(PatternsOf(cs))
      && (forall p :: Prior(AddAll(s.replies, cs), p) == Prior(s.replies, p) + RepliesFor(cs, p))
      && (forall p :: p in s.replies && p !in PatternsOf(cs) ==> AddAll(s.replies, cs)[p] == s.replies[p])
      && (Consistent(s) ==> Consistent(Strategy(s.patterns + PatternsOf(cs), AddAll(s.replies, cs))))
  {
    var cs := AsContributions(batch);
    AddAllKeys(s.replies, cs);
    forall p
      ensures Prior(AddAll(s.replies, cs), p) == Prior(s.replies, p) + RepliesFor(cs, p)
    {
      AddAllPrior(s.replies, cs, p);
    }
    forall p | p in s.replies && p !in PatternsOf(cs)
      ensures AddAll(s.replies, cs)[p] == s.replies[p]
    {
      AddAllPrior(s.replies, cs, p);
      RepliesForAbsent(cs, p);
    }
    if Consistent(s) {
      AddAllNonEmpty(s.replies, cs);
      ElemsConcat(s.patterns, PatternsOf(cs));
    }
  }

  /** What one tick produces: the store to publish and the records appended to the cache log. */
  datatype Drained = Drained(store: Strategy, log: seq<Entry>)

  /**
   One tick of the drain task over everything queued. `logging` says whether
   a cache file is configured. An empty batch leaves the store alone.
   */
  function Drain(s: Strategy, queue: seq<Entry>, logging: bool): (d: Drained)
    ensures |queue| == 0 ==> d == Drained(s, [])
    ensures logging ==> d.log == queue
    ensures !logging ==> d.log == []
    ensures |queue| > 0 ==> d.store == Merge(s, queue)
    ensures Consistent(s) ==> Consistent(d.store)
  {
    var log := if logging then queue else [];
    if |queue| > 0 then Drained(Merge(s, queue), log) else Drained(s, log)
  }

  /**
   The merge appends a pattern that is already listed, so unlike construction
   it can leave the pattern list with duplicates.
   */
  lemma MergeMayDuplicate(s: Strategy, e: Entry)
    requires Consistent(s) && e.pattern in s.replies
    ensures !NoDup(Merge(s, [e]).patterns)
  {
    var ps := Merge(s, [e]).patterns;
    assert e.pattern in Elems(s.patterns);
    var k :| 0 <= k < |s.patterns| && s.patterns[k] == e.pattern;
    assert ps[k] == ps[|s.patterns|];
  }

  /** Config entries with one pattern each, standing for the learned pairs of a batch. */
  function AsConfig(batch: seq<Entry>): (es: seq<ConfigEntry>)
  {
    seq(|batch|, k requires 0 <= k < |batch| => ConfigEntry([batch[k].pattern], PlainMessage(batch[k].reply)))
  }

  lemma {:induction false} ContributionsAppend(a: seq<ConfigEntry>, b: seq<ConfigEntry>)
    decreases |a|
    ensures Contributions(a + b) == Contributions(a) + Contributions(b)
  {
    if |a| == 0 {
      assert a + b == b;
    } else {
      assert (a + b)[0] == a[0];
      assert (a + b)[1..] == a[1..] + b;
      ContributionsAppend(a[1..], b);
    }
  }

  lemma {:induction false} AsConfigContributions(batch: seq<Entry>)
    decreases |batch|
    ensures Contributions(AsConfig(batch)) == AsContributions(batch)
  {
    if |batch| > 0 {
      assert AsConfig(batch)[1..] == AsConfig(batch[1..]);
      AsConfigContributions(batch[1..]);
      assert AsContributions(batch) == [AsContributions(batch)[0]] + AsContributions(batch[1..]);
    }
  }

  lemma {:induction false} AddAllAppend(m: map<string, seq<Reply>>, a: seq<Contribution>, b: seq<Contribution>)
    decreases |b|
    ensures AddAll(m, a + b) == AddAll(AddAll(m, a), b)
  {
    if |b| == 0 {
      assert a + b == a;
    } else {
      assert (a + b)[..|a + b| - 1] == a + b[..|b| - 1];
      AddAllAppend(m, a, b[..|b| - 1]);
    }
  }

  /**
   Learning a batch gives the same reply map, and the same set of matchable
   patterns, as building the store afresh from the configuration followed by
   the batch; only the pattern list's duplicates differ.
   */
  lemma MergeAgreesWithRebuild(entries: seq<ConfigEntry>, batch: seq<Entry>)
    ensures Merge(New(entries), batch).replies == New(entries + AsConfig(batch)).replies
    ensures Elems(Merge(New(entries), batch).patterns) == Elems(New(entries + AsConfig(batch)).patterns)
  {
    var cs1, cs2 := Contributions(entries), AsContributions(batch);
    ContributionsAppend(entries, AsConfig(batch));
    AsConfigContributions(batch);
    BuildReplies(cs1);
    BuildReplies(cs1 + cs2);
    AddAllAppend(map[], cs1, cs2);
    var merged, rebuilt := Merge(New(entries), batch), New(entries + AsConfig(batch));
    assert Consistent(merged) && Consistent(rebuilt);
  }
}
