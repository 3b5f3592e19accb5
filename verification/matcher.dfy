/**
 The multi-pattern matcher, specified abstractly.

 The bot compiles its pattern list into an Aho-Corasick automaton and walks
 `find_iter(msg)`. The automaton itself is a foreign library; this module only
 states what its hit sequence promises (`ValidHits`) and gives one reference
 scanner (`Scan`, leftmost-first) that meets the promise, so that the promise
 is known to be satisfiable for every pattern list and message.
 */
module Matcher {
  import opened Util

  /** One match reported by the automaton: pattern number, and the half-open span in the message. */
  datatype Hit = Hit(pattern: nat, start: nat, end: nat)

  /** The hit is a real occurrence of pattern number `h.pattern` at `h.start..h.end`. */
  predicate Genuine(patterns: seq<string>, msg: string, h: Hit)
  {
    && h.pattern < |patterns|
    && h.end == h.start + |patterns[h.pattern]|
    && OccursAt(patterns[h.pattern], msg, h.start)
  }

  /** Hits come in scan order and do not overlap. */
  predicate Ascending(hits: seq<Hit>)
  {
    forall i, j :: 0 <= i < j < |hits| ==> hits[i].start < hits[j].start && hits[i].end <= hits[j].start
  }

  /** Some pattern of the list occurs somewhere in `msg`. */
  ghost predicate AnyOccurs(patterns: seq<string>, msg: string)
  {
    exists p, i: nat :: p in patterns && OccursAt(p, msg, i)
  }

  /**
   Hit `h` overlaps the span `i..j`, or starts where the span starts (which
   is how an empty hit shadows a longer match at its position).
   */
  predicate Blocks(h: Hit, i: nat, j: nat)
  {
    h.start < j && (i < h.end || h.start == i)
  }

  /**
   No occurrence of a non-empty pattern is passed over: each one overlaps a
   reported hit or starts where one starts.
   */
  ghost predicate Maximal(patterns: seq<string>, msg: string, hits: seq<Hit>)
  {
    forall p, i: nat :: p in patterns && |p| > 0 && OccursAt(p, msg, i) ==> BlockedIn(hits, i, i + |p|)
  }

  /** Some hit of `hits` blocks the span `i..j`. */
  ghost predicate BlockedIn(hits: seq<Hit>, i: nat, j: nat)
  {
    exists k :: 0 <= k < |hits| && Blocks(hits[k], i, j)
  }

  /**
   What the reply lookup relies on: every hit names a listed pattern that
   occurs somewhere in the message, and there are hits exactly when some
   pattern occurs. Positions play no part, so this holds of `find_iter`
   whether its offsets count characters or UTF-8 bytes.
   */
  ghost predicate Reported(patterns: seq<string>, msg: string, hits: seq<Hit>)
  {
    && (forall k :: 0 <= k < |hits| ==> hits[k].pattern < |patterns| && Contains(msg, patterns[hits[k].pattern]))
    && (|hits| == 0 <==> !AnyOccurs(patterns, msg))
  }

  /**
   What `find_iter` over an automaton built from `patterns` (in order, so hit
   number `k` denotes `patterns[k]`) promises about its output for `msg`,
   with positions counted in characters: real occurrences, in order and
   non-overlapping, no occurrence of a non-empty pattern passed over, and no
   hits exactly when no pattern occurs. Such a sequence is `Reported`, and
   since its hits start at distinct character positions there are at most
   `|msg| + 1` of them.
   */
  ghost predicate ValidHits(patterns: seq<string>, msg: string, hits: seq<Hit>)
    ensures ValidHits(patterns, msg, hits) ==> |hits| <= |msg| + 1 && Reported(patterns, msg, hits)
  {
    HitsBound(patterns, msg, hits);
    GenuineReported(patterns, msg, hits);
    && (forall k :: 0 <= k < |hits| ==> Genuine(patterns, msg, hits[k]))
    && Ascending(hits)
    && Maximal(patterns, msg, hits)
    && (|hits| == 0 <==> !AnyOccurs(patterns, msg))
  }

  /** Ascending hits start at least at their own index. */
  lemma {:induction false} AscendingStarts(hits: seq<Hit>, k: nat)
    requires Ascending(hits) && k < |hits|
    ensures hits[k].start >= k
  {
    if k > 0 {
      AscendingStarts(hits, k - 1);
    }
  }

  lemma HitsBound(patterns: seq<string>, msg: string, hits: seq<Hit>)
    ensures (forall k :: 0 <= k < |hits| ==> Genuine(patterns, msg, hits[k])) && Ascending(hits) ==>
      |hits| <= |msg| + 1
  {
    if (forall k :: 0 <= k < |hits| ==> Genuine(patterns, msg, hits[k])) && Ascending(hits) && |hits| > 0 {
      AscendingStarts(hits, |hits| - 1);
      assert Genuine(patterns, msg, hits[|hits| - 1]);
    }
  }

  /** Genuine hits name patterns that occur in the message. */
  lemma GenuineReported(patterns: seq<string>, msg: string, hits: seq<Hit>)
    ensures (forall k :: 0 <= k < |hits| ==> Genuine(patterns, msg, hits[k])) ==>
      forall k :: 0 <= k < |hits| ==> hits[k].pattern < |patterns| && Contains(msg, patterns[hits[k].pattern])
  {
    forall k | 0 <= k < |hits| && Genuine(patterns, msg, hits[k])
      ensures Contains(msg, patterns[hits[k].pattern])
    {
      assert OccursAt(patterns[hits[k].pattern], msg, hits[k].start);
    }
  }

  /**
   A single pattern that occurs at exactly one position of the message is
   reported exactly once, at that position.
   */
  lemma SingleOccurrence(p: string, msg: string, i0: nat, hits: seq<Hit>)
    requires ValidHits([p], msg, hits)
    requires OccursAt(p, msg, i0)
    requires forall i: nat :: OccursAt(p, msg, i) ==> i == i0
    ensures hits == [Hit(0, i0, i0 + |p|)]
  {
    assert p in [p] && OccursAt(p, msg, i0);
    assert |hits| > 0;
    forall k | 0 <= k < |hits|
      ensures hits[k] == Hit(0, i0, i0 + |p|)
    {
      assert Genuine([p], msg, hits[k]);
    }
    assert hits[0].start == hits[|hits| - 1].start;
  }

  /** The least pattern number `k >= from` whose pattern occurs in `msg` at `i`. */
  function FirstAt(patterns: seq<string>, msg: string, i: nat, from: nat): (r: Option<nat>)
    decreases |patterns| - from
    ensures r.Some? ==> from <= r.value < |patterns| && OccursAt(patterns[r.value], msg, i)
    ensures r.None? ==> forall k :: from <= k < |patterns| ==> !OccursAt(patterns[k], msg, i)
  {
    if from >= |patterns| then None
    else if OccursAt(patterns[from], msg, i) then Some(from)
    else FirstAt(patterns, msg, i, from + 1)
  }

  /**
   Reference scanner: at each position take the first listed pattern that
   occurs there, then resume after it (one step further for an empty pattern).
   */
  function Scan(patterns: seq<string>, msg: string, i: nat): (hits: seq<Hit>)
    decreases |msg| + 1 - i
    ensures forall k :: 0 <= k < |hits| ==> Genuine(patterns, msg, hits[k]) && i <= hits[k].start
    ensures Ascending(hits)
  {
    if i > |msg| then []
    else
      match FirstAt(patterns, msg, i, 0)
      case None => Scan(patterns, msg, i + 1)
      case Some(k) =>
        var e := i + |patterns[k]|;
        var rest := Scan(patterns, msg, if e > i then e else i + 1);
        [Hit(k, i, e)] + rest
  }

  /** Scanning from `i` finds nothing exactly when no pattern occurs at or after `i`. */
  lemma {:induction false} ScanEmpty(patterns: seq<string>, msg: string, i: nat)
    decreases |msg| + 1 - i
    ensures |Scan(patterns, msg, i)| == 0 <==>
      forall p, j: nat :: p in patterns && i <= j ==> !OccursAt(p, msg, j)
  {
    if i > |msg| {
    } else {
      match FirstAt(patterns, msg, i, 0)
      case None =>
        ScanEmpty(patterns, msg, i + 1);
        forall p | p in patterns
          ensures !OccursAt(p, msg, i)
        {
          var k :| 0 <= k < |patterns| && patterns[k] == p;
          assert !OccursAt(patterns[k], msg, i);
        }
      case Some(k) =>
        assert OccursAt(patterns[k], msg, i);
    }
  }

  /**
   An occurrence of a non-empty pattern at or after `i` is blocked by a hit
   of the scan from `i`: the scan either stops at its position or passes it
   inside a longer hit.
   */
  lemma {:induction false} ScanBlocks(patterns: seq<string>, msg: string, i: nat, p: string, j: nat)
    requires p in patterns && |p| > 0 && i <= j && OccursAt(p, msg, j)
    decreases |msg| + 1 - i, 1
    ensures BlockedIn(Scan(patterns, msg, i), j, j + |p|)
  {
    assert i <= |msg|;
    ScanUnfold(patterns, msg, i);
    var first := FirstAt(patterns, msg, i, 0);
    if first.None? {
      var q :| 0 <= q < |patterns| && patterns[q] == p;
      assert i < j;
      ScanBlocks(patterns, msg, i + 1, p, j);
    } else {
      ScanBlocksAfterHit(patterns, msg, i, first.value, p, j);
    }
  }

  /** The case where the scan reports pattern `f` at `i`. */
  lemma {:induction false} ScanBlocksAfterHit(patterns: seq<string>, msg: string, i: nat, f: nat, p: string, j: nat)
    requires p in patterns && |p| > 0 && i <= j && OccursAt(p, msg, j) && i <= |msg|
    requires f < |patterns|
    requires Scan(patterns, msg, i) ==
      [Hit(f, i, i + |patterns[f]|)] + Scan(patterns, msg, if |patterns[f]| > 0 then i + |patterns[f]| else i + 1)
    decreases |msg| + 1 - i, 0
    ensures BlockedIn(Scan(patterns, msg, i), j, j + |p|)
  {
    var e := i + |patterns[f]|;
    var next := if e > i then e else i + 1;
    if j < next {
      assert Blocks(Hit(f, i, e), j, j + |p|);
    } else {
      ScanBlocks(patterns, msg, next, p, j);
    }
    ConsBlocks(Hit(f, i, e), Scan(patterns, msg, next), j, j + |p|);
  }

  lemma ConsBlocks(h: Hit, rest: seq<Hit>, i: nat, j: nat)
    requires Blocks(h, i, j) || BlockedIn(rest, i, j)
    ensures BlockedIn([h] + rest, i, j)
  {
    var hits := [h] + rest;
    if !Blocks(h, i, j) {
      var k :| 0 <= k < |rest| && Blocks(rest[k], i, j);
      assert hits[k + 1] == rest[k];
    } else {
      assert hits[0] == h;
    }
  }

  /** One step of the scan: skip a position where nothing occurs, or report the first listed pattern there. */
  lemma ScanUnfold(patterns: seq<string>, msg: string, i: nat)
    requires i <= |msg|
    ensures FirstAt(patterns, msg, i, 0).None? ==> Scan(patterns, msg, i) == Scan(patterns, msg, i + 1)
    ensures FirstAt(patterns, msg, i, 0).Some? ==>
      var f := FirstAt(patterns, msg, i, 0).value;
      var e := i + |patterns[f]|;
      Scan(patterns, msg, i) == [Hit(f, i, e)] + Scan(patterns, msg, if e > i then e else i + 1)
  {
  }

  /** The reference scanner passes over no occurrence of a non-empty pattern. */
  lemma ScanMaximal(patterns: seq<string>, msg: string)
    ensures Maximal(patterns, msg, Scan(patterns, msg, 0))
  {
    forall p, j: nat | p in patterns && |p| > 0 && OccursAt(p, msg, j)
      ensures BlockedIn(Scan(patterns, msg, 0), j, j + |p|)
    {
      ScanBlocks(patterns, msg, 0, p, j);
    }
  }

  /** The reference scanner meets the matcher contract, so `ValidHits` can always be met. */
  lemma ScanValid(patterns: seq<string>, msg: string)
    ensures ValidHits(patterns, msg, Scan(patterns, msg, 0))
  {
    ScanEmpty(patterns, msg, 0);
    ScanMaximal(patterns, msg);
  }
}
