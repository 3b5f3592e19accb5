/**
 Concrete stores and messages: a single-pattern lookup, and the shadowing
 of one pattern by another that the non-overlapping hit sequence allows.
 */
module Scenarios {
  import opened Util
  import opened Matcher
  import opened Reply

  /** The store built from one entry, `hello` answered by `hi!`. */
  lemma HelloStore()
    ensures New([ConfigEntry(["hello"], PlainMessage("hi!"))]) ==
      Strategy(["hello"], map["hello" := [PlainMessage("hi!")]])
  {
    OneEntry("hello", PlainMessage("hi!"));
  }

  /** One entry with one pattern builds a one-pattern store. */
  lemma OneEntry(a: string, ra: Reply)
    ensures New([ConfigEntry([a], ra)]) == Strategy([a], map[a := [ra]])
  {
    var c := Contribution(a, ra);
    var es := [ConfigEntry([a], ra)];
    assert Spread(es[0]) == [c] && es[1..] == [];
    assert Contributions(es) == [c];
    assert [c][..0] == [];
    assert Build([c]) == Insert(Build([]), c);
  }

  /** `hello` occurs in `well hello there` at index 5 and nowhere else. */
  lemma HelloOnce(i: nat)
    requires OccursAt("hello", "well hello there", i)
    ensures i == 5
  {
    var msg := "well hello there";
    assert msg[i] == 'h' && msg[i + 4] == 'o';
  }

  /** Whatever hits the matcher reports for `well hello there`, the lookup answers exactly `hi!`. */
  lemma HelloScenario(hits: seq<Hit>)
    requires ValidHits(["hello"], "well hello there", hits)
    ensures FindReply(New([ConfigEntry(["hello"], PlainMessage("hi!"))]), "well hello there", hits)
      == Some([PlainMessage("hi!")])
  {
    HelloStore();
    HelloLookup(hits);
  }

  lemma HelloLookup(hits: seq<Hit>)
    requires ValidHits(["hello"], "well hello there", hits)
    ensures FindReply(Strategy(["hello"], map["hello" := [PlainMessage("hi!")]]), "well hello there", hits)
      == Some([PlainMessage("hi!")])
  {
    var s := Strategy(["hello"], map["hello" := [PlainMessage("hi!")]]);
    HelloHits(hits);
    GatherOne(s, Hit(0, 5, 10));
  }

  /** The matcher reports `hello` in `well hello there` once, at index 5. */
  lemma HelloHits(hits: seq<Hit>)
    requires ValidHits(["hello"], "well hello there", hits)
    ensures hits == [Hit(0, 5, 10)]
  {
    HelloOnly();
    SingleOccurrence("hello", "well hello there", 5, hits);
  }

  /** `hello` occurs in `well hello there` at index 5, and only there. */
  lemma HelloOnly()
    ensures OccursAt("hello", "well hello there", 5)
    ensures forall i: nat :: OccursAt("hello", "well hello there", i) ==> i == 5
  {
    var msg := "well hello there";
    OccursInMiddle("well ", "hello", " there");
    assert "well " + "hello" + " there" == msg;
    forall i: nat | OccursAt("hello", msg, i)
      ensures i == 5
    {
      HelloOnce(i);
    }
  }

  /** Two entries with one distinct pattern each build a two-pattern store in entry order. */
  lemma TwoEntries(a: string, ra: Reply, b: string, rb: Reply)
    requires a != b
    ensures New([ConfigEntry([a], ra), ConfigEntry([b], rb)]) == Strategy([a, b], map[a := [ra], b := [rb]])
  {
    var c1, c2 := Contribution(a, ra), Contribution(b, rb);
    var es := [ConfigEntry([a], ra), ConfigEntry([b], rb)];
    assert Spread(es[0]) == [c1] && Spread(es[1]) == [c2];
    assert es[1..][1..] == [];
    assert Contributions(es[1..]) == [c2];
    assert Contributions(es) == [c1, c2];
    assert [c1, c2][..1] == [c1] && [c1][..0] == [];
    assert Build([c1]) == Insert(Build([]), c1) == Strategy([a], map[a := [ra]]);
    assert Build([c1, c2]) == Insert(Build([c1]), c2);
    assert map[a := [ra]][b := [rb]] == map[a := [ra], b := [rb]];
  }

  /** The store with patterns `a` then `ab`, each with its own reply. */
  function ShadowStore(): (s: Strategy)
    ensures s == New([ConfigEntry(["a"], PlainMessage("A")), ConfigEntry(["ab"], PlainMessage("AB"))])
  {
    TwoEntries("a", PlainMessage("A"), "ab", PlainMessage("AB"));
    Strategy(["a", "ab"], map["a" := [PlainMessage("A")], "ab" := [PlainMessage("AB")]])
  }

  /** `a` and `ab` occur in `xaby` at index 1 and nowhere else. */
  lemma XabyOccurs(p: string, i: nat)
    requires p in ["a", "ab"] && OccursAt(p, "xaby", i)
    ensures i == 1
  {
    var msg := "xaby";
    assert msg[i] == p[0];
  }

  /** Reporting `a` alone at index 1 meets the matcher contract for `xaby`. */
  lemma ShadowValid()
    ensures ValidHits(["a", "ab"], "xaby", [Hit(0, 1, 2)])
  {
    var ps, msg, hits := ["a", "ab"], "xaby", [Hit(0, 1, 2)];
    assert OccursAt("a", msg, 1) by {
      OccursInMiddle("x", "a", "by");
      assert "x" + "a" + "by" == msg;
    }
    assert Genuine(ps, msg, hits[0]);
    assert AnyOccurs(ps, msg);
    forall p, i: nat | p in ps && |p| > 0 && OccursAt(p, msg, i)
      ensures BlockedIn(hits, i, i + |p|)
    {
      XabyOccurs(p, i);
      assert Blocks(hits[0], i, i + |p|);
    }
  }

  /**
   Both `a` and `ab` occur in `xaby`, yet a hit sequence that meets the
   matcher contract may report `a` alone (the automaton's standard match
   semantics does so: `a` ends first, and the next search starts after it),
   and then only `a`'s reply comes back.
   */
  lemma ShadowedPattern()
    ensures Contains("xaby", "a") && Contains("xaby", "ab")
    ensures ValidHits(ShadowStore().patterns, "xaby", [Hit(0, 1, 2)])
    ensures FindReply(ShadowStore(), "xaby", [Hit(0, 1, 2)]) == Some([PlainMessage("A")])
  {
    XabyContains();
    ShadowValid();
    GatherOne(ShadowStore(), Hit(0, 1, 2));
  }

  lemma XabyContains()
    ensures Contains("xaby", "a") && Contains("xaby", "ab")
  {
    OccursInMiddle("x", "a", "by");
    OccursInMiddle("x", "ab", "y");
    assert "x" + "a" + "by" == "xaby" && "x" + "ab" + "y" == "xaby";
  }

  /** `a` occurs in `aa` exactly at indices 0 and 1. */
  lemma AaOccurs()
    ensures OccursAt("a", "aa", 0) && OccursAt("a", "aa", 1)
    ensures forall i: nat :: OccursAt("a", "aa", i) ==> i < 2
  {
    var msg := "aa";
    assert msg[0..1] == "a" && msg[1..2] == "a";
  }

  /**
   The matcher passes over no occurrence: for `a` in `aa` it must report
   both, one after the other.
   */
  lemma RepeatedHits(hits: seq<Hit>)
    requires ValidHits(["a"], "aa", hits)
    ensures hits == [Hit(0, 0, 1), Hit(0, 1, 2)]
  {
    AaOccurs();
    TwoAdjacent("a", "aa", hits);
  }

  /**
   A one-character pattern that occurs at indices 0 and 1 and nowhere else
   is reported at both.
   */
  lemma TwoAdjacent(p: string, msg: string, hits: seq<Hit>)
    requires ValidHits([p], msg, hits) && |p| == 1
    requires OccursAt(p, msg, 0) && OccursAt(p, msg, 1)
    requires forall i: nat :: OccursAt(p, msg, i) ==> i < 2
    ensures hits == [Hit(0, 0, 1), Hit(0, 1, 2)]
  {
    assert BlockedIn(hits, 0, 1) && BlockedIn(hits, 1, 2);
    EarlyHits(p, msg, hits);
    TwoUnitHits(hits);
  }

  /** Ascending one-character hits of pattern 0 below index 2 that block both `0..1` and `1..2` are those two. */
  lemma TwoUnitHits(hits: seq<Hit>)
    requires Ascending(hits)
    requires forall k :: 0 <= k < |hits| ==> hits[k].pattern == 0 && hits[k].start < 2 && hits[k].end == hits[k].start + 1
    requires BlockedIn(hits, 0, 1) && BlockedIn(hits, 1, 2)
    ensures hits == [Hit(0, 0, 1), Hit(0, 1, 2)]
  {
    var k0 :| 0 <= k0 < |hits| && Blocks(hits[k0], 0, 1);
    var k1 :| 0 <= k1 < |hits| && Blocks(hits[k1], 1, 2);
    assert hits[k0].start == 0 && hits[k1].start == 1;
    AscendingStarts(hits, |hits| - 1);
    assert k0 < k1;
  }

  /** Every hit of such a pattern is a one-character hit at index 0 or 1. */
  lemma EarlyHits(p: string, msg: string, hits: seq<Hit>)
    requires ValidHits([p], msg, hits) && |p| == 1
    requires forall i: nat :: OccursAt(p, msg, i) ==> i < 2
    ensures forall k :: 0 <= k < |hits| ==> hits[k].pattern == 0 && hits[k].start < 2 && hits[k].end == hits[k].start + 1
  {
    forall k | 0 <= k < |hits|
      ensures hits[k].pattern == 0 && hits[k].start < 2 && hits[k].end == hits[k].start + 1
    {
      assert Genuine([p], msg, hits[k]);
    }
  }

  /** Each occurrence brings its pattern's replies: `a` twice in `aa` answers `A` twice. */
  lemma RepeatedPattern(hits: seq<Hit>)
    requires ValidHits(["a"], "aa", hits)
    ensures FindReply(Strategy(["a"], map["a" := [PlainMessage("A")]]), "aa", hits)
      == Some([PlainMessage("A"), PlainMessage("A")])
  {
    var s := Strategy(["a"], map["a" := [PlainMessage("A")]]);
    RepeatedHits(hits);
    GatherAppend(s, [Hit(0, 0, 1)], [Hit(0, 1, 2)]);
    GatherOne(s, Hit(0, 0, 1));
    GatherOne(s, Hit(0, 1, 2));
    assert [Hit(0, 0, 1)] + [Hit(0, 1, 2)] == hits;
    assert [PlainMessage("A")] + [PlainMessage("A")] == [PlainMessage("A"), PlainMessage("A")];
  }

  /**
   An empty pattern on non-ASCII text: `find_iter` reports one empty hit per
   UTF-8 byte offset, so for `é` (two bytes) three hits at offsets 0, 1 and 2.
   That is more hits than character positions, so the sequence is not
   `ValidHits`; it is `Reported`, and the lookup answers once per hit.
   */
  lemma EmptyPatternBytes()
    ensures !ValidHits([""], "é", [Hit(0, 0, 0), Hit(0, 1, 1), Hit(0, 2, 2)])
    ensures Reported([""], "é", [Hit(0, 0, 0), Hit(0, 1, 1), Hit(0, 2, 2)])
    ensures FindReply(Strategy([""], map["" := [PlainMessage("E")]]), "é", [Hit(0, 0, 0), Hit(0, 1, 1), Hit(0, 2, 2)])
      == Some([PlainMessage("E"), PlainMessage("E"), PlainMessage("E")])
  {
    var msg, hits := "é", [Hit(0, 0, 0), Hit(0, 1, 1), Hit(0, 2, 2)];
    var s := Strategy([""], map["" := [PlainMessage("E")]]);
    assert OccursAt("", msg, 0);
    assert AnyOccurs([""], msg);
    var e := [PlainMessage("E")];
    GatherAppend(s, hits[..2], [hits[2]]);
    GatherAppend(s, [hits[0]], [hits[1]]);
    assert hits[..2] == [hits[0]] + [hits[1]];
    assert hits == hits[..2] + [hits[2]];
    GatherOne(s, hits[0]);
    GatherOne(s, hits[1]);
    GatherOne(s, hits[2]);
    assert e + e + e == [PlainMessage("E"), PlainMessage("E"), PlainMessage("E")];
  }
}
