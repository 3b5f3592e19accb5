/**
 The voting gate for commands from users outside the allow list: each such
 command is announced in the vote room and becomes a ballot keyed by the
 announcement's event id; reactions to the announcement move its tally; when
 the ballot's timer fires the ballot is removed and, if its tally is positive,
 the pair is forwarded to the learning queue.
 */
module Voting {
  import opened Util
  import opened Pipeline

  /** A chat event id, as assigned by the server. */
  type EventId = string

  /** How one reaction reads. */
  datatype Vote = Yes | No

  /**
   The two markers `get_vote` looks for, exactly as the source text spells
   them: the private-use character U+F8FF followed by three Latin-1 letters,
   which is how the UTF-8 bytes of the thumbs-up and thumbs-down emoji read
   when decoded as Mac Roman.
   */
  const ThumbsUp: string := "\U{F8FF}\U{FC}\U{EB}\U{E7}"
  const ThumbsDown: string := "\U{F8FF}\U{FC}\U{EB}\U{E9}"

  /** The reading of a reaction key: thumbs-up wins over thumbs-down; anything else is no vote. */
  function GetVote(key: string): (r: Option<Vote>)
    ensures r == Some(Yes) <==> Contains(key, ThumbsUp)
    ensures r == Some(No) <==> !Contains(key, ThumbsUp) && Contains(key, ThumbsDown)
    ensures r == None <==> !Contains(key, ThumbsUp) && !Contains(key, ThumbsDown)
  {
    if Contains(key, ThumbsUp) then Some(Yes)
    else if Contains(key, ThumbsDown) then Some(No)
    else None
  }

  /** A block of the same length as the marker that differs from it is not the marker. */
  lemma NotContainsSameLength(s: string, t: string)
    requires |s| == |t| && s != t
    ensures !Contains(s, t)
  {
    forall i: nat | i <= |s|
      ensures !OccursAt(t, s, i)
    {
      if i == 0 {
        assert s[0..|t|] == s;
      }
    }
  }

  /**
   Each marker reads as its own vote wherever it sits in the key, a key with
   both reads as Yes, and the empty key is no vote.
   */
  lemma {:induction false} GetVoteMarkers(a: string, b: string)
    ensures GetVote(a + ThumbsUp + b) == Some(Yes)
    ensures GetVote(ThumbsDown) == Some(No)
    ensures GetVote(a + ThumbsDown + b + ThumbsUp) == Some(Yes)
    ensures GetVote([]) == None
  {
    OccursInMiddle(a, ThumbsUp, b);
    assert ThumbsDown[3] != ThumbsUp[3];
    NotContainsSameLength(ThumbsDown, ThumbsUp);
    OccursInMiddle([], ThumbsDown, []);
    assert [] + ThumbsDown + [] == ThumbsDown;
    OccursInMiddle(a + ThumbsDown + b, ThumbsUp, []);
    assert a + ThumbsDown + b + ThumbsUp + [] == a + ThumbsDown + b + ThumbsUp;
    assert !OccursAt(ThumbsUp, [], 0);
  }

  /** What one vote adds to a tally. */
  function Weight(v: Vote): int
  {
    match v
    case Yes => 1
    case No => -1
  }

  /** `VoteReply`: a pending pair and its running tally. */
  datatype Ballot = Ballot(pattern: string, reply: string, vote: int)

  /**
   The shared vote map together with the ballot timers still pending, in the
   order their ballots were opened (one timer task per announcement).
   */
  datatype Gate = Gate(ballots: map<EventId, Ballot>, timers: seq<EventId>)

  /** Every ballot has exactly one pending timer and every pending timer has its ballot. */
  predicate GateInv(g: Gate)
  {
    NoDup(g.timers) && Elems(g.timers) == g.ballots.Keys
  }

  /** No ballots and no timers. */
  const EmptyGate: Gate := Gate(map[], [])

  /**
   A vote is opened under the announcement's id: a fresh ballot with tally 0
   and a timer for it. An id already present has its ballot overwritten and
   gets a second timer.
   */
  function Open(g: Gate, id: EventId, e: Entry): (r: Gate)
    ensures id in r.ballots && r.ballots[id] == Ballot(e.pattern, e.reply, 0)
    ensures r.ballots.Keys == g.ballots.Keys + {id}
    ensures forall x :: x in g.ballots && x != id ==> r.ballots[x] == g.ballots[x]
    ensures r.timers == g.timers + [id]
    ensures GateInv(g) && id !in g.ballots ==> GateInv(r)
  {
    OpenFacts(g, id);
    Gate(g.ballots[id := Ballot(e.pattern, e.reply, 0)], g.timers + [id])
  }

  lemma OpenFacts(g: Gate, id: EventId)
    ensures GateInv(g) && id !in g.ballots ==> NoDup(g.timers + [id]) && Elems(g.timers + [id]) == g.ballots.Keys + {id}
  {
    if GateInv(g) && id !in g.ballots {
      ElemsAppend(g.timers, id);
      NoDupAppend(g.timers, id);
    }
  }

  /**
   A reaction to event `target`: only an existing ballot is touched (the
   `and_modify` without an insert), and only when the key reads as a vote.
   */
  function React(g: Gate, target: EventId, key: string): (r: Gate)
    ensures r.timers == g.timers && r.ballots.Keys == g.ballots.Keys
    ensures forall x :: x in g.ballots && x != target ==> r.ballots[x] == g.ballots[x]
    ensures target in g.ballots ==>
      && r.ballots[target].pattern == g.ballots[target].pattern
      && r.ballots[target].reply == g.ballots[target].reply
      && r.ballots[target].vote == g.ballots[target].vote + (if GetVote(key).Some? then Weight(GetVote(key).value) else 0)
    ensures target !in g.ballots || GetVote(key).None? ==> r == g
    ensures GateInv(g) ==> GateInv(r)
  {
    match GetVote(key)
    case None => g
    case Some(v) =>
      if target in g.ballots then
        var b := g.ballots[target];
        Gate(g.ballots[target := b.(vote := b.vote + Weight(v))], g.timers)
      else g
  }

  /** `s` without its element at index `k`. */
  function RemoveAt<T>(s: seq<T>, k: nat): (r: seq<T>)
    requires k < |s|
    ensures |r| == |s| - 1
    ensures forall i :: 0 <= i < k ==> r[i] == s[i]
    ensures forall i :: k <= i < |r| ==> r[i] == s[i + 1]
  {
    s[..k] + s[k + 1..]
  }

  /** Taking one element out of a duplicate-free sequence removes exactly that element. */
  lemma RemoveAtElems<T>(s: seq<T>, k: nat)
    requires k < |s| && NoDup(s)
    ensures NoDup(RemoveAt(s, k))
    ensures Elems(RemoveAt(s, k)) == Elems(s) - {s[k]}
  {
    var r := RemoveAt(s, k);
    forall x | x in Elems(s) - {s[k]}
      ensures x in Elems(r)
    {
      var i :| 0 <= i < |s| && s[i] == x;
      if i < k {
        assert r[i] == x;
      } else {
        assert r[i - 1] == x;
      }
    }
    forall x | x in Elems(r)
      ensures x in Elems(s) - {s[k]}
    {
      var i :| 0 <= i < |r| && r[i] == x;
      if i < k {
        assert s[i] == x;
      } else {
        assert s[i + 1] == x;
      }
    }
  }

  /** What a fired timer leaves behind: the gate, and the pairs it forwarded to the learning queue. */
  datatype Expiry = Expiry(gate: Gate, forwarded: seq<Entry>)

  /**
   The `k`-th pending timer fires: the ballot is read, forwarded when its
   tally is positive, and removed. `None` is the panic of removing a ballot
   that is no longer there (`remove(..).unwrap()`).
   */
  function Expire(g: Gate, k: nat): (r: Option<Expiry>)
    requires k < |g.timers|
    ensures r.None? <==> g.timers[k] !in g.ballots
    ensures r.Some? ==>
      var id := g.timers[k];
      && r.value.gate.ballots == g.ballots - {id}
      && r.value.gate.timers == RemoveAt(g.timers, k)
      && (g.ballots[id].vote > 0 ==> r.value.forwarded == [Entry(g.ballots[id].pattern, g.ballots[id].reply)])
      && (g.ballots[id].vote <= 0 ==> r.value.forwarded == [])
    ensures GateInv(g) ==> r.Some? && GateInv(r.value.gate)
  {
    var id := g.timers[k];
    if id !in g.ballots then None
    else
      var b := g.ballots[id];
      var out := if b.vote > 0 then [Entry(b.pattern, b.reply)] else [];
      ExpireFacts(g, k);
      Some(Expiry(Gate(g.ballots - {id}, RemoveAt(g.timers, k)), out))
  }

  lemma ExpireFacts(g: Gate, k: nat)
    requires k < |g.timers|
    ensures GateInv(g) ==> NoDup(RemoveAt(g.timers, k)) && Elems(RemoveAt(g.timers, k)) == g.ballots.Keys - {g.timers[k]}
  {
    if GateInv(g) {
      RemoveAtElems(g.timers, k);
    }
  }

  /** The reactions `keys`, in order, all aimed at `target`. */
  function ReactAll(g: Gate, target: EventId, keys: seq<string>): (r: Gate)
    decreases |keys|
    ensures r.timers == g.timers && r.ballots.Keys == g.ballots.Keys
  {
    if |keys| == 0 then g
    else React(ReactAll(g, target, keys[..|keys| - 1]), target, keys[|keys| - 1])
  }

  /** How many of `keys` read as `v`. */
  function Count(keys: seq<string>, v: Vote): (n: nat)
    ensures n <= |keys|
  {
    if |keys| == 0 then 0
    else Count(keys[1..], v) + (if GetVote(keys[0]) == Some(v) then 1 else 0)
  }

  lemma {:induction false} CountLast(keys: seq<string>, v: Vote)
    requires |keys| > 0
    ensures Count(keys, v) == Count(keys[..|keys| - 1], v) + (if GetVote(keys[|keys| - 1]) == Some(v) then 1 else 0)
    decreases |keys|
  {
    if |keys| > 1 {
      assert keys[1..][..|keys[1..]| - 1] == keys[..|keys| - 1][1..];
      CountLast(keys[1..], v);
    } else {
      assert keys[..0] == [];
    }
  }

  /**
   A ballot's tally after a run of reactions is its starting tally plus the
   thumbs-up reactions minus the thumbs-down ones; its pair does not change.
   */
  lemma {:induction false} Tally(g: Gate, target: EventId, keys: seq<string>)
    requires target in g.ballots
    decreases |keys|
    ensures var b := ReactAll(g, target, keys).ballots[target];
      && b.pattern == g.ballots[target].pattern && b.reply == g.ballots[target].reply
      && b.vote == g.ballots[target].vote + Count(keys, Yes) - Count(keys, No)
  {
    if |keys| > 0 {
      Tally(g, target, keys[..|keys| - 1]);
      CountLast(keys, Yes);
      CountLast(keys, No);
    }
  }

  /**
   The life of one fresh ballot: opened, reacted to, and expired. The pair
   reaches the learning queue exactly when thumbs-up reactions outnumber
   thumbs-down ones, and the gate returns to what it was.
   */
  lemma VoteOutcome(g: Gate, id: EventId, e: Entry, keys: seq<string>)
    requires GateInv(g) && id !in g.ballots
    ensures var h := ReactAll(Open(g, id, e), id, keys);
      && |g.timers| < |h.timers| && h.timers[|g.timers|] == id
      && Expire(h, |g.timers|).Some?
      && (Expire(h, |g.timers|).value.forwarded == [e] <==> Count(keys, Yes) > Count(keys, No))
      && (Expire(h, |g.timers|).value.forwarded == [] <==> Count(keys, Yes) <= Count(keys, No))
      && Expire(h, |g.timers|).value.gate == g
  {
    var o := Open(g, id, e);
    var h := ReactAll(o, id, keys);
    var n := |g.timers|;
    Tally(o, id, keys);
    ReactAllRestore(g, id, e, keys);
    RemoveLast(g.timers, id);
    assert h.timers == g.timers + [id] && h.timers[n] == id;
    var x := Expire(h, n).value;
    assert x.gate == Gate(h.ballots - {id}, RemoveAt(h.timers, n));
  }

  /** Removing the ballot a run of reactions was aimed at gives back the gate's ballots before it opened. */
  lemma ReactAllRestore(g: Gate, id: EventId, e: Entry, keys: seq<string>)
    requires id !in g.ballots
    ensures ReactAll(Open(g, id, e), id, keys).ballots - {id} == g.ballots
  {
    var o := Open(g, id, e);
    var b := ReactAll(o, id, keys).ballots - {id};
    forall y | y in g.ballots
      ensures b[y] == g.ballots[y]
    {
      ReactAllOthers(o, id, keys, y);
    }
    assert b.Keys == g.ballots.Keys;
  }

  /** Removing the last element gives back the sequence before it was appended. */
  lemma RemoveLast<T>(s: seq<T>, x: T)
    ensures RemoveAt(s + [x], |s|) == s
  {
    assert (s + [x])[..|s|] == s;
  }

  /** Reactions aimed at one ballot leave every other ballot alone. */
  lemma {:induction false} ReactAllOthers(g: Gate, target: EventId, keys: seq<string>, other: EventId)
    requires other in g.ballots && other != target
    decreases |keys|
    ensures ReactAll(g, target, keys).ballots[other] == g.ballots[other]
  {
    if |keys| > 0 {
      ReactAllOthers(g, target, keys[..|keys| - 1], other);
    }
  }

  /**
   Two announcements that come back with the same event id: the second
   ballot overwrites the first, the first timer forwards the second pair's
   outcome, and the second timer panics on the missing ballot.
   */
  lemma ReusedIdPanics(id: EventId, e1: Entry, e2: Entry)
    ensures var g := Open(Open(EmptyGate, id, e1), id, e2);
      && Expire(g, 0).Some?
      && Expire(g, 0).value.forwarded == []
      && |Expire(g, 0).value.gate.timers| == 1
      && Expire(Expire(g, 0).value.gate, 0).None?
  {
  }
}
