/**
 The bot's event handling put together: the auto-reply to a chat message,
 and one state machine for everything that changes shared state (the
 `/append` handler, the reaction handler, the ballot timers and the drain
 ticks). A step returns `None` when a task would panic.
 */
module Handler {
  import opened Util
  import opened Matcher
  import opened Reply
  import opened Pipeline
  import opened Command
  import opened Voting

  /** The text of each reply, in order (the `match r { PlainMessage(r) => r }` step). */
  function Texts(rs: seq<Reply>): (ts: seq<string>)
    ensures |ts| == |rs|
    ensures forall k :: 0 <= k < |rs| ==> PlainMessage(ts[k]) == rs[k]
  {
    seq(|rs|, k requires 0 <= k < |rs| => rs[k].text)
  }

  /**
   The reply chosen by the random word `r`: index `r mod len`. Every reply
   is reachable, by the word equal to its index.
   */
  function Pick(texts: seq<string>, r: nat): (t: string)
    requires |texts| > 0
    ensures t in texts
    ensures r < |texts| ==> t == texts[r]
  {
    texts[r % |texts|]
  }

  /** What the auto-reply handler does with one message. */
  datatype Outcome = Silent | Send(text: string)

  /**
   The auto-reply to `msg` from `sender`, given the matcher's hits and the
   random word `r`. The bot's own messages are never answered. `None` is the
   panic of a matched pattern with no reply list.
   */
  function AutoReply(self: UserId, sender: UserId, s: Strategy, msg: string, hits: seq<Hit>, r: nat): (o: Option<Outcome>)
    requires Reported(s.patterns, msg, hits)
    ensures sender == self ==> o == Some(Silent)
    ensures sender != self ==> (o.Some? <==> FindReply(s, msg, hits).Some?)
    ensures sender != self && Consistent(s) ==> o.Some? && (o.value.Send? <==> AnyOccurs(s.patterns, msg))
    ensures o.Some? && o.value.Send? ==>
      exists p :: p in s.replies && Contains(msg, p) && PlainMessage(o.value.text) in s.replies[p]
  {
    if sender == self then Some(Silent)
    else
      match FindReply(s, msg, hits)
      case None => None
      case Some(rs) =>
        var ts := Texts(rs);
        if |ts| == 0 then Some(Silent)
        else
          assert PlainMessage(ts[r % |ts|]) in rs;
          Some(Send(Pick(ts, r)))
  }

  /** Configuration fixed at start-up: the allow set and whether a cache file is configured. */
  datatype Settings = Settings(allow: set<UserId>, logging: bool)

  /** Shared state: the live store, the learning queue, the voting gate, and the cache log written so far. */
  datatype State = State(store: Strategy, queue: seq<Entry>, gate: Gate, log: seq<Entry>)

  /**
   What can happen. A message says whether the vote room is currently joined
   and which id the server gives the announcement if one is sent; a reaction
   says whether it was posted in the vote room; a timer event fires the
   `k`-th pending ballot timer; a tick runs the drain task once.
   */
  datatype Event =
    | Message(sender: UserId, body: string, voteRoomJoined: bool, announce: EventId)
    | Reaction(inVoteRoom: bool, target: EventId, key: string)
    | Timer(k: nat)
    | Tick

  /** The state every reachable configuration keeps. */
  predicate Inv(st: State)
  {
    Consistent(st.store) && GateInv(st.gate)
  }

  /** The ballot id the event opens, if it opens one. */
  function Opened(cfg: Settings, ev: Event): (r: Option<EventId>)
    ensures r.Some? <==> ev.Message? && ev.voteRoomJoined && RouteOf(cfg.allow, ev.sender, ev.body).ToVote?
  {
    if ev.Message? && ev.voteRoomJoined && RouteOf(cfg.allow, ev.sender, ev.body).ToVote? then Some(ev.announce)
    else None
  }

  /** One event. */
  function Step(cfg: Settings, st: State, ev: Event): (r: Option<State>)
    ensures r.None? <==> ev.Timer? && ev.k < |st.gate.timers| && st.gate.timers[ev.k] !in st.gate.ballots
    ensures r.Some? && !ev.Tick? ==> r.value.store == st.store && r.value.log == st.log
    ensures r.Some? && ev.Message? ==>
      var route := RouteOf(cfg.allow, ev.sender, ev.body);
      && r.value.queue == st.queue + (if route.Direct? then [route.entry] else [])
      && r.value.gate == (if Opened(cfg, ev).Some? then Open(st.gate, ev.announce, route.entry) else st.gate)
    ensures r.Some? && ev.Tick? ==>
      && r.value.queue == []
      && r.value.store == (if |st.queue| > 0 then Merge(st.store, st.queue) else st.store)
      && r.value.log == st.log + (if cfg.logging then st.queue else [])
      && r.value.gate == st.gate
    ensures r.Some? ==>
      r.value.gate.ballots.Keys <= st.gate.ballots.Keys + (if Opened(cfg, ev).Some? then {Opened(cfg, ev).value} else {})
    ensures Inv(st) && (Opened(cfg, ev).Some? ==> Opened(cfg, ev).value !in st.gate.ballots) ==>
      r.Some? && Inv(r.value)
  {
    match ev
    case Message(sender, body, joined, announce) =>
      (match RouteOf(cfg.allow, sender, body)
       case Ignored => Some(st)
       case Direct(e) => Some(st.(queue := st.queue + [e]))
       case ToVote(e) => if joined then Some(st.(gate := Open(st.gate, announce, e))) else Some(st))
    case Reaction(inVoteRoom, target, key) =>
      if inVoteRoom then Some(st.(gate := React(st.gate, target, key))) else Some(st)
    case Timer(k) =>
      if k >= |st.gate.timers| then Some(st)
      else
        (match Expire(st.gate, k)
         case None => None
         case Some(x) => Some(st.(gate := x.gate, queue := st.queue + x.forwarded)))
    case Tick =>
      var d := Drain(st.store, st.queue, cfg.logging);
      Some(State(d.store, [], st.gate, st.log + d.log))
  }

  /**
   A run of events in order; `None` once any step panics. The cache log is
   append-only: what was written before the run is a prefix of the log after it.
   */
  function Run(cfg: Settings, st: State, evs: seq<Event>): (r: Option<State>)
    decreases |evs|
    ensures r.Some? ==> st.log <= r.value.log
  {
    if |evs| == 0 then Some(st)
    else
      match Step(cfg, st, evs[0])
      case None => None
      case Some(st') => Run(cfg, st', evs[1..])
  }

  /**
   The server never hands out an announcement id that is a live ballot at
   the moment the announcement is opened. Ids of ballots whose timer has
   already fired may come back.
   */
  ghost predicate FreshOpens(cfg: Settings, st: State, evs: seq<Event>)
    decreases |evs|
  {
    if |evs| == 0 then true
    else
      && (Opened(cfg, evs[0]).Some? ==> Opened(cfg, evs[0]).value !in st.gate.ballots)
      && match Step(cfg, st, evs[0])
         case None => true
         case Some(st') => FreshOpens(cfg, st', evs[1..])
  }

  /**
   Safety of the whole bot: from a consistent store and a well-formed gate,
   as long as every announcement id is fresh when its ballot opens, no task
   panics and both invariants hold at the end.
   */
  lemma {:induction false} RunSafe(cfg: Settings, st: State, evs: seq<Event>)
    requires Inv(st)
    requires FreshOpens(cfg, st, evs)
    decreases |evs|
    ensures Run(cfg, st, evs).Some? && Inv(Run(cfg, st, evs).value)
  {
    if |evs| > 0 {
      var next := Step(cfg, st, evs[0]);
      assert next.Some? && Inv(next.value);
      RunSafe(cfg, next.value, evs[1..]);
      assert Run(cfg, st, evs) == Run(cfg, next.value, evs[1..]);
    }
  }

  /**
   An id may come back once its ballot's timer has fired: the same command
   announced under the same id twice, each time followed by its timer, runs
   without a panic.
   */
  lemma ReuseAfterExpiry(cfg: Settings, st: State, outsider: UserId, p: string, r: string, id: EventId)
    requires Inv(st) && outsider !in cfg.allow && ' ' !in p && id !in st.gate.ballots
    ensures var m := Message(outsider, AppendPrefix + p + " " + r, true, id);
      var t := Timer(|st.gate.timers|);
      Run(cfg, st, [m, t, m, t]).Some?
  {
    ParseRoundTrip(p, r);
    var m := Message(outsider, AppendPrefix + p + " " + r, true, id);
    var t := Timer(|st.gate.timers|);
    var s1 := st.(gate := Open(st.gate, id, Entry(p, r)));
    assert Step(cfg, st, m) == Some(s1);
    VoteOutcome(st.gate, id, Entry(p, r), []);
    assert ReactAll(s1.gate, id, []) == s1.gate;
    var s2 := Step(cfg, s1, t).value;
    assert s2.gate == st.gate;
    var s3 := Step(cfg, s2, m).value;
    FreshCons(cfg, s3, t, []);
    FreshCons(cfg, s2, m, [t]);
    FreshCons(cfg, s1, t, [m, t]);
    FreshCons(cfg, st, m, [t, m, t]);
    RunSafe(cfg, st, [m, t, m, t]);
  }

  /** Freshness of a run, one event at a time. */
  lemma FreshCons(cfg: Settings, st: State, ev: Event, rest: seq<Event>)
    requires Opened(cfg, ev).Some? ==> Opened(cfg, ev).value !in st.gate.ballots
    requires Step(cfg, st, ev).Some? ==> FreshOpens(cfg, Step(cfg, st, ev).value, rest)
    ensures FreshOpens(cfg, st, [ev] + rest)
  {
    assert ([ev] + rest)[0] == ev && ([ev] + rest)[1..] == rest;
  }

  /**
   A server that reuses an announcement id makes a ballot timer panic: two
   commands from an outsider that get the same id, then both timers.
   */
  lemma RunReusedIdPanics(cfg: Settings, st: State, outsider: UserId, p: string, r: string, id: EventId)
    requires st.gate == EmptyGate && outsider !in cfg.allow && ' ' !in p
    ensures var m := Message(outsider, AppendPrefix + p + " " + r, true, id);
      Run(cfg, st, [m, m, Timer(0), Timer(0)]).None?
  {
    ParseRoundTrip(p, r);
    var m := Message(outsider, AppendPrefix + p + " " + r, true, id);
    var s1 := Step(cfg, st, m).value;
    var s2 := Step(cfg, s1, m).value;
    assert s2.gate == Open(Open(EmptyGate, id, Entry(p, r)), id, Entry(p, r));
    ReusedIdPanics(id, Entry(p, r), Entry(p, r));
    var s3 := Step(cfg, s2, Timer(0)).value;
    assert s3.gate == Expire(s2.gate, 0).value.gate;
    assert Step(cfg, s3, Timer(0)).None?;
    assert Run(cfg, s3, [Timer(0)]).None?;
    assert Run(cfg, s2, [Timer(0), Timer(0)]) == Run(cfg, s3, [Timer(0)]);
    assert Run(cfg, s1, [m, Timer(0), Timer(0)]) == Run(cfg, s2, [Timer(0), Timer(0)]);
    assert Run(cfg, st, [m, m, Timer(0), Timer(0)]) == Run(cfg, s1, [m, Timer(0), Timer(0)]);
  }

  /**
   A command from an allowed user is learned at the next tick: its reply
   becomes the last reply of its pattern, its pattern becomes matchable, and
   it is written to the cache log when one is configured.
   */
  lemma LearnDirect(cfg: Settings, st: State, sender: UserId, p: string, r: string, joined: bool, id: EventId)
    requires Inv(st) && st.queue == [] && sender in cfg.allow && ' ' !in p
    ensures var after := Run(cfg, st, [Message(sender, AppendPrefix + p + " " + r, joined, id), Tick]);
      && after.Some?
      && p in after.value.store.replies
      && after.value.store.replies[p] == Prior(st.store.replies, p) + [PlainMessage(r)]
      && p in Elems(after.value.store.patterns)
      && after.value.log == st.log + (if cfg.logging then [Entry(p, r)] else [])
      && after.value.gate == st.gate
  {
    ParseRoundTrip(p, r);
    var m := Message(sender, AppendPrefix + p + " " + r, joined, id);
    var s1 := Step(cfg, st, m).value;
    assert s1.queue == [Entry(p, r)] && s1.store == st.store && s1.gate == st.gate && s1.log == st.log;
    var s2 := Step(cfg, s1, Tick).value;
    assert Run(cfg, s1, [Tick]) == Some(s2);
    assert Run(cfg, st, [m, Tick]) == Run(cfg, s1, [Tick]);
    LearnOne(st.store, p, r);
  }

  /** Merging a single pair appends its reply to its pattern's list and its pattern to the list. */
  lemma LearnOne(s: Strategy, p: string, r: string)
    ensures var m := Merge(s, [Entry(p, r)]);
      && p in m.replies
      && m.replies[p] == Prior(s.replies, p) + [PlainMessage(r)]
      && m.patterns == s.patterns + [p]
  {
    var cs := AsContributions([Entry(p, r)]);
    assert cs == [Contribution(p, PlainMessage(r))];
    assert PatternsOf(cs) == [p];
    assert RepliesFor(cs, p) == [PlainMessage(r)] by {
      assert cs[1..] == [];
    }
  }

  /** Running `a` then `b` is running `a + b`. */
  lemma {:induction false} RunAppend(cfg: Settings, st: State, a: seq<Event>, b: seq<Event>)
    decreases |a|
    ensures Run(cfg, st, a + b) == (match Run(cfg, st, a) case None => None case Some(st') => Run(cfg, st', b))
  {
    if |a| == 0 {
      assert a + b == b;
    } else {
      assert (a + b)[0] == a[0];
      assert (a + b)[1..] == a[1..] + b;
      match Step(cfg, st, a[0])
      case None =>
      case Some(st') => RunAppend(cfg, st', a[1..], b);
    }
  }

  /** The reactions `keys`, in order, posted in the vote room on event `target`. */
  function Reactions(target: EventId, keys: seq<string>): (evs: seq<Event>)
  {
    seq(|keys|, i requires 0 <= i < |keys| => Reaction(true, target, keys[i]))
  }

  /** A run of reactions changes only the gate, exactly as the reactions applied to the gate one by one. */
  lemma {:induction false} RunReactions(cfg: Settings, st: State, target: EventId, keys: seq<string>)
    decreases |keys|
    ensures Run(cfg, st, Reactions(target, keys)) == Some(st.(gate := ReactAll(st.gate, target, keys)))
  {
    if |keys| > 0 {
      var n := |keys| - 1;
      assert Reactions(target, keys) == Reactions(target, keys[..n]) + [Reaction(true, target, keys[n])];
      RunAppend(cfg, st, Reactions(target, keys[..n]), [Reaction(true, target, keys[n])]);
      RunReactions(cfg, st, target, keys[..n]);
    } else {
      assert Reactions(target, keys) == [];
    }
  }

  /**
   The voting path end to end: an outsider's command announced under a fresh
   id, a run of reactions on the announcement, the ballot's timer, then a
   tick. The pair is learned exactly when thumbs-up reactions outnumber
   thumbs-down ones; otherwise the store is as before. The gate ends as it
   began either way.
   */
  lemma VoteThenLearn(cfg: Settings, st: State, outsider: UserId, p: string, r: string, id: EventId, keys: seq<string>)
    requires Inv(st) && st.queue == [] && outsider !in cfg.allow && ' ' !in p && id !in st.gate.ballots
    ensures var m := Message(outsider, AppendPrefix + p + " " + r, true, id);
      var after := Run(cfg, st, [m] + Reactions(id, keys) + [Timer(|st.gate.timers|), Tick]);
      && after.Some?
      && after.value.gate == st.gate
      && (Count(keys, Yes) > Count(keys, No) ==>
            p in after.value.store.replies && after.value.store.replies[p] == Prior(st.store.replies, p) + [PlainMessage(r)])
      && (Count(keys, Yes) <= Count(keys, No) ==> after.value.store == st.store)
  {
    var m := Message(outsider, AppendPrefix + p + " " + r, true, id);
    var e := Entry(p, r);
    var n := |st.gate.timers|;
    var h := ReactAll(Open(st.gate, id, e), id, keys);
    VoteRunShape(cfg, st, outsider, p, r, id, keys);
    VoteOutcome(st.gate, id, e, keys);
    var x := Expire(h, n).value;
    TimerThenTick(cfg, State(st.store, [], h, st.log), n);
    LearnOne(st.store, p, r);
  }

  /** The announcement and the reactions leave the store and queue alone and shape the gate. */
  lemma VoteRunShape(cfg: Settings, st: State, outsider: UserId, p: string, r: string, id: EventId, keys: seq<string>)
    requires st.queue == [] && outsider !in cfg.allow && ' ' !in p
    ensures var m := Message(outsider, AppendPrefix + p + " " + r, true, id);
      var n := |st.gate.timers|;
      Run(cfg, st, [m] + Reactions(id, keys) + [Timer(n), Tick]) ==
        Run(cfg, State(st.store, [], ReactAll(Open(st.gate, id, Entry(p, r)), id, keys), st.log), [Timer(n), Tick])
  {
    ParseRoundTrip(p, r);
    var m := Message(outsider, AppendPrefix + p + " " + r, true, id);
    var s1 := st.(gate := Open(st.gate, id, Entry(p, r)));
    assert Step(cfg, st, m) == Some(s1);
    assert Run(cfg, st, [m]) == Some(s1);
    RunAppend(cfg, st, [m], Reactions(id, keys));
    RunReactions(cfg, s1, id, keys);
    RunAppend(cfg, st, [m] + Reactions(id, keys), [Timer(|st.gate.timers|), Tick]);
  }

  /** A timer that finds its ballot, followed by a tick, learns exactly what the timer forwarded. */
  lemma TimerThenTick(cfg: Settings, st: State, k: nat)
    requires st.queue == [] && k < |st.gate.timers| && Expire(st.gate, k).Some?
    ensures var x := Expire(st.gate, k).value;
      Run(cfg, st, [Timer(k), Tick]) ==
        Some(State(if |x.forwarded| > 0 then Merge(st.store, x.forwarded) else st.store, [], x.gate,
                   st.log + (if cfg.logging then x.forwarded else [])))
  {
    var x := Expire(st.gate, k).value;
    var s3 := st.(gate := x.gate, queue := x.forwarded);
    assert st.queue + x.forwarded == x.forwarded;
    assert Step(cfg, st, Timer(k)) == Some(s3);
    assert [Timer(k), Tick][1..] == [Tick];
    assert Run(cfg, s3, [Tick]) == Step(cfg, s3, Tick);
  }
}
