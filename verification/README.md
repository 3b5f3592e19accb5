# matrix-moderator: the reply store, learning pipeline and voting gate in Dafny

This project models the logic layer of a Matrix chat bot. The bot answers messages from a
pattern→reply store. It learns new `pattern → reply` pairs from `/append <pattern> <reply>`
commands. Pairs from users on an allow list are learned directly. Pairs from everyone else go
through a vote in a vote room, decided by thumbs-up and thumbs-down reactions.

The modules follow the program's structure:

- `Util` (util.dfy): an optional value, duplicate-freedom and substring occurrence.
- `Matcher` (matcher.dfy): the Aho-Corasick matcher, stated only as the contract its hit sequence
  meets (`ValidHits`: every hit is a real occurrence; hits are ascending and non-overlapping; no
  occurrence of a non-empty pattern is passed over unless it overlaps a hit or starts where one
  starts; and there are no hits exactly when no pattern occurs). A reference leftmost-first scanner
  shows the contract can always be met. The reply lookup needs less of the hits (`Reported`: each
  names a listed pattern that occurs in the message, and there are hits exactly when one occurs),
  which `find_iter` meets whether its offsets count characters or UTF-8 bytes.
- `Reply` (reply.dfy): `ReplyType`, `ACStrategy`, `ACStrategy::new` and `ACStrategy::find_reply`.
  Construction is a fold over the config's (pattern, reply) pairs. It is specified by `BuiltFrom`:
  the pattern list is duplicate-free and in order of first appearance, its elements are exactly the
  map's keys, and each key's list is that pattern's replies in config order.
- `Pipeline` (pipeline.dfy): the drain task. Each tick takes the whole queue, writes each pair to
  the optional cache log, and merges a non-empty batch into the store.
- `Command` (command.dfy): parsing `/append` commands and routing them by the allow set.
- `Voting` (vote.dfy): `get_vote`, the ballot map, and ballot opening, reactions and expiry.
- `Join` (join.dfy): the join retry loop with its doubling delay.
- `Handler` (handler.dfy): picking the reply; one event-driven state machine for everything that
  changes shared state; and the safety theorem that no task panics.
- `Scenarios` (scenarios.dfy): concrete stores and messages.

Asynchronous tasks become explicit events:

- a drain tick;
- a ballot timer firing;
- an incoming message;
- a reaction.

A step returns `None` where the source would panic.

### How the code behaves where one might expect otherwise

- With no allow list configured, the allow set is empty, so *nobody* bypasses the vote
  (src/handler.rs:204-208). An empty list behaves the same way.
- `find_iter` reports non-overlapping matches. When one pattern's match hides another's (`a` and
  `ab` in `xaby`), only one of the two reply lists comes back (`Scenarios.ShadowedPattern`).
  An occurrence of a non-empty pattern that overlaps no hit is never skipped, so `a` in `aa`
  answers twice (`Scenarios.RepeatedPattern`).
- An empty pattern (which `/append  r`, with two spaces, teaches) occurs at every offset.
  `find_iter` counts offsets in UTF-8 bytes, so `é` gets three empty hits and the lookup returns
  three copies of the reply list (`Scenarios.EmptyPatternBytes`).
- Sending on the full 256-slot channel waits; it never fails. The queue is therefore an unbounded
  sequence.
- A learned pair whose pattern is already listed is appended to the pattern list again
  (src/handler.rs:183). Construction, by contrast, lists each pattern once (`Pipeline.MergeMayDuplicate`).
- The `remove(..).unwrap()` of a ballot timer is safe as long as the server never hands out an
  announcement id that is still a live ballot (`Handler.RunSafe`). An id whose timer has already
  fired may come back without harm (`Handler.ReuseAfterExpiry`). An id reused while its ballot is
  live makes the second timer panic (`Voting.ReusedIdPanics`, `Handler.RunReusedIdPanics`).
- In the source text, the two reaction markers of `get_vote` read as U+F8FF followed by `üëç` and
  `üëé`. That is the Mac Roman reading of the UTF-8 bytes of the thumbs-up and thumbs-down emoji.
  The model uses the characters exactly as written. Its proofs rely only on the two markers being
  distinct strings of equal length.

## Model

| member | source | states |
|---|---|---|
| Matcher.ValidHits | src/reply/mod.rs:23 | what the hit sequence of `find_iter` promises, with positions counted in characters; any sequence meeting it names only patterns that occur in the message, is empty exactly when none occurs, and has at most one hit per character position, so no more hits than the message length plus one |
| Matcher.Scan | src/reply/mod.rs:23 | every hit the reference scanner reports is a genuine occurrence of the pattern it names, and the hits are ascending and non-overlapping |
| Matcher.ScanEmpty | src/reply/mod.rs:23 | scanning from a position finds nothing exactly when no pattern occurs at or after it |
| Matcher.ScanBlocks | src/reply/mod.rs:23 | every occurrence of a non-empty pattern at or after the scan's start overlaps a hit of the scan or starts where one starts |
| Matcher.ScanMaximal | src/reply/mod.rs:23 | the reference scanner passes over no occurrence of a non-empty pattern |
| Matcher.ScanValid | src/reply/mod.rs:23-25 | the matcher contract (genuine, ordered, maximal, empty iff nothing occurs) is satisfiable for every pattern list and message |
| Matcher.SingleOccurrence | src/reply/mod.rs:23 | a single pattern occurring at exactly one position is reported exactly once, there |
| Reply.Spread | src/reply/mod.rs:42-47 | the patterns of one entry's pairs are exactly the entry's pattern list, in its order, duplicates included |
| Reply.SpreadReplies | src/reply/mod.rs:42-55 | an entry gives a pattern one copy of its reply for each time the entry lists that pattern, and nothing else |
| Reply.AddReply | src/reply/mod.rs:48-56 | `entry().and_modify(push).or_insert(vec![r])` adds the pattern as a key, appends the reply to its previous list (or starts one) and leaves every other key alone |
| Reply.AddAll | src/reply/mod.rs:47-57 | folding pairs into the map leaves the list of every key that no pair names untouched |
| Reply.AddAllKeys | src/reply/mod.rs:47-57 | folding pairs into the map adds exactly their patterns to the key set |
| Reply.AddAllPrior | src/reply/mod.rs:47-57 | after folding pairs in, a pattern's list is its old list followed by that pattern's replies from the pairs, in pair order |
| Reply.AddAllNonEmpty | src/reply/mod.rs:53-55 | no key ever has an empty reply list, because a key is only created together with its first reply |
| Reply.Insert | src/reply/mod.rs:47-56 | one loop step keeps the store consistent, adds exactly the pair's pattern to the listed patterns, and never lists a pattern twice |
| Reply.Build | src/reply/mod.rs:42-57 | the construction loop always yields a consistent store that lists no pattern twice |
| Reply.BuildReplies | src/reply/mod.rs:42-57 | the construction loop's map is the fold of all config pairs into the empty map |
| Reply.BuildDistinct | src/reply/mod.rs:47-56 | construction lists each pattern once (only `or_insert_with` pushes), and lists exactly the patterns the config names |
| Reply.BuildOrder | src/reply/mod.rs:47-56 | the constructed pattern list is in order of first appearance across the config entries |
| Reply.BuildSpec | src/reply/mod.rs:38-65 | construction yields a consistent, duplicate-free store whose keys are the listed patterns, in first-appearance order, with every config reply of each pattern in config order |
| Reply.New | src/reply/mod.rs:38-65 | `ACStrategy::new` meets `BuiltFrom` for the config's pairs: list and key set agree, no duplicates, first-appearance order, reply lists complete, non-empty and in order |
| Reply.Lookup | src/reply/mod.rs:24-30 | a hit's reply list is available exactly when its id is in range of the pattern list and the pattern is a map key; otherwise the index or `unwrap` panics |
| Reply.Gather | src/reply/mod.rs:21-36 | the concatenation over the hits succeeds exactly when every hit's lookup succeeds |
| Reply.GatherAppend | src/reply/mod.rs:23-34 | gathering over two runs of hits is gathering each run and concatenating, so replies come in hit order |
| Reply.GatherOne | src/reply/mod.rs:27-33 | a single hit contributes its pattern's full reply list |
| Reply.GatherSources | src/reply/mod.rs:23-33 | every reply gathered comes from the lookup of some hit |
| Reply.FindReply | src/reply/mod.rs:20-37 | for any hits that name occurring patterns (character or byte offsets alike), `find_reply` fails exactly when a hit's pattern has no list; it cannot fail when every listed pattern is a key; it is empty when no pattern occurs; on a consistent store it is non-empty exactly when some pattern occurs; every reply belongs to the list of a pattern that occurs in the message |
| Reply.FindReplyBlock | src/reply/mod.rs:23-34 | the k-th hit's full reply list appears contiguously in the result, right after the replies of the hits before it |
| Pipeline.Merge | src/handler.rs:181-198 | the pattern list grows by exactly the batch's patterns in arrival order; the key set grows by them; each pattern's list gains its batch replies at the end (a new key gets just those); keys outside the batch are unchanged; consistency is preserved |
| Pipeline.Drain | src/handler.rs:146-198 | an empty queue changes nothing and logs nothing; with a cache file every drained pair is logged in arrival order; a non-empty queue is merged; consistency is preserved |
| Pipeline.MergeMayDuplicate | src/handler.rs:183 | learning a pattern the store already lists leaves that pattern twice in the pattern list |
| Pipeline.AsConfigContributions | src/handler.rs:187-189 | the pairs a batch merges are exactly the pairs a configuration of one single-pattern entry per learned pair would contribute |
| Pipeline.AddAllAppend | src/handler.rs:187-196 | folding a batch into a map built from earlier pairs equals folding all the pairs at once |
| Pipeline.MergeAgreesWithRebuild | src/handler.rs:181-196 | learning a batch gives the same reply map and the same set of matchable patterns as building afresh from the configuration followed by the batch |
| Command.IndexOf | src/handler.rs:229 | the position found holds the character, and no earlier position does; no position means the character is absent |
| Command.SplitOnce | src/handler.rs:229-230 | `splitn(2, " ")` gives two pieces exactly when there is a space; then the text is head, space, tail, and the head has no space |
| Command.SplitUnique | src/handler.rs:229 | any split into a space-free head, a space and a tail is the split at the first space |
| Command.ParseAppend | src/handler.rs:227-230 | a body is a command exactly when it starts with `/append ` and the rest holds a space; then it is prefix, pattern, space, reply, with no space in the pattern |
| Command.ParseRoundTrip | src/handler.rs:227-230 | writing out `/append` with a space-free pattern and any reply parses back to that pattern and reply |
| Command.AllowSet | src/handler.rs:204-208 | the allow set is the configured list's users, and empty when no list is configured |
| Command.RouteOf | src/handler.rs:227-240 | a well-formed command goes to the queue exactly when the sender is allowed and to a vote exactly when not; a malformed body is ignored |
| Command.NoAllowListMeansVote | src/handler.rs:204-208 | with no allow list, or an empty one, every well-formed command goes to a vote |
| Voting.GetVote | src/handler.rs:319-327 | a key reads Yes exactly when it holds the thumbs-up marker, No exactly when it holds thumbs-down but not thumbs-up, and no vote otherwise |
| Voting.GetVoteMarkers | src/handler.rs:319-327 | thumbs-up anywhere in the key reads Yes, even with thumbs-down before it; thumbs-down alone reads No; the empty key reads as no vote |
| Voting.Open | src/handler.rs:248-259 | opening puts a ballot with tally 0 under the announcement id and starts one timer for it; other ballots are unchanged; with a fresh id the one-timer-per-ballot invariant is kept |
| Voting.React | src/handler.rs:297-305 | a reaction moves only an existing ballot's tally, by +1 for Yes and −1 for No; an unknown id or a key that is no vote leaves the gate unchanged; the invariant is kept |
| Voting.Expire | src/handler.rs:262-280 | a fired timer panics exactly when its ballot is gone; otherwise it removes exactly that ballot and timer, and forwards the pair exactly when the tally is positive; under the invariant it never panics and keeps the invariant |
| Voting.ReactAll | src/handler.rs:297-305 | a run of reactions never adds or removes ballots or timers |
| Voting.Tally | src/handler.rs:301-304 | after any run of reactions on a ballot, its tally is the start tally plus the Yes reactions minus the No reactions, with no per-user deduplication |
| Voting.ReactAllOthers | src/handler.rs:299 | reactions on one ballot leave every other ballot unchanged |
| Voting.VoteOutcome | src/handler.rs:250-280 | a fresh ballot's pair is forwarded exactly when Yes reactions outnumber No reactions, and the gate then returns to what it was |
| Voting.ReusedIdPanics | src/handler.rs:250-280 | two announcements with the same id: the second ballot overwrites the first, and the second timer's `remove(..).unwrap()` panics |
| Join.Pow2Bound | src/handler.rs:104-106 | the delays 2^1..2^11 stay within 3600 s, and 2^12 exceeds it |
| Join.JoinRetry | src/handler.rs:92-110 | the loop stops at the first accepted attempt; it makes at most 11 attempts; it joins exactly when one of the first 11 is accepted; sleep k lasts 2^(k+1) s; on giving up it has slept 11 times, 4094 s in all |
| Handler.Texts | src/handler.rs:44-54 | each reply's text, in order |
| Handler.Pick | src/handler.rs:56-59 | the pick is always one of the replies, and a random word below the count picks the reply at that index, so every reply can be chosen |
| Handler.AutoReply | src/handler.rs:35-65 | for any hits that name occurring patterns, the bot's own messages are never answered; a message panics exactly when `find_reply` would; on a consistent store a reply is sent exactly when some pattern occurs, and the text sent is a reply of a pattern occurring in the message |
| Handler.Opened | src/handler.rs:231-241 | a message opens a ballot exactly when it is a well-formed command from a sender outside the allow set and the vote room is joined |
| Handler.Step | src/handler.rs:143-305 | allowed commands join the queue; outsider commands open a ballot only while the vote room is joined; a tick logs and merges the queue and empties it; only a timer whose ballot is gone panics; no step adds a ballot other than the one it opens; under the invariant with a fresh id no step panics and the invariant is kept |
| Handler.Run | src/handler.rs:149-173 | a run that does not panic only appends to the cache log: the records written before it are a prefix of those after it |
| Handler.RunSafe | src/handler.rs:262-280 | from a consistent store and a well-formed gate, a run in which no announcement gets the id of a ballot that is live at that moment never panics, and ends consistent with a well-formed gate |
| Handler.ReuseAfterExpiry | src/handler.rs:248-280 | an outsider's command announced under an id, its timer, then the same command under the same id and its timer: no panic |
| Handler.RunReusedIdPanics | src/handler.rs:248-280 | two outsider commands that get the same announcement id, followed by both timers, end in a panic |
| Handler.LearnOne | src/handler.rs:183-196 | merging one pair appends its reply to its pattern's list and its pattern to the list |
| Handler.LearnDirect | src/handler.rs:231-238 | starting from an empty queue, an allowed user's command is learned at the next tick (its reply ends its pattern's list) and is logged when a cache file is configured |
| Handler.RunReactions | src/handler.rs:297-305 | a run of reactions in the vote room changes only the gate, as the reactions applied one by one |
| Handler.VoteRunShape | src/handler.rs:240-305 | starting from an empty queue, announcing an outsider's command and its reactions leave store and queue alone and shape the gate |
| Handler.TimerThenTick | src/handler.rs:262-280 | starting from an empty queue, a timer that finds its ballot, followed by a tick, learns exactly what the timer forwarded |
| Handler.VoteThenLearn | src/handler.rs:240-305 | starting from an empty queue and an id that is not a live ballot, an outsider's command, a run of reactions, its timer and a tick: the pair is learned exactly when Yes outnumbers No, else the store is unchanged, and the gate ends as it began |
| Scenarios.OneEntry | src/reply/mod.rs:38-65 | one entry with one pattern builds that one-pattern store |
| Scenarios.HelloStore | src/reply/mod.rs:38-65 | the config `hello → hi!` builds the store with pattern `hello` and reply list `[hi!]` |
| Scenarios.HelloOnce | src/reply/mod.rs:23 | `hello` occurs in `well hello there` only at index 5 |
| Scenarios.HelloHits | src/reply/mod.rs:23 | the matcher's hits for `hello` in `well hello there` are exactly one hit at index 5 |
| Scenarios.HelloLookup | src/reply/mod.rs:20-37 | on that store, whatever valid hits the matcher reports for `well hello there`, the lookup is exactly `[hi!]` |
| Scenarios.HelloScenario | src/reply/mod.rs:20-65 | building from `hello → hi!` and looking up `well hello there` gives exactly `[hi!]` |
| Scenarios.TwoEntries | src/reply/mod.rs:38-65 | two entries with distinct single patterns build a two-pattern store, in entry order |
| Scenarios.ShadowStore | src/reply/mod.rs:38-65 | the store with `a` then `ab` is the one `new` builds from those two entries |
| Scenarios.ShadowValid | src/reply/mod.rs:23 | reporting `a` alone at index 1 meets the matcher contract for patterns `a`, `ab` and message `xaby` |
| Scenarios.ShadowedPattern | src/reply/mod.rs:23-34 | both `a` and `ab` occur in `xaby`, yet a valid non-overlapping hit sequence reports only `a`, and then only `a`'s reply comes back |
| Scenarios.RepeatedHits | src/reply/mod.rs:23 | for pattern `a` and message `aa`, every valid hit sequence reports both occurrences, in order |
| Scenarios.EmptyPatternBytes | src/reply/mod.rs:20-37 | for the empty pattern and message `é`, the three byte-offset hits `find_iter` reports are not a character-position hit sequence, yet the lookup accepts them and answers with three copies of the reply list |
| Scenarios.RepeatedPattern | src/reply/mod.rs:20-37 | looking up `aa` in the store `a → A` gives `[A, A]`: one reply list per occurrence |

## Left out

- Matrix SDK plumbing is not modelled:
  - handler registration (src/handler.rs:71-83), including room-scoped registration;
  - login and sync (src/main.rs);
  - invite detection (src/handler.rs:85-90);
  - `room.send`. The announcement's event id is an input of the message event.
  - The filters that run before the handlers. The auto-reply handler skips rooms the bot has not
    joined and non-text messages (src/handler.rs:31-33). The `/append` handler skips only non-text
    messages (src/handler.rs:224). Both are modelled as seeing only text messages. The `/append`
    handler's one `Room::Joined` check is on the vote room (src/handler.rs:240-241), and that check
    is modelled as the `voteRoomJoined` flag of a message event.
- `client.user_id().unwrap()` and every `unwrap` on a network send are left out. These are I/O failures.
- Concurrency is not modelled: `RwLock`, `Mutex`, the `mpsc` channel, `tokio::spawn` and `sleep`.
  - Ticks, timers and reactions are events in an arbitrary order; a timer event names which
    pending timer fires.
  - The durations `delay` and `vote_delay` are not modelled.
  - Readers never see a half-merged store because the merge happens under the write lock. A step
    is atomic, so this is built in rather than proved.
- After the first panic the model stops (`None`). A panicking task poisons the vote map's mutex,
  and the later behaviour of the other tasks is not modelled.
- The Aho-Corasick automaton is a foreign library and is not modelled:
  - only the contract of its hit sequence is stated;
  - which valid hit sequence it picks when matches overlap is not fixed. Any sequence that reports
    real, ordered, non-overlapping occurrences and passes over no occurrence of a non-empty
    pattern is allowed;
  - how many empty hits an empty pattern gets is not fixed: `Matcher.Maximal` constrains only
    non-empty patterns;
  - the `unwrap` on building it (size limits) is not modelled.
- Matcher.ValidHits: positions are character indices, while `find_iter` reports UTF-8 byte
  offsets. For non-empty patterns the two correspond one to one. For an empty pattern on non-ASCII
  text `find_iter` reports one empty hit per byte offset, which can exceed the `|msg| + 1` bound, so
  its real output falls outside `ValidHits`. `Reply.FindReply` and `Handler.AutoReply` therefore
  require only `Reported`, which those hits meet. That a non-empty pattern's byte occurrence is a
  character occurrence (UTF-8 is self-synchronising) is assumed, not proved.
- `rand::random` is not modelled: the random word is a parameter.
- `Handler.Pick`: the random word is an unbounded `nat`, not a 64-bit `usize`. The modulo bias
  is not modelled.
- File opening and `serde_json` formatting (src/handler.rs:149-173) are not modelled. The cache
  log is an abstract sequence of pairs, so the following are not represented:
  - the JSON line format;
  - the file being created on ticks that drain nothing;
  - I/O panics.
- `Voting.React`: the tally is an unbounded integer, not the source's `i32`. Wrap-around would
  need more than 2^31 reactions on one ballot.
- The channel capacity of 256 only delays senders, so the queue has no bound.
- Join: only the retry loop is modelled. The accept call's outcomes are an input, and the sleeps
  are returned as data.
- Not modelled:
  - src/utils.rs (command-line parsing);
  - src/main.rs (start-up);
  - cache2config.py (a separate conversion script).

  src/config.rs is mirrored by `Reply.ConfigEntry`.
- Logging macros are not modelled.
