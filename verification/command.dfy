/**
 The `/append <pattern> <reply>` command embedded in chat messages, and the
 choice between learning it directly and putting it to a vote.
 */
module Command {
  import opened Util
  import opened Pipeline

  /** A chat user id. */
  type UserId = string

  /** The command prefix; eight characters, which the parser skips. */
  const AppendPrefix: string := "/append "

  /** Where the first `c` in `s` is, if anywhere. */
  function IndexOf(s: string, c: char): (r: Option<nat>)
    ensures r.Some? ==> r.value < |s| && s[r.value] == c
    ensures r.Some? ==> forall j :: 0 <= j < r.value ==> s[j] != c
    ensures r.None? ==> forall j :: 0 <= j < |s| ==> s[j] != c
  {
    if |s| == 0 then None
    else if s[0] == c then Some(0)
    else
      match IndexOf(s[1..], c)
      case None => None
      case Some(k) => Some(k + 1)
  }

  /** `splitn(2, " ")` when it yields two pieces: the text before the first space, and the rest. */
  function SplitOnce(s: string): (r: Option<(string, string)>)
    ensures r.Some? <==> ' ' in s
    ensures r.Some? ==> s == r.value.0 + " " + r.value.1 && ' ' !in r.value.0
  {
    match IndexOf(s, ' ')
    case None => None
    case Some(k) =>
      assert s == s[..k] + " " + s[k + 1..];
      Some((s[..k], s[k + 1..]))
  }

  /** Any way of writing `s` as a space-free head, a space and a tail is the split at the first space. */
  lemma SplitUnique(s: string, a: string, b: string)
    requires s == a + " " + b && ' ' !in a
    ensures SplitOnce(s) == Some((a, b))
  {
    assert s[|a|] == ' ';
    var k := IndexOf(s, ' ').value;
    assert s[..|a|] == a;
    assert forall j :: 0 <= j < |a| ==> s[j] == a[j];
    assert k == |a|;
    assert s[k + 1..] == b;
  }

  /**
   The handler's parse of a message body: a command only when the body starts
   with the prefix and the rest holds a space; pattern and reply are the two
   sides of its first space.
   */
  function ParseAppend(body: string): (r: Option<Entry>)
    ensures r.Some? <==>
      |body| >= |AppendPrefix| && body[..|AppendPrefix|] == AppendPrefix && ' ' in body[|AppendPrefix|..]
    ensures r.Some? ==> body == AppendPrefix + r.value.pattern + " " + r.value.reply && ' ' !in r.value.pattern
  {
    if |body| >= |AppendPrefix| && body[..|AppendPrefix|] == AppendPrefix then
      match SplitOnce(body[8..])
      case None => None
      case Some((p, r)) =>
        assert body == body[..8] + body[8..];
        Some(Entry(p, r))
    else None
  }

  /** Writing a command out and parsing it gives back its pattern and reply. */
  lemma ParseRoundTrip(p: string, r: string)
    requires ' ' !in p
    ensures ParseAppend(AppendPrefix + p + " " + r) == Some(Entry(p, r))
  {
    var body := AppendPrefix + p + " " + r;
    assert body[..8] == AppendPrefix;
    assert body[8..] == p + " " + r;
    SplitUnique(body[8..], p, r);
  }

  /** The allow set built from the optional configured list; no list gives the empty set. */
  function AllowSet(users: Option<seq<UserId>>): (r: set<UserId>)
    ensures users.None? ==> r == {}
    ensures users.Some? ==> forall u :: u in r <==> u in users.value
  {
    match users
    case None => {}
    case Some(us) => Elems(us)
  }

  /** Where a message goes: straight to the learning queue, to a vote, or nowhere. */
  datatype Route = Direct(entry: Entry) | ToVote(entry: Entry) | Ignored

  /** The routing of one message body from `sender`. */
  function RouteOf(allow: set<UserId>, sender: UserId, body: string): (r: Route)
    ensures r.Ignored? <==> ParseAppend(body).None?
    ensures r.Direct? <==> ParseAppend(body).Some? && sender in allow
    ensures r.ToVote? <==> ParseAppend(body).Some? && sender !in allow
    ensures !r.Ignored? ==> r.entry == ParseAppend(body).value
  {
    match ParseAppend(body)
    case None => Ignored
    case Some(e) => if sender in allow then Direct(e) else ToVote(e)
  }

  /** Without an allow list, or with an empty one, every well-formed command goes to a vote. */
  lemma NoAllowListMeansVote(users: Option<seq<UserId>>, sender: UserId, p: string, r: string)
    requires users.None? || users == Some([])
    requires ' ' !in p
    ensures RouteOf(AllowSet(users), sender, AppendPrefix + p + " " + r) == ToVote(Entry(p, r))
  {
    ParseRoundTrip(p, r);
  }
}
