/**
 * The consumer side of the endpoint: the conversion of each returned video into an
 * appearance record (topic and role by ordered keyword rules over the lower-cased
 * title, a positional `featured` flag), and the selections the hooks make from the
 * reply: converted data or the placeholders, the featured list and the recent list.
 */
module YouTubeHooks {
  import opened Wrappers
  import opened Seqs
  import opened YouTubeApi

  /** The channel whose own videos are classified as talks by the speaker. */
  const SpeakerChannel: string := "Nanda Third Eye"
  const DefaultTopic: string := "Political Analysis"
  /** Videos at positions below this are featured. */
  const FeaturedCount: nat := 6
  const RecentCount: nat := 3

  datatype Role = GuestAnalyst | Panelist | Speaker | Interview | Debate | Commentary

  datatype Appearance = Appearance(
    docId: string,
    title: string,
    youtubeId: string,
    channelName: string,
    channelUrl: string,
    role: Role,
    topic: string,
    publishedAt: int,
    featured: bool)

  // ----- text -----------------------------------------------------------------

  /** Lower-casing of ASCII letters; every other character is left as it is. */
  function LowerChar(c: char): char {
    if 'A' <= c <= 'Z' then (c as int + 32) as char else c
  }

  function Lower(s: string): (r: string)
    ensures |r| == |s| && forall k :: 0 <= k < |s| ==> r[k] == LowerChar(s[k])
  {
    seq(|s|, k requires 0 <= k < |s| => LowerChar(s[k]))
  }

  /** `s.includes(t)`: `t` is `s`'s prefix or is included in `s` without its first character. */
  predicate Includes(s: string, t: string) {
    |t| <= |s| && (s[..|t|] == t || (|s| > 0 && Includes(s[1..], t)))
  }

  /** `t` occurs in `s` at position `i`. */
  predicate OccursAt(s: string, t: string, i: int) {
    0 <= i && i + |t| <= |s| && s[i..i + |t|] == t
  }

  /** Includes agrees with "`t` occurs at some position of `s`". */
  lemma IncludesIffOccurs(s: string, t: string)
    ensures Includes(s, t) <==> exists i :: OccursAt(s, t, i)
  {
    if Includes(s, t) {
      var i := IncludedAt(s, t);
    }
    if exists i :: OccursAt(s, t, i) {
      var i :| OccursAt(s, t, i);
      OccursIncluded(s, t, i);
    }
  }

  /** A position at which an included `t` occurs. */
  lemma {:induction false} IncludedAt(s: string, t: string) returns (i: nat)
    requires Includes(s, t)
    ensures OccursAt(s, t, i)
  {
    if s[..|t|] == t {
      i := 0;
    } else {
      var j := IncludedAt(s[1..], t);
      assert s[1..][j..j + |t|] == s[j + 1..j + 1 + |t|];
      i := j + 1;
    }
  }

  /** An occurrence at any position makes `t` included. */
  lemma {:induction false} OccursIncluded(s: string, t: string, i: nat)
    requires OccursAt(s, t, i)
    ensures Includes(s, t)
    decreases i
  {
    if i > 0 {
      assert s[1..][i - 1..i - 1 + |t|] == s[i..i + |t|];
      OccursIncluded(s[1..], t, i - 1);
    }
  }

  /** A keyword occurring in a title occurs, lower-cased, in the lower-cased title. */
  lemma LowerKeepsIncludes(s: string, t: string)
    requires Includes(s, t)
    ensures Includes(Lower(s), Lower(t))
  {
    IncludesIffOccurs(s, t);
    var i :| OccursAt(s, t, i);
    assert Lower(s)[i..i + |t|] == Lower(t);
    assert OccursAt(Lower(s), Lower(t), i);
    IncludesIffOccurs(Lower(s), Lower(t));
  }

  // ----- ordered keyword rules ------------------------------------------------

  /** A rule fires when the text includes any of its keywords. */
  datatype Rule<T> = Rule(keywords: seq<string>, outcome: T)

  predicate Fires<T>(rule: Rule<T>, text: string) {
    exists kw :: kw in rule.keywords && Includes(text, kw)
  }

  /** The position of the first rule that fires, or |rules| when none does. */
  function FirstFiring<T>(rules: seq<Rule<T>>, text: string): (k: nat)
    ensures k <= |rules|
    ensures k < |rules| ==> Fires(rules[k], text)
    ensures forall j :: 0 <= j < k ==> !Fires(rules[j], text)
  {
    if rules == [] then 0
    else if Fires(rules[0], text) then 0
    else 1 + FirstFiring(rules[1..], text)
  }

  /** An if / else-if chain: the outcome of the first rule that fires, else `otherwise`. */
  function Classify<T>(rules: seq<Rule<T>>, text: string, otherwise: T): (r: T)
    ensures (forall j :: 0 <= j < |rules| ==> !Fires(rules[j], text)) ==> r == otherwise
    ensures forall k :: (0 <= k < |rules| && Fires(rules[k], text) &&
      (forall j :: 0 <= j < k ==> !Fires(rules[j], text))) ==> r == rules[k].outcome
  {
    var k := FirstFiring(rules, text);
    if k < |rules| then rules[k].outcome else otherwise
  }

  /** Topic rules in the order the source tests them. */
  const TopicRules: seq<Rule<string>> := [
    Rule(["election", "தேர்தல்"], "Election Analysis"),
    Rule(["dmk", "திமுக"], "Party Politics"),
    Rule(["bjp", "பாஜக"], "BJP Politics"),
    Rule(["vijay", "tvk", "விஜய்"], "TVK Politics"),
    Rule(["seeman", "ntk", "சீமான்"], "NTK Politics"),
    Rule(["supreme court", "court", "law"], "Legal & Constitutional"),
    Rule(["women", "பெண்"], "Social Issues"),
    Rule(["india", "geopolit"], "Geopolitics")
  ]

  /** Title rules for the role, in the order the source tests them. */
  const RoleRules: seq<Rule<Role>> := [
    Rule(["times now", "cnn", "news18"], GuestAnalyst),
    Rule(["debate", "vs"], Debate),
    Rule(["panel"], Panelist),
    Rule(["interview"], Interview)
  ]

  /** The topics an appearance can carry. */
  const Topics: set<string> := {
    DefaultTopic, "Election Analysis", "Party Politics", "BJP Politics", "TVK Politics",
    "NTK Politics", "Legal & Constitutional", "Social Issues", "Geopolitics"
  }

  function TopicOf(title: string): string {
    Classify(TopicRules, Lower(title), DefaultTopic)
  }

  /** The title rules, then the exact, case-sensitive channel-name test. */
  function RoleOf(title: string, channelName: string): Role {
    Classify(RoleRules, Lower(title), if channelName == SpeakerChannel then Speaker else Commentary)
  }

  // ----- classification properties ----------------------------------------------

  /** The chosen outcome is one of the rules' outcomes or the fallback. */
  lemma ClassifyOutcome<T>(rules: seq<Rule<T>>, text: string, otherwise: T)
    ensures Classify(rules, text, otherwise) == otherwise ||
      exists k :: 0 <= k < |rules| && Classify(rules, text, otherwise) == rules[k].outcome
  {
  }

  /** Every topic belongs to the fixed vocabulary. */
  lemma TopicInVocabulary(title: string)
    ensures TopicOf(title) in Topics
  {
    var k := FirstFiring(TopicRules, Lower(title));
    if k < |TopicRules| {
      TopicOutcomesInVocabulary();
      assert TopicOf(title) == TopicRules[k].outcome;
    }
  }

  lemma TopicOutcomesInVocabulary()
    ensures forall k :: 0 <= k < |TopicRules| ==> TopicRules[k].outcome in Topics
  {
  }

  /**
   * Precedence: the topic of a title is the outcome of the first topic rule that
   * fires on its lower-cased form, and the default when none fires.
   */
  lemma TopicIsFirstMatch(title: string, k: nat)
    requires k < |TopicRules| && Fires(TopicRules[k], Lower(title))
    requires forall j :: 0 <= j < k ==> !Fires(TopicRules[j], Lower(title))
    ensures TopicOf(title) == TopicRules[k].outcome
  {
  }

  /** A title that mentions an election is an election analysis, whatever else it mentions. */
  lemma ElectionOutranksEverything(title: string)
    requires Includes(Lower(title), "election")
    ensures TopicOf(title) == "Election Analysis"
  {
    assert TopicRules[0].keywords[0] == "election";
    assert Fires(TopicRules[0], Lower(title));
    TopicIsFirstMatch(title, 0);
  }

  /** A title that contains both "Election" and "Court" gets the election topic, not the legal one. */
  lemma ElectionBeforeCourt(title: string)
    requires Includes(title, "Election") && Includes(title, "Court")
    ensures TopicOf(title) == "Election Analysis"
  {
    LowerKeepsIncludes(title, "Election");
    LowerOfElection();
    ElectionOutranksEverything(title);
  }

  lemma LowerOfElection()
    ensures Lower("Election") == "election"
  {
    assert Lower("Election")[0] == 'e';
  }

  /** The speaker role comes only from the exact channel name, never from the title. */
  lemma SpeakerOnlyFromChannelName(title: string, channelName: string)
    ensures RoleOf(title, channelName) == Speaker ==> channelName == SpeakerChannel
  {
  }

  /** With no role keyword in the title, the channel name decides, compared exactly. */
  lemma RoleByChannelName(title: string, channelName: string)
    requires forall j :: 0 <= j < |RoleRules| ==> !Fires(RoleRules[j], Lower(title))
    ensures RoleOf(title, channelName) == (if channelName == SpeakerChannel then Speaker else Commentary)
  {
  }

  /** The channel-name test is exact: a differently cased name does not give the speaker role. */
  lemma ChannelNameIsCaseSensitive()
    ensures RoleOf("", "Nanda Third Eye") == Speaker
    ensures RoleOf("", "nanda third eye") == Commentary
  {
  }

  /** Titles that agree after lower-casing get the same topic and role. */
  lemma ClassificationIgnoresCase(t1: string, t2: string, channelName: string)
    requires Lower(t1) == Lower(t2)
    ensures TopicOf(t1) == TopicOf(t2)
    ensures RoleOf(t1, channelName) == RoleOf(t2, channelName)
  {
  }

  // ----- conversion -----------------------------------------------------------

  /** convertToAppearance */
  function ConvertToAppearance(video: VideoRecord, index: int): (a: Appearance)
    ensures a.docId == "yt-" + video.id && a.youtubeId == video.id
    ensures a.title == video.title && a.channelName == video.channelName
    ensures a.channelUrl == video.channelUrl && a.publishedAt == video.publishedAt
    ensures a.featured <==> index < FeaturedCount
    ensures a.topic == TopicOf(video.title) && a.topic in Topics
    ensures a.role == RoleOf(video.title, video.channelName)
  {
    TopicInVocabulary(video.title);
    Appearance(
      "yt-" + video.id, video.title, video.id, video.channelName, video.channelUrl,
      RoleOf(video.title, video.channelName), TopicOf(video.title), video.publishedAt,
      index < FeaturedCount)
  }

  /** `result.videos.map((video, index) => convertToAppearance(video, index))` */
  function ConvertAll(videos: seq<VideoRecord>): (r: seq<Appearance>)
    ensures |r| == |videos|
    ensures forall i :: 0 <= i < |videos| ==> r[i] == ConvertToAppearance(videos[i], i)
  {
    seq(|videos|, i requires 0 <= i < |videos| => ConvertToAppearance(videos[i], i))
  }

  // ----- selection in the hooks -------------------------------------------------

  datatype ReplyBody = ReplyBody(success: bool, videos: seq<VideoRecord>, fetchedAt: int)

  /** The reply to `fetch('/api/youtube')`: a response with its `ok` flag, or a failed request. */
  datatype ApiReply = Received(ok: bool, body: ReplyBody) | Unreachable

  /** What useYouTubeVideos holds after its first fetch. */
  datatype HookState = HookState(data: seq<Appearance>, lastFetched: Option<int>, failed: bool)

  /** The reply's videos are used when the request succeeded and returned at least one. */
  predicate UsesReply(reply: ApiReply) {
    reply.Received? && reply.ok && reply.body.success && |reply.body.videos| > 0
  }

  /**
   * fetchVideos in useYouTubeVideos: the converted videos when the reply is usable,
   * otherwise the placeholder appearances; a failed or non-ok request is also an error.
   */
  function LoadVideos(reply: ApiReply, placeholder: seq<Appearance>): (s: HookState)
    ensures UsesReply(reply) ==>
      s.data == ConvertAll(reply.body.videos) && s.lastFetched == Some(reply.body.fetchedAt)
    ensures !UsesReply(reply) ==> s.data == placeholder && s.lastFetched.None?
    ensures s.failed <==> reply.Unreachable? || !reply.ok
  {
    match reply
    case Unreachable => HookState(placeholder, None, true)
    case Received(ok, body) =>
      if !ok then HookState(placeholder, None, true)
      else if body.success && |body.videos| > 0 then HookState(ConvertAll(body.videos), Some(body.fetchedAt), false)
      else HookState(placeholder, None, false)
  }

  /** `data.filter(v => v.featured)` */
  function FilterFeatured(data: seq<Appearance>): (r: seq<Appearance>)
    ensures |r| <= |data|
    ensures forall k :: 0 <= k < |r| ==> r[k].featured
  {
    if data == [] then []
    else (if data[0].featured then [data[0]] else []) + FilterFeatured(data[1..])
  }

  /** The filter keeps exactly the featured appearances of the data. */
  lemma {:induction false} FilterFeaturedMembers(data: seq<Appearance>)
    ensures forall a :: a in FilterFeatured(data) <==> a in data && a.featured
  {
    if data != [] {
      FilterFeaturedMembers(data[1..]);
      assert data == [data[0]] + data[1..];
    }
  }

  /** Every position moved one place on. */
  function Shift(ps: seq<nat>): (r: seq<nat>)
    ensures |r| == |ps| && forall k :: 0 <= k < |ps| ==> r[k] == ps[k] + 1
  {
    seq(|ps|, k requires 0 <= k < |ps| => ps[k] + 1)
  }

  /** The positions of the featured appearances of `data`, in increasing order. */
  function FeaturedPositions(data: seq<Appearance>): (pos: seq<nat>)
    ensures |pos| <= |data|
  {
    if data == [] then []
    else (if data[0].featured then [0] else []) + Shift(FeaturedPositions(data[1..]))
  }

  /** One step of FeaturedPositions, position by position: `h` is 1 when the head is featured. */
  lemma FeaturedPositionsStep(data: seq<Appearance>, h: nat)
    requires data != [] && h == if data[0].featured then 1 else 0
    ensures |FeaturedPositions(data)| == h + |FeaturedPositions(data[1..])|
    ensures h == 1 ==> FeaturedPositions(data)[0] == 0
    ensures forall k :: h <= k < |FeaturedPositions(data)| ==>
      FeaturedPositions(data)[k] == FeaturedPositions(data[1..])[k - h] + 1
  {
    var head: seq<nat> := if data[0].featured then [0] else [];
    var moved := Shift(FeaturedPositions(data[1..]));
    var pos := FeaturedPositions(data);
    assert pos == head + moved;
    assert |head| == h;
    forall k | h <= k < |pos| ensures pos[k] == moved[k - h] {
    }
  }

  /** The filter picks the data at the featured positions, one element for each. */
  lemma {:induction false} FeaturedPositionsPick(data: seq<Appearance>)
    ensures |FeaturedPositions(data)| == |FilterFeatured(data)|
    ensures forall k :: 0 <= k < |FeaturedPositions(data)| ==>
      FeaturedPositions(data)[k] < |data| && data[FeaturedPositions(data)[k]] == FilterFeatured(data)[k]
  {
    if data != [] {
      var tail := data[1..];
      FeaturedPositionsPick(tail);
      var pos, rest := FeaturedPositions(data), FeaturedPositions(tail);
      var r, rt := FilterFeatured(data), FilterFeatured(tail);
      var h := if data[0].featured then 1 else 0;
      FeaturedPositionsStep(data, h);
      assert r == (if data[0].featured then [data[0]] else []) + rt;
      forall k | h <= k < |pos| ensures pos[k] < |data| && data[pos[k]] == r[k] {
        assert r[k] == rt[k - h];
        assert data[pos[k]] == tail[rest[k - h]];
      }
    }
  }

  /** The featured positions increase strictly, so the filter keeps data order. */
  lemma {:induction false} FeaturedPositionsIncrease(data: seq<Appearance>)
    ensures forall i, j :: 0 <= i < j < |FeaturedPositions(data)| ==> FeaturedPositions(data)[i] < FeaturedPositions(data)[j]
  {
    if data != [] {
      FeaturedPositionsIncrease(data[1..]);
      var pos, rest := FeaturedPositions(data), FeaturedPositions(data[1..]);
      var h := if data[0].featured then 1 else 0;
      FeaturedPositionsStep(data, h);
      forall i, j | 0 <= i < j < |pos| ensures pos[i] < pos[j] {
        assert pos[j] == rest[j - h] + 1;
        if i >= h {
          assert pos[i] == rest[i - h] + 1;
        }
      }
    }
  }

  /** A position is among the featured positions exactly when the appearance there is featured. */
  lemma {:induction false} FeaturedPositionsCover(data: seq<Appearance>)
    ensures forall p :: 0 <= p < |data| ==> (p in FeaturedPositions(data) <==> data[p].featured)
  {
    if data != [] {
      var tail := data[1..];
      FeaturedPositionsCover(tail);
      var pos, rest := FeaturedPositions(data), FeaturedPositions(tail);
      var h := if data[0].featured then 1 else 0;
      FeaturedPositionsStep(data, h);
      forall p | 0 <= p < |data| ensures p in pos <==> data[p].featured {
        if p == 0 {
          assert h == 1 ==> pos[0] == 0;
        } else {
          assert tail[p - 1] == data[p];
          if p in pos {
            var k :| 0 <= k < |pos| && pos[k] == p;
            assert k >= h && rest[k - h] == p - 1;
          }
          if p - 1 in rest {
            var k :| 0 <= k < |rest| && rest[k] == p - 1;
            assert pos[k + h] == p;
          }
        }
      }
    }
  }

  /**
   * The filter preserves order and multiplicity: its result is the data at a strictly
   * increasing run of positions, and those are exactly the featured positions.
   */
  lemma FilterFeaturedPositions(data: seq<Appearance>) returns (pos: seq<nat>)
    ensures |pos| == |FilterFeatured(data)|
    ensures forall k :: 0 <= k < |pos| ==> pos[k] < |data| && data[pos[k]] == FilterFeatured(data)[k]
    ensures forall i, j :: 0 <= i < j < |pos| ==> pos[i] < pos[j]
    ensures forall p :: 0 <= p < |data| ==> (p in pos <==> data[p].featured)
  {
    pos := FeaturedPositions(data);
    FeaturedPositionsPick(data);
    FeaturedPositionsIncrease(data);
    FeaturedPositionsCover(data);
  }

  /** useYouTubeFeaturedVideos: the first six featured appearances, in data order. */
  function FeaturedVideos(data: seq<Appearance>): (r: seq<Appearance>)
    ensures |r| == if |FilterFeatured(data)| <= FeaturedCount then |FilterFeatured(data)| else FeaturedCount
    ensures r == FilterFeatured(data)[..|r|]
    ensures forall a :: a in r ==> a in data && a.featured
  {
    FilterFeaturedMembers(data);
    Take(FilterFeatured(data), FeaturedCount)
  }

  /** useYouTubeRecentVideos: the first three appearances. */
  function RecentVideos(data: seq<Appearance>): (r: seq<Appearance>)
    ensures |r| == if |data| < RecentCount then |data| else RecentCount
    ensures r == data[..|r|]
  {
    Take(data, RecentCount)
  }

  lemma {:induction false} FilterFeaturedAppend(a: seq<Appearance>, b: seq<Appearance>)
    ensures FilterFeatured(a + b) == FilterFeatured(a) + FilterFeatured(b)
  {
    if a != [] {
      FilterFeaturedAppend(a[1..], b);
      assert (a + b)[0] == a[0];
      assert (a + b)[1..] == a[1..] + b;
      var first := if a[0].featured then [a[0]] else [];
      assert FilterFeatured(a + b) == first + FilterFeatured(a[1..] + b);
      assert FilterFeatured(a) == first + FilterFeatured(a[1..]);
    } else {
      assert a + b == b;
    }
  }

  lemma {:induction false} FilterFeaturedAll(a: seq<Appearance>)
    requires forall k :: 0 <= k < |a| ==> a[k].featured
    ensures FilterFeatured(a) == a
  {
    if a != [] {
      FilterFeaturedAll(a[1..]);
    }
  }

  lemma {:induction false} FilterFeaturedNone(a: seq<Appearance>)
    requires forall k :: 0 <= k < |a| ==> !a[k].featured
    ensures FilterFeatured(a) == []
  {
    if a != [] {
      FilterFeaturedNone(a[1..]);
    }
  }

  /** A converted appearance is featured exactly when its position is below six. */
  lemma ConvertAllFeatured(videos: seq<VideoRecord>)
    ensures forall k :: 0 <= k < |ConvertAll(videos)| ==> (ConvertAll(videos)[k].featured <==> k < FeaturedCount)
  {
  }

  /**
   * For converted data, the featured list is exactly the first six appearances, in
   * order: only positions below six carry the flag.
   */
  lemma FeaturedOfConverted(videos: seq<VideoRecord>)
    ensures FeaturedVideos(ConvertAll(videos)) == Take(ConvertAll(videos), FeaturedCount)
  {
    ConvertAllFeatured(videos);
    FeaturedOfFlaggedPrefix(ConvertAll(videos));
  }

  /** When exactly the first six positions carry the flag, the featured list is those six. */
  lemma FeaturedOfFlaggedPrefix(data: seq<Appearance>)
    requires forall k :: 0 <= k < |data| ==> (data[k].featured <==> k < FeaturedCount)
    ensures FeaturedVideos(data) == Take(data, FeaturedCount)
  {
    if |data| <= FeaturedCount {
      FilterFeaturedAll(data);
    } else {
      var head, tail := data[..FeaturedCount], data[FeaturedCount..];
      assert data == head + tail;
      FilterFeaturedAppend(head, tail);
      FilterFeaturedAll(head);
      FilterFeaturedNone(tail);
    }
  }
}
