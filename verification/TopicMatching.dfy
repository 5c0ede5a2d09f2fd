/**
 * MQTT topic matching, once in the router of the broker client and once in the user interface. Strings stand
 * for their UTF-8 bytes.
 */
module TopicMatching {
  import opened Common

  const SHARE_PREFIX := "$share/"
  const QUEUE_PREFIX := "$queue/"
  const MAX_TOPIC_BYTES := 65535

  // ---------------------------------------------------------------- levels

  /** The first '/' at or after `from`. */
  function Slash(s: string, from: nat): (r: Option<nat>)
    requires from <= |s|
    ensures r.Some? ==> from <= r.value < |s| && s[r.value] == '/'
    ensures forall k :: from <= k < (if r.Some? then r.value else |s|) ==> s[k] != '/'
    decreases |s| - from
  {
    if from == |s| then None else if s[from] == '/' then Some(from) else Slash(s, from + 1)
  }

  /** At most `n` parts, the last of them unsplit. */
  function SplitN(s: string, n: nat): seq<string>
    requires n > 0
    decreases n
  {
    var i := Slash(s, 0);
    if n == 1 || i.None? then [s] else [s[..i.value]] + SplitN(s[i.value + 1..], n - 1)
  }

  function Split(s: string): (levels: seq<string>)
    ensures levels != []
    decreases |s|
  {
    var i := Slash(s, 0);
    if i.None? then [s] else [s[..i.value]] + Split(s[i.value + 1..])
  }

  function Join(levels: seq<string>): string
    requires levels != []
    decreases |levels|
  {
    if |levels| == 1 then levels[0] else levels[0] + "/" + Join(levels[1..])
  }

  /** Splitting loses nothing: no two strings have the same levels. */
  lemma {:induction false} JoinSplit(s: string)
    ensures Join(Split(s)) == s
    decreases |s|
  {
    var i := Slash(s, 0);
    if i.Some? {
      JoinSplit(s[i.value + 1..]);
      assert Split(s)[1..] == Split(s[i.value + 1..]);
      assert s == s[..i.value] + "/" + s[i.value + 1..];
    }
  }

  lemma {:induction false} LevelChars(s: string, k: nat, c: char)
    requires k < |Split(s)| && c in Split(s)[k]
    ensures c in s
    decreases |s|
  {
    var i := Slash(s, 0);
    if i.Some? {
      var t := s[i.value + 1..];
      if k == 0 {
        var m :| 0 <= m < i.value && s[..i.value][m] == c;
        assert s[m] == c;
      } else {
        assert ([s[..i.value]] + Split(t))[k] == Split(t)[k - 1];
        LevelChars(t, k - 1, c);
        var m :| 0 <= m < |t| && t[m] == c;
        assert s[i.value + 1 + m] == c;
      }
    }
  }

  // ---------------------------------------------------------------- the shared prefix

  predicate HasPrefix(s: string, p: string) {
    p <= s
  }

  /** As the router strips it. */
  function StripForRouter(filter: string): string {
    if HasPrefix(filter, SHARE_PREFIX) then
      var parts := SplitN(filter, 3);
      if |parts| == 3 then parts[2] else filter
    else if HasPrefix(filter, QUEUE_PREFIX) then filter[|QUEUE_PREFIX|..]
    else filter
  }

  /** As the user interface strips it. */
  function StripForUI(filter: string): string {
    if HasPrefix(filter, SHARE_PREFIX) then
      var groupEnd := Slash(filter, |SHARE_PREFIX|);
      if groupEnd.None? then filter else filter[groupEnd.value + 1..]
    else if HasPrefix(filter, QUEUE_PREFIX) then filter[|QUEUE_PREFIX|..]
    else filter
  }

  lemma {:induction false} SlashIs(s: string, from: nat, i: nat)
    requires from <= i < |s| && s[i] == '/' && forall k :: from <= k < i ==> s[k] != '/'
    ensures Slash(s, from) == Some(i)
  {
    var r := Slash(s, from);
    assert r.Some? && r.value <= i;
  }

  lemma {:induction false} SlashDrop(s: string, d: nat, from: nat)
    requires d <= from <= |s|
    ensures Slash(s[d..], from - d) == if Slash(s, from).None? then None else Some(Slash(s, from).value - d)
    decreases |s| - from
  {
    if from < |s| && s[from] != '/' { SlashDrop(s, d, from + 1); }
  }

  /** Both ways of stripping agree on every filter. */
  lemma StripSame(filter: string)
    ensures StripForRouter(filter) == StripForUI(filter)
  {
    if HasPrefix(filter, SHARE_PREFIX) {
      var n := |SHARE_PREFIX|;
      assert forall k :: 0 <= k < n ==> filter[k] == SHARE_PREFIX[k];
      SlashIs(filter, 0, n - 1);
      var rest := filter[n..];
      assert SplitN(filter, 3) == [filter[..n - 1]] + SplitN(rest, 2);
      SlashDrop(filter, n, n);
      var i := Slash(rest, 0);
      if i.Some? {
        assert SplitN(rest, 2) == [rest[..i.value]] + SplitN(rest[i.value + 1..], 1);
        assert rest[i.value + 1..] == filter[n + i.value + 1..];
      }
    }
  }

  // ---------------------------------------------------------------- matching levels

  /** What both loops compute. */
  predicate Matches(filter: seq<string>, topic: seq<string>) {
    if filter == [] then topic == []
    else if filter[0] == "#" then true
    else topic != [] && (filter[0] == "+" || filter[0] == topic[0]) && Matches(filter[1..], topic[1..])
  }

  predicate LevelMatches(filter: string, topic: string) {
    filter == "+" || filter == topic
  }

  /** Section 4.7.1 of MQTT 3.1.1: a final "#" stands for its parent level and everything below it, "+" for
      one level. */
  ghost predicate Meets(filter: seq<string>, topic: seq<string>) {
    if filter != [] && filter[|filter| - 1] == "#" then
      |filter| - 1 <= |topic| && forall i :: 0 <= i < |filter| - 1 ==> LevelMatches(filter[i], topic[i])
    else
      |filter| == |topic| && forall i :: 0 <= i < |filter| ==> LevelMatches(filter[i], topic[i])
  }

  /** "#" stands nowhere but at the end. */
  ghost predicate HashLast(filter: seq<string>) {
    forall i :: 0 <= i < |filter| - 1 ==> filter[i] != "#"
  }

  lemma {:induction false} MatchesMeets(filter: seq<string>, topic: seq<string>)
    requires HashLast(filter)
    ensures Matches(filter, topic) <==> Meets(filter, topic)
  {
    if filter != [] && filter[0] != "#" {
      if topic != [] {
        assert HashLast(filter[1..]) by {
          assert forall i :: 0 <= i < |filter[1..]| - 1 ==> filter[1..][i] == filter[i + 1];
        }
        MatchesMeets(filter[1..], topic[1..]);
        MeetsStep(filter, topic);
      }
    }
  }

  lemma MeetsStep(filter: seq<string>, topic: seq<string>)
    requires filter != [] && filter[0] != "#" && topic != []
    ensures Meets(filter, topic) <==> LevelMatches(filter[0], topic[0]) && Meets(filter[1..], topic[1..])
  {
    var f, t := filter[1..], topic[1..];
    assert |filter| > 1 ==> f[|f| - 1] == filter[|filter| - 1];
    if LevelMatches(filter[0], topic[0]) && Meets(f, t) {
      forall i | 0 <= i < |filter| && i < |topic| && (i == 0 || (i - 1 < |f| && LevelMatches(f[i - 1], t[i - 1])))
        ensures LevelMatches(filter[i], topic[i])
      {
        if i > 0 { assert f[i - 1] == filter[i] && t[i - 1] == topic[i]; }
      }
    }
    if Meets(filter, topic) {
      forall i | 0 <= i < |f| && i < |t| && LevelMatches(filter[i + 1], topic[i + 1])
        ensures LevelMatches(f[i], t[i]) {}
    }
  }

  /** Any other filter, which a broker may accept, behaves as if it ended at its first "#". */
  lemma {:induction false} MatchesCut(filter: seq<string>, topic: seq<string>, k: nat)
    requires k < |filter| && filter[k] == "#" && forall i :: 0 <= i < k ==> filter[i] != "#"
    ensures Matches(filter, topic) <==> Meets(filter[..k + 1], topic)
  {
    var cut := filter[..k + 1];
    MatchesMeets(cut, topic);
    CutSame(filter, topic, k);
  }

  lemma {:induction false} CutSame(filter: seq<string>, topic: seq<string>, k: nat)
    requires k < |filter| && filter[k] == "#"
    ensures Matches(filter, topic) <==> Matches(filter[..k + 1], topic)
    decreases k
  {
    if k > 0 && filter[0] != "#" && topic != [] {
      CutSame(filter[1..], topic[1..], k - 1);
      assert filter[..k + 1][1..] == filter[1..][..k];
    }
  }

  /** The loop of the router. */
  method FilterMatches(filter: string, topic: string) returns (r: bool)
    ensures r == Matches(Split(StripForRouter(filter)), Split(topic))
  {
    var filterLevels := Split(StripForRouter(filter));
    var topicLevels := Split(topic);
    for i := 0 to |filterLevels|
      invariant i <= |topicLevels|
      invariant Matches(filterLevels, topicLevels) == Matches(filterLevels[i..], topicLevels[i..])
    {
      var f := filterLevels[i];
      if f == "#" { return true; }
      if i >= |topicLevels| || (f != "+" && f != topicLevels[i]) { return false; }
      assert filterLevels[i..][1..] == filterLevels[i + 1..] && topicLevels[i..][1..] == topicLevels[i + 1..];
    }
    r := |filterLevels| == |topicLevels|;
  }

  /** The loop of the user interface, on levels split beforehand. */
  method TopicMatchesParts(pattern: seq<string>, topic: seq<string>) returns (r: bool)
    ensures r == Matches(pattern, topic)
  {
    var i := 0;
    while i < |pattern|
      invariant i <= |pattern| && i <= |topic|
      invariant Matches(pattern, topic) == Matches(pattern[i..], topic[i..])
    {
      if pattern[i] == "#" { return true; }
      if i >= |topic| { return false; }
      if pattern[i] != "+" && pattern[i] != topic[i] { return false; }
      assert pattern[i..][1..] == pattern[i + 1..] && topic[i..][1..] == topic[i + 1..];
      i := i + 1;
    }
    r := |pattern| == |topic|;
  }

  // ---------------------------------------------------------------- valid filters

  ghost predicate ValidLevels(levels: seq<string>) {
    forall i :: 0 <= i < |levels| ==>
      && ('#' in levels[i] ==> levels[i] == "#" && i == |levels| - 1)
      && ('+' in levels[i] ==> levels[i] == "+")
  }

  ghost predicate ValidFilter(filter: string) {
    0 < |filter| <= MAX_TOPIC_BYTES && '\0' !in filter && ValidLevels(Split(filter))
  }

  method ValidateTopicFilter(filter: string) returns (ok: bool)
    ensures ok <==> ValidFilter(filter)
  {
    if filter == "" { return false; }
    if |filter| > MAX_TOPIC_BYTES { return false; }
    if '\0' in filter { return false; }
    var levels := Split(filter);
    for i := 0 to |levels|
      invariant forall k :: 0 <= k < i ==>
        && ('#' in levels[k] ==> levels[k] == "#" && k == |levels| - 1)
        && ('+' in levels[k] ==> levels[k] == "+")
    {
      if '#' in levels[i] && (levels[i] != "#" || i != |levels| - 1) { return false; }
      if '+' in levels[i] && levels[i] != "+" { return false; }
    }
    ok := true;
  }

  /** Dropping leading levels keeps a filter valid. */
  lemma {:induction false} SplitSuffix(s: string, i: nat)
    requires i < |s| && s[i] == '/'
    ensures |Split(s[i + 1..])| < |Split(s)| && Split(s)[|Split(s)| - |Split(s[i + 1..])|..] == Split(s[i + 1..])
    decreases |s|
  {
    var j := Slash(s, 0).value;
    var t, u := s[j + 1..], s[i + 1..];
    if j < i {
      assert t[i - j - 1] == '/' && t[i - j..] == u;
      SplitSuffix(t, i - j - 1);
      SuffixCons(s[..j], Split(t), Split(u));
    } else {
      assert j == i && ([s[..j]] + Split(t))[1..] == Split(t);
    }
  }

  lemma SuffixCons(first: string, rest: seq<string>, end: seq<string>)
    requires |end| <= |rest| && rest[|rest| - |end|..] == end
    ensures ([first] + rest)[1 + |rest| - |end|..] == end
  {
  }

  /** The levels of `part` are the last levels of `filter`. */
  ghost predicate EndsWith(filter: string, part: string) {
    var s, l := Split(part), Split(filter);
    |s| <= |l| && l[|l| - |s|..] == s
  }

  lemma EndsAfter(filter: string, i: nat)
    requires i < |filter| && filter[i] == '/'
    ensures EndsWith(filter, filter[i + 1..])
  {
    SplitSuffix(filter, i);
  }

  lemma QueueSuffix(filter: string)
    requires HasPrefix(filter, QUEUE_PREFIX)
    ensures EndsWith(filter, filter[|QUEUE_PREFIX|..])
  {
    var n := |QUEUE_PREFIX| - 1;
    assert filter[n] == QUEUE_PREFIX[n];
    EndsAfter(filter, n);
  }

  lemma ShareSuffix(filter: string)
    requires HasPrefix(filter, SHARE_PREFIX)
    ensures EndsWith(filter, StripForUI(filter))
  {
    var i := Slash(filter, |SHARE_PREFIX|);
    if i.Some? { EndsAfter(filter, i.value); }
  }

  lemma StripSuffix(filter: string)
    ensures EndsWith(filter, StripForUI(filter))
  {
    if HasPrefix(filter, SHARE_PREFIX) {
      ShareSuffix(filter);
    } else if HasPrefix(filter, QUEUE_PREFIX) {
      QueueSuffix(filter);
    } else {
      assert StripForUI(filter) == filter;
    }
  }

  /** On valid filters, shared or not, matching is what section 4.7.1 says of the filter behind the prefix. */
  lemma ValidFilterMeets(filter: string, topic: string)
    requires ValidFilter(filter)
    ensures Matches(Split(StripForRouter(filter)), Split(topic)) <==> Meets(Split(StripForRouter(filter)), Split(topic))
  {
    StripSame(filter);
    StripSuffix(filter);
    var s, l := Split(StripForUI(filter)), Split(filter);
    forall i | 0 <= i < |s| - 1 ensures s[i] != "#" { assert s[i] == l[|l| - |s| + i]; }
    MatchesMeets(s, Split(topic));
  }

  // ---------------------------------------------------------------- the routes

  datatype Route = Route(filter: string, handler: nat)

  class Router {
    var routes: seq<Route>

    ghost predicate Valid()
      reads this
    {
      forall i, j :: 0 <= i < j < |routes| ==> routes[i].filter != routes[j].filter
    }

    constructor ()
      ensures Valid() && routes == []
    {
      routes := [];
    }

    /** A known filter keeps its place with the new handler, a new one comes last. */
    method SetRoute(filter: string, handler: nat) returns (replaced: bool)
      requires Valid()
      modifies this
      ensures Valid()
      ensures replaced <==> exists i :: 0 <= i < |old(routes)| && old(routes)[i].filter == filter
      ensures !replaced ==> routes == old(routes) + [Route(filter, handler)]
      ensures replaced ==> |routes| == |old(routes)| && forall i :: 0 <= i < |routes| ==>
        routes[i] == if old(routes)[i].filter == filter then Route(filter, handler) else old(routes)[i]
    {
      for i := 0 to |routes|
        invariant routes == old(routes) && forall k :: 0 <= k < i ==> routes[k].filter != filter
      {
        if routes[i].filter == filter {
          routes := routes[i := Route(filter, handler)];
          return true;
        }
      }
      routes := routes + [Route(filter, handler)];
      replaced := false;
    }

    method RemoveRoute(filter: string)
      requires Valid()
      modifies this
      ensures Valid()
      ensures routes == Dropped(old(routes), filter)
    {
      var kept: seq<Route> := [];
      for i := 0 to |routes|
        invariant kept == Dropped(routes[..i], filter) && routes == old(routes)
      {
        assert routes[..i + 1][..i] == routes[..i];
        if routes[i].filter != filter { kept := kept + [routes[i]]; }
      }
      assert routes[..|routes|] == routes;
      DroppedValid(routes, filter);
      routes := kept;
    }

    /** Every message goes to at most one handler: that of the earliest subscription whose filter matches. */
    method Dispatch(topic: string) returns (handler: Option<nat>)
      ensures handler.None? <==> forall i :: 0 <= i < |routes| ==> !Routed(routes[i], topic)
      ensures handler.Some? ==> exists i: nat :: FirstRouted(routes, topic, i) && handler.value == routes[i].handler
    {
      for i := 0 to |routes|
        invariant forall k :: 0 <= k < i ==> !Routed(routes[k], topic)
      {
        var matches := FilterMatches(routes[i].filter, topic);
        if matches {
          assert FirstRouted(routes, topic, i);
          return Some(routes[i].handler);
        }
      }
      handler := None;
    }
  }

  predicate Routed(r: Route, topic: string) {
    Matches(Split(StripForRouter(r.filter)), Split(topic))
  }

  ghost predicate FirstRouted(routes: seq<Route>, topic: string, i: nat) {
    i < |routes| && Routed(routes[i], topic) && forall j :: 0 <= j < i ==> !Routed(routes[j], topic)
  }

  function Dropped(routes: seq<Route>, filter: string): seq<Route> {
    if routes == [] then []
    else
      var last := routes[|routes| - 1];
      Dropped(routes[..|routes| - 1], filter) + if last.filter == filter then [] else [last]
  }

  lemma {:induction false} DroppedValid(routes: seq<Route>, filter: string)
    requires forall i, j :: 0 <= i < j < |routes| ==> routes[i].filter != routes[j].filter
    ensures var d := Dropped(routes, filter);
      && (forall i, j :: 0 <= i < j < |d| ==> d[i].filter != d[j].filter)
      && (forall r :: r in d <==> r in routes && r.filter != filter)
  {
    if routes != [] {
      DroppedValid(routes[..|routes| - 1], filter);
      assert routes == routes[..|routes| - 1] + [routes[|routes| - 1]];
    }
  }

  // ---------------------------------------------------------------- the user interface

  datatype Subscription = Subscription(topic: string, patternParts: Option<seq<string>>)

  function MakeSubscription(topic: string): Subscription {
    var matchFilter := StripForUI(topic);
    var isPattern := matchFilter != topic || '+' in matchFilter || '#' in matchFilter;
    Subscription(topic, if isPattern then Some(Split(matchFilter)) else None)
  }

  predicate SubscriptionMatches(sub: Subscription, topic: string, topicParts: seq<string>) {
    sub.topic == topic || (sub.patternParts.Some? && Matches(sub.patternParts.value, topicParts))
  }

  lemma {:induction false} MatchesSelf(levels: seq<string>)
    ensures Matches(levels, levels)
  {
    if levels != [] { MatchesSelf(levels[1..]); }
  }

  lemma {:induction false} MatchesPlain(filter: seq<string>, topic: seq<string>)
    requires Matches(filter, topic) && forall i :: 0 <= i < |filter| ==> filter[i] != "#" && filter[i] != "+"
    ensures filter == topic
  {
    if filter != [] { MatchesPlain(filter[1..], topic[1..]); }
  }

  /** The message list shows a message under every subscription whose filter the router would match; it also
      accepts a topic that is literally a shared filter, and nothing else. */
  lemma UIVersusRouter(filter: string, topic: string)
    ensures SubscriptionMatches(MakeSubscription(filter), topic, Split(topic))
       <==> Routed(Route(filter, 0), topic) || (topic == filter && StripForUI(filter) != filter)
  {
    StripSame(filter);
    MatchesSelf(Split(filter));
    var sub := MakeSubscription(filter);
    if sub.patternParts.None? && Routed(Route(filter, 0), topic) {
      forall i | 0 <= i < |Split(filter)| ensures Split(filter)[i] != "#" && Split(filter)[i] != "+" {
        if Split(filter)[i] == "#" { LevelChars(filter, i, '#'); }
        if Split(filter)[i] == "+" { LevelChars(filter, i, '+'); }
      }
      MatchesPlain(Split(filter), Split(topic));
      JoinSplit(filter);
      JoinSplit(topic);
    }
  }

  /** Such a topic exists. */
  lemma UIAcceptsMore()
    ensures SubscriptionMatches(MakeSubscription("$queue/a"), "$queue/a", Split("$queue/a"))
    ensures !Routed(Route("$queue/a", 0), "$queue/a")
  {
    var f := "$queue/a";
    assert HasPrefix(f, QUEUE_PREFIX) && !HasPrefix(f, SHARE_PREFIX) by {
      assert f[..|QUEUE_PREFIX|] == QUEUE_PREFIX;
      assert f[1] == 'q';
    }
    SlashIs(f, 0, 6);
    assert f[..6] == "$queue" && f[7..] == "a" && Slash("a", 0).None?;
    assert Split(f) == ["$queue"] + Split("a");
    assert Split("a") == ["a"];
    assert StripForRouter(f) == "a";
  }
}
