/** Printing a log filter as a key and parsing a key back. */
module LogFilters {
  import opened Basics
  import opened Strings

  datatype Topic = Null | One(topic: string) | Many(topics: seq<string>)

  datatype EventFilter = EventFilter(address: Option<string>, topics: Option<seq<Topic>>)

  // ------------------------------------------------------------ keys and filters

  const NUL: string := ['\0']

  /** A topic that is null or the empty string prints as one NUL character. */
  function TopicToString(t: Topic): string {
    match t
    case Null => NUL
    case One(s) => if s == "" then NUL else s
    case Many(parts) => Join(parts, ';')
  }

  function TopicsToStrings(topics: seq<Topic>): (ss: seq<string>)
    ensures |ss| == |topics| && forall i :: 0 <= i < |ss| ==> ss[i] == TopicToString(topics[i])
  {
    seq(|topics|, i requires 0 <= i < |topics| => TopicToString(topics[i]))
  }

  function FilterToKey(f: EventFilter): string {
    (match f.address case None => "" case Some(a) => a)
    + ":" +
    (match f.topics case None => "" case Some(ts) => Join(TopicsToStrings(ts), '-'))
  }

  function StringToTopic(s: string): Topic {
    var parts := Split(s, ';');
    if |parts| == 1 then One(parts[0]) else Many(parts)
  }

  function StringsToTopics(ss: seq<string>): (topics: seq<Topic>)
    ensures |topics| == |ss| && forall i :: 0 <= i < |ss| ==> topics[i] == StringToTopic(ss[i])
  {
    seq(|ss|, i requires 0 <= i < |ss| => StringToTopic(ss[i]))
  }

  /** A key without a colon has no topics part to split. */
  function KeyToFilter(key: string): Option<EventFilter> {
    var pcs := Split(key, ':');
    if |pcs| < 2 then None
    else Some(EventFilter(if pcs[0] == "" then None else Some(pcs[0]), Some(StringsToTopics(Split(pcs[1], '-')))))
  }

  // ------------------------------------------------------------------ stability

  /** One colon, and no empty topic after it. */
  predicate Canonical(key: string) {
    var pcs := Split(key, ':');
    |pcs| == 2 && forall i :: 0 <= i < |Split(pcs[1], '-')| ==> Split(pcs[1], '-')[i] != ""
  }

  predicate Stable(key: string) {
    var f := KeyToFilter(key);
    f.Some? && FilterToKey(f.value) == key
  }

  /** Parsing and printing a topic changes nothing but an empty string. */
  lemma TopicRoundTrip(s: string)
    ensures TopicToString(StringToTopic(s)) == if s == "" then NUL else s
  {
    JoinSplit(s, ';');
  }

  function Reprinted(ss: seq<string>): (r: seq<string>)
    ensures |r| == |ss| && forall i :: 0 <= i < |ss| ==> r[i] == if ss[i] == "" then NUL else ss[i]
  {
    seq(|ss|, i requires 0 <= i < |ss| => if ss[i] == "" then NUL else ss[i])
  }

  lemma TopicsRoundTrip(ss: seq<string>)
    ensures TopicsToStrings(StringsToTopics(ss)) == Reprinted(ss)
  {
    forall i | 0 <= i < |ss| ensures TopicsToStrings(StringsToTopics(ss))[i] == Reprinted(ss)[i] {
      TopicRoundTrip(ss[i]);
    }
  }

  lemma {:induction false} ReprintedLength(ss: seq<string>, c: char)
    ensures |Join(Reprinted(ss), c)| >= |Join(ss, c)|
    ensures (exists i :: 0 <= i < |ss| && ss[i] == "") ==> |Join(Reprinted(ss), c)| > |Join(ss, c)|
  {
    if ss != [] {
      assert Reprinted(ss)[1..] == Reprinted(ss[1..]);
      assert forall i :: 0 < i < |ss| ==> ss[i] == ss[1..][i - 1];
      ReprintedLength(ss[1..], c);
    }
  }

  lemma ReprintedSame(ss: seq<string>)
    requires forall i :: 0 <= i < |ss| ==> ss[i] != ""
    ensures Reprinted(ss) == ss
  {
  }

  /** What printing the parsed key gives. */
  lemma Reprint(key: string)
    requires |Split(key, ':')| >= 2
    ensures KeyToFilter(key).Some?
    ensures var pcs := Split(key, ':');
      FilterToKey(KeyToFilter(key).value) == pcs[0] + ":" + Join(Reprinted(Split(pcs[1], '-')), '-')
  {
    hide Split, StringsToTopics, TopicsToStrings, Reprinted, Join;
    var pcs := Split(key, ':');
    TopicsRoundTrip(Split(pcs[1], '-'));
  }

  lemma KeyParts(key: string)
    requires |Split(key, ':')| >= 2
    ensures var pcs := Split(key, ':');
      && ':' !in pcs[0] && ':' !in pcs[1]
      && key == pcs[0] + ":" + Join(pcs[1..], ':')
      && (|pcs| == 2 ==> Join(pcs[1..], ':') == pcs[1])
  {
    JoinSplit(key, ':');
  }

  /** The reprinted topics contain no colon, so they cannot restore a dropped part. */
  lemma NoColon(s: string)
    requires ':' !in s
    ensures ':' !in Join(Reprinted(Split(s, '-')), '-')
  {
    CharsOfSplit(s, '-', ':');
    CharsOfJoin(Reprinted(Split(s, '-')), '-', ':');
  }

  /** For every string: parsing it as a key and printing the filter gives the
      string back if and only if it has exactly one colon and no empty topic. */
  lemma KeyStable(key: string)
    ensures Stable(key) <==> Canonical(key)
  {
    hide Split, Join, Reprinted, FilterToKey;
    var pcs := Split(key, ':');
    if |pcs| >= 2 {
      var ss := Split(pcs[1], '-');
      Reprint(key);
      KeyParts(key);
      NoColon(pcs[1]);
      JoinSplit(pcs[1], '-');
      ReprintedLength(ss, '-');
      if Canonical(key) {
        ReprintedSame(ss);
      } else if Stable(key) {
        SameAfterColon(pcs[0], Join(Reprinted(ss), '-'), Join(pcs[1..], ':'));
        if |pcs| > 2 { ColonInRest(pcs); }
      }
    }
  }

  lemma SameAfterColon(a: string, b: string, c: string)
    requires a + ":" + b == a + ":" + c
    ensures b == c
  {
    assert (a + ":" + b)[|a| + 1..] == b;
    assert (a + ":" + c)[|a| + 1..] == c;
  }

  lemma ColonInRest(pcs: seq<string>)
    requires |pcs| > 2
    ensures ':' in Join(pcs[1..], ':')
  {
    var rest := pcs[1..];
    assert Join(rest, ':') == rest[0] + [':'] + Join(rest[1..], ':');
    assert Join(rest, ':')[|rest[0]|] == ':';
  }

  // -------------------------------------------------------------- printed filters

  predicate Plain(s: string) {
    ':' !in s && '-' !in s && ';' !in s
  }

  /** At least one topic, each null, a non-empty string or a non-empty list of them,
      and no separator characters. */
  predicate Regular(f: EventFilter) {
    && (f.address.Some? ==> Plain(f.address.value))
    && f.topics.Some? && f.topics.value != []
    && forall i :: 0 <= i < |f.topics.value| ==> RegularTopic(f.topics.value[i])
  }

  predicate RegularTopic(t: Topic) {
    match t
    case Null => true
    case One(s) => s != "" && Plain(s)
    case Many(parts) => parts != [] && forall i :: 0 <= i < |parts| ==> parts[i] != "" && Plain(parts[i])
  }

  lemma RegularTopicPrints(t: Topic)
    requires RegularTopic(t)
    ensures TopicToString(t) != "" && ':' !in TopicToString(t) && '-' !in TopicToString(t)
  {
    match t
    case Many(parts) =>
      CharsOfJoin(parts, ';', ':');
      CharsOfJoin(parts, ';', '-');
    case _ =>
  }

  /** So the key of every regular filter is stable. */
  lemma PrintedKeyStable(f: EventFilter)
    requires Regular(f)
    ensures Stable(FilterToKey(f))
  {
    hide Stable, Split, Join, Plain;
    var ss := TopicsToStrings(f.topics.value);
    forall i | 0 <= i < |ss| ensures ss[i] != "" && ':' !in ss[i] && '-' !in ss[i] {
      RegularTopicPrints(f.topics.value[i]);
    }
    var address := match f.address case None => "" case Some(a) => a;
    assert ':' !in address by { if f.address.Some? { PlainMeaning(f.address.value); } }
    SplitJoin(ss, '-');
    CharsOfJoin(ss, '-', ':');
    SplitAt(address, Join(ss, '-'), ':');
    NoSplit(Join(ss, '-'), ':');
    assert FilterToKey(f) == address + [':'] + Join(ss, '-');
    KeyStable(FilterToKey(f));
  }

  lemma PlainMeaning(s: string)
    requires Plain(s)
    ensures ':' !in s
  {
  }

  /** The filter a regular filter comes back as: null becomes the NUL string, and
      a list of one topic that topic. */
  function Normal(f: EventFilter): EventFilter
    requires f.topics.Some?
  {
    EventFilter(if f.address == Some("") then None else f.address,
                Some(seq(|f.topics.value|, i requires 0 <= i < |f.topics.value| => NormalTopic(f.topics.value[i]))))
  }

  function NormalTopic(t: Topic): Topic {
    match t
    case Null => One(['\0'])
    case One(s) => One(s)
    case Many(parts) => if |parts| == 1 then One(parts[0]) else Many(parts)
  }

  lemma TopicParses(t: Topic)
    requires RegularTopic(t)
    ensures StringToTopic(TopicToString(t)) == NormalTopic(t)
  {
    match t
    case Null => NoSplit(NUL, ';');
    case One(s) => NoSplit(s, ';');
    case Many(parts) => SplitJoin(parts, ';');
  }

  /** Printing and parsing a regular filter loses nothing else. */
  lemma PrintedKeyParses(f: EventFilter)
    requires Regular(f)
    ensures KeyToFilter(FilterToKey(f)) == Some(Normal(f))
  {
    hide Split, Join, Plain;
    var ss := TopicsToStrings(f.topics.value);
    forall i | 0 <= i < |ss|
      ensures ss[i] != "" && ':' !in ss[i] && '-' !in ss[i] && StringToTopic(ss[i]) == NormalTopic(f.topics.value[i])
    {
      RegularTopicPrints(f.topics.value[i]);
      TopicParses(f.topics.value[i]);
    }
    var address := match f.address case None => "" case Some(a) => a;
    assert ':' !in address by { if f.address.Some? { PlainMeaning(f.address.value); } }
    SplitJoin(ss, '-');
    CharsOfJoin(ss, '-', ':');
    SplitAt(address, Join(ss, '-'), ':');
    NoSplit(Join(ss, '-'), ':');
    assert FilterToKey(f) == address + [':'] + Join(ss, '-');
    assert StringsToTopics(ss) == Normal(f).topics.value;
  }
}
